/**
  One reconciliation: the finalized range first, then the unfinalized window, both
  under the projection lock. Only the finalized half can fail the pass.
 */
module Sync {
  import opened Prelude
  import opened Chain
  import opened Projection
  import opened Indexer

  /** The node shows one fork during the pass, and the checkpoint's block is on it, not
      above the head that is read. */
  ghost predicate OneFork(view: nat -> Block, head: Block, finalized: nat, best: nat, c: Checkpoint) {
    && IsChain(view) && head == view(Top(finalized, best))
    && finalized <= c.number <= Top(finalized, best) && view(c.number) == c.hash
  }

  /** What is left once a pass has reconciled the window with the checkpoint's block `base`:
      exactly the accounts ahead of it, unless the window was too wide to scan, and in any
      case only rows that read the same at the head, so none when the head is `base`. */
  ghost predicate Reconciled(rows: Rows, base: Block, head: Block, finalized: nat, best: nat) {
    && (best <= finalized + 64 ==> Speculative(rows) == Ahead(head, base))
    && (forall a :: IsSpeculative(rows, a) ==> Read(head, a) == Good(rows[a].content))
    && (head == base ==> Speculative(rows) == map[])
  }

  /**
    `pass`. `finalized` is read from the chain, `best` from the wake or the chain
    (`None` when reading it failed). Reports whether the finalized half completed
    and whether the speculative half did; `plan` is what the pass came to.
   */
  method Pass(ix: ProjectionStore, chain: nat -> Block, finalized: nat, best: Option<nat>, speculative: bool,
              view: nat -> Block, head: Block, cache: SpeculativeCache, reliable: bool)
    returns (done: bool, speculated: bool, ghost plan: Plan)
    requires IsChain(chain) && Agrees(chain, ix.rows, ix.checkpoint)
    requires forall n: nat :: view(n).number == n
    requires Sound(cache.entries)
    modifies ix, cache
    ensures Sound(cache.entries)
    ensures old(OneWindow(cache.entries, finalized)) ==> OneWindow(cache.entries, finalized)
    ensures Agrees(chain, ix.rows, ix.checkpoint)
    ensures Db(ix.rows, ix.checkpoint) == AfterPass(chain, Db(old(ix.rows), old(ix.checkpoint)), plan, speculative)
    ensures plan.head == finalized
    ensures ix.checkpoint.Some? <==> old(ix.checkpoint).Some?
    ensures done && ix.checkpoint.Some? ==> ix.checkpoint.value.number == Top(old(ix.checkpoint).value.number, finalized)
    ensures speculated ==> speculative && done && best.Some?
    ensures reliable && (forall n: nat :: n <= finalized ==> Readable(chain(n))) ==> done
    ensures done && reliable && speculative && best.Some? && ReadableFor(head, head.consumers.Keys) ==> speculated
    ensures speculated && ix.checkpoint.Some? && OneFork(view, head, finalized, best.value, ix.checkpoint.value) ==>
              Reconciled(ix.rows, ix.checkpoint.value.hash, head, finalized, best.value)
    ensures speculated && ix.checkpoint.Some? && finalized <= old(ix.checkpoint).value.number ==>
              Rechecked(old(ix.rows), ix.rows, head, ix.checkpoint.value.hash, InWindow(view, finalized, best.value))
  {
    if !reliable {
      if * {
        // Reading the head failed, or another instance holds the lock.
        return false, false, Plan(finalized, 0, None);
      }
    }
    ghost var cut;
    done, cut := ix.IndexFinalized(chain, finalized, reliable);
    speculated, plan := false, Plan(finalized, cut, None);
    if !done || !speculative || best.None? {
      return;
    }
    ghost var spec;
    speculated, spec := Speculate(ix, chain, finalized, best.value, view, head, cache, reliable);
    plan := Plan(finalized, cut, spec);
  }

  /** The speculative half: it never touches the checkpoint or a finalized row. What it
      leaves is decided by the checkpoint's block, and is exactly what is ahead of it when
      the head that is read is not behind it. */
  method Speculate(ix: ProjectionStore, ghost chain: nat -> Block, finalized: nat, best: nat,
                   view: nat -> Block, head: Block, cache: SpeculativeCache, reliable: bool)
    returns (ok: bool, ghost spec: Option<(Block, set<Account>)>)
    requires Agrees(chain, ix.rows, ix.checkpoint)
    requires forall n: nat :: view(n).number == n
    requires Sound(cache.entries)
    modifies ix`rows, cache
    ensures Sound(cache.entries)
    ensures old(OneWindow(cache.entries, finalized)) ==> OneWindow(cache.entries, finalized)
    ensures Agrees(chain, ix.rows, ix.checkpoint)
    ensures ix.rows == Speculated(old(ix.rows), spec)
    ensures reliable && ReadableFor(head, head.consumers.Keys) ==> ok
    ensures ok && ix.checkpoint.Some? && OneFork(view, head, finalized, best, ix.checkpoint.value) ==>
              Reconciled(ix.rows, ix.checkpoint.value.hash, head, finalized, best)
    ensures ok && ix.checkpoint.Some? ==>
              Rechecked(old(ix.rows), ix.rows, head, ix.checkpoint.value.hash, InWindow(view, finalized, best))
  {
    ghost var before := ix.rows;
    ok := ix.IndexSpeculativeWindow(view, head, finalized, best, cache, reliable);
    spec := None;
    if ok {
      spec := Some((head, ReReads(view, finalized, best, before)));
      SpeculationKeepsFinalized(before, head, ReReads(view, finalized, best, before));
      if ix.checkpoint.Some? {
        SpeculatesExactly(before, head, ix.checkpoint.value.hash, InWindow(view, finalized, best));
        if OneFork(view, head, finalized, best, ix.checkpoint.value) {
          SpeculationOutcome(view, head, finalized, best, ix.checkpoint.value, before);
        }
      }
    }
  }

  /** What one turn of the service loop is given by the outside. */
  datatype Turn = Turn(finalized: nat, best: Option<nat>, view: nat -> Block, head: Block, reliable: bool)

  predicate HeadsAdvance(turns: seq<Turn>) {
    forall i, j :: 0 <= i < j < |turns| ==> turns[i].finalized <= turns[j].finalized
  }

  ghost predicate Numbered(t: Turn) {
    forall n: nat :: t.view(n).number == n
  }

  /** The turn was not disturbed and nothing on the chain is unreadable. */
  ghost predicate Undisturbed(chain: nat -> Block, t: Turn) {
    t.reliable && forall n: nat :: n <= t.finalized ==> Readable(chain(n))
  }

  /** The service loop over any heads, forks and failures: the projection stays a rescan, is
      what its passes came to one after another, has caught up after an undisturbed turn, and
      while the finalized head does not go back the cache never holds more than 64 blocks. */
  method Follow(ix: ProjectionStore, chain: nat -> Block, turns: seq<Turn>, speculative: bool, cache: SpeculativeCache)
    returns (ghost plans: seq<Plan>)
    requires IsChain(chain) && Agrees(chain, ix.rows, ix.checkpoint)
    requires forall i :: 0 <= i < |turns| ==> Numbered(turns[i])
    requires cache.entries == map[]
    modifies ix, cache
    ensures Agrees(chain, ix.rows, ix.checkpoint) && Sound(cache.entries)
    ensures |plans| == |turns| && forall i :: 0 <= i < |turns| ==> plans[i].head == turns[i].finalized
    ensures Db(ix.rows, ix.checkpoint) == AfterPasses(chain, Db(old(ix.rows), old(ix.checkpoint)), plans, speculative)
    ensures |turns| > 0 && Undisturbed(chain, turns[|turns| - 1]) && ix.checkpoint.Some? ==>
              ix.checkpoint.value.number >= turns[|turns| - 1].finalized
    ensures HeadsAdvance(turns) ==> |cache.entries| <= 64
  {
    plans := [];
    ghost var reached: nat := 0;
    assert WindowAbove(cache.entries, 0);
    for k := 0 to |turns|
      invariant Agrees(chain, ix.rows, ix.checkpoint) && Sound(cache.entries)
      invariant |plans| == k && forall i :: 0 <= i < k ==> plans[i].head == turns[i].finalized
      invariant Db(ix.rows, ix.checkpoint) == AfterPasses(chain, Db(old(ix.rows), old(ix.checkpoint)), plans, speculative)
      invariant k > 0 && Undisturbed(chain, turns[k - 1]) && ix.checkpoint.Some? ==>
                  ix.checkpoint.value.number >= turns[k - 1].finalized
      invariant reached == if k == 0 then 0 else turns[k - 1].finalized
      invariant HeadsAdvance(turns) ==> OneWindow(cache.entries, reached)
    {
      ghost var plan := TakeTurn(ix, chain, turns[k], speculative, cache, reached);
      OnePassMore(chain, Db(old(ix.rows), old(ix.checkpoint)), plans, plan, speculative);
      reached, plans := turns[k].finalized, plans + [plan];
    }
    if HeadsAdvance(turns) {
      CacheHoldsOneWindow(cache.entries, reached, reached);
    }
  }

  /** One turn of the loop, from heads that had reached `reached`. */
  method TakeTurn(ix: ProjectionStore, chain: nat -> Block, t: Turn, speculative: bool, cache: SpeculativeCache, ghost reached: nat)
    returns (ghost plan: Plan)
    requires IsChain(chain) && Agrees(chain, ix.rows, ix.checkpoint)
    requires Numbered(t)
    requires Sound(cache.entries)
    modifies ix, cache
    ensures Agrees(chain, ix.rows, ix.checkpoint) && Sound(cache.entries) && plan.head == t.finalized
    ensures Db(ix.rows, ix.checkpoint) == AfterPass(chain, Db(old(ix.rows), old(ix.checkpoint)), plan, speculative)
    ensures Undisturbed(chain, t) && ix.checkpoint.Some? ==> ix.checkpoint.value.number >= t.finalized
    ensures reached <= t.finalized && old(OneWindow(cache.entries, reached)) ==> OneWindow(cache.entries, t.finalized)
  {
    if reached <= t.finalized && OneWindow(cache.entries, reached) {
      CacheHoldsOneWindow(cache.entries, reached, t.finalized);
    }
    var done, speculated;
    done, speculated, plan := Pass(ix, chain, t.finalized, t.best, speculative, t.view, t.head, cache, t.reliable);
  }

  /** The accounts a speculative pass over `rows` reads at the best head. */
  ghost function ReReads(view: nat -> Block, finalized: nat, best: nat, rows: Rows): set<Account> {
    Affected(rows, InWindow(view, finalized, best))
  }

  /** All three shapes of the window at once. */
  lemma SpeculationOutcome(view: nat -> Block, head: Block, finalized: nat, best: nat, c: Checkpoint, rows: Rows)
    requires OneFork(view, head, finalized, best, c) && Finalized(rows) == Scan(c.hash)
    ensures Reconciled(SpeculateAccounts(rows, head, ReReads(view, finalized, best, rows)), c.hash, head, finalized, best)
  {
    var after := SpeculateAccounts(rows, head, ReReads(view, finalized, best, rows));
    SpeculatesExactly(rows, head, c.hash, InWindow(view, finalized, best));
    if best <= finalized + 64 {
      ScannedWindowIsExact(view, rows, finalized, best, c.number);
    }
    if head == c.hash {
      forall a: Account ensures !IsSpeculative(after, a) {
        RecheckedAccount(rows, head, c.hash, InWindow(view, finalized, best), a);
      }
    }
  }

  // ---- A head behind the checkpoint ----

  /** On one chain, with the checkpoint at block `c`, the pass leaves speculative exactly what
      the highest block known (the head read or the checkpoint) has and the checkpoint's
      block has not. */
  ghost predicate ExactAt(chain: nat -> Block, rows: Rows, finalized: nat, best: nat, c: nat) {
    var top := Top(finalized, best);
    var after := SpeculateAccounts(rows, chain(top), ReReads(chain, finalized, best, rows));
    Speculative(after) == Ahead(chain(if top < c then c else top), chain(c))
  }

  /** Account 7 is registered in block `at` and removed in the next one. */
  function Dropping(at: nat, n: nat): Block {
    var entry := Entry(Consumer([0], Text("a.1"), None));
    Block(0, n, 0, 42, if n == at then map[7 := entry] else map[], if n == at || n == at + 1 then [7] else [])
  }

  lemma DroppingIsChain(chain: nat -> Block, at: nat)
    requires forall n: nat :: chain(n) == Dropping(at, n)
    ensures IsChain(chain) && Read(chain(at), 7).Good?
    ensures forall n: nat :: n != at ==> Scan(chain(n)) == map[]
  {
    SplitLiteFinds("a.1", "a", "1");
    assert chain(at) == Dropping(at, at);
    forall n: nat ensures Follows(chain(n), chain(n + 1)) {
      assert chain(n) == Dropping(at, n) && chain(n + 1) == Dropping(at, n + 1);
    }
    forall n: nat | n != at ensures Scan(chain(n)) == map[] {
      assert chain(n) == Dropping(at, n);
    }
  }

  /** An account the finalized chain has dropped stays speculative when the head that is read
      is behind the checkpoint, however far. */
  lemma StaleHeadKeepsDropped(finalized: nat, best: nat, c: nat) returns (chain: nat -> Block, rows: Rows)
    requires Top(finalized, best) < c && best <= finalized + 64
    ensures Projects(chain, rows, c) && !ExactAt(chain, rows, finalized, best, c)
  {
    var top := Top(finalized, best);
    chain := (n: nat) => Dropping(top, n);
    DroppingIsChain(chain, top);
    rows := map[7 := Row(Read(chain(top), 7).content, chain(top), Some(top))];
    RecheckedAccount(rows, chain(top), chain(c), InWindow(chain, finalized, best), 7);
    ScanReads(chain(c), 7);
    var after := SpeculateAccounts(rows, chain(top), ReReads(chain, finalized, best, rows));
    assert 7 in Speculative(after);
    assert 7 !in Ahead(chain(c), chain(c));
  }

  /** And a pass can admit one afresh, when it still scans a window below the checkpoint. */
  lemma StaleHeadAdmitsDropped(finalized: nat, best: nat, c: nat) returns (chain: nat -> Block, rows: Rows, a: Account)
    requires finalized < best < c && best <= finalized + 64
    ensures Projects(chain, rows, c) && a !in rows && !Read(chain(c), a).Good?
    ensures IsSpeculative(SpeculateAccounts(rows, chain(best), ReReads(chain, finalized, best, rows)), a)
  {
    chain := (n: nat) => Dropping(best, n);
    rows, a := map[], 7;
    DroppingIsChain(chain, best);
    assert Finalized(rows) == map[];
    ScanReads(chain(c), 7);
    assert 7 in chain(best).named && 7 in NamedIn(chain, finalized + 1, best);
    RecheckedAccount(rows, chain(best), chain(c), InWindow(chain, finalized, best), 7);
  }

  /** The table is the projection of the chain's block `c`. */
  ghost predicate Projects(chain: nat -> Block, rows: Rows, c: nat) {
    IsChain(chain) && Finalized(rows) == Scan(chain(c))
  }

  ghost predicate AlwaysExact(finalized: nat, best: nat, c: nat) {
    forall chain, rows :: Projects(chain, rows, c) ==> ExactAt(chain, rows, finalized, best, c)
  }

  lemma ExactWhenNotBehind(chain: nat -> Block, rows: Rows, finalized: nat, best: nat, c: nat)
    requires Projects(chain, rows, c) && finalized <= c <= Top(finalized, best) && best <= finalized + 64
    ensures ExactAt(chain, rows, finalized, best, c)
  {
    ScannedWindowIsExact(chain, rows, finalized, best, c);
  }

  /** The condition under which a scanned pass is exact, for every chain and table: the head
      that is read is not behind the checkpoint. */
  lemma ExactIffHeadNotBehind(finalized: nat, best: nat, c: nat)
    requires finalized <= c && best <= finalized + 64
    ensures AlwaysExact(finalized, best, c) <==> c <= Top(finalized, best)
  {
    if c <= Top(finalized, best) {
      forall chain, rows | Projects(chain, rows, c) ensures ExactAt(chain, rows, finalized, best, c) {
        ExactWhenNotBehind(chain, rows, finalized, best, c);
      }
    } else {
      var chain, rows := StaleHeadKeepsDropped(finalized, best, c);
    }
  }

  // ---- Speculation does not interfere ----

  /** What a pass comes to: the finalized head it saw, how many blocks it indexed before
      something failed, and the speculative transaction it committed, if any, which may be
      over any fork and any accounts. */
  datatype Plan = Plan(head: nat, cut: nat, spec: Option<(Block, set<Account>)>)

  function Speculated(rows: Rows, spec: Option<(Block, set<Account>)>): Rows {
    if spec.Some? then SpeculateAccounts(rows, spec.value.0, spec.value.1) else rows
  }

  /** The database after a pass that started on `db`: which blocks it indexes is read off
      the database's own checkpoint. */
  ghost function AfterPass(chain: nat -> Block, db: Db, p: Plan, speculative: bool): Db {
    var caught := CatchUp(chain, db, p.head, p.cut);
    if speculative then caught.(rows := Speculated(caught.rows, p.spec)) else caught
  }

  ghost function AfterPasses(chain: nat -> Block, db: Db, passes: seq<Plan>, speculative: bool): Db {
    if passes == [] then db
    else AfterPass(chain, AfterPasses(chain, db, passes[..|passes| - 1], speculative), passes[|passes| - 1], speculative)
  }

  /** `clear_speculative`, which every start that gets the projection lock runs. */
  function Cleared(rows: Rows): Rows {
    map a | a in rows && rows[a].speculative.None? :: rows[a]
  }

  ghost predicate SameFinalized(x: Db, y: Db) {
    x.checkpoint == y.checkpoint && Finalized(x.rows) == Finalized(y.rows)
  }

  lemma OnePassMore(chain: nat -> Block, db: Db, passes: seq<Plan>, p: Plan, speculative: bool)
    ensures AfterPasses(chain, db, passes + [p], speculative) ==
      AfterPass(chain, AfterPasses(chain, db, passes, speculative), p, speculative)
  {
    assert (passes + [p])[..|passes|] == passes;
  }

  lemma FinalizedIsFunctional(x: Rows, y: Rows, b: Block, accounts: set<Account>)
    requires Finalized(x) == Finalized(y)
    ensures Finalized(IndexAccounts(x, b, accounts)) == Finalized(IndexAccounts(y, b, accounts))
  {
    var x', y' := IndexAccounts(x, b, accounts), IndexAccounts(y, b, accounts);
    forall a: Account
      ensures a in Finalized(x') <==> a in Finalized(y')
      ensures a in Finalized(x') ==> Finalized(x')[a] == Finalized(y')[a]
    {
      assert a in Finalized(x) <==> a in Finalized(y);
    }
  }

  lemma OneMoreAgrees(chain: nat -> Block, x: Db, y: Db, head: nat)
    requires SameFinalized(x, y)
    ensures SameFinalized(OneMore(chain, x, head), OneMore(chain, y, head))
  {
    if x.checkpoint.Some? {
      var b := chain(x.checkpoint.value.number + 1);
      FinalizedIsFunctional(x.rows, y.rows, b, Named(b.named));
    }
  }

  lemma {:induction false} CatchUpAgrees(chain: nat -> Block, x: Db, y: Db, head: nat, cut: nat)
    requires SameFinalized(x, y)
    ensures SameFinalized(CatchUp(chain, x, head, cut), CatchUp(chain, y, head, cut))
  {
    if cut > 0 {
      CatchUpAgrees(chain, x, y, head, cut - 1);
      OneMoreAgrees(chain, CatchUp(chain, x, head, cut - 1), CatchUp(chain, y, head, cut - 1), head);
    }
  }

  /** Two runs that see the same finalized heads and cut-offs, one with speculation over
      arbitrary forks and one without, have the same checkpoint and the same finalized
      content after every pass; each indexes from its own checkpoint. */
  lemma {:induction false} SpeculationDoesNotInterfere(chain: nat -> Block, on: Db, off: Db, passes: seq<Plan>)
    requires SameFinalized(on, off)
    ensures SameFinalized(AfterPasses(chain, on, passes, true), AfterPasses(chain, off, passes, false))
  {
    if passes != [] {
      var init, last := passes[..|passes| - 1], passes[|passes| - 1];
      SpeculationDoesNotInterfere(chain, on, off, init);
      var x, y := AfterPasses(chain, on, init, true), AfterPasses(chain, off, init, false);
      CatchUpAgrees(chain, x, y, last.head, last.cut);
      if last.spec.Some? {
        SpeculationKeepsFinalized(CatchUp(chain, x, last.head, last.cut).rows, last.spec.value.0, last.spec.value.1);
      }
    }
  }

  /** In particular from the database a start has cleared: nothing speculative is left, and the
      finalized rows are as they were. */
  lemma ClearingKeepsFinalized(db: Db)
    ensures SameFinalized(db, db.(rows := Cleared(db.rows)))
    ensures forall a :: !IsSpeculative(Cleared(db.rows), a)
    ensures forall a :: IsFinalized(db.rows, a) ==> a in Cleared(db.rows) && Cleared(db.rows)[a] == db.rows[a]
  {
    assert Finalized(Cleared(db.rows)) == Finalized(db.rows);
  }
}
