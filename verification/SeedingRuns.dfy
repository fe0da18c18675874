/**
  Whole runs of one indexer process, commit by commit: it may crash between any
  two commits and come back connected to any chain, and while it syncs it indexes
  finalized blocks and speculates on arbitrary forks of its chain.
 */
module SeedingRuns {
  import opened Prelude
  import opened Chain
  import opened Projection
  import opened Indexer
  import opened Bootstrap
  import Sync

  /** The finalized chain behind each genesis hash. */
  type World = nat -> (nat -> Block)

  ghost predicate IsWorld(w: World) {
    forall g: nat :: IsChain(w(g)) && w(g)(0).genesis == g
  }

  /** Where the process is; nothing of it survives a crash. */
  datatype Proc =
    | Down
    | Scanning(genesis: nat, at: Block, done: set<Account>)
    | Cleaned(genesis: nat, at: Block)
    | Syncing(genesis: nat)

  datatype Sys = Sys(db: Db, proc: Proc)

  datatype Event =
    | Crash
    | Boot(genesis: nat, height: nat)
    | CommitPage(accounts: set<Account>)
    | RemoveLeftovers
    | WriteCheckpoint
    | IndexNext
    | Speculate(head: Block, accounts: set<Account>)
    | ClearSpeculative

  /** `reconcile_chain_identity` and what `ensure_seeded` does next. */
  ghost function Booted(w: World, db: Db, genesis: nat, height: nat): Sys {
    if db.checkpoint.None? then Sys(db, Scanning(genesis, w(genesis)(height), {}))
    else if db.checkpoint.value.genesis.None? then
      // Written before the column existed: adopted without question.
      Sys(db.(checkpoint := Some(db.checkpoint.value.(genesis := Some(genesis)))), Syncing(genesis))
    else if db.checkpoint.value.genesis == Some(genesis) then Sys(db, Syncing(genesis))
    else Sys(Db(map[], None), Scanning(genesis, w(genesis)(height), {}))
  }

  ghost predicate Step(w: World, s: Sys, e: Event, s': Sys) {
    match e
    case Crash => s' == s.(proc := Down)
    case Boot(genesis, height) => s.proc.Down? && s' == Booted(w, s.db, genesis, height)
    case CommitPage(accounts) =>
      && s.proc.Scanning? && (forall a :: a in accounts ==> Read(s.proc.at, a).Good?)
      && s' == Sys(s.db.(rows := UpsertAll(s.db.rows, s.proc.at, accounts)), s.proc.(done := s.proc.done + accounts))
    case RemoveLeftovers =>
      // Reached only when the scan met no iterator error, so it saw every entry.
      && s.proc.Scanning? && Scan(s.proc.at).Keys <= s.proc.done
      && s' == Sys(s.db.(rows := WithoutLeftovers(s.db.rows, s.proc.at)), Cleaned(s.proc.genesis, s.proc.at))
    case WriteCheckpoint =>
      && s.proc.Cleaned?
      && s' == Sys(s.db.(checkpoint := Some(Checkpoint(s.proc.at.number, s.proc.at, Some(s.proc.genesis)))), Syncing(s.proc.genesis))
    case IndexNext =>
      && s.proc.Syncing? && s.db.checkpoint.Some?
      && var b := w(s.proc.genesis)(s.db.checkpoint.value.number + 1);
      && Readable(b)
      && s' == s.(db := Db(IndexAccounts(s.db.rows, b, Named(b.named)), Advanced(s.db.checkpoint, b)))
    case Speculate(head, accounts) =>
      && s.proc.Syncing? && head.genesis == s.proc.genesis
      && s' == s.(db := s.db.(rows := SpeculateAccounts(s.db.rows, head, accounts)))
    case ClearSpeculative => s' == s.(db := s.db.(rows := Sync.Cleared(s.db.rows))) && !s.proc.Scanning? && !s.proc.Cleaned?
  }

  // ---- The invariant ----

  /** The projection belongs to chain `g` and agrees with a rescan at its checkpoint. */
  ghost predicate BuiltFrom(w: World, g: nat, db: Db) {
    && db.checkpoint.Some?
    && db.checkpoint.value.hash == w(g)(db.checkpoint.value.number)
    && Finalized(db.rows) == Scan(db.checkpoint.value.hash)
    && (forall a :: a in db.rows ==> db.rows[a].snapshot.genesis == g)
  }

  /** A stamp tells the truth; an unstamped checkpoint is some chain's projection. */
  ghost predicate Stamped(w: World, db: Db) {
    db.checkpoint.Some? ==>
      BuiltFrom(w, if db.checkpoint.value.genesis.Some? then db.checkpoint.value.genesis.value else db.checkpoint.value.hash.genesis, db)
  }

  ghost predicate Inv(w: World, s: Sys) {
    && RowsSound(s.db.rows) && Stamped(w, s.db)
    && match s.proc
       case Down => true
       case Scanning(g, at, done) =>
         && s.db.checkpoint.None? && at == w(g)(at.number)
         && (forall a :: a in done ==> Read(at, a).Good? && a in s.db.rows && s.db.rows[a] == Row(Read(at, a).content, at, None))
       case Cleaned(g, at) => s.db.checkpoint.None? && at == w(g)(at.number) && s.db.rows == Fresh(at)
       case Syncing(g) => s.db.checkpoint.Some? && s.db.checkpoint.value.genesis == Some(g)
  }

  /** The one way the stamp can lie: adopting an unstamped checkpoint on a chain it was
      not built from. A start could check this before adopting, by comparing the
      checkpoint's hash with the connected chain's block at that height. */
  ghost predicate AdoptsForeign(w: World, s: Sys, e: Event) {
    && e.Boot? && s.db.checkpoint.Some? && s.db.checkpoint.value.genesis.None?
    && s.db.checkpoint.value.hash != w(e.genesis)(s.db.checkpoint.value.number)
  }

  /** An empty database, or one whose checkpoint predates the genesis column. */
  ghost predicate Initial(w: World, s: Sys) {
    s.proc.Down? && RowsSound(s.db.rows) && (s.db.checkpoint.Some? ==> s.db.checkpoint.value.genesis.None?) && Stamped(w, s.db)
  }

  lemma FreshIsScan(w: World, g: nat, at: Block)
    requires IsWorld(w) && at == w(g)(at.number)
    ensures RowsSound(Fresh(at)) && Finalized(Fresh(at)) == Scan(at)
    ensures forall a :: a in Fresh(at) ==> Fresh(at)[a].snapshot.genesis == g
  {
    assert IsChain(w(g)) && w(g)(at.number).genesis == w(g)(0).genesis;
  }

  lemma BootKeepsInv(w: World, s: Sys, e: Event, s': Sys)
    requires IsWorld(w) && Inv(w, s) && Step(w, s, e, s') && e.Boot? && !AdoptsForeign(w, s, e)
    ensures Inv(w, s')
  {
    var c := s.db.checkpoint;
    assert IsChain(w(e.genesis)) && w(e.genesis)(e.height).number == e.height;
    if c.Some? && c.value.genesis.None? {
      var n := c.value.number;
      assert IsChain(w(e.genesis)) && w(e.genesis)(n).genesis == w(e.genesis)(0).genesis == e.genesis;
    }
  }

  lemma ScanKeepsInv(w: World, s: Sys, e: Event, s': Sys)
    requires IsWorld(w) && Inv(w, s) && Step(w, s, e, s') && (e.CommitPage? || e.RemoveLeftovers? || e.WriteCheckpoint?)
    ensures Inv(w, s')
  {
    match e
    case RemoveLeftovers =>
      var at := s.proc.at;
      forall a | a in Scan(at) ensures a in s.db.rows && s.db.rows[a] == Row(Scan(at)[a], at, None) {
        ScanReads(at, a);
      }
      CleanupIsExact(s.db.rows, at);
      FreshIsScan(w, s.proc.genesis, at);
    case WriteCheckpoint => FreshIsScan(w, s.proc.genesis, s.proc.at);
    case _ =>
  }

  lemma IndexKeepsInv(w: World, s: Sys, e: Event, s': Sys)
    requires IsWorld(w) && Inv(w, s) && Step(w, s, e, s') && e.IndexNext?
    ensures Inv(w, s')
  {
    var g, n := s.proc.genesis, s.db.checkpoint.value.number;
    assert IsChain(w(g)) && Follows(w(g)(n), w(g)(n + 1)) && w(g)(n + 1).number == n + 1;
    assert w(g)(n + 1).genesis == w(g)(0).genesis == g;
    IndexFollowsScan(s.db.rows, w(g)(n), w(g)(n + 1));
  }

  /** Every row a speculative transaction leaves was read from its own snapshot, and from the
      chain the transaction and the older rows came from. */
  lemma SpeculationIsSound(rows: Rows, head: Block, accounts: set<Account>)
    requires RowsSound(rows)
    ensures RowsSound(SpeculateAccounts(rows, head, accounts))
    ensures forall a :: a in SpeculateAccounts(rows, head, accounts) ==>
      var snapshot := SpeculateAccounts(rows, head, accounts)[a].snapshot;
      snapshot == head || (a in rows && snapshot == rows[a].snapshot)
  {
  }

  lemma SpeculationKeepsInv(w: World, s: Sys, e: Event, s': Sys)
    requires IsWorld(w) && Inv(w, s) && Step(w, s, e, s') && e.Speculate?
    ensures Inv(w, s')
  {
    SpeculationIsSound(s.db.rows, e.head, e.accounts);
    SpeculationKeepsFinalized(s.db.rows, e.head, e.accounts);
  }

  lemma ClearingKeepsInv(w: World, s: Sys, e: Event, s': Sys)
    requires IsWorld(w) && Inv(w, s) && Step(w, s, e, s') && e.ClearSpeculative?
    ensures Inv(w, s')
  {
    Sync.ClearingKeepsFinalized(s.db);
  }

  lemma StepKeepsInv(w: World, s: Sys, e: Event, s': Sys)
    requires IsWorld(w) && Inv(w, s) && Step(w, s, e, s') && !AdoptsForeign(w, s, e)
    ensures Inv(w, s')
  {
    match e
    case Crash =>
    case Boot(_, _) => BootKeepsInv(w, s, e, s');
    case CommitPage(_) => ScanKeepsInv(w, s, e, s');
    case RemoveLeftovers => ScanKeepsInv(w, s, e, s');
    case WriteCheckpoint => ScanKeepsInv(w, s, e, s');
    case IndexNext => IndexKeepsInv(w, s, e, s');
    case Speculate(_, _) => SpeculationKeepsInv(w, s, e, s');
    case ClearSpeculative => ClearingKeepsInv(w, s, e, s');
  }

  // ---- Whole runs ----

  ghost predicate IsRun(w: World, states: seq<Sys>, events: seq<Event>) {
    && |states| == |events| + 1 && Initial(w, states[0])
    && (forall i :: 0 <= i < |events| ==> Step(w, states[i], events[i], states[i + 1]))
    && (forall i :: 0 <= i < |events| ==> !AdoptsForeign(w, states[i], events[i]))
  }

  lemma {:induction false} InvThroughRun(w: World, states: seq<Sys>, events: seq<Event>, k: nat)
    requires IsWorld(w) && IsRun(w, states, events) && k < |states|
    ensures Inv(w, states[k])
  {
    if k > 0 {
      InvThroughRun(w, states, events, k - 1);
      StepKeepsInv(w, states[k - 1], events[k - 1], states[k]);
    }
  }

  /** The index is a rescan: in every reachable state with a checkpoint, the finalized
      rows are exactly what a fresh full scan at the checkpoint block would decode, and
      every row (speculative ones too) was read from the chain the stamp names. */
  lemma IndexEqualsRescan(w: World, states: seq<Sys>, events: seq<Event>, k: nat)
    requires IsWorld(w) && IsRun(w, states, events) && k < |states|
    requires states[k].db.checkpoint.Some?
    ensures var db := states[k].db;
      && Finalized(db.rows) == Scan(db.checkpoint.value.hash)
      && (db.checkpoint.value.genesis.Some? ==>
            var g := db.checkpoint.value.genesis.value;
            && db.checkpoint.value.hash == w(g)(db.checkpoint.value.number)
            && (forall a :: a in db.rows ==> db.rows[a].snapshot.genesis == g))
  {
    InvThroughRun(w, states, events, k);
  }

  /** Leftovers never survive a completed scan: when the checkpoint is written the
      table holds the scanned block's rows and nothing else. */
  lemma NothingSurvivesAScan(w: World, states: seq<Sys>, events: seq<Event>, k: nat)
    requires IsWorld(w) && IsRun(w, states, events) && k < |events| && events[k].WriteCheckpoint?
    ensures states[k].proc.Cleaned? && states[k + 1].db.rows == Fresh(states[k].proc.at)
  {
    InvThroughRun(w, states, events, k);
    assert Step(w, states[k], events[k], states[k + 1]);
  }

  /** A start adopts an unstamped checkpoint correctly if and only if the checkpoint's
      block is the connected chain's block at that height. */
  lemma AdoptionIsSafeExactlyAtHome(w: World, s: Sys, e: Event, s': Sys)
    requires IsWorld(w) && Inv(w, s) && Step(w, s, e, s') && e.Boot?
    requires s.db.checkpoint.Some? && s.db.checkpoint.value.genesis.None?
    ensures Inv(w, s') <==> s.db.checkpoint.value.hash == w(e.genesis)(s.db.checkpoint.value.number)
  {
    if !AdoptsForeign(w, s, e) {
      StepKeepsInv(w, s, e, s');
    }
  }

  /** And such a mistake is possible: an unstamped projection of one chain, adopted on
      another, keeps serving the first chain's rows under the second chain's stamp. */
  lemma ForeignAdoptionHappens(w: World, g: nat, other: nat, n: nat)
    requires IsWorld(w) && g != other
    ensures exists s, e, s' :: Inv(w, s) && Step(w, s, e, s') && AdoptsForeign(w, s, e) && !Inv(w, s')
  {
    assert IsChain(w(g)) && w(g)(n).number == n;
    FreshIsScan(w, g, w(g)(n));
    assert IsChain(w(g)) && w(g)(n).genesis == w(g)(0).genesis == g;
    assert IsChain(w(other)) && w(other)(n).genesis == w(other)(0).genesis == other;
    var db := Db(Fresh(w(g)(n)), Some(Checkpoint(n, w(g)(n), None)));
    var s, e := Sys(db, Down), Boot(other, n);
    var s' := Booted(w, db, other, n);
    assert Inv(w, s) && Step(w, s, e, s') && AdoptsForeign(w, s, e) && !Inv(w, s');
  }

  // ---- Seeding is such a run ----

  ghost predicate IsSteps(w: World, states: seq<Sys>, events: seq<Event>) {
    && |states| == |events| + 1
    && forall i :: 0 <= i < |events| ==> Step(w, states[i], events[i], states[i + 1])
  }

  lemma OneMoreStep(w: World, states: seq<Sys>, events: seq<Event>, e: Event, s': Sys)
    requires IsSteps(w, states, events) && Step(w, states[|states| - 1], e, s')
    ensures IsSteps(w, states + [s'], events + [e])
  {
    var states', events' := states + [s'], events + [e];
    forall i | 0 <= i < |events'| ensures Step(w, states'[i], events'[i], states'[i + 1]) {
      assert i < |events| ==> states'[i] == states[i] && states'[i + 1] == states[i + 1] && events'[i] == events[i];
    }
  }

  /** The pages of a scan, each its own step. */
  lemma {:induction false} PagesAreSteps(w: World, states0: seq<Sys>, events0: seq<Event>, pages: seq<set<Account>>)
    returns (states: seq<Sys>, events: seq<Event>)
    requires IsSteps(w, states0, events0)
    requires var s := states0[|states0| - 1]; s.proc.Scanning? && s.proc.done == {}
    requires forall a :: a in Union(pages) ==> Read(states0[|states0| - 1].proc.at, a).Good?
    ensures IsSteps(w, states, events) && states[0] == states0[0]
    ensures var s := states0[|states0| - 1];
      states[|states| - 1] ==
      Sys(s.db.(rows := UpsertAll(s.db.rows, s.proc.at, Union(pages))), s.proc.(done := Union(pages)))
    decreases |pages|
  {
    var s := states0[|states0| - 1];
    if pages == [] {
      states, events := states0, events0;
      assert UpsertAll(s.db.rows, s.proc.at, {}) == s.db.rows;
    } else {
      var init, page := pages[..|pages| - 1], pages[|pages| - 1];
      assert Union(pages) == Union(init) + page;
      states, events := PagesAreSteps(w, states0, events0, init);
      UpsertTwice(s.db.rows, s.proc.at, Union(init), page);
      var next := Sys(s.db.(rows := UpsertAll(s.db.rows, s.proc.at, Union(pages))), s.proc.(done := Union(pages)));
      OneMoreStep(w, states, events, CommitPage(page), next);
      states, events := states + [next], events + [CommitPage(page)];
    }
  }

  /** What a scan committed, from the state its start led to, is a sequence of steps: the
      cleanup is reached only with every entry of the block among the pages. */
  lemma TrailIsSteps(w: World, states0: seq<Sys>, events0: seq<Event>, t: Trail)
    returns (states: seq<Sys>, events: seq<Event>)
    requires IsSteps(w, states0, events0)
    requires var s := states0[|states0| - 1]; s.proc.Scanning? && s.proc.done == {} && IsTrail(t, s.proc.at)
    ensures IsSteps(w, states, events) && states[0] == states0[0]
    ensures var s := states0[|states0| - 1];
      && states[|states| - 1].db == Left(s.db, s.proc.at, s.proc.genesis, t)
      && (t.stamped <==> states[|states| - 1].proc == Syncing(s.proc.genesis))
  {
    var s := states0[|states0| - 1];
    states, events := PagesAreSteps(w, states0, events0, t.pages);
    if t.cleaned {
      var cleaned := Sys(Left(s.db, s.proc.at, s.proc.genesis, t.(stamped := false)), Cleaned(s.proc.genesis, s.proc.at));
      OneMoreStep(w, states, events, RemoveLeftovers, cleaned);
      states, events := states + [cleaned], events + [RemoveLeftovers];
    }
    if t.stamped {
      var stamped := Sys(Left(s.db, s.proc.at, s.proc.genesis, t), Syncing(s.proc.genesis));
      OneMoreStep(w, states, events, WriteCheckpoint, stamped);
      states, events := states + [stamped], events + [WriteCheckpoint];
    }
  }

  /** `ensure_seeded`, wherever it fails, is a sequence of the steps the runs are made of, and
      ends syncing exactly when it says the projection is usable. */
  method Seed(ix: ProjectionStore, ghost w: World, genesis: nat, height: nat, items: seq<Item>, b: Block, pageSize: nat,
              reliable: bool)
    returns (r: Seeding, ghost states: seq<Sys>, ghost events: seq<Event>)
    requires Lists(items, b) && b == w(genesis)(height) && RowsSound(ix.rows)
    modifies ix
    ensures IsSteps(w, states, events)
    ensures states[0] == Sys(Db(old(ix.rows), old(ix.checkpoint)), Down)
    ensures states[|states| - 1].db == Db(ix.rows, ix.checkpoint)
    ensures reliable && IteratorError !in items ==> !r.Unseeded?
    ensures !r.Unseeded? <==> states[|states| - 1].proc == Syncing(genesis)
  {
    ghost var start := Sys(Db(ix.rows, ix.checkpoint), Down);
    ghost var trail;
    r, trail := EnsureSeeded(ix, genesis, items, b, pageSize, reliable);
    states, events := [start], [];
    if r.Usable? || trail.Some? {
      ghost var booted := Booted(w, start.db, genesis, height);
      OneMoreStep(w, states, events, Boot(genesis, height), booted);
      states, events := [start, booted], [Boot(genesis, height)];
    }
    if trail.Some? {
      states, events := TrailIsSteps(w, states, events, trail.value);
    }
  }

  // ---- So is syncing ----

  /** Indexing the next block is a step, when it does anything. */
  lemma OneMoreIsStep(w: World, s: Sys, head: nat)
    requires s.proc.Syncing? && s.db.checkpoint.Some?
    ensures var next := OneMore(w(s.proc.genesis), s.db, head);
      next.checkpoint.Some? && (next == s.db || Step(w, s, IndexNext, s.(db := next)))
  {
  }

  lemma {:induction false} CatchUpIsSteps(w: World, s: Sys, head: nat, cut: nat) returns (states: seq<Sys>, events: seq<Event>)
    requires s.proc.Syncing? && s.db.checkpoint.Some?
    ensures IsSteps(w, states, events) && states[0] == s
    ensures states[|states| - 1] == s.(db := CatchUp(w(s.proc.genesis), s.db, head, cut))
    ensures states[|states| - 1].db.checkpoint.Some?
    decreases cut
  {
    if cut == 0 {
      states, events := [s], [];
    } else {
      states, events := CatchUpIsSteps(w, s, head, cut - 1);
      var last := states[|states| - 1];
      OneMoreIsStep(w, last, head);
      var next := last.(db := OneMore(w(s.proc.genesis), last.db, head));
      if next != last {
        OneMoreStep(w, states, events, IndexNext, next);
        states, events := states + [next], events + [IndexNext];
      }
    }
  }

  /** What a reconciliation pass comes to, whatever failed in it, is a sequence of the runs'
      steps, as long as the forks it read belong to the connected chain. */
  lemma PassIsSteps(w: World, s: Sys, plan: Sync.Plan, speculative: bool) returns (states: seq<Sys>, events: seq<Event>)
    requires s.proc.Syncing? && s.db.checkpoint.Some?
    requires plan.spec.Some? ==> plan.spec.value.0.genesis == s.proc.genesis
    ensures IsSteps(w, states, events) && states[0] == s
    ensures states[|states| - 1] == s.(db := Sync.AfterPass(w(s.proc.genesis), s.db, plan, speculative))
  {
    states, events := CatchUpIsSteps(w, s, plan.head, plan.cut);
    if speculative && plan.spec.Some? {
      var (head, accounts) := plan.spec.value;
      var next := s.(db := Sync.AfterPass(w(s.proc.genesis), s.db, plan, true));
      OneMoreStep(w, states, events, Speculate(head, accounts), next);
      states, events := states + [next], events + [Speculate(head, accounts)];
    }
  }
}
