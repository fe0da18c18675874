/**
  The indexing passes over the projection: finalized blocks one commit at a time,
  and the speculative window above them. Any chain or database call may fail, at
  any point; `if *` is where.
 */
module Indexer {
  import opened Prelude
  import opened Chain
  import opened Projection

  function Named(accounts: seq<Account>): set<Account> {
    set a | a in accounts
  }

  // ---- The cache of unfinalized events ----

  datatype CachedBlock = CachedBlock(hash: Block, accounts: seq<Account>)

  /** Every entry holds what the block with that hash and height names. */
  predicate Sound(entries: map<nat, CachedBlock>) {
    forall n :: n in entries ==> entries[n].hash.number == n && entries[n].accounts == entries[n].hash.named
  }

  class SpeculativeCache {
    var entries: map<nat, CachedBlock>

    constructor ()
      ensures entries == map[]
    {
      entries := map[];
    }

    /** What a lookup of this block finds. */
    function Answer(number: nat, hash: Block): Option<seq<Account>>
      reads this
    {
      if number in entries && entries[number].hash == hash then Some(entries[number].accounts) else None
    }

    /** A height answers only for the hash it was read from. */
    method Get(number: nat, hash: Block) returns (accounts: Option<seq<Account>>)
      ensures accounts.Some? <==> number in entries && entries[number].hash == hash
      ensures accounts.Some? ==> accounts.value == entries[number].accounts
    {
      if number in entries && entries[number].hash == hash {
        return Some(entries[number].accounts);
      }
      return None;
    }

    /** From now on the height answers for this block alone; no other height is touched,
        and a cache of true readings that gains one stays one. */
    method Insert(number: nat, hash: Block, accounts: seq<Account>)
      modifies this
      ensures Answer(number, hash) == Some(accounts)
      ensures forall other :: other != hash ==> Answer(number, other) == None
      ensures forall n: nat, h :: n != number ==> Answer(n, h) == old(Answer(n, h))
      ensures entries.Keys == old(entries.Keys) + {number}
      ensures old(Sound(entries)) && hash.number == number && accounts == hash.named ==> Sound(entries)
    {
      entries := entries[number := CachedBlock(hash, accounts)];
    }

    /** Forget every height finality has reached. */
    method PruneFinalized(finalized: nat)
      modifies this
      ensures entries.Keys == set n | n in old(entries) && n > finalized
      ensures forall n :: n in entries ==> entries[n] == old(entries)[n]
    {
      entries := map n | n in entries && n > finalized :: entries[n];
    }
  }

  // ---- The speculative window ----

  const MAX_SPECULATIVE_WINDOW: nat := 64

  datatype Window = Nothing | StandDown | ScanRange(low: nat, high: nat)

  function PlanWindow(finalized: nat, best: nat): (w: Window)
    ensures w.Nothing? <==> best <= finalized
    ensures w.ScanRange? <==> finalized < best <= finalized + 64
    ensures w.ScanRange? ==> w == ScanRange(finalized + 1, best)
  {
    if best <= finalized then Nothing
    else if best - finalized > MAX_SPECULATIVE_WINDOW then StandDown
    else ScanRange(finalized + 1, best)
  }

  /** The accounts named by the blocks a node shows at heights `low` to `high`. */
  ghost function NamedIn(view: nat -> Block, low: nat, high: nat): set<Account> {
    set n, a | low <= n <= high && a in view(n).named :: a
  }

  /** The head a pass reads at: the best one, or the finalized one when that is higher. */
  function Top(finalized: nat, best: nat): nat {
    if best > finalized then best else finalized
  }

  /** The accounts the window names at the heights it scans; none when it scans nothing. */
  ghost function InWindow(view: nat -> Block, finalized: nat, best: nat): set<Account> {
    if finalized < best <= finalized + 64 then NamedIn(view, finalized + 1, best) else {}
  }

  /** What the pass re-reads at the best head, given the accounts the window named. */
  function Affected(rows: Rows, named: set<Account>): set<Account> {
    set a | a in named + rows.Keys && !IsFinalized(rows, a) && (a in named || IsSpeculative(rows, a))
  }

  /** All heights lie in one window above a head that finality has reached. */
  ghost predicate OneWindow(entries: map<nat, CachedBlock>, finalized: nat) {
    exists f: nat :: f <= finalized && WindowAbove(entries, f)
  }

  predicate WindowAbove(entries: map<nat, CachedBlock>, f: nat) {
    forall n :: n in entries ==> f < n <= f + 64
  }

  /** Every entry the block's events name can be read as a consumer record. */
  predicate Readable(b: Block) {
    forall a :: a in b.named && a in b.consumers ==> b.consumers[a].Entry?
  }

  predicate ReadableFor(b: Block, accounts: set<Account>) {
    forall a :: a in accounts && a in b.consumers ==> b.consumers[a].Entry?
  }

  class ProjectionStore {
    var rows: Rows
    var checkpoint: Option<Checkpoint>

    constructor ()
      ensures rows == map[] && checkpoint == None
    {
      rows, checkpoint := map[], None;
    }

    /** `index_block`: the writes and the checkpoint commit together or not at all, and not
        when a named entry is no consumer record. When no call fails (`reliable`) that is the
        only reason. */
    method IndexBlock(b: Block, reliable: bool) returns (ok: bool)
      modifies this
      ensures !ok ==> rows == old(rows) && checkpoint == old(checkpoint)
      ensures ok ==> Readable(b)
      ensures reliable && Readable(b) ==> ok
      ensures ok ==> rows == IndexAccounts(old(rows), b, Named(b.named))
      ensures ok ==> checkpoint == Advanced(old(checkpoint), b)
    {
      if !reliable {
        if * {
          return false;
        }
      }
      var tx, todo := rows, Named(b.named);
      ghost var done: set<Account> := {};
      assert tx == IndexAccounts(rows, b, done);
      while todo != {}
        invariant rows == old(rows) && checkpoint == old(checkpoint)
        invariant done + todo == Named(b.named)
        invariant tx == IndexAccounts(rows, b, done)
        invariant ReadableFor(b, done)
        decreases todo
      {
        if !reliable {
          if * {
            return false;
          }
        }
        var a :| a in todo;
        IndexOneMore(rows, b, done, a);
        ReadsByStorage(b, a);
        match Read(b, a) {
          case Unreadable => return false;
          case Good(content) => tx := Upserted(tx, a, content, b);
          case Malformed(_) => tx := Deleted(tx, a);
          case Absent => tx := Deleted(tx, a);
        }
        todo, done := todo - {a}, done + {a};
      }
      assert done == Named(b.named);
      rows, checkpoint := tx, Advanced(checkpoint, b);
      return true;
    }

    /** The block after the checkpoint: an attempt at it keeps the projection agreed. */
    method IndexNext(chain: nat -> Block, reliable: bool) returns (ok: bool)
      requires IsChain(chain) && checkpoint.Some? && Agrees(chain, rows, checkpoint)
      modifies this
      ensures Agrees(chain, rows, checkpoint) && checkpoint.Some?
      ensures checkpoint.value.genesis == old(checkpoint).value.genesis
      ensures checkpoint.value.number == old(checkpoint).value.number + if ok then 1 else 0
      ensures !ok ==> rows == old(rows) && checkpoint == old(checkpoint)
      ensures reliable && Readable(chain(old(checkpoint).value.number + 1)) ==> ok
      ensures ok ==> forall head :: head > old(checkpoint).value.number ==>
                Db(rows, checkpoint) == OneMore(chain, Db(old(rows), old(checkpoint)), head)
    {
      var number := checkpoint.value.number;
      assert Follows(chain(number), chain(number + 1)) && chain(number + 1).number == number + 1;
      IndexFollowsScan(rows, chain(number), chain(number + 1));
      ok := IndexBlock(chain(number + 1), reliable);
    }

    /** `index_from_checkpoint`, cut off after any block: whatever fails, the finalized
        rows are what a full scan at the checkpoint would index. */
    method IndexFinalized(chain: nat -> Block, head: nat, reliable: bool) returns (ok: bool, ghost cut: nat)
      requires IsChain(chain) && Agrees(chain, rows, checkpoint)
      modifies this
      ensures Agrees(chain, rows, checkpoint)
      ensures Db(rows, checkpoint) == CatchUp(chain, Db(old(rows), old(checkpoint)), head, cut)
      ensures checkpoint.Some? <==> old(checkpoint).Some?
      ensures checkpoint.Some? ==>
                && checkpoint.value.genesis == old(checkpoint).value.genesis
                && old(checkpoint).value.number <= checkpoint.value.number
                && (head <= old(checkpoint).value.number ==> checkpoint == old(checkpoint) && rows == old(rows))
                && (ok && head > old(checkpoint).value.number ==> checkpoint.value.number == head)
      ensures reliable && (forall n: nat :: n <= head ==> Readable(chain(n))) ==> ok
    {
      cut := 0;
      if checkpoint.None? || head <= checkpoint.value.number {
        return true, cut;
      }
      ok := true;
      while checkpoint.value.number < head
        invariant Agrees(chain, rows, checkpoint) && checkpoint.Some?
        invariant Db(rows, checkpoint) == CatchUp(chain, Db(old(rows), old(checkpoint)), head, cut)
        invariant old(checkpoint).value.number <= checkpoint.value.number <= head
        invariant checkpoint.value.genesis == old(checkpoint).value.genesis
      {
        ok := IndexNext(chain, reliable);
        if !ok {
          return;
        }
        cut := cut + 1;
      }
    }

    /** The window's events, through the cache: exactly the accounts an uncached scan of
        the same blocks would name, whatever forks filled the cache before. */
    method CollectNamed(view: nat -> Block, low: nat, high: nat, cache: SpeculativeCache, reliable: bool)
      returns (ok: bool, named: set<Account>)
      requires forall n: nat :: view(n).number == n
      requires low <= high + 1 && Sound(cache.entries)
      modifies cache
      ensures Sound(cache.entries)
      ensures ok ==> named == NamedIn(view, low, high)
      ensures reliable ==> ok
      ensures forall n :: n in cache.entries ==> n in old(cache.entries) || low <= n <= high
      ensures rows == old(rows)
    {
      named := {};
      for number := low to high + 1
        invariant Sound(cache.entries)
        invariant named == set n, a | low <= n < number && a in view(n).named :: a
        invariant forall n :: n in cache.entries ==> n in old(cache.entries) || low <= n < number
      {
        if !reliable {
          if * {
            return false, named;
          }
        }
        var hash := view(number);
        var cached := cache.Get(number, hash);
        var accounts;
        if cached.Some? {
          accounts := cached.value;
        } else {
          if !reliable {
            if * {
              return false, named;
            }
          }
          accounts := hash.named;
          cache.Insert(number, hash, accounts);
        }
        named := named + Named(accounts);
      }
      return true, named;
    }

    /** The head transaction: all affected accounts or none, and none when the entry of one is
        no consumer record. */
    method SpeculateAt(head: Block, affected: set<Account>, reliable: bool) returns (ok: bool)
      modifies this`rows
      ensures !ok ==> rows == old(rows)
      ensures ok ==> ReadableFor(head, affected)
      ensures reliable && ReadableFor(head, affected) ==> ok
      ensures ok ==> rows == SpeculateAccounts(old(rows), head, affected)
    {
      var tx, todo := rows, affected;
      ghost var done: set<Account> := {};
      assert tx == SpeculateAccounts(rows, head, done);
      while todo != {}
        invariant rows == old(rows)
        invariant done + todo == affected && done !! todo
        invariant tx == SpeculateAccounts(rows, head, done)
        invariant ReadableFor(head, done)
        decreases todo
      {
        if !reliable {
          if * {
            return false;
          }
        }
        var a :| a in todo;
        SpeculateOneMore(rows, head, done, a);
        ReadsByStorage(head, a);
        match Read(head, a) {
          case Unreadable => return false;
          case Good(content) => tx := SpeculativelyUpserted(tx, a, content, head);
          case Malformed(_) => tx := DeletedIfSpeculative(tx, a);
          case Absent => tx := DeletedIfSpeculative(tx, a);
        }
        todo, done := todo - {a}, done + {a};
      }
      assert done == affected;
      rows := tx;
      return true;
    }

    /** `index_speculative_window`: `view` is what the node shows at each height during
        the scan, `head` what it shows at the best head afterwards. */
    method IndexSpeculativeWindow(view: nat -> Block, head: Block, finalized: nat, best: nat, cache: SpeculativeCache,
                                  reliable: bool) returns (ok: bool)
      requires forall n: nat :: view(n).number == n
      requires Sound(cache.entries)
      modifies this`rows, cache
      ensures Sound(cache.entries)
      ensures old(OneWindow(cache.entries, finalized)) ==> WindowAbove(cache.entries, finalized)
      ensures !ok ==> rows == old(rows)
      ensures reliable && ReadableFor(head, Affected(old(rows), InWindow(view, finalized, best))) ==> ok
      ensures ok ==>
                rows == SpeculateAccounts(old(rows), head, Affected(old(rows), InWindow(view, finalized, best)))
    {
      var plan := PlanWindow(finalized, best);
      cache.PruneFinalized(finalized);
      var named := {};
      if plan.ScanRange? {
        ok, named := CollectNamed(view, plan.low, plan.high, cache, reliable);
        if !ok {
          return false;
        }
      }
      ok := SpeculateAt(head, Affected(rows, named), reliable);
    }
  }

  function Advanced(checkpoint: Option<Checkpoint>, b: Block): Option<Checkpoint> {
    match checkpoint
    case None => None
    case Some(c) => Some(Checkpoint(b.number, b, c.genesis))
  }

  /** The next block toward `head` indexed, unless there is none or it cannot be read. */
  ghost function OneMore(chain: nat -> Block, db: Db, head: nat): Db {
    if db.checkpoint.None? || head <= db.checkpoint.value.number then db
    else
      var b := chain(db.checkpoint.value.number + 1);
      if !Readable(b) then db
      else Db(IndexAccounts(db.rows, b, Named(b.named)), Advanced(db.checkpoint, b))
  }

  /** A finalized pass toward `head`, cut off after `cut` blocks. */
  ghost function CatchUp(chain: nat -> Block, db: Db, head: nat, cut: nat): Db {
    if cut == 0 then db else OneMore(chain, CatchUp(chain, db, head, cut - 1), head)
  }

  /** The projection agrees with a plain rescan at its checkpoint. */
  ghost predicate Agrees(chain: nat -> Block, rows: Rows, checkpoint: Option<Checkpoint>) {
    checkpoint.Some? ==>
      && checkpoint.value.hash == chain(checkpoint.value.number)
      && Finalized(rows) == Scan(chain(checkpoint.value.number))
  }

  // ---- What a speculative pass leaves behind ----

  function Speculative(rows: Rows): map<Account, Content> {
    map a | a in rows && IsSpeculative(rows, a) :: rows[a].content
  }

  /** Accounts the scanned fork decodes at its head and the finalized block does not. */
  function Ahead(head: Block, finalized: Block): map<Account, Content> {
    map a | a in Scan(head) && a !in Scan(finalized) :: Scan(head)[a]
  }

  lemma AheadReads(head: Block, finalized: Block, a: Account)
    ensures a in Ahead(head, finalized) <==> Read(head, a).Good? && !Read(finalized, a).Good?
    ensures a in Ahead(head, finalized) ==> Read(head, a) == Good(Ahead(head, finalized)[a])
  {
    ScanReads(head, a);
    ScanReads(finalized, a);
  }

  /** What the pass leaves speculative, whatever the checkpoint: `base` is the checkpoint's
      block, which may be above the finalized head the node reports. */
  ghost predicate Rechecked(before: Rows, after: Rows, head: Block, base: Block, named: set<Account>) {
    && (forall a :: IsSpeculative(after, a) <==>
          && Read(head, a).Good? && !Read(base, a).Good?
          && (a in named || IsSpeculative(before, a)))
    && (forall a :: IsSpeculative(after, a) ==> Read(head, a) == Good(after[a].content))
  }

  lemma RecheckedAccount(rows: Rows, head: Block, base: Block, named: set<Account>, a: Account)
    requires Finalized(rows) == Scan(base)
    ensures var after := SpeculateAccounts(rows, head, Affected(rows, named));
      && (IsSpeculative(after, a) <==>
            && Read(head, a).Good? && !Read(base, a).Good?
            && (a in named || IsSpeculative(rows, a)))
      && (IsSpeculative(after, a) ==> Read(head, a) == Good(after[a].content))
  {
    assert IsFinalized(rows, a) <==> a in Finalized(rows);
    ScanReads(base, a);
  }

  /** Exactly which accounts end up speculative, for any checkpoint, fork and window: those
      the head decodes and the checkpoint block does not, if the window named them or they
      were speculative already. */
  lemma SpeculatesExactly(rows: Rows, head: Block, base: Block, named: set<Account>)
    requires Finalized(rows) == Scan(base)
    ensures Rechecked(rows, SpeculateAccounts(rows, head, Affected(rows, named)), head, base, named)
  {
    forall a: Account { RecheckedAccount(rows, head, base, named, a); }
  }

  /** One account after a pass on one fork whose head is not behind the checkpoint `c`: it is
      speculative exactly when the head decodes it and the checkpoint's block does not, with
      the head's content. */
  lemma ScannedAccountIsExact(fork: nat -> Block, rows: Rows, finalized: nat, best: nat, c: nat, a: Account)
    requires IsChain(fork) && finalized <= c <= Top(finalized, best) && best <= finalized + 64
    requires Finalized(rows) == Scan(fork(c))
    ensures var head := fork(Top(finalized, best));
      var after := SpeculateAccounts(rows, head, Affected(rows, InWindow(fork, finalized, best)));
      && (IsSpeculative(after, a) <==> Read(head, a).Good? && !Read(fork(c), a).Good?)
      && (IsSpeculative(after, a) ==> Read(head, a) == Good(after[a].content))
  {
    var top, named := Top(finalized, best), InWindow(fork, finalized, best);
    RecheckedAccount(rows, fork(top), fork(c), named, a);
    if a !in named && c < top {
      forall n | c < n <= top ensures a !in fork(n).named {
        assert a in fork(n).named ==> a in named;
      }
      ChangedIsNamed(fork, c, top, a);
    }
  }

  /** The same, read off the two maps. */
  lemma ScannedEntryIsExact(fork: nat -> Block, rows: Rows, finalized: nat, best: nat, c: nat, a: Account)
    requires IsChain(fork) && finalized <= c <= Top(finalized, best) && best <= finalized + 64
    requires Finalized(rows) == Scan(fork(c))
    ensures var head := fork(Top(finalized, best));
      var spec := Speculative(SpeculateAccounts(rows, head, Affected(rows, InWindow(fork, finalized, best))));
      (a in spec <==> a in Ahead(head, fork(c))) && (a in spec ==> spec[a] == Ahead(head, fork(c))[a])
  {
    ScannedAccountIsExact(fork, rows, finalized, best, c, a);
    AheadReads(fork(Top(finalized, best)), fork(c), a);
  }

  /** After a pass on one fork whose head is not behind the checkpoint, the table is exactly
      the finalized rows plus one speculative row, with the head's content, for each account
      the head decodes and the checkpoint's block does not. */
  lemma ScannedWindowIsExact(fork: nat -> Block, rows: Rows, finalized: nat, best: nat, c: nat)
    requires IsChain(fork) && finalized <= c <= Top(finalized, best) && best <= finalized + 64
    requires Finalized(rows) == Scan(fork(c))
    ensures var head := fork(Top(finalized, best));
      var after := SpeculateAccounts(rows, head, Affected(rows, InWindow(fork, finalized, best)));
      Finalized(after) == Scan(fork(c)) && Speculative(after) == Ahead(head, fork(c))
  {
    var head := fork(Top(finalized, best));
    var accounts := Affected(rows, InWindow(fork, finalized, best));
    SpeculationKeepsFinalized(rows, head, accounts);
    SameMaps(Speculative(SpeculateAccounts(rows, head, accounts)), Ahead(head, fork(c))) by {
      forall a: Account { ScannedEntryIsExact(fork, rows, finalized, best, c, a); }
    }
  }

  lemma SameMaps(x: map<Account, Content>, y: map<Account, Content>)
    requires forall a: Account :: (a in x <==> a in y) && (a in x ==> x[a] == y[a])
    ensures x == y
  {
  }

  /** When finality has caught up, nothing speculative survives the pass. */
  lemma CaughtUpClearsSpeculation(head: Block, rows: Rows, a: Account)
    requires Finalized(rows) == Scan(head)
    ensures !IsSpeculative(SpeculateAccounts(rows, head, Affected(rows, {})), a)
  {
    assert IsFinalized(rows, a) <==> a in Finalized(rows);
    ScanReads(head, a);
  }

  /** When the window is too wide nothing is admitted, and every speculative row that
      survives was already held and reads the same at the best head. */
  lemma StandDownOnlyRechecks(head: Block, rows: Rows)
    ensures var after := SpeculateAccounts(rows, head, Affected(rows, {}));
      && Finalized(after) == Finalized(rows)
      && forall a :: IsSpeculative(after, a) <==> IsSpeculative(rows, a) && Read(head, a).Good?
    ensures var after := SpeculateAccounts(rows, head, Affected(rows, {}));
      forall a :: IsSpeculative(after, a) ==> after[a].content == Read(head, a).content
  {
    var accounts := Affected(rows, {});
    var after := SpeculateAccounts(rows, head, accounts);
    SpeculationKeepsFinalized(rows, head, accounts);
    forall a: Account
      ensures IsSpeculative(after, a) <==> IsSpeculative(rows, a) && Read(head, a).Good?
      ensures IsSpeculative(after, a) ==> after[a].content == Read(head, a).content
    {
    }
  }

  // ---- The cache stays within one window ----

  ghost function Heights(low: nat, n: nat): (s: set<nat>)
    ensures |s| == n && forall k: nat :: k in s <==> low < k <= low + n
  {
    if n == 0 then {} else Heights(low, n - 1) + {low + n}
  }

  lemma SubsetSize(a: set<nat>, b: set<nat>)
    requires a <= b
    ensures |a| <= |b|
  {
    assert b == a + (b - a);
  }

  /** A cache within one window holds at most 64 heights, and stays within one while the
      finalized head does not go back. */
  lemma CacheHoldsOneWindow(entries: map<nat, CachedBlock>, finalized: nat, later: nat)
    requires OneWindow(entries, finalized) && finalized <= later
    ensures OneWindow(entries, later) && |entries| <= 64
  {
    var f: nat :| f <= finalized && WindowAbove(entries, f);
    SubsetSize(entries.Keys, Heights(f, 64));
    assert |entries.Keys| == |entries|;
  }
}
