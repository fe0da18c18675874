/**
  Seeding the projection: the chain-identity check, then a full scan written in
  batches of separate commits, the removal of leftovers, and the checkpoint last.
  A crash may fall between any two commits, and the next start may find itself
  connected to another chain.
 */
module Bootstrap {
  import opened Prelude
  import opened Chain
  import opened Projection
  import opened Indexer

  // ---- The scan ----

  /** What the storage iterator yields. */
  datatype Item = IteratorError | BadKey | Scanned(account: Account, stored: Stored)

  /** The iterator reports true entries of the block, and all of them unless it erred. */
  ghost predicate Lists(items: seq<Item>, b: Block) {
    && (forall i :: 0 <= i < |items| && items[i].Scanned? ==> StoredAt(b, items[i].account) == Some(items[i].stored))
    && (IteratorError !in items ==> forall a :: a in b.consumers ==> Scanned(a, b.consumers[a]) in items)
  }

  /** Every row holds what its own snapshot block decodes for its account. */
  ghost predicate RowsSound(rows: Rows) {
    forall a :: a in rows ==> Read(rows[a].snapshot, a) == Good(rows[a].content)
  }

  /** The table once those of the given accounts that decode at `b` are upserted. */
  function UpsertAll(rows: Rows, b: Block, accounts: set<Account>): Rows {
    map a | a in rows.Keys + accounts && (a !in rows ==> Read(b, a).Good?) ::
      if a in accounts && Read(b, a).Good? then Row(Read(b, a).content, b, None) else rows[a]
  }

  /** `DELETE ... WHERE snapshot_hash <> $1`. */
  function WithoutLeftovers(rows: Rows, b: Block): Rows {
    map a | a in rows && rows[a].snapshot == b :: rows[a]
  }

  /** The projection a completed scan of `b` leaves. */
  function Fresh(b: Block): Rows {
    map a | a in Scan(b) :: Row(Scan(b)[a], b, None)
  }

  /** Cleaning up after every decodable entry of `b` was upserted leaves exactly the
      scan, whatever an interrupted scan, another chain or speculation left behind. */
  lemma CleanupIsExact(rows: Rows, b: Block)
    requires RowsSound(rows)
    requires forall a :: a in Scan(b) ==> a in rows && rows[a] == Row(Scan(b)[a], b, None)
    ensures WithoutLeftovers(rows, b) == Fresh(b)
  {
    forall a | a in rows && rows[a].snapshot == b ensures a in Scan(b) {
      ScanReads(b, a);
    }
  }

  predicate Yields(item: Item, b: Block) {
    item.Scanned? && Read(b, item.account).Good?
  }

  /** The accounts among the first `k` items whose entry decodes. */
  ghost function Decodable(items: seq<Item>, b: Block, k: nat): set<Account>
    requires k <= |items|
  {
    if k == 0 then {}
    else if Yields(items[k - 1], b) then Decodable(items, b, k - 1) + {items[k - 1].account}
    else Decodable(items, b, k - 1)
  }

  lemma {:induction false} ItemIsDecodable(items: seq<Item>, b: Block, k: nat, i: nat)
    requires i < k <= |items| && Yields(items[i], b)
    ensures items[i].account in Decodable(items, b, k)
  {
    if i < k - 1 {
      ItemIsDecodable(items, b, k - 1, i);
    }
  }

  lemma ScanIsListed(items: seq<Item>, b: Block, a: Account)
    requires Lists(items, b) && IteratorError !in items && a in Scan(b)
    ensures a in Decodable(items, b, |items|)
  {
    assert Scanned(a, b.consumers[a]) in items;
    var i :| 0 <= i < |items| && items[i] == Scanned(a, b.consumers[a]);
    ItemIsDecodable(items, b, |items|, i);
  }

  /** `upsert_batch`: one transaction. */
  method UpsertBatch(ix: ProjectionStore, batch: seq<Account>, b: Block, reliable: bool) returns (ok: bool)
    requires AllGood(batch, b)
    modifies ix`rows
    ensures ix.rows == if ok then UpsertAll(old(ix.rows), b, Named(batch)) else old(ix.rows)
    ensures reliable ==> ok
  {
    if !reliable {
      if * {
        return false;
      }
    }
    var tx := ix.rows;
    for k := 0 to |batch|
      invariant ix.rows == old(ix.rows)
      invariant tx == UpsertAll(ix.rows, b, Named(batch[..k]))
    {
      assert Named(batch[..k + 1]) == Named(batch[..k]) + {batch[k]};
      tx := Upserted(tx, batch[k], Read(b, batch[k]).content, b);
    }
    assert batch[..|batch|] == batch;
    ix.rows := tx;
    return true;
  }

  function Union(pages: seq<set<Account>>): set<Account> {
    if pages == [] then {} else Union(pages[..|pages| - 1]) + pages[|pages| - 1]
  }

  lemma {:induction false} DecodableGrows(items: seq<Item>, b: Block, k: nat, n: nat)
    requires k <= n <= |items|
    ensures Decodable(items, b, k) <= Decodable(items, b, n)
  {
    if k < n {
      DecodableGrows(items, b, k, n - 1);
    }
  }

  lemma {:induction false} DecodableDecodes(items: seq<Item>, b: Block, k: nat, a: Account)
    requires k <= |items| && a in Decodable(items, b, k)
    ensures Read(b, a).Good?
  {
    if a in Decodable(items, b, k - 1) {
      DecodableDecodes(items, b, k - 1, a);
    }
  }

  /** One page committed on top of those already in the table. */
  method FlushPage(ix: ProjectionStore, batch: seq<Account>, b: Block, ghost start: Rows, ghost before: seq<set<Account>>,
                   reliable: bool)
    returns (ok: bool, ghost pages: seq<set<Account>>)
    requires AllGood(batch, b)
    requires ix.rows == UpsertAll(start, b, Union(before))
    modifies ix`rows
    ensures ix.rows == UpsertAll(start, b, Union(pages))
    ensures reliable ==> ok
    ensures pages == if ok then before + [Named(batch)] else before
    ensures Union(pages) == if ok then Union(before) + Named(batch) else Union(before)
  {
    ok := UpsertBatch(ix, batch, b, reliable);
    pages := if ok then before + [Named(batch)] else before;
    UpsertTwice(start, b, Union(before), Named(batch));
    assert (before + [Named(batch)])[..|before|] == before;
  }

  /** One entry of the iterator: added to the batch when it decodes. `read` says that its
      key and its value could be read at all. */
  method Gather(item: Item, b: Block, batch: seq<Account>) returns (more: seq<Account>, read: bool)
    requires item.Scanned? ==> StoredAt(b, item.account) == Some(item.stored)
    requires AllGood(batch, b)
    ensures AllGood(more, b)
    ensures Named(more) == Named(batch) + (if Yields(item, b) then {item.account} else {})
  {
    if item.IteratorError? || item.BadKey? || item.stored.Garbled? {
      return batch, false;
    }
    if Read(b, item.account).Good? {
      return batch + [item.account], true;
    }
    return batch, true;
  }

  ghost predicate AllGood(batch: seq<Account>, b: Block) {
    forall a :: a in batch ==> Read(b, a).Good?
  }

  lemma UpsertNone(rows: Rows, b: Block)
    ensures UpsertAll(rows, b, Union([])) == rows
  {
  }

  /** One turn of the scan loop: gather the entry, and commit the page when it is full. */
  method ScanEntry(ix: ProjectionStore, item: Item, b: Block, pageSize: nat, before: seq<Account>,
                   ghost start: Rows, ghost earlier: seq<set<Account>>, reliable: bool)
    returns (ok: bool, batch: seq<Account>, ghost pages: seq<set<Account>>)
    requires item.Scanned? ==> StoredAt(b, item.account) == Some(item.stored)
    requires AllGood(before, b) && ix.rows == UpsertAll(start, b, Union(earlier))
    modifies ix`rows
    ensures AllGood(batch, b) && ix.rows == UpsertAll(start, b, Union(pages))
    ensures reliable ==> ok
    ensures !ok ==> Union(pages) == Union(earlier)
    ensures ok ==> Union(pages) + Named(batch) == Union(earlier) + Named(before) + (if Yields(item, b) then {item.account} else {})
  {
    var read;
    ok, pages := true, earlier;
    batch, read := Gather(item, b, before);
    if read && |batch| == pageSize {
      ok, pages := FlushPage(ix, batch, b, start, pages, reliable);
      if ok {
        batch := [];
      }
    }
  }

  /** The scan loop: entries gathered into pages, each page its own commit. */
  method WritePages(ix: ProjectionStore, items: seq<Item>, b: Block, pageSize: nat, reliable: bool)
    returns (ok: bool, iteratorErrors: nat, ghost pages: seq<set<Account>>)
    requires Lists(items, b)
    modifies ix`rows
    ensures ix.rows == UpsertAll(old(ix.rows), b, Union(pages))
    ensures Union(pages) <= Decodable(items, b, |items|)
    ensures reliable ==> ok
    ensures ok ==> Union(pages) == Decodable(items, b, |items|) && (iteratorErrors > 0 <==> IteratorError in items)
  {
    var batch: seq<Account> := [];
    iteratorErrors, pages := 0, [];
    ghost var start := ix.rows;
    UpsertNone(start, b);
    for k := 0 to |items|
      invariant iteratorErrors > 0 <==> IteratorError in items[..k]
      invariant Union(pages) + Named(batch) == Decodable(items, b, k)
      invariant AllGood(batch, b)
      invariant ix.rows == UpsertAll(start, b, Union(pages))
    {
      assert items[..k + 1] == items[..k] + [items[k]];
      if items[k].IteratorError? {
        iteratorErrors := iteratorErrors + 1;
      }
      ok, batch, pages := ScanEntry(ix, items[k], b, pageSize, batch, start, pages, reliable);
      if !ok {
        DecodableGrows(items, b, k, |items|);
        return;
      }
    }
    assert items[..|items|] == items;
    ok := true;
    if batch != [] {
      ok, pages := FlushPage(ix, batch, b, start, pages, reliable);
    }
  }

  /** What a scan has committed so far: its pages, then the cleanup, then the checkpoint. */
  datatype Trail = Trail(pages: seq<set<Account>>, cleaned: bool, stamped: bool)

  /** The trail is one a scan of `b` leaves: pages of entries that decode, a cleanup only when
      they are all there, and a checkpoint only after it. */
  ghost predicate IsTrail(t: Trail, b: Block) {
    && (forall a :: a in Union(t.pages) ==> Read(b, a).Good?)
    && (t.cleaned ==> Scan(b).Keys <= Union(t.pages)) && (t.stamped ==> t.cleaned)
  }

  /** The database a trail leaves, from the one it started on. */
  function Left(db: Db, b: Block, genesis: nat, t: Trail): Db {
    var rows := UpsertAll(db.rows, b, Union(t.pages));
    Db(if t.cleaned then WithoutLeftovers(rows, b) else rows,
       if t.stamped then Some(Checkpoint(b.number, b, Some(genesis))) else db.checkpoint)
  }

  lemma CompleteTrailIsFresh(rows: Rows, b: Block, accounts: set<Account>)
    requires RowsSound(rows) && Scan(b).Keys <= accounts
    ensures WithoutLeftovers(UpsertAll(rows, b, accounts), b) == Fresh(b)
  {
    var upserted := UpsertAll(rows, b, accounts);
    forall a | a in Scan(b) ensures a in upserted && upserted[a] == Row(Scan(b)[a], b, None) {
      ScanReads(b, a);
    }
    CleanupIsExact(upserted, b);
  }

  /** `bootstrap_locked`. On success the projection is exactly the scan of `b`, stamped
      with the connected chain; otherwise no checkpoint was written and what is in the
      table is sound enough for the next attempt to clean up. */
  method BootstrapLocked(ix: ProjectionStore, items: seq<Item>, b: Block, pageSize: nat, genesis: nat, reliable: bool)
    returns (ok: bool, ghost trail: Trail)
    requires Lists(items, b) && RowsSound(ix.rows)
    modifies ix
    ensures ok ==> IteratorError !in items
    ensures reliable && IteratorError !in items ==> ok
    ensures ok ==> ix.rows == Fresh(b) && ix.checkpoint == Some(Checkpoint(b.number, b, Some(genesis)))
    ensures !ok ==> RowsSound(ix.rows) && ix.checkpoint == old(ix.checkpoint)
    ensures IsTrail(trail, b) && trail.stamped == ok
    ensures Db(ix.rows, ix.checkpoint) == Left(Db(old(ix.rows), old(ix.checkpoint)), b, genesis, trail)
  {
    var iteratorErrors;
    ghost var pages;
    ok, iteratorErrors, pages := WritePages(ix, items, b, pageSize, reliable);
    trail := Trail(pages, false, false);
    forall a | a in Union(pages) ensures Read(b, a).Good? {
      DecodableDecodes(items, b, |items|, a);
    }
    if !ok || iteratorErrors != 0 {
      ok := false;
      return;
    }
    if !reliable {
      if * {
        ok := false;
        return;
      }
    }
    forall a | a in Scan(b) ensures a in Union(pages) {
      ScanIsListed(items, b, a);
    }
    CompleteTrailIsFresh(old(ix.rows), b, Union(pages));
    ix.rows, trail := WithoutLeftovers(ix.rows, b), Trail(pages, true, false);
    if !reliable {
      if * {
        ok := false;
        return;
      }
    }
    ix.checkpoint, trail := Some(Checkpoint(b.number, b, Some(genesis))), Trail(pages, true, true);
  }

  /** How `ensure_seeded` ends: a usable checkpoint was there, a scan completed, or it failed. */
  datatype Seeding = Usable | Seeded | Unseeded

  /** `ensure_seeded`: adopt an unstamped checkpoint, keep one of this chain, and throw
      away checkpoint and rows together when they belong to another chain. */
  method EnsureSeeded(ix: ProjectionStore, liveGenesis: nat, items: seq<Item>, b: Block, pageSize: nat, reliable: bool)
    returns (r: Seeding, ghost trail: Option<Trail>)
    requires Lists(items, b) && RowsSound(ix.rows)
    modifies ix
    ensures r.Usable? ==>
              && old(ix.checkpoint).Some? && ix.rows == old(ix.rows)
              && (old(ix.checkpoint).value.genesis.Some? ==> old(ix.checkpoint).value.genesis.value == liveGenesis)
              && ix.checkpoint == Some(old(ix.checkpoint).value.(genesis := Some(liveGenesis)))
    ensures r.Seeded? ==> ix.rows == Fresh(b) && ix.checkpoint == Some(Checkpoint(b.number, b, Some(liveGenesis)))
    ensures r.Unseeded? ==>
              && RowsSound(ix.rows)
              && (ix.checkpoint == old(ix.checkpoint) || ix.checkpoint.None?)
              && (ix.checkpoint.Some? ==> ix.rows == old(ix.rows))
    ensures reliable && old(ix.checkpoint).None? ==> !r.Usable?
    ensures reliable && old(ix.checkpoint).Some? ==>
              (r.Usable? <==> old(ix.checkpoint).value.genesis in [None, Some(liveGenesis)])
    ensures reliable && IteratorError !in items ==> !r.Unseeded?
    ensures r.Usable? ==> trail.None?
    ensures r.Seeded? ==> trail.Some?
    ensures trail.None? && r.Unseeded? ==> ix.rows == old(ix.rows) && ix.checkpoint == old(ix.checkpoint)
    ensures trail.Some? ==>
              && IsTrail(trail.value, b) && trail.value.stamped == r.Seeded?
              && (old(ix.checkpoint).Some? ==>
                    old(ix.checkpoint).value.genesis.Some? && old(ix.checkpoint).value.genesis.value != liveGenesis)
              && Db(ix.rows, ix.checkpoint) ==
                 Left(Db(if old(ix.checkpoint).Some? then map[] else old(ix.rows), None), b, liveGenesis, trail.value)
  {
    if !reliable {
      if * {
        return Unseeded, None;
      }
    }
    if ix.checkpoint.Some? {
      var stored := ix.checkpoint.value.genesis;
      if stored.None? {
        ix.checkpoint := Some(ix.checkpoint.value.(genesis := Some(liveGenesis)));
        return Usable, None;
      }
      if stored.value == liveGenesis {
        return Usable, None;
      }
      ix.checkpoint, ix.rows := None, map[];
    }
    ghost var left;
    var ok;
    ok, left := BootstrapLocked(ix, items, b, pageSize, liveGenesis, reliable);
    return if ok then Seeded else Unseeded, Some(left);
  }

  lemma UpsertTwice(rows: Rows, b: Block, first: set<Account>, second: set<Account>)
    ensures UpsertAll(UpsertAll(rows, b, first), b, second) == UpsertAll(rows, b, first + second)
  {
  }
}
