/**
  The `assigned_usernames` projection and its checkpoint. Finalized rows carry no
  speculative mark; speculation may add rows and retract its own, nothing else.
 */
module Projection {
  import opened Prelude
  import opened Chain

  /** `snapshot` is the block whose hash the row records. */
  datatype Row = Row(content: Content, snapshot: Block, speculative: Option<nat>)

  type Rows = map<Account, Row>

  /** `hash` is the checkpoint block; `genesis` is unset on rows older than the column. */
  datatype Checkpoint = Checkpoint(number: nat, hash: Block, genesis: Option<nat>)

  datatype Db = Db(rows: Rows, checkpoint: Option<Checkpoint>)

  /** The finalized part of the table: what search may treat as confirmed. */
  function Finalized(rows: Rows): map<Account, Content> {
    map a | a in rows && rows[a].speculative.None? :: rows[a].content
  }

  predicate IsFinalized(rows: Rows, a: Account) {
    a in rows && rows[a].speculative.None?
  }

  predicate IsSpeculative(rows: Rows, a: Account) {
    a in rows && rows[a].speculative.Some?
  }

  // ---- The statements ----

  function Upserted(rows: Rows, a: Account, c: Content, b: Block): Rows {
    rows[a := Row(c, b, None)]
  }

  function Deleted(rows: Rows, a: Account): Rows {
    rows - {a}
  }

  /** Insert, or refresh a speculative row whose content differs; the block it was
      first admitted at is kept, and a finalized row is never touched. */
  function SpeculativelyUpserted(rows: Rows, a: Account, c: Content, b: Block): Rows {
    if a !in rows then rows[a := Row(c, b, Some(b.number))]
    else if IsSpeculative(rows, a) && rows[a].content != c then rows[a := Row(c, b, rows[a].speculative)]
    else rows
  }

  function DeletedIfSpeculative(rows: Rows, a: Account): Rows {
    if IsSpeculative(rows, a) then rows - {a} else rows
  }

  // ---- One finalized block ----

  /** What the finalized pass makes of one account: its row, or no row. */
  function IndexedRow(b: Block, a: Account): Option<Row> {
    if Read(b, a).Good? then Some(Row(Read(b, a).content, b, None)) else None
  }

  /** The table once the given accounts are indexed at `b`. */
  function IndexAccounts(rows: Rows, b: Block, accounts: set<Account>): Rows {
    map a | a in rows.Keys + accounts && (a in accounts ==> IndexedRow(b, a).Some?) ::
      if a in accounts then IndexedRow(b, a).value else rows[a]
  }

  /** The statement the pass issues for one account. */
  function IndexAccount(rows: Rows, b: Block, a: Account): Rows {
    if Read(b, a).Good? then Upserted(rows, a, Read(b, a).content, b) else Deleted(rows, a)
  }

  /** One statement per account, in any order, builds that table. */
  lemma IndexOneMore(rows: Rows, b: Block, accounts: set<Account>, a: Account)
    ensures IndexAccount(IndexAccounts(rows, b, accounts), b, a) == IndexAccounts(rows, b, accounts + {a})
  {
  }

  /** Indexing the next finalized block carries the finalized rows from a full scan of
      its parent to a full scan of the block itself. */
  lemma IndexFollowsScan(rows: Rows, parent: Block, b: Block)
    requires Follows(parent, b) && Finalized(rows) == Scan(parent)
    ensures Finalized(IndexAccounts(rows, b, set a | a in b.named)) == Scan(b)
  {
    var after := IndexAccounts(rows, b, set a | a in b.named);
    forall a: Account
      ensures a in Finalized(after) <==> a in Scan(b)
      ensures a in Scan(b) ==> Finalized(after)[a] == Scan(b)[a]
    {
      ScanReads(b, a);
      ScanReads(parent, a);
      if a !in b.named {
        assert StoredAt(b, a) == StoredAt(parent, a);
        assert a in Finalized(rows) <==> a in Scan(parent);
      }
    }
  }

  lemma ScanReads(b: Block, a: Account)
    ensures a in Scan(b) <==> Read(b, a).Good?
    ensures a in Scan(b) ==> Scan(b)[a] == Read(b, a).content
  {
  }

  // ---- One speculative transaction ----

  /** What the speculative pass makes of one account at the best head. */
  function SpeculatedRow(rows: Rows, b: Block, a: Account): Option<Row> {
    if IsFinalized(rows, a) then Some(rows[a])
    else if !Read(b, a).Good? then None
    else if a !in rows then Some(Row(Read(b, a).content, b, Some(b.number)))
    else if rows[a].content == Read(b, a).content then Some(rows[a])
    else Some(Row(Read(b, a).content, b, rows[a].speculative))
  }

  /** The table once the given accounts are reconciled with the best head `b`. */
  function SpeculateAccounts(rows: Rows, b: Block, accounts: set<Account>): Rows {
    map a | a in rows.Keys + accounts && (a in accounts ==> SpeculatedRow(rows, b, a).Some?) ::
      if a in accounts then SpeculatedRow(rows, b, a).value else rows[a]
  }

  function SpeculateAccount(rows: Rows, b: Block, a: Account): Rows {
    if Read(b, a).Good? then SpeculativelyUpserted(rows, a, Read(b, a).content, b) else DeletedIfSpeculative(rows, a)
  }

  lemma SpeculateOneMore(rows: Rows, b: Block, accounts: set<Account>, a: Account)
    requires a !in accounts
    ensures SpeculateAccount(SpeculateAccounts(rows, b, accounts), b, a) == SpeculateAccounts(rows, b, accounts + {a})
  {
  }

  /** Speculation never changes what is finalized, on any fork and for any accounts. */
  lemma SpeculationKeepsFinalized(rows: Rows, b: Block, accounts: set<Account>)
    ensures Finalized(SpeculateAccounts(rows, b, accounts)) == Finalized(rows)
  {
    var after := SpeculateAccounts(rows, b, accounts);
    forall a: Account
      ensures IsFinalized(after, a) <==> IsFinalized(rows, a)
      ensures IsFinalized(rows, a) ==> after[a] == rows[a]
    {
    }
  }

  /** A row remembers the block it was first admitted at, however often its content is
      refreshed, and the block its content was last read from. */
  lemma AdmissionIsRemembered(rows: Rows, b: Block, accounts: set<Account>, a: Account)
    requires a in accounts && IsSpeculative(SpeculateAccounts(rows, b, accounts), a)
    ensures var row := SpeculateAccounts(rows, b, accounts)[a];
      && row.speculative == (if IsSpeculative(rows, a) then rows[a].speculative else Some(b.number))
      && row.snapshot == (if IsSpeculative(rows, a) && rows[a].content == row.content then rows[a].snapshot else b)
  {
  }

  /** A finalized row is unmarked and names the block it was indexed at. */
  lemma IndexedRowsAreFinal(rows: Rows, b: Block, accounts: set<Account>, a: Account)
    requires a in accounts
    ensures var after := IndexAccounts(rows, b, accounts);
      && (a in after <==> Read(b, a).Good?)
      && (a in after ==> after[a].speculative.None? && after[a].snapshot == b && Read(b, a) == Good(after[a].content))
  {
  }
}
