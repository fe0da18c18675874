/**
  Keyset paging over the search results: each page resumes strictly after the last
  key served, while the table may change between pages.
 */
module Paging {
  import opened Prelude
  import opened Chain
  import opened Projection
  import Like

  // ---- The sort key ----

  datatype Key = Key(display: string, liteBase: string, liteDigits: nat, account: Account)

  /** `COLLATE "C"`: lexicographic by code. */
  predicate TextLess(a: string, b: string) {
    b != "" && (a == "" || a[0] < b[0] || (a[0] == b[0] && TextLess(a[1..], b[1..])))
  }

  /** The `ROW(...) < ROW(...)` comparison. */
  predicate Less(x: Key, y: Key) {
    || TextLess(x.display, y.display)
    || (x.display == y.display &&
        (|| TextLess(x.liteBase, y.liteBase)
         || (x.liteBase == y.liteBase && (x.liteDigits < y.liteDigits || (x.liteDigits == y.liteDigits && x.account < y.account)))))
  }

  lemma {:induction false} TextLessTransitive(a: string, b: string, c: string)
    requires TextLess(a, b) && TextLess(b, c)
    ensures TextLess(a, c)
  {
    if a != "" && a[0] == b[0] && b[0] == c[0] {
      TextLessTransitive(a[1..], b[1..], c[1..]);
    }
  }

  lemma {:induction false} TextLessTotal(a: string, b: string)
    ensures TextLess(a, b) || a == b || TextLess(b, a)
    ensures !(TextLess(a, b) && TextLess(b, a)) && !TextLess(a, a)
  {
    if a != "" {
      TextLessTotal(a[1..], a[1..]);
    }
    if a != "" && b != "" && a[0] == b[0] {
      TextLessTotal(a[1..], b[1..]);
      assert a[1..] == b[1..] ==> a == [a[0]] + a[1..] == b;
    }
  }

  /** Byte order, said without recursion: after a common beginning the first text ends or has
      the smaller character. */
  lemma {:induction false} TextLessExactly(a: string, b: string)
    ensures TextLess(a, b) <==> exists i :: FirstDifference(a, b, i)
  {
    if a != "" && b != "" && a[0] == b[0] {
      TextLessExactly(a[1..], b[1..]);
      if TextLess(a, b) {
        var i :| FirstDifference(a[1..], b[1..], i);
        assert a[..i + 1] == [a[0]] + a[1..][..i] && b[..i + 1] == [b[0]] + b[1..][..i];
        assert FirstDifference(a, b, i + 1);
      }
      if exists i :: FirstDifference(a, b, i) {
        var i :| FirstDifference(a, b, i);
        assert i > 0;
        assert a[1..][..i - 1] == a[..i][1..] && b[1..][..i - 1] == b[..i][1..];
        assert FirstDifference(a[1..], b[1..], i - 1);
      }
    } else {
      if TextLess(a, b) {
        assert FirstDifference(a, b, 0);
      }
      if exists i :: FirstDifference(a, b, i) {
        var i :| FirstDifference(a, b, i);
        if i > 0 {
          SharesBeginning(a, b, i);
        }
      }
    }
  }

  lemma SharesBeginning(a: string, b: string, i: int)
    requires FirstDifference(a, b, i) && i > 0
    ensures a[0] == b[0]
  {
    assert a[..i][0] == b[..i][0];
  }

  /** The texts agree before `i`, where `a` ends or has the smaller character. */
  predicate FirstDifference(a: string, b: string, i: int) {
    0 <= i <= |a| && i < |b| && a[..i] == b[..i] && (i == |a| || a[i] < b[i])
  }

  /** The order is ascending by name, then base, then the digits' value, then account: the
      first of them that differs decides. */
  lemma LessByFirstDifference(x: Key, y: Key)
    ensures x.display != y.display ==> (Less(x, y) <==> exists i :: FirstDifference(x.display, y.display, i))
    ensures x.display == y.display && x.liteBase != y.liteBase ==>
      (Less(x, y) <==> exists i :: FirstDifference(x.liteBase, y.liteBase, i))
    ensures x.display == y.display && x.liteBase == y.liteBase && x.liteDigits != y.liteDigits ==>
      (Less(x, y) <==> x.liteDigits < y.liteDigits)
    ensures x.display == y.display && x.liteBase == y.liteBase && x.liteDigits == y.liteDigits ==>
      (Less(x, y) <==> x.account < y.account)
  {
    TextLessExactly(x.display, y.display);
    TextLessExactly(x.liteBase, y.liteBase);
    TextLessTotal(x.display, x.display);
    TextLessTotal(x.liteBase, x.liteBase);
  }

  lemma LessTransitive(x: Key, y: Key, z: Key)
    requires Less(x, y) && Less(y, z)
    ensures Less(x, z)
  {
    if TextLess(x.display, y.display) && TextLess(y.display, z.display) {
      TextLessTransitive(x.display, y.display, z.display);
    }
    if TextLess(x.liteBase, y.liteBase) && TextLess(y.liteBase, z.liteBase) {
      TextLessTransitive(x.liteBase, y.liteBase, z.liteBase);
    }
  }

  lemma LessTotal(x: Key, y: Key)
    ensures Less(x, y) || x == y || Less(y, x)
    ensures !(Less(x, y) && Less(y, x)) && !Less(x, x)
  {
    TextLessTotal(x.display, y.display);
    TextLessTotal(x.liteBase, y.liteBase);
    TextLessTotal(x.display, x.display);
    TextLessTotal(x.liteBase, x.liteBase);
  }

  // ---- What the query matches ----

  /** `display_username ~ '\.[0-9]{1,2}$'`. */
  predicate ShortSuffix(s: string) {
    var n := |s|;
    || (n >= 2 && s[n - 2] == '.' && IsDigit(s[n - 1]))
    || (n >= 3 && s[n - 3] == '.' && IsDigit(s[n - 2]) && IsDigit(s[n - 1]))
  }

  /** Rows search may show: named in full or with a short suffix, with a usable key. */
  predicate Listed(c: Content) {
    (c.full.Some? || ShortSuffix(c.display)) && c.key != [] && c.key[0] == 0
  }

  function KeyOf(lower: string -> string, a: Account, c: Content): Key {
    Key(lower(c.display), c.liteBase, c.liteDigits, a)
  }

  /** The keys one request can return: the table's rows whose lower-cased name the LIKE
      pattern of the lower-cased prefix matches. */
  function Hits(lower: string -> string, rows: Rows, prefix: string): set<Key> {
    set a | a in rows && Listed(rows[a].content)
            && Like.Matches(Like.EscapeLike(lower(prefix)) + "%", lower(rows[a].content.display)) == Some(true)
          :: KeyOf(lower, a, rows[a].content)
  }

  /** `\.[0-9]{1,2}$`: a dot and one or two digits end the text. */
  lemma ShortSuffixExactly(s: string)
    ensures ShortSuffix(s) <==> exists front, digits :: s == front + "." + digits && 1 <= |digits| <= 2 && AllDigits(digits)
  {
    var n := |s|;
    if n >= 2 && s[n - 2] == '.' && IsDigit(s[n - 1]) {
      assert s == s[..n - 2] + "." + s[n - 1..] && AllDigits(s[n - 1..]);
    } else if ShortSuffix(s) {
      assert s == s[..n - 3] + "." + s[n - 2..] && AllDigits(s[n - 2..]);
    }
    if exists front, digits :: s == front + "." + digits && 1 <= |digits| <= 2 && AllDigits(digits) {
      var front, digits :| s == front + "." + digits && 1 <= |digits| <= 2 && AllDigits(digits);
      assert s[|front|] == '.' && s[|front| + 1..] == digits;
      assert IsDigit(digits[0]) && IsDigit(digits[|digits| - 1]);
    }
  }

  /** Exactly what a request can return, column by column, for every table and prefix: a row
      whose lower-cased name starts with the lower-cased prefix, that has a full name or a
      short suffix, and whose key starts with a zero byte. */
  lemma HitsExactly(lower: string -> string, rows: Rows, prefix: string, k: Key)
    ensures k in Hits(lower, rows, prefix) <==>
      && k.account in rows
      && var c := rows[k.account].content;
      && k.display == lower(c.display) && k.liteBase == c.liteBase && k.liteDigits == c.liteDigits
      && lower(prefix) <= lower(c.display)
      && (c.full.Some? || ShortSuffix(c.display)) && c.key != [] && c.key[0] == 0
  {
    if k.account in rows {
      Like.PatternMatchesPrefix(lower(prefix), lower(rows[k.account].content.display));
    }
    if k in Hits(lower, rows, prefix) {
      var b :| b in rows && Listed(rows[b].content)
        && Like.Matches(Like.EscapeLike(lower(prefix)) + "%", lower(rows[b].content.display)) == Some(true)
        && KeyOf(lower, b, rows[b].content) == k;
      assert b == k.account;
    }
  }

  // ---- One page ----

  predicate After(cursor: Option<Key>, k: Key) {
    cursor.None? || Less(cursor.value, k)
  }

  predicate Ascending(keys: seq<Key>) {
    forall i, j :: 0 <= i < j < |keys| ==> Less(keys[i], keys[j])
  }

  /** `WHERE key > cursor ORDER BY key LIMIT n`. */
  ghost predicate IsFetch(hits: set<Key>, cursor: Option<Key>, n: nat, fetched: seq<Key>) {
    && Ascending(fetched) && |fetched| <= n
    && (forall k :: k in fetched ==> k in hits && After(cursor, k))
    && (forall h :: h in hits && After(cursor, h) && h !in fetched ==>
          |fetched| == n && forall k :: k in fetched ==> Less(k, h))
  }

  /** A page: the first `limit` keys after the cursor, and the cursor of the last one
      when something remains. */
  ghost predicate IsPage(hits: set<Key>, cursor: Option<Key>, limit: nat, page: seq<Key>, next: Option<Key>) {
    && Ascending(page) && (forall k :: k in page ==> k in hits && After(cursor, k))
    && (next.None? ==> forall h :: h in hits && After(cursor, h) ==> h in page)
    && (next.Some? ==>
          && |page| == limit && page != [] && next.value == page[|page| - 1]
          && (forall h :: h in hits && After(cursor, h) && !Less(next.value, h) ==> h in page)
          && (exists h :: h in hits && Less(next.value, h)))
  }

  /** `assemble_page`: drop the extra row, and resume after the last one kept. */
  method AssemblePage(fetched: seq<Key>, limit: nat, ghost hits: set<Key>, ghost cursor: Option<Key>)
    returns (page: seq<Key>, next: Option<Key>)
    requires limit > 0 && IsFetch(hits, cursor, limit + 1, fetched)
    ensures IsPage(hits, cursor, limit, page, next)
  {
    page := fetched;
    var hasMore := |page| > limit;
    if hasMore {
      page := page[..|page| - 1];
    }
    next := if hasMore then Some(page[|page| - 1]) else None;
    if hasMore {
      var extra := fetched[limit];
      assert extra in fetched && Less(page[limit - 1], extra);
      assert page[limit - 1] in fetched;
      forall h | h in hits && After(cursor, h) && !Less(next.value, h) ensures h in page {
        if h in fetched {
          var i :| 0 <= i < |fetched| && fetched[i] == h;
          assert i < limit ==> page[i] == h;
        }
      }
    }
  }

  // ---- Following the cursors ----

  /** A client following continuation cursors: `hits[i]` is what the table holds for
      page `i`, and each request resumes from the cursor before it. */
  ghost predicate IsWalk(hits: seq<set<Key>>, pages: seq<seq<Key>>, cursors: seq<Option<Key>>, limit: nat) {
    && limit > 0 && |pages| == |hits| && |cursors| == |pages| + 1 && cursors[0].None?
    && (forall i :: 0 <= i < |pages| ==> IsPage(hits[i], cursors[i], limit, pages[i], cursors[i + 1]))
    && (forall i :: 0 < i < |pages| ==> cursors[i].Some?)
  }

  /** Cursors only move forward, and every key served lies between its page's cursors. */
  lemma {:induction false} CursorsAdvance(hits: seq<set<Key>>, pages: seq<seq<Key>>, cursors: seq<Option<Key>>,
      limit: nat, i: nat, j: nat)
    requires IsWalk(hits, pages, cursors, limit) && 0 < i <= j < |pages|
    ensures cursors[i] == cursors[j] || Less(cursors[i].value, cursors[j].value)
    decreases j
  {
    if i < j {
      CursorsAdvance(hits, pages, cursors, limit, i, j - 1);
      assert IsPage(hits[j - 1], cursors[j - 1], limit, pages[j - 1], cursors[j]);
      assert cursors[j].value in pages[j - 1];
      if cursors[i] != cursors[j - 1] {
        LessTransitive(cursors[i].value, cursors[j - 1].value, cursors[j].value);
      }
    }
  }

  /** No key is ever repeated, however the table changes: pages are ascending and every
      later page lies strictly after every earlier one. */
  lemma PagesNeverOverlap(hits: seq<set<Key>>, pages: seq<seq<Key>>, cursors: seq<Option<Key>>, limit: nat, i: nat,
      j: nat, x: Key, y: Key)
    requires IsWalk(hits, pages, cursors, limit) && i < j < |pages| && x in pages[i] && y in pages[j]
    ensures Less(x, y) && Ascending(pages[i])
  {
    assert IsPage(hits[i], cursors[i], limit, pages[i], cursors[i + 1]);
    assert IsPage(hits[j], cursors[j], limit, pages[j], cursors[j + 1]);
    CursorsAdvance(hits, pages, cursors, limit, i + 1, j);
    var last := cursors[i + 1].value;
    var p :| 0 <= p < |pages[i]| && pages[i][p] == x;
    assert x == last || Less(x, last);
    if cursors[i + 1] != cursors[j] {
      LessTransitive(last, cursors[j].value, y);
    }
    if x != last {
      LessTransitive(x, last, y);
    }
  }

  /** A row whose key matched on every request is served by some page of a finished walk. */
  lemma {:induction false} StableRowsAreServed(hits: seq<set<Key>>, pages: seq<seq<Key>>, cursors: seq<Option<Key>>,
      limit: nat, k: Key, n: nat)
    requires IsWalk(hits, pages, cursors, limit) && n <= |pages|
    requires forall i :: 0 <= i < |hits| ==> k in hits[i]
    ensures
      || (exists i :: 0 <= i < n && k in pages[i])
      || (n < |pages| && After(cursors[n], k))
      || (n == |pages| && (n == 0 || (cursors[n].Some? && Less(cursors[n].value, k))))
    decreases n
  {
    if n > 0 {
      StableRowsAreServed(hits, pages, cursors, limit, k, n - 1);
      assert IsPage(hits[n - 1], cursors[n - 1], limit, pages[n - 1], cursors[n]);
      assert k in hits[n - 1];
    }
  }

  /** Every row that matches with an unchanged key throughout a finished walk is returned. */
  lemma FinishedWalkIsComplete(hits: seq<set<Key>>, pages: seq<seq<Key>>, cursors: seq<Option<Key>>, limit: nat, k: Key)
    requires IsWalk(hits, pages, cursors, limit) && |pages| > 0 && cursors[|pages|].None?
    requires forall i :: 0 <= i < |hits| ==> k in hits[i]
    ensures exists i :: 0 <= i < |pages| && k in pages[i]
  {
    StableRowsAreServed(hits, pages, cursors, limit, k, |pages|);
  }

  // ---- An unchanged table ----

  function Flat(pages: seq<seq<Key>>): seq<Key> {
    if pages == [] then [] else Flat(pages[..|pages| - 1]) + pages[|pages| - 1]
  }

  lemma {:induction false} FlatMembers(pages: seq<seq<Key>>, k: Key)
    ensures k in Flat(pages) <==> exists i :: 0 <= i < |pages| && k in pages[i]
  {
    if pages != [] {
      var init := pages[..|pages| - 1];
      FlatMembers(init, k);
      if exists i :: 0 <= i < |pages| && k in pages[i] {
        var i :| 0 <= i < |pages| && k in pages[i];
        assert i < |init| ==> k in init[i];
      }
      if exists i :: 0 <= i < |init| && k in init[i] {
        var i :| 0 <= i < |init| && k in init[i];
        assert k in pages[i];
      }
    }
  }

  /** The keys served so far, in order, are strictly ascending. */
  lemma {:induction false} FlatAscends(hits: seq<set<Key>>, pages: seq<seq<Key>>, cursors: seq<Option<Key>>, limit: nat, n: nat)
    requires IsWalk(hits, pages, cursors, limit) && n <= |pages|
    ensures Ascending(Flat(pages[..n]))
    decreases n
  {
    if n > 0 {
      FlatAscends(hits, pages, cursors, limit, n - 1);
      assert pages[..n][..n - 1] == pages[..n - 1];
      var init, last := Flat(pages[..n - 1]), pages[n - 1];
      assert IsPage(hits[n - 1], cursors[n - 1], limit, last, cursors[n]);
      forall x, y | x in init && y in last ensures Less(x, y) {
        FlatMembers(pages[..n - 1], x);
        var i :| 0 <= i < n - 1 && x in pages[..n - 1][i];
        PagesNeverOverlap(hits, pages, cursors, limit, i, n - 1, x, y);
      }
    }
  }

  /** On an unchanged table a finished walk yields exactly the sorted matching list. */
  lemma UnchangedTableYieldsSortedList(hits: set<Key>, pages: seq<seq<Key>>, cursors: seq<Option<Key>>, limit: nat)
    requires IsWalk(seq(|pages|, _ => hits), pages, cursors, limit) && |pages| > 0 && cursors[|pages|].None?
    ensures Ascending(Flat(pages))
    ensures forall k :: k in Flat(pages) <==> k in hits
  {
    var every := seq(|pages|, _ => hits);
    assert pages[..|pages|] == pages;
    FlatAscends(every, pages, cursors, limit, |pages|);
    forall k ensures k in Flat(pages) <==> k in hits {
      FlatMembers(pages, k);
      if k in hits {
        FinishedWalkIsComplete(every, pages, cursors, limit, k);
      }
      if exists i :: 0 <= i < |pages| && k in pages[i] {
        var i :| 0 <= i < |pages| && k in pages[i];
        assert IsPage(every[i], cursors[i], limit, pages[i], cursors[i + 1]);
      }
    }
  }

  /** So the names along the pages never fall. */
  lemma NamesNeverFall(hits: set<Key>, pages: seq<seq<Key>>, cursors: seq<Option<Key>>, limit: nat, i: nat, j: nat)
    requires IsWalk(seq(|pages|, _ => hits), pages, cursors, limit) && |pages| > 0 && cursors[|pages|].None?
    requires i < j < |Flat(pages)|
    ensures Flat(pages)[i].display == Flat(pages)[j].display
      || exists d :: FirstDifference(Flat(pages)[i].display, Flat(pages)[j].display, d)
  {
    UnchangedTableYieldsSortedList(hits, pages, cursors, limit);
    LessByFirstDifference(Flat(pages)[i], Flat(pages)[j]);
  }

  lemma AscendingIsDistinct(keys: seq<Key>, hits: set<Key>)
    requires Ascending(keys) && forall k :: k in keys ==> k in hits
    ensures |keys| <= |hits|
    decreases |keys|
  {
    if keys != [] {
      var last, init := keys[|keys| - 1], keys[..|keys| - 1];
      forall k | k in init ensures k in hits - {last} {
        var i :| 0 <= i < |init| && init[i] == k;
        LessTotal(keys[i], last);
      }
      AscendingIsDistinct(init, hits - {last});
    }
  }

  lemma {:induction false} FlatGrows(pages: seq<seq<Key>>)
    requires forall i :: 0 <= i < |pages| ==> pages[i] != []
    ensures |Flat(pages)| >= |pages|
  {
    if pages != [] {
      FlatGrows(pages[..|pages| - 1]);
    }
  }

  /** And it does finish: a walk that is still given a cursor has served fewer pages than
      there are matching rows. */
  lemma UnchangedTableWalkStops(hits: set<Key>, pages: seq<seq<Key>>, cursors: seq<Option<Key>>, limit: nat)
    requires IsWalk(seq(|pages|, _ => hits), pages, cursors, limit) && |pages| > 0 && cursors[|pages|].Some?
    ensures |pages| < |hits|
  {
    var every, n := seq(|pages|, _ => hits), |pages|;
    assert pages[..n] == pages;
    FlatAscends(every, pages, cursors, limit, n);
    forall i | 0 <= i < n ensures pages[i] != [] {
      assert IsPage(every[i], cursors[i], limit, pages[i], cursors[i + 1]);
    }
    FlatGrows(pages);
    assert IsPage(every[n - 1], cursors[n - 1], limit, pages[n - 1], cursors[n]);
    var more :| more in hits && Less(cursors[n].value, more);
    forall k | k in Flat(pages) ensures k in hits - {more} {
      FlatMembers(pages, k);
      var i :| 0 <= i < n && k in pages[i];
      assert IsPage(every[i], cursors[i], limit, pages[i], cursors[i + 1]);
      BeforeTheCursor(every, pages, cursors, limit, i, k);
      LessTotal(k, more);
      if k != cursors[n].value {
        LessTransitive(k, cursors[n].value, more);
      }
    }
    AscendingIsDistinct(Flat(pages), hits - {more});
  }

  lemma BeforeTheCursor(hits: seq<set<Key>>, pages: seq<seq<Key>>, cursors: seq<Option<Key>>, limit: nat, i: nat, k: Key)
    requires IsWalk(hits, pages, cursors, limit) && i < |pages| && k in pages[i] && cursors[|pages|].Some?
    ensures k == cursors[|pages|].value || Less(k, cursors[|pages|].value)
  {
    var n := |pages|;
    assert IsPage(hits[n - 1], cursors[n - 1], limit, pages[n - 1], cursors[n]);
    var last := cursors[n].value;
    assert last in pages[n - 1];
    if i < n - 1 {
      PagesNeverOverlap(hits, pages, cursors, limit, i, n - 1, k, last);
    } else {
      var p :| 0 <= p < |pages[i]| && pages[i][p] == k;
    }
  }

  // ---- The cursor on the wire ----

  datatype Cursor = Cursor(display: string, liteBase: string, liteDigits: string, account: Account)

  /** `numeric::text` of a non-negative integer. */
  function Decimal(n: nat): (s: string)
    ensures s != "" && AllDigits(s)
  {
    if n < 10 then [('0' as int + n) as char] else Decimal(n / 10) + [('0' as int + n % 10) as char]
  }

  function CursorOf(k: Key): Cursor {
    Cursor(k.display, k.liteBase, Decimal(k.liteDigits), k.account)
  }

  /** The field checks of `decode_cursor`, then `::numeric`. */
  function Accept(c: Cursor): Option<Key> {
    if c.display == "" || c.liteBase == "" || c.liteDigits == "" || !AllDigits(c.liteDigits) then None
    else Some(Key(c.display, c.liteBase, Value(c.liteDigits), c.account))
  }

  lemma {:induction false} DecimalRoundTrip(n: nat)
    ensures Value(Decimal(n)) == n
  {
    var s := Decimal(n);
    if n < 10 {
      assert s[..0] == "";
    } else {
      DecimalRoundTrip(n / 10);
      assert s[..|s| - 1] == Decimal(n / 10);
    }
  }

  /** Every cursor the server issues for a decoded row is accepted back, as the very key
      it was issued for. */
  lemma IssuedCursorsAreAccepted(lower: string -> string, b: Block, a: Account)
    requires Read(b, a).Good?
    requires forall s :: s != "" ==> lower(s) != ""
    ensures var k := KeyOf(lower, a, Read(b, a).content);
      Accept(CursorOf(k)) == Some(k)
  {
    var consumer := StoredAt(b, a).value.consumer;
    DecodedReassembles(a, consumer, b.ss58Prefix);
    DecimalRoundTrip(Read(b, a).content.liteDigits);
  }

  /** Exactly the well-formed cursors are accepted, each as the key it spells. */
  lemma AcceptsExactly(c: Cursor)
    ensures Accept(c).Some? <==>
      c.display != "" && c.liteBase != "" && c.liteDigits != "" && forall i :: 0 <= i < |c.liteDigits| ==> '0' <= c.liteDigits[i] <= '9'
    ensures Accept(c).Some? ==>
      && Accept(c).value.display == c.display && Accept(c).value.liteBase == c.liteBase
      && Accept(c).value.account == c.account && Accept(c).value.liteDigits == Value(c.liteDigits)
  {
    assert AllDigits(c.liteDigits) <==> forall i :: 0 <= i < |c.liteDigits| ==> IsDigit(c.liteDigits[i]);
  }
}
