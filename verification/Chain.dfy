/**
  The People Chain as the indexer reads it: blocks holding the consumer storage
  and the accounts their events name, and the decoding of one consumer entry.
  A block's hash is collision-free, so the model lets the block stand for it.
 */
module Chain {
  import opened Prelude

  type Account = nat

  /** Raw username bytes: either text, or not valid UTF-8. */
  datatype Raw = NotUtf8 | Text(text: string)

  datatype Consumer = Consumer(key: seq<nat>, lite: Raw, full: Option<Raw>)

  /** A storage value; `Garbled` does not decode as a consumer record at all. */
  datatype Stored = Garbled | Entry(consumer: Consumer)

  /** `fork` tells apart blocks that agree on everything else recorded here. */
  datatype Block = Block(
    genesis: nat,
    number: nat,
    fork: nat,
    ss58Prefix: nat,
    consumers: map<Account, Stored>,
    named: seq<Account>)

  /** The columns a projection row shows; SS58 text is the account with the prefix. */
  datatype Content = Content(
    ss58: (Account, nat),
    key: seq<nat>,
    lite: string,
    liteBase: string,
    liteDigits: nat,
    full: Option<string>,
    display: string)

  datatype DecodeError = LiteUtf8 | FullUtf8 | LiteFormat | EmptyFull | NulByte

  // ---- Decoding one consumer ----

  predicate IsDigit(c: char) {
    '0' <= c <= '9'
  }

  predicate AllDigits(s: string) {
    forall i :: 0 <= i < |s| ==> IsDigit(s[i])
  }

  /** The decimal value of a digit string, as `::numeric` reads it. */
  function Value(digits: string): nat
    requires AllDigits(digits)
  {
    if digits == "" then 0
    else 10 * Value(digits[..|digits| - 1]) + (digits[|digits| - 1] - '0') as nat
  }

  /** Position of the last dot, or `None` (`rsplit_once`). */
  function LastDot(s: string): (r: Option<nat>)
    ensures r.Some? ==> r.value < |s| && s[r.value] == '.' && '.' !in s[r.value + 1..]
    ensures r.None? ==> '.' !in s
  {
    if s == "" then None
    else if s[|s| - 1] == '.' then Some(|s| - 1)
    else
      var r := LastDot(s[..|s| - 1]);
      assert s == s[..|s| - 1] + [s[|s| - 1]];
      assert r.Some? ==> s[r.value + 1..] == s[..|s| - 1][r.value + 1..] + [s[|s| - 1]];
      r
  }

  /** `s` is a base, a dot and a decimal suffix, both non-empty. */
  predicate IsLiteName(s: string, base: string, digits: string) {
    s == base + "." + digits && base != "" && digits != "" && AllDigits(digits)
  }

  /** Split a lite username at its last dot, if both halves are well formed. */
  function SplitLite(lite: string): (r: Option<(string, string)>)
    ensures r.Some? ==> IsLiteName(lite, r.value.0, r.value.1)
  {
    var dot := LastDot(lite);
    if dot.None? then None
    else
      var base, digits := lite[..dot.value], lite[dot.value + 1..];
      if base == "" || digits == "" || !AllDigits(digits) then None
      else
        assert lite == base + "." + digits;
        Some((base, digits))
  }

  /** The split is the only one there is. */
  lemma SplitLiteFinds(s: string, base: string, digits: string)
    requires IsLiteName(s, base, digits)
    ensures SplitLite(s) == Some((base, digits))
  {
    assert s[|base|] == '.' && s[..|base|] == base && s[|base| + 1..] == digits;
    assert LastDot(s) == Some(|base|) by {
      assert forall i :: |base| < i < |s| ==> s[i] == digits[i - |base| - 1];
    }
  }

  function Decode(a: Account, c: Consumer, ss58Prefix: nat): Result<Content, DecodeError> {
    if c.lite.NotUtf8? then Err(LiteUtf8)
    else if SplitLite(c.lite.text).None? then Err(LiteFormat)
    else if c.full.Some? && c.full.value.NotUtf8? then Err(FullUtf8)
    else if c.full.Some? && c.full.value.text == "" then Err(EmptyFull)
    else if '\0' in c.lite.text || (c.full.Some? && '\0' in c.full.value.text) then Err(NulByte)
    else
      var (base, digits) := SplitLite(c.lite.text).value;
      var full := if c.full.Some? then Some(c.full.value.text) else None;
      Ok(Content((a, ss58Prefix), c.key, c.lite.text, base, Value(digits), full,
                 if full.Some? then full.value else c.lite.text))
  }

  /** Exactly the well-formed consumers decode: the lite name is a non-empty base, a
      dot and a decimal suffix; the full name, when there is one, is non-empty text;
      and neither holds a NUL. */
  lemma DecodesExactly(a: Account, c: Consumer, ss58Prefix: nat)
    ensures Decode(a, c, ss58Prefix).Ok? <==>
              && c.lite.Text? && (exists base, digits :: IsLiteName(c.lite.text, base, digits))
              && '\0' !in c.lite.text
              && (c.full.Some? ==> c.full.value.Text? && c.full.value.text != "" && '\0' !in c.full.value.text)
  {
    if c.lite.Text? {
      forall base, digits | IsLiteName(c.lite.text, base, digits) ensures SplitLite(c.lite.text).Some? {
        SplitLiteFinds(c.lite.text, base, digits);
      }
      if SplitLite(c.lite.text).Some? {
        var (base, digits) := SplitLite(c.lite.text).value;
        assert IsLiteName(c.lite.text, base, digits);
      }
    }
  }

  /** A malformed consumer is refused for its first fault: the lite name's encoding, its form,
      the full name's encoding, its emptiness, and then a NUL in either. */
  lemma DecodeReportsFirstFault(a: Account, c: Consumer, ss58Prefix: nat)
    ensures var d := Decode(a, c, ss58Prefix);
      var lite := c.lite.Text? && exists base, digits :: IsLiteName(c.lite.text, base, digits);
      && (d == Err(LiteUtf8) <==> c.lite.NotUtf8?)
      && (d == Err(LiteFormat) <==> c.lite.Text? && !lite)
      && (d == Err(FullUtf8) <==> lite && c.full == Some(NotUtf8))
      && (d == Err(EmptyFull) <==> lite && c.full.Some? && c.full.value.Text? && c.full.value.text == "")
      && (d == Err(NulByte) <==>
            && lite && (c.full.Some? ==> c.full.value.Text? && c.full.value.text != "")
            && ('\0' in c.lite.text || (c.full.Some? && '\0' in c.full.value.text)))
  {
    if c.lite.Text? {
      forall base, digits | IsLiteName(c.lite.text, base, digits) ensures SplitLite(c.lite.text).Some? {
        SplitLiteFinds(c.lite.text, base, digits);
      }
      if SplitLite(c.lite.text).Some? {
        var (base, digits) := SplitLite(c.lite.text).value;
        assert IsLiteName(c.lite.text, base, digits);
      }
    }
  }

  /** Digits are read in base ten, leading zeros and all. */
  lemma ValueInBaseTen(digits: string, d: char)
    requires AllDigits(digits) && IsDigit(d)
    ensures Value(digits + [d]) == 10 * Value(digits) + (d as int - '0' as int)
    ensures Value([]) == 0
  {
    assert (digits + [d])[..|digits|] == digits;
  }

  /** What is decoded reassembles to what was stored, and is never blank. */
  lemma DecodedReassembles(a: Account, c: Consumer, ss58Prefix: nat)
    requires Decode(a, c, ss58Prefix).Ok?
    ensures var r := Decode(a, c, ss58Prefix).value;
      && (exists digits :: IsLiteName(r.lite, r.liteBase, digits) && r.liteDigits == Value(digits))
      && Text(r.lite) == c.lite && r.key == c.key && r.ss58 == (a, ss58Prefix)
      && r.full == (if c.full.Some? then Some(c.full.value.text) else None)
      && r.display == (if r.full.Some? then r.full.value else r.lite) && r.display != ""
  {
    var (base, digits) := SplitLite(c.lite.text).value;
    assert IsLiteName(c.lite.text, base, digits);
  }

  // ---- Reading a block ----

  /** What storage at a block says about one account. */
  datatype Reading = Absent | Unreadable | Malformed(error: DecodeError) | Good(content: Content)

  function StoredAt(b: Block, a: Account): Option<Stored> {
    if a in b.consumers then Some(b.consumers[a]) else None
  }

  function Read(b: Block, a: Account): Reading {
    match StoredAt(b, a)
    case None => Absent
    case Some(Garbled) => Unreadable
    case Some(Entry(consumer)) =>
      match Decode(a, consumer, b.ss58Prefix)
      case Ok(content) => Good(content)
      case Err(error) => Malformed(error)
  }

  /** What each reading means for the storage: no entry, a value that is no consumer record, or
      a record that does or does not decode. */
  lemma ReadsByStorage(b: Block, a: Account)
    ensures Read(b, a).Absent? <==> a !in b.consumers
    ensures Read(b, a).Unreadable? <==> a in b.consumers && b.consumers[a].Garbled?
    ensures forall c :: Read(b, a) == Good(c) <==>
      a in b.consumers && b.consumers[a].Entry? && Decode(a, b.consumers[a].consumer, b.ss58Prefix) == Ok(c)
    ensures forall e :: Read(b, a) == Malformed(e) <==>
      a in b.consumers && b.consumers[a].Entry? && Decode(a, b.consumers[a].consumer, b.ss58Prefix) == Err(e)
  {
  }

  /** What a fresh full scan at the block would index. */
  function Scan(b: Block): map<Account, Content> {
    map a | a in b.consumers && Read(b, a).Good? :: Read(b, a).content
  }

  /** `b` is a child of `parent`: every account whose entry changed is named by one of
      its events, and the SS58 prefix stays. */
  ghost predicate Follows(parent: Block, b: Block) {
    && b.number == parent.number + 1 && b.genesis == parent.genesis && b.ss58Prefix == parent.ss58Prefix
    && (forall a: Account :: a !in b.named ==> StoredAt(b, a) == StoredAt(parent, a))
  }

  /** A chain of blocks by height. */
  ghost predicate IsChain(chain: nat -> Block) {
    && (forall n: nat :: chain(n).number == n && chain(n).genesis == chain(0).genesis)
    && (forall n: nat :: Follows(chain(n), chain(n + 1)))
  }

  /** Along a chain, an account whose reading differs between two heights is named in between. */
  lemma {:induction false} ChangedIsNamed(chain: nat -> Block, low: nat, high: nat, a: Account)
    requires IsChain(chain) && low <= high
    requires forall n :: low < n <= high ==> a !in chain(n).named
    ensures Read(chain(high), a) == Read(chain(low), a)
    decreases high
  {
    if low < high {
      ChangedIsNamed(chain, low, high - 1, a);
      assert Follows(chain(high - 1), chain(high - 1 + 1));
    }
  }
}
