/**
  The search prefix becomes a LIKE pattern: three escaping passes, then a percent
  sign. The predicate is SQL's, with a backslash as its escape character
  (section 8.5 of ISO/IEC 9075-2).
 */
module Like {
  import opened Prelude

  const ESCAPE: char := '\\'

  /** `str::replace` of one character. */
  function Replace(s: string, c: char, with: string): string {
    if s == "" then "" else (if s[0] == c then with else [s[0]]) + Replace(s[1..], c, with)
  }

  function EscapeLike(s: string): string {
    Replace(Replace(Replace(s, '\\', "\\\\"), '%', "\\%"), '_', "\\_")
  }

  /** LIKE with an escape character: `None` when the pattern itself is invalid, that is
      when an escape is not followed by an escape, a percent sign or an underscore. */
  function Matches(pattern: string, text: string): Option<bool>
    decreases |pattern|, |text|
  {
    if pattern == "" then Some(text == "")
    else if pattern[0] == ESCAPE then
      if |pattern| < 2 || (pattern[1] != ESCAPE && pattern[1] != '%' && pattern[1] != '_') then None
      else if text != "" && text[0] == pattern[1] then Matches(pattern[2..], text[1..])
      else Failed(pattern[2..])
    else if pattern[0] == '%' then
      // Any run of characters: none here, or one more.
      var none := Matches(pattern[1..], text);
      if none.None? || none.value || text == "" then none else Matches(pattern, text[1..])
    else if text != "" && (pattern[0] == '_' || text[0] == pattern[0]) then Matches(pattern[1..], text[1..])
    else Failed(pattern[1..])
  }

  /** A mismatch is still an error when the rest of the pattern is invalid. */
  function Failed(pattern: string): Option<bool>
    decreases |pattern|
  {
    if pattern == "" then Some(false)
    else if pattern[0] == ESCAPE then
      if |pattern| < 2 || (pattern[1] != ESCAPE && pattern[1] != '%' && pattern[1] != '_') then None
      else Failed(pattern[2..])
    else Failed(pattern[1..])
  }

  /** What the three passes amount to: one escape before each special character. */
  function EscapeOnce(s: string): string {
    if s == "" then ""
    else (if s[0] == '\\' || s[0] == '%' || s[0] == '_' then ['\\', s[0]] else [s[0]]) + EscapeOnce(s[1..])
  }

  lemma {:induction false} ReplaceConcat(a: string, b: string, c: char, with: string)
    ensures Replace(a + b, c, with) == Replace(a, c, with) + Replace(b, c, with)
  {
    if a == "" {
      assert a + b == b;
    } else {
      assert (a + b)[1..] == a[1..] + b;
      ReplaceConcat(a[1..], b, c, with);
    }
  }

  /** The passes do not disturb each other's escapes. */
  lemma {:induction false} ThreePassesAreOne(s: string)
    ensures EscapeLike(s) == EscapeOnce(s)
  {
    if s != "" {
      ThreePassesAreOne(s[1..]);
      var head := if s[0] == '\\' then "\\\\" else [s[0]];
      var once := Replace(s[1..], '\\', "\\\\");
      ReplaceConcat(head, once, '%', "\\%");
      ReplaceConcat(Replace(head, '%', "\\%"), Replace(once, '%', "\\%"), '_', "\\_");
      EscapeOfOne(s[0]);
    }
  }

  lemma EscapeOfOne(c: char)
    ensures var head := if c == '\\' then "\\\\" else [c];
      Replace(Replace(head, '%', "\\%"), '_', "\\_") == if c == '\\' || c == '%' || c == '_' then ['\\', c] else [c]
  {
    ReplaceOne(c, '%', "\\%");
    ReplaceOne(c, '_', "\\_");
    ReplaceTwo('\\', c, '_', "\\_");
    ReplaceTwo('\\', '\\', '%', "\\%");
    ReplaceTwo('\\', '\\', '_', "\\_");
    ReplaceTwo('\\', '%', '_', "\\_");
  }

  lemma ReplaceOne(a: char, c: char, with: string)
    ensures Replace([a], c, with) == if a == c then with else [a]
  {
    assert [a][1..] == "";
  }

  lemma ReplaceTwo(a: char, b: char, c: char, with: string)
    ensures Replace([a, b], c, with) == (if a == c then with else [a]) + (if b == c then with else [b])
  {
    assert [a, b][1..] == [b];
    ReplaceOne(b, c, with);
  }

  lemma {:induction false} PercentMatchesAll(text: string)
    ensures Matches("%", text) == Some(true)
  {
    assert "%"[1..] == "";
    if text != "" {
      PercentMatchesAll(text[1..]);
    }
  }

  lemma {:induction false} EscapedIsValid(s: string)
    ensures Failed(EscapeOnce(s) + "%") == Some(false)
  {
    var pattern := EscapeOnce(s) + "%";
    if s == "" {
      assert pattern == "%" && pattern[1..] == "";
    } else {
      EscapedIsValid(s[1..]);
      var rest := EscapeOnce(s[1..]) + "%";
      assert if s[0] == '\\' || s[0] == '%' || s[0] == '_' then pattern[2..] == rest else pattern[1..] == rest;
    }
  }

  /** For every prefix and every text, the pattern is valid and matches exactly the
      texts that start with the prefix, character for character. */
  lemma {:induction false} PatternMatchesPrefix(prefix: string, text: string)
    ensures Matches(EscapeLike(prefix) + "%", text) == Some(prefix <= text)
  {
    ThreePassesAreOne(prefix);
    EscapedMatchesPrefix(prefix, text);
  }

  lemma {:induction false} EscapedMatchesPrefix(prefix: string, text: string)
    ensures Matches(EscapeOnce(prefix) + "%", text) == Some(prefix <= text)
  {
    var pattern := EscapeOnce(prefix) + "%";
    if prefix == "" {
      assert pattern == "%";
      PercentMatchesAll(text);
    } else {
      var rest := EscapeOnce(prefix[1..]) + "%";
      var special := prefix[0] == '\\' || prefix[0] == '%' || prefix[0] == '_';
      assert if special then pattern[2..] == rest && pattern[1] == prefix[0] else pattern[1..] == rest && pattern[0] == prefix[0];
      EscapedIsValid(prefix[1..]);
      if text != "" && text[0] == prefix[0] {
        EscapedMatchesPrefix(prefix[1..], text[1..]);
        assert prefix <= text <==> prefix[1..] <= text[1..];
      }
    }
  }

  /** The escapes are needed: unescaped, a wildcard in the prefix matches texts that do not
      start with it, and an escape character makes the pattern an error. */
  lemma UnescapedPrefixesMisfire(text: string)
    ensures Matches("%" + "%", text) == Some(true)
    ensures text != "" ==> Matches("_" + "%", text) == Some(true)
    ensures text == "" ==> Matches("_" + "%", text) == Some(false)
    ensures Matches("\\" + "a" + "%", text) == None
  {
    assert ("%" + "%")[1..] == "%" && ("_" + "%")[1..] == "%";
    PercentMatchesAll(text);
    if text != "" {
      PercentMatchesAll(text[1..]);
    }
  }
}
