/** Character classes and the string operations the extractor relies on:
    Python's `str.strip()`, `str.lower()`, the substring test `k in s`
    and `int()` on a run of decimal digits. */
module Text {

  /** Python's `str.isspace()`: the characters `strip()` removes and regex `\s` matches. */
  predicate IsSpace(c: char) {
    c == ' ' || ('\t' <= c <= '\r') || ('\U{1C}' <= c <= '\U{1F}')
    || c == '\U{85}' || c == '\U{A0}' || c == '\U{1680}'
    || ('\U{2000}' <= c <= '\U{200A}') || c == '\U{2028}' || c == '\U{2029}'
    || c == '\U{202F}' || c == '\U{205F}' || c == '\U{3000}'
  }

  /** Regex `\d`, restricted to ASCII. */
  predicate IsDigit(c: char) {
    '0' <= c <= '9'
  }

  /** Regex `\w`, restricted to ASCII letters, digits and underscore. */
  predicate IsWordChar(c: char) {
    ('a' <= c <= 'z') || ('A' <= c <= 'Z') || IsDigit(c) || c == '_'
  }

  /** A value that may be missing (Python's `None`). */
  datatype Option<T> = None | Some(value: T)

  predicate AllSpace(s: string) {
    forall k :: 0 <= k < |s| ==> IsSpace(s[k])
  }

  // ---------------------------------------------------------------------------
  // strip()

  /** `s.lstrip()`: the longest suffix of `s` that does not start with whitespace. */
  function TrimStart(s: string): (r: string)
    ensures |r| <= |s| && r == s[|s| - |r|..]
    ensures r == [] || !IsSpace(r[0])
    ensures AllSpace(s[..|s| - |r|])
  {
    if s != [] && IsSpace(s[0]) then TrimStart(s[1..]) else s
  }

  /** `s.rstrip()`: the longest prefix of `s` that does not end with whitespace. */
  function TrimEnd(s: string): (r: string)
    ensures |r| <= |s| && r == s[..|r|]
    ensures r == [] || !IsSpace(r[|r| - 1])
    ensures AllSpace(s[|r|..])
  {
    if s != [] && IsSpace(s[|s| - 1]) then TrimEnd(s[..|s| - 1]) else s
  }

  /** `s.strip()`. */
  function Strip(s: string): string {
    TrimEnd(TrimStart(s))
  }

  // ---------------------------------------------------------------------------
  // lower()

  /** Lower-case mapping of one character: ASCII, Latin-1 Supplement and Latin
      Extended-A (which holds the Latvian letters), each upper-case letter to
      its single lower-case partner. */
  function LowerChar(c: char): char {
    if 'A' <= c <= 'Z' then (c as int + 32) as char
    else if ('\U{C0}' <= c <= '\U{DE}') && c != '\U{D7}' then (c as int + 32) as char
    else if IsUpperExtA(c) then (c as int + 1) as char
    else if c == '\U{178}' then '\U{FF}'
    else c
  }

  /** Upper-case letters of Latin Extended-A whose lower-case partner is the next
      code point (U+0130, whose lower-case form is two characters, is excluded). */
  predicate IsUpperExtA(c: char) {
    var n := c as int;
    ((0x100 <= n <= 0x12F || 0x132 <= n <= 0x137 || 0x14A <= n <= 0x177) && n % 2 == 0)
    || ((0x139 <= n <= 0x148 || 0x179 <= n <= 0x17E) && n % 2 == 1)
  }

  /** `s.lower()`. */
  function Lower(s: string): string {
    seq(|s|, i requires 0 <= i < |s| => LowerChar(s[i]))
  }

  /** The column-name normalisation `str(c).strip().lower()`. */
  function Normalize(s: string): string {
    Lower(Strip(s))
  }

  // ---------------------------------------------------------------------------
  // substring test and int()

  /** Python's `k in s` for strings. */
  predicate Contains(s: string, k: string) {
    exists i :: 0 <= i <= |s| && k <= s[i..]
  }

  predicate AllDigits(s: string) {
    forall k :: 0 <= k < |s| ==> IsDigit(s[k])
  }

  /** The value of one decimal digit. */
  function DigitValue(c: char): (d: nat)
    requires IsDigit(c)
    ensures d < 10
  {
    c as int - '0' as int
  }

  /** The digit whose value is `d`. */
  function DigitChar(d: nat): (c: char)
    requires d < 10
    ensures IsDigit(c) && DigitValue(c) == d
  {
    ('0' as int + d) as char
  }

  function Pow10(k: nat): (r: nat)
    ensures r >= 1
  {
    if k == 0 then 1 else 10 * Pow10(k - 1)
  }

  /** `int(s)` for a non-empty string of ASCII decimal digits (what `\d+` matches). */
  function DigitsValue(s: string): (n: nat)
    requires s != [] && AllDigits(s)
    ensures n < Pow10(|s|)
    decreases |s|
  {
    if |s| == 1 then DigitValue(s[0])
    else DigitsValue(s[..|s| - 1]) * 10 + DigitValue(s[|s| - 1])
  }

  /** `str(n)`: the decimal digits of `n`, with no leading zero. */
  function DecimalString(n: nat): (s: string)
    ensures s != [] && AllDigits(s)
    ensures |s| > 1 ==> s[0] != '0'
  {
    if n < 10 then [DigitChar(n)] else DecimalString(n / 10) + [DigitChar(n % 10)]
  }

  // ---------------------------------------------------------------------------
  // lemmas

  /** Lower-casing never creates or removes whitespace. */
  lemma LowerCharSpace(c: char)
    ensures IsSpace(LowerChar(c)) == IsSpace(c)
  {
  }

  /** Lower-casing is idempotent on characters. */
  lemma LowerCharIdempotent(c: char)
    ensures LowerChar(LowerChar(c)) == LowerChar(c)
  {
  }

  lemma {:induction false} TrimStartLower(s: string)
    ensures TrimStart(Lower(s)) == Lower(TrimStart(s))
    decreases |s|
  {
    if s != [] {
      LowerCharSpace(s[0]);
      assert Lower(s)[1..] == Lower(s[1..]);
      if IsSpace(s[0]) {
        TrimStartLower(s[1..]);
      }
    }
  }

  lemma {:induction false} TrimEndLower(s: string)
    ensures TrimEnd(Lower(s)) == Lower(TrimEnd(s))
    decreases |s|
  {
    if s != [] {
      LowerCharSpace(s[|s| - 1]);
      assert Lower(s)[..|s| - 1] == Lower(s[..|s| - 1]);
      if IsSpace(s[|s| - 1]) {
        TrimEndLower(s[..|s| - 1]);
      }
    }
  }

  /** Lower-casing and stripping commute. */
  lemma StripLower(s: string)
    ensures Strip(Lower(s)) == Lower(Strip(s))
  {
    TrimStartLower(s);
    TrimEndLower(TrimStart(s));
  }

  lemma LowerIdempotent(s: string)
    ensures Lower(Lower(s)) == Lower(s)
  {
    forall i | 0 <= i < |s| ensures Lower(Lower(s))[i] == Lower(s)[i] {
      LowerCharIdempotent(s[i]);
    }
  }

  /** Stripping twice is stripping once. */
  lemma StripIdempotent(s: string)
    ensures Strip(Strip(s)) == Strip(s)
  {
    var t := TrimStart(s);
    var r := TrimEnd(t);
    if r != [] {
      assert r[0] == t[0];
      assert TrimStart(r) == r;
    }
  }

  /** Normalising a normalised name changes nothing. */
  lemma NormalizeIdempotent(s: string)
    ensures Normalize(Normalize(s)) == Normalize(s)
  {
    StripLower(Strip(s));
    StripIdempotent(s);
    LowerIdempotent(Strip(s));
  }

  /** Two names that differ only in letter case normalise alike. */
  lemma NormalizeIgnoresCase(s: string, t: string)
    requires Lower(s) == Lower(t)
    ensures Normalize(s) == Normalize(t)
  {
    StripLower(s);
    StripLower(t);
  }

  lemma {:induction false} TrimStartPadded(ws: string, s: string)
    requires AllSpace(ws)
    ensures TrimStart(ws + s) == TrimStart(s)
    decreases |ws|
  {
    if ws != [] {
      assert (ws + s)[1..] == ws[1..] + s;
      TrimStartPadded(ws[1..], s);
    } else {
      assert ws + s == s;
    }
  }

  lemma {:induction false} TrimEndPadded(s: string, ws: string)
    requires AllSpace(ws)
    ensures TrimEnd(s + ws) == TrimEnd(s)
    decreases |ws|
  {
    if ws != [] {
      assert (s + ws)[..|s + ws| - 1] == s + ws[..|ws| - 1];
      TrimEndPadded(s, ws[..|ws| - 1]);
    } else {
      assert s + ws == s;
    }
  }

  /** Left-stripping a string followed by whitespace keeps that whitespace, or
      yields nothing when the string itself is all whitespace. */
  lemma {:induction false} TrimStartThenSpace(s: string, ws: string)
    requires AllSpace(ws)
    ensures TrimStart(s) != [] ==> TrimStart(s + ws) == TrimStart(s) + ws
    ensures TrimStart(s) == [] ==> TrimStart(s + ws) == []
    decreases |s|
  {
    if s == [] {
      assert s + ws == ws;
      TrimStartPadded(ws, []);
      assert ws + [] == ws;
    } else {
      assert (s + ws)[1..] == s[1..] + ws;
      if IsSpace(s[0]) {
        TrimStartThenSpace(s[1..], ws);
      }
    }
  }

  /** Surrounding whitespace does not affect the normalised name. */
  lemma NormalizeIgnoresPadding(pre: string, s: string, post: string)
    requires AllSpace(pre) && AllSpace(post)
    ensures Normalize(pre + s + post) == Normalize(s)
  {
    var t := s + post;
    assert pre + s + post == pre + t;
    TrimStartPadded(pre, t);
    TrimStartThenSpace(s, post);
    var core := TrimStart(s);
    if core != [] {
      assert TrimStart(t) == core + post;
      TrimEndPadded(core, post);
    } else {
      assert TrimStart(t) == [];
    }
    assert Strip(pre + s + post) == Strip(s);
  }

  /** `int()` reads back every natural number from its decimal form. */
  lemma {:induction false} DigitsValueOfDecimal(n: nat)
    ensures DigitsValue(DecimalString(n)) == n
  {
    if n >= 10 {
      var s := DecimalString(n);
      assert s[..|s| - 1] == DecimalString(n / 10);
      DigitsValueOfDecimal(n / 10);
    }
  }

  /** The digits of `a` followed by those of `b` are worth `a` shifted past `b`,
      plus `b`; in particular leading zeros add nothing. */
  lemma {:induction false} DigitsValueAppend(a: string, b: string)
    requires a != [] && AllDigits(a) && b != [] && AllDigits(b)
    ensures AllDigits(a + b)
    ensures DigitsValue(a + b) == DigitsValue(a) * Pow10(|b|) + DigitsValue(b)
    decreases |b|
  {
    var s := a + b;
    assert AllDigits(s) by {
      forall k | 0 <= k < |s| ensures IsDigit(s[k]) {
        if k >= |a| {
          assert s[k] == b[k - |a|];
        }
      }
    }
    var n := |b| - 1;
    assert s[..|s| - 1] == a + b[..n];
    assert s[|s| - 1] == b[n];
    if n > 0 {
      DigitsValueAppend(a, b[..n]);
      ShiftDigit(DigitsValue(a), DigitsValue(b[..n]), Pow10(n), DigitValue(b[n]));
    }
  }

  lemma ShiftDigit(va: int, vb: int, p: int, d: int)
    ensures (va * p + vb) * 10 + d == va * (10 * p) + (vb * 10 + d)
  {
  }
}
