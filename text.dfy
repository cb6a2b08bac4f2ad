// String helpers that stand for the Python built-ins the bot relies on:
// str.strip, str.lower, str.upper, str.find, int() and str(int).

module Text {

  datatype Option<T> = None | Some(value: T) {
    function GetOr(default: T): T {
      match this
      case Some(v) => v
      case None => default
    }
  }

  /** Python's str.isspace() for one character (ASCII and Unicode white space). */
  predicate IsSpace(c: char) {
    || ('\U{0009}' <= c <= '\U{000D}')
    || ('\U{001C}' <= c <= '\U{0020}')
    || c == '\U{0085}' || c == '\U{00A0}' || c == '\U{1680}'
    || ('\U{2000}' <= c <= '\U{200A}')
    || c == '\U{2028}' || c == '\U{2029}' || c == '\U{202F}' || c == '\U{205F}' || c == '\U{3000}'
  }

  /** Python truthiness of an optional string: present and non-empty. */
  predicate Truthy(s: Option<string>) {
    s.Some? && s.value != ""
  }

  function TrimLeft(s: string): (r: string)
    ensures |r| <= |s| && r == s[|s| - |r|..]
    ensures r == [] || !IsSpace(r[0])
    ensures forall i :: 0 <= i < |s| - |r| ==> IsSpace(s[i])
  {
    if s != [] && IsSpace(s[0]) then TrimLeft(s[1..]) else s
  }

  function TrimRight(s: string): (r: string)
    ensures |r| <= |s| && r == s[..|r|]
    ensures r == [] || !IsSpace(r[|r| - 1])
    ensures forall i :: |r| <= i < |s| ==> IsSpace(s[i])
  {
    if s != [] && IsSpace(s[|s| - 1]) then TrimRight(s[..|s| - 1]) else s
  }

  /** str.strip(): the longest infix that neither starts nor ends with white space. */
  function Strip(s: string): (r: string)
    ensures |r| <= |s|
    ensures r == [] || (!IsSpace(r[0]) && !IsSpace(r[|r| - 1]))
    ensures exists a, b :: 0 <= a <= b <= |s| && r == s[a..b] && Trimmed(s, a, b)
  {
    var t := TrimLeft(s);
    var r := TrimRight(t);
    var a := |s| - |t|;
    assert r == s[a..a + |r|] && Trimmed(s, a, a + |r|);
    r
  }

  /** Everything of `s` before `a` and from `b` on is white space. */
  predicate Trimmed(s: string, a: int, b: int)
    requires 0 <= a <= b <= |s|
  {
    (forall i :: 0 <= i < a ==> IsSpace(s[i])) && (forall i :: b <= i < |s| ==> IsSpace(s[i]))
  }

  /** Every character of the stripped string comes from the original. */
  lemma StripChars(s: string)
    ensures forall c :: c in Strip(s) ==> c in s
  {
    var t := TrimLeft(s);
    assert t == s[|s| - |t|..];
    assert TrimRight(t) == t[..|TrimRight(t)|];
  }

  lemma {:induction false} StripNoSpace(s: string)
    requires forall i :: 0 <= i < |s| ==> !IsSpace(s[i])
    ensures Strip(s) == s
  {
    assert TrimLeft(s) == s;
    assert TrimRight(s) == s;
  }

  /** A word of small Latin or Cyrillic letters is its own strip().lower(). */
  lemma SmallWordKept(s: string)
    requires forall i :: 0 <= i < |s| ==> 'a' <= s[i] <= 'z' || '\U{0430}' <= s[i] <= '\U{044F}'
    ensures Lower(Strip(s)) == s
  {
    forall i | 0 <= i < |s| ensures !IsSpace(s[i]) && LowerChar(s[i]) == s[i] {
      SmallLetter(s[i]);
    }
    StripNoSpace(s);
    LowerFixed(s);
  }

  lemma SmallLetter(c: char)
    requires 'a' <= c <= 'z' || '\U{0430}' <= c <= '\U{044F}'
    ensures !IsSpace(c) && LowerChar(c) == c
  {
  }

  /** str.lower() on ASCII A-Z and the Cyrillic block U+0400-U+045F; every other character is kept. */
  function LowerChar(c: char): char {
    if 'A' <= c <= 'Z' then (c as int + 32) as char
    else if '\U{0410}' <= c <= '\U{042F}' then (c as int + 32) as char
    else if '\U{0400}' <= c <= '\U{040F}' then (c as int + 80) as char
    else c
  }

  /** str.upper() on ASCII a-z and the Cyrillic block U+0400-U+045F; every other character is kept. */
  function UpperChar(c: char): char {
    if 'a' <= c <= 'z' then (c as int - 32) as char
    else if '\U{0430}' <= c <= '\U{044F}' then (c as int - 32) as char
    else if '\U{0450}' <= c <= '\U{045F}' then (c as int - 80) as char
    else c
  }

  /** A string none of whose characters lower() changes is its own lower-case form. */
  lemma LowerFixed(s: string)
    requires forall i :: 0 <= i < |s| ==> LowerChar(s[i]) == s[i]
    ensures Lower(s) == s
  {
  }

  predicate IsAsciiLower(c: char) { 'a' <= c <= 'z' }

  function Lower(s: string): (r: string)
    ensures |r| == |s| && forall i :: 0 <= i < |s| ==> r[i] == LowerChar(s[i])
  {
    if s == [] then [] else [LowerChar(s[0])] + Lower(s[1..])
  }

  function Upper(s: string): (r: string)
    ensures |r| == |s| && forall i :: 0 <= i < |s| ==> r[i] == UpperChar(s[i])
  {
    if s == [] then [] else [UpperChar(s[0])] + Upper(s[1..])
  }

  lemma UpperHasNoAsciiLower(s: string)
    ensures forall i :: 0 <= i < |Upper(s)| ==> !IsAsciiLower(Upper(s)[i])
  {
    forall i | 0 <= i < |s| ensures !IsAsciiLower(Upper(s)[i]) {
      var c := s[i];
      if 'a' <= c <= 'z' {
        assert UpperChar(c) as int == c as int - 32;
      } else if '\U{0430}' <= c <= '\U{045F}' {
        assert UpperChar(c) as int < 0x0430;
      }
    }
  }

  /** Whether `pat` occurs in `s` starting at index `i`. */
  predicate IsAt(s: string, pat: string, i: int) {
    0 <= i && i + |pat| <= |s| && s[i..i + |pat|] == pat
  }

  predicate StartsWith(s: string, pat: string) {
    IsAt(s, pat, 0)
  }

  predicate Contains(s: string, pat: string) {
    exists i :: 0 <= i <= |s| && IsAt(s, pat, i)
  }

  /** str.find(pat, from): the first index at or after `from` where `pat` occurs (None for -1). */
  function Find(s: string, pat: string, from: nat): (r: Option<nat>)
    ensures r.Some? ==> from <= r.value && IsAt(s, pat, r.value)
    ensures r.Some? ==> forall j :: from <= j < r.value ==> !IsAt(s, pat, j)
    ensures r.None? ==> forall j :: from <= j ==> !IsAt(s, pat, j)
    decreases |s| - from
  {
    if from + |pat| > |s| then None
    else if s[from..from + |pat|] == pat then Some(from)
    else Find(s, pat, from + 1)
  }

  /** An occurrence with none before it (from `from` on) is what find returns. */
  lemma {:induction false} FindFirst(s: string, pat: string, from: nat, at: nat)
    requires from <= at && IsAt(s, pat, at)
    requires forall j :: from <= j < at ==> !IsAt(s, pat, j)
    ensures Find(s, pat, from) == Some(at)
    decreases at - from
  {
    if from < at {
      assert !IsAt(s, pat, from);
      FindFirst(s, pat, from + 1, at);
    }
  }

  predicate IsDigit(c: char) { '0' <= c <= '9' }

  function DigitValue(c: char): nat
    requires IsDigit(c)
  {
    c as int - '0' as int
  }

  /** The value of a string of decimal digits, most significant first. */
  function DigitsValue(s: string): nat
    requires forall i :: 0 <= i < |s| ==> IsDigit(s[i])
  {
    if s == [] then 0 else DigitsValue(s[..|s| - 1]) * 10 + DigitValue(s[|s| - 1])
  }

  /** The digits of a decimal literal with Python's optional single underscores between digits. */
  predicate IsDigitGroups(s: string) {
    && |s| > 0 && IsDigit(s[0]) && IsDigit(s[|s| - 1])
    && (forall i :: 0 <= i < |s| ==> IsDigit(s[i]) || s[i] == '_')
    && (forall i :: 0 <= i < |s| - 1 ==> !(s[i] == '_' && s[i + 1] == '_'))
  }

  function RemoveUnderscores(s: string): (r: string)
    requires forall i :: 0 <= i < |s| ==> IsDigit(s[i]) || s[i] == '_'
    ensures forall i :: 0 <= i < |r| ==> IsDigit(r[i])
    ensures |r| <= |s|
  {
    if s == [] then []
    else if s[0] == '_' then RemoveUnderscores(s[1..])
    else [s[0]] + RemoveUnderscores(s[1..])
  }

  /** int() on an already stripped literal: an optional sign and ASCII digits. */
  function ParseLiteral(t: string): (r: Option<int>)
    ensures r.Some? ==> |t| > 0
  {
    if |t| > 0 && (t[0] == '+' || t[0] == '-') then
      var d := t[1..];
      if IsDigitGroups(d) then
        var v: int := DigitsValue(RemoveUnderscores(d));
        Some(if t[0] == '-' then -v else v)
      else None
    else if IsDigitGroups(t) then Some(DigitsValue(RemoveUnderscores(t)))
    else None
  }

  /** int(text.strip()), None standing for the ValueError it raises. */
  function ParseInt(text: string): Option<int> {
    ParseLiteral(Strip(text))
  }

  /** str(n) for a natural number. */
  function NatToString(n: nat): (r: string)
    ensures |r| > 0 && forall i :: 0 <= i < |r| ==> IsDigit(r[i])
  {
    var d := ['0' + (n % 10) as char];
    if n < 10 then d else NatToString(n / 10) + d
  }

  /** str(n) for an integer, with a leading '-' when negative. */
  function IntToString(n: int): string {
    if n < 0 then "-" + NatToString(-n) else NatToString(n)
  }

  lemma {:induction false} DigitsOfNatToString(n: nat)
    ensures DigitsValue(NatToString(n)) == n
  {
    var s := NatToString(n);
    var d := ['0' + (n % 10) as char];
    if n >= 10 {
      DigitsOfNatToString(n / 10);
      assert s == NatToString(n / 10) + d;
      assert s[..|s| - 1] == NatToString(n / 10);
    }
  }

  lemma {:induction false} NoUnderscoresKept(s: string)
    requires forall i :: 0 <= i < |s| ==> IsDigit(s[i])
    ensures RemoveUnderscores(s) == s
  {
    if s != [] {
      NoUnderscoresKept(s[1..]);
    }
  }

  lemma DigitsAreNotSpace(s: string)
    requires forall i :: 0 <= i < |s| ==> IsDigit(s[i])
    ensures forall i :: 0 <= i < |s| ==> !IsSpace(s[i])
  {
  }

  lemma ParsePlainDigits(s: string)
    requires |s| > 0 && forall i :: 0 <= i < |s| ==> IsDigit(s[i])
    ensures ParseLiteral(s) == Some(DigitsValue(s) as int)
  {
    NoUnderscoresKept(s);
    assert IsDigitGroups(s);
  }

  /** A plain run of digits is read as its value. */
  lemma ParseIntOfDigits(s: string)
    requires |s| > 0 && forall i :: 0 <= i < |s| ==> IsDigit(s[i])
    ensures ParseInt(s) == Some(DigitsValue(s) as int)
  {
    var v := DigitsValue(s) as int;
    ParsePlainDigits(s);
    assert ParseLiteral(s) == Some(v);
    StripDigits(s);
    assert ParseLiteral(Strip(s)) == Some(v);
  }

  lemma StripDigits(s: string)
    requires forall i :: 0 <= i < |s| ==> IsDigit(s[i])
    ensures Strip(s) == s
  {
    DigitsAreNotSpace(s);
    StripNoSpace(s);
  }

  /** Typing back the number a list shows is read as that number. */
  lemma ParseIntOfNatToString(n: nat)
    ensures ParseInt(NatToString(n)) == Some(n)
  {
    ParseIntOfDigits(NatToString(n));
    DigitsOfNatToString(n);
  }
}
