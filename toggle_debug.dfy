// The toggle_debug management command
// (bot/management/commands/toggle_debug.py) on the text of settings.py: the
// regular expressions it uses are written out as scanners over the string,
// with MULTILINE's "^" read as "at the start of the text or after a newline"
// and "\s" as Python's white space.

module ToggleDebug {
  import opened Text

  // ------------------------------------------------------------ matching

  /** MULTILINE "^": the start of the text or just after a newline. */
  predicate LineStart(s: string, p: nat) {
    p == 0 || (p <= |s| && s[p - 1] == '\n')
  }

  /** "\s*": the first position at or after `p` that is not white space. */
  function SkipSpace(s: string, p: nat): (r: nat)
    requires p <= |s|
    ensures p <= r <= |s|
    ensures r < |s| ==> !IsSpace(s[r])
    ensures forall k :: p <= k < r ==> IsSpace(s[k])
    decreases |s| - p
  {
    if p == |s| || !IsSpace(s[p]) then p else SkipSpace(s, p + 1)
  }

  /** "^NAME\s*=" tried at `q`: the position after the "=" when it matches. */
  function AssignAt(s: string, name: string, q: nat): (r: Option<nat>)
    requires q <= |s|
    ensures r.Some? ==> q + |name| < r.value <= |s| && s[r.value - 1] == '='
    ensures r.Some? ==> LineStart(s, q) && IsAt(s, name, q)
  {
    if !LineStart(s, q) || !IsAt(s, name, q) then None
    else
      var a := SkipSpace(s, q + |name|);
      if a < |s| && s[a] == '=' then Some(a + 1) else None
  }

  /** re.search's scan: the first position in [p, last] where `hit` holds. */
  function FirstWhere(p: nat, last: nat, hit: nat -> bool): (r: Option<nat>)
    ensures r.Some? ==> p <= r.value <= last && hit(r.value)
    ensures r.Some? ==> forall q :: p <= q < r.value ==> !hit(q)
    ensures r.None? ==> forall q :: p <= q <= last ==> !hit(q)
    decreases last + 1 - p
  {
    if p > last then None
    else if hit(p) then Some(p)
    else FirstWhere(p + 1, last, hit)
  }

  /** The scan finds `at` when `hit` holds there and nowhere before. */
  lemma FirstWhereIs(p: nat, last: nat, hit: nat -> bool, at: nat)
    requires p <= at <= last && hit(at)
    requires forall q :: p <= q < at ==> !hit(q)
    ensures FirstWhere(p, last, hit) == Some(at)
  {
  }

  /** re.search for "^NAME\s*=": the first match at or after `p`, as (start, end). */
  function FirstAssign(s: string, name: string, p: nat): (r: Option<(nat, nat)>)
    ensures r.Some? ==> p <= r.value.0 <= |s| && AssignAt(s, name, r.value.0) == Some(r.value.1)
    ensures r.Some? ==> forall q :: p <= q < r.value.0 ==> AssignAt(s, name, q).None?
    ensures r.None? ==> forall q :: p <= q <= |s| ==> AssignAt(s, name, q).None?
  {
    var hit := (q: nat) => q <= |s| && AssignAt(s, name, q).Some?;
    match FirstWhere(p, |s|, hit)
    case None =>
      assert forall q :: p <= q <= |s| ==> AssignAt(s, name, q).None? by {
        forall q | p <= q <= |s| ensures AssignAt(s, name, q).None? {
          assert !hit(q);
        }
      }
      None
    case Some(at) =>
      assert forall q :: p <= q < at ==> AssignAt(s, name, q).None? by {
        forall q | p <= q < at ensures AssignAt(s, name, q).None? {
          assert !hit(q);
        }
      }
      Some((at, AssignAt(s, name, at).value))
  }

  datatype Hit = Hit(end: nat, value: bool)

  function BoolText(b: bool): string {
    if b then "True" else "False"
  }

  /** "(True|False)" tried at `b`. */
  function ValueAt(s: string, b: nat): (r: Option<bool>)
    ensures r.Some? ==> IsAt(s, BoolText(r.value), b)
    ensures r.Some? ==> b < |s| && s[b] == (if r.value then 'T' else 'F')
    ensures r.None? ==> !IsAt(s, "True", b) && !IsAt(s, "False", b)
  {
    if IsAt(s, "True", b) then Some(true)
    else if IsAt(s, "False", b) then Some(false)
    else None
  }

  /** "^DEBUG\s*=\s*(True|False)" tried at `q`. */
  function DebugAt(s: string, q: nat): (r: Option<Hit>)
    requires q <= |s|
    ensures r.Some? ==> q < r.value.end <= |s| && AssignAt(s, "DEBUG", q).Some?
  {
    match AssignAt(s, "DEBUG", q)
    case None => None
    case Some(a) =>
      var b := SkipSpace(s, a);
      match ValueAt(s, b)
      case None => None
      case Some(x) =>
        Some(Hit(b + |BoolText(x)|, x))
  }

  /** re.search for the DEBUG pattern: the first position at or after `p` where it matches. */
  function FirstDebug(s: string, p: nat): (r: Option<nat>)
    ensures r.Some? ==> p <= r.value <= |s| && DebugAt(s, r.value).Some?
    ensures r.Some? ==> forall q :: p <= q < r.value ==> DebugAt(s, q).None?
    ensures r.None? ==> forall q :: p <= q <= |s| ==> DebugAt(s, q).None?
  {
    var hit := (q: nat) => q <= |s| && DebugAt(s, q).Some?;
    var r := FirstWhere(p, |s|, hit);
    assert r.Some? ==> forall q :: p <= q < r.value ==> DebugAt(s, q).None? by {
      if r.Some? {
        forall q | p <= q < r.value ensures DebugAt(s, q).None? {
          assert !hit(q);
        }
      }
    }
    assert r.None? ==> forall q :: p <= q <= |s| ==> DebugAt(s, q).None? by {
      if r.None? {
        forall q | p <= q <= |s| ensures DebugAt(s, q).None? {
          assert !hit(q);
        }
      }
    }
    r
  }

  /** current_debug: the value of the first DEBUG line, None when there is none. */
  function CurrentDebug(s: string): (r: Option<bool>)
    ensures r.Some? <==> exists q :: 0 <= q <= |s| && DebugAt(s, q).Some?
  {
    match FirstDebug(s, 0)
    case None => None
    case Some(q) => Some(DebugAt(s, q).value.value)
  }

  // ------------------------------------------------------------ the new value

  /** The new DEBUG value: --on, --off, or the opposite of the current one (False when there is none). */
  function NewDebug(current: Option<bool>, on: bool, off: bool): (r: bool)
    requires !(on && off)
    ensures on ==> r
    ensures off ==> !r
    ensures !on && !off && current.Some? ==> r == !current.value
    ensures !on && !off && current.None? ==> !r
  {
    if !on && !off then (if current.Some? then !current.value else false)
    else on
  }

  // ------------------------------------------------------------ replacing the DEBUG line

  /** The replacement text of re.sub. */
  function DebugLine(v: bool): string {
    "DEBUG = " + BoolText(v)
  }

  /** re.sub over `s` from `p` on: every match, left to right, replaced by DebugLine(v). */
  function SubDebug(s: string, p: nat, v: bool): string
    requires p <= |s|
    decreases |s| - p
  {
    if p == |s| then ""
    else match DebugAt(s, p)
      case Some(h) => DebugLine(v) + SubDebug(s, h.end, v)
      case None => [s[p]] + SubDebug(s, p + 1, v)
  }

  /** No match of the DEBUG pattern starts in [p, at). */
  ghost predicate NoDebugFrom(s: string, p: nat, at: nat)
    requires at <= |s|
    decreases at - p
  {
    p >= at || (DebugAt(s, p).None? && NoDebugFrom(s, p + 1, at))
  }

  lemma {:induction false} NoDebugFromAll(s: string, p: nat, at: nat)
    requires p <= at <= |s|
    requires forall q :: p <= q < at ==> DebugAt(s, q).None?
    ensures NoDebugFrom(s, p, at)
    decreases at - p
  {
    if p < at {
      NoDebugFromAll(s, p + 1, at);
    }
  }

  /** Up to the first match nothing is replaced. */
  lemma {:induction false} SubCopiesPrefix(s: string, p: nat, at: nat, v: bool)
    requires p <= at <= |s| && NoDebugFrom(s, p, at)
    ensures SubDebug(s, p, v) == s[p..at] + SubDebug(s, at, v)
    decreases at - p
  {
    if p < at {
      SubCopiesPrefix(s, p + 1, at, v);
      SubCopiesStep(s, p, at, v);
    }
  }

  lemma SubCopiesStep(s: string, p: nat, at: nat, v: bool)
    requires p < at <= |s| && DebugAt(s, p).None?
    requires SubDebug(s, p + 1, v) == s[p + 1..at] + SubDebug(s, at, v)
    ensures SubDebug(s, p, v) == s[p..at] + SubDebug(s, at, v)
  {
    SubStep(s, p, v);
    ConsSlice(s, p, at, SubDebug(s, at, v), SubDebug(s, p + 1, v), SubDebug(s, p, v));
  }

  lemma ConsSlice(s: string, p: nat, at: nat, rest: string, tail: string, whole: string)
    requires p < at <= |s|
    requires tail == s[p + 1..at] + rest && whole == [s[p]] + tail
    ensures whole == s[p..at] + rest
  {
    assert [s[p]] + s[p + 1..at] == s[p..at];
    assert [s[p]] + (s[p + 1..at] + rest) == ([s[p]] + s[p + 1..at]) + rest;
  }

  lemma SubStep(s: string, p: nat, v: bool)
    requires p < |s| && DebugAt(s, p).None?
    ensures SubDebug(s, p, v) == [s[p]] + SubDebug(s, p + 1, v)
  {
  }

  /** Two texts agree on their first `k` characters. */
  predicate Agree(s1: string, s2: string, k: nat) {
    k <= |s1| && k <= |s2| && forall i :: 0 <= i < k ==> s1[i] == s2[i]
  }

  lemma AgreeSlice(s1: string, s2: string, k: nat, i: nat, j: nat)
    requires Agree(s1, s2, k) && i <= j <= k
    ensures s1[i..j] == s2[i..j]
  {
    assert forall x :: 0 <= x < j - i ==> s1[i..j][x] == s1[i + x] == s2[i + x] == s2[i..j][x];
  }

  /** "\s*" ending before `k` in `s2` ends at the same place in a text that agrees with it there. */
  lemma {:induction false} SkipTransfer(s1: string, s2: string, x: nat, k: nat)
    requires x <= |s2| && Agree(s1, s2, k) && SkipSpace(s2, x) < k
    ensures x <= |s1| && SkipSpace(s1, x) == SkipSpace(s2, x)
    decreases |s2| - x
  {
    if IsSpace(s2[x]) {
      SkipTransfer(s1, s2, x + 1, k);
    }
  }

  /** An assignment match that ends by `k` is read from the first `k` characters only. */
  lemma AssignTransfer(s1: string, s2: string, name: string, q: nat, k: nat)
    requires q <= |s2| && Agree(s1, s2, k)
    requires AssignAt(s2, name, q).Some? && AssignAt(s2, name, q).value <= k
    ensures q <= |s1| && AssignAt(s1, name, q) == AssignAt(s2, name, q)
  {
    var e := AssignAt(s2, name, q).value;
    AgreeSlice(s1, s2, k, q, q + |name|);
    SkipTransfer(s1, s2, q + |name|, k);
  }

  /** A DEBUG match that ends by `k` is read from the first `k` characters only. */
  lemma DebugAtTransfer(s1: string, s2: string, q: nat, k: nat)
    requires q <= |s2| && Agree(s1, s2, k)
    requires DebugAt(s2, q).Some? && DebugAt(s2, q).value.end <= k
    ensures q <= |s1| && DebugAt(s1, q) == DebugAt(s2, q)
  {
    var a := AssignAt(s2, "DEBUG", q).value;
    var b := SkipSpace(s2, a);
    var x := ValueAt(s2, b).value;
    DebugAtParts(s2, q, a, b, x);
    AssignTransfer(s1, s2, "DEBUG", q, k);
    SkipTransfer(s1, s2, a, k);
    ValueTransfer(s1, s2, b, k);
    DebugAtParts(s1, q, a, b, x);
  }

  /** The DEBUG match put together from its three parts. */
  lemma DebugAtParts(s: string, q: nat, a: nat, b: nat, x: bool)
    requires q <= |s| && AssignAt(s, "DEBUG", q) == Some(a)
    requires SkipSpace(s, a) == b && ValueAt(s, b) == Some(x)
    ensures DebugAt(s, q) == Some(Hit(b + |BoolText(x)|, x))
  {
  }

  lemma ValueTransfer(s1: string, s2: string, b: nat, k: nat)
    requires Agree(s1, s2, k) && ValueAt(s2, b).Some? && b + |BoolText(ValueAt(s2, b).value)| <= k
    ensures ValueAt(s1, b) == ValueAt(s2, b)
  {
    AgreeSlice(s1, s2, k, b, b + 4);
    if ValueAt(s2, b) == Some(false) {
      AgreeSlice(s1, s2, k, b, b + 5);
    }
  }

  /**
   * A match starting before `pos` cannot run past white space at `pos` that
   * leads to a character (`s[t]`) that is neither "=", nor the start of True
   * or False: it ends by `pos`.
   */
  lemma MatchStopsAt(s: string, pos: nat, t: nat, q: nat)
    requires q < pos < t < |s|
    requires forall k :: pos <= k < t ==> IsSpace(s[k])
    requires !IsSpace(s[t]) && s[t] != '=' && s[t] != 'T' && s[t] != 'F'
    requires DebugAt(s, q).Some?
    ensures DebugAt(s, q).value.end <= pos
  {
    var h := DebugAt(s, q).value;
    var a := AssignAt(s, "DEBUG", q).value;
    var b := SkipSpace(s, a);
    var w := BoolText(h.value);
    if q + 5 > pos {
      WordNotSpace(s, "DEBUG", q, pos);
    }
    SkipStops(s, q + 5, pos, t);
    SkipStops(s, a, pos, t);
    assert ValueAt(s, b) == Some(h.value);
    if b + |w| > pos {
      WordNotSpace(s, w, b, pos);
    }
  }

  /** A word without white space that covers `pos` would put a non-space there. */
  lemma WordNotSpace(s: string, w: string, at: nat, pos: nat)
    requires w == "DEBUG" || w == "True" || w == "False"
    requires IsAt(s, w, at) && at <= pos < at + |w|
    ensures !IsSpace(s[pos])
  {
    assert s[pos] == s[at..at + |w|][pos - at] == w[pos - at];
  }

  /** "\s*" from before a run of white space at [pos, t) stops before it or at `t`. */
  lemma SkipStops(s: string, x: nat, pos: nat, t: nat)
    requires x <= t < |s| && pos <= t
    requires forall k :: pos <= k < t ==> IsSpace(s[k])
    requires !IsSpace(s[t])
    ensures SkipSpace(s, x) < pos || SkipSpace(s, x) == t
  {
  }

  /** The replaced line reads back as the new value. */
  lemma DebugLineMatches(s: string, at: nat, v: bool)
    requires at + |DebugLine(v)| <= |s| && LineStart(s, at)
    requires s[at..at + |DebugLine(v)|] == DebugLine(v)
    ensures DebugAt(s, at) == Some(Hit(at + |DebugLine(v)|, v))
  {
    SliceChars(s, at, DebugLine(v));
    DebugLineAssign(s, at, v);
    DebugLineValue(s, at, v);
    assert |DebugLine(v)| == 8 + |BoolText(v)|;
  }

  lemma SliceChars(s: string, at: nat, w: string)
    requires at + |w| <= |s| && s[at..at + |w|] == w
    ensures forall i :: 0 <= i < |w| ==> s[at + i] == w[i]
  {
    forall i | 0 <= i < |w| ensures s[at + i] == w[i] {
      assert s[at + i] == s[at..at + |w|][i];
    }
  }

  lemma DebugLineAssign(s: string, at: nat, v: bool)
    requires at + |DebugLine(v)| <= |s| && LineStart(s, at)
    requires forall i :: 0 <= i < |DebugLine(v)| ==> s[at + i] == DebugLine(v)[i]
    ensures AssignAt(s, "DEBUG", at) == Some(at + 7)
    ensures SkipSpace(s, at + 7) == at + 8
  {
    var line := DebugLine(v);
    assert line[..5] == "DEBUG";
    assert s[at..at + 5] == line[..5];
    assert line[5] == ' ' && line[6] == '=' && line[7] == ' ' && (line[8] == 'T' || line[8] == 'F');
  }

  lemma DebugLineValue(s: string, at: nat, v: bool)
    requires at + |DebugLine(v)| <= |s|
    requires forall i :: 0 <= i < |DebugLine(v)| ==> s[at + i] == DebugLine(v)[i]
    ensures ValueAt(s, at + 8) == Some(v)
  {
    var line := DebugLine(v);
    assert line[8..] == BoolText(v);
    assert s[at + 8..at + |line|] == line[8..];
    assert line[8] == (if v then 'T' else 'F');
  }

  /**
   * Read-after-write for the replace branch: when the settings have a DEBUG
   * line, after re.sub the first DEBUG line holds the new value.
   */
  lemma ReplaceReadsBack(s: string, v: bool)
    requires CurrentDebug(s).Some?
    ensures CurrentDebug(SubDebug(s, 0, v)) == Some(v)
  {
    var at := FirstDebug(s, 0).value;
    NoDebugFromAll(s, 0, at);
    ReplaceAtReadsBack(s, at, v);
  }

  lemma ReplaceAtReadsBack(s: string, at: nat, v: bool)
    requires at <= |s| && DebugAt(s, at).Some? && NoDebugFrom(s, 0, at)
    requires forall q :: 0 <= q < at ==> DebugAt(s, q).None?
    ensures CurrentDebug(SubDebug(s, 0, v)) == Some(v)
  {
    SubShape(s, at, v);
    LineAtFirstMatch(s, SubDebug(s, 0, v), at, v);
  }

  /** re.sub copies the text up to the first match and puts the new line in its place. */
  lemma SubShape(s: string, at: nat, v: bool)
    requires at <= |s| && DebugAt(s, at).Some? && NoDebugFrom(s, 0, at)
    ensures at < |s|
    ensures SubDebug(s, 0, v) == s[..at] + DebugLine(v) + SubDebug(s, DebugAt(s, at).value.end, v)
  {
    SubCopiesPrefix(s, 0, at, v);
    assert s[0..at] == s[..at];
  }

  /**
   * A text `n` that agrees with `s` before `s`'s first match and carries the
   * new line where that match started reads back as the new value.
   */
  lemma LineAtFirstMatch(s: string, n: string, at: nat, v: bool)
    requires at <= |s| && LineStart(s, at) && forall q :: 0 <= q < at ==> DebugAt(s, q).None?
    requires at + |DebugLine(v)| <= |n|
    requires n == s[..at] + DebugLine(v) + n[at + |DebugLine(v)|..]
    ensures CurrentDebug(n) == Some(v)
  {
    var line := DebugLine(v);
    assert Agree(s, n, at);
    assert n[at..at + |line|] == line;
    assert LineStart(n, at);
    DebugLineMatches(n, at, v);
    NothingBeforeLine(s, n, at, v);
    FirstDebugIs(n, at);
  }

  lemma NothingBeforeLine(s: string, n: string, at: nat, v: bool)
    requires at <= |s| && LineStart(s, at) && forall q :: 0 <= q < at ==> DebugAt(s, q).None?
    requires Agree(s, n, at) && at < |n| && n[at] == 'D'
    ensures forall q :: 0 <= q < at ==> DebugAt(n, q).None?
  {
    forall q | 0 <= q < at ensures DebugAt(n, q).None? {
      assert n[at - 1] == s[at - 1] == '\n';
      if q == at - 1 {
        if DebugAt(n, q).Some? {
          WordNotSpace(n, "DEBUG", q, q);
        }
      } else {
        NoMatchBefore(s, n, at - 1, at, q);
      }
    }
  }

  /**
   * A text that agrees with `s` before `pos`, followed by white space up to a
   * character that cannot continue a match, has no match before `pos` where
   * `s` has none.
   */
  lemma NoMatchBefore(s: string, n: string, pos: nat, t: nat, q: nat)
    requires Agree(s, n, pos) && q < pos < t < |n|
    requires forall k :: pos <= k < t ==> IsSpace(n[k])
    requires !IsSpace(n[t]) && n[t] != '=' && n[t] != 'T' && n[t] != 'F'
    requires DebugAt(s, q).None?
    ensures DebugAt(n, q).None?
  {
    if DebugAt(n, q).Some? {
      MatchStopsAt(n, pos, t, q);
      DebugAtTransfer(s, n, q, pos);
    }
  }

  /** The first match is at `at` when there is one there and none before. */
  lemma FirstDebugIs(n: string, at: nat)
    requires at <= |n| && DebugAt(n, at).Some?
    requires forall q :: 0 <= q < at ==> DebugAt(n, q).None?
    ensures FirstDebug(n, 0) == Some(at)
    ensures CurrentDebug(n) == Some(DebugAt(n, at).value.value)
  {
    FirstWhereIs(0, |n|, (q: nat) => q <= |n| && DebugAt(n, q).Some?, at);
  }

  // ------------------------------------------------------------ inserting the DEBUG line

  /** The comment inserted above the new DEBUG line, written in pieces so that facts about its characters stay cheap. */
  const CommentLine: string :=
    "# SECURITY" + " WARNING:" + " don't" + " run with" + " debug" + " turned on" + " in" + " production!"

  /** What comes before the new DEBUG line: a blank line, the comment and a newline. */
  const Preamble: string := "\n\n" + CommentLine + "\n"

  /** The text inserted after the SECRET_KEY line. */
  function DebugBlock(v: bool): string {
    Preamble + DebugLine(v) + "\n"
  }

  /** The preamble holds no capital D, so no DEBUG match can start inside it. */
  lemma PreambleHasNoD()
    ensures forall i :: 0 <= i < |Preamble| ==> Preamble[i] != 'D'
    ensures Preamble[0] == '\n' && Preamble[1] == '\n' && Preamble[2] == '#' && Preamble[|Preamble| - 1] == '\n'
  {
    assert 'D' !in CommentLine;
    assert 'D' !in Preamble;
    assert forall i :: 0 <= i < |Preamble| ==> Preamble[i] in Preamble;
  }

  /** No DEBUG match starts on a character other than "D". */
  lemma NotDAt(n: string, q: nat)
    requires q < |n| && n[q] != 'D'
    ensures DebugAt(n, q).None?
  {
    assert !IsAt(n, "DEBUG", q) by {
      if q + |"DEBUG"| <= |n| {
        assert n[q..q + |"DEBUG"|][0] == n[q] != "DEBUG"[0];
      }
    }
    assert AssignAt(n, "DEBUG", q).None?;
  }

  /**
   * The insertion point as written: str.find('\n', end) after the SECRET_KEY
   * match, used as a slice bound even when it is -1, which Python reads as
   * "one before the end".
   */
  function InsertPosAsWritten(s: string, keyEnd: nat): (r: nat)
    requires 0 < keyEnd <= |s|
    ensures r <= |s|
  {
    match Find(s, "\n", keyEnd)
    case Some(nl) => nl
    case None => |s| - 1
  }

  /** The insertion point evidently intended: the end of the SECRET_KEY line, or the end of the text. */
  function InsertPos(s: string, keyEnd: nat): (r: nat)
    requires keyEnd <= |s|
    ensures keyEnd <= r <= |s|
    ensures r == |s| || s[r] == '\n'
    ensures forall k :: keyEnd <= k < r ==> s[k] != '\n'
  {
    NewlineFind(s, keyEnd);
    match Find(s, "\n", keyEnd)
    case Some(nl) => nl
    case None => |s|
  }

  /** str.find of a one-character pattern, in terms of characters. */
  lemma CharFind(s: string, c: char, from: nat)
    ensures Find(s, [c], from).Some? ==>
              var at := Find(s, [c], from).value;
              at < |s| && s[at] == c && forall k :: from <= k < at ==> s[k] != c
    ensures Find(s, [c], from).None? ==> forall k :: from <= k < |s| ==> s[k] != c
  {
    var end := match Find(s, [c], from) case Some(at) => at case None => |s|;
    forall k | from <= k < end && k < |s| ensures s[k] != c {
      assert !IsAt(s, [c], k);
      assert s[k..k + 1] == [s[k]];
    }
    if Find(s, [c], from).Some? {
      assert s[end..end + 1] == [c];
    }
  }

  lemma NewlineFind(s: string, from: nat)
    ensures Find(s, "\n", from).Some? ==>
              var nl := Find(s, "\n", from).value;
              nl < |s| && s[nl] == '\n' && forall k :: from <= k < nl ==> s[k] != '\n'
    ensures Find(s, "\n", from).None? ==> forall k :: from <= k < |s| ==> s[k] != '\n'
  {
    assert "\n" == ['\n'];
    CharFind(s, '\n', from);
  }

  function InsertAt(s: string, pos: nat, block: string): (r: string)
    requires pos <= |s|
    ensures |r| == |s| + |block|
  {
    s[..pos] + block + s[pos..]
  }

  /** A settings text whose last line is the SECRET_KEY line, with no newline after it. */
  const KeyOnly: string := "SECRET_KEY = 'k'"

  lemma KeyOnlyFacts()
    ensures AssignAt(KeyOnly, "SECRET_KEY", 0) == Some(12)
    ensures Find(KeyOnly, "\n", 12).None?
  {
    var s := KeyOnly;
    assert IsAt(s, "SECRET_KEY", 0);
    assert SkipSpace(s, 10) == 11;
    NewlineFind(s, 12);
    assert '\n' !in s;
  }

  /** Cutting the SECRET_KEY line short: with no newline after it, the last character moves behind the block. */
  lemma LastLineKeyIsSplit()
    ensures AssignAt(KeyOnly, "SECRET_KEY", 0).Some?
    ensures
      var r := InsertAt(KeyOnly, InsertPosAsWritten(KeyOnly, 12), DebugBlock(false));
      && r == "SECRET_KEY = 'k" + DebugBlock(false) + "'"
      && !StartsWith(r, KeyOnly)
  {
    KeyOnlyFacts();
    var s := KeyOnly;
    assert InsertPosAsWritten(s, 12) == |s| - 1;
    var r := InsertAt(s, |s| - 1, DebugBlock(false));
    assert s[..|s| - 1] == "SECRET_KEY = 'k";
    assert r[|s| - 1] == Preamble[0] == '\n';
    assert r[..|s|][|s| - 1] != s[|s| - 1];
  }

  /** The same settings with the intended insertion point: the block is appended and the SECRET_KEY line stays whole. */
  lemma LastLineKeyIsKept()
    ensures AssignAt(KeyOnly, "SECRET_KEY", 0).Some?
    ensures
      var r := InsertAt(KeyOnly, InsertPos(KeyOnly, 12), DebugBlock(false));
      && r == KeyOnly + DebugBlock(false)
      && StartsWith(r, KeyOnly)
  {
    KeyOnlyFacts();
    var s := KeyOnly;
    var block := DebugBlock(false);
    assert InsertPos(s, 12) == |s|;
    assert s[..|s|] == s && s[|s|..] == [];
    assert InsertAt(s, |s|, block) == s + block;
    var r := s + block;
    assert r[..|s|] == s;
  }

  /** With the intended insertion point the original text is kept whole and the block starts a new line after it. */
  lemma InsertKeepsText(s: string, keyEnd: nat, v: bool)
    requires keyEnd <= |s|
    ensures
      var pos := InsertPos(s, keyEnd);
      && InsertAt(s, pos, DebugBlock(v))[..pos] == s[..pos]
      && InsertAt(s, pos, DebugBlock(v))[pos + |DebugBlock(v)|..] == s[pos..]
      && (pos == |s| || s[pos] == '\n')
  {
  }

  /**
   * Read-after-write for the insert branch: inserting the block into a text
   * with no DEBUG line makes the block's line the first DEBUG line, wherever
   * the block goes. The source's "-1" point is covered too: only the
   * SECRET_KEY line is hurt there.
   */
  lemma InsertReadsBack(s: string, pos: nat, v: bool)
    requires pos <= |s| && CurrentDebug(s).None?
    ensures CurrentDebug(InsertAt(s, pos, DebugBlock(v))) == Some(v)
  {
    var n := InsertAt(s, pos, DebugBlock(v));
    var at := pos + |Preamble|;
    assert n == s[..pos] + Preamble + DebugLine(v) + ("\n" + s[pos..]);
    PreambleHasNoD();
    NothingBeforeBlock(s, n, pos, v);
    assert n[at..at + |DebugLine(v)|] == DebugLine(v);
    assert n[at - 1] == Preamble[|Preamble| - 1];
    DebugLineMatches(n, at, v);
    FirstDebugIs(n, at);
  }

  lemma NothingBeforeBlock(s: string, n: string, pos: nat, v: bool)
    requires pos <= |s| && CurrentDebug(s).None?
    requires n == s[..pos] + Preamble + DebugLine(v) + ("\n" + s[pos..])
    requires forall i :: 0 <= i < |Preamble| ==> Preamble[i] != 'D'
    requires Preamble[0] == '\n' && Preamble[1] == '\n' && Preamble[2] == '#'
    ensures forall q :: 0 <= q < pos + |Preamble| ==> DebugAt(n, q).None?
  {
    InsertedSlices(s, n, pos, v);
    BeforeInsertion(s, n, pos);
    InsidePreamble(n, pos);
  }

  /** Where the block goes in: the text before it is the original prefix, then the preamble. */
  lemma InsertedSlices(s: string, n: string, pos: nat, v: bool)
    requires pos <= |s|
    requires n == s[..pos] + Preamble + DebugLine(v) + ("\n" + s[pos..])
    ensures pos + |Preamble| <= |n|
    ensures n[..pos] == s[..pos] && n[pos..pos + |Preamble|] == Preamble
  {
    var head := s[..pos] + Preamble;
    assert n == head + (DebugLine(v) + ("\n" + s[pos..]));
    assert n[..pos] == head[..pos] == s[..pos];
    assert n[pos..pos + |Preamble|] == head[pos..] == Preamble;
  }

  lemma BeforeInsertion(s: string, n: string, pos: nat)
    requires pos <= |s| && pos + |Preamble| <= |n|
    requires n[..pos] == s[..pos] && n[pos..pos + |Preamble|] == Preamble
    requires Preamble[0] == '\n' && Preamble[1] == '\n' && Preamble[2] == '#'
    requires forall q :: 0 <= q <= |s| ==> DebugAt(s, q).None?
    ensures forall q :: 0 <= q < pos ==> DebugAt(n, q).None?
  {
    assert forall i :: 0 <= i < pos ==> s[i] == s[..pos][i] == n[..pos][i] == n[i];
    assert Agree(s, n, pos);
    assert n[pos] == Preamble[0] && n[pos + 1] == Preamble[1] && n[pos + 2] == Preamble[2] by {
      var pre := n[pos..pos + |Preamble|];
      assert n[pos] == pre[0] && n[pos + 1] == pre[1] && n[pos + 2] == pre[2];
    }
    forall q | 0 <= q < pos ensures DebugAt(n, q).None? {
      NoMatchBefore(s, n, pos, pos + 2, q);
    }
  }

  lemma InsidePreamble(n: string, pos: nat)
    requires pos + |Preamble| <= |n| && n[pos..pos + |Preamble|] == Preamble
    requires forall i :: 0 <= i < |Preamble| ==> Preamble[i] != 'D'
    ensures forall q :: pos <= q < pos + |Preamble| ==> DebugAt(n, q).None?
  {
    forall q | pos <= q < pos + |Preamble| ensures DebugAt(n, q).None? {
      assert n[q] == n[pos..pos + |Preamble|][q - pos];
      NotDAt(n, q);
    }
  }

  // ------------------------------------------------------------ CSRF origins

  /** The ALLOWED_HOSTS match: the list body between "[" and the first "]" after it, and the match end. */
  datatype HostsMatch = HostsMatch(bodyStart: nat, bodyEnd: nat, end: nat)

  /** "\[(.*?)\]" (DOTALL) tried at `b`: the body runs to the first "]". */
  function ListAt(s: string, b: nat): (r: Option<HostsMatch>)
    ensures r.Some? ==> b < r.value.bodyStart <= r.value.bodyEnd < r.value.end <= |s|
    ensures r.Some? ==> r.value.end == r.value.bodyEnd + 1 && s[r.value.bodyEnd] == ']'
    ensures r.Some? ==> forall k :: r.value.bodyStart <= k < r.value.bodyEnd ==> s[k] != ']'
  {
    if b < |s| && s[b] == '[' then
      CharFind(s, ']', b + 1);
      match Find(s, [']'], b + 1)
      case None => None
      case Some(d) => Some(HostsMatch(b + 1, d, d + 1))
    else None
  }

  /** "^ALLOWED_HOSTS\s*=\s*\[(.*?)\]" tried at `q`. */
  function AllowedHostsAt(s: string, q: nat): (r: Option<HostsMatch>)
    requires q <= |s|
    ensures r.Some? ==> q < r.value.bodyStart <= r.value.bodyEnd < r.value.end <= |s|
    ensures r.Some? ==> r.value.end == r.value.bodyEnd + 1 && s[r.value.bodyEnd] == ']'
  {
    match AssignAt(s, "ALLOWED_HOSTS", q)
    case None => None
    case Some(a) => ListAt(s, SkipSpace(s, a))
  }

  function FirstAllowedHosts(s: string, p: nat): (r: Option<HostsMatch>)
    ensures r.Some? ==> r.value.end <= |s| && r.value.bodyStart <= r.value.bodyEnd
    ensures r.None? ==> forall q :: p <= q <= |s| ==> AllowedHostsAt(s, q).None?
  {
    var hit := (q: nat) => q <= |s| && AllowedHostsAt(s, q).Some?;
    match FirstWhere(p, |s|, hit)
    case None =>
      assert forall q :: p <= q <= |s| ==> AllowedHostsAt(s, q).None? by {
        forall q | p <= q <= |s| ensures AllowedHostsAt(s, q).None? {
          assert !hit(q);
        }
      }
      None
    case Some(at) => AllowedHostsAt(s, at)
  }

  predicate IsQuote(c: char) { c == '\'' || c == '"' }

  /** The first quote at or after `i`. */
  function NextQuote(t: string, i: nat): (r: Option<nat>)
    requires i <= |t|
    ensures r.Some? ==> i <= r.value < |t| && IsQuote(t[r.value])
    ensures r.Some? ==> forall k :: i <= k < r.value ==> !IsQuote(t[k])
    ensures r.None? ==> forall k :: i <= k < |t| ==> !IsQuote(t[k])
    decreases |t| - i
  {
    if i == |t| then None
    else if IsQuote(t[i]) then Some(i)
    else NextQuote(t, i + 1)
  }

  /**
   * re.findall(r"['\"]([^'\"]+)['\"]", t) from `i` on: a quote, at least one
   * non-quote character, a quote; where there is no such match the scan moves
   * on by one character.
   */
  function QuotedFrom(t: string, i: nat): (r: seq<string>)
    requires i <= |t|
    ensures forall h :: h in r ==> h != "" && forall k :: 0 <= k < |h| ==> !IsQuote(h[k])
    decreases |t| - i
  {
    if i == |t| then []
    else if !IsQuote(t[i]) then QuotedFrom(t, i + 1)
    else match NextQuote(t, i + 1)
      case None => QuotedFrom(t, i + 1)
      case Some(j) =>
        if j == i + 1 then QuotedFrom(t, i + 1)
        else [t[i + 1..j]] + QuotedFrom(t, j + 1)
  }

  /** The host names of the ALLOWED_HOSTS list body. */
  function Hosts(s: string, m: HostsMatch): seq<string>
    requires m.bodyStart <= m.bodyEnd <= |s|
  {
    QuotedFrom(s[m.bodyStart..m.bodyEnd], 0)
  }

  const LocalHosts: seq<string> := ["localhost", "127.0.0.1"]
  const LocalOrigins: seq<string> := ["http://localhost:8000", "http://127.0.0.1:8000"]

  /** What one host adds: nothing for a local one, else https://host and, without a leading "www.", https://www.host. */
  function HostOrigins(host: string): seq<string> {
    if host in LocalHosts then []
    else if StartsWith(host, "www.") then ["https://" + host]
    else ["https://" + host, "https://www." + host]
  }

  function HostsOrigins(hosts: seq<string>): seq<string> {
    if hosts == [] then [] else HostsOrigins(hosts[..|hosts| - 1]) + HostOrigins(hosts[|hosts| - 1])
  }

  /** csrf_origins as a value: the hosts' origins in order, then the two local http origins. */
  function Origins(hosts: seq<string>): seq<string> {
    HostsOrigins(hosts) + LocalOrigins
  }

  /** The loop that builds csrf_origins. */
  method BuildOrigins(hosts: seq<string>) returns (origins: seq<string>)
    ensures origins == Origins(hosts)
  {
    origins := [];
    var i := 0;
    while i < |hosts|
      invariant 0 <= i <= |hosts|
      invariant origins == HostsOrigins(hosts[..i])
    {
      var host := hosts[i];
      if host !in LocalHosts {
        origins := origins + ["https://" + host];
        if !StartsWith(host, "www.") {
          origins := origins + ["https://www." + host];
        }
      }
      assert hosts[..i + 1][..i] == hosts[..i];
      i := i + 1;
    }
    assert hosts[..i] == hosts;
    origins := origins + LocalOrigins;
  }

  /**
   * Every non-local host gets its https origin, and a host without "www."
   * its www origin too; the local http origins always end the list, so the
   * list is never empty.
   */
  lemma {:induction false} OriginsCoverHosts(hosts: seq<string>, k: nat)
    requires k < |hosts| && hosts[k] !in LocalHosts
    ensures "https://" + hosts[k] in Origins(hosts)
    ensures !StartsWith(hosts[k], "www.") ==> "https://www." + hosts[k] in Origins(hosts)
    ensures Origins(hosts)[|Origins(hosts)| - 2..] == LocalOrigins
  {
    HostsOriginsCover(hosts, k);
  }

  lemma {:induction false} HostsOriginsCover(hosts: seq<string>, k: nat)
    requires k < |hosts| && hosts[k] !in LocalHosts
    ensures "https://" + hosts[k] in HostsOrigins(hosts)
    ensures !StartsWith(hosts[k], "www.") ==> "https://www." + hosts[k] in HostsOrigins(hosts)
  {
    var n := |hosts|;
    var front := HostsOrigins(hosts[..n - 1]);
    assert HostsOrigins(hosts) == front + HostOrigins(hosts[n - 1]);
    if k < n - 1 {
      assert hosts[..n - 1][k] == hosts[k];
      HostsOriginsCover(hosts[..n - 1], k);
    }
  }

  /** Every origin comes from a listed host or is one of the two local ones. */
  lemma {:induction false} OriginsComeFromHosts(hosts: seq<string>, o: string)
    requires o in Origins(hosts)
    ensures o in LocalOrigins || exists h :: h in hosts && h !in LocalHosts && (o == "https://" + h || o == "https://www." + h)
  {
    if o !in LocalOrigins {
      assert o in HostsOrigins(hosts);
      HostsOriginsFromHosts(hosts, o);
    }
  }

  lemma {:induction false} HostsOriginsFromHosts(hosts: seq<string>, o: string)
    requires o in HostsOrigins(hosts)
    ensures exists h :: h in hosts && h !in LocalHosts && (o == "https://" + h || o == "https://www." + h)
  {
    var n := |hosts|;
    var last := hosts[n - 1];
    assert HostsOrigins(hosts) == HostsOrigins(hosts[..n - 1]) + HostOrigins(last);
    if o in HostOrigins(last) {
      assert last in hosts;
    } else {
      HostsOriginsFromHosts(hosts[..n - 1], o);
      var h :| h in hosts[..n - 1] && h !in LocalHosts && (o == "https://" + h || o == "https://www." + h);
      assert h in hosts;
    }
  }

  // ----------------------------------------------------- Python's repr()

  /** A lower-case hexadecimal digit, as repr() writes it. */
  function HexDigit(n: nat): (c: char)
    requires n < 16
    ensures HexValue(c) == Some(n)
  {
    if n < 10 then (48 + n) as char else (87 + n) as char
  }

  function HexValue(c: char): (r: Option<nat>)
    ensures r.Some? ==> r.value < 16
  {
    if '0' <= c <= '9' then Some(c as int - 48)
    else if 'a' <= c <= 'f' then Some(c as int - 87)
    else None
  }

  /**
   * The characters below U+0100 that str.isprintable() rejects and repr()
   * writes as \xhh: the C0 controls, DEL, the C1 controls, NO-BREAK SPACE
   * and SOFT HYPHEN.
   */
  predicate HexEscaped(c: char) {
    c as int < 0x20 || 0x7f <= c as int <= 0xa0 || c as int == 0xad
  }

  /** The quote repr() puts around `x`: a double quote only when `x` holds a single quote and no double quote. */
  function QuoteFor(x: string): (q: char)
    ensures IsQuote(q)
    ensures q !in x || (q == '\'' && '"' in x)
  {
    if '\'' in x && '"' !in x then '"' else '\''
  }

  /** One character inside repr()'s quotes `q`. */
  function ReprChar(c: char, q: char): (r: string)
    requires IsQuote(q)
    ensures 1 <= |r| <= 4
    ensures r[0] == '\\' <==> c == '\\' || c == q || HexEscaped(c)
    ensures '\n' !in r
  {
    if c == '\\' then "\\\\"
    else if c == q then ['\\', q]
    else if c == '\n' then "\\n"
    else if c == '\r' then "\\r"
    else if c == '\t' then "\\t"
    else if HexEscaped(c) then ['\\', 'x', HexDigit(c as int / 16), HexDigit(c as int % 16)]
    else [c]
  }

  function Escaped(x: string, q: char): (r: string)
    requires IsQuote(q)
    ensures '\n' !in r
    ensures |r| >= |x|
  {
    if x == [] then [] else ReprChar(x[0], q) + Escaped(x[1..], q)
  }

  /** repr() of a string of characters below U+0100 or printable ones. */
  function Repr(x: string): (r: string)
    ensures |r| >= |x| + 2 && IsQuote(r[0]) && r[|r| - 1] == r[0]
    ensures '\n' !in r
  {
    var q := QuoteFor(x);
    [q] + Escaped(x, q) + [q]
  }

  /** Reading the inside of a Python string literal back: the escapes repr() writes, and the quote. */
  function Unescape(e: string): string
    decreases |e|
  {
    if e == [] then []
    else if e[0] == '\\' && |e| >= 2 then
      if e[1] == 'n' then "\n" + Unescape(e[2..])
      else if e[1] == 'r' then "\r" + Unescape(e[2..])
      else if e[1] == 't' then "\t" + Unescape(e[2..])
      else if e[1] == 'x' && |e| >= 4 && HexValue(e[2]).Some? && HexValue(e[3]).Some? then
        [(HexValue(e[2]).value * 16 + HexValue(e[3]).value) as char] + Unescape(e[4..])
      else [e[1]] + Unescape(e[2..])
    else [e[0]] + Unescape(e[1..])
  }

  /** Reading one written character back gives the character. */
  lemma UnescapeChar(c: char, q: char, rest: string)
    requires IsQuote(q)
    ensures Unescape(ReprChar(c, q) + rest) == [c] + Unescape(rest)
  {
    var e := ReprChar(c, q) + rest;
    if HexEscaped(c) && c != '\n' && c != '\r' && c != '\t' && c != '\\' && c != q {
      var n := c as int;
      assert e[..4] == ['\\', 'x', HexDigit(n / 16), HexDigit(n % 16)];
      assert e[4..] == rest;
      assert (n / 16 * 16 + n % 16) as char == c;
    } else if c == '\\' || c == q || c == '\n' || c == '\r' || c == '\t' {
      assert e[2..] == rest;
    } else {
      assert e[1..] == rest;
    }
  }

  /** repr() loses nothing: Python reads the written literal back as the string. */
  lemma {:induction false} EscapedRoundTrip(x: string, q: char)
    requires IsQuote(q)
    ensures Unescape(Escaped(x, q)) == x
    decreases |x|
  {
    if x != [] {
      UnescapeChar(x[0], q, Escaped(x[1..], q));
      EscapedRoundTrip(x[1..], q);
    }
  }

  /** A string of printable characters other than the quote and the backslash is written as it is. */
  lemma {:induction false} PlainIsKept(x: string, q: char)
    requires IsQuote(q)
    requires forall i :: 0 <= i < |x| ==> !HexEscaped(x[i]) && x[i] != '\\' && x[i] != q
    ensures Escaped(x, q) == x
    decreases |x|
  {
    if x != [] {
      PlainIsKept(x[1..], q);
    }
  }

  /** Python's str() of a list of strings: each item's repr(), separated by ", ". */
  function ListText(xs: seq<string>): (r: string)
    ensures '\n' !in r
  {
    "[" + Items(xs) + "]"
  }

  function Items(xs: seq<string>): (r: string)
    ensures '\n' !in r
  {
    if xs == [] then ""
    else if |xs| == 1 then Repr(xs[0])
    else Items(xs[..|xs| - 1]) + ", " + Repr(xs[|xs| - 1])
  }

  function CsrfLine(origins: seq<string>): string {
    "CSRF_TRUSTED_ORIGINS = " + ListText(origins) + "\n"
  }

  /**
   * The CSRF step on the new content: only when DEBUG is turned off, no
   * CSRF_TRUSTED_ORIGINS line exists and ALLOWED_HOSTS is found; the line is
   * inserted right after the closing "]" of ALLOWED_HOSTS, on a line of its own.
   */
  function WithCsrf(s: string, debug: bool): (r: (string, Option<seq<string>>))
    ensures r.1.None? ==> r.0 == s
    ensures r.1.Some? ==> !debug && FirstAssign(s, "CSRF_TRUSTED_ORIGINS", 0).None? && FirstAllowedHosts(s, 0).Some?
    ensures r.1.Some? ==>
              var m := FirstAllowedHosts(s, 0).value;
              && r.1.value == Origins(Hosts(s, m))
              && r.0 == s[..m.end] + "\n" + CsrfLine(r.1.value) + s[m.end..]
    ensures !debug && FirstAssign(s, "CSRF_TRUSTED_ORIGINS", 0).None? && FirstAllowedHosts(s, 0).Some? ==> r.1.Some?
  {
    if debug || FirstAssign(s, "CSRF_TRUSTED_ORIGINS", 0).Some? then (s, None)
    else match FirstAllowedHosts(s, 0)
      case None => (s, None)
      case Some(m) =>
        var origins := Origins(Hosts(s, m));
        (s[..m.end] + "\n" + CsrfLine(origins) + s[m.end..], Some(origins))
  }

  // ------------------------------------------------------------ the command

  datatype Outcome =
    | NoSettingsFile
    | Report(current: Option<bool>)
    | FlagConflict
    | NoInsertionPoint
    | Written(content: string, debug: bool, origins: Option<seq<string>>)

  /**
   * The DEBUG step as written: replace every DEBUG line, or insert one at
   * the str.find point after SECRET_KEY (None when neither exists).
   */
  function WithDebug(s: string, v: bool): (r: Option<string>)
    ensures r.None? <==> CurrentDebug(s).None? && FirstAssign(s, "SECRET_KEY", 0).None?
    ensures CurrentDebug(s).Some? ==> r == Some(SubDebug(s, 0, v))
  {
    if CurrentDebug(s).Some? then Some(SubDebug(s, 0, v))
    else match FirstAssign(s, "SECRET_KEY", 0)
      case None => None
      case Some(m) => Some(InsertAt(s, InsertPosAsWritten(s, m.1), DebugBlock(v)))
  }

  /** The DEBUG step with the intended insertion point: the block goes after the whole SECRET_KEY line. */
  function WithDebugIntended(s: string, v: bool): (r: Option<string>)
    ensures r.None? <==> CurrentDebug(s).None? && FirstAssign(s, "SECRET_KEY", 0).None?
    ensures CurrentDebug(s).Some? ==> r == Some(SubDebug(s, 0, v))
  {
    if CurrentDebug(s).Some? then Some(SubDebug(s, 0, v))
    else match FirstAssign(s, "SECRET_KEY", 0)
      case None => None
      case Some(m) => Some(InsertAt(s, InsertPos(s, m.1), DebugBlock(v)))
  }

  /**
   * The DEBUG step reads back: whenever it writes, the first DEBUG line
   * holds the new value. This holds even at the "-1" point of the source.
   */
  lemma {:induction false} WithDebugReadsBack(s: string, v: bool)
    requires WithDebug(s, v).Some?
    ensures CurrentDebug(WithDebug(s, v).value) == Some(v)
  {
    if CurrentDebug(s).Some? {
      ReplaceReadsBack(s, v);
    } else {
      var m := FirstAssign(s, "SECRET_KEY", 0).value;
      InsertReadsBack(s, InsertPosAsWritten(s, m.1), v);
    }
  }

  /**
   * The intended DEBUG step reads back as well, and when it inserts, the
   * text before and after the block is the original text, cut at a line end.
   */
  lemma {:induction false} WithDebugIntendedReadsBack(s: string, v: bool)
    requires WithDebugIntended(s, v).Some?
    ensures CurrentDebug(WithDebugIntended(s, v).value) == Some(v)
    ensures CurrentDebug(s).None? ==>
              exists pos :: 0 <= pos <= |s| && (pos == |s| || s[pos] == '\n')
                && WithDebugIntended(s, v).value == s[..pos] + DebugBlock(v) + s[pos..]
  {
    if CurrentDebug(s).Some? {
      ReplaceReadsBack(s, v);
    } else {
      var m := FirstAssign(s, "SECRET_KEY", 0).value;
      var pos := InsertPos(s, m.1);
      InsertReadsBack(s, pos, v);
      assert WithDebugIntended(s, v).value == s[..pos] + DebugBlock(v) + s[pos..];
    }
  }

  /** The CSRF_TRUSTED_ORIGINS step of Command.handle, on the content after the DEBUG step. */
  method AddCsrf(content: string, debug: bool) returns (newContent: string, origins: Option<seq<string>>)
    ensures (newContent, origins) == WithCsrf(content, debug)
  {
    newContent, origins := content, None;
    if !debug && FirstAssign(content, "CSRF_TRUSTED_ORIGINS", 0).None? {
      var allowed := FirstAllowedHosts(content, 0);
      if allowed.Some? {
        var m := allowed.value;
        var built := BuildOrigins(Hosts(content, m));
        newContent := content[..m.end] + "\n" + CsrfLine(built) + content[m.end..];
        origins := Some(built);
      }
    }
  }

  /**
   * Command.handle: `settings` is the file's text (None when it does not
   * exist); the flags are --on, --off and --status. Only Written writes the
   * file, with the returned content.
   */
  method Handle(settings: Option<string>, on: bool, off: bool, status: bool) returns (r: Outcome)
    ensures settings.None? <==> r == NoSettingsFile
    ensures r.Report? <==> settings.Some? && status
    ensures settings.Some? && status ==> r == Report(CurrentDebug(settings.value))
    ensures settings.Some? && !status && on && off <==> r == FlagConflict
    ensures r == NoInsertionPoint <==>
              && settings.Some? && !status && !(on && off)
              && CurrentDebug(settings.value).None? && FirstAssign(settings.value, "SECRET_KEY", 0).None?
    ensures r.Written? <==>
              && settings.Some? && !status && !(on && off)
              && (CurrentDebug(settings.value).Some? || FirstAssign(settings.value, "SECRET_KEY", 0).Some?)
    ensures r.Written? ==> r.debug == NewDebug(CurrentDebug(settings.value), on, off)
    ensures r.Written? ==>
              && WithDebug(settings.value, r.debug).Some?
              && (r.content, r.origins) == WithCsrf(WithDebug(settings.value, r.debug).value, r.debug)
  {
    if settings.None? {
      return NoSettingsFile;
    }
    var content := settings.value;
    var current := CurrentDebug(content);
    if status {
      return Report(current);
    }
    if on && off {
      return FlagConflict;
    }
    var newDebug := NewDebug(current, on, off);
    var newContent: string;
    if current.Some? {
      newContent := SubDebug(content, 0, newDebug);
    } else {
      var secretKey := FirstAssign(content, "SECRET_KEY", 0);
      if secretKey.None? {
        return NoInsertionPoint;
      }
      var pos := InsertPosAsWritten(content, secretKey.value.1);
      newContent := content[..pos] + DebugBlock(newDebug) + content[pos..];
    }
    var origins: Option<seq<string>>;
    newContent, origins := AddCsrf(newContent, newDebug);
    return Written(newContent, newDebug, origins);
  }
}
