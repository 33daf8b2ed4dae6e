/** The fragment of JavaScript regular expressions the sensitive-data filter uses: word
    boundaries and greedy, backtracking repetitions of single-character classes, applied with
    the global flag by `String.prototype.replace`.

    `Match` is the backtracking matcher (it tries longer repetitions first, exactly as the
    ECMAScript engine does for greedy quantifiers); `Matches` is the declarative meaning of a
    pattern; `MatchSound` and `MatchComplete` tie the two together. */
module Regex {
  import opened Common

  /** The character classes of the three patterns. All of them are case-insensitive as the
      filter writes them (`[A-Z]` under the `i` flag means the 52 ASCII letters, because the
      non-unicode canonicalization never maps a non-ASCII character onto an ASCII one). */
  datatype CharClass =
    | Digit          // \d
    | Separator      // [\s-]
    | LocalPart      // [A-Z0-9._%+-] with /i
    | DomainPart     // [A-Z0-9.-] with /i
    | Letter         // [A-Z] with /i
    | Literal(c: char)

  predicate InClass(cls: CharClass, c: char) {
    match cls
    case Digit => IsAsciiDigit(c)
    case Separator => IsJsSpace(c) || c == '-'
    case LocalPart => IsAsciiLetter(c) || IsAsciiDigit(c) || c in "._%+-"
    case DomainPart => IsAsciiLetter(c) || IsAsciiDigit(c) || c == '.' || c == '-'
    case Letter => IsAsciiLetter(c)
    case Literal(x) => c == x
  }

  /** `\b`, or `cls{min,max}` (max absent for an unbounded quantifier). */
  datatype Item = Boundary | Repeat(cls: CharClass, min: nat, max: Option<nat>)

  type Pattern = seq<Item>

  /** The characters `\w` matches. */
  predicate IsWordChar(c: char) {
    IsAsciiLetter(c) || IsAsciiDigit(c) || c == '_'
  }

  /** `\b` at position `i`: exactly one of the two neighbouring characters is a word character. */
  predicate IsBoundary(s: string, i: nat)
    requires i <= |s|
  {
    (i > 0 && IsWordChar(s[i - 1])) != (i < |s| && IsWordChar(s[i]))
  }

  predicate AllIn(cls: CharClass, s: string, i: nat, k: nat)
    requires i <= k <= |s|
  {
    forall t :: i <= t < k ==> InClass(cls, s[t])
  }

  predicate WithinMax(max: Option<nat>, n: nat) {
    max.None? || n <= max.value
  }

  /** The shortest text a pattern can match. */
  function MinLen(p: Pattern): nat {
    if p == [] then 0
    else (match p[0] case Boundary => 0 case Repeat(_, min, _) => min) + MinLen(p[1..])
  }

  /** The declarative meaning: `p` can match exactly `s[i..j]`. */
  ghost predicate Matches(p: Pattern, s: string, i: nat, j: nat)
    requires i <= j <= |s|
    decreases |p|
  {
    if p == [] then i == j
    else match p[0]
      case Boundary => IsBoundary(s, i) && Matches(p[1..], s, i, j)
      case Repeat(cls, min, max) =>
        exists k :: i + min <= k <= j && WithinMax(max, k - i) && AllIn(cls, s, i, k)
                    && Matches(p[1..], s, k, j)
  }

  /** The end of the longest run of `cls` characters starting at `i`, capped by `max`. */
  function RunEnd(cls: CharClass, s: string, i: nat, max: Option<nat>): (e: nat)
    requires i <= |s|
    ensures i <= e <= |s| && AllIn(cls, s, i, e) && WithinMax(max, e - i)
    ensures e < |s| && InClass(cls, s[e]) ==> !WithinMax(max, e + 1 - i)
    decreases |s| - i
  {
    if i < |s| && InClass(cls, s[i]) && WithinMax(max, 1) then
      var m := match max case None => None case Some(n) => Some(n - 1);
      RunEnd(cls, s, i + 1, m)
    else i
  }

  /** The backtracking matcher: the end of the match of `p` anchored at `i` that the ECMAScript
      engine finds first, if there is one. */
  function Match(p: Pattern, s: string, i: nat): (r: Option<nat>)
    requires i <= |s|
    ensures r.Some? ==> i + MinLen(p) <= r.value <= |s|
    decreases |p|, 0, 0
  {
    if p == [] then Some(i)
    else match p[0]
      case Boundary => if IsBoundary(s, i) then Match(p[1..], s, i) else None
      case Repeat(cls, min, max) =>
        var e := RunEnd(cls, s, i, max);
        if e < i + min then None else TryDown(p[1..], s, i + min, e)
  }

  /** Greedy backtracking: try the rest of the pattern after `j`, `j - 1`, ..., `lo`. */
  function TryDown(rest: Pattern, s: string, lo: nat, j: nat): (r: Option<nat>)
    requires lo <= j <= |s|
    ensures r.Some? ==> lo + MinLen(rest) <= r.value <= |s|
    decreases |rest|, 1, j - lo
  {
    var m := Match(rest, s, j);
    if m.Some? then m
    else if j == lo then None
    else TryDown(rest, s, lo, j - 1)
  }

  /** Every run the declarative semantics allows ends at or before `RunEnd`. */
  lemma {:induction false} RunEndMaximal(cls: CharClass, s: string, i: nat, max: Option<nat>, k: nat)
    requires i <= k <= |s| && AllIn(cls, s, i, k) && WithinMax(max, k - i)
    ensures k <= RunEnd(cls, s, i, max)
    decreases |s| - i
  {
    if i < k {
      assert InClass(cls, s[i]);
      var m := match max case None => None case Some(n) => Some(n - 1);
      RunEndMaximal(cls, s, i + 1, m, k);
    }
  }

  /** Soundness: whatever the matcher returns is a match in the declarative sense. */
  lemma {:induction false} MatchSound(p: Pattern, s: string, i: nat)
    requires i <= |s| && Match(p, s, i).Some?
    ensures Matches(p, s, i, Match(p, s, i).value)
    decreases |p|, 0, 0
  {
    if p != [] {
      match p[0]
      case Boundary =>
        MatchSound(p[1..], s, i);
      case Repeat(cls, min, max) =>
        var e := RunEnd(cls, s, i, max);
        var k := Match(p, s, i).value;
        TryDownSound(p[1..], s, i + min, e);
        var m :| i + min <= m <= e && m <= k && Matches(p[1..], s, m, k);
        RepeatIntro(p, s, i, m, e, k);
    }
  }

  /** A repetition that stops inside the run ending at `e`, followed by a match of the rest,
      is a match of the whole pattern. */
  lemma RepeatIntro(p: Pattern, s: string, i: nat, m: nat, e: nat, k: nat)
    requires p != [] && p[0].Repeat? && i + p[0].min <= m <= e <= |s| && m <= k <= |s|
    requires AllIn(p[0].cls, s, i, e) && WithinMax(p[0].max, e - i)
    requires Matches(p[1..], s, m, k)
    ensures Matches(p, s, i, k)
  {
    assert AllIn(p[0].cls, s, i, m);
  }

  lemma {:induction false} TryDownSound(rest: Pattern, s: string, lo: nat, j: nat)
    requires lo <= j <= |s| && TryDown(rest, s, lo, j).Some?
    ensures var k := TryDown(rest, s, lo, j).value;
      exists m :: lo <= m <= j && m <= k && Matches(rest, s, m, k) && TryDown(rest, s, lo, j) == Match(rest, s, m)
    decreases |rest|, 1, j - lo
  {
    if Match(rest, s, j).Some? {
      MatchSound(rest, s, j);
      assert j <= Match(rest, s, j).value;
    } else {
      TryDownSound(rest, s, lo, j - 1);
    }
  }

  /** Completeness: if any match of `p` anchored at `i` exists, the matcher finds one. */
  lemma {:induction false} MatchComplete(p: Pattern, s: string, i: nat, j: nat)
    requires i <= j <= |s| && Matches(p, s, i, j)
    ensures Match(p, s, i).Some?
    decreases |p|
  {
    if p != [] {
      match p[0]
      case Boundary =>
        MatchComplete(p[1..], s, i, j);
      case Repeat(cls, min, max) =>
        var k := RepeatWitness(p, s, i, j);
        MatchComplete(p[1..], s, k, j);
        RunEndMaximal(cls, s, i, max, k);
        var e := RunEnd(cls, s, i, max);
        TryDownFinds(p[1..], s, i + min, e, k);
        assert Match(p, s, i) == TryDown(p[1..], s, i + min, e);
    }
  }

  /** The length chosen for the leading repetition by some declarative match. */
  lemma RepeatWitness(p: Pattern, s: string, i: nat, j: nat) returns (k: nat)
    requires i <= j <= |s| && p != [] && p[0].Repeat? && Matches(p, s, i, j)
    ensures i + p[0].min <= k <= j && WithinMax(p[0].max, k - i) && AllIn(p[0].cls, s, i, k)
    ensures Matches(p[1..], s, k, j)
  {
    k :| i + p[0].min <= k <= j && WithinMax(p[0].max, k - i) && AllIn(p[0].cls, s, i, k)
         && Matches(p[1..], s, k, j);
  }

  lemma {:induction false} TryDownFinds(rest: Pattern, s: string, lo: nat, j: nat, k: nat)
    requires lo <= k <= j <= |s| && Match(rest, s, k).Some?
    ensures TryDown(rest, s, lo, j).Some?
    decreases j - lo
  {
    if Match(rest, s, j).None? {
      assert k < j;
      TryDownFinds(rest, s, lo, j - 1, k);
    }
  }

  /** A pattern finds a match at `i` exactly when the declarative semantics allows one. */
  lemma MatchIff(p: Pattern, s: string, i: nat)
    requires i <= |s|
    ensures Match(p, s, i).Some? <==> exists j :: i <= j <= |s| && Matches(p, s, i, j)
  {
    if Match(p, s, i).Some? {
      MatchSound(p, s, i);
      var j := Match(p, s, i).value;
      assert i <= j <= |s| && Matches(p, s, i, j);
    }
    if exists j :: i <= j <= |s| && Matches(p, s, i, j) {
      var j :| i <= j <= |s| && Matches(p, s, i, j);
      MatchComplete(p, s, i, j);
    }
  }

  /** A match must contain a character of every class that is repeated at least once. */
  lemma {:induction false} MatchNeedsClass(p: Pattern, s: string, i: nat, j: nat, n: nat)
    requires i <= j <= |s| && Matches(p, s, i, j)
    requires n < |p| && p[n].Repeat? && p[n].min >= 1
    ensures exists t :: i <= t < j && InClass(p[n].cls, s[t])
    decreases |p|
  {
    match p[0]
    case Boundary =>
      MatchNeedsClass(p[1..], s, i, j, n - 1);
    case Repeat(cls, min, max) =>
      var k := RepeatWitness(p, s, i, j);
      if n == 0 {
        assert InClass(cls, s[i]);
      } else {
        MatchNeedsClass(p[1..], s, k, j, n - 1);
      }
  }

  // ---------------------------------------------------------------------------
  // Global replacement

  /** `s.replace(/p/g, marker)` from index `i` on: scan left to right, replace every
      leftmost match and resume after it. */
  function ReplaceFrom(p: Pattern, s: string, i: nat, marker: string): (r: string)
    requires MinLen(p) > 0 && i <= |s|
    ensures forall c :: c in r ==> c in s[i..] || c in marker
    decreases |s| - i
  {
    match Match(p, s, i)
    case Some(j) =>
      SuffixIn(s, i, j);
      marker + ReplaceFrom(p, s, j, marker)
    case None =>
      if i == |s| then ""
      else
        SuffixIn(s, i, i + 1);
        [s[i]] + ReplaceFrom(p, s, i + 1, marker)
  }

  /** Replacement brings in no character but the marker's: everything else in the result
      was already in the text. */
  function ReplaceAll(p: Pattern, s: string, marker: string): (r: string)
    requires MinLen(p) > 0
    ensures forall c :: c in r ==> c in s || c in marker
  {
    assert s[0..] == s;
    ReplaceFrom(p, s, 0, marker)
  }

  /** A later suffix holds no character the earlier one lacks. */
  lemma SuffixIn(s: string, i: nat, j: nat)
    requires i <= j <= |s|
    ensures forall c :: c in s[j..] ==> c in s[i..]
  {
    forall c | c in s[j..]
      ensures c in s[i..]
    {
      var k :| 0 <= k < |s[j..]| && s[j..][k] == c;
      assert s[i..][k + j - i] == c;
    }
  }

  /** Text in which no match starts is returned unchanged. */
  lemma {:induction false} ReplaceFromNoMatch(p: Pattern, s: string, i: nat, marker: string)
    requires MinLen(p) > 0 && i <= |s|
    requires forall k :: i <= k <= |s| ==> Match(p, s, k).None?
    ensures ReplaceFrom(p, s, i, marker) == s[i..]
    decreases |s| - i
  {
    if i < |s| {
      ReplaceFromNoMatch(p, s, i + 1, marker);
      assert s[i..] == [s[i]] + s[i + 1..];
    }
  }

  /** If a character class that the pattern needs never occurs in `s`, replacement is the
      identity. */
  lemma ReplaceAllWithoutClass(p: Pattern, s: string, marker: string, n: nat)
    requires MinLen(p) > 0 && n < |p| && p[n].Repeat? && p[n].min >= 1
    requires forall t :: 0 <= t < |s| ==> !InClass(p[n].cls, s[t])
    ensures ReplaceAll(p, s, marker) == s
  {
    forall k | 0 <= k <= |s|
      ensures Match(p, s, k).None?
    {
      if Match(p, s, k).Some? {
        MatchSound(p, s, k);
        MatchNeedsClass(p, s, k, Match(p, s, k).value, n);
      }
    }
    ReplaceFromNoMatch(p, s, 0, marker);
  }

  // ---------------------------------------------------------------------------
  // Evaluation steps, for working out concrete replacements

  /** Where no match starts, the character is copied and the scan moves on by one. */
  lemma ReplaceFromSkip(p: Pattern, s: string, i: nat, marker: string)
    requires MinLen(p) > 0 && i < |s| && Match(p, s, i).None?
    ensures ReplaceFrom(p, s, i, marker) == [s[i]] + ReplaceFrom(p, s, i + 1, marker)
  {
  }

  /** The leftmost match wins: characters before it are copied, the match is replaced, and
      the scan resumes at its end. */
  lemma {:induction false} ReplaceFromLeftmost(p: Pattern, s: string, i: nat, k: nat, marker: string)
    requires MinLen(p) > 0 && i <= k <= |s|
    requires forall m :: i <= m < k ==> Match(p, s, m).None?
    requires Match(p, s, k).Some?
    ensures ReplaceFrom(p, s, i, marker) == s[i..k] + marker + ReplaceFrom(p, s, Match(p, s, k).value, marker)
    decreases k - i
  {
    var tail := ReplaceFrom(p, s, Match(p, s, k).value, marker);
    if i < k {
      ReplaceFromSkip(p, s, i, marker);
      ReplaceFromLeftmost(p, s, i + 1, k, marker);
      SkipConcat(s, i, k, marker, tail);
    } else {
      assert ReplaceFrom(p, s, i, marker) == marker + tail;
      assert s[i..k] + marker == marker;
    }
  }

  lemma SkipConcat(s: string, i: nat, k: nat, marker: string, tail: string)
    requires i < k <= |s|
    ensures s[i..k] + marker + tail == [s[i]] + (s[i + 1..k] + marker + tail)
  {
    assert s[i..k] == [s[i]] + s[i + 1..k];
  }

  /** Nothing is left to replace at the end of the text. */
  lemma ReplaceFromEnd(p: Pattern, s: string, marker: string)
    requires MinLen(p) > 0
    ensures ReplaceFrom(p, s, |s|, marker) == ""
  {
  }

  /** A match cannot start where the leading repetition, which needs at least one character,
      finds none. */
  lemma LeadMissing(p: Pattern, s: string, i: nat)
    requires i <= |s| && p != [] && p[0].Repeat? && p[0].min >= 1
    requires i == |s| || !InClass(p[0].cls, s[i])
    ensures Match(p, s, i).None?
  {
    assert RunEnd(p[0].cls, s, i, p[0].max) == i;
  }

  /** The same behind a leading `\b`. */
  lemma BoundaryThenLeadMissing(p: Pattern, s: string, i: nat)
    requires i <= |s| && |p| >= 2 && p[0] == Boundary && p[1].Repeat? && p[1].min >= 1
    requires i == |s| || !InClass(p[1].cls, s[i])
    ensures Match(p, s, i).None?
  {
    LeadMissing(p[1..], s, i);
  }
}
