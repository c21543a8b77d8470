/**
 * The string operations of JavaScript that the snapshot procedures rely on,
 * over `string` = `seq<char>`: `includes`, `endsWith`, `indexOf`, `replace`
 * with a string pattern, `split` on one character, and the decimal rendering
 * of a non-negative integer inside a template literal. `Contains`,
 * `EndsWith` and `StartsWith` are reference definitions of the built-ins
 * `includes`, `endsWith` and `startsWith`, stated directly by slices;
 * `IndexFrom` is the left-to-right search behind `includes` and `replace`.
 */
module Text {
  import opened Wrappers

  /** `t` occurs in `s` starting at index `i`. */
  predicate OccursAt(s: string, t: string, i: nat) {
    i + |t| <= |s| && s[i..i + |t|] == t
  }

  /** The least index at or after `from` where `t` occurs in `s`. */
  function IndexFrom(s: string, t: string, from: nat): (r: Option<nat>)
    decreases |s| - from
    ensures r.Some? ==> from <= r.value && OccursAt(s, t, r.value)
    ensures r.Some? ==> forall j: nat :: from <= j < r.value ==> !OccursAt(s, t, j)
    ensures r.None? ==> forall j: nat :: from <= j ==> !OccursAt(s, t, j)
  {
    if from + |t| > |s| then None
    else if s[from..from + |t|] == t then Some(from)
    else IndexFrom(s, t, from + 1)
  }

  /** `s.indexOf(t)`, with `None` for JavaScript's -1. */
  function IndexOf(s: string, t: string): Option<nat> {
    IndexFrom(s, t, 0)
  }

  /** `s.includes(t)`: literal substring search; every string includes "". */
  predicate Contains(s: string, t: string) {
    IndexOf(s, t).Some?
  }

  lemma ContainsIff(s: string, t: string)
    ensures Contains(s, t) <==> exists i: nat :: OccursAt(s, t, i)
  {
  }

  /** `s.endsWith(suffix)`. */
  predicate EndsWith(s: string, suffix: string) {
    |suffix| <= |s| && s[|s| - |suffix|..] == suffix
  }

  /** A string ends with the last character of each non-empty suffix it ends with. */
  lemma EndsWithLast(s: string, suffix: string)
    ensures EndsWith(s, suffix) && |suffix| > 0 ==> s[|s| - 1] == suffix[|suffix| - 1]
  {
    if EndsWith(s, suffix) && |suffix| > 0 {
      assert s[|s| - |suffix|..][|suffix| - 1] == s[|s| - 1];
    }
  }

  /** `s.startsWith(prefix)`. */
  predicate StartsWith(s: string, prefix: string) {
    |prefix| <= |s| && s[..|prefix|] == prefix
  }

  /**
   * `s.replace(pattern, replacement)` with a string pattern: only the first
   * occurrence is replaced, and `s` is returned unchanged when there is none.
   * The `$`-sequences of the replacement are not interpreted.
   */
  function ReplaceFirst(s: string, pattern: string, replacement: string): (r: string)
    ensures !Contains(s, pattern) ==> r == s
    ensures Contains(s, pattern) ==> |r| == |s| - |pattern| + |replacement|
    // the occurrence replaced is the first one
    ensures Contains(s, pattern) ==> exists i: nat ::
      && OccursAt(s, pattern, i)
      && (forall j: nat :: j < i ==> !OccursAt(s, pattern, j))
      && r == s[..i] + replacement + s[i + |pattern|..]
  {
    match IndexOf(s, pattern)
    case None => s
    case Some(i) => s[..i] + replacement + s[i + |pattern|..]
  }

  /** A character outside `t` cannot lie inside an occurrence of `t`. */
  lemma {:induction false} OccurrenceAvoidsChar(a: string, c: char, b: string, t: string, i: nat)
    requires c !in t
    requires OccursAt(a + [c] + b, t, i)
    ensures OccursAt(a, t, i) || (i > |a| && OccursAt(b, t, i - |a| - 1))
  {
    var s := a + [c] + b;
    if i + |t| <= |a| {
      assert s[i..i + |t|] == a[i..i + |t|];
    } else if i > |a| {
      assert s[i..i + |t|] == b[i - |a| - 1..i - |a| - 1 + |t|];
    } else {
      SliceAt(s, i, i + |t|, |a|);
      assert false;
    }
  }

  /** Indexing into a concatenation reads one of its parts. */
  lemma ConcatAt(a: string, b: string, k: int)
    ensures 0 <= k < |a| ==> (a + b)[k] == a[k]
    ensures |a| <= k < |a| + |b| ==> (a + b)[k] == b[k - |a|]
  {
  }

  /** Indexing into a slice reads the underlying sequence. */
  lemma SliceAt(s: string, lo: nat, hi: nat, k: nat)
    ensures lo <= k < hi <= |s| ==> s[lo..hi][k - lo] == s[k]
  {
  }

  /** `t` occurs in `a + [c] + b` only if it occurs in `a` or in `b`. */
  lemma NotContainsAcross(a: string, c: char, b: string, t: string)
    requires c !in t
    requires !Contains(a, t) && !Contains(b, t)
    ensures forall i: nat :: !OccursAt(a + [c] + b, t, i)
  {
    forall i: nat | OccursAt(a + [c] + b, t, i)
      ensures false
    {
      OccurrenceAvoidsChar(a, c, b, t, i);
      if OccursAt(a, t, i) {
        ContainsIff(a, t);
      } else {
        ContainsIff(b, t);
      }
    }
  }

  /**
   * Replacing a pattern at the end of `p + pattern`: when no occurrence starts
   * before the appended copy, the appended copy is the one replaced.
   */
  lemma ReplaceFirstAtEnd(p: string, pattern: string, replacement: string)
    requires forall i: nat :: i < |p| ==> !OccursAt(p + pattern, pattern, i)
    ensures ReplaceFirst(p + pattern, pattern, replacement) == p + replacement
  {
    var s := p + pattern;
    assert OccursAt(s, pattern, |p|);
    var r := IndexOf(s, pattern);
    assert r == Some(|p|);
    assert s[..|p|] == p;
    assert s[|p| + |pattern|..] == [];
  }

  // ---------------------------------------------------------------------------
  // split("\n") and its inverse
  // ---------------------------------------------------------------------------

  /** `s.split(sep)` for a one-character separator: never empty, "" splits to [""]. */
  function Split(s: string, sep: char): (parts: seq<string>)
    decreases |s|
    ensures |parts| >= 1
  {
    if |s| == 0 then [""]
    else
      var rest := Split(s[1..], sep);
      if s[0] == sep then [""] + rest
      else [[s[0]] + rest[0]] + rest[1..]
  }

  /** `parts.join(sep)`. */
  function JoinWith(parts: seq<string>, sep: char): string
    requires |parts| >= 1
  {
    if |parts| == 1 then parts[0]
    else parts[0] + [sep] + JoinWith(parts[1..], sep)
  }

  lemma {:induction false} JoinConsHead(c: char, parts: seq<string>, sep: char)
    requires |parts| >= 1
    ensures JoinWith([[c] + parts[0]] + parts[1..], sep) == [c] + JoinWith(parts, sep)
  {
    var q := [[c] + parts[0]] + parts[1..];
    if |parts| > 1 {
      assert q[1..] == parts[1..];
    }
  }

  /** Splitting and re-joining gives the original text back, and no piece holds the separator. */
  lemma {:induction false} SplitJoin(s: string, sep: char)
    ensures JoinWith(Split(s, sep), sep) == s
    ensures forall k :: 0 <= k < |Split(s, sep)| ==> sep !in Split(s, sep)[k]
    decreases |s|
  {
    if |s| > 0 {
      var rest := Split(s[1..], sep);
      SplitJoin(s[1..], sep);
      if s[0] == sep {
        assert ([""] + rest)[1..] == rest;
        assert JoinWith([""] + rest, sep) == [sep] + JoinWith(rest, sep);
      } else {
        JoinConsHead(s[0], rest, sep);
        var parts := Split(s, sep);
        forall k | 0 <= k < |parts|
          ensures sep !in parts[k]
        {
          if k > 0 {
            assert parts[k] == rest[k];
          }
        }
      }
      assert [s[0]] + s[1..] == s;
    }
  }

  /** Joining pieces free of the separator and splitting again gives the pieces back. */
  lemma {:induction false} JoinSplit(parts: seq<string>, sep: char)
    requires |parts| >= 1
    requires forall k :: 0 <= k < |parts| ==> sep !in parts[k]
    ensures Split(JoinWith(parts, sep), sep) == parts
    decreases |parts|, |parts[0]|
  {
    if |parts[0]| > 0 {
      var c := parts[0][0];
      var tail := [parts[0][1..]] + parts[1..];
      assert sep !in tail[0];
      forall k | 0 <= k < |tail|
        ensures sep !in tail[k]
      {
        if k > 0 {
          assert tail[k] == parts[k];
        }
      }
      JoinSplit(tail, sep);
      JoinConsHead(c, tail, sep);
      assert [c] + tail[0] == parts[0];
      assert tail[1..] == parts[1..];
      assert [[c] + tail[0]] + tail[1..] == parts;
      var s := JoinWith(parts, sep);
      assert s == [c] + JoinWith(tail, sep);
      assert s[1..] == JoinWith(tail, sep);
      assert c != sep;
    } else if |parts| > 1 {
      forall k | 0 <= k < |parts[1..]|
        ensures sep !in parts[1..][k]
      {
        assert parts[1..][k] == parts[k + 1];
      }
      JoinSplit(parts[1..], sep);
      var s := JoinWith(parts, sep);
      assert s == [sep] + JoinWith(parts[1..], sep);
      assert s[1..] == JoinWith(parts[1..], sep);
      assert parts == [""] + parts[1..];
    }
  }

  // ---------------------------------------------------------------------------
  // decimal rendering of a non-negative integer
  // ---------------------------------------------------------------------------

  predicate IsDigit(c: char) {
    '0' <= c <= '9'
  }

  function Digit(d: nat): (c: char)
    requires d < 10
    ensures IsDigit(c)
  {
    ['0', '1', '2', '3', '4', '5', '6', '7', '8', '9'][d]
  }

  function DigitValue(c: char): nat
    requires IsDigit(c)
  {
    (c as int - '0' as int) as nat
  }

  /** The text a template literal prints for the integer `n`. */
  function Decimal(n: nat): (s: string)
    ensures |s| >= 1
    ensures forall k :: 0 <= k < |s| ==> IsDigit(s[k])
  {
    if n < 10 then [Digit(n)] else Decimal(n / 10) + [Digit(n % 10)]
  }

  /** The integer a string of decimal digits denotes. */
  function DecimalValue(s: string): nat
    requires forall k :: 0 <= k < |s| ==> IsDigit(s[k])
  {
    if |s| == 0 then 0 else 10 * DecimalValue(s[..|s| - 1]) + DigitValue(s[|s| - 1])
  }

  lemma {:induction false} DecimalRoundTrip(n: nat)
    ensures DecimalValue(Decimal(n)) == n
  {
    var s := Decimal(n);
    if n >= 10 {
      DecimalRoundTrip(n / 10);
      assert s[..|s| - 1] == Decimal(n / 10);
      assert DigitValue(Digit(n % 10)) == n % 10;
    } else {
      assert DigitValue(Digit(n)) == n;
    }
  }

  /** Different integers print differently. */
  lemma DecimalInjective(m: nat, n: nat)
    requires Decimal(m) == Decimal(n)
    ensures m == n
  {
    DecimalRoundTrip(m);
    DecimalRoundTrip(n);
  }
}
