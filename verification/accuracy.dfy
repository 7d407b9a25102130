/** Positional accuracy of a submission (game.service.ts submitGame, the
    matching loop). The submission is upper-cased, compared position by
    position with the generated code over the shorter of the two lengths, and
    the match count is taken as a percentage of the generated code's length. */
module Accuracy {
  import opened CodeGen

  /** String.prototype.toUpperCase on one character, ASCII letters only. */
  function UpperChar(c: char): char
  {
    if 'a' <= c <= 'z' then (c as int - 32) as char else c
  }

  function LowerChar(c: char): char
  {
    if 'A' <= c <= 'Z' then (c as int + 32) as char else c
  }

  function Upper(s: string): (u: string)
    ensures |u| == |s|
    ensures forall i :: 0 <= i < |u| ==> !('a' <= u[i] <= 'z')
    ensures forall i :: 0 <= i < |s| && 'a' <= s[i] <= 'z' ==> u[i] as int == s[i] as int - 32
    ensures forall i :: 0 <= i < |s| && !('a' <= s[i] <= 'z') ==> u[i] == s[i]
  {
    seq(|s|, i requires 0 <= i < |s| => UpperChar(s[i]))
  }

  function Lower(s: string): (l: string)
    ensures |l| == |s|
    ensures forall i :: 0 <= i < |s| ==> l[i] == LowerChar(s[i])
  {
    seq(|s|, i requires 0 <= i < |s| => LowerChar(s[i]))
  }

  function Min(a: nat, b: nat): nat
  {
    if a <= b then a else b
  }

  /** The number of positions i < n at which the two strings agree. */
  function MatchesUpTo(generated: string, submitted: string, n: nat): (k: nat)
    requires n <= |generated| && n <= |submitted|
    ensures k <= n
  {
    if n == 0 then 0
    else MatchesUpTo(generated, submitted, n - 1) + (if generated[n - 1] == submitted[n - 1] then 1 else 0)
  }

  /** Matching positions over min(|generated|, |submitted|). */
  function Matches(generated: string, submitted: string): (k: nat)
    ensures k <= |generated| && k <= |submitted|
  {
    MatchesUpTo(generated, submitted, Min(|generated|, |submitted|))
  }

  /** The source's counting loop. */
  method CountMatches(generated: string, submitted: string) returns (matches: nat)
    ensures matches == Matches(generated, submitted)
  {
    matches := 0;
    var len := Min(|generated|, |submitted|);
    var i := 0;
    while i < len
      invariant 0 <= i <= len
      invariant matches == MatchesUpTo(generated, submitted, i)
    {
      if generated[i] == submitted[i] {
        matches := matches + 1;
      }
      i := i + 1;
    }
  }

  /** (matches / length) * 100, exactly. */
  function Percent(matches: nat, length: nat): real
    requires length > 0
  {
    (matches as real / length as real) * 100.0
  }

  /** The accuracy submitGame computes for a raw (not yet upper-cased) submission. */
  function AccuracyOf(generated: string, submittedRaw: string): (a: real)
    requires |generated| > 0
    ensures 0.0 <= a <= 100.0
  {
    var m := Matches(generated, Upper(submittedRaw));
    PercentBounds(m, |generated|);
    Percent(m, |generated|)
  }

  lemma PercentBounds(m: nat, length: nat)
    requires 0 < length && m <= length
    ensures 0.0 <= Percent(m, length) <= 100.0
    ensures Percent(m, length) == 100.0 <==> m == length
  {
    var q := m as real / length as real;
    assert q * length as real == m as real;
    if q == 1.0 {
      assert m as real == length as real;
    }
  }

  /** All n positions agree exactly when n of them are counted. */
  lemma {:induction false} MatchesUpToAll(generated: string, submitted: string, n: nat)
    requires n <= |generated| && n <= |submitted|
    ensures MatchesUpTo(generated, submitted, n) == n <==> generated[..n] == submitted[..n]
  {
    if n > 0 {
      MatchesUpToAll(generated, submitted, n - 1);
      assert MatchesUpTo(generated, submitted, n - 1) <= n - 1;
      if generated[..n] == submitted[..n] {
        assert generated[..n - 1] == generated[..n][..n - 1];
        assert submitted[..n - 1] == submitted[..n][..n - 1];
        assert generated[n - 1] == generated[..n][n - 1];
        assert submitted[n - 1] == submitted[..n][n - 1];
      }
    }
  }

  /** Only the positions below n matter. */
  lemma {:induction false} MatchesUpToPrefix(generated: string, s: string, t: string, n: nat)
    requires n <= |generated| && n <= |s| && n <= |t|
    requires s[..n] == t[..n]
    ensures MatchesUpTo(generated, s, n) == MatchesUpTo(generated, t, n)
  {
    if n > 0 {
      assert s[..n - 1] == s[..n][..n - 1];
      assert t[..n - 1] == t[..n][..n - 1];
      assert s[n - 1] == s[..n][n - 1];
      assert t[n - 1] == t[..n][n - 1];
      MatchesUpToPrefix(generated, s, t, n - 1);
    }
  }

  /** Accuracy is 100 exactly when the upper-cased submission is at least as
      long as the code and starts with it. */
  lemma FullAccuracyIff(generated: string, submittedRaw: string)
    requires |generated| > 0
    ensures AccuracyOf(generated, submittedRaw) == 100.0 <==>
      |Upper(submittedRaw)| >= |generated| && Upper(submittedRaw)[..|generated|] == generated
  {
    var u := Upper(submittedRaw);
    var n := Min(|generated|, |u|);
    var m := Matches(generated, u);
    PercentBounds(m, |generated|);
    MatchesUpToAll(generated, u, n);
    if |u| >= |generated| {
      assert generated[..n] == generated;
    }
  }

  /** A submission whose upper-cased form is shorter than the code cannot reach 100. */
  lemma ShortSubmissionBelowFull(generated: string, submittedRaw: string)
    requires |Upper(submittedRaw)| < |generated|
    ensures AccuracyOf(generated, submittedRaw) < 100.0
  {
    FullAccuracyIff(generated, submittedRaw);
  }

  /** Upper-casing undoes lower-casing on code characters. */
  lemma UpperUndoesLower(s: string)
    requires InAlphabet(s)
    ensures Upper(Lower(s)) == s
  {
    forall i | 0 <= i < |s| ensures Upper(Lower(s))[i] == s[i] {
      assert Lower(s)[i] == LowerChar(s[i]);
    }
  }

  /** A lower-case copy of a generated code scores 100, because the
      submission is upper-cased before comparison. */
  lemma LowerCaseCopyIsFull(generated: string)
    requires |generated| > 0
    requires InAlphabet(generated)
    ensures AccuracyOf(generated, Lower(generated)) == 100.0
  {
    UpperUndoesLower(generated);
    var u := Upper(Lower(generated));
    assert u[..|generated|] == u;
    FullAccuracyIff(generated, Lower(generated));
  }

  /** Characters beyond the code's length are ignored. */
  lemma TrailingIgnored(generated: string, submittedRaw: string, extra: string)
    requires |generated| > 0
    requires |submittedRaw| >= |generated|
    ensures AccuracyOf(generated, submittedRaw + extra) == AccuracyOf(generated, submittedRaw)
  {
    var n := |generated|;
    var a := Upper(submittedRaw + extra);
    var b := Upper(submittedRaw);
    assert a[..n] == b[..n];
    MatchesUpToPrefix(generated, a, b, n);
  }

  /** Worked examples: a lower-case copy, two wrong positions, a short answer. */
  lemma AccuracyExamples()
    ensures AccuracyOf("AB12CD", "ab12cd") == 100.0
    ensures AccuracyOf("AB12CD", "AB99CD") == 400.0 / 6.0
    ensures AccuracyOf("AB12CD", "AB1") == 50.0
  {
    var g := "AB12CD";
    assert Upper("ab12cd") == g;
    MatchesUpToAll(g, g, 6);
    assert Upper("AB99CD") == "AB99CD";
    var w := "AB99CD";
    assert MatchesUpTo(g, w, 1) == 1;
    assert MatchesUpTo(g, w, 2) == 2;
    assert MatchesUpTo(g, w, 3) == 2;
    assert MatchesUpTo(g, w, 4) == 2;
    assert MatchesUpTo(g, w, 5) == 3;
    assert MatchesUpTo(g, w, 6) == 4;
    assert Upper("AB1") == "AB1";
    assert MatchesUpTo(g, "AB1", 1) == 1;
    assert MatchesUpTo(g, "AB1", 2) == 2;
    assert MatchesUpTo(g, "AB1", 3) == 3;
  }
}
