/**
 * Group join codes: six symbols drawn from a 32-symbol alphabet that leaves
 * out the look-alikes I, O, 0 and 1, and the bounded retry loop that looks
 * for a code no existing group uses.
 *
 * The random source is a parameter: a sequence of draws, each the value of
 * one `Math.floor(Math.random() * 32)`.
 */
module GroupCode {
  import opened Wrappers

  const Alphabet: string := "ABCDEFGHJKLMNPQRSTUVWXYZ23456789"
  const CodeLength: nat := 6

  /** The number of existence lookups createGroup makes before it gives up. */
  const MaxAttempts: nat := 10

  /** One random index into the alphabet. */
  type Draw = i: nat | i < 32

  /** The draws one createGroup call may consume: a first code and one replacement per collision. */
  const DrawsPerCreate: nat := CodeLength * (MaxAttempts + 1)

  predicate ValidCode(c: string) {
    |c| == CodeLength && forall i :: 0 <= i < |c| ==> c[i] in Alphabet
  }

  /** The code built from the first six draws, one alphabet symbol per draw. */
  function CodeFrom(d: seq<Draw>): (c: string)
    requires |d| >= CodeLength
    ensures ValidCode(c)
    ensures forall i :: 0 <= i < CodeLength ==> c[i] == Alphabet[d[i]]
  {
    seq(CodeLength, i requires 0 <= i < CodeLength => Alphabet[d[i]])
  }

  /** The first position of `ch` in `s`. */
  function IndexIn(s: string, ch: char): (r: nat)
    requires ch in s
    ensures r < |s| && s[r] == ch
    ensures forall j :: 0 <= j < r ==> s[j] != ch
  {
    if s[0] == ch then 0 else 1 + IndexIn(s[1..], ch)
  }

  /** The draws that produce a given valid code: the inverse of CodeFrom. */
  function DrawsFor(c: string): (d: seq<Draw>)
    requires ValidCode(c)
    ensures |d| == CodeLength
  {
    seq(CodeLength, i requires 0 <= i < CodeLength => IndexIn(Alphabet, c[i]) as Draw)
  }

  /** A symbol of the alphabet is an upper-case letter other than I and O, or a digit from 2 to 9. */
  predicate Unambiguous(ch: char) {
    ('A' <= ch <= 'Z' && ch != 'I' && ch != 'O') || ('2' <= ch <= '9')
  }

  /** No symbol occurs twice in the alphabet, so distinct draws give distinct symbols. */
  lemma AlphabetDistinct()
    ensures forall i, j :: 0 <= i < j < |Alphabet| ==> Alphabet[i] != Alphabet[j]
  {
  }

  lemma AlphabetUnambiguous()
    ensures forall k :: 0 <= k < |Alphabet| ==> Unambiguous(Alphabet[k])
  {
  }

  /** Every generated code avoids the look-alike symbols I, O, 0 and 1. */
  lemma NoLookalikes(d: seq<Draw>)
    requires |d| >= CodeLength
    ensures forall i :: 0 <= i < |CodeFrom(d)| ==>
      var ch := CodeFrom(d)[i]; ch != 'I' && ch != 'O' && ch != '0' && ch != '1'
  {
    AlphabetUnambiguous();
    var c := CodeFrom(d);
    forall i | 0 <= i < |c| ensures Unambiguous(c[i]) {
      assert c[i] == Alphabet[d[i]];
    }
  }

  /** Decoding a generated code gives back its draws: generation is injective. */
  lemma {:induction false} DrawsRoundTrip(d: seq<Draw>)
    requires |d| == CodeLength
    ensures DrawsFor(CodeFrom(d)) == d
  {
    AlphabetDistinct();
    var c := CodeFrom(d);
    forall i | 0 <= i < CodeLength ensures DrawsFor(c)[i] == d[i] {
      var r := IndexIn(Alphabet, c[i]);
      assert c[i] == Alphabet[d[i]];
    }
  }

  /** Every valid code is the code of some draws: generation reaches all valid codes. */
  lemma {:induction false} CodeRoundTrip(c: string)
    requires ValidCode(c)
    ensures CodeFrom(DrawsFor(c)) == c
  {
    var d := DrawsFor(c);
    forall i | 0 <= i < CodeLength ensures CodeFrom(d)[i] == c[i] {
      assert d[i] == IndexIn(Alphabet, c[i]);
    }
  }

  /** generateGroupCode: append one alphabet symbol per draw, six times. */
  method GenerateGroupCode(d: seq<Draw>) returns (code: string)
    requires |d| >= CodeLength
    ensures code == CodeFrom(d)
  {
    code := "";
    for i := 0 to CodeLength
      invariant |code| == i
      invariant forall k :: 0 <= k < i ==> code[k] == Alphabet[d[k]]
    {
      code := code + [Alphabet[d[i]]];
    }
  }

  /** The candidate code of attempt `k`: the code of the k-th block of six draws. */
  function CodeAt(d: seq<Draw>, k: nat): (c: string)
    requires k <= MaxAttempts && |d| >= DrawsPerCreate
    ensures ValidCode(c)
  {
    CodeFrom(d[CodeLength * k..])
  }

  /**
   * The candidate codes of one createGroup call, in the order it generates them.
   * The ensures only unfold the comprehension for the solver.
   */
  function Candidates(d: seq<Draw>): (cs: seq<string>)
    requires |d| >= DrawsPerCreate
    ensures |cs| == MaxAttempts + 1
    ensures forall k :: 0 <= k <= MaxAttempts ==> cs[k] == CodeAt(d, k)
  {
    seq(MaxAttempts + 1, k requires 0 <= k <= MaxAttempts => CodeAt(d, k))
  }

  /** The first of the candidates `k` up to the limit that is not in `existing`, if any. */
  function FirstAbsent(existing: set<string>, cs: seq<string>, k: nat): Option<string>
    requires k <= MaxAttempts <= |cs|
    decreases MaxAttempts - k
  {
    if k == MaxAttempts then None
    else if cs[k] !in existing then Some(cs[k])
    else FirstAbsent(existing, cs, k + 1)
  }

  /** The code the createGroup retry loop settles on, or None when all its lookups collide. */
  function FreshCode(existing: set<string>, d: seq<Draw>): Option<string>
    requires |d| >= DrawsPerCreate
  {
    FirstAbsent(existing, Candidates(d), 0)
  }

  lemma {:induction false} FirstAbsentSpec(existing: set<string>, cs: seq<string>, k: nat)
    requires k <= MaxAttempts <= |cs|
    ensures FirstAbsent(existing, cs, k).None? <==> forall j :: k <= j < MaxAttempts ==> cs[j] in existing
    ensures FirstAbsent(existing, cs, k).Some? ==>
      exists j :: k <= j < MaxAttempts && FirstAbsent(existing, cs, k).value == cs[j] &&
        cs[j] !in existing && forall i :: k <= i < j ==> cs[i] in existing
    decreases MaxAttempts - k
  {
    if k < MaxAttempts && cs[k] in existing {
      FirstAbsentSpec(existing, cs, k + 1);
      if FirstAbsent(existing, cs, k).Some? {
        var j :| k + 1 <= j < MaxAttempts && FirstAbsent(existing, cs, k).value == cs[j] &&
          cs[j] !in existing && forall i :: k + 1 <= i < j ==> cs[i] in existing;
        assert forall i :: k <= i < j ==> cs[i] in existing;
      }
    }
  }

  /**
   * The retry loop fails exactly when all ten candidates collide; otherwise
   * it yields the first candidate that does not collide, which is a valid
   * code absent from `existing`.
   */
  lemma FreshCodeSpec(existing: set<string>, d: seq<Draw>)
    requires |d| >= DrawsPerCreate
    ensures FreshCode(existing, d).None? <==>
      forall j :: 0 <= j < MaxAttempts ==> CodeAt(d, j) in existing
    ensures FreshCode(existing, d).Some? ==>
      var c := FreshCode(existing, d).value;
      ValidCode(c) && c !in existing &&
      exists j :: 0 <= j < MaxAttempts && c == CodeAt(d, j) &&
        forall i :: 0 <= i < j ==> CodeAt(d, i) in existing
  {
    var cs := Candidates(d);
    FirstAbsentSpec(existing, cs, 0);
    if FreshCode(existing, d).Some? {
      var j :| 0 <= j < MaxAttempts && FreshCode(existing, d).value == cs[j] &&
        cs[j] !in existing && forall i :: 0 <= i < j ==> cs[i] in existing;
      assert FreshCode(existing, d).value == CodeAt(d, j);
    }
  }

  /**
   * The retry loop of createGroup, with the SELECT on groups.code replaced by
   * membership in `existing`. `lookups` counts the SELECTs issued.
   */
  method FindUniqueCode(existing: set<string>, d: seq<Draw>) returns (code: Option<string>, lookups: nat)
    requires |d| >= DrawsPerCreate
    ensures code == FreshCode(existing, d)
    ensures lookups <= MaxAttempts
    ensures code.None? ==> lookups == MaxAttempts
    ensures code.Some? ==> 1 <= lookups && code.value == CodeAt(d, lookups - 1) && code.value !in existing
    ensures forall j :: 0 <= j < lookups && (code.None? || j < lookups - 1) ==> CodeAt(d, j) in existing
  {
    var candidate := GenerateGroupCode(d);
    var isUnique := false;
    var attempts: nat := 0;
    lookups := 0;
    while !isUnique && attempts < MaxAttempts
      invariant attempts <= MaxAttempts
      invariant lookups == attempts + (if isUnique then 1 else 0)
      invariant isUnique ==> attempts < MaxAttempts
      invariant candidate == CodeAt(d, attempts)
      invariant forall j :: 0 <= j < attempts ==> CodeAt(d, j) in existing
      invariant isUnique ==> candidate !in existing
      invariant FreshCode(existing, d) ==
        (if isUnique then Some(candidate) else FirstAbsent(existing, Candidates(d), attempts))
      decreases MaxAttempts - attempts, !isUnique
    {
      lookups := lookups + 1;
      if candidate !in existing {
        isUnique := true;
      } else {
        candidate := GenerateGroupCode(d[CodeLength * (attempts + 1)..]);
        attempts := attempts + 1;
      }
    }
    code := if isUnique then Some(candidate) else None;
  }
}
