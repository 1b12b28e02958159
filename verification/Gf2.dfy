/** Polynomials over GF(2), highest coefficient first, and division by x^16 + x^12 + x^5 + 1. */
module Gf2 {
  const DEGREE: nat := 16

  function Zeros(n: nat): (z: seq<bool>)
    ensures |z| == n
  {
    seq(n, _ => false)
  }

  function Divisor(): (p: seq<bool>)
    ensures |p| == DEGREE + 1
  {
    seq(DEGREE + 1, i => i == 0 || i == 4 || i == 11 || i == 16)
  }

  function Plus(a: seq<bool>, b: seq<bool>): (c: seq<bool>)
    requires |a| == |b|
    ensures |c| == |a| && forall i :: 0 <= i < |c| ==> c[i] == (a[i] != b[i])
  {
    seq(|a|, i requires 0 <= i < |a| => a[i] != b[i])
  }

  /** The divisor, shifted up by n places, times one coefficient. */
  function ScaledDivisor(bit: bool, n: nat): (p: seq<bool>)
    ensures |p| == DEGREE + 1 + n
  {
    (if bit then Divisor() else Zeros(DEGREE + 1)) + Zeros(n)
  }

  function TimesDivisor(q: seq<bool>): (p: seq<bool>)
    ensures |p| == |q| + DEGREE
  {
    if q == [] then Zeros(DEGREE)
    else Plus(ScaledDivisor(q[0], |q| - 1), [false] + TimesDivisor(q[1..]))
  }

  /** d = q * divisor + r, with r of lower degree than the divisor. */
  ghost predicate IsDivision(d: seq<bool>, q: seq<bool>, r: seq<bool>) {
    && |d| == |q| + DEGREE && |r| == DEGREE
    && d == Plus(TimesDivisor(q), Zeros(|q|) + r)
  }

  /** One step of long division: clear the leading coefficient and drop it. */
  function Reduce(d: seq<bool>): (d': seq<bool>)
    requires |d| > DEGREE
    ensures |d'| == |d| - 1
  {
    Plus(d, ScaledDivisor(d[0], |d| - DEGREE - 1))[1..]
  }

  function Remainder(d: seq<bool>): (r: seq<bool>)
    requires |d| >= DEGREE
    ensures |r| == DEGREE
    decreases |d|
  {
    if |d| == DEGREE then d else Remainder(Reduce(d))
  }

  function Quotient(d: seq<bool>): (q: seq<bool>)
    requires |d| >= DEGREE
    ensures |q| == |d| - DEGREE
    decreases |d|
  {
    if |d| == DEGREE then [] else [d[0]] + Quotient(Reduce(d))
  }

  lemma ReduceUndone(d: seq<bool>, t: seq<bool>)
    requires |d| > DEGREE && |t| == |d| - 1
    ensures Reduce(d) == t <==> d == Plus(ScaledDivisor(d[0], |d| - DEGREE - 1), [false] + t)
  {
    var s := ScaledDivisor(d[0], |d| - DEGREE - 1);
    var p := Plus(s, [false] + t);
    if Reduce(d) == t {
      forall i | 0 <= i < |d| ensures d[i] == p[i] {
        if i > 0 { assert t[i - 1] == Plus(d, s)[i]; }
      }
    }
    if d == p {
      forall i | 0 <= i < |t| ensures Reduce(d)[i] == t[i] {
        assert Reduce(d)[i] == Plus(d, s)[i + 1];
      }
    }
  }

  lemma Regroup(s: seq<bool>, t: seq<bool>, z: seq<bool>)
    requires |s| == |t| + 1 == |z| + 1
    ensures Plus(Plus(s, [false] + t), [false] + z) == Plus(s, [false] + Plus(t, z))
  {}

  lemma ZerosCons(n: nat, r: seq<bool>)
    requires n > 0
    ensures Zeros(n) + r == [false] + (Zeros(n - 1) + r)
  {}

  /** What one coefficient of the quotient contributes. */
  lemma DivisionStep(q: seq<bool>, r: seq<bool>)
    requires |r| == DEGREE && q != []
    ensures Plus(TimesDivisor(q), Zeros(|q|) + r)
            == Plus(ScaledDivisor(q[0], |q| - 1), [false] + Plus(TimesDivisor(q[1..]), Zeros(|q| - 1) + r))
  {
    ZerosCons(|q|, r);
    Regroup(ScaledDivisor(q[0], |q| - 1), TimesDivisor(q[1..]), Zeros(|q| - 1) + r);
  }

  /** Long division is division: quotient and remainder exist and are the only ones. */
  lemma {:induction false} DivisionIsUnique(d: seq<bool>, q: seq<bool>, r: seq<bool>)
    requires |d| >= DEGREE
    ensures IsDivision(d, q, r) <==> q == Quotient(d) && r == Remainder(d)
    decreases |d|
  {
    if |d| == DEGREE {
      if |q| == 0 && |r| == DEGREE {
        assert Plus(TimesDivisor(q), Zeros(0) + r) == r;
      }
    } else if |q| == |d| - DEGREE && |r| == DEGREE {
      DivisionStep(q, r);
      var t := Plus(TimesDivisor(q[1..]), Zeros(|q| - 1) + r);
      assert IsDivision(d, q, r) ==> d[0] == q[0];
      if d[0] == q[0] {
        ReduceUndone(d, t);
        DivisionIsUnique(Reduce(d), q[1..], r);
        assert IsDivision(d, q, r) <==> Reduce(d) == t;
        assert Reduce(d) == t <==> IsDivision(Reduce(d), q[1..], r);
      }
      assert q == [q[0]] + q[1..];
    }
  }
}
