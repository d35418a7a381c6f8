/** Complex numbers over exact reals, and the two ways of summing a signal that the Goertzel filter relates. */
module Spectrum {

  datatype Complex = Complex(re: real, im: real)

  const ZERO := Complex(0.0, 0.0)
  const ONE := Complex(1.0, 0.0)

  function Add(a: Complex, b: Complex): Complex {
    Complex(a.re + b.re, a.im + b.im)
  }

  function Mul(a: Complex, b: Complex): Complex {
    Complex(a.re * b.re - a.im * b.im, a.re * b.im + a.im * b.re)
  }

  function Real(x: real): Complex {
    Complex(x, 0.0)
  }

  function Conj(a: Complex): Complex {
    Complex(a.re, -a.im)
  }

  /** The squared magnitude. */
  function Power(a: Complex): real {
    a.re * a.re + a.im * a.im
  }

  /** The point of the unit circle whose cosine and sine are the two parts. */
  ghost predicate OnCircle(z: Complex) {
    Power(z) == 1.0
  }

  function Raised(z: Complex, n: nat): Complex
    decreases n
  {
    if n == 0 then ONE else Mul(z, Raised(z, n - 1))
  }

  /**
   * The discrete-time Fourier transform of a signal at the angle whose unit vector is `z`:
   * the sum of x[i] times the conjugate of z to the power i.
   */
  function Transform(z: Complex, x: seq<real>): Complex
    decreases |x|
  {
    if x == [] then ZERO
    else Add(Transform(z, x[..|x| - 1]), Mul(Real(x[|x| - 1]), Raised(Conj(z), |x| - 1)))
  }

  /** The same samples as a polynomial in `z`, the oldest with the highest power, by Horner's rule. */
  function Horner(z: Complex, x: seq<real>): Complex
    decreases |x|
  {
    if x == [] then ZERO else Add(Mul(z, Horner(z, x[..|x| - 1])), Real(x[|x| - 1]))
  }

  // ----- complex arithmetic -----

  lemma MulCommutes(a: Complex, b: Complex)
    ensures Mul(a, b) == Mul(b, a)
  {
  }

  lemma MulAssociates(a: Complex, b: Complex, c: Complex)
    ensures Mul(Mul(a, b), c) == Mul(a, Mul(b, c))
  {
  }

  lemma MulDistributes(a: Complex, b: Complex, c: Complex)
    ensures Mul(a, Add(b, c)) == Add(Mul(a, b), Mul(a, c))
  {
  }

  lemma MulUnits(a: Complex)
    ensures Mul(a, ONE) == a && Mul(ONE, a) == a
    ensures Mul(a, ZERO) == ZERO && Add(ZERO, a) == a
  {
  }

  lemma PowerOfProduct(a: Complex, b: Complex)
    ensures Power(Mul(a, b)) == Power(a) * Power(b)
  {
  }

  lemma ConjInverts(z: Complex)
    requires OnCircle(z)
    ensures Mul(z, Conj(z)) == ONE
  {
  }

  /** On the unit circle the powers of `z` and of its conjugate cancel. */
  lemma {:induction false} RaisedCancels(z: Complex, n: nat)
    requires OnCircle(z)
    ensures Mul(Raised(z, n), Raised(Conj(z), n)) == ONE
    decreases n
  {
    hide Mul, Conj, OnCircle;
    if n == 0 {
      MulUnits(ONE);
    } else {
      var w, p, q := Conj(z), Raised(z, n - 1), Raised(Conj(z), n - 1);
      RaisedCancels(z, n - 1);
      ConjInverts(z);
      MulAssociates(z, p, Mul(w, q));
      MulAssociates(p, w, q);
      MulCommutes(p, w);
      MulAssociates(w, p, q);
      MulUnits(w);
    }
  }

  lemma {:induction false} RaisedOnCircle(z: Complex, n: nat)
    requires OnCircle(z)
    ensures Power(Raised(z, n)) == 1.0
    decreases n
  {
    hide Mul, Power;
    if n == 0 {
      PowerOfOne();
    } else {
      RaisedOnCircle(z, n - 1);
      PowerOfProduct(z, Raised(z, n - 1));
    }
  }

  lemma PowerOfOne()
    ensures Power(ONE) == 1.0
  {
  }

  /** Horner's sum is the transform turned by a power of `z`. */
  lemma {:induction false} HornerTurns(z: Complex, x: seq<real>)
    requires OnCircle(z)
    ensures Mul(z, Horner(z, x)) == Mul(Raised(z, |x|), Transform(z, x))
    decreases |x|
  {
    hide Mul, Add, Conj, OnCircle, Real;
    if x == [] {
      MulUnits(z);
      MulUnits(ONE);
    } else {
      var n := |x| - 1;
      var past, last := x[..n], Real(x[n]);
      var r, t, q := Raised(z, n), Transform(z, past), Raised(Conj(z), n);
      HornerTurns(z, past);
      assert Horner(z, x) == Add(Mul(r, t), last);
      TurnLast(r, t, q, last, z, n);
      MulAssociates(z, r, Add(t, Mul(last, q)));
    }
  }

  lemma {:induction false} TurnLast(r: Complex, t: Complex, q: Complex, last: Complex, z: Complex, n: nat)
    requires OnCircle(z) && r == Raised(z, n) && q == Raised(Conj(z), n)
    ensures Add(Mul(r, t), last) == Mul(r, Add(t, Mul(last, q)))
  {
    hide Mul, Add, Conj, OnCircle, Real, Raised;
    RaisedCancels(z, n);
    MulDistributes(r, t, Mul(last, q));
    MulCommutes(last, q);
    MulAssociates(r, q, last);
    MulUnits(last);
  }

  /** So the two have the same power. */
  lemma {:induction false} HornerHasTransformPower(z: Complex, x: seq<real>)
    requires OnCircle(z)
    ensures Power(Horner(z, x)) == Power(Transform(z, x))
  {
    hide Mul, Power;
    HornerTurns(z, x);
    PowerOfProduct(z, Horner(z, x));
    PowerOfProduct(Raised(z, |x|), Transform(z, x));
    RaisedOnCircle(z, |x|);
  }
}

/** The Goertzel filter of hw1/src/goertzel.c over exact reals. */
module Goertzel {
  import opened Spectrum

  /** The state (s1, s2) of a filter at angle `z` encodes the Horner sum of the samples it has seen. */
  ghost predicate Encodes(z: Complex, s1: real, s2: real, x: seq<real>) {
    Add(Real(s1), Mul(Conj(z), Real(-s2))) == Horner(z, x)
  }

  /** One turn of the filter is one turn of Horner's rule. */
  lemma FilterTurns(z: Complex, s0: real, s1: real, s2: real, x: real)
    requires OnCircle(z) && s0 == x + 2.0 * z.re * s1 - s2
    ensures Add(Real(s0), Mul(Conj(z), Real(-s1)))
         == Add(Mul(z, Add(Real(s1), Mul(Conj(z), Real(-s2)))), Real(x))
  {
    CircleCancels(z, s2);
  }

  lemma CircleCancels(z: Complex, s2: real)
    requires OnCircle(z)
    ensures z.re * (z.re * s2) + z.im * (z.im * s2) == s2
  {
    assert z.re * (z.re * s2) + z.im * (z.im * s2) == (z.re * z.re + z.im * z.im) * s2;
  }

  lemma EncodesNext(z: Complex, s0: real, s1: real, s2: real, past: seq<real>, x: real)
    requires OnCircle(z) && Encodes(z, s1, s2, past)
    requires s0 == x + 2.0 * z.re * s1 - s2
    ensures Encodes(z, s0, s1, past + [x])
  {
    hide Add, Mul, Conj, OnCircle, Real;
    FilterTurns(z, s0, s1, s2, x);
    assert (past + [x])[..|past|] == past;
  }

  /** The filter's closing formula is the power of what its state encodes. */
  lemma ClosingPower(z: Complex, s0: real, s1: real)
    requires OnCircle(z)
    ensures s0 * s0 + s1 * s1 - 2.0 * (s0 * s1 * z.re) == Power(Add(Real(s0), Mul(Conj(z), Real(-s1))))
  {
    CircleCancels(z, s1 * s1);
    assert Add(Real(s0), Mul(Conj(z), Real(-s1))) == Complex(s0 - z.re * s1, z.im * s1);
    SquareOut(z.re, z.im, s0, s1);
  }

  lemma SquareOut(c: real, s: real, s0: real, s1: real)
    requires c * (c * (s1 * s1)) + s * (s * (s1 * s1)) == s1 * s1
    ensures (s0 - c * s1) * (s0 - c * s1) + (s * s1) * (s * s1) == s0 * s0 + s1 * s1 - 2.0 * (s0 * s1 * c)
  {
  }

  class GoertzelState {
    var n: nat
    var c: real          // the cosine of the angle A
    var b: real
    var s0: real
    var s1: real
    var s2: real
    ghost var z: Complex // the unit vector at angle A
    ghost var samples: seq<real>

    ghost predicate Valid()
      reads this
    {
      && n > 0 && OnCircle(z) && c == z.re && b == 2.0 * c
      && Encodes(z, s1, s2, samples)
    }

    /** `goertzel_init`, given the cosine and sine of the angle 2 pi k / n. */
    constructor (n: nat, c: real, ghost s: real)
      requires n > 0 && OnCircle(Complex(c, s))
      ensures Valid() && this.n == n && z == Complex(c, s) && samples == []
    {
      this.n := n;
      this.c := c;
      b := 2.0 * c;
      s0 := 0.0;
      s1 := 0.0;
      s2 := 0.0;
      z := Complex(c, s);
      samples := [];
    }

    /** `goertzel_step` takes one more sample in. */
    method Step(x: real)
      requires Valid()
      modifies this
      ensures Valid() && n == old(n) && z == old(z)
      ensures samples == old(samples) + [x]
      ensures s1 == x + 2.0 * c * old(s1) - old(s2) && s2 == old(s1)
    {
      hide Encodes;
      s0 := x + b * s1 - s2;
      EncodesNext(z, s0, s1, s2, samples, x);
      s2 := s1;
      s1 := s0;
      samples := samples + [x];
    }

    /** `goertzel_strength` takes the last sample and gives twice the power of the transform, scaled. */
    method Strength(x: real) returns (r: real)
      requires Valid()
      modifies `s0
      ensures Valid()
      ensures r == 2.0 * Power(Transform(z, samples + [x])) / (n * n) as real
    {
      hide Encodes, Power, Transform, Horner;
      s0 := x + b * s1 - s2;
      EncodesNext(z, s0, s1, s2, samples, x);
      r := 2.0 * (s0 * s0 + s1 * s1 - 2.0 * (s0 * s1 * c)) / (n * n) as real;
      ClosingPower(z, s0, s1);
      PowerOfEncoded(z, s0, s1, samples + [x]);
    }
  }

  lemma {:induction false} PowerOfEncoded(z: Complex, s0: real, s1: real, x: seq<real>)
    requires OnCircle(z) && Encodes(z, s0, s1, x)
    ensures Power(Add(Real(s0), Mul(Conj(z), Real(-s1)))) == Power(Transform(z, x))
  {
    hide Add, Mul, Conj, Real, Power, Transform, Horner;
    HornerHasTransformPower(z, x);
  }

  /** How a detector uses the filter: all samples but the last are steps, the last gives the strength. */
  method Analyse(x: seq<real>, c: real, ghost s: real) returns (r: real)
    requires x != [] && OnCircle(Complex(c, s))
    ensures r == 2.0 * Power(Transform(Complex(c, s), x)) / (|x| * |x|) as real
  {
    hide OnCircle, Power, Transform;
    var g := new GoertzelState(|x|, c, s);
    var i := 0;
    while i < |x| - 1
      invariant 0 <= i <= |x| - 1
      invariant g.Valid() && g.n == |x| && g.z == Complex(c, s) && g.samples == x[..i]
    {
      g.Step(x[i]);
      i := i + 1;
    }
    r := g.Strength(x[|x| - 1]);
    assert x == x[..|x| - 1] + [x[|x| - 1]];
  }
}
