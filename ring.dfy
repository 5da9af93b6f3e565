/** The boundary of the polynomial-ring package that the CKKS ciphertext constructors
    call into: RNS polynomials (`ring.NewPoly`), ring contexts (`ring.NewContextWithParams`),
    the randomness source and the uniform sampler. Only what the constructors rely on is
    modelled: shapes, the failure of context construction, and that sampling writes
    residues into the existing limbs without changing their shape. */
module Ring {
  import opened Wrappers
  import opened Uint64

  /** An RNS polynomial: one array of `N` coefficients ("limb") per modulus. The list of
      limbs is fixed at allocation; only the limbs' contents are ever written. */
  class Poly {
    const Coeffs: seq<array<nat>>

    /** The objects that hold this polynomial's coefficients. */
    ghost function Limbs(): set<object>
    {
      set i | 0 <= i < |Coeffs| :: Coeffs[i] as object
    }

    /** No two limbs share storage. */
    ghost predicate Valid()
    {
      forall i, j :: 0 <= i < j < |Coeffs| ==> Coeffs[i] != Coeffs[j]
    }

    /** `moduli` limbs of `n` coefficients each. */
    ghost predicate HasShape(n: nat, moduli: nat)
    {
      && |Coeffs| == moduli
      && forall i :: 0 <= i < moduli ==> Coeffs[i].Length == n
    }

    /** Every coefficient of limb `i` is a residue modulo `moduli[i]`. */
    ghost predicate ReducedBy(moduli: seq<nat>)
      reads Limbs()
    {
      && |Coeffs| == |moduli|
      && forall i, j :: 0 <= i < |Coeffs| && 0 <= j < Coeffs[i].Length ==> Coeffs[i][j] < moduli[i]
    }

    /** `ring.NewPoly(n, moduli)`: a freshly allocated polynomial of the requested shape.
        The initial coefficient values are left unspecified. */
    constructor (n: nat, moduli: nat)
      ensures Valid() && HasShape(n, moduli)
      ensures fresh(Limbs())
    {
      var limbs: seq<array<nat>> := [];
      while |limbs| < moduli
        invariant |limbs| <= moduli
        invariant forall i :: 0 <= i < |limbs| ==> limbs[i].Length == n && fresh(limbs[i])
        invariant forall i, j :: 0 <= i < j < |limbs| ==> limbs[i] != limbs[j]
      {
        var limb := new nat[n];
        limbs := limbs + [limb];
      }
      Coeffs := limbs;
    }
  }

  /** A ring context over degree `N` and the modulus list `Modulus`. */
  datatype Context = Context(N: u64, Modulus: seq<u64>)

  datatype RingError = EmptyModulusChain | InvalidModulus

  /** A context can reduce modulo each of its moduli. */
  predicate Usable(context: Context)
  {
    && |context.Modulus| > 0
    && forall i :: 0 <= i < |context.Modulus| ==> context.Modulus[i] >= 2
  }

  /** `ring.NewContextWithParams(n, moduli)`: a context over exactly `moduli`, or an
      error for a modulus list no residue arithmetic can use. */
  function NewContextWithParams(n: u64, moduli: seq<u64>): (r: Result<Context, RingError>)
    ensures r.Success? <==> Usable(Context(n, moduli))
    ensures r.Success? ==> r.value == Context(n, moduli)
    ensures |moduli| == 0 ==> r == Failure(EmptyModulusChain)
  {
    if |moduli| == 0 then Failure(EmptyModulusChain)
    else if exists i :: 0 <= i < |moduli| && moduli[i] < 2 then Failure(InvalidModulus)
    else Success(Context(n, moduli))
  }

  /** A randomness source: successive words of a stream fixed when it is created. */
  class Prng {
    const stream: nat -> nat
    var pos: nat

    constructor (stream: nat -> nat)
      ensures this.stream == stream && pos == 0
    {
      this.stream := stream;
      pos := 0;
    }

    method Next() returns (w: nat)
      modifies this
      ensures w == stream(old(pos)) && pos == old(pos) + 1
    {
      w := stream(pos);
      pos := pos + 1;
    }
  }

  /** `ring.NewUniformSampler(prng, context)` and its `Read`. */
  class UniformSampler {
    const prng: Prng
    const context: Context

    constructor (prng: Prng, context: Context)
      requires Usable(context)
      ensures this.prng == prng && this.context == context
    {
      this.prng := prng;
      this.context := context;
    }

    /** Overwrites every coefficient of `p` with a residue modulo its limb's modulus,
        drawing from `prng`. The limbs are written in place; their number and length
        stay as they were. */
    method Read(p: Poly)
      requires Usable(context)
      requires p.Valid() && |p.Coeffs| == |context.Modulus|
      modifies prng, p.Limbs()
      ensures p.ReducedBy(context.Modulus)
    {
      var i := 0;
      while i < |p.Coeffs|
        invariant 0 <= i <= |p.Coeffs|
        invariant forall a, b :: 0 <= a < i && 0 <= b < p.Coeffs[a].Length ==> p.Coeffs[a][b] < context.Modulus[a]
      {
        var limb := p.Coeffs[i];
        var q := context.Modulus[i];
        var j := 0;
        while j < limb.Length
          invariant 0 <= j <= limb.Length
          invariant forall b :: 0 <= b < j ==> limb[b] < q
          invariant forall a, b :: 0 <= a < i && 0 <= b < p.Coeffs[a].Length ==> p.Coeffs[a][b] < context.Modulus[a]
        {
          var w := prng.Next();
          limb[j] := w % q;
          j := j + 1;
        }
        i := i + 1;
      }
    }
  }
}
