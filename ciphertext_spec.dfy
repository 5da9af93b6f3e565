/** The shapes the three CKKS ciphertext constructors of ckks/ciphertext.go promise,
    as values: how many polynomial components, how many coefficients and moduli each
    component has, the scale and the NTT flag, and when construction fails. The
    imperative constructors in module Ckks are proved to build objects of exactly these
    shapes; the lemmas here relate the shapes of different calls. */
module CiphertextSpec {
  import opened Wrappers
  import opened Uint64
  import Ring

  /** The IEEE-754 bit pattern of a `float64` scale; the constructors only copy it. */
  datatype Float64 = Float64(bits: bv64)

  /** The fields of the scheme parameters that the constructors read. */
  datatype Parameters = Parameters(isValid: bool, LogN: u64, N: u64, Qi: seq<u64>, Pi: seq<u64>)

  /** Why construction stops: the Go code panics in each of these cases. */
  datatype Error =
    | InvalidParameters
    | SliceOutOfRange(high: nat, length: nat)
    | ContextError(cause: Ring.RingError)

  /** `ring.NewPoly(ringDegree, moduli)`'s shape. */
  datatype PolyShape = PolyShape(ringDegree: nat, moduli: nat)

  datatype CiphertextShape = CiphertextShape(components: seq<PolyShape>, scale: Float64, isNTT: bool)

  /** The components after `count` turns of the allocation loop, each of shape `shape`. */
  function Components(count: nat, shape: PolyShape): (r: seq<PolyShape>)
    ensures |r| == count
    ensures forall k :: 0 <= k < count ==> r[k] == shape
  {
    if count == 0 then [] else Components(count - 1, shape) + [shape]
  }

  /** The number of coefficients per limb: `1<<params.LogN` on `uint64`, which is `2^LogN`
      for every exponent below the width and 0 from the width on. */
  function RingDegree(params: Parameters): (r: nat)
    ensures params.LogN < 64 ==> r == Pow2(params.LogN)
    ensures params.LogN >= 64 ==> r == 0
  {
    Pow2Truncation(params.LogN);
    Shl1(params.LogN)
  }

  /** `NewCiphertext(params, degree, level, scale)`. */
  function PlainShape(params: Parameters, degree: u64, level: u64, scale: Float64): (r: Result<CiphertextShape, Error>)
    ensures r.Failure? <==> !params.isValid
    ensures r.Failure? ==> r.error == InvalidParameters
    ensures r.Success? ==>
              && |r.value.components| == Inc(degree)
              && (forall k :: 0 <= k < |r.value.components| ==>
                    r.value.components[k] == PolyShape(RingDegree(params), Inc(level)))
              && r.value.scale == scale
              && r.value.isNTT
  {
    if !params.isValid then
      Failure(InvalidParameters)
    else
      Success(CiphertextShape(Components(Inc(degree), PolyShape(RingDegree(params), Inc(level))), scale, true))
  }

  /** `NewCiphertextQP(params, degree, level, scale)`: the Q part is the plain shape at
      `level`; the P part has as many components, each over all of `params.Pi`. */
  function QPShape(params: Parameters, degree: u64, level: u64, scale: Float64)
    : (r: Result<(CiphertextShape, CiphertextShape), Error>)
    ensures r.Failure? <==> !params.isValid
    ensures r.Failure? ==> r.error == InvalidParameters
    ensures r.Success? ==> PlainShape(params, degree, level, scale) == Success(r.value.0)
    ensures r.Success? ==>
              && |r.value.1.components| == |r.value.0.components| == Inc(degree)
              && (forall k :: 0 <= k < |r.value.1.components| ==>
                    r.value.1.components[k] == PolyShape(RingDegree(params), |params.Pi|))
              && r.value.1.scale == r.value.0.scale == scale
              && r.value.1.isNTT && r.value.0.isNTT
  {
    if !params.isValid then
      Failure(InvalidParameters)
    else
      var q := CiphertextShape(Components(Inc(degree), PolyShape(RingDegree(params), Inc(level))), scale, true);
      var p := CiphertextShape(Components(Inc(degree), PolyShape(RingDegree(params), |params.Pi|)), scale, true);
      Success((q, p))
  }

  /** The ring context `NewCiphertextRandom` builds over `params.Qi[:level+1]`. */
  function RandomContext(params: Parameters, level: u64): (r: Result<Ring.Context, Error>)
    ensures Inc(level) > |params.Qi| ==> r == Failure(SliceOutOfRange(Inc(level), |params.Qi|))
    ensures Inc(level) <= |params.Qi| ==>
              match Ring.NewContextWithParams(params.N, params.Qi[..Inc(level)])
              case Success(c) => r == Success(c) && c.Modulus == params.Qi[..Inc(level)]
              case Failure(e) => r == Failure(ContextError(e))
  {
    if Inc(level) > |params.Qi| then
      Failure(SliceOutOfRange(Inc(level), |params.Qi|))
    else
      match Ring.NewContextWithParams(params.N, params.Qi[..Inc(level)])
      case Success(c) => Success(c)
      case Failure(e) => Failure(ContextError(e))
  }

  /** `NewCiphertextRandom(prng, params, degree, level, scale)`'s shape: the plain shape,
      once the parameters are valid and the context over `Qi[:level+1]` exists. */
  function RandomShape(params: Parameters, degree: u64, level: u64, scale: Float64): (r: Result<CiphertextShape, Error>)
    ensures !params.isValid ==> r == Failure(InvalidParameters)
    ensures params.isValid && RandomContext(params, level).Failure? ==> r == Failure(RandomContext(params, level).error)
    ensures r.Success? <==> params.isValid && RandomContext(params, level).Success?
    ensures r.Success? ==> r == PlainShape(params, degree, level, scale)
  {
    if !params.isValid then
      Failure(InvalidParameters)
    else
      match RandomContext(params, level)
      case Failure(e) => Failure(e)
      case Success(_) => PlainShape(params, degree, level, scale)
  }

  /** Invalid parameters stop every constructor, whatever the other arguments. */
  lemma InvalidParametersRejected(params: Parameters, degree: u64, level: u64, scale: Float64)
    requires !params.isValid
    ensures PlainShape(params, degree, level, scale) == Failure(InvalidParameters)
    ensures QPShape(params, degree, level, scale) == Failure(InvalidParameters)
    ensures RandomShape(params, degree, level, scale) == Failure(InvalidParameters)
  {
  }

  /** Without `uint64` wrap-around: `degree+1` components, each with `level+1` moduli and
      `2^LogN` coefficients, the given scale, in the NTT domain. */
  lemma PlainShapeExact(params: Parameters, degree: u64, level: u64, scale: Float64)
    requires params.isValid && degree < MAX && level < MAX && params.LogN < 64
    ensures PlainShape(params, degree, level, scale).Success?
    ensures var s := PlainShape(params, degree, level, scale).value;
            && |s.components| == degree + 1
            && (forall k :: 0 <= k < |s.components| ==>
                  s.components[k].moduli == level + 1 && s.components[k].ringDegree == Pow2(params.LogN))
            && s.scale == scale
            && s.isNTT
  {
  }

  /** The same call at two levels: equal component counts, ring degrees, scales and
      flags, and modulus counts that differ by exactly the level difference. */
  lemma LevelDifference(params: Parameters, degree: u64, level1: u64, level2: u64, scale: Float64)
    requires params.isValid && level1 < MAX && level2 < MAX
    ensures var s1, s2 := PlainShape(params, degree, level1, scale).value, PlainShape(params, degree, level2, scale).value;
            && |s1.components| == |s2.components|
            && (forall k :: 0 <= k < |s1.components| ==>
                  && s1.components[k].moduli - s2.components[k].moduli == level1 - level2
                  && s1.components[k].ringDegree == s2.components[k].ringDegree)
            && s1.scale == s2.scale
            && s1.isNTT == s2.isNTT
  {
  }

  /** The P part of the pair does not depend on the level. */
  lemma QPExtensionIgnoresLevel(params: Parameters, degree: u64, level1: u64, level2: u64, scale: Float64)
    requires params.isValid
    ensures QPShape(params, degree, level1, scale).value.1 == QPShape(params, degree, level2, scale).value.1
  {
  }

  /** A level whose prefix `Qi[:level+1]` runs past the modulus chain is refused with a
      bounds error, never truncated. */
  lemma RandomLevelOutOfRange(params: Parameters, degree: u64, level: u64, scale: Float64)
    requires params.isValid && level < MAX && level + 1 > |params.Qi|
    ensures RandomShape(params, degree, level, scale) == Failure(SliceOutOfRange(level + 1, |params.Qi|))
  {
  }

  /** `degree+1` wraps on `uint64`: degree `2^64-1` allocates no component at all. */
  lemma DegreeWrapAllocatesNothing(params: Parameters, level: u64, scale: Float64)
    requires params.isValid
    ensures PlainShape(params, MAX, level, scale).value.components == []
  {
  }

  /** `level+1` wraps on `uint64`: level `2^64-1` gives components without moduli, and
      the random constructor then asks for a context over the empty prefix `Qi[:0]`. */
  lemma LevelWrapHasNoModuli(params: Parameters, degree: u64, scale: Float64)
    requires params.isValid
    ensures forall k :: 0 <= k < |PlainShape(params, degree, MAX, scale).value.components| ==>
              PlainShape(params, degree, MAX, scale).value.components[k].moduli == 0
    ensures RandomShape(params, degree, MAX, scale) == Failure(ContextError(Ring.EmptyModulusChain))
  {
  }

  /** Ring degree exponent 13, four primary moduli, two auxiliary moduli (placeholder
      values: the moduli themselves play no part in the shapes). */
  function ExampleParameters(): (params: Parameters)
    ensures params.isValid && |params.Qi| == 4 && |params.Pi| == 2
  {
    Parameters(true, 13, 8192, [65537, 114689, 147457, 163841], [40961, 188417])
  }

  /** `NewCiphertext(params, 1, 2, 2^40)`: two components of three moduli each. */
  lemma ExamplePlain(scale: Float64)
    ensures var s := PlainShape(ExampleParameters(), 1, 2, scale).value;
            && |s.components| == 2
            && s.components[0] == s.components[1] == PolyShape(8192, 3)
            && s.scale == scale && s.isNTT
  {
    assert Pow2(13) == 8192;
  }

  /** `NewCiphertextQP(params, 2, 1, 2^30)`: three components of two moduli in each part. */
  lemma ExampleQP(scale: Float64)
    ensures var (q, p) := QPShape(ExampleParameters(), 2, 1, scale).value;
            && |q.components| == |p.components| == 3
            && (forall k :: 0 <= k < 3 ==> q.components[k] == p.components[k] == PolyShape(8192, 2))
            && q.scale == p.scale == scale
  {
    assert Pow2(13) == 8192;
  }

  /** A level past the chain of four moduli is refused by the random constructor. */
  lemma ExampleRandomOutOfRange(scale: Float64)
    ensures RandomShape(ExampleParameters(), 1, 4, scale) == Failure(SliceOutOfRange(5, 4))
  {
  }
}
