/** ckks/ciphertext.go: the CKKS ciphertext and its three constructors. The Go type
    `Ciphertext` embeds a `*CkksElement`; the element's three fields (`value`, `scale`,
    `isNTT`) are the fields of the class here. */
module Ckks {
  import opened Wrappers
  import opened Uint64
  import Ring
  import opened CiphertextSpec

  class Ciphertext {
    var value: array<Ring.Poly?>
    var scale: Float64
    var isNTT: bool
    ghost var Repr: set<object>

    /** `&Ciphertext{&CkksElement{}}`: every field at Go's zero value (a nil slice has no slots). */
    constructor ()
      ensures value.Length == 0 && scale == Float64(0) && !isNTT
      ensures Valid()
      ensures Repr == {this, value} && fresh(value)
    {
      value := new Ring.Poly?[0];
      scale := Float64(0);
      isNTT := false;
      Repr := {this, value};
    }

    /** The coefficient arrays of all components: what sampling writes. */
    ghost function Limbs(): set<object>
      reads this, value
    {
      set k, o | 0 <= k < value.Length && value[k] != null && o in value[k].Limbs() :: o
    }

    /** Every slot holds its own well-formed polynomial, which with its limbs is in
        `Repr`, and no two components share storage with each other or with the
        ciphertext's own objects. */
    ghost predicate Valid()
      reads this, value
    {
      && this in Repr && value in Repr
      && (forall k :: 0 <= k < value.Length ==>
            && value[k] != null
            && value[k] in Repr
            && value[k].Valid()
            && value[k].Limbs() <= Repr
            && this !in value[k].Limbs()
            && value !in value[k].Limbs())
      && (forall k, l :: 0 <= k < l < value.Length ==>
            value[k] != value[l] && value[k].Limbs() !! value[l].Limbs())
    }

    /** The ciphertext has shape `s`: its component count, the limb count and limb length
        of each component, its scale and its NTT flag. */
    ghost predicate Matches(s: CiphertextShape)
      reads this, value
    {
      && value.Length == |s.components|
      && (forall k :: 0 <= k < value.Length ==>
            value[k] != null && value[k].HasShape(s.components[k].ringDegree, s.components[k].moduli))
      && scale == s.scale
      && isNTT == s.isNTT
    }

    /** Every coefficient of limb `i` of every component is a residue modulo `moduli[i]`. */
    ghost predicate ReducedBy(moduli: seq<nat>)
      reads this, value, Limbs()
    {
      forall k :: 0 <= k < value.Length && value[k] != null ==> value[k].ReducedBy(moduli)
    }
  }

  /** `make([]*ring.Poly, count)` and the loop that fills each slot with a fresh
      `ring.NewPoly(ringDegree, moduli)`. `ps` lists the polynomials allocated. */
  method NewComponents(count: nat, ringDegree: nat, moduli: nat) returns (value: array<Ring.Poly?>, ghost ps: seq<Ring.Poly>)
    ensures fresh(value) && value.Length == |ps| == count
    ensures forall k :: 0 <= k < count ==>
              && value[k] == ps[k]
              && fresh(ps[k])
              && ps[k].Valid()
              && ps[k].HasShape(ringDegree, moduli)
              && fresh(ps[k].Limbs())
    ensures forall k, l :: 0 <= k < l < count ==> ps[k] != ps[l] && ps[k].Limbs() !! ps[l].Limbs()
  {
    value := new Ring.Poly?[count];
    ps := [];
    var i := 0;
    while i < count
      invariant i == |ps| <= count
      invariant forall k :: 0 <= k < i ==> value[k] == ps[k]
      invariant forall k :: 0 <= k < i ==>
                  fresh(ps[k]) && ps[k].Valid() && ps[k].HasShape(ringDegree, moduli) && fresh(ps[k].Limbs())
      invariant forall k, l :: 0 <= k < l < i ==> ps[k] != ps[l] && ps[k].Limbs() !! ps[l].Limbs()
      modifies value
    {
      var p := new Ring.Poly(ringDegree, moduli);
      value[i] := p;
      ps := ps + [p];
      i := i + 1;
    }
  }

  /** The allocation sequence each constructor performs: an element with `count` fresh
      components of `moduli` limbs of `ringDegree` coefficients, then `scale` and
      `isNTT = true`. */
  method NewElement(count: nat, ringDegree: nat, moduli: nat, scale: Float64) returns (ct: Ciphertext)
    ensures ct.Valid() && fresh(ct.Repr)
    ensures ct.Matches(CiphertextShape(Components(count, PolyShape(ringDegree, moduli)), scale, true))
  {
    ct := new Ciphertext();
    ghost var ps;
    ct.value, ps := NewComponents(count, ringDegree, moduli);
    ct.scale := scale;
    ct.isNTT := true;
    ct.Repr := {ct, ct.value} + (set k | 0 <= k < count :: ps[k] as object)
               + set k, o | 0 <= k < count && o in ps[k].Limbs() :: o;
  }

  /** `NewCiphertext(params, degree, level, scale)` (ckks/ciphertext.go:14-31). */
  method NewCiphertext(params: Parameters, degree: u64, level: u64, scale: Float64)
    returns (r: Result<Ciphertext, Error>)
    ensures r.Success? <==> PlainShape(params, degree, level, scale).Success?
    ensures r.Failure? ==> PlainShape(params, degree, level, scale) == Failure(r.error)
    ensures r.Success? ==>
              && r.value.Valid()
              && fresh(r.value.Repr)
              && r.value.Matches(PlainShape(params, degree, level, scale).value)
  {
    if !params.isValid {
      return Failure(InvalidParameters);
    }
    var ct := NewElement(Inc(degree), Shl1(params.LogN), Inc(level), scale);
    return Success(ct);
  }

  /** `NewCiphertextQP(params, degree, level, scale)` (ckks/ciphertext.go:34-61). */
  method NewCiphertextQP(params: Parameters, degree: u64, level: u64, scale: Float64)
    returns (r: Result<(Ciphertext, Ciphertext), Error>)
    ensures r.Success? <==> QPShape(params, degree, level, scale).Success?
    ensures r.Failure? ==> QPShape(params, degree, level, scale) == Failure(r.error)
    ensures r.Success? ==>
              var (ctQ, ctP) := r.value;
              && ctQ.Valid() && ctP.Valid()
              && fresh(ctQ.Repr) && fresh(ctP.Repr)
              && ctQ.Repr !! ctP.Repr
              && ctQ.Matches(QPShape(params, degree, level, scale).value.0)
              && ctP.Matches(QPShape(params, degree, level, scale).value.1)
  {
    if !params.isValid {
      return Failure(InvalidParameters);
    }
    var ctQ := NewElement(Inc(degree), Shl1(params.LogN), Inc(level), scale);
    var ctP := NewElement(Inc(degree), Shl1(params.LogN), |params.Pi|, scale);
    return Success((ctQ, ctP));
  }

  /** `NewCiphertextRandom(prng, params, degree, level, scale)` (ckks/ciphertext.go:64-80):
      the plain ciphertext, each component then overwritten in index order by the
      sampler over `params.Qi[:level+1]`. */
  method NewCiphertextRandom(prng: Ring.Prng, params: Parameters, degree: u64, level: u64, scale: Float64)
    returns (r: Result<Ciphertext, Error>)
    modifies prng
    ensures r.Success? <==> RandomShape(params, degree, level, scale).Success?
    ensures r.Failure? ==> RandomShape(params, degree, level, scale) == Failure(r.error)
    ensures r.Success? ==>
              && r.value.Valid()
              && fresh(r.value.Repr)
              && r.value.Matches(RandomShape(params, degree, level, scale).value)
              && Inc(level) <= |params.Qi|
              && r.value.ReducedBy(params.Qi[..Inc(level)])
  {
    if !params.isValid {
      return Failure(InvalidParameters);
    }
    if Inc(level) > |params.Qi| {
      return Failure(SliceOutOfRange(Inc(level), |params.Qi|));
    }
    var moduli := params.Qi[..Inc(level)];
    var context := Ring.NewContextWithParams(params.N, moduli);
    if context.Failure? {
      return Failure(ContextError(context.error));
    }
    var sampler := new Ring.UniformSampler(prng, context.value);
    var made := NewCiphertext(params, degree, level, scale);
    var ct := made.value;
    SampleComponents(sampler, ct, Inc(degree));
    return Success(ct);
  }

  /** The loop `for i < degree+1 { sampler.Read(ciphertext.value[i]) }`: components
      `0..count-1` are overwritten in index order. Only the PRNG and the limbs change,
      so the shape, scale and flag stay as they were. */
  method SampleComponents(sampler: Ring.UniformSampler, ct: Ciphertext, count: nat)
    requires Ring.Usable(sampler.context)
    requires ct.Valid() && ct.value.Length == count
    requires forall k :: 0 <= k < count ==> |ct.value[k].Coeffs| == |sampler.context.Modulus|
    modifies sampler.prng, ct.Limbs()
    ensures ct.Valid() && ct.ReducedBy(sampler.context.Modulus)
    ensures ct.value == old(ct.value) && ct.scale == old(ct.scale) && ct.isNTT == old(ct.isNTT)
    ensures ct.value[..] == old(ct.value[..])
  {
    var value := ct.value;
    ghost var ps: seq<Ring.Poly> := seq(count, k requires 0 <= k < count && value[k] != null reads value => value[k]);
    ghost var moduli: seq<nat> := sampler.context.Modulus;
    var i := 0;
    while i < count
      invariant 0 <= i <= count
      invariant ct.value[..] == old(ct.value[..])
      invariant forall k :: 0 <= k < i ==> ps[k].ReducedBy(moduli)
    {
      var p := value[i];
      assert p == ps[i] && p.Limbs() <= ct.Limbs();
      label before:
      sampler.Read(p);
      forall k | 0 <= k < i
        ensures ps[k].ReducedBy(moduli)
      {
        assert ps[k].Limbs() !! p.Limbs();
        assert old@before(ps[k].ReducedBy(moduli));
      }
      i := i + 1;
    }
    assert forall k :: 0 <= k < count ==> ct.value[k] == ps[k];
  }
}
