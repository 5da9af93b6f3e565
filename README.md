# CKKS ciphertext construction, modelled in Dafny

This project models the ciphertext construction protocol of the CKKS scheme in
`ckks/ciphertext.go`. A ciphertext is an element of `degree+1` RNS polynomials.
Each polynomial has `2^LogN` coefficients in every limb, and one limb per
modulus. The element also carries a `float64` scale and an NTT-domain flag. The
project models and proves three constructors:

- `NewCiphertext` allocates `degree+1` fresh polynomials of `level+1` limbs each.
  It then sets the scale and sets `isNTT` to true.
- `NewCiphertextQP` performs the same allocation twice. The Q part has `level+1`
  limbs per component. The P part has `len(params.Pi)` limbs per component,
  whatever the level.
- `NewCiphertextRandom` builds a ring context over `Qi[:level+1]` and a uniform
  sampler. It then constructs the plain ciphertext and overwrites components
  `0..degree`, in index order, with sampled residues.

Layout:

- `wrappers.dfy` (module `Wrappers`): the `Result` type. The Go panics become
  `Failure` values.
- `uint64.dfy` (module `Uint64`): the `uint64` arithmetic the code relies on.
  `Inc` is `x+1`, which wraps to 0. `Shl1` is `1<<k`, the power `2^k` truncated to
  64 bits, which is 0 once `k >= 64`.
- `ring.dfy` (module `Ring`): the boundary of the `ring` package.
  - `Poly` models `ring.NewPoly`. Its limb list is fixed at allocation, and each
    limb is a mutable array.
  - `NewContextWithParams` returns either a context over exactly the given
    moduli or an error.
  - `Prng` is a randomness source given as a stream of words.
  - `UniformSampler.Read` writes a residue into every coefficient. It never
    changes a limb's number or length.
- `ciphertext_spec.dfy` (module `CiphertextSpec`): value-level shapes.
  - `PlainShape`, `QPShape` and `RandomShape` give what each constructor must
    produce, or the error it must stop with.
  - Lemmas relate the shapes of different calls.
- `ciphertext.dfy` (module `Ckks`): the `Ciphertext` class and the three
  constructors. Each constructor is an imperative method, proved to build objects
  of exactly the shape its specification function gives. The ciphertext, its slot
  array, every component polynomial and every limb are freshly allocated. No two
  slots hold the same polynomial, and no two components share a limb.

At the edges the model follows what the code does, which is not always what its
comments suggest:

- `degree+1` and `level+1` are computed on `uint64`. `degree = 2^64-1` allocates
  no component at all, and `level = 2^64-1` allocates components without moduli.
  The random constructor then asks for a context over the empty prefix `Qi[:0]`.
- `1<<params.LogN` is 0 on `uint64` once `LogN >= 64`.
- Nothing enforces `degree >= 1`: degree 0 gives a one-component element.
- `NewCiphertext` and `NewCiphertextQP` do not check the level against the
  modulus chain. They allocate `level+1` limbs for any level. Only
  `NewCiphertextRandom` fails for a level past the chain, because the slice
  `Qi[:level+1]` is out of range.

## Model

| member | source | states |
|---|---|---|
| `Uint64.Inc` | ckks/ciphertext.go:22-24 | `degree+1` / `level+1` on `uint64`: `x+1` below the maximum, 0 at `2^64-1` |
| `Uint64.Shl1` | ckks/ciphertext.go:24 | `1<<params.LogN` on `uint64`: exactly `2^LogN` reduced modulo `2^64`, so it is `2^LogN` below 64 and 0 from 64 on (also lines 44, 54) |
| `Ring.Prng.constructor` | ckks/ciphertext.go:64 | the `prng` argument: a source whose words are a fixed stream, starting at its first word |
| `Ring.Prng.Next` | ckks/ciphertext.go:64 | each draw returns the stream's word at the current position and advances the position by one, changing nothing else |
| `Ring.Poly.constructor` | ckks/ciphertext.go:24 | `ring.NewPoly(n, moduli)` returns a fresh polynomial of `moduli` pairwise distinct limbs of `n` coefficients each |
| `Ring.NewContextWithParams` | ckks/ciphertext.go:69-72 | succeeds exactly for a non-empty list of usable moduli, with a context over exactly that list; an empty list is an error |
| `Ring.UniformSampler.constructor` | ckks/ciphertext.go:73 | the sampler is bound to the given PRNG and context |
| `Ring.UniformSampler.Read` | ckks/ciphertext.go:76 | after `sampler.Read(p)`, every coefficient of limb `i` is a residue modulo the context's `i`-th modulus; only the PRNG and `p`'s limbs are written, so the shape is unchanged |
| `CiphertextSpec.Components` | ckks/ciphertext.go:22-25 | the allocation loop after `count` turns: exactly `count` components, all of the same shape |
| `CiphertextSpec.RingDegree` | ckks/ciphertext.go:24 | the coefficient count per limb, `1<<params.LogN` on `uint64`: `2^LogN` when `LogN < 64`, and 0 when `LogN >= 64` (also lines 44, 54) |
| `CiphertextSpec.PlainShape` | ckks/ciphertext.go:14-31 | fails with `InvalidParameters` exactly when `params.isValid` is false; otherwise `degree+1` components of `2^LogN` coefficients and `level+1` moduli, the given scale, `isNTT` true |
| `CiphertextSpec.QPShape` | ckks/ciphertext.go:34-61 | fails exactly on invalid parameters; the Q part is the plain shape at `level`; the P part has the same component count, scale and flag, each component with `len(params.Pi)` moduli |
| `CiphertextSpec.RandomContext` | ckks/ciphertext.go:69-72 | `Qi[:level+1]` past the chain is a bounds error; otherwise the ring context over that prefix, or its error propagated |
| `CiphertextSpec.RandomShape` | ckks/ciphertext.go:64-80 | invalid parameters, then an out-of-range prefix, then a context error stop construction with that error; otherwise the result is exactly the plain shape |
| `CiphertextSpec.InvalidParametersRejected` | ckks/ciphertext.go:16-18 | with `params.isValid` false, all three constructors fail for every degree, level and scale (also lines 36-38, 66-68) |
| `CiphertextSpec.PlainShapeExact` | ckks/ciphertext.go:22-28 | without wrap-around: exactly `degree+1` components, each with `level+1` moduli and `2^LogN` coefficients, the input scale, `isNTT` true |
| `CiphertextSpec.LevelDifference` | ckks/ciphertext.go:24 | the same call at two levels gives equal component counts, ring degrees, scales and flags, and per-component modulus counts that differ by exactly `level1 - level2` |
| `CiphertextSpec.QPExtensionIgnoresLevel` | ckks/ciphertext.go:52-55 | the P part of `NewCiphertextQP` is the same at every level |
| `CiphertextSpec.RandomLevelOutOfRange` | ckks/ciphertext.go:69 | when `level+1 > len(Qi)`, the random constructor fails with a bounds error naming `level+1` and `len(Qi)` |
| `CiphertextSpec.DegreeWrapAllocatesNothing` | ckks/ciphertext.go:22-23 | at `degree = 2^64-1` the loop bound `degree+1` is 0, so no component is allocated |
| `CiphertextSpec.LevelWrapHasNoModuli` | ckks/ciphertext.go:24 | at `level = 2^64-1` every component has 0 moduli, and the random constructor fails on the empty context prefix (also line 69) |
| `CiphertextSpec.ExamplePlain` | ckks/ciphertext.go:14-31 | `LogN = 13`, degree 1, level 2: two components of 8192 coefficients and 3 moduli, the given scale, NTT domain |
| `CiphertextSpec.ExampleQP` | ckks/ciphertext.go:34-61 | degree 2, level 1, two auxiliary moduli: both parts have three components of two moduli and the same scale |
| `CiphertextSpec.ExampleRandomOutOfRange` | ckks/ciphertext.go:69-72 | level 4 over a chain of four moduli fails with a bounds error |
| `Ckks.Ciphertext.constructor` | ckks/ciphertext.go:20 | `&Ciphertext{&CkksElement{}}`: no slots, zero scale, `isNTT` false; the class invariant `Valid` holds from the start |
| `Ckks.NewComponents` | ckks/ciphertext.go:22-25 | `make([]*ring.Poly, degree+1)` and the filling loop: `count` slots, each a fresh well-formed polynomial with fresh limbs of the requested shape, no two slots holding the same polynomial and no two polynomials sharing a limb (the same loop is at lines 42-45 and 52-55) |
| `Ckks.NewElement` | ckks/ciphertext.go:20-28 | allocates `count` fresh components of the requested shape, pairwise distinct and disjoint in storage, all inside the fresh `Repr`, then sets the scale and `isNTT = true` (the same sequence is at lines 40-48 and 50-58) |
| `Ckks.SampleComponents` | ckks/ciphertext.go:75-77 | the loop `sampler.Read(ciphertext.value[i])` for `i < degree+1`: afterwards every component holds residues modulo the context's moduli, and the component array, the components, the scale and the flag are unchanged |
| `Ckks.NewCiphertext` | ckks/ciphertext.go:14-31 | fails exactly as `PlainShape` fails; otherwise returns a fresh, non-aliased ciphertext of exactly the `PlainShape` shape |
| `Ckks.NewCiphertextQP` | ckks/ciphertext.go:34-61 | fails exactly as `QPShape` fails; otherwise returns two fresh ciphertexts whose storage is disjoint, matching the Q and the P shape |
| `Ckks.NewCiphertextRandom` | ckks/ciphertext.go:64-80 | fails exactly as `RandomShape` fails, with the same error; otherwise returns a fresh ciphertext of the plain shape in which every limb `i` of every component holds residues modulo `Qi[i]` |

## Left out

- The `ring` package is not part of this model: ring arithmetic, NTT transforms
  and modular reduction. `ring.NewPoly` is modelled only as a shape-correct
  allocation, and the initial coefficient values are left unspecified.
- Ring.NewContextWithParams: the real checks on the modulus list are not
  modelled (primality, NTT-friendliness, the ring degree). The model refuses
  only an empty list and moduli below 2, so that the sampler can reduce modulo
  each modulus. The constructor relies only on "a context over exactly
  `Qi[:level+1]`, or an error".
- Ring.UniformSampler.Read: does not model the statistical uniformity of the
  sampler or of the PRNG (`utils.PRNG`). The model writes each stream word
  modulo the limb's modulus, where the library uses masked rejection sampling.
  Its contract states only the residue bound and the frame. Bit-level
  reproducibility for a fixed seed is therefore not stated, but the shape of a
  random ciphertext is a function of the inputs alone.
- Ring.UniformSampler.Read: it fills every coefficient of each limb of the
  polynomial it is given. The library iterates over the context's `N`, which is
  `params.N`, and that equals `1<<LogN` for generated parameters. The mismatch
  that an inconsistent `params.N` would cause is not modelled.
- CiphertextSpec.RandomContext: Go allows reslicing up to a slice's capacity.
  The model takes the capacity of `params.Qi` to be its length.
- Parameter generation and validation: `isValid`, `LogN`, `N`, `Qi` and `Pi` are
  given inputs.
- The scale is an opaque `float64`, modelled as a 64-bit pattern that is copied
  through. Its floating-point meaning and its positivity are not modelled.
- `CkksElement` (defined outside `ckks/ciphertext.go`) is not part of this
  model. Its three fields are the fields of `Ckks.Ciphertext`.
- Memory exhaustion on huge allocations is not modelled.
