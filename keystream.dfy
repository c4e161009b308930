/** The keystream generator `_ByteGenerator` (xh_scraper.py:19-80): seven
    recurrences over one register, selected by the algorithm id found in the
    first byte of an obfuscated URL.  Each call of `__next__` advances the
    register and yields the low byte of the algorithm's result.

    The functions `Step1` … `Step7` state what one call of `_algo1` …
    `_algo7` computes; the class `ByteGenerator` performs the same
    assignments in place.  `JsStepFn` is the same family written in
    JavaScript's 32-bit arithmetic, and `KeystreamMatchesJs` proves the two
    emit identical bytes.

    The register sequence and the keystream are defined once, for any step
    function `f: int -> Step`, and used with both families. */
module Keystream {
  import opened Common
  import opened FixedWidth

  /** The recurrences, in the order of their ids 1 … 7. */
  datatype Algorithm =
    | Lcg           // 1: linear congruential step
    | Xorshift      // 2: xorshift 13/17/5
    | AddFmix       // 3: golden-ratio increment, then a murmur-style finaliser
    | AddRotateMix  // 4: increment, rotate left by 7, mix
    | XorshiftAdd   // 5: xorshift 7/9/8 plus a constant
    | LcgVarShift   // 6: LCG step, then a right shift by a data-dependent amount
    | AddXorMix     // 7: golden-ratio increment, then a multiply-xorshift mix

  function IdOf(alg: Algorithm): int
  {
    match alg
    case Lcg => 1
    case Xorshift => 2
    case AddFmix => 3
    case AddRotateMix => 4
    case XorshiftAdd => 5
    case LcgVarShift => 6
    case AddXorMix => 7
  }

  /** `getattr(self, f"_algo{algo_id}")`: a method exists exactly for the ids
      1 … 7; any other id is an unknown algorithm. */
  function AlgorithmFor(id: int): (r: Option<Algorithm>)
    ensures r.Some? <==> 1 <= id <= 7
    ensures r.Some? ==> IdOf(r.value) == id
  {
    if id == 1 then Some(Lcg)
    else if id == 2 then Some(Xorshift)
    else if id == 3 then Some(AddFmix)
    else if id == 4 then Some(AddRotateMix)
    else if id == 5 then Some(XorshiftAdd)
    else if id == 6 then Some(LcgVarShift)
    else if id == 7 then Some(AddXorMix)
    else None
  }

  /** What one call of an algorithm leaves in the register `self._s` and
      what it returns. */
  datatype Step = Step(register: int, result: int)

  // ---------------------------------------------------------------------
  // The seven recurrences, in Python's integer semantics
  // ---------------------------------------------------------------------

  function Step1(s: int): Step
  {
    var r := ToSigned32(s * 1664525 + 1013904223);
    Step(r, r)
  }

  /** Three xorshift rounds, `s ^= s << k1`, `s ^= (s & 0xFFFFFFFF) >> k2`,
      `s ^= s << k3`, each result passed through `to_signed_32`; algorithms
      2 and 5 share them with different shift amounts. */
  function XorshiftRounds(s: int, k1: nat, k2: nat, k3: nat): int
  {
    var a := ToSigned32(Xor(s, Shl(s, k1)));
    var b := ToSigned32(Xor(a, Shr(Low(a, 32), k2)));
    ToSigned32(Xor(b, Shl(b, k3)))
  }

  function Step2(s: int): Step
  {
    var r := XorshiftRounds(s, 13, 17, 5);
    Step(r, r)
  }

  function Step3(s: int): Step
  {
    var r := ToSigned32(s + 0x9E3779B9);
    var a := ToSigned32(Xor(r, Shr(Low(r, 32), 16)));
    var b := ToSigned32(a * ToSigned32(0x85EBCA77));
    var c := ToSigned32(Xor(b, Shr(Low(b, 32), 13)));
    var d := ToSigned32(c * ToSigned32(0xC2B2AE3D));
    Step(r, ToSigned32(Xor(d, Shr(Low(d, 32), 16))))
  }

  function Step4(s: int): Step
  {
    var r := ToSigned32(s + 0x6D2B79F5);
    var a := ToSigned32(Or(Shl(r, 7), Shr(Low(r, 32), 25)));
    var b := ToSigned32(a + 0x9E3779B9);
    var c := ToSigned32(Xor(b, Shr(Low(b, 32), 11)));
    Step(r, ToSigned32(c * 0x27D4EB2D))
  }

  function Step5(s: int): Step
  {
    var r := ToSigned32(XorshiftRounds(s, 7, 9, 8) + 0xA5A5A5A5);
    Step(r, r)
  }

  /** The shift amount of algorithm 6, `(s & 0xFFFFFFFF) >> 27 & 31`: the
      top five bits of the register, so the final `& 31` never changes it. */
  function ShiftAmount(r: int): (k: nat)
    ensures k < 32
    ensures k == Low(r, 32) / Pow2(27)
  {
    Pow2Is32();
    Pow2Add(27, 5);
    Low(Shr(Low(r, 32), 27), 5)
  }

  function Step6(s: int): Step
  {
    var r := ToSigned32(s * ToSigned32(0x2C9277B5) + ToSigned32(0xAC564B05));
    var a := ToSigned32(Xor(r, Shr(Low(r, 32), 18)));
    Step(r, ToSigned32(Shr(Low(a, 32), ShiftAmount(r))))
  }

  function Step7(s: int): Step
  {
    var r := ToSigned32(s + ToSigned32(0x9E3779B9));
    var a := ToSigned32(Xor(r, Shl(r, 5)));
    var b := ToSigned32(a * ToSigned32(0x7FEB352D));
    var c := ToSigned32(Xor(b, Shr(Low(b, 32), 15)));
    Step(r, ToSigned32(c * ToSigned32(0x846CA68B)))
  }

  /** The bound method `getattr(self, f"_algo{algo_id}")` picks: what one
      call of it does to a register. */
  function StepFn(alg: Algorithm): int -> Step
  {
    match alg
    case Lcg => Step1
    case Xorshift => Step2
    case AddFmix => Step3
    case AddRotateMix => Step4
    case XorshiftAdd => Step5
    case LcgVarShift => Step6
    case AddXorMix => Step7
  }

  /** The register after `n` calls of `__next__` with step function `f`,
      starting from `s0`. */
  function RegisterAfter(f: int -> Step, s0: int, n: nat): int
  {
    if n == 0 then s0 else f(RegisterAfter(f, s0, n - 1)).register
  }

  /** `x & 0xFF`, the byte `__next__` yields from a result `x`. */
  function LowByte(x: int): (b: int)
    ensures 0 <= b < 256 && b == Low(x, 8)
  {
    Pow2Is32();
    Low(x, 8)
  }

  /** The first `n` bytes a generator with step function `f` and register
      `s0` yields: byte `i` is `result & 0xFF` of the call made on the
      register after `i` calls. */
  function Keystream(f: int -> Step, s0: int, n: nat): (ks: seq<int>)
    ensures |ks| == n && forall i :: 0 <= i < n ==> 0 <= ks[i] < 256
  {
    var ks := seq(n, i requires 0 <= i < n => LowByte(f(RegisterAfter(f, s0, i)).result));
    assert forall i :: 0 <= i < n ==> ks[i] == LowByte(f(RegisterAfter(f, s0, i)).result);
    ks
  }

  // ---------------------------------------------------------------------
  // The generator object
  // ---------------------------------------------------------------------

  class ByteGenerator {
    /** `self._algorithm`, the bound method chosen at construction. */
    const algorithm: Algorithm
    /** What that bound method does to a register, as a function value. */
    ghost const step: int -> Step
    /** `self._s`, the register. */
    var s: int

    /** `step` is the step function of `algorithm`.  The trigger keeps callers
        that speak of `step` alone from looking inside the algorithms. */
    ghost predicate Valid() {
      forall x {:trigger StepFn(algorithm)(x)} :: step(x) == StepFn(algorithm)(x)
    }

    constructor (alg: Algorithm, seed: int)
      ensures algorithm == alg && step == StepFn(alg) && s == ToSigned32(seed)
      ensures Valid()
    {
      algorithm := alg;
      step := StepFn(alg);
      s := ToSigned32(seed);
    }

    /** `_ByteGenerator(algo_id, seed)`: an unknown id fails here, before any
        byte is requested. */
    static method Create(algoId: int, seed: int) returns (g: Option<ByteGenerator>)
      ensures g.None? <==> !(1 <= algoId <= 7)
      ensures g.Some? ==> fresh(g.value) && IdOf(g.value.algorithm) == algoId
      ensures g.Some? ==> g.value.s == ToSigned32(seed) && g.value.Valid()
      ensures g.Some? ==> g.value.step == StepFn(g.value.algorithm)
    {
      var alg := AlgorithmFor(algoId);
      if alg.None? {
        return None;
      }
      var gen := new ByteGenerator(alg.value, seed);
      return Some(gen);
    }

    method Algo1(s0: int) returns (r: int)
      modifies this
      ensures s == Step1(s0).register && r == Step1(s0).result
    {
      s := ToSigned32(s0 * 1664525 + 1013904223);
      r := s;
    }

    method Algo2(s0: int) returns (r: int)
      modifies this
      ensures s == Step2(s0).register && r == Step2(s0).result
    {
      var t := ToSigned32(Xor(s0, Shl(s0, 13)));
      t := ToSigned32(Xor(t, Shr(Low(t, 32), 17)));
      s := ToSigned32(Xor(t, Shl(t, 5)));
      r := s;
    }

    method Algo3(s0: int) returns (r: int)
      modifies this
      ensures s == Step3(s0).register && r == Step3(s0).result
    {
      s := ToSigned32(s0 + 0x9E3779B9);
      var t := s;
      t := ToSigned32(Xor(t, Shr(Low(t, 32), 16)));
      t := ToSigned32(t * ToSigned32(0x85EBCA77));
      t := ToSigned32(Xor(t, Shr(Low(t, 32), 13)));
      t := ToSigned32(t * ToSigned32(0xC2B2AE3D));
      r := ToSigned32(Xor(t, Shr(Low(t, 32), 16)));
    }

    method Algo4(s0: int) returns (r: int)
      modifies this
      ensures s == Step4(s0).register && r == Step4(s0).result
    {
      s := ToSigned32(s0 + 0x6D2B79F5);
      var t := s;
      t := ToSigned32(Or(Shl(t, 7), Shr(Low(t, 32), 25)));
      t := ToSigned32(t + 0x9E3779B9);
      t := ToSigned32(Xor(t, Shr(Low(t, 32), 11)));
      r := ToSigned32(t * 0x27D4EB2D);
    }

    method Algo5(s0: int) returns (r: int)
      modifies this
      ensures s == Step5(s0).register && r == Step5(s0).result
    {
      var t := ToSigned32(Xor(s0, Shl(s0, 7)));
      t := ToSigned32(Xor(t, Shr(Low(t, 32), 9)));
      t := ToSigned32(Xor(t, Shl(t, 8)));
      s := ToSigned32(t + 0xA5A5A5A5);
      r := s;
    }

    method Algo6(s0: int) returns (r: int)
      modifies this
      ensures s == Step6(s0).register && r == Step6(s0).result
    {
      s := ToSigned32(s0 * ToSigned32(0x2C9277B5) + ToSigned32(0xAC564B05));
      var t := s;
      var t2 := ToSigned32(Xor(t, Shr(Low(t, 32), 18)));
      var shift := Low(Shr(Low(t, 32), 27), 5);
      r := ToSigned32(Shr(Low(t2, 32), shift));
    }

    method Algo7(s0: int) returns (r: int)
      modifies this
      ensures s == Step7(s0).register && r == Step7(s0).result
    {
      s := ToSigned32(s0 + ToSigned32(0x9E3779B9));
      var e := ToSigned32(Xor(s, Shl(s, 5)));
      e := ToSigned32(e * ToSigned32(0x7FEB352D));
      e := ToSigned32(Xor(e, Shr(Low(e, 32), 15)));
      r := ToSigned32(e * ToSigned32(0x846CA68B));
    }

    /** `__next__`: run the chosen algorithm on the register and yield the
        low byte of its result. */
    method Next() returns (b: int)
      requires Valid()
      modifies this
      ensures s == step(old(s)).register
      ensures b == LowByte(step(old(s)).result)
      ensures 0 <= b < 256
    {
      assert step(s) == StepFn(algorithm)(s);
      var r: int;
      match algorithm {
        case Lcg => r := Algo1(s);
        case Xorshift => r := Algo2(s);
        case AddFmix => r := Algo3(s);
        case AddRotateMix => r := Algo4(s);
        case XorshiftAdd => r := Algo5(s);
        case LcgVarShift => r := Algo6(s);
        case AddXorMix => r := Algo7(s);
      }
      b := LowByte(r);
    }
  }

  // ---------------------------------------------------------------------
  // Properties of the register
  // ---------------------------------------------------------------------

  /** Every algorithm leaves `to_signed_32` of something in the register. */
  lemma StepRegisterBounded(alg: Algorithm)
    ensures forall s :: -TWO32 < StepFn(alg)(s).register < TWO32
  {
    match alg
    case Lcg =>
    case Xorshift =>
    case AddFmix =>
    case AddRotateMix =>
    case XorshiftAdd =>
    case LcgVarShift =>
    case AddXorMix =>
  }

  /** Every register value lies in `to_signed_32`'s range (-2^32, 2^32). */
  lemma {:induction false} RegisterBounded(alg: Algorithm, seed: int, n: nat)
    ensures -TWO32 < RegisterAfter(StepFn(alg), ToSigned32(seed), n) < TWO32
  {
    if n > 0 {
      RegisterBounded(alg, seed, n - 1);
      StepRegisterBounded(alg);
    }
  }

  /** What stays in the register: algorithms 1, 2 and 5 store the value
      they return; 3, 4, 6 and 7 store only their first add or LCG step and
      return a value mixed from it without storing it. */
  lemma StoredRegister(alg: Algorithm, s: int)
    ensures alg.Lcg? || alg.Xorshift? || alg.XorshiftAdd? ==>
              StepFn(alg)(s).register == StepFn(alg)(s).result
    ensures alg.AddFmix? ==> StepFn(alg)(s).register == ToSigned32(s + 0x9E3779B9)
    ensures alg.AddRotateMix? ==> StepFn(alg)(s).register == ToSigned32(s + 0x6D2B79F5)
    ensures alg.LcgVarShift? ==>
              StepFn(alg)(s).register == ToSigned32(s * ToSigned32(0x2C9277B5) + ToSigned32(0xAC564B05))
    ensures alg.AddXorMix? ==> StepFn(alg)(s).register == ToSigned32(s + ToSigned32(0x9E3779B9))
  {
  }

  // ---------------------------------------------------------------------
  // The JavaScript reference: the same recurrences in 32-bit arithmetic
  // ---------------------------------------------------------------------

  /** `a + b | 0` */
  function JsAdd(a: int, b: int): (r: int) { ToInt32(a + b) }
  /** `Math.imul(a, b)` */
  function JsImul(a: int, b: int): (r: int) { ToInt32(ToInt32(a) * ToInt32(b)) }
  /** `a ^ b` */
  function JsXor(a: int, b: int): (r: int) { ToInt32(Xor(ToInt32(a), ToInt32(b))) }
  /** `a | b` */
  function JsOr(a: int, b: int): (r: int) { ToInt32(Or(ToInt32(a), ToInt32(b))) }
  /** `a << k` for 0 <= k < 32 */
  function JsShl(a: int, k: nat): (r: int) { ToInt32(Shl(ToInt32(a), k)) }
  /** `a >>> k` for 0 <= k < 32: the unsigned reading shifted right */
  function JsUshr(a: int, k: nat): (r: int) { Shr(Low(a, 32), k) }

  /** `s ^= s << k1; s ^= s >>> k2; s ^= s << k3` */
  function JsXorshiftRounds(s: int, k1: nat, k2: nat, k3: nat): int
  {
    var a := JsXor(s, JsShl(s, k1));
    var b := JsXor(a, JsUshr(a, k2));
    JsXor(b, JsShl(b, k3))
  }

  function JsStep1(s: int): Step
  {
    var r := JsAdd(JsImul(s, 1664525), 1013904223);
    Step(r, r)
  }

  function JsStep2(s: int): Step
  {
    var r := JsXorshiftRounds(s, 13, 17, 5);
    Step(r, r)
  }

  function JsStep3(s: int): Step
  {
    var r := JsAdd(s, 0x9E3779B9);
    var a := JsXor(r, JsUshr(r, 16));
    var b := JsImul(a, 0x85EBCA77);
    var c := JsXor(b, JsUshr(b, 13));
    var d := JsImul(c, 0xC2B2AE3D);
    Step(r, JsXor(d, JsUshr(d, 16)))
  }

  function JsStep4(s: int): Step
  {
    var r := JsAdd(s, 0x6D2B79F5);
    var a := JsOr(JsShl(r, 7), JsUshr(r, 25));
    var b := JsAdd(a, 0x9E3779B9);
    var c := JsXor(b, JsUshr(b, 11));
    Step(r, JsImul(c, 0x27D4EB2D))
  }

  function JsStep5(s: int): Step
  {
    var r := JsAdd(JsXorshiftRounds(s, 7, 9, 8), 0xA5A5A5A5);
    Step(r, r)
  }

  function JsStep6(s: int): Step
  {
    var r := JsAdd(JsImul(s, 0x2C9277B5), 0xAC564B05);
    var a := JsXor(r, JsUshr(r, 18));
    Step(r, ToInt32(JsUshr(a, Low(JsUshr(r, 27), 5))))
  }

  function JsStep7(s: int): Step
  {
    var r := JsAdd(s, 0x9E3779B9);
    var a := JsXor(r, JsShl(r, 5));
    var b := JsImul(a, 0x7FEB352D);
    var c := JsXor(b, JsUshr(b, 15));
    Step(r, JsImul(c, 0x846CA68B))
  }

  function JsStepFn(alg: Algorithm): int -> Step
  {
    match alg
    case Lcg => JsStep1
    case Xorshift => JsStep2
    case AddFmix => JsStep3
    case AddRotateMix => JsStep4
    case XorshiftAdd => JsStep5
    case LcgVarShift => JsStep6
    case AddXorMix => JsStep7
  }

  // Each Python operation lands on the residue of its JavaScript twin.

  lemma XorStep(a: int, b: int, c: int, d: int)
    requires Cong32(a, c) && Cong32(b, d)
    ensures Cong32(ToSigned32(Xor(a, b)), JsXor(c, d))
  {
    XorCong32(a, b, ToInt32(c), ToInt32(d));
  }

  lemma AddStep(a: int, c: int, k: int)
    requires Cong32(a, c)
    ensures Cong32(ToSigned32(a + k), JsAdd(c, k))
  {
    AddCong32(a, k, c, k);
  }

  lemma OrStep(a: int, b: int, c: int, d: int)
    requires Cong32(a, c) && Cong32(b, d)
    ensures Cong32(ToSigned32(Or(a, b)), JsOr(c, d))
  {
    OrCong32(a, b, ToInt32(c), ToInt32(d));
  }

  lemma MulStep(a: int, b: int, c: int, d: int)
    requires Cong32(a, c) && Cong32(b, d)
    ensures Cong32(ToSigned32(a * b), JsImul(c, d))
  {
    MulCong32(a, b, ToInt32(c), ToInt32(d));
  }

  lemma ShlStep(a: int, c: int, k: nat)
    requires Cong32(a, c)
    ensures Cong32(Shl(a, k), JsShl(c, k))
  {
    ShlCong32(a, ToInt32(c), k);
  }

  lemma UshrStep(a: int, c: int, k: nat)
    requires Cong32(a, c)
    ensures Shr(Low(a, 32), k) == JsUshr(c, k)
  {
    Low32OfCong(a, c);
  }

  /** `x ^ ((x & 0xFFFFFFFF) >> k)` against `x ^ (x >>> k)` */
  lemma XorUshrStep(a: int, c: int, k: nat)
    requires Cong32(a, c)
    ensures Cong32(ToSigned32(Xor(a, Shr(Low(a, 32), k))), JsXor(c, JsUshr(c, k)))
  {
    UshrStep(a, c, k);
    XorStep(a, Shr(Low(a, 32), k), c, JsUshr(c, k));
  }

  /** `x ^ (x << k)` against its JavaScript twin */
  lemma XorShlStep(a: int, c: int, k: nat)
    requires Cong32(a, c)
    ensures Cong32(ToSigned32(Xor(a, Shl(a, k))), JsXor(c, JsShl(c, k)))
  {
    ShlStep(a, c, k);
    XorStep(a, Shl(a, k), c, JsShl(c, k));
  }

  lemma LcgMatchesJs(s: int, j: int)
    requires Cong32(s, j)
    ensures Cong32(Step1(s).register, JsStep1(j).register)
    ensures Cong32(Step1(s).result, JsStep1(j).result)
  {
    MulStep(s, 1664525, j, 1664525);
    AddCong32(s * 1664525, 1013904223, JsImul(j, 1664525), 1013904223);
  }

  lemma XorshiftMatchesJs(s: int, j: int)
    requires Cong32(s, j)
    ensures Cong32(Step2(s).register, JsStep2(j).register)
    ensures Cong32(Step2(s).result, JsStep2(j).result)
  {
    XorshiftRoundsStep(s, j, 13, 17, 5);
  }

  lemma AddFmixMatchesJs(s: int, j: int)
    requires Cong32(s, j)
    ensures Cong32(Step3(s).register, JsStep3(j).register)
    ensures Cong32(Step3(s).result, JsStep3(j).result)
  {
    AddCong32(s, 0x9E3779B9, j, 0x9E3779B9);
    var r, jr := ToSigned32(s + 0x9E3779B9), JsAdd(j, 0x9E3779B9);
    XorUshrStep(r, jr, 16);
    var a, ja := ToSigned32(Xor(r, Shr(Low(r, 32), 16))), JsXor(jr, JsUshr(jr, 16));
    MulStep(a, ToSigned32(0x85EBCA77), ja, 0x85EBCA77);
    var b, jb := ToSigned32(a * ToSigned32(0x85EBCA77)), JsImul(ja, 0x85EBCA77);
    XorUshrStep(b, jb, 13);
    var c, jc := ToSigned32(Xor(b, Shr(Low(b, 32), 13))), JsXor(jb, JsUshr(jb, 13));
    MulStep(c, ToSigned32(0xC2B2AE3D), jc, 0xC2B2AE3D);
    var d, jd := ToSigned32(c * ToSigned32(0xC2B2AE3D)), JsImul(jc, 0xC2B2AE3D);
    XorUshrStep(d, jd, 16);
  }

  /** The rotation `(x << 7) | ((x & 0xFFFFFFFF) >> 25)` of algorithm 4. */
  lemma RotateStep(r: int, c: int)
    requires Cong32(r, c)
    ensures Cong32(ToSigned32(Or(Shl(r, 7), Shr(Low(r, 32), 25))), JsOr(JsShl(c, 7), JsUshr(c, 25)))
  {
    ShlStep(r, c, 7);
    UshrStep(r, c, 25);
    OrStep(Shl(r, 7), Shr(Low(r, 32), 25), JsShl(c, 7), JsUshr(c, 25));
  }

  /** The mixing tail of algorithm 4, after the rotation. */
  lemma RotateMixTail(a: int, ja: int)
    requires Cong32(a, ja)
    ensures
      var b, jb := ToSigned32(a + 0x9E3779B9), JsAdd(ja, 0x9E3779B9);
      var c, jc := ToSigned32(Xor(b, Shr(Low(b, 32), 11))), JsXor(jb, JsUshr(jb, 11));
      Cong32(ToSigned32(c * 0x27D4EB2D), JsImul(jc, 0x27D4EB2D))
  {
    AddCong32(a, 0x9E3779B9, ja, 0x9E3779B9);
    var b, jb := ToSigned32(a + 0x9E3779B9), JsAdd(ja, 0x9E3779B9);
    XorUshrStep(b, jb, 11);
    var c, jc := ToSigned32(Xor(b, Shr(Low(b, 32), 11))), JsXor(jb, JsUshr(jb, 11));
    MulStep(c, 0x27D4EB2D, jc, 0x27D4EB2D);
  }

  lemma AddRotateMixMatchesJs(s: int, j: int)
    requires Cong32(s, j)
    ensures Cong32(Step4(s).register, JsStep4(j).register)
    ensures Cong32(Step4(s).result, JsStep4(j).result)
  {
    AddStep(s, j, 0x6D2B79F5);
    AddRotateMixResult(ToSigned32(s + 0x6D2B79F5), JsAdd(j, 0x6D2B79F5));
  }

  /** Algorithm 4 after its first addition, from congruent registers. */
  lemma AddRotateMixResult(r: int, jr: int)
    requires Cong32(r, jr)
    ensures
      var a, ja := ToSigned32(Or(Shl(r, 7), Shr(Low(r, 32), 25))), JsOr(JsShl(jr, 7), JsUshr(jr, 25));
      var b, jb := ToSigned32(a + 0x9E3779B9), JsAdd(ja, 0x9E3779B9);
      var c, jc := ToSigned32(Xor(b, Shr(Low(b, 32), 11))), JsXor(jb, JsUshr(jb, 11));
      Cong32(ToSigned32(c * 0x27D4EB2D), JsImul(jc, 0x27D4EB2D))
  {
    RotateStep(r, jr);
    RotateMixTail(ToSigned32(Or(Shl(r, 7), Shr(Low(r, 32), 25))), JsOr(JsShl(jr, 7), JsUshr(jr, 25)));
  }

  /** The shared xorshift rounds against their JavaScript twin. */
  lemma XorshiftRoundsStep(s: int, j: int, k1: nat, k2: nat, k3: nat)
    requires Cong32(s, j)
    ensures Cong32(XorshiftRounds(s, k1, k2, k3), JsXorshiftRounds(j, k1, k2, k3))
  {
    XorShlStep(s, j, k1);
    var a, ja := ToSigned32(Xor(s, Shl(s, k1))), JsXor(j, JsShl(j, k1));
    XorUshrStep(a, ja, k2);
    var b, jb := ToSigned32(Xor(a, Shr(Low(a, 32), k2))), JsXor(ja, JsUshr(ja, k2));
    XorShlStep(b, jb, k3);
  }

  lemma XorshiftAddMatchesJs(s: int, j: int)
    requires Cong32(s, j)
    ensures Cong32(Step5(s).register, JsStep5(j).register)
    ensures Cong32(Step5(s).result, JsStep5(j).result)
  {
    XorshiftRoundsStep(s, j, 7, 9, 8);
    AddStep(XorshiftRounds(s, 7, 9, 8), JsXorshiftRounds(j, 7, 9, 8), 0xA5A5A5A5);
  }

  lemma LcgVarShiftMatchesJs(s: int, j: int)
    requires Cong32(s, j)
    ensures Cong32(Step6(s).register, JsStep6(j).register)
    ensures Cong32(Step6(s).result, JsStep6(j).result)
  {
    MulStep(s, ToSigned32(0x2C9277B5), j, 0x2C9277B5);
    AddCong32(s * ToSigned32(0x2C9277B5), ToSigned32(0xAC564B05), JsImul(j, 0x2C9277B5), 0xAC564B05);
    var r, jr := ToSigned32(s * ToSigned32(0x2C9277B5) + ToSigned32(0xAC564B05)), JsAdd(JsImul(j, 0x2C9277B5), 0xAC564B05);
    XorUshrStep(r, jr, 18);
    var a, ja := ToSigned32(Xor(r, Shr(Low(r, 32), 18))), JsXor(jr, JsUshr(jr, 18));
    UshrStep(r, jr, 27);
    UshrStep(a, ja, ShiftAmount(r));
  }

  lemma AddXorMixMatchesJs(s: int, j: int)
    requires Cong32(s, j)
    ensures Cong32(Step7(s).register, JsStep7(j).register)
    ensures Cong32(Step7(s).result, JsStep7(j).result)
  {
    AddCong32(s, ToSigned32(0x9E3779B9), j, 0x9E3779B9);
    var r, jr := ToSigned32(s + ToSigned32(0x9E3779B9)), JsAdd(j, 0x9E3779B9);
    XorShlStep(r, jr, 5);
    var a, ja := ToSigned32(Xor(r, Shl(r, 5))), JsXor(jr, JsShl(jr, 5));
    MulStep(a, ToSigned32(0x7FEB352D), ja, 0x7FEB352D);
    var b, jb := ToSigned32(a * ToSigned32(0x7FEB352D)), JsImul(ja, 0x7FEB352D);
    XorUshrStep(b, jb, 15);
    var c, jc := ToSigned32(Xor(b, Shr(Low(b, 32), 15))), JsXor(jb, JsUshr(jb, 15));
    MulStep(c, ToSigned32(0x846CA68B), jc, 0x846CA68B);
  }

  /** Two step functions agree when registers congruent modulo 2^32 give
      congruent registers and congruent results. */
  ghost predicate StepsAgree(f: int -> Step, g: int -> Step)
  {
    forall x, y :: Cong32(x, y) ==> Cong32(f(x).register, g(y).register) && Cong32(f(x).result, g(y).result)
  }

  /** Every algorithm agrees with its JavaScript twin. */
  lemma AlgorithmMatchesJs(alg: Algorithm)
    ensures StepsAgree(StepFn(alg), JsStepFn(alg))
  {
    match alg
    case Lcg =>
      forall x, y | Cong32(x, y) { LcgMatchesJs(x, y); }
    case Xorshift =>
      forall x, y | Cong32(x, y) { XorshiftMatchesJs(x, y); }
    case AddFmix =>
      forall x, y | Cong32(x, y) { AddFmixMatchesJs(x, y); }
    case AddRotateMix =>
      forall x, y | Cong32(x, y) { AddRotateMixMatchesJs(x, y); }
    case XorshiftAdd =>
      forall x, y | Cong32(x, y) { XorshiftAddMatchesJs(x, y); }
    case LcgVarShift =>
      forall x, y | Cong32(x, y) { LcgVarShiftMatchesJs(x, y); }
    case AddXorMix =>
      forall x, y | Cong32(x, y) { AddXorMixMatchesJs(x, y); }
  }

  /** Agreeing step functions keep their registers congruent. */
  lemma {:induction false} RegistersAgree(f: int -> Step, g: int -> Step, s0: int, j0: int, n: nat)
    requires StepsAgree(f, g) && Cong32(s0, j0)
    ensures Cong32(RegisterAfter(f, s0, n), RegisterAfter(g, j0, n))
  {
    if n > 0 {
      RegistersAgree(f, g, s0, j0, n - 1);
    }
  }

  /** Agreeing step functions yield the same bytes. */
  lemma KeystreamsAgree(f: int -> Step, g: int -> Step, s0: int, j0: int, n: nat)
    requires StepsAgree(f, g) && Cong32(s0, j0)
    ensures Keystream(f, s0, n) == Keystream(g, j0, n)
  {
    forall i | 0 <= i < n
      ensures Keystream(f, s0, n)[i] == Keystream(g, j0, n)[i]
    {
      RegistersAgree(f, g, s0, j0, i);
      var s, j := RegisterAfter(f, s0, i), RegisterAfter(g, j0, i);
      LowByteOfCong(f(s).result, g(j).result);
    }
  }

  /** The generator yields the same bytes as the JavaScript one started
      from any register with the same low 32 bits. */
  lemma KeystreamMatchesJs(alg: Algorithm, s0: int, j0: int, n: nat)
    requires Cong32(s0, j0)
    ensures Keystream(StepFn(alg), s0, n) == Keystream(JsStepFn(alg), j0, n)
  {
    AlgorithmMatchesJs(alg);
    KeystreamsAgree(StepFn(alg), JsStepFn(alg), s0, j0, n);
  }

  /** The bytes depend on the seed only through its residue modulo 2^32:
      `to_signed_32` could be any normalisation that keeps the residue,
      including JavaScript's ToInt32. */
  lemma KeystreamDependsOnResidue(alg: Algorithm, seed: int, seed': int, n: nat)
    requires Cong32(seed, seed')
    ensures Keystream(StepFn(alg), ToSigned32(seed), n) == Keystream(StepFn(alg), ToSigned32(seed'), n)
    ensures Keystream(StepFn(alg), ToSigned32(seed), n) == Keystream(JsStepFn(alg), ToInt32(seed), n)
  {
    KeystreamMatchesJs(alg, ToSigned32(seed), ToInt32(seed), n);
    KeystreamMatchesJs(alg, ToSigned32(seed'), ToInt32(seed), n);
  }
}
