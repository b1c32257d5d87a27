/** CNktDvFunctionParamsCache: where the result and the parameters of a hooked call live.

Two walks over a signature are modelled for each processor: GetStackUsage, which only counts, and
PreCall_AssignAddresses, which gives every parameter an address. The words the second one finds
on the stack are saved before the call and put back after it.
*/
module ParamsLayout {
  import opened Bits
  import opened Options

  type Byte = bv8

  datatype Class = clsFundamental | clsStruct | clsUnion | clsOther

  datatype Convention = ccThisCall | ccFastCall | ccOther

  /** GetSize counts bits; `floating` is about the fundamental types float, double and long double. */
  datatype DbObject = DbObject(cls: Class, floating: bool, size: nat,
                               ctor: bool, dtor: bool, virt: bool, inh: bool)

  datatype Function = Function(conv: Convention, result: DbObject, items: seq<DbObject>)

  datatype Register =
    | asmRegNone
    | asmRegRax | asmRegRcx | asmRegRdx | asmRegR8 | asmRegR9
    | asmRegXmm0 | asmRegXmm1 | asmRegXmm2 | asmRegXmm3
    | asmRegEax | asmRegEaxEdxPair | asmRegEcx | asmRegEdx | asmRegSt0

  /** An address is a place in a saved register block, or one in the memory of the process. */
  datatype Location = InBlock(block: nat, reg: Register) | At(address: nat)

  datatype Slot = Slot(reg: Register, at: Location)

  ghost predicate WellFormed(f: Function, word: nat) {
    f.result.size < word && forall i :: 0 <= i < |f.items| ==> f.items[i].size < word
  }

  predicate IsAggregate(o: DbObject) {
    o.cls == clsStruct || o.cls == clsUnion
  }

  predicate IsFloating(o: DbObject) {
    o.cls == clsFundamental && o.floating
  }

  /** (GetSize() + 7) >> 3 in a word of the processor. */
  function ArgSize(o: DbObject, word: nat): nat
    requires word > 0
  {
    (o.size + 7) % word / 8
  }

  function AlignedTo(n: nat, unit: nat): nat
    requires unit > 0
  {
    (n + unit - 1) / unit * unit
  }

  lemma WrapAdd64(a: nat, b: nat)
    ensures (a % SIZE_LIMIT + b) % SIZE_LIMIT == (a + b) % SIZE_LIMIT
  {
  }

  lemma WrapAdd32(a: nat, b: nat)
    ensures (a % DWORD_LIMIT + b) % DWORD_LIMIT == (a + b) % DWORD_LIMIT
  {
  }

  // --- x64

  /** k > 0 && ((k & (~k + 1)) != k */
  predicate NotPowerOfTwo(k: nat)
    requires k < SIZE_LIMIT
  {
    k > 0 && And(k, SIZE_LIMIT - k) != k
  }

  lemma NotPowerOfTwoMeans(k: nat)
    requires k < SIZE_LIMIT
    ensures NotPowerOfTwo(k) <==> k > 0 && !IsPowerOfTwo(k)
  {
    Pow2Of64();
    if k > 0 {
      LowestBitTest(k, 64);
      forall e: nat ensures k == Pow2(e) ==> k == Pow2(BitScanReverse(k)) {
        if k == Pow2(e) {
          PowMono(e, BitScanReverse(k), k);
          assert Pow2(BitScanReverse(k)) < 2 * Pow2(e);
          PowMono(BitScanReverse(k), e, Pow2(BitScanReverse(k)));
        }
      }
    }
  }

  lemma Pow2Of64()
    ensures Pow2(64) == SIZE_LIMIT
  {
    hide Pow2;
    Pow2Of8();
    Pow2Sum(8, 8);
    Pow2Sum(16, 16);
    Pow2Sum(32, 32);
  }

  lemma Pow2Of8()
    ensures Pow2(8) == 256
  {
    assert Pow2(4) == 16;
  }

  lemma {:induction false} Pow2Sum(a: nat, b: nat)
    ensures Pow2(a + b) == Pow2(a) * Pow2(b)
  {
    if b > 0 {
      Pow2Sum(a, b - 1);
      assert Pow2(a + b) == 2 * Pow2(a + (b - 1));
    }
  }

  /** Results whose address the caller passes in rcx. */
  predicate ResultByRcx(o: DbObject)
    requires o.size < SIZE_LIMIT
  {
    (IsAggregate(o) && (o.ctor || o.dtor || o.virt || o.inh)) || NotPowerOfTwo(o.size)
  }

  /** What the result takes on the stack. */
  function ResultBytes64(o: DbObject): nat
    requires o.size < SIZE_LIMIT
  {
    if ResultByRcx(o) || IsFloating(o) || ArgSize(o, SIZE_LIMIT) <= 8 then 0 else AlignedTo(ArgSize(o, SIZE_LIMIT), 8)
  }

  /** Parameters passed by address. */
  predicate ByReference(o: DbObject)
    requires o.size < SIZE_LIMIT
  {
    (IsAggregate(o) && (o.virt || o.inh)) || NotPowerOfTwo(o.size) || ArgSize(o, SIZE_LIMIT) > 8
  }

  /** The number of positions the result takes before the first parameter. */
  function First(f: Function): nat
    requires WellFormed(f, SIZE_LIMIT)
  {
    if ResultByRcx(f.result) then 1 else 0
  }

  /** The stack taken by the first n positions: four of them are registers. */
  function StackBytes(n: nat): nat {
    if n > 4 then 8 * (n - 4) else 0
  }

  /** The bytes of the stack that the result and the parameters from position 4 on take. */
  function StackUsage64(f: Function): nat
    requires WellFormed(f, SIZE_LIMIT)
  {
    ResultBytes64(f.result) + StackBytes(|f.items| + First(f))
  }

  function IntRegister(n: nat): Register {
    if n == 0 then asmRegRcx else if n == 1 then asmRegRdx else if n == 2 then asmRegR8 else asmRegR9
  }

  function FloatRegister(n: nat): Register {
    if n == 0 then asmRegXmm0 else if n == 1 then asmRegXmm1 else if n == 2 then asmRegXmm2 else asmRegXmm3
  }

  /** What the hook saw of the processor: where the block of registers is, and two of them. */
  datatype Registers = Registers(block: nat, sp: nat, cx: nat)

  function ParamSlot64(f: Function, i: nat, regs: Registers): Slot
    requires WellFormed(f, SIZE_LIMIT) && i < |f.items|
  {
    var n := i + First(f);
    if n >= 4 then Slot(asmRegNone, At((regs.sp + 40 + ResultBytes64(f.result) + StackBytes(n)) % SIZE_LIMIT))
    else
      var r := if IsFloating(f.items[i]) && !ByReference(f.items[i]) then FloatRegister(n) else IntRegister(n);
      Slot(r, InBlock(regs.block, r))
  }

  function ResultSlot64(f: Option<Function>, regs: Registers): Slot
    requires f.Some? ==> WellFormed(f.value, SIZE_LIMIT)
  {
    if f.None? then Slot(asmRegRax, InBlock(regs.block, asmRegRax))
    else
      var o := f.value.result;
      if ResultByRcx(o) then Slot(asmRegRcx, At(regs.cx))
      else if IsFloating(o) then Slot(asmRegXmm0, InBlock(regs.block, asmRegXmm0))
      else if ArgSize(o, SIZE_LIMIT) > 8 then Slot(asmRegNone, At((regs.sp + 40) % SIZE_LIMIT))
      else Slot(asmRegRax, InBlock(regs.block, asmRegRax))
  }

  class CNktDvParam {
    var nInternalAsmRegisterIndex: Register
    var lpAddress: Location
    var nOriginalStackValue: seq<Byte>

    ghost function Place(): Slot
      reads this
    {
      Slot(nInternalAsmRegisterIndex, lpAddress)
    }
  }

  datatype FunctionParams = FunctionParams(cResult: CNktDvParam, cParameters: seq<CNktDvParam>) {
    ghost function Objects(): set<CNktDvParam> {
      {cResult} + set p | p in cParameters
    }

    ghost predicate Distinct() {
      cResult !in cParameters && forall i, j :: 0 <= i < j < |cParameters| ==> cParameters[i] != cParameters[j]
    }
  }

  method GetStackUsage64(f: Function) returns (nStackUsage: nat)
    requires WellFormed(f, SIZE_LIMIT)
    ensures nStackUsage == StackUsage64(f) % SIZE_LIMIT
  {
    hide ResultBytes64, First, ByReference;
    var nTempFlags: nat;
    nStackUsage, nTempFlags := ResultUsage64(f);
    ghost var bytes, first := ResultBytes64(f.result), First(f);
    var i := 0;
    while i < |f.items|
      invariant 0 <= i <= |f.items|
      invariant nTempFlags == i + first
      invariant nStackUsage == (bytes + StackBytes(nTempFlags)) % SIZE_LIMIT
    {
      var p := f.items[i];
      if ByReference(p) {
        if nTempFlags >= 4 {
          WrapAdd64(bytes + StackBytes(nTempFlags), 8);
          nStackUsage := (nStackUsage + 8) % SIZE_LIMIT;
        }
      } else if nTempFlags >= 4 {
        WrapAdd64(bytes + StackBytes(nTempFlags), 8);
        nStackUsage := (nStackUsage + 8) % SIZE_LIMIT;
      }
      nTempFlags := nTempFlags + 1;
      i := i + 1;
    }
  }

  /** The part for the result. */
  method ResultUsage64(f: Function) returns (nStackUsage: nat, nTempFlags: nat)
    requires WellFormed(f, SIZE_LIMIT)
    ensures nStackUsage == ResultBytes64(f.result) % SIZE_LIMIT && nTempFlags == First(f) <= 1
  {
    hide NotPowerOfTwo, AlignedTo;
    nStackUsage, nTempFlags := 0, 0;
    var o := f.result;
    if IsAggregate(o) && (o.ctor || o.dtor || o.virt || o.inh) {
      nTempFlags := 1;
    } else if NotPowerOfTwo(o.size) {
      nTempFlags := 1;
    } else if IsFloating(o) {
    } else if ArgSize(o, SIZE_LIMIT) > 8 {
      nStackUsage := AlignedTo(ArgSize(o, SIZE_LIMIT), 8) % SIZE_LIMIT;
    }
  }

  /** Gives the result and every parameter its place; nSP ends where the arguments end, as far as
      GetStackUsage says from the start. */
  method PreCallAssignAddresses64(lpItem: FunctionParams, f: Option<Function>, regs: Registers) returns (nSP: nat)
    requires lpItem.Distinct()
    requires f.Some? ==> WellFormed(f.value, SIZE_LIMIT) && |f.value.items| == |lpItem.cParameters|
    modifies lpItem.Objects()
    ensures nSP == (regs.sp + 40 + if f.Some? then StackUsage64(f.value) else 0) % SIZE_LIMIT
    ensures lpItem.cResult.Place() == ResultSlot64(f, regs)
    ensures f.Some? ==> forall i :: 0 <= i < |lpItem.cParameters| ==>
      lpItem.cParameters[i].Place() == ParamSlot64(f.value, i, regs)
  {
    hide NotPowerOfTwo, ByReference, AlignedTo, ResultByRcx, ResultBytes64, ResultSlot64, ParamSlot64;
    nSP := (regs.sp + 40) % SIZE_LIMIT;
    var nTempFlags := 0;
    if f.None? {
      NoFunction64(regs);
      SetPlace(lpItem.cResult, Slot(asmRegRax, InBlock(regs.block, asmRegRax)));
      return;
    }
    nSP, nTempFlags := AssignResult64(lpItem.cResult, f.value, regs);
    ghost var bytes := ResultBytes64(f.value.result);
    var i := 0;
    while i < |lpItem.cParameters|
      invariant 0 <= i <= |lpItem.cParameters|
      invariant nTempFlags == i + First(f.value)
      invariant nSP == (regs.sp + 40 + bytes + StackBytes(nTempFlags)) % SIZE_LIMIT
      invariant lpItem.cResult.Place() == ResultSlot64(f, regs)
      invariant forall j :: 0 <= j < i ==> lpItem.cParameters[j].Place() == ParamSlot64(f.value, j, regs)
    {
      nSP := AssignParam64(lpItem.cParameters[i], f.value, i, nTempFlags, nSP, regs);
      nTempFlags := nTempFlags + 1;
      i := i + 1;
    }
  }

  /** The part for parameter i. */
  method AssignParam64(cParam: CNktDvParam, f: Function, i: nat, nTempFlags: nat, sp: nat, regs: Registers)
    returns (nSP: nat)
    requires WellFormed(f, SIZE_LIMIT) && i < |f.items| && nTempFlags == i + First(f)
    requires sp == (regs.sp + 40 + ResultBytes64(f.result) + StackBytes(nTempFlags)) % SIZE_LIMIT
    modifies cParam
    ensures cParam.Place() == ParamSlot64(f, i, regs)
    ensures nSP == (regs.sp + 40 + ResultBytes64(f.result) + StackBytes(nTempFlags + 1)) % SIZE_LIMIT
  {
    hide NotPowerOfTwo, ByReference, ResultByRcx, ResultBytes64;
    var p := f.items[i];
    nSP := sp;
    if nTempFlags < 4 {
      var r := if ByReference(p) then IntRegister(nTempFlags)
               else if IsFloating(p) then FloatRegister(nTempFlags)
               else IntRegister(nTempFlags);
      SetPlace(cParam, Slot(r, InBlock(regs.block, r)));
    } else {
      SetPlace(cParam, Slot(asmRegNone, At(nSP)));
      WrapAdd64(regs.sp + 40 + ResultBytes64(f.result) + StackBytes(nTempFlags), 8);
      nSP := (nSP + 8) % SIZE_LIMIT;
    }
  }

  lemma NoFunction64(regs: Registers)
    ensures ResultSlot64(None, regs) == Slot(asmRegRax, InBlock(regs.block, asmRegRax))
  {
  }

  /** The part for the result. */
  method AssignResult64(cResult: CNktDvParam, f: Function, regs: Registers) returns (nSP: nat, nTempFlags: nat)
    requires WellFormed(f, SIZE_LIMIT)
    modifies cResult
    ensures cResult.Place() == ResultSlot64(Some(f), regs) &&
        cResult.nOriginalStackValue == old(cResult.nOriginalStackValue)
    ensures nSP == (regs.sp + 40 + ResultBytes64(f.result)) % SIZE_LIMIT
    ensures nTempFlags == First(f)
  {
    hide NotPowerOfTwo, AlignedTo;
    nSP := (regs.sp + 40) % SIZE_LIMIT;
    nTempFlags := 0;
    var o := f.result;
    if (IsAggregate(o) && (o.ctor || o.dtor || o.virt || o.inh)) || NotPowerOfTwo(o.size) {
      nTempFlags := 1;
      SetPlace(cResult, Slot(asmRegRcx, At(regs.cx)));
    } else if IsFloating(o) {
      SetPlace(cResult, Slot(asmRegXmm0, InBlock(regs.block, asmRegXmm0)));
    } else if ArgSize(o, SIZE_LIMIT) > 8 {
      SetPlace(cResult, Slot(asmRegNone, At(nSP)));
      WrapAdd64(regs.sp + 40, AlignedTo(ArgSize(o, SIZE_LIMIT), 8));
      nSP := (nSP + AlignedTo(ArgSize(o, SIZE_LIMIT), 8)) % SIZE_LIMIT;
    } else {
      SetPlace(cResult, Slot(asmRegRax, InBlock(regs.block, asmRegRax)));
    }
  }

  method SetPlace(p: CNktDvParam, s: Slot)
    modifies p
    ensures p.Place() == s && p.nOriginalStackValue == old(p.nOriginalStackValue)
  {
    p.nInternalAsmRegisterIndex, p.lpAddress := s.reg, s.at;
  }

  /** No register is given to two parameters, nor rcx to a parameter when the result has it. */
  lemma RegistersUsedOnce64(f: Function, regs: Registers, i: nat, j: nat)
    requires WellFormed(f, SIZE_LIMIT) && i < j < |f.items|
    ensures var r, s := ParamSlot64(f, i, regs).reg, ParamSlot64(f, j, regs).reg; r != s || r == asmRegNone
    ensures ResultByRcx(f.result) ==>
      ParamSlot64(f, j, regs).reg != asmRegRcx && ParamSlot64(f, i, regs).reg != asmRegRcx
  {
    hide NotPowerOfTwo;
  }

  ghost predicate OnStack(s: Slot) {
    s.reg == asmRegNone && s.at.At?
  }

  /** When the stack does not wrap around, the words of the stack parameters and the bytes of the
      result are disjoint, in order, and fill the space StackUsage64 counts. */
  lemma StackSlotsDisjoint64(f: Function, regs: Registers, i: nat, j: nat)
    requires WellFormed(f, SIZE_LIMIT) && i < j < |f.items|
    requires regs.sp + 40 + StackUsage64(f) <= SIZE_LIMIT
    requires OnStack(ParamSlot64(f, i, regs))
    ensures OnStack(ParamSlot64(f, j, regs))
    ensures var base := regs.sp + 40;
      base + ResultBytes64(f.result) <= ParamSlot64(f, i, regs).at.address
    ensures ParamSlot64(f, i, regs).at.address + 8 <= ParamSlot64(f, j, regs).at.address
    ensures ParamSlot64(f, j, regs).at.address + 8 <= regs.sp + 40 + StackUsage64(f)
    ensures j == |f.items| - 1 ==> ParamSlot64(f, j, regs).at.address + 8 == regs.sp + 40 + StackUsage64(f)
    ensures OnStack(ResultSlot64(Some(f), regs)) ==> ResultSlot64(Some(f), regs).at.address == regs.sp + 40
  {
    hide ByReference, ResultByRcx, ResultBytes64, ParamSlot64, First;
    SlotAddress64(f, regs, i);
    SlotAddress64(f, regs, j);
  }

  lemma SlotAddress64(f: Function, regs: Registers, i: nat)
    requires WellFormed(f, SIZE_LIMIT) && i < |f.items| && regs.sp + 40 + StackUsage64(f) <= SIZE_LIMIT
    ensures var n := i + First(f);
      && (OnStack(ParamSlot64(f, i, regs)) <==> n >= 4)
      && (n >= 4 ==>
            ParamSlot64(f, i, regs).at.address == regs.sp + 40 + ResultBytes64(f.result) + 8 * (n - 4))
  {
    hide ByReference, ResultByRcx, ResultBytes64, First;
  }

  // --- x86

  /** The register an argument takes; nTempFlags says whether ecx (1) and edx (2) are taken. */
  function ParamRegister32(conv: Convention, o: DbObject, ecx: bool, edx: bool): Register {
    if conv == ccThisCall && !ecx then asmRegEcx
    else if conv == ccFastCall && ArgSize(o, DWORD_LIMIT) <= 4 && !(ecx && edx) then
      if !ecx then asmRegEcx else asmRegEdx
    else asmRegNone
  }

  /** Fast-call results that are reached through ecx. */
  predicate ResultByEcx(f: Function) {
    f.conv == ccFastCall && IsAggregate(f.result) && (f.result.ctor || f.result.dtor || f.result.virt || f.result.inh)
  }

  /** Results that the stack carries, or a pointer to them. */
  predicate ResultOnStack32(f: Function) {
    !ResultByEcx(f) && !IsFloating(f.result) && ArgSize(f.result, DWORD_LIMIT) > 8
  }

  /** Whether ecx and edx are taken before argument i. */
  function Taken32(f: Function, i: nat): (bool, bool)
    requires i <= |f.items|
  {
    if i == 0 then (ResultByEcx(f), false)
    else
      var t := Taken32(f, i - 1);
      var r := ParamRegister32(f.conv, f.items[i - 1], t.0, t.1);
      (t.0 || r == asmRegEcx, t.1 || r == asmRegEdx)
  }

  function Register32(f: Function, i: nat): Register
    requires i < |f.items|
  {
    ParamRegister32(f.conv, f.items[i], Taken32(f, i).0, Taken32(f, i).1)
  }

  function Rounded32(o: DbObject): nat {
    AlignedTo(ArgSize(o, DWORD_LIMIT), 4)
  }

  /** The stack that the arguments before number i take. */
  function Before32(f: Function, i: nat): nat
    requires i <= |f.items|
  {
    if i == 0 then 0
    else Before32(f, i - 1) + if Register32(f, i - 1) == asmRegNone then Rounded32(f.items[i - 1]) else 0
  }

  function ParamSlot32(f: Function, i: nat, regs: Registers): Slot
    requires i < |f.items|
  {
    var r := Register32(f, i);
    if r == asmRegNone then Slot(r, At((regs.sp + 4 + ResultBytes32(f) + Before32(f, i)) % DWORD_LIMIT))
    else Slot(r, InBlock(regs.block, r))
  }

  /** What GetStackUsage counts: four bytes for a result on the stack. */
  function StackUsage32(f: Function): nat {
    (if ResultOnStack32(f) then 4 else 0) + Before32(f, |f.items|)
  }

  /** What PreCall_AssignAddresses advances: the whole size of a result on the stack. */
  function ResultBytes32(f: Function): nat {
    if ResultOnStack32(f) then Rounded32(f.result) else 0
  }

  function Advance32(f: Function): nat {
    ResultBytes32(f) + Before32(f, |f.items|)
  }

  function ResultSlot32(f: Option<Function>, regs: Registers): Slot {
    if f.None? then Slot(asmRegEax, InBlock(regs.block, asmRegEax))
    else if ResultByEcx(f.value) then Slot(asmRegNone, At(regs.cx))
    else if IsFloating(f.value.result) then Slot(asmRegSt0, InBlock(regs.block, asmRegSt0))
    else if ArgSize(f.value.result, DWORD_LIMIT) > 8 then Slot(asmRegNone, At((regs.sp + 4) % DWORD_LIMIT))
    else if ArgSize(f.value.result, DWORD_LIMIT) <= 4 then Slot(asmRegEax, InBlock(regs.block, asmRegEax))
    else Slot(asmRegEaxEdxPair, InBlock(regs.block, asmRegEax))
  }

  method GetStackUsage32(f: Function) returns (nStackUsage: nat)
    requires WellFormed(f, DWORD_LIMIT)
    ensures nStackUsage == StackUsage32(f) % DWORD_LIMIT
  {
    hide ArgSize, Rounded32, ParamRegister32, ResultOnStack32, ResultByEcx, Taken32, Before32;
    var ecx, edx := false, false;
    nStackUsage, ecx := ResultUsage32(f);
    ghost var start := nStackUsage;
    NothingBefore32(f);
    var i := 0;
    while i < |f.items|
      invariant 0 <= i <= |f.items|
      invariant (ecx, edx) == Taken32(f, i)
      invariant nStackUsage == (start + Before32(f, i)) % DWORD_LIMIT
    {
      var p := f.items[i];
      NextArgument32(f, i);
      var r := AssignRegister32(f.conv, p, ecx, edx);
      if r == asmRegNone {
        WrapAdd32(start + Before32(f, i), Rounded32(p));
        nStackUsage := (nStackUsage + Rounded32(p)) % DWORD_LIMIT;
      }
      ecx, edx := ecx || r == asmRegEcx, edx || r == asmRegEdx;
      i := i + 1;
    }
  }

  lemma NothingBefore32(f: Function)
    ensures Taken32(f, 0) == (ResultByEcx(f), false) && Before32(f, 0) == 0
  {
  }

  lemma NextArgument32(f: Function, i: nat)
    requires i < |f.items|
    ensures var t := Taken32(f, i);
      var r := ParamRegister32(f.conv, f.items[i], t.0, t.1);
      && Taken32(f, i + 1) == (t.0 || r == asmRegEcx, t.1 || r == asmRegEdx)
      && Before32(f, i + 1) == Before32(f, i) + if r == asmRegNone then Rounded32(f.items[i]) else 0
  {
  }

  /** The part for the result. */
  method ResultUsage32(f: Function) returns (nStackUsage: nat, ecx: bool)
    ensures nStackUsage == (if ResultOnStack32(f) then 4 else 0) && ecx == ResultByEcx(f)
  {
    nStackUsage, ecx := 0, false;
    if f.conv == ccFastCall && IsAggregate(f.result) &&
        (f.result.ctor || f.result.dtor || f.result.virt || f.result.inh) {
      ecx := true;
    } else if IsFloating(f.result) {
    } else if ArgSize(f.result, DWORD_LIMIT) > 8 {
      nStackUsage := 4;
    }
  }

  method PreCallAssignAddresses32(lpItem: FunctionParams, f: Option<Function>, regs: Registers) returns (nSP: nat)
    requires lpItem.Distinct()
    requires f.Some? ==> WellFormed(f.value, DWORD_LIMIT) && |f.value.items| == |lpItem.cParameters|
    modifies lpItem.Objects()
    ensures nSP == (regs.sp + 4 + if f.Some? then Advance32(f.value) else 0) % DWORD_LIMIT
    ensures lpItem.cResult.Place() == ResultSlot32(f, regs)
    ensures f.Some? ==> forall i :: 0 <= i < |lpItem.cParameters| ==>
      lpItem.cParameters[i].Place() == ParamSlot32(f.value, i, regs)
  {
    hide ArgSize, Rounded32, ParamRegister32, ResultSlot32, ResultBytes32, ParamSlot32, ResultByEcx, Taken32, Before32;
    nSP := (regs.sp + 4) % DWORD_LIMIT;
    var ecx, edx := false, false;
    if f.None? {
      NoFunction32(regs);
      SetPlace(lpItem.cResult, Slot(asmRegEax, InBlock(regs.block, asmRegEax)));
      return;
    }
    nSP, ecx := AssignResult32(lpItem.cResult, f.value, regs);
    ghost var start := regs.sp + 4 + ResultBytes32(f.value);
    NothingBefore32(f.value);
    var i := 0;
    while i < |lpItem.cParameters|
      invariant 0 <= i <= |lpItem.cParameters|
      invariant (ecx, edx) == Taken32(f.value, i)
      invariant nSP == (start + Before32(f.value, i)) % DWORD_LIMIT
      invariant lpItem.cResult.Place() == ResultSlot32(f, regs)
      invariant forall j :: 0 <= j < i ==> lpItem.cParameters[j].Place() == ParamSlot32(f.value, j, regs)
    {
      ecx, edx, nSP := AssignParam32(lpItem.cParameters[i], f.value, i, ecx, edx, nSP, regs);
      i := i + 1;
    }
  }

  /** The part for parameter i. */
  method AssignParam32(cParam: CNktDvParam, f: Function, i: nat, takenEcx: bool, takenEdx: bool, sp: nat,
                       regs: Registers)
    returns (ecx: bool, edx: bool, nSP: nat)
    requires i < |f.items| && (takenEcx, takenEdx) == Taken32(f, i)
    requires sp == (regs.sp + 4 + ResultBytes32(f) + Before32(f, i)) % DWORD_LIMIT
    modifies cParam
    ensures cParam.Place() == ParamSlot32(f, i, regs)
    ensures (ecx, edx) == Taken32(f, i + 1)
    ensures nSP == (regs.sp + 4 + ResultBytes32(f) + Before32(f, i + 1)) % DWORD_LIMIT
  {
    hide ArgSize, Rounded32, ParamRegister32, ResultByEcx, ResultBytes32;
    var p := f.items[i];
    nSP := sp;
    var r := AssignRegister32(f.conv, p, takenEcx, takenEdx);
    if r != asmRegNone {
      SetPlace(cParam, Slot(r, InBlock(regs.block, r)));
    } else {
      SetPlace(cParam, Slot(asmRegNone, At(nSP)));
      WrapAdd32(regs.sp + 4 + ResultBytes32(f) + Before32(f, i), Rounded32(p));
      nSP := (nSP + Rounded32(p)) % DWORD_LIMIT;
    }
    ecx, edx := takenEcx || r == asmRegEcx, takenEdx || r == asmRegEdx;
  }

  lemma NoFunction32(regs: Registers)
    ensures ResultSlot32(None, regs) == Slot(asmRegEax, InBlock(regs.block, asmRegEax))
  {
  }

  /** The part for the result. */
  method AssignResult32(cResult: CNktDvParam, f: Function, regs: Registers) returns (nSP: nat, ecx: bool)
    modifies cResult
    ensures cResult.Place() == ResultSlot32(Some(f), regs) &&
        cResult.nOriginalStackValue == old(cResult.nOriginalStackValue)
    ensures nSP == (regs.sp + 4 + ResultBytes32(f)) % DWORD_LIMIT
    ensures ecx == ResultByEcx(f)
  {
    hide ArgSize, Rounded32;
    nSP := (regs.sp + 4) % DWORD_LIMIT;
    ecx := false;
    var o := f.result;
    if f.conv == ccFastCall && IsAggregate(o) && (o.ctor || o.dtor || o.virt || o.inh) {
      ecx := true;
      SetPlace(cResult, Slot(asmRegNone, At(regs.cx)));
    } else if IsFloating(o) {
      SetPlace(cResult, Slot(asmRegSt0, InBlock(regs.block, asmRegSt0)));
    } else if ArgSize(o, DWORD_LIMIT) > 8 {
      SetPlace(cResult, Slot(asmRegNone, At(nSP)));
      WrapAdd32(regs.sp + 4, Rounded32(o));
      nSP := (nSP + Rounded32(o)) % DWORD_LIMIT;
    } else if ArgSize(o, DWORD_LIMIT) <= 4 {
      SetPlace(cResult, Slot(asmRegEax, InBlock(regs.block, asmRegEax)));
    } else {
      SetPlace(cResult, Slot(asmRegEaxEdxPair, InBlock(regs.block, asmRegEax)));
    }
  }

  /** The switch over the calling convention. */
  method AssignRegister32(conv: Convention, p: DbObject, ecx: bool, edx: bool) returns (r: Register)
    ensures r == ParamRegister32(conv, p, ecx, edx)
    ensures r == asmRegNone || r == asmRegEcx || r == asmRegEdx
  {
    r := asmRegNone;
    if conv == ccThisCall && !ecx {
      r := asmRegEcx;
    } else if conv == ccFastCall && ArgSize(p, DWORD_LIMIT) <= 4 && !(ecx && edx) {
      r := if !ecx then asmRegEcx else asmRegEdx;
    }
  }

  /** On x86 the two walks agree exactly when the result is not carried by the stack: one counts
      the pointer, the other the object. */
  lemma WalksAgreeIff32(f: Function)
    requires WellFormed(f, DWORD_LIMIT)
    ensures Advance32(f) % DWORD_LIMIT == StackUsage32(f) % DWORD_LIMIT <==> !ResultOnStack32(f)
  {
    hide Before32;
  }

  /** A register given to one argument is taken for the later ones. */
  lemma {:induction false} TakenStays32(f: Function, i: nat, j: nat)
    requires i < j <= |f.items|
    ensures Taken32(f, i).0 || Register32(f, i) == asmRegEcx ==> Taken32(f, j).0
    ensures Taken32(f, i).1 || Register32(f, i) == asmRegEdx ==> Taken32(f, j).1
    decreases j
  {
    if i + 1 < j { TakenStays32(f, i, j - 1); }
  }

  /** Each of ecx and edx goes to one argument at most, and ecx to none if the result has it. */
  lemma RegistersUsedOnce32(f: Function, i: nat, j: nat)
    requires i < j < |f.items|
    ensures Register32(f, i) != Register32(f, j) || Register32(f, i) == asmRegNone
    ensures ResultByEcx(f) ==> Register32(f, i) != asmRegEcx && Register32(f, j) != asmRegEcx
  {
    hide ArgSize;
    TakenStays32(f, i, j);
    if i > 0 { TakenStays32(f, 0, i); }
    TakenStays32(f, 0, j);
  }

  lemma {:induction false} BeforeGrows32(f: Function, i: nat, j: nat)
    requires i < j <= |f.items|
    ensures Before32(f, i) + (if Register32(f, i) == asmRegNone then Rounded32(f.items[i]) else 0) <= Before32(f, j)
    decreases j
  {
    hide Rounded32, Register32;
    if i + 1 < j { BeforeGrows32(f, i, j - 1); }
  }

  /** The stack arguments follow each other without overlap up to what the walk advances. */
  lemma StackSlotsDisjoint32(f: Function, regs: Registers, i: nat, j: nat)
    requires WellFormed(f, DWORD_LIMIT - 7) && i < j < |f.items|
    requires regs.sp + 4 + Advance32(f) < DWORD_LIMIT
    requires OnStack(ParamSlot32(f, i, regs)) && OnStack(ParamSlot32(f, j, regs))
    ensures regs.sp + 4 + ResultBytes32(f) <= ParamSlot32(f, i, regs).at.address
    ensures 8 * (ParamSlot32(f, j, regs).at.address - ParamSlot32(f, i, regs).at.address) >= f.items[i].size
    ensures 8 * (regs.sp + 4 + Advance32(f) - ParamSlot32(f, j, regs).at.address) >= f.items[j].size
  {
    hide Register32, ResultBytes32, ParamSlot32, Before32, Rounded32;
    BeforeGrows32(f, i, j);
    BeforeGrows32(f, j, |f.items|);
    SlotAddress32(f, regs, i);
    SlotAddress32(f, regs, j);
    RoundedCovers(f.items[i]);
    RoundedCovers(f.items[j]);
  }

  lemma SlotAddress32(f: Function, regs: Registers, i: nat)
    requires i < |f.items| && OnStack(ParamSlot32(f, i, regs))
    requires regs.sp + 4 + Advance32(f) < DWORD_LIMIT
    ensures Register32(f, i) == asmRegNone
    ensures ParamSlot32(f, i, regs).at.address == regs.sp + 4 + ResultBytes32(f) + Before32(f, i)
  {
    hide Register32, ResultBytes32, Before32, Rounded32;
    BeforeGrows32(f, i, |f.items|);
  }

  lemma RoundedCovers(o: DbObject)
    requires o.size + 7 < DWORD_LIMIT
    ensures 8 * Rounded32(o) >= o.size
  {
  }

  // --- Saving and restoring

  /** Whether a parameter's stack word is saved. */
  ghost predicate Recorded(p: CNktDvParam)
    reads p
  {
    p.nInternalAsmRegisterIndex == asmRegNone
  }

  /** Its address is a word of the memory. */
  ghost predicate Inside(p: CNktDvParam, size: nat, word: nat)
    reads p
  {
    Recorded(p) ==> p.lpAddress.At? && p.lpAddress.address + word <= size
  }

  ghost predicate Covers(p: CNktDvParam, b: nat, word: nat)
    reads p
  {
    Recorded(p) && p.lpAddress.At? && p.lpAddress.address <= b < p.lpAddress.address + word
  }

  /** The saved words are those of one memory. */
  ghost predicate SavedFrom(p: CNktDvParam, was: seq<Byte>, word: nat)
    reads p
  {
    Recorded(p) && p.lpAddress.At? && p.lpAddress.address + word <= |was| ==>
      p.nOriginalStackValue == was[p.lpAddress.address..p.lpAddress.address + word]
  }

  method SaveOne(p: CNktDvParam, mem: array<Byte>, word: nat)
    requires Inside(p, mem.Length, word)
    modifies p
    ensures p.Place() == old(p.Place()) && SavedFrom(p, mem[..], word)
  {
    if p.nInternalAsmRegisterIndex == asmRegNone {
      p.nOriginalStackValue := mem[p.lpAddress.address..p.lpAddress.address + word];
      assert p.nOriginalStackValue == mem[..][p.lpAddress.address..p.lpAddress.address + word];
    }
  }

  method PreCallSaveOriginalStackValues(lpItem: FunctionParams, mem: array<Byte>, word: nat)
    requires lpItem.Distinct() && forall p :: p in lpItem.Objects() ==> Inside(p, mem.Length, word)
    modifies lpItem.Objects()
    ensures forall p :: p in lpItem.Objects() ==> p.Place() == old(p.Place()) && SavedFrom(p, mem[..], word)
  {
    SaveOne(lpItem.cResult, mem, word);
    var i := 0;
    while i < |lpItem.cParameters|
      invariant 0 <= i <= |lpItem.cParameters|
      invariant forall p :: p in lpItem.Objects() ==> p.Place() == old(p.Place())
      invariant SavedFrom(lpItem.cResult, mem[..], word)
      invariant forall j :: 0 <= j < i ==> SavedFrom(lpItem.cParameters[j], mem[..], word)
    {
      SaveOne(lpItem.cParameters[i], mem, word);
      i := i + 1;
    }
  }

  /** The bytes of a saved word get back what they were; nothing else is written. */
  method RestoreOne(p: CNktDvParam, mem: array<Byte>, word: nat, ghost was: seq<Byte>)
    requires Inside(p, mem.Length, word) && |was| == mem.Length && SavedFrom(p, was, word)
    modifies mem
    ensures forall b :: 0 <= b < mem.Length ==> mem[b] == if Covers(p, b, word) then was[b] else old(mem[b])
  {
    if p.nInternalAsmRegisterIndex == asmRegNone {
      var a := p.lpAddress.address;
      forall k | 0 <= k < word {
        mem[a + k] := p.nOriginalStackValue[k];
      }
    }
  }

  predicate IsArgumentRegister(r: Register) {
    r in {asmRegRcx, asmRegRdx, asmRegR8, asmRegR9, asmRegXmm0, asmRegXmm1, asmRegXmm2, asmRegXmm3, asmRegEcx,
        asmRegEdx}
  }

  /** A parameter's place after the call. */
  function LaterPlace(s: Slot, block: nat): Slot {
    if IsArgumentRegister(s.reg) then Slot(s.reg, InBlock(block, s.reg)) else s
  }

  /** The part for one parameter. */
  method RestoreParam(p: CNktDvParam, block: nat, mem: array<Byte>, word: nat, ghost was: seq<Byte>)
    requires Inside(p, mem.Length, word) && |was| == mem.Length && SavedFrom(p, was, word)
    modifies mem, p
    ensures forall b :: 0 <= b < mem.Length ==> mem[b] == if old(Covers(p, b, word)) then was[b] else old(mem[b])
    ensures p.Place() == LaterPlace(old(p.Place()), block) && p.nOriginalStackValue == old(p.nOriginalStackValue)
  {
    RestoreOne(p, mem, word, was);
    if IsArgumentRegister(p.nInternalAsmRegisterIndex) {
      p.lpAddress := InBlock(block, p.nInternalAsmRegisterIndex);
    }
  }

  /** After the call every recorded stack byte is what it was when it was saved, whatever the call
      wrote in between and however the words overlap; the other bytes stay as the call left
      them, and register parameters are read from the registers after the call. */
  method PostCallRestoreOriginalStackValues(lpItem: FunctionParams, block: nat, mem: array<Byte>, word: nat,
      ghost was: seq<Byte>)
    requires lpItem.Distinct() && |was| == mem.Length
    requires forall p :: p in lpItem.Objects() ==> Inside(p, mem.Length, word) && SavedFrom(p, was, word)
    modifies mem, lpItem.cParameters
    ensures forall b :: 0 <= b < mem.Length ==>
      mem[b] == if exists p :: p in lpItem.Objects() && old(Covers(p, b, word)) then was[b] else old(mem[b])
    ensures forall p :: p in lpItem.cParameters ==>
      p.Place() == LaterPlace(old(p.Place()), block)
  {
    hide LaterPlace;
    RestoreOne(lpItem.cResult, mem, word, was);
    var i := 0;
    while i < |lpItem.cParameters|
      invariant 0 <= i <= |lpItem.cParameters|
      invariant forall j :: 0 <= j < |lpItem.cParameters| ==>
          lpItem.cParameters[j].nOriginalStackValue == old(lpItem.cParameters[j].nOriginalStackValue)
      invariant forall j :: i <= j < |lpItem.cParameters| ==>
          lpItem.cParameters[j].Place() == old(lpItem.cParameters[j].Place())
      invariant forall j :: 0 <= j < i ==>
        lpItem.cParameters[j].Place() == LaterPlace(old(lpItem.cParameters[j].Place()), block)
      invariant forall b :: 0 <= b < mem.Length ==>
        mem[b] == if old(Covers(lpItem.cResult, b, word))
                     || exists j :: 0 <= j < i && old(Covers(lpItem.cParameters[j], b, word))
                  then was[b] else old(mem[b])
    {
      ghost var p := lpItem.cParameters[i];
      assert p in lpItem.Objects() && old(Inside(p, mem.Length, word)) && old(SavedFrom(p, was, word));
      assert p.Place() == old(p.Place());
      RestoreParam(lpItem.cParameters[i], block, mem, word, was);
      i := i + 1;
    }
  }
}
