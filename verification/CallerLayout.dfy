/** The calling conventions from the caller's side, and that CNktDvFunctionParamsCache reads them right.

A caller goes through its arguments in order, with a list of registers that are still free, and puts
what gets no register on the stack. The callee leaves the result where the convention says. The
places that the cache gives the parameters and the result are then shown to hold exactly these
values, for every signature.
*/
module CallerLayout {
  import opened Bits
  import opened Options
  import opened ParamsLayout

  datatype Machine = Machine(file: map<Register, seq<Byte>>, mem: map<nat, Byte>)

  ghost predicate Holding(mem: map<nat, Byte>, a: nat, v: seq<Byte>) {
    forall k: nat :: a <= k < a + |v| ==> k in mem && mem[k] == v[k - a]
  }

  function Stored(mem: map<nat, Byte>, a: nat, v: seq<Byte>): (r: map<nat, Byte>)
    ensures Holding(r, a, v)
    ensures forall k :: k in mem && !(a <= k < a + |v|) ==> k in r && r[k] == mem[k]
  {
    if v == [] then mem else Stored(mem, a, v[..|v| - 1])[a + |v| - 1 := v[|v| - 1]]
  }

  function Number(v: seq<Byte>): nat {
    if v == [] then 0 else v[0] as nat + 256 * Number(v[1..])
  }

  /** The value is what is found at the place: in the register the place names, which is also where the
      address points in the block of registers, or in memory. */
  ghost predicate Found(m: Machine, block: nat, s: Slot, v: seq<Byte>) {
    match s.at
    case InBlock(b, r) =>
      && b == block
      && (s.reg == r ==> r in m.file && m.file[r] == v)
      && (s.reg != r ==>
            && s.reg == asmRegEaxEdxPair && r == asmRegEax && asmRegEax in m.file && asmRegEdx in m.file
            && m.file[asmRegEax] + m.file[asmRegEdx] == v)
    case At(a) => Holding(m.mem, a, v)
  }

  // --- x64

  /** The four positions with registers: one for integers and addresses, one for floating point. */
  const POSITIONS: seq<(Register, Register)> :=
    [(asmRegRcx, asmRegXmm0), (asmRegRdx, asmRegXmm1), (asmRegR8, asmRegXmm2), (asmRegR9, asmRegXmm3)]

  datatype Word = Word(floating: bool, value: seq<Byte>)

  /** The caller's walk: a word takes the register of its position that suits it, and behind the
      last of these the next eight bytes of the stack. */
  function Call64(words: seq<Word>, free: seq<(Register, Register)>, at: nat, m: Machine): Machine
    decreases |words|
  {
    if words == [] then m
    else
      var w := words[0];
      if free != [] then
        Call64(words[1..], free[1..], at, m.(file := m.file[if w.floating then free[0].1 else free[0].0 := w.value]))
      else
        Call64(words[1..], free, at + 8, m.(mem := Stored(m.mem, at, w.value)))
  }

  /** Sizes in bits that a register can hold. */
  const REGISTER_SIZES: set<nat> := {0, 1, 2, 4, 8, 16, 32, 64}

  /** Passed as it is in a floating-point register, where it has one. */
  predicate PassedFloating(o: DbObject) {
    o.cls == clsFundamental && o.floating && o.size in REGISTER_SIZES
  }

  /** The caller passes the place for the result as a first argument: objects with constructors and
      the like, and sizes that are not a power of two. */
  ghost predicate HiddenResult(o: DbObject) {
    || ((o.cls == clsStruct || o.cls == clsUnion) && (o.ctor || o.dtor || o.virt || o.inh))
    || (o.size > 0 && !IsPowerOfTwo(o.size))
  }

  /** Any other result that no register holds lies on the stack, below the arguments. */
  ghost predicate StackResult(o: DbObject) {
    !HiddenResult(o) && !(o.cls == clsFundamental && o.floating) && o.size > 64
  }

  /** What the caller passes: the address for the result if there is one, and the arguments. */
  ghost function Words64(f: Function, hidden: seq<Byte>, args: seq<seq<Byte>>): (r: seq<Word>)
    requires |args| == |f.items|
    ensures |r| == |args| + if HiddenResult(f.result) then 1 else 0
  {
    (if HiddenResult(f.result) then [Word(false, hidden)] else [])
    + seq(|args|, i requires 0 <= i < |args| => Word(PassedFloating(f.items[i]), args[i]))
  }

  /** Where the argument area starts: above the return address, the 32 bytes that the four registers
      can be saved to, and a result on the stack. */
  ghost function ArgumentArea64(f: Function, sp: nat): nat {
    sp + 8 + 32 + if StackResult(f.result) then f.result.size / 8 else 0
  }

  ghost function Caller64(f: Function, hidden: seq<Byte>, args: seq<seq<Byte>>, sp: nat, m: Machine): Machine
    requires |args| == |f.items|
  {
    Call64(Words64(f, hidden, args), POSITIONS, ArgumentArea64(f, sp), m)
  }

  /** Where the callee leaves the result v. It got m from its caller. */
  ghost function Callee64(o: DbObject, v: seq<Byte>, sp: nat, m: Machine): Machine
    requires HiddenResult(o) ==> asmRegRcx in m.file
  {
    if HiddenResult(o) then m.(mem := Stored(m.mem, Number(m.file[asmRegRcx]), v))
    else if o.cls == clsFundamental && o.floating then m.(file := m.file[asmRegXmm0 := v])
    else if o.size > 64 then m.(mem := Stored(m.mem, sp + 8 + 32, v))
    else m.(file := m.file[asmRegRax := v])
  }

  // The words stay where they are put.

  ghost predicate NotIn(r: Register, free: seq<(Register, Register)>) {
    forall j :: 0 <= j < |free| ==> r != free[j].0 && r != free[j].1
  }

  lemma {:induction false} RegisterStays(words: seq<Word>, free: seq<(Register, Register)>, at: nat, m: Machine,
      r: Register)
    requires NotIn(r, free) && r in m.file
    ensures var n := Call64(words, free, at, m); r in n.file && n.file[r] == m.file[r]
    decreases |words|
  {
    if words != [] {
      var w := words[0];
      if free != [] {
        var n := m.(file := m.file[if w.floating then free[0].1 else free[0].0 := w.value]);
        RegisterStays(words[1..], free[1..], at, n, r);
      } else {
        RegisterStays(words[1..], free, at + 8, m.(mem := Stored(m.mem, at, w.value)), r);
      }
    }
  }

  lemma {:induction false} MemoryStays(words: seq<Word>, free: seq<(Register, Register)>, at: nat, m: Machine, k: nat)
    requires k < at && k in m.mem
    ensures var n := Call64(words, free, at, m); k in n.mem && n.mem[k] == m.mem[k]
    decreases |words|
  {
    if words != [] {
      var w := words[0];
      if free != [] {
        var n := m.(file := m.file[if w.floating then free[0].1 else free[0].0 := w.value]);
        MemoryStays(words[1..], free[1..], at, n, k);
      } else {
        MemoryStays(words[1..], free, at + 8, m.(mem := Stored(m.mem, at, w.value)), k);
      }
    }
  }

  ghost predicate Separate(free: seq<(Register, Register)>) {
    && (forall i, j :: 0 <= i < j < |free| ==>
          free[i].0 != free[j].0 && free[i].0 != free[j].1 && free[i].1 != free[j].0 && free[i].1 != free[j].1)
  }

  /** Word j after the call. */
  lemma {:induction false} WordIsAt(words: seq<Word>, free: seq<(Register, Register)>, at: nat, m: Machine, j: nat)
    requires j < |words| && Separate(free) && forall i :: 0 <= i < |words| ==> |words[i].value| == 8
    ensures WordAt(words[j], free, at, j, Call64(words, free, at, m))
    decreases |words|
  {
    if j == 0 {
      FirstWord(words, free, at, m);
    } else if free != [] {
      var r := if words[0].floating then free[0].1 else free[0].0;
      WordIsAt(words[1..], free[1..], at, m.(file := m.file[r := words[0].value]), j - 1);
    } else {
      hide Stored, Holding;
      WordIsAt(words[1..], free, at + 8, m.(mem := Stored(m.mem, at, words[0].value)), j - 1);
      assert at + 8 + 8 * (j - 1) == at + 8 * j;
    }
  }

  ghost predicate WordAt(w: Word, free: seq<(Register, Register)>, at: nat, j: nat, n: Machine) {
    if j < |free| then
      var r := if w.floating then free[j].1 else free[j].0;
      r in n.file && n.file[r] == w.value
    else
      Holding(n.mem, at + 8 * (j - |free|), w.value)
  }

  lemma FirstWord(words: seq<Word>, free: seq<(Register, Register)>, at: nat, m: Machine)
    requires words != [] && Separate(free) && |words[0].value| == 8
    ensures WordAt(words[0], free, at, 0, Call64(words, free, at, m))
  {
    var w := words[0];
    if free != [] {
      var r := if w.floating then free[0].1 else free[0].0;
      RegisterStays(words[1..], free[1..], at, m.(file := m.file[r := w.value]), r);
    } else {
      var n := m.(mem := Stored(m.mem, at, w.value));
      var last := Call64(words[1..], free, at + 8, n);
      forall k: nat | at <= k < at + 8 ensures k in last.mem && last.mem[k] == n.mem[k] {
        MemoryStays(words[1..], free, at + 8, n, k);
      }
      assert Holding(last.mem, at, w.value);
    }
  }

  // The rules of the cache in terms of sizes.

  lemma PowersUpTo64(k: nat, e: nat)
    requires k == Pow2(e) <= 64
    ensures k in REGISTER_SIZES
  {
    if e > 6 { PowSplit(7, e); }
    assert e == 0 || e == 1 || e == 2 || e == 3 || e == 4 || e == 5 || e == 6;
  }

  lemma SizesArePowers(k: nat)
    requires k in REGISTER_SIZES && k > 0
    ensures IsPowerOfTwo(k)
  {
    assert Pow2(0) == 1 && Pow2(1) == 2 && Pow2(2) == 4 && Pow2(3) == 8;
    assert Pow2(4) == 16 && Pow2(5) == 32 && Pow2(6) == 64;
  }

  /** Passed by address: just what no register holds as it is, and objects with virtual members or
      inheritance. */
  lemma ByReferenceMeans(o: DbObject)
    requires o.size < SIZE_LIMIT
    ensures ByReference(o) <==>
      o.size !in REGISTER_SIZES || ((o.cls == clsStruct || o.cls == clsUnion) && (o.virt || o.inh))
  {
    hide NotPowerOfTwo;
    NotPowerOfTwoMeans(o.size);
    if o.size in REGISTER_SIZES && o.size > 0 { SizesArePowers(o.size); }
    if o.size > 0 && !NotPowerOfTwo(o.size) {
      var e: nat :| o.size == Pow2(e);
      if o.size <= 64 { PowersUpTo64(o.size, e); } else { LargePower(o.size, e); }
    }
  }

  /** A power of two above 64 is a number of 8-byte words, and adding 7 to it does not wrap. */
  lemma LargePower(k: nat, e: nat)
    requires 64 < k == Pow2(e) < SIZE_LIMIT
    ensures k % 64 == 0 && (k + 7) % SIZE_LIMIT / 8 == k / 8 > 8
  {
    PowerBounds(e);
    WholeWords(k, Pow2(e - 6));
  }

  lemma PowerBounds(e: nat)
    requires 64 < Pow2(e) < SIZE_LIMIT
    ensures e >= 6 && Pow2(e) == 64 * Pow2(e - 6) && Pow2(e) <= SIZE_LIMIT / 2
  {
    Pow2Of64();
    assert Pow2(6) == 64 && Pow2(64) == 2 * Pow2(63);
    hide Pow2;
    if e < 6 { PowSplit(e, 6); }
    if e > 63 { PowSplit(64, e); }
    PowSplit(e, 63);
    Pow2Sum(e - 6, 6);
  }

  lemma WholeWords(k: nat, q: nat)
    requires 64 < k == 64 * q <= SIZE_LIMIT / 2
    ensures k % 64 == 0 && (k + 7) % SIZE_LIMIT / 8 == k / 8 > 8
  {
    assert (k + 7) % SIZE_LIMIT == k + 7;
    PlusSeven(8 * q);
  }

  lemma PlusSeven(x: nat)
    ensures (8 * x + 7) / 8 == x == 8 * x / 8
  {
  }

  lemma ResultRules64(o: DbObject)
    requires o.size < SIZE_LIMIT
    ensures ResultByRcx(o) <==> HiddenResult(o)
    ensures ResultBytes64(o) == if StackResult(o) then o.size / 8 else 0
    ensures !HiddenResult(o) ==> (ArgSize(o, SIZE_LIMIT) > 8 <==> o.size > 64)
  {
    HiddenIsByRcx(o);
    if !HiddenResult(o) { RegisterSizes64(o); }
    hide ResultByRcx, HiddenResult;
  }

  lemma HiddenIsByRcx(o: DbObject)
    requires o.size < SIZE_LIMIT
    ensures ResultByRcx(o) <==> HiddenResult(o)
  {
    hide NotPowerOfTwo;
    NotPowerOfTwoMeans(o.size);
  }

  lemma RegisterSizes64(o: DbObject)
    requires o.size < SIZE_LIMIT && !HiddenResult(o)
    ensures ArgSize(o, SIZE_LIMIT) > 8 <==> o.size > 64
    ensures o.size > 64 ==> ArgSize(o, SIZE_LIMIT) == o.size / 8 && o.size % 64 == 0
  {
    if o.size > 64 {
      var e: nat :| o.size == Pow2(e);
      LargePower(o.size, e);
    }
  }

  /** Every parameter of every signature: the place the cache gives it holds the argument the caller
      passed. It is a register exactly for the first four positions. */
  lemma ParameterIsArgument64(f: Function, hidden: seq<Byte>, args: seq<seq<Byte>>, regs: Registers, m: Machine, i: nat)
    requires WellFormed(f, SIZE_LIMIT) && i < |args| == |f.items|
    requires |hidden| == 8 && forall j :: 0 <= j < |args| ==> |args[j]| == 8
    requires regs.sp + 40 + StackUsage64(f) <= SIZE_LIMIT
    ensures var s := ParamSlot64(f, i, regs);
      && Found(Caller64(f, hidden, args, regs.sp, m), regs.block, s, args[i])
      && (s.at.At? ==> s.reg == asmRegNone)
      && (s.at.At? <==> i + (if HiddenResult(f.result) then 1 else 0) >= 4)
  {
    hide ResultByRcx, HiddenResult, Call64, ParamSlot64, WordAt, Found;
    ResultRules64(f.result);
    var words := Words64(f, hidden, args);
    var n := i + First(f);
    assert words[n] == Word(PassedFloating(f.items[i]), args[i]);
    WordIsAt(words, POSITIONS, ArgumentArea64(f, regs.sp), m, n);
    SlotOfWord64(f, regs, i, words[n], Caller64(f, hidden, args, regs.sp, m));
  }

  /** The place of parameter i is that of the word at its position. */
  lemma SlotOfWord64(f: Function, regs: Registers, i: nat, w: Word, n: Machine)
    requires WellFormed(f, SIZE_LIMIT) && i < |f.items| && regs.sp + 40 + StackUsage64(f) <= SIZE_LIMIT
    requires w.floating == PassedFloating(f.items[i])
    requires WordAt(w, POSITIONS, ArgumentArea64(f, regs.sp), i + First(f), n)
    ensures var s := ParamSlot64(f, i, regs);
      && Found(n, regs.block, s, w.value)
      && (s.at.At? ==> s.reg == asmRegNone) && (s.at.At? <==> i + First(f) >= 4)
  {
    hide ByReference, ResultByRcx, ResultBytes64, StackResult, HiddenResult, Holding, First;
    ResultRules64(f.result);
    ByReferenceMeans(f.items[i]);
  }

  /** The result: its place holds what the callee left. The number the hook saw in rcx is the one that
      the caller put there. */
  lemma ResultIsReturned64(f: Function, hidden: seq<Byte>, args: seq<seq<Byte>>, regs: Registers, m: Machine,
      v: seq<Byte>)
    requires WellFormed(f, SIZE_LIMIT) && |args| == |f.items|
    requires |hidden| == 8 && forall j :: 0 <= j < |args| ==> |args[j]| == 8
    requires regs.sp + 40 + StackUsage64(f) <= SIZE_LIMIT && (HiddenResult(f.result) ==> regs.cx == Number(hidden))
    ensures var n, s := Caller64(f, hidden, args, regs.sp, m), ResultSlot64(Some(f), regs);
      && (HiddenResult(f.result) ==> asmRegRcx in n.file)
      && Found(Callee64(f.result, v, regs.sp, n), regs.block, s, v)
      && (s.reg == asmRegRcx <==> HiddenResult(f.result))
      && (s.at.At? ==> s.reg == asmRegRcx || s.reg == asmRegNone)
  {
    hide ResultByRcx, ResultBytes64, HiddenResult, Callee64, ResultSlot64, StackUsage64, Caller64, Found, Number;
    if HiddenResult(f.result) { HiddenArrives64(f, hidden, args, regs.sp, m); }
    ReturnedTo64(f, regs, Caller64(f, hidden, args, regs.sp, m), v);
  }

  lemma HiddenArrives64(f: Function, hidden: seq<Byte>, args: seq<seq<Byte>>, sp: nat, m: Machine)
    requires |args| == |f.items| && HiddenResult(f.result)
    requires |hidden| == 8 && forall j :: 0 <= j < |args| ==> |args[j]| == 8
    ensures var n := Caller64(f, hidden, args, sp, m); asmRegRcx in n.file && n.file[asmRegRcx] == hidden
  {
    hide HiddenResult, Call64;
    assert Words64(f, hidden, args)[0] == Word(false, hidden);
    WordIsAt(Words64(f, hidden, args), POSITIONS, ArgumentArea64(f, sp), m, 0);
  }

  lemma ReturnedTo64(f: Function, regs: Registers, m: Machine, v: seq<Byte>)
    requires WellFormed(f, SIZE_LIMIT) && regs.sp + 40 + StackUsage64(f) <= SIZE_LIMIT
    requires HiddenResult(f.result) ==> asmRegRcx in m.file && regs.cx == Number(m.file[asmRegRcx])
    ensures var s := ResultSlot64(Some(f), regs);
      && Found(Callee64(f.result, v, regs.sp, m), regs.block, s, v)
      && (s.reg == asmRegRcx <==> HiddenResult(f.result))
      && (s.at.At? ==> s.reg == asmRegRcx || s.reg == asmRegNone)
  {
    hide ResultByRcx, HiddenResult, Stored, Number;
    HiddenIsByRcx(f.result);
    if !HiddenResult(f.result) { RegisterSizes64(f.result); }
  }

  /** GetStackUsage counts what the caller's walk puts on the stack, and a result that lies there. */
  lemma UsageIsCallers64(f: Function, hidden: seq<Byte>, args: seq<seq<Byte>>)
    requires WellFormed(f, SIZE_LIMIT) && |args| == |f.items|
    ensures var n := |Words64(f, hidden, args)|;
      40 + StackUsage64(f) == ArgumentArea64(f, 0) + if n > |POSITIONS| then 8 * (n - |POSITIONS|) else 0
  {
    hide ResultByRcx, ResultBytes64, HiddenResult, StackResult;
    ResultRules64(f.result);
  }

  // --- After the call

  /** A parameter in a register is read from the later block of registers, one on the stack stays
      where it is. */
  lemma LaterPlace64(f: Function, i: nat, regs: Registers, block: nat)
    requires WellFormed(f, SIZE_LIMIT) && i < |f.items|
    ensures LaterPlace(ParamSlot64(f, i, regs), block) == ParamSlot64(f, i, regs.(block := block))
  {
    hide ByReference, ResultByRcx, ResultBytes64;
  }

  lemma LaterPlace32(f: Function, i: nat, regs: Registers, block: nat)
    requires i < |f.items|
    ensures LaterPlace(ParamSlot32(f, i, regs), block) == ParamSlot32(f, i, regs.(block := block))
  {
    hide Taken32, Before32, ResultBytes32, ArgSize;
  }

  /** What is put back after the call covers every word of the stack that the caller's walk filled. */
  lemma StackWordsCovered(p: CNktDvParam, f: Function, i: nat, regs: Registers, b: nat)
    requires WellFormed(f, SIZE_LIMIT) && i < |f.items| && regs.sp + 40 + StackUsage64(f) <= SIZE_LIMIT
    requires p.Place() == ParamSlot64(f, i, regs)
    ensures var n := i + if HiddenResult(f.result) then 1 else 0;
      Covers(p, b, 8) <==> n >= 4 && var a := ArgumentArea64(f, regs.sp) + 8 * (n - 4); a <= b < a + 8
  {
    hide ByReference, ResultByRcx, ResultBytes64, HiddenResult, StackResult;
    ResultRules64(f.result);
  }

  // --- x86

  /** The bytes that a value of so many bits takes, and the stack that an argument of so many bytes
      takes. */
  function BytesOf(bits: nat): nat {
    (bits + 7) / 8
  }

  function Dwords(bytes: nat): nat {
    4 * ((bytes + 3) / 4)
  }

  /** The caller's walk: the next free register takes the next argument that it suits, of at most
      four bytes unless it takes any. What gets none follows on the stack. */
  function Call32(args: seq<seq<Byte>>, free: seq<Register>, any: bool, at: nat, m: Machine): Machine
    decreases |args|
  {
    if args == [] then m
    else if free != [] && (any || |args[0]| <= 4) then
      Call32(args[1..], free[1..], any, at, m.(file := m.file[free[0] := args[0]]))
    else
      Call32(args[1..], free, any, at + Dwords(|args[0]|), m.(mem := Stored(m.mem, at, args[0])))
  }

  predicate HiddenInEcx(f: Function) {
    && f.conv == ccFastCall && (f.result.cls == clsStruct || f.result.cls == clsUnion)
    && (f.result.ctor || f.result.dtor || f.result.virt || f.result.inh)
  }

  /** ecx takes the first argument of a this-call. ecx and edx take the first two that fit in a
      fast-call, where ecx may have gone to the address for the result. */
  function Free32(f: Function): seq<Register> {
    if f.conv == ccThisCall then [asmRegEcx]
    else if f.conv == ccFastCall then (if HiddenInEcx(f) then [asmRegEdx] else [asmRegEcx, asmRegEdx])
    else []
  }

  predicate StackResult32(f: Function) {
    !HiddenInEcx(f) && !(f.result.cls == clsFundamental && f.result.floating) && f.result.size > 64
  }

  function ArgumentArea32(f: Function, sp: nat): nat {
    sp + 4 + if StackResult32(f) then Dwords(BytesOf(f.result.size)) else 0
  }

  function Caller32(f: Function, hidden: seq<Byte>, args: seq<seq<Byte>>, sp: nat, m: Machine): Machine {
    Call32(args, Free32(f), f.conv == ccThisCall, ArgumentArea32(f, sp),
      if HiddenInEcx(f) then m.(file := m.file[asmRegEcx := hidden]) else m)
  }

  function Callee32(f: Function, v: seq<Byte>, sp: nat, m: Machine): Machine
    requires HiddenInEcx(f) ==> asmRegEcx in m.file
  {
    if HiddenInEcx(f) then m.(mem := Stored(m.mem, Number(m.file[asmRegEcx]), v))
    else if f.result.cls == clsFundamental && f.result.floating then m.(file := m.file[asmRegSt0 := v])
    else if |v| > 8 then m.(mem := Stored(m.mem, sp + 4, v))
    else if |v| <= 4 then m.(file := m.file[asmRegEax := v])
    else m.(file := m.file[asmRegEax := v[..4]][asmRegEdx := v[4..]])
  }

  ghost predicate Sized(f: Function, args: seq<seq<Byte>>) {
    |args| == |f.items| && forall i :: 0 <= i < |args| ==> |args[i]| == BytesOf(f.items[i].size)
  }

  lemma {:induction false} RegisterStays32(args: seq<seq<Byte>>, free: seq<Register>, any: bool, at: nat, m: Machine,
      r: Register)
    requires r !in free && r in m.file
    ensures var n := Call32(args, free, any, at, m); r in n.file && n.file[r] == m.file[r]
    decreases |args|
  {
    hide Stored;
    if args == [] {
    } else if free != [] && (any || |args[0]| <= 4) {
      RegisterStays32(args[1..], free[1..], any, at, m.(file := m.file[free[0] := args[0]]), r);
    } else {
      var n := m.(mem := Stored(m.mem, at, args[0]));
      RegisterStays32(args[1..], free, any, at + Dwords(|args[0]|), n, r);
    }
  }

  lemma {:induction false} MemoryStays32(args: seq<seq<Byte>>, free: seq<Register>, any: bool, at: nat, m: Machine,
      k: nat)
    requires k < at && k in m.mem
    ensures var n := Call32(args, free, any, at, m); k in n.mem && n.mem[k] == m.mem[k]
    decreases |args|
  {
    hide Stored;
    if args == [] {
    } else if free != [] && (any || |args[0]| <= 4) {
      MemoryStays32(args[1..], free[1..], any, at, m.(file := m.file[free[0] := args[0]]), k);
    } else {
      var n := m.(mem := Stored(m.mem, at, args[0]));
      MemoryStays32(args[1..], free, any, at + Dwords(|args[0]|), n, k);
    }
  }

  /** The registers that are free where ecx and edx are taken. */
  function Left32(conv: Convention, ecx: bool, edx: bool): seq<Register> {
    if conv == ccThisCall then (if ecx then [] else [asmRegEcx])
    else if conv == ccFastCall then
      (if !ecx then [asmRegEcx, asmRegEdx] else if !edx then [asmRegEdx] else [])
    else []
  }

  lemma {:induction false} TakenInOrder(f: Function, k: nat)
    requires k <= |f.items|
    ensures f.conv == ccFastCall && Taken32(f, k).1 ==> Taken32(f, k).0
  {
    hide ArgSize;
    if k > 0 { TakenInOrder(f, k - 1); }
  }

  /** The cache's rule for argument k is the caller's. */
  lemma RegisterRule32(f: Function, k: nat, bytes: nat)
    requires k < |f.items| && f.items[k].size < DWORD_LIMIT - 7 && bytes == BytesOf(f.items[k].size)
    ensures var free := Left32(f.conv, Taken32(f, k).0, Taken32(f, k).1);
      && Left32(f.conv, Taken32(f, k + 1).0, Taken32(f, k + 1).1) ==
          (if Register32(f, k) == asmRegNone then free else if free == [] then [] else free[1..])
      && (Register32(f, k) == asmRegNone <==> !(free != [] && (f.conv == ccThisCall || bytes <= 4)))
      && (Register32(f, k) != asmRegNone ==> free != [] && Register32(f, k) == free[0])
    ensures Rounded32(f.items[k]) == Dwords(bytes)
  {
    TakenInOrder(f, k);
    RoundedIsDwords(f.items[k]);
  }

  lemma RoundedIsDwords(o: DbObject)
    requires o.size < DWORD_LIMIT - 7
    ensures ArgSize(o, DWORD_LIMIT) == BytesOf(o.size) && Rounded32(o) == Dwords(BytesOf(o.size))
  {
  }

  ghost predicate PlacedAt(n: Machine, r: Register, at: nat, v: seq<Byte>) {
    if r == asmRegNone then Holding(n.mem, at, v) else r in n.file && n.file[r] == v
  }

  /** Argument j, from the caller's walk over the arguments from number k on. */
  lemma {:induction false} ArgumentIsAt32(f: Function, args: seq<seq<Byte>>, k: nat, j: nat, base: nat, m: Machine)
    requires WellFormed(f, DWORD_LIMIT - 7) && Sized(f, args) && k <= j < |args|
    ensures var n := Call32(args[k..], Left32(f.conv, Taken32(f, k).0, Taken32(f, k).1), f.conv == ccThisCall,
        base + Before32(f, k), m);
      PlacedAt(n, Register32(f, j), base + Before32(f, j), args[j])
    decreases |args| - k
  {
    hide Taken32, Register32, Left32, Rounded32, PlacedAt, Stored, Dwords, BytesOf;
    RegisterRule32(f, k, |args[k]|);
    var free := Left32(f.conv, Taken32(f, k).0, Taken32(f, k).1);
    var at := base + Before32(f, k);
    assert args[k..][1..] == args[k + 1..];
    var n := if Register32(f, k) == asmRegNone then m.(mem := Stored(m.mem, at, args[k]))
             else m.(file := m.file[free[0] := args[k]]);
    if j > k {
      ArgumentIsAt32(f, args, k + 1, j, base, n);
    } else {
      ArgumentStays32(f, args, k, base, m, n);
    }
  }

  lemma ArgumentStays32(f: Function, args: seq<seq<Byte>>, k: nat, base: nat, m: Machine, n: Machine)
    requires WellFormed(f, DWORD_LIMIT - 7) && Sized(f, args) && k < |args|
    requires var free := Left32(f.conv, Taken32(f, k).0, Taken32(f, k).1);
      if Register32(f, k) == asmRegNone then n == m.(mem := Stored(m.mem, base + Before32(f, k), args[k]))
      else free != [] && n == m.(file := m.file[free[0] := args[k]])
    ensures var last := Call32(args[k + 1..], Left32(f.conv, Taken32(f, k + 1).0, Taken32(f, k + 1).1),
        f.conv == ccThisCall, base + Before32(f, k + 1), n);
      PlacedAt(last, Register32(f, k), base + Before32(f, k), args[k])
  {
    hide Taken32, Register32, Rounded32, Call32;
    RegisterRule32(f, k, |args[k]|);
    var free := Left32(f.conv, Taken32(f, k + 1).0, Taken32(f, k + 1).1);
    var any, at := f.conv == ccThisCall, base + Before32(f, k + 1);
    var last := Call32(args[k + 1..], free, any, at, n);
    if Register32(f, k) == asmRegNone {
      var a := base + Before32(f, k);
      forall x: nat | a <= x < a + |args[k]| ensures x in last.mem && last.mem[x] == n.mem[x] {
        MemoryStays32(args[k + 1..], free, any, at, n, x);
      }
    } else {
      RegisterStays32(args[k + 1..], free, any, at, n, Register32(f, k));
    }
  }

  /** Every parameter of every x86 signature. */
  lemma ParameterIsArgument32(f: Function, hidden: seq<Byte>, args: seq<seq<Byte>>, regs: Registers, m: Machine, i: nat)
    requires WellFormed(f, DWORD_LIMIT - 7) && Sized(f, args) && i < |args|
    requires regs.sp + 4 + Advance32(f) < DWORD_LIMIT
    ensures var s := ParamSlot32(f, i, regs);
      && Found(Caller32(f, hidden, args, regs.sp, m), regs.block, s, args[i])
      && (s.at.At? ==> s.reg == asmRegNone)
  {
    hide Register32, Before32, Call32, PlacedAt, Holding, Dwords, BytesOf, ArgSize, Rounded32;
    var start := if HiddenInEcx(f) then m.(file := m.file[asmRegEcx := hidden]) else m;
    AreaStarts32(f, regs.sp);
    ArgumentIsAt32(f, args, 0, i, ArgumentArea32(f, regs.sp), start);
    SlotOfArgument32(f, regs, i, Caller32(f, hidden, args, regs.sp, m), args[i]);
  }

  lemma AreaStarts32(f: Function, sp: nat)
    requires WellFormed(f, DWORD_LIMIT - 7)
    ensures ArgumentArea32(f, sp) == sp + 4 + ResultBytes32(f)
    ensures Left32(f.conv, Taken32(f, 0).0, Taken32(f, 0).1) == Free32(f) && Before32(f, 0) == 0
    ensures ResultByEcx(f) == HiddenInEcx(f) && ResultOnStack32(f) == StackResult32(f)
  {
    RoundedIsDwords(f.result);
  }

  lemma SlotOfArgument32(f: Function, regs: Registers, i: nat, n: Machine, v: seq<Byte>)
    requires i < |f.items| && regs.sp + 4 + Advance32(f) < DWORD_LIMIT
    requires PlacedAt(n, Register32(f, i), regs.sp + 4 + ResultBytes32(f) + Before32(f, i), v)
    ensures var s := ParamSlot32(f, i, regs); Found(n, regs.block, s, v) && (s.at.At? ==> s.reg == asmRegNone)
  {
    hide Register32, Before32, Holding, ResultBytes32, Rounded32;
    BeforeGrows32(f, i, |f.items|);
  }

  /** The result of every x86 signature. */
  lemma ResultIsReturned32(f: Function, hidden: seq<Byte>, args: seq<seq<Byte>>, regs: Registers, m: Machine,
      v: seq<Byte>)
    requires WellFormed(f, DWORD_LIMIT - 7) && Sized(f, args) && |v| == BytesOf(f.result.size)
    requires regs.sp + 4 + Advance32(f) < DWORD_LIMIT && (HiddenInEcx(f) ==> regs.cx == Number(hidden))
    ensures var n, s := Caller32(f, hidden, args, regs.sp, m), ResultSlot32(Some(f), regs);
      && (HiddenInEcx(f) ==> asmRegEcx in n.file)
      && Found(Callee32(f, v, regs.sp, n), regs.block, s, v)
      && (s.at.At? ==> s.reg == asmRegNone)
  {
    hide Call32, Number, Dwords, BytesOf;
    RoundedIsDwords(f.result);
    if HiddenInEcx(f) {
      var start := m.(file := m.file[asmRegEcx := hidden]);
      RegisterStays32(args, Free32(f), false, ArgumentArea32(f, regs.sp), start, asmRegEcx);
    }
    ReturnedTo32(f, regs, Caller32(f, hidden, args, regs.sp, m), v);
  }

  lemma ReturnedTo32(f: Function, regs: Registers, n: Machine, v: seq<Byte>)
    requires WellFormed(f, DWORD_LIMIT - 7) && |v| == BytesOf(f.result.size) && regs.sp + 4 < DWORD_LIMIT
    requires HiddenInEcx(f) ==> asmRegEcx in n.file && regs.cx == Number(n.file[asmRegEcx])
    ensures var s := ResultSlot32(Some(f), regs);
      && Found(Callee32(f, v, regs.sp, n), regs.block, s, v)
      && (s.at.At? ==> s.reg == asmRegNone)
  {
    hide Number, Stored;
    RoundedIsDwords(f.result);
  }

  /** Where the caller's arguments end. */
  function End32(args: seq<seq<Byte>>, free: seq<Register>, any: bool, at: nat): nat
    decreases |args|
  {
    if args == [] then at
    else if free != [] && (any || |args[0]| <= 4) then End32(args[1..], free[1..], any, at)
    else End32(args[1..], free, any, at + Dwords(|args[0]|))
  }

  lemma {:induction false} EndIsBefore32(f: Function, args: seq<seq<Byte>>, k: nat, base: nat)
    requires WellFormed(f, DWORD_LIMIT - 7) && Sized(f, args) && k <= |args|
    ensures End32(args[k..], Left32(f.conv, Taken32(f, k).0, Taken32(f, k).1), f.conv == ccThisCall,
        base + Before32(f, k)) == base + Before32(f, |args|)
    decreases |args| - k
  {
    hide Taken32, Register32, Left32, Rounded32, Dwords, BytesOf;
    if k < |args| {
      RegisterRule32(f, k, |args[k]|);
      assert args[k..][1..] == args[k + 1..];
      EndIsBefore32(f, args, k + 1, base);
    }
  }

  /** GetStackUsage counts the bytes of the caller's stack arguments, and a pointer for a result on the
      stack. */
  lemma UsageIsCallers32(f: Function, args: seq<seq<Byte>>)
    requires WellFormed(f, DWORD_LIMIT - 7) && Sized(f, args)
    ensures StackUsage32(f) ==
      End32(args, Free32(f), f.conv == ccThisCall, 0) + if StackResult32(f) then 4 else 0
  {
    hide Before32, End32;
    AreaStarts32(f, 0);
    EndIsBefore32(f, args, 0, 0);
  }
}
