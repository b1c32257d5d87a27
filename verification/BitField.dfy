/** CNktDvParam: bit-fields of structures, read and written through masked storage units.

Memory is little-endian and modelled by its bits: bit b of the byte at address a is
`mem[8 * a + b]`, so a storage unit of n bytes at a is the slice of 8 * n bits from 8 * a. A word
is the sequence of its bits, lowest first, and the operators of the source act on these.
*/
module BitField {
  import opened Bits

  type Word = seq<bool>

  datatype HResult = S_OK | E_FAIL

  // --- Operators on words

  function Zero(w: nat): (r: Word)
    ensures |r| == w
  {
    seq(w, _ => false)
  }

  function And2(a: Word, b: Word): (r: Word)
    requires |a| <= |b|
    ensures |r| == |a|
  {
    seq(|a|, i requires 0 <= i < |a| => a[i] && b[i])
  }

  function Or2(a: Word, b: Word): (r: Word)
    requires |a| <= |b|
    ensures |r| == |a|
  {
    seq(|a|, i requires 0 <= i < |a| => a[i] || b[i])
  }

  function Not(a: Word): (r: Word)
    ensures |r| == |a|
  {
    seq(|a|, i requires 0 <= i < |a| => !a[i])
  }

  /** Bits shifted out at the top are lost. */
  function ShiftLeft(a: Word, k: nat): (r: Word)
    ensures |r| == |a|
  {
    seq(|a|, i requires 0 <= i < |a| => i >= k && a[i - k])
  }

  function ShiftRight(a: Word, k: nat): (r: Word)
    ensures |r| == |a|
  {
    seq(|a|, i requires 0 <= i < |a| => i + k < |a| && a[i + k])
  }

  /** One less, wrapping around at zero: the low zeros become ones and the lowest one a zero. */
  function MinusOne(a: Word): (r: Word)
    ensures |r| == |a|
  {
    if a == [] then [] else if a[0] then [false] + a[1..] else [true] + MinusOne(a[1..])
  }

  function One(w: nat): Word
    requires w > 0
  {
    [true] + Zero(w - 1)
  }

  function Full(w: nat): Word {
    Not(Zero(w))
  }

  /** The number a word stands for. */
  function Value(a: Word): nat {
    if a == [] then 0 else (if a[0] then 1 else 0) + 2 * Value(a[1..])
  }

  lemma {:induction false} MinusOneIsMinusOne(a: Word)
    ensures Value(MinusOne(a)) == if Value(a) > 0 then Value(a) - 1 else Pow2(|a|) - 1
  {
    if a != [] {
      if a[0] {
        assert ([false] + a[1..])[1..] == a[1..];
      } else {
        MinusOneIsMinusOne(a[1..]);
        assert ([true] + MinusOne(a[1..]))[1..] == MinusOne(a[1..]);
      }
    }
  }

  /** The low k bits are the remainder by 2^k. */
  lemma {:induction false} LowBits(a: Word, k: nat)
    requires k <= |a|
    ensures Value(a[..k]) < Pow2(k)
    ensures Value(a) == Value(a[..k]) + Pow2(k) * Value(a[k..])
  {
    if k == 0 {
      assert a[..0] == [] && a[0..] == a;
    } else {
      hide Value, Pow2;
      LowBits(a[1..], k - 1);
      assert a[1..][..k - 1] == a[..k][1..] && a[1..][k - 1..] == a[k..];
      ValueStep(a);
      ValueStep(a[..k]);
      PowStep(k);
      Distribute(Pow2(k - 1), Value(a[k..]));
    }
  }

  /** The word of n bytes at an address is little-endian: the byte there, and 256 times the word of
      the bytes behind it. */
  lemma LittleEndian(m: seq<bool>, a: nat, n: nat)
    requires 0 < n && 8 * (a + n) <= |m|
    ensures Value(m[8 * a..8 * (a + n)]) == Value(m[8 * a..8 * a + 8]) + 256 * Value(m[8 * (a + 1)..8 * (a + n)])
  {
    hide Value;
    var w := m[8 * a..8 * (a + n)];
    LowBits(w, 8);
    assert w[..8] == m[8 * a..8 * a + 8] && w[8..] == m[8 * (a + 1)..8 * (a + n)];
    assert Pow2(8) == 256 by { assert Pow2(4) == 16; }
  }

  lemma ValueStep(a: Word)
    requires a != []
    ensures Value(a) == (if a[0] then 1 else 0) + 2 * Value(a[1..])
  {
  }

  lemma PowStep(k: nat)
    requires k > 0
    ensures Pow2(k) == 2 * Pow2(k - 1)
  {
  }

  lemma Distribute(p: nat, v: nat)
    ensures 2 * (p * v) == (2 * p) * v
  {
  }

  lemma {:induction false} MinusOneBits(w: nat, k: nat)
    requires k < w
    ensures MinusOne(ShiftLeft(One(w), k)) == seq(w, i => i < k)
  {
    var a := ShiftLeft(One(w), k);
    if k == 0 {
      assert a == One(w);
    } else {
      MinusOneBits(w - 1, k - 1);
      assert a[1..] == ShiftLeft(One(w - 1), k - 1);
      assert !a[0];
    }
  }

  // --- A field

  /** The address and the mask GetField stores in a field's parameter: nSize bits at lpAddress. */
  datatype Param = Param(lpAddress: nat, nSize: nat, nShiftLeft: nat, nMask: Word)

  /** Which bits of memory a field is, by its definition: the storage unit at the byte of its
      offset, and in it the declared bits as far as the unit reaches. */
  datatype Field = Field(start: nat, len: nat)

  predicate IsStorage(nSize: nat) {
    nSize == 8 || nSize == 16 || nSize == 32 || nSize == 64
  }

  /** The field that starts offset bits into a structure and declares nBits bits of a unit of
      nSize; 0, or nSize and more, declare the whole unit. */
  function FieldOf(lpStruct: nat, offset: nat, nBits: nat, nSize: nat): Field {
    var unit := 8 * (lpStruct + offset / 8);
    if nBits == 0 || nBits >= nSize then Field(unit, nSize)
    else if nBits + offset % 8 > nSize then
      Field(unit + offset % 8, if nSize >= offset % 8 then nSize - offset % 8 else 0)
    else Field(unit + offset % 8, nBits)
  }

  /** A field starts where the structure says, except exactly when it is a whole unit declared to
      start inside a byte; and it has its declared bits, except exactly when they would leave the
      unit. */
  lemma FieldIsDeclaredIff(lpStruct: nat, offset: nat, nBits: nat, nSize: nat)
    requires IsStorage(nSize)
    ensures var f := FieldOf(lpStruct, offset, nBits, nSize);
      && (f.start == 8 * lpStruct + offset <==> 0 < nBits < nSize || offset % 8 == 0)
      && (0 < nBits <= nSize ==> 0 < f.len <= nBits)
      && (0 < nBits <= nSize ==> (f.len == nBits <==> nBits == nSize || nBits + offset % 8 <= nSize))
  {
    assert offset == 8 * (offset / 8) + offset % 8;
  }

  /** Bit k of memory belongs to a member that starts offset bits into a structure: it is in the storage
      unit at the byte of the offset, and, unless the member is the whole unit, among the nBits
      that are declared. Plain members have nBits 0. */
  predicate DeclaredBit(lpStruct: nat, offset: nat, nBits: nat, nSize: nat, k: nat) {
    && 8 * (lpStruct + offset / 8) <= k < 8 * (lpStruct + offset / 8) + nSize
    && (0 < nBits < nSize ==> 8 * lpStruct + offset <= k < 8 * lpStruct + offset + nBits)
  }

  /** A field is exactly these bits, for every declaration. */
  lemma FieldIsDeclaredBits(lpStruct: nat, offset: nat, nBits: nat, nSize: nat, k: nat)
    requires IsStorage(nSize)
    ensures var f := FieldOf(lpStruct, offset, nBits, nSize);
      f.start <= k < f.start + f.len <==> DeclaredBit(lpStruct, offset, nBits, nSize, k)
  {
    assert offset == 8 * (offset / 8) + offset % 8;
  }

  /** The mask of a field inside its unit. */
  ghost predicate Represents(p: Param, f: Field) {
    && IsStorage(p.nSize) && |p.nMask| == 64 && p.nShiftLeft + f.len <= p.nSize
    && f.start == 8 * p.lpAddress + p.nShiftLeft
    && (p.nMask == Full(64) ==> p.nShiftLeft == 0 && f.len == p.nSize)
    && forall i :: 0 <= i < p.nSize ==> p.nMask[i] == (p.nShiftLeft <= i < p.nShiftLeft + f.len)
  }

  method GetField(lpStruct: nat, offset: nat, itemBits: nat, nSize: nat) returns (p: Param)
    requires IsStorage(nSize)
    ensures p.nSize == nSize && Represents(p, FieldOf(lpStruct, offset, itemBits, nSize))
    ensures p.lpAddress == lpStruct + offset / 8 && (p.nMask == Full(64) <==> itemBits == 0 || itemBits >= nSize)
  {
    hide MinusOne, ShiftLeft;
    var nShift := offset;
    var lpNewAddr := lpStruct + nShift / 8;
    nShift := nShift % 8;
    var nBits := itemBits;
    if nBits == 0 || nBits >= nSize {
      p := Param(lpNewAddr, nSize, 0, Full(64));
    } else {
      if nBits + nShift > nSize {
        nBits := nSize - nShift;
      }
      MinusOneBits(64, nBits);
      MaskIs(nBits, nShift, MinusOne(ShiftLeft(One(64), nBits)));
      p := Param(lpNewAddr, nSize, nShift, ShiftLeft(MinusOne(ShiftLeft(One(64), nBits)), nShift));
    }
  }

  lemma MaskIs(nBits: nat, nShift: nat, m: Word)
    requires 0 < nBits < 64 && nShift < 8 && m == seq(64, i => i < nBits)
    ensures forall i :: 0 <= i < 64 ==> ShiftLeft(m, nShift)[i] == (nShift <= i < nShift + nBits)
    ensures ShiftLeft(m, nShift) != Full(64)
  {
    var s := ShiftLeft(m, nShift);
    assert nShift > 0 ==> !s[0];
    assert nShift == 0 ==> !s[63];
  }

  // --- What reading and writing a field mean

  function GetOf(m: seq<bool>, f: Field): (r: Word)
    requires f.start + f.len <= |m|
    ensures |r| == f.len
  {
    m[f.start..f.start + f.len]
  }

  function SetOf(m: seq<bool>, f: Field, v: Word): (r: seq<bool>)
    requires f.start + f.len <= |m| && f.len <= |v|
    ensures |r| == |m|
  {
    m[..f.start] + v[..f.len] + m[f.start + f.len..]
  }

  function Extended(a: Word, w: nat): (r: Word)
    requires |a| <= w
    ensures |r| == w
  {
    a + Zero(w - |a|)
  }

  /** The storage unit is read, masked and shifted: the value is the bits of the field, extended
      with zeros. */
  method GetValueCommon(mem: array<bool>, p: Param, ghost f: Field, readable: bool) returns (hRes: HResult, value: Word)
    requires Represents(p, f) && 8 * p.lpAddress + p.nSize <= mem.Length
    ensures hRes == if readable then S_OK else E_FAIL
    ensures readable ==> value == Extended(GetOf(mem[..], f), p.nSize)
  {
    value := [];
    if !readable {
      return E_FAIL, value;
    }
    hide And2, ShiftRight, Extended, GetOf;
    var uTemp := mem[8 * p.lpAddress..8 * p.lpAddress + p.nSize];
    assert uTemp == mem[..][8 * p.lpAddress..8 * p.lpAddress + p.nSize];
    ReadIsExtended(mem[..], p, f);
    uTemp := And2(uTemp, p.nMask);
    uTemp := ShiftRight(uTemp, p.nShiftLeft);
    hRes, value := S_OK, uTemp;
  }

  lemma ReadIsExtended(m: seq<bool>, p: Param, f: Field)
    requires Represents(p, f) && 8 * p.lpAddress + p.nSize <= |m|
    ensures var a := 8 * p.lpAddress;
      ShiftRight(And2(m[a..a + p.nSize], p.nMask), p.nShiftLeft) == Extended(GetOf(m, f), p.nSize)
  {
    hide And2, ShiftRight, Extended, GetOf;
    var a := 8 * p.lpAddress;
    var masked := And2(m[a..a + p.nSize], p.nMask);
    var got, want := ShiftRight(masked, p.nShiftLeft), Extended(GetOf(m, f), p.nSize);
    forall i | 0 <= i < p.nSize ensures got[i] == want[i] {
      ShiftedBit(masked, p.nShiftLeft, i);
      ExtendedBit(GetOf(m, f), p.nSize, i);
      if i < f.len { FieldBit(m, f, i); }
      if i + p.nShiftLeft < p.nSize { MaskedBit(m, p, f, i + p.nShiftLeft); }
    }
  }

  lemma FieldBit(m: seq<bool>, f: Field, i: nat)
    requires f.start + f.len <= |m| && i < f.len
    ensures GetOf(m, f)[i] == m[f.start + i]
  {
  }

  lemma ShiftedBit(a: Word, k: nat, i: nat)
    requires i < |a|
    ensures ShiftRight(a, k)[i] == (i + k < |a| && a[i + k])
  {
  }

  lemma ExtendedBit(a: Word, w: nat, i: nat)
    requires |a| <= w && i < w
    ensures Extended(a, w)[i] == (i < |a| && a[i])
  {
  }

  lemma MaskedBit(m: seq<bool>, p: Param, f: Field, i: nat)
    requires Represents(p, f) && 8 * p.lpAddress + p.nSize <= |m| && i < p.nSize
    ensures And2(m[8 * p.lpAddress..8 * p.lpAddress + p.nSize], p.nMask)[i] ==
      (p.nShiftLeft <= i < p.nShiftLeft + f.len && m[8 * p.lpAddress + i])
  {
    hide And2;
    AndBit(m[8 * p.lpAddress..8 * p.lpAddress + p.nSize], p.nMask, i);
  }

  lemma AndBit(a: Word, b: Word, i: nat)
    requires |a| <= |b| && i < |a|
    ensures And2(a, b)[i] == (a[i] && b[i])
  {
  }

  /** A field that is a whole unit is written as it is; for any other the unit is read, the bits
      of the field replaced and the unit written back. Only the bits of the field change, and they
      become the low bits of the value. */
  method SetValueCommon(mem: array<bool>, p: Param, ghost f: Field, value: Word, readable: bool, writable: bool)
    returns (hRes: HResult)
    requires Represents(p, f) && 8 * p.lpAddress + p.nSize <= mem.Length && |value| == p.nSize
    modifies mem
    ensures hRes == S_OK ==> mem[..] == SetOf(old(mem[..]), f, value)
    ensures hRes != S_OK ==> mem[..] == old(mem[..])
    ensures hRes == S_OK <==> writable && (readable || p.nMask == Full(64))
  {
    hide ShiftLeft, And2, Or2, Not, SetOf;
    if p.nMask != Full(64) {
      var uTemp := ShiftLeft(value, p.nShiftLeft);
      uTemp := And2(uTemp, p.nMask);
      if !readable {
        return E_FAIL;
      }
      var uTemp2 := mem[..][8 * p.lpAddress..8 * p.lpAddress + p.nSize];
      uTemp := Or2(uTemp, And2(uTemp2, Not(p.nMask)));
      hRes := WriteMemory(mem, 8 * p.lpAddress, uTemp, writable);
      if hRes == S_OK {
        MergedIsSet(old(mem[..]), p, f, value);
      }
    } else {
      hRes := WriteMemory(mem, 8 * p.lpAddress, value, writable);
      if hRes == S_OK {
        WholeUnitIsSet(old(mem[..]), f, value);
      }
    }
  }

  lemma WholeUnitIsSet(m: seq<bool>, f: Field, value: Word)
    requires f.start + f.len <= |m| && |value| == f.len
    ensures m[..f.start] + value + m[f.start + |value|..] == SetOf(m, f, value)
  {
    assert value[..f.len] == value;
  }

  method WriteMemory(mem: array<bool>, at: nat, w: Word, writable: bool) returns (hRes: HResult)
    requires at + |w| <= mem.Length
    modifies mem
    ensures hRes == if writable then S_OK else E_FAIL
    ensures mem[..] == if writable then old(mem[..])[..at] + w + old(mem[..])[at + |w|..] else old(mem[..])
  {
    if !writable {
      return E_FAIL;
    }
    forall i | 0 <= i < |w| {
      mem[at + i] := w[i];
    }
    hRes := S_OK;
  }

  lemma MergedIsSet(m: seq<bool>, p: Param, f: Field, value: Word)
    requires Represents(p, f) && 8 * p.lpAddress + p.nSize <= |m| && |value| == p.nSize
    ensures var a := 8 * p.lpAddress;
      var merged := Or2(And2(ShiftLeft(value, p.nShiftLeft), p.nMask), And2(m[a..a + p.nSize], Not(p.nMask)));
      m[..a] + merged + m[a + p.nSize..] == SetOf(m, f, value)
  {
    hide Or2, And2, Not, ShiftLeft, SetOf;
    var a := 8 * p.lpAddress;
    var merged := Or2(And2(ShiftLeft(value, p.nShiftLeft), p.nMask), And2(m[a..a + p.nSize], Not(p.nMask)));
    MergedBits(m, p, f, value);
    SetBits(m, f, value);
    assert m[..a] + merged + m[a + p.nSize..] == SetOf(m, f, value);
  }

  lemma MergedBits(m: seq<bool>, p: Param, f: Field, value: Word)
    requires Represents(p, f) && 8 * p.lpAddress + p.nSize <= |m| && |value| == p.nSize
    ensures var a := 8 * p.lpAddress;
      var merged := Or2(And2(ShiftLeft(value, p.nShiftLeft), p.nMask), And2(m[a..a + p.nSize], Not(p.nMask)));
      forall i :: 0 <= i < p.nSize ==>
        merged[i] == if f.start <= a + i < f.start + f.len then value[a + i - f.start] else m[a + i]
  {
    var a := 8 * p.lpAddress;
    var merged := Or2(And2(ShiftLeft(value, p.nShiftLeft), p.nMask), And2(m[a..a + p.nSize], Not(p.nMask)));
    forall i | 0 <= i < p.nSize
      ensures merged[i] == if f.start <= a + i < f.start + f.len then value[a + i - f.start] else m[a + i]
    {
      MergedBit(p.nMask, p.nShiftLeft, value, m[a..a + p.nSize], i);
    }
  }

  /** One bit of the merge comes from the value or from the old unit, as the mask says. */
  lemma MergedBit(mask: Word, shift: nat, value: Word, unit: Word, i: nat)
    requires i < |value| == |unit| <= |mask|
    ensures Or2(And2(ShiftLeft(value, shift), mask), And2(unit, Not(mask)))[i] ==
            if mask[i] then i >= shift && value[i - shift] else unit[i]
  {
  }

  // --- Members, from the declaration to the value

  function Byte(m: seq<bool>, a: nat): nat
    requires 8 * a + 8 <= |m|
  {
    Value(m[8 * a..8 * a + 8])
  }

  /** The little-endian number of the n bytes from a. */
  function Number(m: seq<bool>, a: nat, n: nat): nat
    requires 8 * (a + n) <= |m|
    decreases n
  {
    if n == 0 then 0 else Byte(m, a) + 256 * Number(m, a + 1, n - 1)
  }

  lemma {:induction false} UnitIsNumber(m: seq<bool>, a: nat, n: nat)
    requires 8 * (a + n) <= |m|
    ensures Value(m[8 * a..8 * (a + n)]) == Number(m, a, n)
    decreases n
  {
    hide Value;
    if n == 0 {
      EmptyUnit(m, a);
    } else {
      LittleEndian(m, a, n);
      UnitIsNumber(m, a + 1, n - 1);
    }
  }

  lemma EmptyUnit(m: seq<bool>, a: nat)
    requires 8 * a <= |m|
    ensures Value(m[8 * a..8 * a]) == 0
  {
  }

  /** Reading a member of a structure. A plain one is the little-endian number of its bytes; a
      bit-field is its declared bits, as far as its unit reaches, and zeros above. */
  method ReadMember(mem: array<bool>, lpStruct: nat, offset: nat, nBits: nat, nSize: nat, readable: bool)
    returns (hRes: HResult, value: Word)
    requires IsStorage(nSize) && 8 * (lpStruct + offset / 8) + nSize <= mem.Length
    ensures hRes == if readable then S_OK else E_FAIL
    ensures readable ==> |value| == nSize
    ensures readable && (nBits == 0 || nBits >= nSize) ==>
      Value(value) == Number(mem[..], lpStruct + offset / 8, nSize / 8)
    ensures readable && 0 < nBits < nSize ==> forall i :: 0 <= i < nSize ==>
      value[i] == (i < nBits && i + offset % 8 < nSize && mem[8 * lpStruct + offset + i])
  {
    hide Value, Number, Represents, Extended, GetOf;
    var p := GetField(lpStruct, offset, nBits, nSize);
    hRes, value := GetValueCommon(mem, p, FieldOf(lpStruct, offset, nBits, nSize), readable);
    if readable { MemberRead(mem[..], lpStruct, offset, nBits, nSize); }
  }

  lemma MemberRead(m: seq<bool>, lpStruct: nat, offset: nat, nBits: nat, nSize: nat)
    requires IsStorage(nSize) && 8 * (lpStruct + offset / 8) + nSize <= |m|
    ensures var f := FieldOf(lpStruct, offset, nBits, nSize);
      && f.start + f.len <= |m| && f.len <= nSize
      && var value := Extended(GetOf(m, f), nSize);
      && (nBits == 0 || nBits >= nSize ==> Value(value) == Number(m, lpStruct + offset / 8, nSize / 8))
      && (0 < nBits < nSize ==> forall i :: 0 <= i < nSize ==>
            value[i] == (i < nBits && i + offset % 8 < nSize && m[8 * lpStruct + offset + i]))
  {
    hide Value, Number, FieldOf, GetOf, Extended;
    PlainOrBits(lpStruct, offset, nBits, nSize);
    if nBits == 0 || nBits >= nSize {
      PlainRead(m, lpStruct + offset / 8, nSize);
    } else {
      var f := FieldOf(lpStruct, offset, nBits, nSize);
      forall i | 0 <= i < nSize
        ensures Extended(GetOf(m, f), nSize)[i] ==
          (i < nBits && i + offset % 8 < nSize && m[8 * lpStruct + offset + i])
      {
        ExtendedBit(GetOf(m, f), nSize, i);
        if i < f.len { FieldBit(m, f, i); }
      }
    }
  }

  /** FieldOf in terms of the declaration. */
  lemma PlainOrBits(lpStruct: nat, offset: nat, nBits: nat, nSize: nat)
    requires IsStorage(nSize)
    ensures nBits == 0 || nBits >= nSize ==>
      FieldOf(lpStruct, offset, nBits, nSize) == Field(8 * (lpStruct + offset / 8), nSize)
    ensures 0 < nBits < nSize ==>
      FieldOf(lpStruct, offset, nBits, nSize) == Field(8 * lpStruct + offset,
        if nBits + offset % 8 <= nSize then nBits else nSize - offset % 8)
    ensures 8 * (lpStruct + offset / 8) + offset % 8 == 8 * lpStruct + offset
  {
    assert offset == 8 * (offset / 8) + offset % 8;
  }

  lemma PlainRead(m: seq<bool>, a: nat, nSize: nat)
    requires IsStorage(nSize) && 8 * a + nSize <= |m|
    ensures Value(Extended(GetOf(m, Field(8 * a, nSize)), nSize)) == Number(m, a, nSize / 8)
  {
    hide Value, Number, Extended;
    StorageBytes(a, nSize);
    UnitIsNumber(m, a, nSize / 8);
    ExtendedSame(m[8 * a..8 * a + nSize]);
  }

  lemma StorageBytes(a: nat, nSize: nat)
    requires IsStorage(nSize)
    ensures 8 * (a + nSize / 8) == 8 * a + nSize
  {
  }

  lemma ExtendedSame(a: Word)
    ensures Extended(a, |a|) == a
  {
    assert Zero(0) == [];
  }

  /** Writing a member of a structure: its declared bits become the low bits of the value and nothing
      else changes, so a plain member's bytes become the value. */
  method WriteMember(mem: array<bool>, lpStruct: nat, offset: nat, nBits: nat, nSize: nat, value: Word,
      readable: bool, writable: bool) returns (hRes: HResult)
    requires IsStorage(nSize) && 8 * (lpStruct + offset / 8) + nSize <= mem.Length && |value| == nSize
    modifies mem
    ensures hRes == S_OK <==> writable && (readable || nBits == 0 || nBits >= nSize)
    ensures hRes != S_OK ==> mem[..] == old(mem[..])
    ensures hRes == S_OK ==> forall k :: 0 <= k < mem.Length && !DeclaredBit(lpStruct, offset, nBits, nSize, k) ==>
      mem[k] == old(mem[k])
    ensures hRes == S_OK && 0 < nBits < nSize ==> forall i :: 0 <= i < nBits && i + offset % 8 < nSize ==>
      mem[8 * lpStruct + offset + i] == value[i]
    ensures hRes == S_OK && (nBits == 0 || nBits >= nSize) ==>
      Number(mem[..], lpStruct + offset / 8, nSize / 8) == Value(value)
  {
    hide Value, Number, Represents, SetOf, DeclaredBit;
    ghost var m := mem[..];
    var p := GetField(lpStruct, offset, nBits, nSize);
    hRes := SetValueCommon(mem, p, FieldOf(lpStruct, offset, nBits, nSize), value, readable, writable);
    if hRes == S_OK { MemberWritten(m, mem[..], lpStruct, offset, nBits, nSize, value); }
  }

  lemma MemberWritten(m: seq<bool>, w: seq<bool>, lpStruct: nat, offset: nat, nBits: nat, nSize: nat, value: Word)
    requires IsStorage(nSize) && 8 * (lpStruct + offset / 8) + nSize <= |m| && |value| == nSize
    requires var f := FieldOf(lpStruct, offset, nBits, nSize);
      f.start + f.len <= |m| && f.len <= nSize && w == SetOf(m, f, value)
    ensures forall k :: 0 <= k < |m| && !DeclaredBit(lpStruct, offset, nBits, nSize, k) ==> w[k] == m[k]
    ensures 0 < nBits < nSize ==> forall i :: 0 <= i < nBits && i + offset % 8 < nSize ==>
      8 * lpStruct + offset + i < |w| && w[8 * lpStruct + offset + i] == value[i]
    ensures nBits == 0 || nBits >= nSize ==> Number(w, lpStruct + offset / 8, nSize / 8) == Value(value)
  {
    hide Value, Number, SetOf, FieldOf, DeclaredBit;
    var f := FieldOf(lpStruct, offset, nBits, nSize);
    SetBits(m, f, value);
    PlainOrBits(lpStruct, offset, nBits, nSize);
    forall k | 0 <= k < |m| && !DeclaredBit(lpStruct, offset, nBits, nSize, k) ensures w[k] == m[k] {
      FieldIsDeclaredBits(lpStruct, offset, nBits, nSize, k);
    }
    if nBits == 0 || nBits >= nSize {
      PlainWritten(m, w, lpStruct + offset / 8, nSize, value);
    }
  }

  lemma PlainWritten(m: seq<bool>, w: seq<bool>, a: nat, nSize: nat, value: Word)
    requires IsStorage(nSize) && 8 * a + nSize <= |m| && |value| == nSize
    requires w == SetOf(m, Field(8 * a, nSize), value)
    ensures Number(w, a, nSize / 8) == Value(value)
  {
    hide Value, Number;
    StorageBytes(a, nSize);
    UnitIsNumber(w, a, nSize / 8);
    assert w[8 * a..8 * a + nSize] == value;
  }

  // --- The lens laws

  ghost predicate Apart(f: Field, g: Field) {
    f.start + f.len <= g.start || g.start + g.len <= f.start
  }

  /** What was written is read back, modulo 2^len. */
  lemma GetAfterSet(m: seq<bool>, f: Field, v: Word)
    requires f.start + f.len <= |m| && f.len <= |v|
    ensures Value(Extended(GetOf(SetOf(m, f, v), f), |v|)) == Value(v) % Pow2(f.len)
  {
    assert GetOf(SetOf(m, f, v), f) == v[..f.len];
    ExtendedValue(v[..f.len], |v|);
    LowBits(v, f.len);
    RemainderIs(Value(v), Pow2(f.len), Value(v[f.len..]), Value(v[..f.len]));
  }

  lemma {:induction false} ExtendedValue(a: Word, w: nat)
    requires |a| <= w
    ensures Value(Extended(a, w)) == Value(a)
    decreases |a|
  {
    if a == [] {
      ZeroValue(w);
      assert Extended(a, w) == Zero(w);
    } else {
      ExtendedValue(a[1..], w - 1);
      assert Extended(a, w)[1..] == Extended(a[1..], w - 1);
    }
  }

  lemma {:induction false} ZeroValue(w: nat)
    ensures Value(Zero(w)) == 0
  {
    if w > 0 {
      ZeroValue(w - 1);
      assert Zero(w)[1..] == Zero(w - 1);
    }
  }

  lemma RemainderIs(x: nat, d: nat, q: nat, r: nat)
    requires d > 0 && x == r + d * q && r < d
    ensures x % d == r
  {
    var p := x / d;
    Difference(d, q, p);
    if q > p { AtLeastOnce(d, q - p); } else if p > q { AtLeastOnce(d, p - q); Difference(d, p, q); }
  }

  lemma Difference(d: nat, q: nat, p: nat)
    ensures d * (q - p) == d * q - d * p
  {
  }

  lemma AtLeastOnce(d: nat, k: nat)
    requires k > 0
    ensures d * k >= d
  {
  }

  /** Writing back what was read changes nothing, and the last write is the one that stays. */
  lemma SetAfterGet(m: seq<bool>, f: Field, u: Word, v: Word)
    requires f.start + f.len <= |m| && f.len <= |v| && f.len <= |u|
    ensures SetOf(m, f, GetOf(m, f)) == m
    ensures SetOf(SetOf(m, f, u), f, v) == SetOf(m, f, v)
  {
    assert GetOf(m, f)[..f.len] == GetOf(m, f);
  }

  /** Writing a field changes no bit outside of it, so it never changes what a field on other bits
      reads, whether or not their storage units overlap; and the two can be written in any
      order. */
  lemma FieldsIndependent(m: seq<bool>, f: Field, g: Field, u: Word, v: Word)
    requires f.start + f.len <= |m| && g.start + g.len <= |m| && f.len <= |u| && g.len <= |v| && Apart(f, g)
    ensures GetOf(SetOf(m, f, u), g) == GetOf(m, g)
    ensures SetOf(SetOf(m, f, u), g, v) == SetOf(SetOf(m, g, v), f, u)
    ensures forall i :: 0 <= i < |m| && !(f.start <= i < f.start + f.len) ==> SetOf(m, f, u)[i] == m[i]
  {
    hide SetOf;
    SetBits(m, f, u);
    SetBits(m, g, v);
    SetBits(SetOf(m, f, u), g, v);
    SetBits(SetOf(m, g, v), f, u);
  }

  lemma SetBits(m: seq<bool>, f: Field, v: Word)
    requires f.start + f.len <= |m| && f.len <= |v|
    ensures forall i :: 0 <= i < |m| ==>
      SetOf(m, f, v)[i] == if f.start <= i < f.start + f.len then v[i - f.start] else m[i]
  {
  }

  /** Two fields of one structure, the declared bits of the first before those of the second, share
      no bit if and only if the second is not a whole unit declared to start inside a byte, or the
      first ends before that byte. */
  lemma DeclaredApart(lpStruct: nat, offset1: nat, bits1: nat, size1: nat, offset2: nat, bits2: nat, size2: nat)
    requires IsStorage(size1) && IsStorage(size2) && 0 < bits1 <= size1 && 0 < bits2 <= size2
    requires offset1 + bits1 <= offset2
    ensures var f, g := FieldOf(lpStruct, offset1, bits1, size1), FieldOf(lpStruct, offset2, bits2, size2);
      Apart(f, g) <==> bits2 < size2 || offset2 % 8 == 0 || f.start + f.len <= 8 * (lpStruct + offset2 / 8)
  {
    hide FieldOf;
    FieldIsDeclaredIff(lpStruct, offset1, bits1, size1);
    FieldIsDeclaredIff(lpStruct, offset2, bits2, size2);
    FieldNotAfter(lpStruct, offset1, bits1, size1);
    FieldNotAfter(lpStruct, offset2, bits2, size2);
    if bits2 == size2 { WholeUnit(lpStruct, offset2, size2); }
  }

  lemma WholeUnit(lpStruct: nat, offset: nat, nSize: nat)
    requires IsStorage(nSize)
    ensures FieldOf(lpStruct, offset, nSize, nSize) == Field(8 * (lpStruct + offset / 8), nSize)
    ensures 8 * (lpStruct + offset / 8) + nSize > 8 * lpStruct + offset
  {
    assert offset == 8 * (offset / 8) + offset % 8;
  }

  /** So a declaration is safe against every declaration before it if and only if it is not a whole
      unit that starts inside a byte. */
  lemma SafeDeclarationIff(lpStruct: nat, offset: nat, nBits: nat, nSize: nat)
    requires IsStorage(nSize) && 0 < nBits <= nSize
    ensures nBits < nSize || offset % 8 == 0 <==>
      forall o: nat, b: nat, s: nat :: IsStorage(s) && 0 < b <= s && o + b <= offset ==>
        Apart(FieldOf(lpStruct, o, b, s), FieldOf(lpStruct, offset, nBits, nSize))
  {
    hide FieldOf, Apart;
    forall o: nat, b: nat, s: nat | IsStorage(s) && 0 < b <= s && o + b <= offset
      ensures nBits < nSize || offset % 8 == 0 ==>
        Apart(FieldOf(lpStruct, o, b, s), FieldOf(lpStruct, offset, nBits, nSize))
    {
      DeclaredApart(lpStruct, o, b, s, offset, nBits, nSize);
    }
    if nBits == nSize && offset % 8 != 0 {
      var o := 8 * (offset / 8);
      DeclaredApart(lpStruct, o, 1, 8, offset, nBits, nSize);
      FieldIsDeclaredIff(lpStruct, o, 1, 8);
      assert IsStorage(8) && !Apart(FieldOf(lpStruct, o, 1, 8), FieldOf(lpStruct, offset, nBits, nSize));
    }
  }

  /** A case: a field of 4 bits at 0 and a byte declared to start at bit 4. */
  lemma WholeUnitInsideByteOverlaps()
    ensures !Apart(FieldOf(0, 0, 4, 8), FieldOf(0, 4, 8, 8))
  {
  }

  lemma FieldNotAfter(lpStruct: nat, offset: nat, nBits: nat, nSize: nat)
    ensures FieldOf(lpStruct, offset, nBits, nSize).start <= 8 * lpStruct + offset
  {
    assert offset == 8 * (offset / 8) + offset % 8;
  }
}
