/** CNktDvParam: reading a string of unknown length in chunks, and writing one into an array.

A memory gives for every character position from the start of the string the character there,
or None where reading fails. Characters are numbers, and 0 ends a string.
*/
module ParamString {
  import opened Bits
  import opened Options

  type Char = nat

  type Memory = nat -> Option<Char>

  datatype HResult = S_OK | E_FAIL | E_OUTOFMEMORY

  const CHUNK: nat := 32

  /** There is no more to read than the address space holds. */
  ghost predicate Bounded(mem: Memory) {
    forall i: nat :: i >= ADDRESS_SPACE ==> mem(i).None?
  }

  // --- The simple reader

  /** Reads one character after the other up to a zero or the maximum. */
  function LengthFrom(mem: Memory, i: nat, max: nat): Option<nat>
    decreases max - i
  {
    if i >= max then Some(i)
    else if mem(i).None? then None
    else if mem(i).value == 0 then Some(i)
    else LengthFrom(mem, i + 1, max)
  }

  ghost predicate IsText(mem: Memory, from: nat, to: nat) {
    forall i :: from <= i < to ==> mem(i).Some? && mem(i).value != 0
  }

  /** The length is the index of the first zero, at most max; reading succeeds exactly when every
      character up to there can be read. */
  lemma LengthIsFirstZero(mem: Memory, max: nat)
    ensures var r := LengthFrom(mem, 0, max);
      && (r.Some? ==> r.value <= max && IsText(mem, 0, r.value) && (r.value < max ==> mem(r.value) == Some(0)))
      && (r.None? ==> exists k :: 0 <= k < max && mem(k).None? && IsText(mem, 0, k))
  {
    LengthFromStep(mem, 0, max);
  }

  lemma {:induction false} LengthFromStep(mem: Memory, i: nat, max: nat)
    requires i <= max
    ensures var r := LengthFrom(mem, i, max);
      && (r.Some? ==> i <= r.value <= max && IsText(mem, i, r.value) && (r.value < max ==> mem(r.value) == Some(0)))
      && (r.None? ==> exists k :: i <= k < max && mem(k).None? && IsText(mem, i, k))
    decreases max - i
  {
    if i < max {
      if mem(i).None? {
        assert IsText(mem, i, i);
      } else if mem(i).value != 0 {
        LengthFromStep(mem, i + 1, max);
        if LengthFrom(mem, i + 1, max).None? {
          var k :| i + 1 <= k < max && mem(k).None? && IsText(mem, i + 1, k);
          assert IsText(mem, i, k);
        }
      }
    }
  }

  /** Text can be skipped. */
  lemma {:induction false} SkipText(mem: Memory, i: nat, j: nat, max: nat)
    requires i <= j <= max && IsText(mem, i, j)
    ensures LengthFrom(mem, i, max) == LengthFrom(mem, j, max)
    decreases j - i
  {
    if i < j { SkipText(mem, i + 1, j, max); }
  }

  // --- GetStringCommon

  predicate Readable(mem: Memory, at: nat, n: nat) {
    forall i :: at <= i < at + n ==> mem(i).Some?
  }

  function Chars(mem: Memory, at: nat, n: nat): (s: seq<Char>)
    requires Readable(mem, at, n)
    ensures |s| == n && forall i :: 0 <= i < n ==> mem(at + i) == Some(s[i])
  {
    seq(n, i requires 0 <= i < n => mem(at + i).value)
  }

  /** All or nothing. */
  method ReadMemoryBytes(mem: Memory, at: nat, n: nat) returns (buffer: Option<seq<Char>>)
    ensures buffer == if Readable(mem, at, n) then Some(Chars(mem, at, n)) else None
  {
    var s: seq<Char> := [];
    while |s| < n
      invariant |s| <= n && Readable(mem, at, |s|) && s == Chars(mem, at, |s|)
      decreases n - |s|
    {
      var c := mem(at + |s|);
      if c.None? {
        return None;
      }
      s := s + [c.value];
    }
    return Some(s);
  }

  /** The length loop: chunks of 32 characters, and single ones from the first chunk that cannot be
      read. It ends, and it finds what the simple reader finds. */
  method StringLength(mem: Memory, nArrayMax: nat) returns (r: Option<nat>)
    ensures r == LengthFrom(mem, 0, nArrayMax)
  {
    var nTempLength, nChunkSize := 0, CHUNK;
    while nTempLength < nArrayMax
      invariant nTempLength <= nArrayMax && nChunkSize > 0
      invariant LengthFrom(mem, 0, nArrayMax) == LengthFrom(mem, nTempLength, nArrayMax)
      decreases nArrayMax - nTempLength, nChunkSize
    {
      if nChunkSize > nArrayMax - nTempLength {
        nChunkSize := nArrayMax - nTempLength;
      }
      var uTempBuf := ReadMemoryBytes(mem, nTempLength, nChunkSize);
      if uTempBuf.None? {
        if nChunkSize > 1 {
          nChunkSize := 1;
          continue;
        }
        return None;
      }
      var k := 0;
      while k < nChunkSize && uTempBuf.value[k] != 0
        invariant 0 <= k <= nChunkSize && IsText(mem, nTempLength, nTempLength + k)
      {
        assert mem(nTempLength + k) == Some(uTempBuf.value[k]);
        k := k + 1;
      }
      SkipText(mem, nTempLength, nTempLength + k, nArrayMax);
      nTempLength := nTempLength + k;
      if k < nChunkSize {
        assert mem(nTempLength) == Some(0);
        break;
      }
    }
    assert LengthFrom(mem, nTempLength, nArrayMax) == Some(nTempLength);
    r := Some(nTempLength);
  }

  function Min(a: nat, b: nat): nat {
    if a <= b then a else b
  }

  /** GetStringCommon with a place for the text: at most nMaxLength characters of the string from
      nStart on, a start behind the end giving the empty text. No size computed on the way
      overflows, characters being of one or two bytes. */
  method GetStringCommon(mem: Memory, nArrayMax: nat, nStart: nat, nMaxLength: nat, nCharSize: nat, memory: bool)
    returns (hRes: HResult, lpszValue: seq<Char>, nLength: nat)
    requires Bounded(mem) && 1 <= nCharSize <= 2
    ensures var n := LengthFrom(mem, 0, nArrayMax);
      && hRes == (if n.None? then E_FAIL else if memory then S_OK else E_OUTOFMEMORY)
      && (hRes == S_OK ==>
            var s := Min(nStart, n.value);
            var len := Min(nMaxLength, n.value - s);
            && nLength == n.value && Readable(mem, s, len)
            && lpszValue == Chars(mem, s, len) + [0])
      && (hRes != S_OK ==> lpszValue == [] && nLength == 0)
  {
    hRes, lpszValue, nLength := E_FAIL, [], 0;
    LengthIsFirstZero(mem, nArrayMax);
    var r := StringLength(mem, nArrayMax);
    if r.None? {
      return;
    }
    var nTempLength := r.value;
    var start, length := nStart, nMaxLength;
    if start > nTempLength { start := nTempLength; }
    if length > nTempLength { length := nTempLength; }
    if start >= nTempLength - length { length := nTempLength - start; }
    assert nTempLength > 0 ==> mem(nTempLength - 1).Some?;
    assert (length + 1) * nCharSize <= (ADDRESS_SPACE + 1) * 2 < SIZE_LIMIT by {
      Product(length + 1, nCharSize, ADDRESS_SPACE + 1);
    }
    if !memory {
      return E_OUTOFMEMORY, [], 0;
    }
    if length > 0 {
      var text := ReadMemoryBytes(mem, start, length);
      lpszValue := text.value + [0];
    } else {
      lpszValue := [0];
    }
    hRes, nLength := S_OK, nTempLength;
  }

  lemma Product(a: nat, b: nat, c: nat)
    requires a <= c && b <= 2
    ensures a * b <= c * 2
  {
  }

  // --- SetStringCommon

  /** `after` is `before` with the first n characters of the text and its terminator written from nStart on. */
  ghost predicate Written(before: seq<Char>, after: seq<Char>, value: seq<Char>, nStart: nat, n: nat) {
    |after| == |before| && forall j :: 0 <= j < |after| ==>
      after[j] == if !(nStart <= j < nStart + n) then before[j]
                  else if j - nStart < |value| then value[j - nStart]
                  else 0
  }

  /** SetStringCommon on the array at `dest`. Nothing is written at nArrayMax or behind it. */
  method SetStringCommon(dest: array<Char>, value: seq<Char>, nStart: nat, bIncludeEOS: bool, nArrayMax: nat)
    returns (hRes: HResult)
    modifies dest
    ensures var want := if bIncludeEOS then |value| + 1 else |value|;
      var room := if nStart <= nArrayMax then nArrayMax - nStart else 0;
      var n := if want <= room then want else room;
      && hRes == (if n == 0 || nStart + n <= dest.Length then S_OK else E_FAIL)
      && (hRes == S_OK ==> Written(old(dest[..]), dest[..], value, nStart, n))
      && (hRes != S_OK ==> dest[..] == old(dest[..]))
      && forall i :: nArrayMax <= i < dest.Length ==> dest[i] == old(dest[i])
  {
    var source := if bIncludeEOS then value + [0] else value;
    var nSrcLength := |value|;
    if bIncludeEOS {
      nSrcLength := nSrcLength + 1;
    }
    var start := nStart;
    if start > nArrayMax { start := nArrayMax; }
    if nSrcLength > nArrayMax { nSrcLength := nArrayMax; }
    if start >= nArrayMax - nSrcLength { nSrcLength := nArrayMax - start; }
    if nSrcLength > 0 {
      hRes := WriteMemoryBytes(dest, nStart, source[..nSrcLength]);
    } else {
      hRes := S_OK;
    }
  }

  /** A write that leaves the memory it may write fails. */
  method WriteMemoryBytes(dest: array<Char>, at: nat, s: seq<Char>) returns (hRes: HResult)
    modifies dest
    ensures hRes == if at + |s| <= dest.Length then S_OK else E_FAIL
    ensures hRes == S_OK ==> dest[..] == old(dest[..at]) + s + old(dest[at + |s|..])
    ensures hRes != S_OK ==> dest[..] == old(dest[..])
  {
    if at + |s| > dest.Length {
      return E_FAIL;
    }
    forall i | 0 <= i < |s| {
      dest[at + i] := s[i];
    }
    hRes := S_OK;
  }

  function MemoryOf(s: seq<Char>): Memory {
    (i: nat) => if i < |s| then Some(s[i]) else None
  }

  /** What is set is read again. The array held text up to nStart; from there on it now reads as the new
      text, cut off at the size of the array. The string ends with it, or without a terminator
      where the old string ended behind it. */
  lemma SetThenGet(before: seq<Char>, after: seq<Char>, value: seq<Char>, nStart: nat, bIncludeEOS: bool,
      nArrayMax: nat, n: nat)
    requires forall i :: 0 <= i < |value| ==> value[i] != 0
    requires nStart <= nArrayMax <= |before| && forall i :: 0 <= i < nStart ==> before[i] != 0
    requires n == Min(if bIncludeEOS then |value| + 1 else |value|, nArrayMax - nStart)
    requires Written(before, after, value, nStart, n)
    ensures var mem := MemoryOf(after);
      var m := Min(nStart + |value|, nArrayMax);
      && LengthFrom(mem, 0, nArrayMax) ==
          (if bIncludeEOS || m == nArrayMax then Some(m) else LengthFrom(MemoryOf(before), m, nArrayMax))
      && Readable(mem, 0, m) && Chars(mem, 0, m) == before[..nStart] + value[..m - nStart]
  {
    var mem := MemoryOf(after);
    var m := Min(nStart + |value|, nArrayMax);
    assert forall i :: 0 <= i < m ==> mem(i) == Some(if i < nStart then before[i] else value[i - nStart]);
    assert IsText(mem, 0, m);
    SkipText(mem, 0, m, nArrayMax);
    if m < nArrayMax {
      if bIncludeEOS {
        assert mem(m) == Some(0);
      } else {
        assert forall i :: m <= i < |after| ==> after[i] == before[i];
        SameTail(MemoryOf(after), MemoryOf(before), m, nArrayMax);
      }
    }
  }

  lemma {:induction false} SameTail(a: Memory, b: Memory, i: nat, max: nat)
    requires forall k: nat :: i <= k < max ==> a(k) == b(k)
    ensures LengthFrom(a, i, max) == LengthFrom(b, i, max)
    decreases max - i
  {
    if i < max { SameTail(a, b, i + 1, max); }
  }

  /** A start behind a zero of the array leaves the string as it is. */
  lemma SetBehindTheEnd(before: seq<Char>, after: seq<Char>, value: seq<Char>, nStart: nat, n: nat, z: nat, max: nat)
    requires Written(before, after, value, nStart, n) && z < nStart && z < |before| && before[z] == 0
    ensures LengthFrom(MemoryOf(after), 0, max) == LengthFrom(MemoryOf(before), 0, max)
  {
    EndsAtZero(before, after, z, 0, max);
  }

  lemma {:induction false} EndsAtZero(before: seq<Char>, after: seq<Char>, z: nat, i: nat, max: nat)
    requires |before| == |after| && i <= z < |before| && before[z] == 0
    requires forall k :: 0 <= k <= z ==> after[k] == before[k]
    ensures LengthFrom(MemoryOf(after), i, max) == LengthFrom(MemoryOf(before), i, max)
    decreases z - i
  {
    if i < z { EndsAtZero(before, after, z, i + 1, max); }
  }
}
