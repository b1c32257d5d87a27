/** The word-at-a-time memory primitives on one byte memory.

Addresses are indices of the array, which starts at an address aligned for words. The word size
w is 4 or 8; a word access reads or writes its w bytes at once. Buffers may overlap in any way.
*/
module MemoryPrimitives {
  type Bytes = seq<bv8>

  predicate WordSize(w: nat) {
    w == 4 || w == 8
  }

  /** XISALIGNED */
  predicate Aligned(x: nat, w: nat)
    requires WordSize(w)
  {
    x % w == 0
  }

  // --- Byte-wise specifications

  /** The n bytes from s appear at d; everything else stays. */
  ghost function Moved(m: Bytes, d: nat, s: nat, n: nat): (r: Bytes)
    requires d + n <= |m| && s + n <= |m|
    ensures |r| == |m|
  {
    m[..d] + m[s..s + n] + m[d + n..]
  }

  /** The same for the bytes of the move with numbers from..to only. */
  ghost function MovedPart(m: Bytes, d: nat, s: nat, from: nat, to: nat): Bytes
    requires from <= to && d + to <= |m| && s + to <= |m|
  {
    Moved(m, d + from, s + from, to - from)
  }

  /** Copying byte by byte, upwards. */
  ghost function ForwardCopy(m: Bytes, d: nat, s: nat, n: nat): (r: Bytes)
    requires d + n <= |m| && s + n <= |m|
    ensures |r| == |m|
  {
    if n == 0 then m
    else
      var r := ForwardCopy(m, d, s, n - 1);
      r[d + n - 1 := r[s + n - 1]]
  }

  ghost function Filled(m: Bytes, d: nat, n: nat, b: bv8): Bytes
    requires d + n <= |m|
  {
    m[..d] + seq(n, _ => b) + m[d + n..]
  }

  /** The difference of the first two bytes that differ, or 0. */
  function Difference(a: Bytes, b: Bytes): int
    requires |a| == |b|
  {
    if a == [] then 0
    else if a[0] != b[0] then a[0] as int - b[0] as int
    else Difference(a[1..], b[1..])
  }

  // --- One word

  /** *(SIZE_T*)d = *(SIZE_T*)s */
  method CopyWord(mem: array<bv8>, d: nat, s: nat, w: nat)
    requires d + w <= mem.Length && s + w <= mem.Length
    modifies mem
    ensures mem[..] == Moved(old(mem[..]), d, s, w)
  {
    forall i | 0 <= i < w {
      mem[d + i] := mem[s + i];
    }
    assert mem[..] == Moved(old(mem[..]), d, s, w);
  }

  /** *d = *s */
  method CopyByte(mem: array<bv8>, d: nat, s: nat)
    requires d < mem.Length && s < mem.Length
    modifies mem
    ensures mem[..] == Moved(old(mem[..]), d, s, 1)
  {
    mem[d] := mem[s];
    assert mem[..] == Moved(old(mem[..]), d, s, 1);
  }

  /** v >> 8 * i, and its low byte */
  function Shifted(v: bv64, i: nat): bv64
    requires i < 8
  {
    if i == 0 then v & 0xFF else if i == 1 then (v >> 8) & 0xFF
    else if i == 2 then (v >> 16) & 0xFF else if i == 3 then (v >> 24) & 0xFF
    else if i == 4 then (v >> 32) & 0xFF else if i == 5 then (v >> 40) & 0xFF
    else if i == 6 then (v >> 48) & 0xFF else (v >> 56) & 0xFF
  }

  lemma ShiftedSmall(v: bv64, i: nat)
    requires i < 8
    ensures Shifted(v, i) <= 0xFF
  {
  }

  function ByteOf(v: bv64, i: nat): bv8
    requires i < 8
  {
    ShiftedSmall(v, i);
    Shifted(v, i) as bv8
  }

  /** *(SIZE_T*)d = v, little-endian */
  method StoreWord(mem: array<bv8>, d: nat, v: bv64, w: nat)
    requires WordSize(w) && d + w <= mem.Length
    modifies mem
    ensures forall j :: 0 <= j < mem.Length ==>
      mem[j] == if d <= j < d + w then ByteOf(v, j - d) else old(mem[j])
  {
    forall i | 0 <= i < w {
      mem[d + i] := ByteOf(v, i);
    }
  }

  // --- nktMemSet

  /** The pattern word that nktMemSet builds by shifting and or-ing. */
  function Pattern(v: bv64, w: nat): bv64
    requires WordSize(w)
  {
    var a := v & 0xFF;
    var b := a | (a << 8);
    var c := b | (b << 16);
    if w == 8 then c | (c << 32) else c
  }

  /** The byte is spread over four, and the four over eight. */
  lemma Spread(a: bv64, c: bv64, d: bv64)
    requires a & 0xFF == a && c == (a | (a << 8)) | ((a | (a << 8)) << 16) && d == c | (c << 32)
    ensures c & 0xFF == a && (c >> 8) & 0xFF == a && (c >> 16) & 0xFF == a && (c >> 24) & 0xFF == a
    ensures d & 0xFF == a && (d >> 8) & 0xFF == a && (d >> 16) & 0xFF == a && (d >> 24) & 0xFF == a
    ensures (d >> 32) & 0xFF == a && (d >> 40) & 0xFF == a && (d >> 48) & 0xFF == a && (d >> 56) & 0xFF == a
  {
  }

  lemma PatternBytes(v: bv64, w: nat, i: nat)
    requires WordSize(w) && i < w
    ensures ByteOf(Pattern(v, w), i) == ByteOf(v, 0)
  {
    PatternShifted(v, w, i);
  }

  lemma PatternShifted(v: bv64, w: nat, i: nat)
    requires WordSize(w) && i < w
    ensures Shifted(Pattern(v, w), i) == Shifted(v, 0)
  {
    var a := v & 0xFF;
    var c := (a | (a << 8)) | ((a | (a << 8)) << 16);
    Spread(a, c, c | (c << 32));
  }

  lemma FillMore(m: Bytes, d: nat, k: nat, i: nat, b: bv8, w: Bytes)
    requires d + k + i <= |m| && |w| == |m|
    requires forall j :: 0 <= j < |m| ==>
      w[j] == if d + k <= j < d + k + i then b else Filled(m, d, k, b)[j]
    ensures w == Filled(m, d, k + i, b)
  {
  }

  method NktMemSet(mem: array<bv8>, dest: nat, value: bv64, n: nat, w: nat)
    requires WordSize(w) && dest + n <= mem.Length
    modifies mem
    ensures forall j :: 0 <= j < mem.Length && !(dest <= j < dest + n) ==> mem[j] == old(mem[j])
    ensures forall j :: dest <= j < dest + n ==> mem[j] as bv64 == value & 0xFF
  {
    hide Filled, ByteOf, Pattern;
    FilledBytes(mem[..], dest, n, value);
    var d, count, v := dest, n, value;
    ghost var b, was := ByteOf(value, 0), mem[..];
    FillNone(was, dest, b);
    if Aligned(d, w) {
      v := Pattern(v, w);
      forall i: nat | i < w ensures ByteOf(v, i) == b { PatternBytes(value, w, i); }
      while count >= w
        invariant 0 <= count <= n && d == dest + (n - count)
        invariant mem[..] == Filled(was, dest, n - count, b)
      {
        StoreWord(mem, d, v, w);
        FillMore(was, dest, n - count, w, b, mem[..]);
        d := d + w;
        count := count - w;
      }
    }
    while count > 0
      invariant 0 <= count <= n && d == dest + (n - count)
      invariant ByteOf(v, 0) == b
      invariant mem[..] == Filled(was, dest, n - count, b)
    {
      mem[d] := ByteOf(v, 0);
      FillMore(was, dest, n - count, 1, b, mem[..]);
      d := d + 1;
      count := count - 1;
    }
  }

  lemma FilledBytes(m: Bytes, d: nat, n: nat, value: bv64)
    requires d + n <= |m|
    ensures var r := Filled(m, d, n, ByteOf(value, 0));
      && |r| == |m|
      && (forall j :: 0 <= j < |m| && !(d <= j < d + n) ==> r[j] == m[j])
      && (forall j :: d <= j < d + n ==> r[j] as bv64 == value & 0xFF)
  {
    hide ByteOf;
    LowByte(value);
  }

  lemma LowByte(v: bv64)
    ensures ByteOf(v, 0) as bv64 == v & 0xFF
  {
  }

  lemma FillNone(m: Bytes, d: nat, b: bv8)
    requires d <= |m|
    ensures Filled(m, d, 0, b) == m
  {
  }

  // --- nktMemCopy

  /** Moving i bytes is moving i - 1 bytes and then the last. */
  lemma MovedLast(p: Bytes, d: nat, s: nat, i: nat)
    requires i > 0 && d + i <= |p| && s + i <= |p|
    ensures Moved(p, d, s, i) == Moved(p, d, s, i - 1)[d + i - 1 := p[s + i - 1]]
    ensures d <= s || s + i <= d ==> Moved(p, d, s, i - 1)[s + i - 1] == p[s + i - 1]
  {
  }

  lemma MovedNone(p: Bytes, d: nat, s: nat)
    requires d <= |p| && s <= |p|
    ensures Moved(p, d, s, 0) == p
  {
  }

  /** A word copied from where the bytes copied so far do not reach into it. */
  lemma {:induction false} WordStep(m: Bytes, d: nat, s: nat, k: nat, i: nat)
    requires d + k + i <= |m| && s + k + i <= |m|
    requires d <= s || s + i <= d
    ensures ForwardCopy(m, d, s, k + i) == Moved(ForwardCopy(m, d, s, k), d + k, s + k, i)
    decreases i
  {
    hide Moved;
    var p := ForwardCopy(m, d, s, k);
    if i > 0 {
      WordStep(m, d, s, k, i - 1);
      MovedLast(p, d + k, s + k, i);
      assert ForwardCopy(m, d, s, k + (i - 1)) == ForwardCopy(m, d, s, k + i - 1);
    } else {
      MovedNone(p, d + k, s + k);
    }
  }

  lemma ForwardNone(m: Bytes, d: nat, s: nat)
    requires d <= |m| && s <= |m|
    ensures ForwardCopy(m, d, s, 0) == m
  {
  }

  lemma AlignedGap(d: nat, s: nat, w: nat)
    requires WordSize(w) && Aligned(d, w) && Aligned(s, w)
    ensures d <= s || s + w <= d
    ensures s <= d || d + w <= s
  {
  }

  /** nktMemCopy does what copying byte by byte upwards does, for every alignment and every
      overlap of the two buffers. */
  method NktMemCopy(mem: array<bv8>, dest: nat, src: nat, n: nat, w: nat)
    requires WordSize(w) && dest + n <= mem.Length && src + n <= mem.Length
    modifies mem
    ensures mem[..] == ForwardCopy(old(mem[..]), dest, src, n)
    ensures CopiedUp(old(mem[..]), mem[..], dest, src, n)
  {
    hide Moved, ForwardCopy, CopiedUp;
    var s, d, count := src, dest, n;
    ghost var was := mem[..];
    ForwardNone(was, dest, src);
    ForwardIsCopiedUp(was, dest, src, n);
    if Aligned(s, w) && Aligned(d, w) {
      AlignedGap(d, s, w);
      while count >= w
        invariant 0 <= count <= n && d == dest + (n - count) && s == src + (n - count)
        invariant mem[..] == ForwardCopy(was, dest, src, n - count)
      {
        WordStep(was, dest, src, n - count, w);
        CopyWord(mem, d, s, w);
        s := s + w;
        d := d + w;
        count := count - w;
      }
    }
    while count > 0
      invariant 0 <= count <= n && d == dest + (n - count) && s == src + (n - count)
      invariant mem[..] == ForwardCopy(was, dest, src, n - count)
    {
      ByteStep(was, dest, src, n - count);
      CopyByte(mem, d, s);
      d := d + 1;
      s := s + 1;
      count := count - 1;
    }
  }

  lemma ByteStep(m: Bytes, d: nat, s: nat, k: nat)
    requires d + k + 1 <= |m| && s + k + 1 <= |m|
    ensures ForwardCopy(m, d, s, k + 1) == Moved(ForwardCopy(m, d, s, k), d + k, s + k, 1)
  {
    WordStep(m, d, s, k, 1);
  }

  /** Below the source, or not overlapping, copying upwards moves. */
  lemma {:induction false} ForwardIsMove(m: Bytes, d: nat, s: nat, n: nat)
    requires d + n <= |m| && s + n <= |m|
    requires !(s < d < s + n)
    ensures ForwardCopy(m, d, s, n) == Moved(m, d, s, n)
  {
    hide Moved;
    if n > 0 {
      ForwardIsMove(m, d, s, n - 1);
      MovedLast(m, d, s, n);
    } else {
      MovedNone(m, d, s);
    }
  }

  /** Copying never writes outside the destination. */
  lemma {:induction false} ForwardOutside(m: Bytes, d: nat, s: nat, n: nat, j: nat)
    requires d + n <= |m| && s + n <= |m| && j < |m|
    requires j < d || d + n <= j
    ensures ForwardCopy(m, d, s, n)[j] == m[j]
  {
    if n > 0 {
      ForwardOutside(m, d, s, n - 1, j);
    }
  }

  lemma ForwardKeeps(m: Bytes, d: nat, s: nat, n: nat)
    requires d + n <= |m| && s + n <= |m|
    ensures forall j :: 0 <= j < |m| && !(d <= j < d + n) ==> ForwardCopy(m, d, s, n)[j] == m[j]
  {
    hide ForwardCopy;
    forall j | 0 <= j < |m| && !(d <= j < d + n) { ForwardOutside(m, d, s, n, j); }
  }

  /** What the i-th step writes stays. */
  lemma {:induction false} ForwardAt(m: Bytes, d: nat, s: nat, n: nat, i: nat)
    requires d + n <= |m| && s + n <= |m| && i < n
    ensures ForwardCopy(m, d, s, n)[d + i] == ForwardCopy(m, d, s, i)[s + i]
    decreases n
  {
    if i < n - 1 {
      ForwardAt(m, d, s, n - 1, i);
    }
  }

  /** Where the byte comes from that copying upwards leaves at offset i: with a destination past the
      source the bytes of the gap between the two repeat. */
  function Origin(d: nat, s: nat, i: nat): nat {
    if s < d && d - s <= i then Origin(d, s, i - (d - s)) else s + i
  }

  lemma {:induction false} ForwardBytes(m: Bytes, d: nat, s: nat, n: nat, i: nat)
    requires d + n <= |m| && s + n <= |m| && i < n
    ensures Origin(d, s, i) < |m| && ForwardCopy(m, d, s, n)[d + i] == m[Origin(d, s, i)]
    decreases i
  {
    hide ForwardCopy;
    ForwardAt(m, d, s, n, i);
    if s < d && d - s <= i {
      assert s + i == d + (i - (d - s));
      ForwardBytes(m, d, s, i, i - (d - s));
    } else {
      ForwardOutside(m, d, s, i, s + i);
    }
  }

  /** All bytes of a memory after copying n bytes upwards from s to d. */
  ghost predicate CopiedUp(m: Bytes, r: Bytes, d: nat, s: nat, n: nat)
    requires d + n <= |m| && s + n <= |m|
  {
    && |r| == |m|
    && (forall j :: 0 <= j < |m| && !(d <= j < d + n) ==> r[j] == m[j])
    && (forall i: nat :: i < n ==> Origin(d, s, i) < |m| && r[d + i] == m[Origin(d, s, i)])
  }

  lemma ForwardIsCopiedUp(m: Bytes, d: nat, s: nat, n: nat)
    requires d + n <= |m| && s + n <= |m|
    ensures CopiedUp(m, ForwardCopy(m, d, s, n), d, s, n)
  {
    hide ForwardCopy, Origin;
    ForwardKeeps(m, d, s, n);
    forall i: nat | i < n { ForwardBytes(m, d, s, n, i); }
  }

  /** nktMemCopy moves every memory's bytes correctly exactly when the destination does not start
      inside the source, past its first byte. */
  lemma CopyIsMoveIff(d: nat, s: nat, n: nat)
    ensures !(s < d < s + n) <==>
      forall m: Bytes :: d + n <= |m| && s + n <= |m| ==> ForwardCopy(m, d, s, n) == Moved(m, d, s, n)
  {
    if s < d < s + n {
      var g := d - s;
      var m: Bytes := seq(d + s + n, i => if i == s then 1 else 0);
      ForwardAt(m, d, s, n, g);
      ForwardAt(m, d, s, g, 0);
      assert ForwardCopy(m, d, s, n)[d + g] == 1;
      assert Moved(m, d, s, n)[d + g] == m[s + g] == 0;
    } else {
      forall m: Bytes | d + n <= |m| && s + n <= |m| ensures ForwardCopy(m, d, s, n) == Moved(m, d, s, n) {
        ForwardIsMove(m, d, s, n);
      }
    }
  }

  // --- nktMemMove

  /** Upwards, the next i bytes: the bytes moved so far do not reach into their source. */
  lemma MoveUp(m: Bytes, d: nat, s: nat, k: nat, i: nat)
    requires d + k + i <= |m| && s + k + i <= |m|
    requires d <= s || s + k + i <= d
    ensures Moved(MovedPart(m, d, s, 0, k), d + k, s + k, i) == MovedPart(m, d, s, 0, k + i)
  {
  }

  /** Downwards, the i bytes below number k. */
  lemma MoveDown(m: Bytes, d: nat, s: nat, k: nat, i: nat, n: nat)
    requires i <= k <= n && d + n <= |m| && s + n <= |m| && s < d
    ensures Moved(MovedPart(m, d, s, k, n), d + k - i, s + k - i, i) == MovedPart(m, d, s, k - i, n)
  {
  }

  lemma MoveNone(m: Bytes, d: nat, s: nat, k: nat)
    requires d + k <= |m| && s + k <= |m|
    ensures MovedPart(m, d, s, k, k) == m
  {
  }

  /** nktMemMove leaves the source's original bytes at the destination and everything else as it
      was, on every path and for every overlap and alignment. */
  method NktMemMove(mem: array<bv8>, dest: nat, src: nat, n: nat, w: nat)
    requires WordSize(w) && dest + n <= mem.Length && src + n <= mem.Length
    modifies mem
    ensures forall j :: 0 <= j < mem.Length ==>
      mem[j] == if dest <= j < dest + n then old(mem[src + (j - dest)]) else old(mem[j])
  {
    hide MovedPart;
    MovedAll(mem[..], dest, src, n);
    if dest <= src || dest >= src + n {
      MoveForward(mem, dest, src, n, w);
    } else {
      MoveBackward(mem, dest, src, n, w);
    }
  }

  lemma MovedAll(m: Bytes, d: nat, s: nat, n: nat)
    requires d + n <= |m| && s + n <= |m|
    ensures MovedPart(m, d, s, 0, n) == Moved(m, d, s, n)
  {
  }

  lemma AlignedStep(x: nat, w: nat)
    requires WordSize(w) && Aligned(x, w) && x > 0
    ensures x >= w && Aligned(x - w, w)
  {
  }

  lemma AlignedZero(w: nat)
    requires WordSize(w)
    ensures Aligned(0, w)
  {
  }

  /** The branch that copies from lower to higher addresses. */
  method MoveForward(mem: array<bv8>, dest: nat, src: nat, n: nat, w: nat)
    requires WordSize(w) && dest + n <= mem.Length && src + n <= mem.Length
    requires dest <= src || dest >= src + n
    modifies mem
    ensures mem[..] == MovedPart(old(mem[..]), dest, src, 0, n)
  {
    hide Moved, MovedPart, Aligned;
    var s, d, count := src, dest, n;
    ghost var was := mem[..];
    MoveNone(was, dest, src, 0);
    if d + w <= s && Aligned(s, w) && Aligned(d, w) {
      while count >= w
        invariant 0 <= count <= n && d == dest + (n - count) && s == src + (n - count)
        invariant mem[..] == MovedPart(was, dest, src, 0, n - count)
      {
        MoveUp(was, dest, src, n - count, w);
        CopyWord(mem, d, s, w);
        s := s + w;
        d := d + w;
        count := count - w;
      }
    }
    while count > 0
      invariant 0 <= count <= n && d == dest + (n - count) && s == src + (n - count)
      invariant mem[..] == MovedPart(was, dest, src, 0, n - count)
    {
      MoveUp(was, dest, src, n - count, 1);
      CopyByte(mem, d, s);
      d := d + 1;
      s := s + 1;
      count := count - 1;
    }
  }

  /** The branch that copies from higher to lower addresses. */
  method MoveBackward(mem: array<bv8>, dest: nat, src: nat, n: nat, w: nat)
    requires WordSize(w) && dest + n <= mem.Length && src + n <= mem.Length
    requires src < dest
    modifies mem
    ensures mem[..] == MovedPart(old(mem[..]), dest, src, 0, n)
  {
    hide Moved, MovedPart, Aligned;
    var s, d, count := src + n, dest + n, n;
    ghost var was := mem[..];
    MoveNone(was, dest, src, n);
    AlignedZero(w);
    if count >= w && Aligned(src, w) && Aligned(dest, w) {
      while count > 0 && !Aligned(count, w)
        invariant 0 <= count <= n && s == src + count && d == dest + count
        invariant mem[..] == MovedPart(was, dest, src, count, n)
      {
        s, d := s - 1, d - 1;
        MoveDown(was, dest, src, count, 1, n);
        CopyByte(mem, d, s);
        count := count - 1;
      }
      while count > 0
        invariant 0 <= count <= n && Aligned(count, w) && s == src + count && d == dest + count
        invariant mem[..] == MovedPart(was, dest, src, count, n)
      {
        AlignedStep(count, w);
        s, d := s - w, d - w;
        MoveDown(was, dest, src, count, w, n);
        CopyWord(mem, d, s, w);
        count := count - w;
      }
    } else {
      while count > 0
        invariant 0 <= count <= n && s == src + count && d == dest + count
        invariant mem[..] == MovedPart(was, dest, src, count, n)
      {
        s, d := s - 1, d - 1;
        MoveDown(was, dest, src, count, 1, n);
        CopyByte(mem, d, s);
        count := count - 1;
      }
    }
  }

  // --- nktMemCompare

  lemma {:induction false} DifferenceSkip(a: Bytes, b: Bytes, k: nat)
    requires |a| == |b| && k <= |a| && a[..k] == b[..k]
    ensures Difference(a, b) == Difference(a[k..], b[k..])
  {
    if k > 0 {
      assert a[0] == a[..k][0] == b[..k][0] == b[0];
      assert a[1..][..k - 1] == a[..k][1..] == b[..k][1..] == b[1..][..k - 1];
      DifferenceSkip(a[1..], b[1..], k - 1);
      assert a[1..][k - 1..] == a[k..] && b[1..][k - 1..] == b[k..];
    } else {
      assert a[0..] == a && b[0..] == b;
    }
  }

  /** The comparison is zero exactly on equal buffers and changes sign with the order of its
      arguments. */
  lemma {:induction false} DifferenceLaws(a: Bytes, b: Bytes)
    requires |a| == |b|
    ensures Difference(a, b) == 0 <==> a == b
    ensures Difference(b, a) == -Difference(a, b)
    ensures -255 <= Difference(a, b) <= 255
  {
    if a == [] {
    } else {
      DifferenceLaws(a[1..], b[1..]);
      assert a == [a[0]] + a[1..] && b == [b[0]] + b[1..];
    }
  }

  /** Two buffers of one length differ first at k. */
  ghost predicate DifferAt(a: Bytes, b: Bytes, k: nat) {
    k < |a| == |b| && (forall i :: 0 <= i < k ==> a[i] == b[i]) && a[k] != b[k]
  }

  /** a is before b in the lexicographic order of unsigned bytes. */
  ghost predicate Before(a: Bytes, b: Bytes) {
    exists k: nat :: DifferAt(a, b, k) && a[k] < b[k]
  }

  /** What a comparison of two buffers is to say: at the first difference it is the difference of
      the two bytes as unsigned numbers, and its sign tells the order of the buffers. */
  ghost predicate Compares(a: Bytes, b: Bytes, r: int)
    requires |a| == |b|
  {
    && (forall k: nat :: DifferAt(a, b, k) ==> r == a[k] as int - b[k] as int)
    && (r < 0 <==> Before(a, b)) && (r > 0 <==> Before(b, a)) && (r == 0 <==> a == b)
  }

  lemma DifferenceCompares(a: Bytes, b: Bytes)
    requires |a| == |b|
    ensures Compares(a, b, Difference(a, b))
  {
    hide Difference;
    DifferenceLaws(a, b);
    if a != b {
      var k := FirstAt(a, b);
      DifferenceAt(a, b, k);
      OrderAt(a, b, k);
      OrderAt(b, a, k);
      ByteOrder(a[k], b[k]);
    }
  }

  lemma OrderAt(a: Bytes, b: Bytes, k: nat)
    requires DifferAt(a, b, k)
    ensures DifferAt(b, a, k) && (Before(a, b) <==> a[k] < b[k])
    ensures forall i: nat :: DifferAt(a, b, i) ==> i == k
  {
  }

  lemma ByteOrder(x: bv8, y: bv8)
    ensures x < y <==> x as int < y as int
    ensures x == y <==> x as int == y as int
  {
  }

  lemma DifferenceAt(a: Bytes, b: Bytes, k: nat)
    requires DifferAt(a, b, k)
    ensures Difference(a, b) == a[k] as int - b[k] as int
  {
    assert a[..k] == b[..k];
    FirstDifference(a, b, k);
  }

  lemma {:induction false} FirstAt(a: Bytes, b: Bytes) returns (k: nat)
    requires |a| == |b| && a != b
    ensures DifferAt(a, b, k)
  {
    if a[0] != b[0] {
      k := 0;
    } else {
      assert a == [a[0]] + a[1..] && b == [b[0]] + b[1..];
      k := FirstAt(a[1..], b[1..]);
      k := k + 1;
    }
  }

  /** The first k bytes of two pieces of memory are the same. */
  ghost predicate Same(m: Bytes, x: nat, y: nat, k: nat)
    requires x + k <= |m| && y + k <= |m|
  {
    m[x..x + k] == m[y..y + k]
  }

  lemma SameMore(m: Bytes, x: nat, y: nat, k: nat, w: nat)
    requires x + k + w <= |m| && y + k + w <= |m| && Same(m, x, y, k) && Same(m, x + k, y + k, w)
    ensures Same(m, x, y, k + w)
  {
    assert m[x..x + (k + w)] == m[x..x + k] + m[x + k..x + k + w];
    assert m[y..y + (k + w)] == m[y..y + k] + m[y + k..y + k + w];
  }

  /** *(SIZE_T*)a == *(SIZE_T*)b */
  method SameWord(mem: array<bv8>, a: nat, b: nat, w: nat) returns (same: bool)
    requires a + w <= mem.Length && b + w <= mem.Length
    ensures same <==> Same(mem[..], a, b, w)
  {
    assert mem[a..a + w] == mem[..][a..a + w] && mem[b..b + w] == mem[..][b..b + w];
    same := mem[a..a + w] == mem[b..b + w];
  }

  /** The word loop of nktMemCompare: k bytes are equal, and at least one is left. */
  method SkipEqualWords(mem: array<bv8>, buf1: nat, buf2: nat, n: nat, w: nat) returns (k: nat)
    requires WordSize(w) && 0 < n && buf1 + n <= mem.Length && buf2 + n <= mem.Length
    ensures k < n && Same(mem[..], buf1, buf2, k)
  {
    hide Same;
    k := 0;
    SameNothing(mem[..], buf1, buf2);
    while n - k > w
      invariant 0 <= k < n && Same(mem[..], buf1, buf2, k)
    {
      var same := SameWord(mem, buf1 + k, buf2 + k, w);
      if !same {
        return;
      }
      SameMore(mem[..], buf1, buf2, k, w);
      k := k + w;
    }
  }

  lemma SameNothing(m: Bytes, x: nat, y: nat)
    requires x <= |m| && y <= |m|
    ensures Same(m, x, y, 0)
  {
  }

  /** nktMemCompare gives the difference of the first two bytes that differ, or 0. */
  method NktMemCompare(mem: array<bv8>, buf1: nat, buf2: nat, n: nat, w: nat) returns (r: int)
    requires WordSize(w) && buf1 + n <= mem.Length && buf2 + n <= mem.Length
    ensures r == Difference(mem[..][buf1..buf1 + n], mem[..][buf2..buf2 + n])
    ensures Compares(mem[..][buf1..buf1 + n], mem[..][buf2..buf2 + n], r)
  {
    hide Difference, Aligned, Same, Compares;
    ghost var m := mem[..];
    ghost var x, y := m[buf1..buf1 + n], m[buf2..buf2 + n];
    DifferenceCompares(x, y);
    if n == 0 {
      NoDifference(m, buf1, buf2);
      return 0;
    }
    var k := 0;
    SameNothing(m, buf1, buf2);
    if Aligned(buf1, w) && Aligned(buf2, w) {
      k := SkipEqualWords(mem, buf1, buf2, n, w);
    }
    while k + 1 < n && mem[buf1 + k] == mem[buf2 + k]
      invariant 0 <= k < n && Same(m, buf1, buf2, k)
    {
      SameByte(m, buf1 + k, buf2 + k);
      SameMore(m, buf1, buf2, k, 1);
      k := k + 1;
    }
    r := mem[buf1 + k] as int - mem[buf2 + k] as int;
    SameIsPrefix(m, buf1, buf2, k, n);
    FirstDifference(x, y, k);
  }

  lemma NoDifference(m: Bytes, x: nat, y: nat)
    requires x <= |m| && y <= |m|
    ensures Difference(m[x..x + 0], m[y..y + 0]) == 0
  {
  }

  lemma SameByte(m: Bytes, x: nat, y: nat)
    requires x < |m| && y < |m| && m[x] == m[y]
    ensures Same(m, x, y, 1)
  {
  }

  lemma SameIsPrefix(m: Bytes, x: nat, y: nat, k: nat, n: nat)
    requires k < n && x + n <= |m| && y + n <= |m| && Same(m, x, y, k)
    ensures m[x..x + n][..k] == m[y..y + n][..k]
  {
    assert m[x..x + n][..k] == m[x..x + k] && m[y..y + n][..k] == m[y..y + k];
  }

  /** At the first difference, or at the last byte. */
  lemma FirstDifference(x: Bytes, y: Bytes, k: nat)
    requires |x| == |y| && k < |x| && x[..k] == y[..k] && (x[k] != y[k] || k == |x| - 1)
    ensures Difference(x, y) == x[k] as int - y[k] as int
  {
    DifferenceSkip(x, y, k);
    assert x[k..][0] == x[k] && y[k..][0] == y[k];
    if x[k] == y[k] {
      assert x[k..][1..] == [] && y[k..][1..] == [];
    }
  }

  // --- nktTryMemCopy

  /** The n bytes at x can be accessed. */
  predicate Accessible(ok: set<nat>, x: nat, n: nat) {
    forall j :: x <= j < x + n ==> j in ok
  }

  lemma NextWord(k: nat, w: nat)
    requires WordSize(w) && k % w == 0
    ensures (k + w) % w == 0
  {
  }

  /** An access to a byte outside `ok` raises the exception that ends the copy. The count returned
      is the number of bytes copied. They were all accessible, and when they are fewer than n the
      next word, or the next byte, is not. */
  method NktTryMemCopy(mem: array<bv8>, dest: nat, src: nat, n: nat, w: nat, ok: set<nat>) returns (r: nat)
    requires WordSize(w) && dest + n <= mem.Length && src + n <= mem.Length
    modifies mem
    ensures r <= n && mem[..] == ForwardCopy(old(mem[..]), dest, src, r)
    ensures CopiedUp(old(mem[..]), mem[..], dest, src, r)
    ensures forall a :: src <= a < src + r || dest <= a < dest + r ==> a in ok
    ensures src % w == 0 == dest % w && r + w <= n ==> r % w == 0
    ensures r < n ==>
      var next := if src % w == 0 == dest % w && n - r >= w then w else 1;
      exists a :: (src + r <= a < src + r + next || dest + r <= a < dest + r + next) && a !in ok
  {
    hide Moved, ForwardCopy, CopiedUp;
    ForwardNone(mem[..], dest, src);
    var s, d, count := src, dest, n;
    ghost var was := mem[..];
    if Aligned(s, w) && Aligned(d, w) {
      AlignedGap(d, s, w);
      while count >= w
        invariant (n - count) % w == 0
        invariant 0 <= count <= n && d == dest + (n - count) && s == src + (n - count)
        invariant mem[..] == ForwardCopy(was, dest, src, n - count)
        invariant Accessible(ok, src, n - count) && Accessible(ok, dest, n - count)
      {
        if !Accessible(ok, s, w) || !Accessible(ok, d, w) {
          ForwardIsCopiedUp(was, dest, src, n - count);
          return n - count;
        }
        NextWord(n - count, w);
        WordStep(was, dest, src, n - count, w);
        CopyWord(mem, d, s, w);
        s := s + w;
        d := d + w;
        count := count - w;
      }
    }
    while count > 0
      invariant src % w == 0 == dest % w ==> count < w
      invariant 0 <= count <= n && d == dest + (n - count) && s == src + (n - count)
      invariant mem[..] == ForwardCopy(was, dest, src, n - count)
      invariant Accessible(ok, src, n - count) && Accessible(ok, dest, n - count)
    {
      if !Accessible(ok, s, 1) || !Accessible(ok, d, 1) {
        ForwardIsCopiedUp(was, dest, src, n - count);
        return n - count;
      }
      ByteStep(was, dest, src, n - count);
      CopyByte(mem, d, s);
      d := d + 1;
      s := s + 1;
      count := count - 1;
    }
    ForwardIsCopiedUp(was, dest, src, n - count);
    return n - count;
  }
}
