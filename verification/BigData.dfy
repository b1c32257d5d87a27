/** CNktDvTransportBigData: reassembly of large messages from numbered fragments.

The table holds one growable buffer for each identifier, sorted by identifier. Packets of
different identifiers arrive interleaved; a packet numbered 1 starts its message over.
*/
module BigData {
  import opened Bits
  import opened Options
  import opened SortedList

  type Byte = bv8

  const BLOCK: nat := 32768

  /** lpData is the whole buffer, of nSize bytes; the first nLen are the message so far. */
  datatype Block = Block(nLastOrderNo: nat, lpData: seq<Byte>, nLen: nat)

  datatype Packet = Packet(dwId: nat, dwOrderNo: nat, aData: seq<Byte>)

  ghost predicate WellFormed(p: Packet) {
    p.dwId < DWORD_LIMIT && p.dwOrderNo < DWORD_LIMIT && |p.aData| < DWORD_LIMIT
  }

  datatype HResult = S_OK | E_FAIL | E_OUTOFMEMORY

  /** Whether the allocations a packet may need succeed: the first buffer of a message, its
      place in the table, and a larger buffer. */
  datatype Memory = Memory(buffer: bool, place: bool, larger: bool)

  const PLENTY := Memory(true, true, true)

  type Table = seq<Entry<Block>>

  function NewBlock(): Block {
    Block(0, seq(BLOCK, _ => 0), 0)
  }

  /** The size a buffer grows to for n bytes. */
  function RoundedUp(n: nat): nat {
    (n + BLOCK - 1) % SIZE_LIMIT / BLOCK * BLOCK
  }

  function NextOrder(b: Block): nat {
    (b.nLastOrderNo + 1) % DWORD_LIMIT
  }

  /** The buffer after n bytes were written at nLen. */
  function Written(data: seq<Byte>, len: nat, more: seq<Byte>): seq<Byte>
    requires len + |more| <= |data|
  {
    data[..len] + more + data[len + |more|..]
  }

  /** Checks the order and appends the payload. */
  function Append(b: Block, p: Packet, m: Memory): (Block, HResult) {
    if p.dwOrderNo != NextOrder(b) then (b, E_FAIL)
    else
      var n := |p.aData|;
      var total := n + b.nLen;
      if n == 0 then (b.(nLastOrderNo := NextOrder(b)), S_OK)
      else if total >= SIZE_LIMIT then (b, E_OUTOFMEMORY)
      else if total <= |b.lpData| then
        (Block(NextOrder(b), Written(b.lpData, b.nLen, p.aData), total), S_OK)
      else
        var k := RoundedUp(total);
        if !m.larger || k > ADDRESS_SPACE || k < total then (b, E_OUTOFMEMORY)
        else (Block(NextOrder(b), Written(b.lpData + seq(k - |b.lpData|, _ => 0), b.nLen, p.aData), total), S_OK)
  }

  /** ProcessPacket on the table. */
  function Process(t: Table, p: Packet, m: Memory): (Table, HResult) {
    match Get(t, p.dwId)
    case Some(b) =>
      var (c, r) := Append(if p.dwOrderNo == 1 then Block(0, b.lpData, 0) else b, p, m);
      (Updated(t, p.dwId, c), r)
    case None =>
      if !m.buffer || !m.place then (t, E_OUTOFMEMORY)
      else
        var (c, r) := Append(NewBlock(), p, m);
        (InsertSorted(t, Entry(p.dwId, c)), r)
  }

  ghost predicate BlockOk(b: Block) {
    && b.nLen <= |b.lpData| <= ADDRESS_SPACE
    && b.nLastOrderNo < DWORD_LIMIT
  }

  ghost predicate TableOk(t: Table) {
    Sorted(t) && forall i :: 0 <= i < |t| ==> BlockOk(t[i].value)
  }

  // --- The class

  class CNktDvTransportBigData {
    var aBlocksList: Table
    var nNextBuildPacketId: nat

    ghost predicate Valid()
      reads this
    {
      TableOk(aBlocksList) && nNextBuildPacketId < DWORD_LIMIT
    }

    constructor ()
      ensures Valid() && aBlocksList == [] && nNextBuildPacketId == 0
    {
      aBlocksList, nNextBuildPacketId := [], 0;
    }

    method ProcessPacket(p: Packet, m: Memory) returns (hRes: HResult)
      requires Valid() && WellFormed(p)
      modifies this`aBlocksList
      ensures Valid() && (aBlocksList, hRes) == Process(old(aBlocksList), p, m)
    {
      hide Process, TableOk, BlockOk, Updated, InsertSorted, Sorted, Get, RoundedUp;
      ProcessOk(aBlocksList, p, m);
      TableSorted(aBlocksList);
      var k: nat := 0;
      var lpBlock: Block;
      var found := BinarySearch(aBlocksList, p.dwId);
      if found.Some? {
        k := found.value;
        lpBlock := aBlocksList[k].value;
        if p.dwOrderNo == 1 {
          lpBlock := lpBlock.(nLastOrderNo := 0, nLen := 0);
        }
      } else {
        if !m.buffer || !m.place {
          ProcessMissing(aBlocksList, p, m);
          return E_OUTOFMEMORY;
        }
        lpBlock := NewBlock();
      }
      ghost var start := lpBlock;
      ghost var t := aBlocksList;
      hRes := S_OK;
      if p.dwOrderNo != (lpBlock.nLastOrderNo + 1) % DWORD_LIMIT {
        hRes := E_FAIL;
      }
      if hRes == S_OK {
        var nLen := |p.aData|;
        if nLen > 0 {
          if nLen + lpBlock.nLen >= SIZE_LIMIT {
            hRes := E_OUTOFMEMORY;
          } else if nLen + lpBlock.nLen > |lpBlock.lpData| {
            var size := RoundedUp(nLen + lpBlock.nLen);
            RoundedUpCovers(nLen + lpBlock.nLen);
            if m.larger && size <= ADDRESS_SPACE {
              lpBlock := lpBlock.(lpData := lpBlock.lpData + seq(size - |lpBlock.lpData|, _ => 0));
            } else {
              hRes := E_OUTOFMEMORY;
            }
          }
          if hRes == S_OK {
            lpBlock := lpBlock.(lpData := Written(lpBlock.lpData, lpBlock.nLen, p.aData), nLen := lpBlock.nLen + nLen);
          }
        }
      }
      if hRes == S_OK {
        lpBlock := lpBlock.(nLastOrderNo := (lpBlock.nLastOrderNo + 1) % DWORD_LIMIT);
      }
      assert (lpBlock, hRes) == Append(start, p, m);
      if found.Some? {
        ProcessFound(t, p, m, k);
        aBlocksList := aBlocksList[k := Entry(p.dwId, lpBlock)];
      } else {
        ProcessMissing(t, p, m);
        aBlocksList := InsertSorted(aBlocksList, Entry(p.dwId, lpBlock));
      }
    }

    /** The identifier after the last one given out; 0 is never given out. */
    method GetNextBuildId() returns (id: nat)
      requires Valid()
      modifies this`nNextBuildPacketId
      ensures Valid() && id == nNextBuildPacketId == NextId(old(nNextBuildPacketId)) && id != 0
    {
      nNextBuildPacketId := (nNextBuildPacketId + 1) % DWORD_LIMIT;
      while nNextBuildPacketId == 0
        invariant nNextBuildPacketId < DWORD_LIMIT
        invariant nNextBuildPacketId == 0 ==> old(nNextBuildPacketId) == DWORD_LIMIT - 1
        invariant nNextBuildPacketId != 0 ==> nNextBuildPacketId == NextId(old(nNextBuildPacketId))
        decreases nNextBuildPacketId == 0
      {
        nNextBuildPacketId := (nNextBuildPacketId + 1) % DWORD_LIMIT;
      }
      id := nNextBuildPacketId;
    }

    method Reset()
      modifies this
      ensures Valid() && aBlocksList == [] && nNextBuildPacketId == 0
    {
      aBlocksList, nNextBuildPacketId := [], 0;
    }

    method GetLength(dwId: nat) returns (n: nat)
      requires Valid()
      ensures n == if Get(aBlocksList, dwId).Some? then Get(aBlocksList, dwId).value.nLen else 0
    {
      var r := BinarySearch(aBlocksList, dwId);
      n := if r.Some? then aBlocksList[r.value].value.nLen else 0;
    }

    /** The buffer; the first GetLength bytes are the message. */
    method GetData(dwId: nat) returns (data: Option<seq<Byte>>)
      requires Valid()
      ensures data == if Get(aBlocksList, dwId).Some? then Some(Get(aBlocksList, dwId).value.lpData) else None
    {
      var r := BinarySearch(aBlocksList, dwId);
      data := if r.Some? then Some(aBlocksList[r.value].value.lpData) else None;
    }

    method Remove(dwId: nat)
      requires Valid()
      modifies this`aBlocksList
      ensures Valid() && aBlocksList == Removed(old(aBlocksList), dwId)
    {
      var r := BinarySearch(aBlocksList, dwId);
      RemovedOk(aBlocksList, dwId);
      RemovedKeeps(aBlocksList, dwId);
      if r.Some? {
        RemovedAt(aBlocksList, r.value);
        aBlocksList := aBlocksList[..r.value] + aBlocksList[r.value + 1..];
      }
    }
  }

  // --- The table operations as a map sees them

  lemma RoundedUpCovers(n: nat)
    requires n + BLOCK <= SIZE_LIMIT
    ensures n <= RoundedUp(n) < n + BLOCK && RoundedUp(n) % BLOCK == 0
  {
  }

  lemma TableSorted(t: Table)
    requires TableOk(t)
    ensures Sorted(t) && forall i :: 0 <= i < |t| ==> t[i].value.nLen <= ADDRESS_SPACE
  {
  }

  /** What Process does to the entry of a known identifier. */
  lemma ProcessFound(t: Table, p: Packet, m: Memory, k: nat)
    requires Sorted(t) && k < |t| && t[k].key == p.dwId
    ensures var b := t[k].value;
      var (c, r) := Append(if p.dwOrderNo == 1 then b.(nLastOrderNo := 0, nLen := 0) else b, p, m);
      Process(t, p, m) == (t[k := Entry(p.dwId, c)], r)
  {
    hide Append;
    var b := t[k].value;
    GetAt(t, k);
    UpdatedAt(t, k, Append(if p.dwOrderNo == 1 then Block(0, b.lpData, 0) else b, p, m).0);
  }

  lemma ProcessMissing(t: Table, p: Packet, m: Memory)
    requires Get(t, p.dwId).None?
    ensures !m.buffer || !m.place ==> Process(t, p, m) == (t, E_OUTOFMEMORY)
    ensures m.buffer && m.place ==>
      var (c, r) := Append(NewBlock(), p, m);
      Process(t, p, m) == (InsertSorted(t, Entry(p.dwId, c)), r)
  {
    hide Append;
  }

  lemma UpdatedOk(t: Table, id: nat, b: Block)
    requires TableOk(t) && Get(t, id).Some? && BlockOk(b)
    ensures TableOk(Updated(t, id, b))
  {
    UpdatedKeeps(t, id, b);
    var i := GetFound(t, id);
    UpdatedAt(t, i, b);
  }

  lemma RemovedOk(t: Table, id: nat)
    requires TableOk(t)
    ensures TableOk(Removed(t, id))
  {
    RemovedKeeps(t, id);
    if Get(t, id).Some? {
      var i := GetFound(t, id);
      RemovedAt(t, i);
    }
  }

  lemma InsertedKeeps(t: Table, id: nat, b: Block)
    requires Sorted(t) && Get(t, id).None?
    ensures Sorted(InsertSorted(t, Entry(id, b)))
    ensures forall k: nat :: Get(InsertSorted(t, Entry(id, b)), k) == if k == id then Some(b) else Get(t, k)
    ensures TableOk(t) && BlockOk(b) ==> TableOk(InsertSorted(t, Entry(id, b)))
  {
    InsertKeeps(t, Entry(id, b));
    InsertIsAtPosition(t, Entry(id, b));
  }

  lemma AppendOk(b: Block, p: Packet, m: Memory)
    requires BlockOk(b) && WellFormed(p)
    ensures BlockOk(Append(b, p, m).0)
  {
    if |p.aData| + b.nLen > |b.lpData| { RoundedUpCovers(|p.aData| + b.nLen); }
  }

  lemma GetBlockOk(t: Table, id: nat)
    requires TableOk(t) && Get(t, id).Some?
    ensures BlockOk(Get(t, id).value)
  {
    var i := GetFound(t, id);
  }

  /** Every packet keeps the table sorted and each buffer large enough for its message. */
  lemma ProcessOk(t: Table, p: Packet, m: Memory)
    requires TableOk(t) && WellFormed(p)
    ensures TableOk(Process(t, p, m).0)
  {
    match Get(t, p.dwId)
    case Some(b) =>
      GetBlockOk(t, p.dwId);
      var start := if p.dwOrderNo == 1 then Block(0, b.lpData, 0) else b;
      AppendOk(start, p, m);
      UpdatedOk(t, p.dwId, Append(start, p, m).0);
    case None =>
      AppendOk(NewBlock(), p, m);
      InsertedKeeps(t, p.dwId, Append(NewBlock(), p, m).0);
  }

  // --- What a message looks like from outside

  /** A message in progress: the number of its last fragment and its bytes. */
  datatype Stream = Stream(last: nat, bytes: seq<Byte>)

  ghost function StreamOf(b: Block): Stream
    requires b.nLen <= |b.lpData|
  {
    Stream(b.nLastOrderNo, b.lpData[..b.nLen])
  }

  ghost function View(t: Table, id: nat): Option<Stream>
    requires TableOk(t)
  {
    match Get(t, id)
    case None => None
    case Some(b) => GetBlockOk(t, id); Some(StreamOf(b))
  }

  /** The message a packet is appended to. */
  ghost function Base(t: Table, p: Packet): Stream
    requires TableOk(t)
  {
    match View(t, p.dwId)
    case None => Stream(0, [])
    case Some(s) => if p.dwOrderNo == 1 then Stream(0, []) else s
  }

  lemma AppendView(b: Block, p: Packet, m: Memory)
    requires BlockOk(b) && WellFormed(p)
    ensures var (c, r) := Append(b, p, m);
      && BlockOk(c)
      && (r == S_OK ==> p.dwOrderNo == NextOrder(b) && StreamOf(c) == Stream(NextOrder(b), StreamOf(b).bytes + p.aData))
      && (r != S_OK ==> c == b)
      && (r == E_FAIL <==> p.dwOrderNo != NextOrder(b))
      && (r == E_OUTOFMEMORY ==> !m.larger || b.nLen + |p.aData| + BLOCK > ADDRESS_SPACE)
  {
    AppendOk(b, p, m);
    if |p.aData| + b.nLen > |b.lpData| { RoundedUpCovers(|p.aData| + b.nLen); }
  }

  /** One packet: another identifier's message is untouched. Its own grows by the payload when
      the packet is the next in order; otherwise no stored byte changes, except that a packet
      numbered 1 has emptied the message first. */
  lemma ProcessView(t: Table, p: Packet, m: Memory)
    requires TableOk(t) && WellFormed(p)
    ensures var (u, r) := Process(t, p, m);
      && TableOk(u)
      && (forall id: nat :: id != p.dwId ==> View(u, id) == View(t, id))
      && (r == S_OK ==>
            && p.dwOrderNo == (Base(t, p).last + 1) % DWORD_LIMIT
            && View(u, p.dwId) == Some(Stream(p.dwOrderNo, Base(t, p).bytes + p.aData)))
      && (r != S_OK ==> View(u, p.dwId) == Some(Base(t, p)) || (View(t, p.dwId) == None && u == t))
      && (p.dwOrderNo != (Base(t, p).last + 1) % DWORD_LIMIT ==> r != S_OK)
      && (r != S_OK && p.dwOrderNo == (Base(t, p).last + 1) % DWORD_LIMIT ==>
            m != PLENTY || |Base(t, p).bytes| + |p.aData| + BLOCK > ADDRESS_SPACE)
  {
    ProcessOk(t, p, m);
    match Get(t, p.dwId)
    case Some(b) =>
      GetBlockOk(t, p.dwId);
      var start := if p.dwOrderNo == 1 then Block(0, b.lpData, 0) else b;
      AppendView(start, p, m);
      UpdatedKeeps(t, p.dwId, Append(start, p, m).0);
    case None =>
      AppendView(NewBlock(), p, m);
      InsertedKeeps(t, p.dwId, Append(NewBlock(), p, m).0);
  }

  /** The buffer of the message a packet is appended to, and what it may come to: the least number of
      blocks of 32 KiB that holds the message. */
  function BufferOf(t: Table, p: Packet): nat {
    match Get(t, p.dwId)
    case None => 32768
    case Some(b) => |b.lpData|
  }

  /** What ProcessPacket answers. A message that is not known gets an entry, if memory suffices for it,
      even when the packet is then refused for its number. A buffer only grows when the payload
      does not fit. */
  ghost predicate Answers(t: Table, p: Packet, m: Memory, u: Table, r: HResult)
    requires TableOk(t) && TableOk(u)
  {
    var size, total := BufferOf(t, p), |Base(t, p).bytes| + |p.aData|;
    if View(t, p.dwId).None? && !(m.buffer && m.place) then r == E_OUTOFMEMORY && u == t
    else
      && Get(u, p.dwId).Some?
      && (r == E_FAIL <==> p.dwOrderNo != (Base(t, p).last + 1) % DWORD_LIMIT)
      && (r != S_OK ==> View(u, p.dwId) == Some(Base(t, p)) && BufferOf(u, p) == size)
      && (r == E_OUTOFMEMORY ==> p.aData != [] && total > size && (!m.larger || total + 32767 > ADDRESS_SPACE))
      && (r == S_OK && (p.aData == [] || total <= size) ==> BufferOf(u, p) == size)
      && (r == S_OK && p.aData != [] && total > size ==>
            m.larger && BufferOf(u, p) % 32768 == 0 && total <= BufferOf(u, p) < total + 32768)
  }

  lemma ProcessAnswers(t: Table, p: Packet, m: Memory)
    requires TableOk(t) && WellFormed(p)
    ensures TableOk(Process(t, p, m).0) && Answers(t, p, m, Process(t, p, m).0, Process(t, p, m).1)
  {
    hide Append, Sorted, Updated, InsertSorted;
    ProcessOk(t, p, m);
    match Get(t, p.dwId)
    case Some(b) =>
      GetBlockOk(t, p.dwId);
      var start := if p.dwOrderNo == 1 then Block(0, b.lpData, 0) else b;
      AppendView(start, p, m);
      AppendSize(start, p, m);
      TableSorted(t);
      UpdatedKeeps(t, p.dwId, Append(start, p, m).0);
    case None =>
      AppendView(NewBlock(), p, m);
      AppendSize(NewBlock(), p, m);
      TableSorted(t);
      InsertedKeeps(t, p.dwId, Append(NewBlock(), p, m).0);
  }

  lemma AppendSize(b: Block, p: Packet, m: Memory)
    requires BlockOk(b) && WellFormed(p)
    ensures var (c, r) := Append(b, p, m);
      var size, total := |b.lpData|, b.nLen + |p.aData|;
      && (r == E_OUTOFMEMORY ==> p.aData != [] && total > size && (!m.larger || total + 32767 > ADDRESS_SPACE))
      && (r != S_OK || p.aData == [] || total <= size ==> |c.lpData| == size)
      && (r == S_OK && p.aData != [] && total > size ==>
            m.larger && |c.lpData| % 32768 == 0 && total <= |c.lpData| < total + 32768)
  {
    if |p.aData| + b.nLen > |b.lpData| { RoundedUpCovers(|p.aData| + b.nLen); }
  }

  // --- Whole runs

  datatype Op = Arrive(p: Packet, m: Memory) | Release(id: nat)

  ghost predicate OpsOk(ops: seq<Op>) {
    forall i :: 0 <= i < |ops| ==> ops[i].Arrive? ==> WellFormed(ops[i].p)
  }

  function Step(t: Table, op: Op): Table {
    match op
    case Arrive(p, m) => Process(t, p, m).0
    case Release(id) => Removed(t, id)
  }

  function Run(t: Table, ops: seq<Op>): Table {
    if ops == [] then t else Step(Run(t, ops[..|ops| - 1]), ops[|ops| - 1])
  }

  lemma RemovedView(t: Table, id: nat)
    requires TableOk(t)
    ensures TableOk(Removed(t, id))
    ensures forall k: nat :: View(Removed(t, id), k) == if k == id then None else View(t, k)
  {
    RemovedOk(t, id);
    RemovedKeeps(t, id);
  }

  lemma {:induction false} RunOk(t: Table, ops: seq<Op>)
    requires TableOk(t) && OpsOk(ops)
    ensures TableOk(Run(t, ops))
  {
    if ops != [] {
      var op := ops[|ops| - 1];
      RunOk(t, ops[..|ops| - 1]);
      match op
      case Arrive(p, m) => ProcessOk(Run(t, ops[..|ops| - 1]), p, m);
      case Release(id) => RemovedView(Run(t, ops[..|ops| - 1]), id);
    }
  }

  function Concat(ps: seq<Packet>): seq<Byte> {
    if ps == [] then [] else Concat(ps[..|ps| - 1]) + ps[|ps| - 1].aData
  }

  /** The packets of one identifier that were accepted since the last one numbered 1, or since
      the message was released. */
  function Accepted(ops: seq<Op>, id: nat): seq<Packet> {
    if ops == [] then []
    else
      var before := Accepted(ops[..|ops| - 1], id);
      match ops[|ops| - 1]
      case Release(x) => if x == id then [] else before
      case Arrive(p, m) =>
        if p.dwId != id then before
        else
          var base := if p.dwOrderNo == 1 then [] else before;
          if Process(Run([], ops[..|ops| - 1]), p, m).1 == S_OK then base + [p] else base
  }

  /** A stored message is the concatenation of these packets, numbered 1, 2, 3, and so on up to
      its nLastOrderNo. */
  ghost predicate Tracks(v: Option<Stream>, a: seq<Packet>) {
    && (forall i :: 0 <= i < |a| ==> a[i].dwOrderNo == (i + 1) % DWORD_LIMIT)
    && match v
       case None => a == []
       case Some(s) => s.last == |a| % DWORD_LIMIT && s.bytes == Concat(a)
  }

  lemma TracksNext(a: seq<Packet>, p: Packet)
    requires Tracks(Some(Stream(|a| % DWORD_LIMIT, Concat(a))), a) &&
        p.dwOrderNo == (|a| % DWORD_LIMIT + 1) % DWORD_LIMIT
    ensures Tracks(Some(Stream(p.dwOrderNo, Concat(a) + p.aData)), a + [p])
  {
    hide Concat;
    var b := a + [p];
    ConcatLast(a, p);
    NextOrderIs(|a|);
    assert forall i :: 0 <= i < |a| ==> b[i] == a[i];
  }

  lemma ConcatLast(a: seq<Packet>, p: Packet)
    ensures Concat(a + [p]) == Concat(a) + p.aData
  {
    assert (a + [p])[..|a|] == a && (a + [p])[|a|] == p;
  }

  lemma NextOrderIs(n: nat)
    ensures (n % DWORD_LIMIT + 1) % DWORD_LIMIT == (n + 1) % DWORD_LIMIT
  {
  }

  lemma TracksStep(t: Table, a: seq<Packet>, p: Packet, m: Memory)
    requires TableOk(t) && WellFormed(p) && Tracks(View(t, p.dwId), a)
    ensures TableOk(Process(t, p, m).0)
    ensures var (u, r) := Process(t, p, m);
      var base := if p.dwOrderNo == 1 then [] else a;
      Tracks(View(u, p.dwId), if r == S_OK then base + [p] else base)
  {
    hide Process, TableOk, View, Tracks, WellFormed;
    ProcessView(t, p, m);
    var base := if p.dwOrderNo == 1 then [] else a;
    TracksBase(t, a, p);
    if Process(t, p, m).1 == S_OK {
      TracksNext(base, p);
    } else if View(t, p.dwId) == None {
      TracksNone(a, p);
    }
  }

  lemma TracksNone(a: seq<Packet>, p: Packet)
    requires Tracks(None, a)
    ensures a == [] && Tracks(None, []) && Tracks(Some(Stream(0, [])), [])
  {
  }

  lemma TracksBase(t: Table, a: seq<Packet>, p: Packet)
    requires TableOk(t) && Tracks(View(t, p.dwId), a)
    ensures var base := if p.dwOrderNo == 1 then [] else a;
      Base(t, p) == Stream(|base| % DWORD_LIMIT, Concat(base)) && Tracks(Some(Base(t, p)), base)
  {
    hide TableOk, View;
  }

  /** After any sequence of packets and releases, whatever allocations failed: a stored message is
      the concatenation of the payloads accepted since its last packet numbered 1, and these are
      numbered 1, 2, 3, and so on up to nLastOrderNo. */
  lemma {:induction false} StoredIsAccepted(ops: seq<Op>, id: nat)
    requires OpsOk(ops)
    ensures TableOk(Run([], ops))
    ensures Tracks(View(Run([], ops), id), Accepted(ops, id))
    decreases |ops|
  {
    hide Process, TableOk, View, Tracks, Removed, WellFormed;
    RunOk([], ops);
    if ops == [] {
      NothingStored(id);
    } else {
      var before := ops[..|ops| - 1];
      StoredIsAccepted(before, id);
      var t := Run([], before);
      match ops[|ops| - 1]
      case Release(x) =>
        RemovedView(t, x);
        NothingStored(id);
      case Arrive(p, m) =>
        ProcessView(t, p, m);
        if p.dwId == id { TracksStep(t, Accepted(before, id), p, m); }
    }
  }

  lemma NothingStored(id: nat)
    ensures TableOk([]) && View([], id) == None && Tracks(None, [])
  {
  }

  // --- The round trip

  /** The packets of one identifier. */
  function Own(ops: seq<Op>, id: nat): seq<Packet> {
    if ops == [] then []
    else
      var before := Own(ops[..|ops| - 1], id);
      match ops[|ops| - 1]
      case Arrive(p, m) => if p.dwId == id then before + [p] else before
      case Release(_) => before
  }

  /** Fragments numbered from 1, in a DWORD. */
  ghost predicate Numbered(ps: seq<Packet>) {
    forall i :: 0 <= i < |ps| ==> ps[i].dwOrderNo == (i + 1) % DWORD_LIMIT
  }

  /** How many fragments a later one numbered 1 made obsolete: all before the last of these. */
  function Obsolete(n: nat): nat {
    if n == 0 then 0 else (n - 1) / DWORD_LIMIT * DWORD_LIMIT
  }

  lemma ObsoleteNext(n: nat)
    ensures Obsolete(n) <= n && (n > 0 ==> Obsolete(n) < n)
    ensures Obsolete(n + 1) == if n % DWORD_LIMIT == 0 then n else Obsolete(n)
    ensures n <= DWORD_LIMIT ==> Obsolete(n) == 0
    ensures n > DWORD_LIMIT ==> Obsolete(n) > 0
  {
  }

  function Current(ps: seq<Packet>): seq<Packet> {
    ObsoleteNext(|ps|);
    ps[Obsolete(|ps|)..]
  }

  ghost predicate Undisturbed(ops: seq<Op>, id: nat) {
    forall i :: 0 <= i < |ops| ==>
      match ops[i]
      case Arrive(p, m) => p.dwId == id ==> m == PLENTY
      case Release(x) => x != id
  }

  /** What the message looks like when these fragments, and no others of its own, have arrived. */
  ghost function Joined(v: Option<Stream>, own: seq<Packet>): Option<Stream> {
    if own == [] then v else Some(Stream(|own| % DWORD_LIMIT, Concat(Current(own))))
  }

  lemma ReassemblyStep(t: Table, v: Option<Stream>, own: seq<Packet>, p: Packet)
    requires TableOk(t) && WellFormed(p) && View(t, p.dwId) == Joined(v, own)
    requires p.dwOrderNo == (|own| + 1) % DWORD_LIMIT
    requires |Concat(own)| + |p.aData| + BLOCK <= ADDRESS_SPACE
    ensures TableOk(Process(t, p, PLENTY).0)
    ensures View(Process(t, p, PLENTY).0, p.dwId) == Joined(v, own + [p])
  {
    hide Process, TableOk, View, WellFormed, Joined, Base, Concat, Current;
    JoinedNext(t, v, own, p);
    NextOrderIs(|own|);
    CurrentIsShorter(own);
    ProcessView(t, p, PLENTY);
  }

  /** Before a fragment numbered 1 the message is emptied, also where the numbers started over. */
  lemma JoinedNext(t: Table, v: Option<Stream>, own: seq<Packet>, p: Packet)
    requires TableOk(t) && View(t, p.dwId) == Joined(v, own) && p.dwOrderNo == (|own| + 1) % DWORD_LIMIT
    ensures Base(t, p).last == |own| % DWORD_LIMIT
    ensures Base(t, p).bytes == [] || Base(t, p).bytes == Concat(Current(own))
    ensures Joined(v, own + [p]) == Some(Stream(p.dwOrderNo, Base(t, p).bytes + p.aData))
  {
    hide TableOk, View, Concat;
    ObsoleteNext(|own|);
    NextOrderIs(|own|);
    OrderIsOne(|own|);
    var k := Obsolete(|own|);
    if |own| % DWORD_LIMIT == 0 {
      assert Current(own + [p]) == [] + [p];
      ConcatLast([], p);
      NoBytes();
    } else {
      assert Current(own + [p]) == own[k..] + [p];
      ConcatLast(own[k..], p);
    }
  }

  lemma OrderIsOne(n: nat)
    ensures (n + 1) % DWORD_LIMIT == 1 <==> n % DWORD_LIMIT == 0
  {
  }

  lemma NoBytes()
    ensures Concat([]) == []
  {
  }

  lemma {:induction false} ConcatParts(a: seq<Packet>, b: seq<Packet>)
    ensures Concat(a + b) == Concat(a) + Concat(b)
    decreases |b|
  {
    hide Concat;
    NoBytes();
    if b == [] {
      assert a + b == a;
    } else {
      var c, p := b[..|b| - 1], b[|b| - 1];
      ConcatParts(a, c);
      assert a + b == (a + c) + [p] && b == c + [p];
      ConcatLast(a + c, p);
      ConcatLast(c, p);
    }
  }

  lemma CurrentIsShorter(own: seq<Packet>)
    ensures |Concat(Current(own))| <= |Concat(own)|
  {
    hide Concat;
    ObsoleteNext(|own|);
    ConcatParts(own[..Obsolete(|own|)], Current(own));
    assert own[..Obsolete(|own|)] + Current(own) == own;
  }

  /** Fragments numbered from 1 that arrive in order, interleaved in any way with the packets and
      releases of other identifiers, and whatever was stored before under their own, leave exactly
      their concatenation: all of them up to 2^32 fragments, and with more, where the numbers
      start over, those since the last numbered 1. */
  lemma {:induction false} Reassembly(t: Table, ops: seq<Op>, id: nat)
    requires TableOk(t) && OpsOk(ops) && Undisturbed(ops, id)
    requires Numbered(Own(ops, id)) && |Concat(Own(ops, id))| + BLOCK <= ADDRESS_SPACE
    ensures TableOk(Run(t, ops))
    ensures View(Run(t, ops), id) == Joined(View(t, id), Own(ops, id))
    decreases |ops|
  {
    hide Process, TableOk, View, Joined, Removed, WellFormed, Current;
    RunOk(t, ops);
    if ops == [] {
      NothingArrived(View(t, id));
    } else {
      var before := ops[..|ops| - 1];
      var own, prev := Own(ops, id), Own(before, id);
      match ops[|ops| - 1]
      case Release(x) =>
        Reassembly(t, before, id);
        RemovedView(Run(t, before), x);
      case Arrive(p, m) =>
        if p.dwId == id {
          assert own[..|own| - 1] == prev && own[|own| - 1] == p;
          assert forall i :: 0 <= i < |prev| ==> prev[i] == own[i];
          Reassembly(t, before, id);
          ReassemblyStep(Run(t, before), View(t, id), prev, p);
        } else {
          Reassembly(t, before, id);
          ProcessView(Run(t, before), p, m);
        }
    }
  }

  lemma NothingArrived(v: Option<Stream>)
    ensures Joined(v, []) == v
  {
  }

  /** The sender's split: fragments of `max` bytes, and the rest. */
  function Split(id: nat, data: seq<Byte>, max: nat, order: nat): seq<Packet>
    requires max > 0
    decreases |data|
  {
    if data == [] then []
    else
      var n := if |data| > max then max else |data|;
      [Packet(id, order % DWORD_LIMIT, data[..n])] + Split(id, data[n..], max, order + 1)
  }

  /** The loop of SendBigPacketMsg. */
  method SendBigPacketMsg(id: nat, data: seq<Byte>, max: nat) returns (sent: seq<Packet>)
    requires max > 0
    ensures sent == Split(id, data, max, 1)
  {
    hide Split;
    sent := [];
    ghost var order: nat := 1;
    var rest, dwOrderNo := data, 1;
    while rest != []
      invariant dwOrderNo == order % DWORD_LIMIT
      invariant Split(id, data, max, 1) == sent + Split(id, rest, max, order)
      decreases |rest|
    {
      var nThisBlockLen := if |rest| > max then max else |rest|;
      SplitStep(id, rest, max, order);
      NextOrderIs(order);
      sent := sent + [Packet(id, dwOrderNo, rest[..nThisBlockLen])];
      rest := rest[nThisBlockLen..];
      order := order + 1;
      dwOrderNo := (dwOrderNo + 1) % DWORD_LIMIT;
    }
    SplitNothing(id, max, order);
  }

  /** Fragment i has the bytes from i * max on, its number and its identifier. */
  lemma {:induction false} SplitAt(id: nat, data: seq<Byte>, max: nat, order: nat, i: nat)
    requires max > 0 && i < |Split(id, data, max, order)|
    ensures i * max < |data|
    ensures Split(id, data, max, order)[i] ==
      Packet(id, (order + i) % DWORD_LIMIT, data[i * max..if |data| - i * max > max then i * max + max else |data|])
    ensures i == |Split(id, data, max, order)| - 1 <==> |data| - i * max <= max
    decreases i
  {
    hide Split;
    SplitNothing(id, max, order);
    SplitStep(id, data, max, order);
    var n := if |data| > max then max else |data|;
    SplitNothing(id, max, order + 1);
    if i > 0 {
      SplitAt(id, data[n..], max, order + 1, i - 1);
      OneMore(i, max);
    } else if n < |data| {
      SplitStep(id, data[n..], max, order + 1);
    }
  }

  lemma OneMore(i: nat, d: nat)
    requires i > 0
    ensures i * d == (i - 1) * d + d
  {
  }

  lemma {:induction false} ConcatFirst(p: Packet, ps: seq<Packet>)
    ensures Concat([p] + ps) == p.aData + Concat(ps)
  {
    ConcatParts([p], ps);
    assert [p][..0] == [];
  }

  lemma SplitNothing(id: nat, max: nat, order: nat)
    requires max > 0
    ensures Split(id, [], max, order) == [] && Concat(Split(id, [], max, order)) == []
  {
  }

  lemma SplitStep(id: nat, data: seq<Byte>, max: nat, order: nat)
    requires max > 0
    ensures data != [] ==> var n := if |data| > max then max else |data|;
      Split(id, data, max, order) ==
        [Packet(id, order % DWORD_LIMIT, data[..n])] + Split(id, data[n..], max, order + 1)
  {
  }

  /** The fragments from number k on are the bytes from k * max on. */
  lemma {:induction false} SplitConcat(id: nat, data: seq<Byte>, max: nat, order: nat, k: nat)
    requires max > 0 && k <= |Split(id, data, max, order)|
    ensures Concat(Split(id, data, max, order)[k..]) == data[if k * max < |data| then k * max else |data|..]
    decreases |data|
  {
    hide Split, Concat;
    SplitNothing(id, max, order);
    SplitStep(id, data, max, order);
    if data != [] {
      var n := if |data| > max then max else |data|;
      var p, rest := Packet(id, order % DWORD_LIMIT, data[..n]), Split(id, data[n..], max, order + 1);
      if k > 0 {
        SplitConcat(id, data[n..], max, order + 1, k - 1);
        OneMore(k, max);
        assert ([p] + rest)[k..] == rest[k - 1..];
      } else {
        SplitConcat(id, data[n..], max, order + 1, 0);
        ConcatFirst(p, rest);
        assert ([p] + rest)[0..] == [p] + rest && rest[0..] == rest;
        assert data[..n] + data[n..] == data && data[0..] == data;
      }
    }
  }

  /** What SendBigPacketMsg splits, the table puts together again, if and only if the numbers do not start
      over: with more than 2^32 fragments only the bytes since the last number 1 are left. */
  lemma RoundTrip(t: Table, ops: seq<Op>, id: nat, data: seq<Byte>, max: nat)
    requires TableOk(t) && OpsOk(ops) && Undisturbed(ops, id)
    requires max > 0 && data != [] && |data| + BLOCK <= ADDRESS_SPACE
    requires Own(ops, id) == Split(id, data, max, 1)
    ensures TableOk(Run(t, ops))
    ensures var n := |Split(id, data, max, 1)|;
      && Obsolete(n) * max < |data|
      && View(Run(t, ops), id) == Some(Stream(n % DWORD_LIMIT, data[Obsolete(n) * max..]))
      && (View(Run(t, ops), id) == Some(Stream(n % DWORD_LIMIT, data)) <==> n <= DWORD_LIMIT)
  {
    hide Split, TableOk, View, Run, Concat, OpsOk, Undisturbed, Obsolete;
    var ps := Split(id, data, max, 1);
    SplitStep(id, data, max, 1);
    forall i | 0 <= i < |ps| ensures ps[i].dwOrderNo == (i + 1) % DWORD_LIMIT { SplitAt(id, data, max, 1, i); }
    SplitConcat(id, data, max, 1, 0);
    assert ps[0..] == ps && data[0..] == data;
    Reassembly(t, ops, id);
    var k := Obsolete(|ps|);
    ObsoleteNext(|ps|);
    SplitAt(id, data, max, 1, k);
    SplitConcat(id, data, max, 1, k);
    if k > 0 { AtLeastMax(k, max); }
  }

  lemma AtLeastMax(k: nat, max: nat)
    requires k > 0
    ensures k * max >= max
  {
  }

  // --- Identifiers

  function NextId(id: nat): nat {
    if id + 1 >= DWORD_LIMIT then 1 else id + 1
  }

  function NthId(k: nat): nat {
    if k == 0 then 0 else NextId(NthId(k - 1))
  }

  lemma {:induction false} NthIdIs(k: nat)
    requires k > 0
    ensures NthId(k) == (k - 1) % (DWORD_LIMIT - 1) + 1
  {
    if k > 1 {
      NthIdIs(k - 1);
    }
  }

  /** The first 2^32 - 1 identifiers given out are all different, and none is 0. */
  lemma IdsDistinct(j: nat, k: nat)
    requires 0 < j < k && k - j < DWORD_LIMIT - 1
    ensures NthId(j) != NthId(k) && NthId(j) != 0
  {
    NthIdIs(j);
    NthIdIs(k);
  }
}
