/** The send buffer (class CSndBuffer): a circular linked list of blocks that grows. */
module SndRing {
  import opened SeqNo
  import opened Packets
  import opened SndQueue

  const BLANK := Slot(Packet(0, 0, false, false, false, []), 0, 0, 0, 0)

  class Block {
    var slot: Slot
    var next: Block?

    constructor ()
      ensures next == null && slot == BLANK
    {
      slot := BLANK;
      next := null;
    }
  }

  type Blocks = seq<Block>

  ghost predicate Distinct(bs: Blocks) {
    forall i, j :: 0 <= i < j < |bs| ==> bs[i] != bs[j]
  }

  /** Each block leads to the next. */
  ghost predicate Chained(bs: Blocks)
    reads bs
  {
    forall i {:trigger bs[i].next} :: 0 <= i && i + 1 < |bs| ==> bs[i].next == bs[i + 1]
  }

  /** And the last to the first. */
  ghost predicate Circular(bs: Blocks)
    reads bs
  {
    bs != [] && Distinct(bs) && Chained(bs) && bs[|bs| - 1].next == bs[0]
  }

  /** The first blocks hold these slots. */
  ghost predicate Hold(bs: Blocks, slots: seq<Slot>)
    reads bs
  {
    |slots| <= |bs| && forall i {:trigger bs[i].slot} {:trigger slots[i]} :: 0 <= i < |slots| ==> bs[i].slot == slots[i]
  }

  ghost predicate Apart(a: Blocks, b: Blocks) {
    forall i, j :: 0 <= i < |a| && 0 <= j < |b| ==> a[i] != b[j]
  }

  lemma Cut(bs: Blocks, k: nat)
    requires k <= |bs| && Distinct(bs) && Chained(bs)
    ensures Distinct(bs[..k]) && Distinct(bs[k..]) && Apart(bs[..k], bs[k..])
    ensures Chained(bs[..k]) && Chained(bs[k..])
  {
    forall i | 0 <= i && i + 1 < |bs[k..]| ensures bs[k..][i].next == bs[k..][i + 1] {
      assert bs[k..][i] == bs[k + i];
    }
  }

  lemma DistinctJoin(a: Blocks, b: Blocks)
    requires Distinct(a) && Distinct(b) && Apart(a, b)
    ensures Distinct(a + b)
  {
  }

  lemma ChainJoin(a: Blocks, b: Blocks)
    requires a != [] && b != [] && Chained(a) && Chained(b) && a[|a| - 1].next == b[0]
    ensures Chained(a + b)
  {
    forall i | 0 <= i && i + 1 < |a + b| ensures (a + b)[i].next == (a + b)[i + 1] {
      if i < |a| {
        assert (a + b)[i] == a[i];
      } else {
        assert (a + b)[i] == b[i - |a|];
      }
    }
  }

  /** The ring seen from its block `k`. */
  ghost function Turned(bs: Blocks, k: nat): (r: Blocks)
    requires k <= |bs|
    ensures |r| == |bs|
    ensures forall i :: 0 <= i < |bs| ==> r[i] == if i < |bs| - k then bs[k + i] else bs[i - (|bs| - k)]
  {
    bs[k..] + bs[..k]
  }

  lemma Rotate(bs: Blocks, k: nat)
    requires Circular(bs) && k < |bs|
    ensures Circular(Turned(bs, k))
  {
    if k > 0 {
      Cut(bs, k);
      ChainJoin(bs[k..], bs[..k]);
      DistinctJoin(bs[k..], bs[..k]);
    } else {
      assert Turned(bs, k) == bs;
    }
  }

  lemma HoldTurned(bs: Blocks, slots: seq<Slot>, k: nat)
    requires Hold(bs, slots) && k <= |slots|
    ensures Hold(Turned(bs, k), slots[k..])
  {
    forall i | 0 <= i < |slots| - k ensures Turned(bs, k)[i].slot == slots[k..][i] {
      assert bs[k + i].slot == slots[k + i];
    }
  }

  lemma TurnedAt(bs: Blocks, k: nat, i: nat)
    requires k <= i < |bs|
    ensures Turned(bs, k)[i - k] == bs[i]
  {
  }

  /** Three rows of blocks, each leading to the next and the last to the first, make a ring. */
  lemma Join(a: Blocks, n: Blocks, b: Blocks)
    requires a != [] && n != []
    requires Distinct(a) && Distinct(n) && Distinct(b) && Apart(a, n) && Apart(a, b) && Apart(n, b)
    requires Chained(a) && Chained(n) && Chained(b)
    requires a[|a| - 1].next == n[0]
    requires n[|n| - 1].next == if b == [] then a[0] else b[0]
    requires b != [] ==> b[|b| - 1].next == a[0]
    ensures Circular(a + n + b)
  {
    DistinctJoin(a, n);
    DistinctJoin(a + n, b);
    ChainJoin(a, n);
    if b == [] {
      assert a + n + b == a + n;
    } else {
      ChainJoin(a + n, b);
    }
  }

  /** The ring with a row of blocks put in before index `k`. */
  ghost function Inserted(ring: Blocks, k: nat, bs: Blocks): (r: Blocks)
    requires k <= |ring|
    ensures |r| == |ring| + |bs| && r[..k] == ring[..k]
    ensures forall i :: 0 <= i < k ==> r[i] == ring[i]
    ensures forall i :: k <= i < k + |bs| ==> r[i] == bs[i - k]
    ensures forall i :: k + |bs| <= i < |r| ==> r[i] == ring[i - |bs|]
  {
    ring[..k] + bs + ring[k..]
  }

  lemma HoldInserted(ring: Blocks, slots: seq<Slot>, k: nat, bs: Blocks)
    requires Hold(ring, slots) && |slots| <= k <= |ring|
    ensures Hold(Inserted(ring, k, bs), slots)
  {
  }

  lemma InsertedParts(ring: Blocks, k: nat, bs: Blocks)
    requires k <= |ring|
    ensures forall i :: 0 <= i < |ring| + |bs| ==> Inserted(ring, k, bs)[i] in ring || Inserted(ring, k, bs)[i] in bs
  {
  }

  /** `n` new blocks in a row. */
  method NewChain(n: nat) returns (head: Block, tail: Block, ghost bs: Blocks)
    requires n >= 1
    ensures |bs| == n && fresh(bs) && Distinct(bs) && Chained(bs)
    ensures head == bs[0] && tail == bs[n - 1]
  {
    head := new Block();
    tail := head;
    bs := [head];
    for i := 1 to n
      invariant |bs| == i && fresh(bs) && Distinct(bs) && Chained(bs)
      invariant head == bs[0] && tail == bs[i - 1]
    {
      var b := new Block();
      tail.next := b;
      tail := b;
      bs := bs + [b];
    }
  }

  /** What block `i` of a message gets. */
  method Piece(data: seq<Byte>, i: nat, mss: nat) returns (piece: seq<Byte>)
    requires mss > 0 && PieceStart(i, mss) <= |data|
    ensures var rest := data[PieceStart(i, mss)..]; piece == if |rest| <= mss then rest else rest[..mss]
  {
    PieceStartIs(i, mss);
    var pktlen := |data| - i * mss;
    if pktlen > mss {
      pktlen := mss;
    }
    piece := data[i * mss..i * mss + pktlen];
  }

  class SndBuffer {
    const mss: nat
    const unitSize: nat

    var firstBlock: Block
    var currBlock: Block
    var lastBlock: Block
    var nextMsgNo: nat
    var size: nat
    var count: nat
    var bytesCount: int
    var lastOriginTime: int

    // The ring from the first block on, how many blocks lie before the current one, and what those before the
    // last one hold.
    ghost var ring: Blocks
    ghost var sent: nat
    ghost var slots: seq<Slot>

    ghost predicate Shape()
      reads this, ring
    {
      && mss > 0 && unitSize > 0
      && Circular(ring)
      && size == |ring|
      && sent <= count < size
      && |slots| == count && Hold(ring, slots)
      && firstBlock == ring[0]
      && currBlock == ring[sent]
      && lastBlock == ring[count]
    }

    ghost function Abs(): Queue
      reads this
    {
      Queue(slots, sent, size, nextMsgNo, bytesCount, lastOriginTime)
    }

    ghost predicate Valid()
      reads this, ring
    {
      Shape() && QueueInv(Abs())
    }

    constructor (size: nat, mss: nat)
      requires size >= 1 && mss >= 1
      ensures Valid() && fresh(ring) && this.mss == mss && unitSize == size
      ensures Abs() == Queue([], 0, size, 1, 0, 0)
    {
      var head, tail, bs := NewChain(size);
      tail.next := head;
      this.mss, this.unitSize := mss, size;
      firstBlock, currBlock, lastBlock := head, head, head;
      nextMsgNo, this.size, count, bytesCount, lastOriginTime := 1, size, 0, 0, 0;
      ring, sent, slots := bs, 0, [];
    }

    /** A row of new blocks is linked in after the last one. */
    method Link(head: Block, tail: Block, ghost bs: Blocks)
      requires Shape() && bs != [] && head == bs[0] && tail == bs[|bs| - 1]
      requires Distinct(bs) && Chained(bs) && Apart(ring, bs)
      modifies tail`next, lastBlock`next
      ensures Circular(Inserted(ring, count + 1, bs))
    {
      ghost var a, b := ring[..count + 1], ring[count + 1..];
      Cut(ring, count + 1);
      assert b != [] ==> b[|b| - 1] == ring[|ring| - 1];
      tail.next := lastBlock.next;
      lastBlock.next := head;
      Join(a, bs, b);
    }

    /** New blocks are put in right after the last one, wherever the ring wraps. */
    method Splice() returns (ghost bs: Blocks)
      requires Shape()
      modifies lastBlock`next
      ensures fresh(bs) && |bs| == unitSize && Circular(Inserted(ring, count + 1, bs))
    {
      var head, tail;
      head, tail, bs := NewChain(unitSize);
      Link(head, tail, bs);
    }

    method Increase()
      requires Shape()
      modifies this`size, this`ring, lastBlock`next
      ensures Shape() && forall i :: 0 <= i < |ring| ==> ring[i] in old(ring) || fresh(ring[i])
      ensures Abs() == old(Abs()).(size := old(size) + unitSize)
    {
      ghost var bs := Splice();
      InsertedParts(ring, count + 1, bs);
      Adopt(bs);
    }

    /** The new blocks become part of the ring. */
    method Adopt(ghost bs: Blocks)
      requires mss > 0 && unitSize == |bs| > 0 && size == |ring| && sent <= count < size
      requires Circular(Inserted(ring, count + 1, bs)) && |slots| == count && Hold(ring, slots)
      requires firstBlock == ring[0] && currBlock == ring[sent] && lastBlock == ring[count]
      modifies this`size, this`ring
      ensures Shape() && ring == Inserted(old(ring), count + 1, bs)
      ensures Abs() == old(Abs()).(size := old(size) + unitSize)
    {
      HoldInserted(ring, slots, count + 1, bs);
      size, ring := size + unitSize, Inserted(ring, count + 1, bs);
    }

    // ----- removing packets

    /** The state when `n` blocks at the start have been passed but the books are not closed yet. */
    ghost predicate Passing(n: nat, move: bool)
      reads this, ring
    {
      && mss > 0 && unitSize > 0
      && Circular(ring) && size == |ring| && sent <= count < size
      && |slots| == count && Hold(ring, slots)
      && n <= count
      && firstBlock == ring[n]
      && currBlock == ring[sent]
      && lastBlock == ring[count]
      && (move <==> sent < n)
    }

    /** The current pointer follows if it was passed. */
    method MoveCurrent(n: nat, move: bool)
      requires Passing(n, move)
      modifies this`currBlock
      ensures currBlock == if sent < n then ring[n] else ring[sent]
    {
      if move {
        currBlock := firstBlock;
      }
    }

    /** The passed blocks go to the end of the ring. */
    method Remove(n: nat, move: bool)
      requires Passing(n, move)
      modifies this`currBlock, this`count, this`ring, this`sent, this`slots
      ensures Shape() && Abs() == RemoveFirst(old(Abs()), n).(bytes := bytesCount)
    {
      MoveCurrent(n, move);
      count := count - n;
      TurnRing(n);
    }

    /** The ring is seen from the new first block on. */
    ghost method TurnRing(n: nat)
      requires mss > 0 && unitSize > 0 && Circular(ring) && size == |ring| && Hold(ring, slots)
      requires n <= |slots| < size && sent <= |slots| && count == |slots| - n
      requires firstBlock == ring[n] && lastBlock == ring[|slots|]
      requires currBlock == if sent < n then ring[n] else ring[sent]
      modifies this`ring, this`sent, this`slots
      ensures Shape() && slots == old(slots)[n..] && sent == if old(sent) < n then 0 else old(sent) - n
    {
      Rotate(ring, n);
      HoldTurned(ring, slots, n);
      TurnedAt(ring, n, n);
      TurnedAt(ring, n, |slots|);
      TurnedAt(ring, n, if sent < n then n else sent);
      ghost var turned := Turned(ring, n);
      ring, slots, sent := turned, slots[n..], if sent < n then 0 else sent - n;
    }

    /** One block at the start is passed. */
    method PassOne(ghost i: nat, move: bool) returns (move': bool)
      requires Passing(i, move) && i < count
      modifies this`firstBlock
      ensures Passing(i + 1, move') && old(firstBlock) == ring[i]
    {
      move' := move;
      if firstBlock == currBlock {
        move' := true;
      }
      assert ring[i].next == ring[i + 1];
      firstBlock := firstBlock.next;
    }

    /** The first `offset` packets were acknowledged. */
    method AckData(offset: nat)
      requires Valid() && offset <= count
      modifies this
      ensures Valid() && Abs() == RemoveFirst(old(Abs()), offset)
    {
      ghost var q := Abs();
      var move := false;
      for i := 0 to offset
        invariant Passing(i, move)
        invariant bytesCount == q.bytes - BytesOf(q.items[..i])
        modifies this`bytesCount, this`firstBlock
      {
        BytesNext(q.items, i);
        bytesCount := bytesCount - |firstBlock.slot.packet.payload|;
        move := PassOne(i, move);
      }
      RemoveKeeps(q, offset);
      Remove(offset, move);
    }

    /** The loop of DropLateData: all packets at the start that are older than the limit are passed. */
    method PassLate(limit: int) returns (dpkts: nat, dbytes: nat, msgno: nat, move: bool)
      requires Shape()
      modifies this`firstBlock
      ensures Passing(dpkts, move) && dpkts == LateCount(slots, limit)
      ensures LateSoFar(slots, limit, dpkts, dbytes, msgno)
    {
      dpkts, dbytes, msgno, move := 0, 0, 0, false;
      while dpkts < count && firstBlock.slot.origin < limit
        invariant Passing(dpkts, move)
        invariant LateSoFar(slots, limit, dpkts, dbytes, msgno)
      {
        LateStep(slots, limit, dpkts, dbytes, msgno);
        dbytes := dbytes + |firstBlock.slot.packet.payload|;
        msgno := firstBlock.slot.packet.msgno;
        move := PassOne(dpkts, move);
        dpkts := dpkts + 1;
      }
    }

    method RemoveLate(n: nat, bytes: nat, move: bool)
      requires Passing(n, move) && QueueInv(Abs()) && bytes == BytesOf(Abs().items[..n])
      modifies this`currBlock, this`count, this`ring, this`sent, this`slots, this`bytesCount
      ensures Valid() && Abs() == RemoveFirst(old(Abs()), n)
    {
      RemoveKeeps(Abs(), n);
      Remove(n, move);
      bytesCount := bytesCount - bytes;
    }

    /** All packets at the start that are older than the limit are dropped: how many packets and bytes, and the
        message number after the last dropped one. */
    method DropLateData(limit: int) returns (dpkts: nat, dbytes: nat, firstMsgNo: nat)
      requires Valid()
      modifies this
      ensures Valid() && (Abs(), dbytes, firstMsgNo) == DropLate(old(Abs()), limit)
      ensures dpkts == LateCount(old(Abs()).items, limit)
    {
      var msgno, move;
      dpkts, dbytes, msgno, move := PassLate(limit);
      DropLateIs(Abs(), limit, dpkts, dbytes, msgno);
      RemoveLate(dpkts, dbytes, move);
      firstMsgNo := NextMsgNo(msgno);
    }

    // ----- handing out packets

    /** The current block is stamped and passed. */
    method PassCurrent(kflgs: Option<bv8>) returns (before: Slot, after: Slot)
      requires Shape() && sent < count
      modifies this`currBlock, this`sent, this`slots, currBlock`slot
      ensures Shape()
      ensures before == old(currBlock.slot) && after == Stamp(before, kflgs)
      ensures var q := old(Abs()); Abs() == q.(items := q.items[q.sent := after], sent := q.sent + 1)
    {
      before := currBlock.slot;
      after := Stamp(before, kflgs);
      currBlock.slot := after;
      slots := slots[sent := after];
      assert ring[sent].next == ring[sent + 1];
      currBlock := currBlock.next;
      sent := sent + 1;
    }

    /** The next packet never handed out, past those whose time to live is over. The clock is read for each. */
    method ReadData(kflgs: Option<bv8>, now: nat -> int) returns (out: Handout)
      requires Valid()
      modifies this`currBlock, this`sent, this`slots, ring`slot
      ensures Valid() && (Abs(), out) == ReadNew(old(Abs()), kflgs, now)
    {
      ghost var r := ReadNew(Abs(), kflgs, now);
      ReadNewKeeps(Abs(), kflgs, now, 0, None);
      var seen := None;
      var skipped: nat := 0;
      while currBlock != lastBlock
        invariant Shape()
        invariant ReadNewFrom(Abs(), kflgs, now, skipped, seen) == r
        decreases count - sent
      {
        var before, after := PassCurrent(kflgs);
        seen := Some(after);
        if !Expired(before, now(skipped)) {
          return Handout(seen, if kflgs.None? then 0 else |before.packet.payload|, skipped);
        }
        skipped := skipped + 1;
      }
      out := Handout(seen, 0, skipped);
    }

    /** The block `offset` steps after the first one, or the last. */
    method Seek(offset: int) returns (p: Block)
      requires Shape()
      ensures p == ring[Clamp(offset, count)]
    {
      p := firstBlock;
      var i: nat := 0;
      while i < offset && p != lastBlock
        invariant i <= count && p == ring[i] && (i > 0 ==> i <= offset)
        decreases count - i
      {
        assert ring[i].next == ring[i + 1];
        p := p.next;
        i := i + 1;
      }
    }

    /** One block of a stale message is left; the current pointer moves along once it was met. */
    method LeaveOne(p: Block, ghost i: nat, ghost k: nat, ghost sent0: nat, move: bool) returns (next: Block,
                    move': bool)
      requires Shape() && k < i < count && p == ring[i]
      requires sent == Later(sent0, k, i) && (move <==> k < sent0 < i)
      modifies this`currBlock, this`sent
      ensures Shape() && next == ring[i + 1]
      ensures sent == Later(sent0, k, i + 1) && (move' <==> k < sent0 < i + 1)
    {
      assert ring[i].next == ring[i + 1];
      move' := move || p == currBlock;
      next := p.next;
      if move' {
        currBlock, sent := next, i + 1;
      }
    }

    /** The loop that leaves a stale message: from the block after index `k` to the end of the run of blocks with
        its number. */
    method LeaveStale(from: Block, ghost k: nat, msgno: nat) returns (msglen: nat)
      requires Shape() && k < count && from == ring[k]
      modifies this`currBlock, this`sent
      ensures Shape() && msglen == RunEnd(slots, k + 1, msgno) - k
      ensures sent == Later(old(sent), k, k + msglen)
    {
      assert ring[k].next == ring[k + 1];
      var p: Block := from.next;
      var move := false;
      msglen := 1;
      while p != lastBlock && msgno == p.slot.packet.msgno
        invariant Shape() && k + msglen <= count && p == ring[k + msglen]
        invariant RunEnd(slots, k + msglen, msgno) == RunEnd(slots, k + 1, msgno)
        invariant sent == Later(old(sent), k, k + msglen)
        invariant move <==> k < old(sent) < k + msglen
        decreases count - msglen
      {
        p, move := LeaveOne(p, k + msglen, k, old(sent), move);
        msglen := msglen + 1;
      }
    }

    /** A packet is handed out again, or its whole message is reported as stale. */
    method ReadDataAgain(offset: int, now: int) returns (out: Again)
      requires Valid()
      modifies this`currBlock, this`sent, this`slots, ring`slot
      ensures Valid() && (Abs(), out) == ReadAgain(old(Abs()), offset, now)
    {
      ghost var k := Clamp(offset, count);
      var p := Seek(offset);
      if p == lastBlock {
        return TooLarge;
      }
      var it := p.slot;
      if Expired(it, now) {
        var msglen := LeaveStale(p, k, it.packet.msgno);
        return Stale(it.packet.msgno, msglen);
      }
      Resent(p, k, now);
      out := Resend(it);
    }

    /** The time of sending again is noted. */
    method Resent(p: Block, ghost k: nat, now: int)
      requires Valid() && k < count && p == ring[k]
      modifies this`slots, p`slot
      ensures Valid()
      ensures var q := old(Abs()); Abs() == q.(items := q.items[k := q.items[k].(rexmit := now)])
    {
      StampBytes(Abs().items, k, p.slot.(rexmit := now));
      p.slot := p.slot.(rexmit := now);
      slots := slots[k := p.slot];
    }

    // ----- submitting a message

    /** The ring is enlarged until there is room for `need` packets and the end marker. */
    method MakeRoom(need: nat)
      requires Shape()
      modifies this`size, this`ring, ring`next
      ensures Shape() && size > need
      ensures forall i :: 0 <= i < |ring| ==> ring[i] in old(ring) || fresh(ring[i])
      ensures Abs() == old(Abs()).(size := GrownSize(old(size), unitSize, need))
    {
      while need >= size
        invariant Shape()
        invariant forall i :: 0 <= i < |ring| ==> ring[i] in old(ring) || fresh(ring[i])
        invariant GrownSize(size, unitSize, need) == GrownSize(old(size), unitSize, need)
        invariant Abs() == old(Abs()).(size := size)
        decreases need - size
      {
        Increase();
      }
    }

    /** One fragment is written into the block that follows those already written, which hold `done`. */
    method Write(s: Block, ghost done: seq<Slot>, slot: Slot) returns (next: Block)
      requires Shape() && count + |done| + 1 < size && Hold(ring, slots + done) && s == ring[count + |done|]
      modifies s`slot
      ensures Shape() && Hold(ring, slots + (done + [slot])) && next == ring[count + |done| + 1]
    {
      ghost var n := count + |done|;
      s.slot := slot;
      assert ring[n].next == ring[n + 1];
      next := s.next;
    }

    /** Fragment `i` of a message. */
    method MakePiece(data: seq<Byte>, i: nat, pieces: nat, seqno: Seq, msgno: nat, c: Control, origin: int)
      returns (slot: Slot)
      requires mss > 0 && i < pieces <= MAX_SEQ_NO && pieces == PieceCount(|data|, mss) && seqno == IncSeq(c.seqno, i)
      ensures var all := Fragments(data, mss, true, c.seqno, msgno, c, origin); |all| == pieces && slot == all[i]
    {
      FragmentAt(data, mss, true, c.seqno, msgno, c, origin, i);
      var piece := Piece(data, i, mss);
      slot := Slot(Packet(seqno, msgno, i == 0, i == pieces - 1, c.inOrder, piece), 0, c.ttl, origin, 0);
    }

    /** It is written into the next block; `all` are the fragments. */
    method WritePiece(s: Block, i: nat, slot: Slot, ghost all: seq<Slot>) returns (next: Block)
      requires Shape() && i < |all| && count + |all| < size && slot == all[i]
      requires s == ring[count + i] && Hold(ring, slots + all[..i])
      modifies s`slot
      ensures Shape() && Hold(ring, slots + all[..i + 1]) && next == ring[count + i + 1]
    {
      assert all[..i + 1] == all[..i] + [slot];
      next := Write(s, all[..i], slot);
    }

    /** The loop that spreads a message over the blocks from the last one on. */
    method WriteMessage(data: seq<Byte>, pieces: nat, msgno: nat, c: Control, origin: int)
      returns (end: Block, seqno: Seq)
      requires Shape() && pieces == PieceCount(|data|, mss) && pieces <= MAX_SEQ_NO && count + pieces < size
      modifies ring`slot
      ensures Shape() && end == ring[count + pieces] && seqno == IncSeq(c.seqno, pieces)
      ensures Hold(ring, slots + Fragments(data, mss, true, c.seqno, msgno, c, origin))
    {
      ghost var all := Fragments(data, mss, true, c.seqno, msgno, c, origin);
      FragmentsCount(data, mss, true, c.seqno, msgno, c, origin);
      end, seqno := lastBlock, c.seqno;
      assert slots + all[..0] == slots;
      assert all[..pieces] == all;
      for i := 0 to pieces
        invariant Shape() && end == ring[count + i]
        invariant Hold(ring, slots + all[..i])
        invariant seqno == IncSeq(c.seqno, i)
      {
        IncSeqAdds(c.seqno, i, 1);
        var slot := MakePiece(data, i, pieces, seqno, msgno, c, origin);
        end := WritePiece(end, i, slot, all);
        seqno := IncSeq(seqno, 1);
      }
    }

    method Append(data: seq<Byte>, pieces: nat, msgno: nat, c: Control, origin: int) returns (seqno: Seq)
      requires Shape() && pieces == PieceCount(|data|, mss) && pieces <= MAX_SEQ_NO && count + pieces < size
      modifies ring`slot, this`lastBlock, this`count, this`bytesCount, this`slots
      ensures Shape() && seqno == IncSeq(c.seqno, pieces)
      ensures Abs() == old(Abs()).(items := old(slots) + Fragments(data, mss, true, c.seqno, msgno, c, origin),
                                   bytes := old(bytesCount) + |data|)
    {
      ghost var fs := Fragments(data, mss, true, c.seqno, msgno, c, origin);
      FragmentsCount(data, mss, true, c.seqno, msgno, c, origin);
      var end;
      end, seqno := WriteMessage(data, pieces, msgno, c, origin);
      Extend(end, pieces, |data|, fs);
    }

    /** The blocks written after the last one become part of the queue. */
    method Extend(end: Block, pieces: nat, bytes: nat, ghost fs: seq<Slot>)
      requires Shape() && |fs| == pieces && count + pieces < size
      requires end == ring[count + pieces] && Hold(ring, slots + fs)
      modifies this`lastBlock, this`count, this`bytesCount, this`slots
      ensures Shape()
      ensures Abs() == old(Abs()).(items := old(slots) + fs, bytes := old(bytesCount) + bytes)
    {
      lastBlock, count, bytesCount, slots := end, count + pieces, bytesCount + bytes, slots + fs;
    }

    method TakeNumber(c: Control, now: int) returns (msgno: nat)
      requires Shape()
      modifies this`nextMsgNo, this`lastOriginTime
      ensures Shape() && msgno == MsgNoFor(old(Abs()), c)
      ensures Abs() == old(Abs()).(nextMsgNo := msgno, lastOrigin := Origin(c, now))
    {
      lastOriginTime := if c.srctime != 0 then c.srctime else now;
      if c.msgno.Some? {
        nextMsgNo := c.msgno.value;
      }
      msgno := nextMsgNo;
    }

    /** The message is stamped with a number and a time and appended; there is room for it. */
    method Submit(data: seq<Byte>, pieces: nat, c: Control, now: int) returns (msgno: nat, seqno: Seq)
      requires Shape() && pieces == PieceCount(|data|, mss) && pieces <= MAX_SEQ_NO && count + pieces < size
      modifies ring`slot, this`lastBlock, this`count, this`bytesCount, this`slots, this`nextMsgNo, this`lastOriginTime
      ensures Shape() && seqno == IncSeq(c.seqno, pieces)
      ensures msgno == MsgNoFor(old(Abs()), c) && lastOriginTime == Origin(c, now)
      ensures Abs() == Submitted(old(Abs()), mss, data, c, now)
    {
      msgno := TakeNumber(c, now);
      seqno := Append(data, pieces, msgno, c, lastOriginTime);
      nextMsgNo := NextMsgNo(nextMsgNo);
    }

    method Pieces(len: nat) returns (pieces: nat)
      requires mss > 0
      ensures pieces == PieceCount(len, mss)
    {
      pieces := len / mss;
      if len % mss != 0 {
        pieces := pieces + 1;
      }
      PieceCountIs(len, mss);
    }

    method AddPieces(data: seq<Byte>, c: Control, now: int) returns (msgno: nat, seqno: Seq)
      requires Shape() && |data| <= MAX_SEQ_NO
      modifies this, ring
      ensures Shape() && Abs() == Add(old(Abs()), mss, unitSize, data, c, now)
      ensures seqno == IncSeq(c.seqno, PieceCount(|data|, mss))
      ensures msgno == MsgNoFor(old(Abs()), c) && lastOriginTime == Origin(c, now)
    {
      var pieces := Pieces(|data|);
      MakeRoom(pieces + count);
      ghost var q := Abs();
      msgno, seqno := Submit(data, pieces, c, now);
      assert Abs() == Submitted(q, mss, data, c, now);
    }

    /** A message is submitted: it is cut into packets, and the control data is handed back filled in. */
    method AddBuffer(data: seq<Byte>, c: Control, now: int) returns (reply: Control)
      requires Valid() && |data| <= MAX_SEQ_NO
      modifies this, ring
      ensures Valid() && Abs() == Add(old(Abs()), mss, unitSize, data, c, now)
      ensures reply == AddReply(old(Abs()), mss, data, c, now)
    {
      AddKeeps(Abs(), mss, unitSize, data, c, now);
      var msgno, seqno := AddPieces(data, c, now);
      reply := c.(msgno := Some(msgno), seqno := seqno, srctime := lastOriginTime);
    }
  }
}
