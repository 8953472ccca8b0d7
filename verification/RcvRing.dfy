/** The receive buffer (class CRcvBufferNew): a ring of entries updated in place. */
module RcvRing {
  import opened SeqNo
  import opened Packets
  import opened RcvWindow
  import opened RcvWindowInvariant
  import opened RcvRingLayout

  /** The shared pool of units: which ones are in use. */
  class UnitQueue {
    var taken: set<nat>
    var numTaken: int

    ghost predicate Valid()
      reads this
    {
      numTaken == |taken|
    }

    constructor ()
      ensures Valid() && taken == {}
    {
      taken := {};
      numTaken := 0;
    }

    method MakeUnitGood(id: nat)
      requires Valid() && id !in taken
      modifies this
      ensures Valid() && taken == old(taken) + {id}
    {
      numTaken := numTaken + 1;
      taken := taken + {id};
    }

    method MakeUnitFree(id: nat)
      requires Valid() && id in taken
      modifies this
      ensures Valid() && taken == old(taken) - {id}
    {
      taken := taken - {id};
      numTaken := numTaken - 1;
    }
  }

  class RcvBuffer {
    const mode: Mode
    const entries: array<Entry>
    const queue: UnitQueue

    var startSeqNo: Seq
    var startPos: nat
    var firstNonreadPos: nat
    var maxPosInc: nat
    var notch: nat
    var numOutOfOrderPackets: nat
    var firstReadableOutOfOrder: int
    var bytesCount: int
    var pktsCount: int

    // The entries from the start position on, as a sequence.
    ghost var w: Window

    /** The ring holds the window, and every unit in it is in use and held once. */
    ghost predicate Core()
      reads this, entries, queue
    {
      && mode.size == entries.Length
      && 1 <= mode.size < INT_MAX
      && Ring(entries[..], startPos, w)
      && AllConsistent(w)
      && DistinctIds(w)
      && Ids(w) <= queue.taken
      && queue.Valid()
    }

    /** The counter of packets with a clear order flag is exact. */
    ghost predicate Counted()
      reads this
    {
      numOutOfOrderPackets == if mode.OutOfOrder() then CountUnordered(w) else 0
    }

    ghost predicate Base()
      reads this, entries, queue
    {
      && Core()
      && Counted()
      && maxPosInc == |w|
      && firstNonreadPos < mode.size
      && -1 <= firstReadableOutOfOrder < mode.size
    }

    ghost function Off(p: nat): nat
      reads this
      requires startPos < mode.size
    {
      OffPos(mode.size, startPos, p)
    }

    ghost function Ooo(): int
      reads this
      requires startPos < mode.size
    {
      if firstReadableOutOfOrder < 0 then -1 else Off(firstReadableOutOfOrder)
    }

    ghost function Abs(): State
      reads this
      requires startPos < mode.size
    {
      State(w, startSeqNo, Off(firstNonreadPos), Ooo(), pktsCount, bytesCount, notch)
    }

    /** What holds between calls. */
    ghost predicate Valid()
      reads this, entries, queue
    {
      Base() && Inv(mode, Abs())
    }

    /** The units in use that this buffer does not hold: no operation of the buffer changes them. */
    ghost function Others(): set<nat>
      reads this, queue
    {
      queue.taken - Ids(w)
    }

    constructor (initSeqNo: Seq, size: nat, unitQueue: UnitQueue, tsbpd: bool, messageApi: bool)
      requires 1 <= size < INT_MAX && unitQueue.Valid()
      ensures Valid() && fresh(entries) && queue == unitQueue
      ensures mode == Mode(size, tsbpd, messageApi)
      ensures Abs() == State([], initSeqNo, 0, -1, 0, 0, 0)
    {
      mode := Mode(size, tsbpd, messageApi);
      entries := new Entry[size](_ => EMPTY_ENTRY);
      queue := unitQueue;
      startSeqNo := initSeqNo;
      startPos, firstNonreadPos, maxPosInc, notch := 0, 0, 0, 0;
      numOutOfOrderPackets, firstReadableOutOfOrder := 0, -1;
      bytesCount, pktsCount := 0, 0;
      w := [];
    }

    /** What the ring position `p` holds. */
    lemma Look(p: nat)
      requires Core() && p < mode.size
      ensures Off(p) < mode.size && At(mode.size, startPos, Off(p)) == p
      ensures entries[p] == if Off(p) < |w| then w[Off(p)] else EMPTY_ENTRY
      ensures IncPos(mode.size, p, 1) < mode.size
      ensures Off(IncPos(mode.size, p, 1)) == if Off(p) + 1 < mode.size then Off(p) + 1 else 0
      ensures Off(DecPos(mode.size, p)) == if Off(p) >= 1 then Off(p) - 1 else mode.size - 1
    {
      AtOff(mode.size, startPos, p);
      RingLook(entries[..], startPos, w, p);
    }

    // ----- units

    method CountBytes(pkts: int, bytes: int)
      modifies this`pktsCount, this`bytesCount
      ensures pktsCount == old(pktsCount) + pkts && bytesCount == old(bytesCount) + bytes
    {
      bytesCount := bytesCount + bytes;
      pktsCount := pktsCount + pkts;
    }

    method ReleaseUnitInPos(pos: nat)
      requires Core() && pos < mode.size && Off(pos) < |w|
      modifies this`w, entries, queue
      ensures Core() && w == old(w)[Off(pos) := EMPTY_ENTRY]
      ensures Others() == old(Others())
    {
      ghost var k := Off(pos);
      Look(pos);
      RingSet(entries[..], startPos, w, pos, EMPTY_ENTRY);
      IdsRemove(w, k, EMPTY_ENTRY);
      var tmp := entries[pos].unit;
      assert tmp.Some? ==> tmp.value.id in Ids(w) by {
        assert tmp == w[k].unit;
      }
      entries[pos] := EMPTY_ENTRY;
      w := w[k := EMPTY_ENTRY];
      if tmp.Some? {
        queue.MakeUnitFree(tmp.value.id);
      }
    }

    method SetStatus(pos: nat, status: Status)
      requires Core() && pos < mode.size && status != Avail
      requires if Off(pos) < |w| then !w[Off(pos)].Has() else status == Empty
      modifies this`w, entries
      ensures Core() && Others() == old(Others()) && CountUnordered(w) == old(CountUnordered(w))
      ensures w == if Off(pos) < |old(w)| then old(w)[Off(pos) := Entry(None, status)] else old(w)
    {
      ghost var k := Off(pos);
      Look(pos);
      if k < |w| {
        RingSet(entries[..], startPos, w, pos, Entry(None, status));
        IdsRemove(w, k, Entry(None, status));
        CountSet(w, k, Entry(None, status));
        w := w[k := Entry(None, status)];
      } else {
        assert entries[..][pos := EMPTY_ENTRY] == entries[..];
      }
      entries[pos] := entries[pos].(status := status);
    }

    /** An entry of the window without a unit becomes a filler. */
    method MarkFiller(pos: nat, status: Status)
      requires Core() && pos < mode.size && Off(pos) < |w| && !w[Off(pos)].Has()
      requires status == Read || status == Drop
      modifies this`w, entries
      ensures Core() && Others() == old(Others()) && CountUnordered(w) == old(CountUnordered(w))
      ensures w == old(w)[Off(pos) := Entry(None, status)]
    {
      SetStatus(pos, status);
    }

    method DropUnitInPos(pos: nat) returns (dropped: bool)
      requires Core() && Counted() && pos < mode.size && -1 <= firstReadableOutOfOrder < mode.size
      modifies this`w, this`numOutOfOrderPackets, this`firstReadableOutOfOrder, entries, queue
      ensures Core() && Counted() && Others() == old(Others())
      ensures dropped <==> old(Off(pos) < |w| && w[Off(pos)].Has())
      ensures w == if dropped then old(w)[Off(pos) := EMPTY_ENTRY] else old(w)
      ensures -1 <= firstReadableOutOfOrder < mode.size
      ensures Ooo() == if old(Ooo()) == Off(pos) && DropForgets(mode, old(w), Off(pos)) then -1 else old(Ooo())
    {
      Look(pos);
      if firstReadableOutOfOrder >= 0 {
        AtOff(mode.size, startPos, firstReadableOutOfOrder);
      }
      if !entries[pos].Has() {
        return false;
      }
      CountSet(w, Off(pos), EMPTY_ENTRY);
      if !mode.tsbpd && mode.msgApi && !entries[pos].Pkt().inOrder {
        numOutOfOrderPackets := numOutOfOrderPackets - 1;
        if pos == firstReadableOutOfOrder {
          firstReadableOutOfOrder := -1;
        }
      }
      ReleaseUnitInPos(pos);
      return true;
    }

    /** The start position moves on by one. */
    method AdvanceStart()
      requires Core() && (w != [] ==> w[0] == EMPTY_ENTRY)
      modifies this`w, this`startPos
      ensures Core() && w == (if old(w) == [] then [] else old(w)[1..])
      ensures CountUnordered(w) == old(CountUnordered(w)) && Ids(w) == old(Ids(w))
      ensures startPos == IncPos(mode.size, old(startPos), 1)
      ensures forall p: nat :: p < mode.size ==> Off(p) == Back(mode.size, old(Off(p)), 1)
    {
      RingAdvance(entries[..], startPos, w);
      if w != [] {
        IdsTail(w);
        w := w[1..];
      }
      forall p: nat | p < mode.size
        ensures OffPos(mode.size, IncPos(mode.size, startPos, 1), p) == Back(mode.size, Off(p), 1)
      {
        OffAdvance(mode.size, startPos, p);
      }
      startPos := IncPos(mode.size, startPos, 1);
    }

    /** The first entry is released and left behind; its unit, if any, is no longer counted. */
    method ReleaseStart()
      requires Core() && w != [] && maxPosInc == |w|
      requires numOutOfOrderPackets == if mode.OutOfOrder() then CountUnordered(w) - Unordered(w[0]) else 0
      modifies this`w, this`startPos, this`maxPosInc, entries, queue
      ensures Core() && Counted() && maxPosInc == |w| && Others() == old(Others())
      ensures w == old(w)[1..]
      ensures startPos == IncPos(mode.size, old(startPos), 1)
      ensures forall p: nat :: p < mode.size ==> Off(p) == Back(mode.size, old(Off(p)), 1)
    {
      CountSet(w, 0, EMPTY_ENTRY);
      ReleaseUnitInPos(startPos);
      AdvanceStart();
      maxPosInc := maxPosInc - 1;
    }

    /** One round of the loop in ReleaseNextFillerEntries. */
    method ReleaseFiller()
      requires Core() && Counted() && maxPosInc == |w| && w != [] && w[0].IsFiller()
      requires firstNonreadPos < mode.size && -1 <= firstReadableOutOfOrder < mode.size
      modifies this`w, this`startSeqNo, this`startPos, this`maxPosInc, entries, queue
      ensures Core() && Counted() && maxPosInc == |w| && Others() == old(Others())
      ensures Abs().(frontier := 0) == TakeOne(mode, old(Abs()), 0, true).(frontier := 0)
      ensures startPos == IncPos(mode.size, old(startPos), 1)
      ensures Off(firstNonreadPos) == Back(mode.size, old(Off(firstNonreadPos)), 1)
    {
      startSeqNo := IncSeq(startSeqNo, 1);
      ReleaseStart();
    }

    /** The state after the first `d` entries of the state `s`, all of them fillers, were passed. */
    ghost predicate PassedFillers(s: State, d: nat)
      reads this, entries, queue
    {
      && Core() && Counted() && maxPosInc == |w| && firstNonreadPos < mode.size
      && -1 <= firstReadableOutOfOrder < mode.size
      && d <= |s.w| < mode.size
      && (forall i :: 0 <= i < d ==> s.w[i].IsFiller())
      && Abs().(frontier := 0) == TakeN(mode, s, 0, d).(frontier := 0)
      && Off(firstNonreadPos) == Back(mode.size, s.frontier, d)
    }

    method PassFiller(ghost s: State, ghost d: nat)
      requires PassedFillers(s, d) && w != [] && w[0].IsFiller()
      modifies this`w, this`startSeqNo, this`startPos, this`maxPosInc, entries, queue
      ensures PassedFillers(s, d + 1) && Others() == old(Others())
      ensures startPos == IncPos(mode.size, old(startPos), 1)
    {
      ReleaseFiller();
    }

    /** Passes the fillers at the start; `d` is how many they are. */
    method PassFillers(ghost s: State) returns (ghost d: nat)
      requires Core() && Counted() && maxPosInc == |w| && s == Abs()
      requires firstNonreadPos < mode.size && -1 <= firstReadableOutOfOrder < mode.size
      modifies this`w, this`startSeqNo, this`startPos, this`maxPosInc, entries, queue
      ensures PassedFillers(s, d) && d == LeadingFillers(s.w) && Others() == old(Others())
    {
      d := 0;
      var pos: nat := startPos;
      Look(pos);
      while entries[pos].status == Read || entries[pos].status == Drop
        invariant PassedFillers(s, d) && Others() == old(Others())
        invariant pos == startPos
        invariant entries[pos] == if w != [] then w[0] else EMPTY_ENTRY
        decreases |s.w| - d
      {
        PassFiller(s, d);
        pos := IncPos(mode.size, pos, 1);
        d := d + 1;
        Look(pos);
      }
    }

    method ReleaseNextFillerEntries()
      requires Core() && Counted() && maxPosInc == |w|
      requires firstNonreadPos < mode.size && -1 <= firstReadableOutOfOrder < mode.size
      modifies this`w, this`startSeqNo, this`startPos, this`maxPosInc, entries, queue
      ensures Core() && Counted() && maxPosInc == |w| && Others() == old(Others())
      ensures Abs().(frontier := 0) == Release(mode, old(Abs())).(frontier := 0)
      ensures Off(firstNonreadPos) == Back(mode.size, old(Off(firstNonreadPos)), LeadingFillers(old(w)))
    {
      ghost var s := Abs();
      ghost var d := PassFillers(s);
      TakeNFront(mode, s, d);
    }

    // ----- the in-order frontier

    predicate HasReadableInorderPkts()
      reads this
    {
      firstNonreadPos != startPos
    }

    method GetRcvDataSize() returns (n: nat)
      requires Base()
      ensures n == Off(firstNonreadPos)
    {
      if firstNonreadPos >= startPos {
        return firstNonreadPos - startPos;
      }
      return mode.size + firstNonreadPos - startPos;
    }

    /** The inner loop of UpdateNonreadPos: the position after the end of the message at `pos`, or `pos`. */
    method FindMessageEnd(pos: nat) returns (next: nat)
      requires Base() && pos < mode.size && Off(pos) < |w| && w[Off(pos)].Has()
      ensures next < mode.size
      ensures Off(next) ==
              if SpanComplete(mode.msgApi, w, Off(pos)) then SpanEnd(mode.msgApi, w, Off(pos)) else Off(pos)
    {
      EndOff(mode.size, startPos, maxPosInc);
      var endPos: nat := IncPos(mode.size, startPos, maxPosInc);
      var i: nat := pos;
      next := pos;
      Look(pos);
      while i != endPos
        invariant i < mode.size && Off(pos) <= Off(i) <= |w|
        invariant next == pos
        invariant SpanComplete(mode.msgApi, w, Off(pos)) == SpanComplete(mode.msgApi, w, Off(i))
        invariant SpanEnd(mode.msgApi, w, Off(pos)) == SpanEnd(mode.msgApi, w, Off(i))
        decreases |w| - Off(i)
      {
        Look(i);
        if !entries[i].Has() || entries[pos].status != Avail {
          break;
        }
        if !mode.msgApi || entries[i].Pkt().isLast {
          next := IncPos(mode.size, i, 1);
          break;
        }
        i := IncPos(mode.size, i, 1);
      }
      Look(i);
    }

    /** Where the frontier moves from `pos` in one step. */
    method NextFrontier(pos: nat) returns (next: nat)
      requires Base() && pos < mode.size && Off(pos) <= |w|
      ensures next < mode.size
      ensures Off(next) == if MessageAt(mode.msgApi, w, Off(pos)) then SpanEnd(mode.msgApi, w, Off(pos)) else Off(pos)
    {
      Look(pos);
      if entries[pos].Has() && entries[pos].status == Avail && (!mode.msgApi || entries[pos].Pkt().isFirst) {
        next := FindMessageEnd(pos);
      } else {
        next := pos;
      }
    }

    method UpdateNonreadPos()
      requires Base() && Off(firstNonreadPos) <= |w|
      modifies this`firstNonreadPos
      ensures firstNonreadPos < mode.size
      ensures Off(firstNonreadPos) == Frontier(mode.msgApi, w, old(Off(firstNonreadPos)))
    {
      if maxPosInc == 0 {
        return;
      }
      ghost var f := Frontier(mode.msgApi, w, Off(firstNonreadPos));
      var pos: nat := firstNonreadPos;
      var more := true;
      while more
        invariant pos < mode.size && firstNonreadPos < mode.size && Off(pos) <= |w|
        invariant Frontier(mode.msgApi, w, Off(pos)) == f
        invariant !more ==> Off(firstNonreadPos) == f
        decreases |w| - Off(pos), more
      {
        var next := NextFrontier(pos);
        firstNonreadPos := next;
        if MessageAt(mode.msgApi, w, Off(pos)) {
          SpanMoves(mode.msgApi, w, Off(pos));
        }
        Look(next);
        more := pos != next && entries[next].Has();
        pos := next;
      }
    }

    // ----- messages readable out of order

    /** A position or -1, as an offset or -1. */
    ghost function OffOrNone(p: int): int
      reads this
      requires startPos < mode.size
    {
      if p < 0 then -1 else Off(p)
    }

    /** The packet after `pos`: whether it belongs to the message, and whether it is its last. */
    method NextOfMessage(pos: nat, msgNo: nat) returns (next: nat, belongs: bool, last: bool)
      requires Base() && pos < mode.size && Off(pos) + 1 < |w|
      ensures next < mode.size && Off(next) == Off(pos) + 1
      ensures ScanRight(w, Off(pos), msgNo) ==
              if !belongs then -1 else if last then Off(next) else ScanRight(w, Off(next), msgNo)
    {
      Look(pos);
      next := IncPos(mode.size, pos, 1);
      Look(next);
      belongs := entries[next].Has() && entries[next].Pkt().msgno == msgNo;
      last := belongs && entries[next].Pkt().isLast;
    }

    method ScanNotInOrderMessageRight(from: nat, msgNo: nat) returns (r: int)
      requires Base() && from < mode.size && Off(from) < |w|
      ensures -1 <= r < mode.size
      ensures OffOrNone(r) == ScanRight(w, Off(from), msgNo)
    {
      EndOff(mode.size, startPos, maxPosInc - 1);
      var lastPos: nat := IncPos(mode.size, startPos, maxPosInc - 1);
      var pos: nat := from;
      r := -1;
      while pos != lastPos
        invariant pos < mode.size && Off(pos) < |w|
        invariant ScanRight(w, Off(from), msgNo) == ScanRight(w, Off(pos), msgNo)
        decreases |w| - Off(pos)
      {
        OffInjective(mode.size, startPos, pos, lastPos);
        var next, belongs, last := NextOfMessage(pos, msgNo);
        if !belongs {
          return;
        }
        if last {
          r := next;
          return;
        }
        pos := next;
      }
    }

    method ScanNotInOrderMessageLeft(from: nat, msgNo: nat) returns (r: int)
      requires Base() && from < mode.size && Off(from) < |w|
      ensures -1 <= r < mode.size
      ensures OffOrNone(r) == ScanLeft(w, Off(from), msgNo)
    {
      Look(from);
      var pos: nat := from;
      while pos != startPos
        invariant pos < mode.size && Off(pos) <= Off(from)
        invariant ScanLeft(w, Off(from), msgNo) == ScanLeft(w, Off(pos), msgNo)
        decreases Off(pos)
      {
        Look(pos);
        pos := DecPos(mode.size, pos);
        Look(pos);
        if !entries[pos].Has() || entries[pos].Pkt().msgno != msgNo {
          return -1;
        }
        if entries[pos].Pkt().isFirst {
          return pos;
        }
      }
      return -1;
    }

    method OnInsertNotInOrderPacket(insertPos: nat)
      requires Base() && insertPos < mode.size && Off(insertPos) < |w| && w[Off(insertPos)].Has()
      requires mode.OutOfOrder() && !w[Off(insertPos)].Pkt().inOrder
      modifies this`firstReadableOutOfOrder
      ensures -1 <= firstReadableOutOfOrder < mode.size
      ensures Ooo() == OooOnInsert(w, Off(insertPos), old(Ooo()))
    {
      CountZero(w);
      if numOutOfOrderPackets == 0 {
        return;
      }
      if firstReadableOutOfOrder >= 0 {
        return;
      }
      Look(insertPos);
      var pkt := entries[insertPos].Pkt();
      var hasLast := pkt.isLast;
      if !hasLast {
        var last := ScanNotInOrderMessageRight(insertPos, pkt.msgno);
        hasLast := -1 < last;
      }
      if !hasLast {
        return;
      }
      var firstPktPos: int := insertPos;
      if !pkt.isFirst {
        firstPktPos := ScanNotInOrderMessageLeft(insertPos, pkt.msgno);
      }
      if firstPktPos < 0 {
        return;
      }
      firstReadableOutOfOrder := firstPktPos;
    }

    method CheckFirstReadableOutOfOrder() returns (ok: bool)
      requires Base() && mode.OutOfOrder()
      ensures ok <==> 0 <= Ooo() <= |w| && OooCheck(w, Ooo(), -1)
    {
      CountZero(w);
      if numOutOfOrderPackets <= 0 || firstReadableOutOfOrder < 0 || maxPosInc == 0 {
        return false;
      }
      EndOff(mode.size, startPos, maxPosInc);
      var endPos: nat := IncPos(mode.size, startPos, maxPosInc);
      Look(endPos);
      var msgno: int := -1;
      var pos: nat := firstReadableOutOfOrder;
      Look(pos);
      if Off(pos) > |w| {
        assert !entries[pos].Has();
      }
      while pos != endPos
        invariant pos < mode.size && msgno >= -1
        invariant Off(pos) <= |w| || pos == firstReadableOutOfOrder
        invariant Off(pos) <= |w| && Ooo() <= |w| ==> OooCheck(w, Off(pos), msgno) == OooCheck(w, Ooo(), -1)
        invariant Off(pos) <= |w| ==> Ooo() <= |w|
        decreases mode.size - Off(pos)
      {
        Look(pos);
        if !entries[pos].Has() {
          return false;
        }
        var pkt := entries[pos].Pkt();
        if pkt.inOrder {
          return false;
        }
        if msgno == -1 {
          msgno := pkt.msgno;
        } else if msgno != pkt.msgno {
          return false;
        }
        if pkt.isLast {
          return true;
        }
        pos := IncPos(mode.size, pos, 1);
      }
      return false;
    }

    /** What the search of UpdateFirstReadableOutOfOrder has found out before position `pos`, at offset `k`. */
    ghost predicate Searching(pos: nat, k: nat, posFirst: int, msgNo: int, remain: nat)
      reads this, entries, queue
    {
      && Base()
      && pos < mode.size && -1 <= posFirst < mode.size
      && k <= |w| && Off(pos) == k
      && remain == CountUnordered(w[k..])
      && SearchOoo(w, 0, -1, -1) == SearchOoo(w, k, OffOrNone(posFirst), msgNo)
    }

    /** One round of that search; `found` if it ends here with `posFirst'`, `inside` if the packet is one of a message
        under way. */
    method SearchStep(pos: nat, ghost k: nat, posFirst: int, msgNo: int, remain: nat)
      returns (posFirst': int, msgNo': int, remain': nat, found: bool, inside: bool)
      requires Searching(pos, k, posFirst, msgNo, remain) && k < |w|
      ensures found ==> -1 <= posFirst' < mode.size && OffOrNone(posFirst') == SearchOoo(w, 0, -1, -1)
      ensures !found ==> Searching(IncPos(mode.size, pos, 1), k + 1, posFirst', msgNo', remain')
    {
      Look(pos);
      CountFrom(w, k);
      posFirst', msgNo', remain', found, inside := -1, -1, remain, false, false;
      if entries[pos].Has() && !entries[pos].Pkt().inOrder {
        var pkt := entries[pos].Pkt();
        remain' := remain - 1;
        posFirst', msgNo' := posFirst, msgNo;
        if pkt.isFirst {
          posFirst', msgNo' := pos, pkt.msgno;
        }
        if pkt.msgno != msgNo' {
          posFirst', msgNo' := -1, -1;
        } else {
          found := pkt.isLast;
          inside := true;
        }
      }
    }

    /** The search of UpdateFirstReadableOutOfOrder. Only inside a message does it look where the window ends; it ends
        everywhere else because the packets it has yet to meet are counted. */
    method SearchReadableOutOfOrder() returns (r: int)
      requires Base() && mode.OutOfOrder() && maxPosInc > 0
      ensures -1 <= r < mode.size
      ensures OffOrNone(r) == SearchOoo(w, 0, -1, -1)
    {
      var remain: nat := numOutOfOrderPackets;
      EndOff(mode.size, startPos, maxPosInc - 1);
      var lastPos: nat := IncPos(mode.size, startPos, maxPosInc - 1);
      var posFirst: int := -1;
      var msgNo: int := -1;
      var pos: nat := startPos;
      ghost var k: nat := 0;
      assert w[0..] == w;
      while remain > 0
        invariant Searching(pos, k, posFirst, msgNo, remain)
        decreases |w| - k
      {
        var found, inside;
        posFirst, msgNo, remain, found, inside := SearchStep(pos, k, posFirst, msgNo, remain);
        if found {
          return posFirst;
        }
        if inside {
          OffInjective(mode.size, startPos, pos, lastPos);
          if pos == lastPos {
            return -1;
          }
        }
        pos := IncPos(mode.size, pos, 1);
        k := k + 1;
      }
      SearchNothing(w, k, OffOrNone(posFirst), msgNo);
      return -1;
    }

    method UpdateFirstReadableOutOfOrder()
      requires Base()
      modifies this`firstReadableOutOfOrder
      ensures -1 <= firstReadableOutOfOrder < mode.size
      ensures Ooo() == if mode.OutOfOrder() then OooUpdate(w, Off(firstNonreadPos), old(Ooo())) else old(Ooo())
    {
      assert w[0..] == w;
      if HasReadableInorderPkts() || numOutOfOrderPackets <= 0 || firstReadableOutOfOrder >= 0 {
        if mode.OutOfOrder() && numOutOfOrderPackets == 0 {
          SearchNothing(w, 0, -1, -1);
        }
        return;
      }
      if maxPosInc == 0 {
        return;
      }
      firstReadableOutOfOrder := SearchReadableOutOfOrder();
    }

    // ----- public operations

    /** The window is extended with empty entries up to offset `off`. */
    method ExtendTo(off: nat)
      requires Base() && off < mode.size - 1
      modifies this`w, this`maxPosInc
      ensures Base() && w == Grow(old(w), off + 1) && Ids(w) == old(Ids(w))
    {
      if off >= maxPosInc {
        maxPosInc := off + 1;
      }
      RingGrow(entries[..], startPos, w, off + 1);
      IdsGrow(w, off + 1);
      CountGrow(w, off + 1);
      w := Grow(w, off + 1);
    }

    /** A unit is put into an empty entry of the window. */
    method Store(pos: nat, unit: Unit)
      requires Base() && pos < mode.size && Off(pos) < |w| && !w[Off(pos)].Has()
      requires unit.id !in queue.taken
      modifies this`w, this`numOutOfOrderPackets, entries, queue
      ensures Base() && w == old(w)[Off(pos) := Entry(Some(unit), Avail)]
      ensures Others() == old(Others())
    {
      ghost var k := Off(pos);
      var e := Entry(Some(unit), Avail);
      RingSet(entries[..], startPos, w, pos, e);
      IdsStore(w, k, e);
      CountSet(w, k, e);
      queue.MakeUnitGood(unit.id);
      entries[pos] := e;
      w := w[k := e];
      if !mode.tsbpd && mode.msgApi && !unit.packet.inOrder {
        numOutOfOrderPackets := numOutOfOrderPackets + 1;
      }
    }

    /** A unit is stored in an empty entry, and both indexes follow. */
    method StoreAndUpdate(pos: nat, unit: Unit)
      requires Base() && pos < mode.size && Off(pos) < |w| && !w[Off(pos)].Has()
      requires unit.id !in queue.taken && Off(firstNonreadPos) <= |w|
      modifies this`w, this`numOutOfOrderPackets, this`pktsCount, this`bytesCount
      modifies this`firstReadableOutOfOrder, this`firstNonreadPos, entries, queue
      ensures Base() && Others() == old(Others())
      ensures Abs() == StoreAt(mode, old(Abs()), old(Off(pos)), unit)
    {
      Store(pos, unit);
      CountBytes(1, |unit.packet.payload|);
      if !mode.tsbpd && mode.msgApi && !unit.packet.inOrder {
        OnInsertNotInOrderPacket(pos);
      }
      UpdateNonreadPos();
    }

    /** A packet arrives for offset `offset` of the window. */
    method InsertAtOffset(offset: nat, unit: Unit) returns (code: int)
      requires Base() && Off(firstNonreadPos) <= |w| && unit.id !in queue.taken
      requires offset < mode.size - 1
      modifies this, entries, queue
      ensures Base() && Others() == old(Others())
      ensures (Abs(), code) == InsertAt(mode, old(Abs()), offset, unit)
    {
      EndOff(mode.size, startPos, offset);
      var pos: nat := IncPos(mode.size, startPos, offset);
      ghost var s := Abs();
      ExtendTo(offset);
      Look(pos);
      code := ALREADY_STORED;
      assert Abs() == s.(w := Grow(s.w, offset + 1));
      if entries[pos].status == Empty {
        StoreAndUpdate(pos, unit);
        code := INSERTED;
      }
    }

    method Insert(unit: Unit) returns (code: int)
      requires Valid() && unit.id !in queue.taken
      modifies this, entries, queue
      ensures Valid() && Others() == old(Others())
      ensures (Abs(), code) == RcvWindow.Insert(mode, old(Abs()), unit)
    {
      InsertKeepsInv(mode, Abs(), unit);
      var offset := SeqOff(startSeqNo, unit.packet.seqno);
      if offset < 0 {
        return BEFORE_START;
      }
      if offset >= mode.size - 1 {
        return BEYOND_CAPACITY;
      }
      code := InsertAtOffset(offset, unit);
    }

    /** One round of the loop in DropUpTo. */
    method DropStart()
      requires Core() && Counted() && -1 <= firstReadableOutOfOrder < mode.size
      modifies this`w, this`startPos, this`numOutOfOrderPackets, this`firstReadableOutOfOrder, entries, queue
      ensures Core() && Counted() && Others() == old(Others())
      ensures -1 <= firstReadableOutOfOrder < mode.size
      ensures Front(w, Ooo()) == DropOneFront(mode, Front(old(w), old(Ooo())))
    {
      AtOff(mode.size, startPos, startPos);
      var dropped := DropUnitInPos(startPos);
      SetStatus(startPos, Empty);
      AdvanceStart();
    }

    method DropFirst(len: nat)
      requires Core() && Counted() && -1 <= firstReadableOutOfOrder < mode.size
      modifies this`w, this`startPos, this`numOutOfOrderPackets, this`firstReadableOutOfOrder, entries, queue
      ensures Core() && Counted() && Others() == old(Others())
      ensures -1 <= firstReadableOutOfOrder < mode.size
      ensures Front(w, Ooo()) == DropN(mode, Front(old(w), old(Ooo())), len)
    {
      ghost var f := Front(w, Ooo());
      var left: nat := len;
      while left > 0
        invariant left <= len
        invariant Core() && Counted() && Others() == old(Others())
        invariant -1 <= firstReadableOutOfOrder < mode.size
        invariant Front(w, Ooo()) == DropN(mode, f, len - left)
      {
        DropStart();
        left := left - 1;
      }
    }

    /** The frontier is searched again from the start. */
    method RestartFrontier()
      requires Core() && Counted() && maxPosInc == |w| && -1 <= firstReadableOutOfOrder < mode.size
      modifies this`firstNonreadPos
      ensures Base() && Off(firstNonreadPos) == Frontier(mode.msgApi, w, 0)
    {
      firstNonreadPos := startPos;
      AtOff(mode.size, startPos, startPos);
      UpdateNonreadPos();
    }

    /** The frontier is searched again from the start, and then the index of messages readable out of order. */
    method ReindexFromStart()
      requires Core() && Counted() && maxPosInc == |w| && -1 <= firstReadableOutOfOrder < mode.size
      modifies this`firstNonreadPos, this`firstReadableOutOfOrder
      ensures Base()
      ensures var f := Frontier(mode.msgApi, w, 0);
              Abs() == old(Abs()).(frontier := f,
                                   ooo := if mode.OutOfOrder() then OooUpdate(w, f, old(Ooo())) else old(Ooo()))
    {
      RestartFrontier();
      if !mode.tsbpd && mode.msgApi {
        UpdateFirstReadableOutOfOrder();
      }
    }

    /** The loop of DropUpTo with the counters around it. */
    method DropFrontTo(len: nat, seqno: Seq)
      requires Base()
      modifies this`w, this`startPos, this`maxPosInc, this`startSeqNo, this`numOutOfOrderPackets
      modifies this`firstReadableOutOfOrder, entries, queue
      ensures Core() && Counted() && maxPosInc == |w| && Others() == old(Others())
      ensures -1 <= firstReadableOutOfOrder < mode.size
      ensures Abs().(frontier := 0) == DropFront(mode, old(Abs()), len, seqno).(frontier := 0)
    {
      maxPosInc := if maxPosInc < len then 0 else maxPosInc - len;
      DropNIs(mode, w, Ooo(), len);
      DropFirst(len);
      startSeqNo := seqno;
    }

    method DropUpToOffset(len: nat, seqno: Seq)
      requires Base()
      modifies this, entries, queue
      ensures Base() && Others() == old(Others())
      ensures Abs() == DropUpToAt(mode, old(Abs()), len, seqno)
    {
      DropFrontTo(len, seqno);
      ReleaseNextFillerEntries();
      ReindexFromStart();
    }

    method DropUpTo(seqno: Seq) returns (n: int)
      requires Valid()
      modifies this, entries, queue
      ensures Valid() && Others() == old(Others())
      ensures (Abs(), n) == RcvWindow.DropUpTo(mode, old(Abs()), seqno)
    {
      DropUpToKeepsInv(mode, Abs(), seqno);
      var len := SeqOff(startSeqNo, seqno);
      if len <= 0 {
        return 0;
      }
      DropUpToOffset(len, seqno);
      return len;
    }

    method DropAll() returns (n: int)
      requires Valid()
      modifies this, entries, queue
      ensures Valid() && Others() == old(Others())
      ensures (Abs(), n) == RcvWindow.DropAll(mode, old(Abs()))
    {
      if maxPosInc == 0 {
        return 0;
      }
      n := DropUpTo(IncSeq(startSeqNo, maxPosInc));
    }

    /** The entry at `pos`, whatever it holds, becomes a Drop filler. */
    method DropEntry(pos: nat)
      requires Base() && pos < mode.size && Off(pos) < |w|
      modifies this`w, this`numOutOfOrderPackets, this`firstReadableOutOfOrder, entries, queue
      ensures Base() && Others() == old(Others())
      ensures w == old(w)[Off(pos) := DROP_ENTRY]
      ensures Ooo() == if old(Ooo()) == Off(pos) && DropForgets(mode, old(w), Off(pos)) then -1 else old(Ooo())
    {
      ghost var w0, k := w, Off(pos);
      AtOff(mode.size, startPos, pos);
      var dropped := DropUnitInPos(pos);
      assert w[k := DROP_ENTRY] == w0[k := DROP_ENTRY];
      MarkFiller(pos, Drop);
    }

    /** One round of the loops of DropMessage: `c` picks the entry at `pos` or not. */
    method DropStep(pos: nat, picked: bool, count: nat, first: int, ghost w0: Window, ghost o: int, ghost c: Choice)
      returns (count': nat, first': int)
      requires Base() && pos < mode.size && Off(pos) < |w0| && -1 <= o && -1 <= first
      requires Dropping(w, count, first, Ooo()) == DroppedTo(mode, w0, o, c, Off(pos))
      requires picked == c.Picks(Off(pos), w0[Off(pos)])
      modifies this`w, this`numOutOfOrderPackets, this`firstReadableOutOfOrder, entries, queue
      ensures Base() && Others() == old(Others())
      ensures Dropping(w, count', first', Ooo()) == DroppedTo(mode, w0, o, c, Off(pos) + 1)
    {
      count', first' := count, first;
      if picked {
        count' := count + 1;
        DropEntry(pos);
        if first == -1 {
          first' := OffPos(mode.size, startPos, pos);
        }
      }
    }

    /** One round of the loop of DropMessage for a message number. */
    method DropStepOfMessage(i: nat, msgno: nat, count: nat, first: int, ghost w0: Window, ghost o: int)
      returns (count': nat, first': int, next: nat)
      requires Base() && i < mode.size && Off(i) < |w0| && -1 <= o && -1 <= first
      requires Dropping(w, count, first, Ooo()) == DroppedTo(mode, w0, o, ByMsgno(msgno), Off(i))
      modifies this`w, this`numOutOfOrderPackets, this`firstReadableOutOfOrder, entries, queue
      ensures Base() && Others() == old(Others()) && -1 <= first'
      ensures next < mode.size && Off(next) == Off(i) + 1
      ensures Dropping(w, count', first', Ooo()) == DroppedTo(mode, w0, o, ByMsgno(msgno), Off(next))
    {
      Look(i);
      var picked := entries[i].Has() && entries[i].Pkt().msgno == msgno;
      count', first' := DropStep(i, picked, count, first, w0, o, ByMsgno(msgno));
      next := IncPos(mode.size, i, 1);
    }

    /** The loop of DropMessage over the whole window, for a message number. */
    method DropByMsgno(msgno: nat) returns (count: nat, first: int)
      requires Base()
      modifies this`w, this`numOutOfOrderPackets, this`firstReadableOutOfOrder, entries, queue
      ensures Base() && Others() == old(Others()) && -1 <= first
      ensures Dropping(w, count, first, Ooo()) == DroppedTo(mode, old(w), old(Ooo()), ByMsgno(msgno), |old(w)|)
    {
      ghost var w0, o, c := w, Ooo(), ByMsgno(msgno);
      EndOff(mode.size, startPos, maxPosInc);
      var endPos: nat := IncPos(mode.size, startPos, maxPosInc);
      AtOff(mode.size, startPos, endPos);
      AtOff(mode.size, startPos, startPos);
      count, first := 0, -1;
      var i: nat := startPos;
      ghost var k: nat := 0;
      while i != endPos
        invariant Base() && Others() == old(Others())
        invariant i < mode.size && Off(i) == k <= |w0| && -1 <= first
        invariant Dropping(w, count, first, Ooo()) == DroppedTo(mode, w0, o, c, k)
        decreases |w0| - k
      {
        count, first, i := DropStepOfMessage(i, msgno, count, first, w0, o);
        k := k + 1;
      }
    }

    /** One round of the loop of DropMessage over a range. */
    method DropStepInRange(i: nat, count: nat, first: int, ghost w0: Window, ghost o: int, ghost c: Choice)
      returns (count': nat, first': int, next: nat)
      requires Base() && i < mode.size && Off(i) < |w0| && -1 <= o && -1 <= first
      requires c.ByRange? && c.lo <= Off(i) < c.hi
      requires Dropping(w, count, first, Ooo()) == DroppedTo(mode, w0, o, c, Off(i))
      modifies this`w, this`numOutOfOrderPackets, this`firstReadableOutOfOrder, entries, queue
      ensures Base() && Others() == old(Others()) && -1 <= first'
      ensures next < mode.size && Off(next) == Off(i) + 1
      ensures Dropping(w, count', first', Ooo()) == DroppedTo(mode, w0, o, c, Off(next))
    {
      Look(i);
      var picked := !(entries[i].Has() && entries[i].Pkt().isFirst && entries[i].Pkt().isLast);
      count', first' := DropStep(i, picked, count, first, w0, o, c);
      next := IncPos(mode.size, i, 1);
    }

    /** The loop of DropMessage over a range, from position `from` to the end of the window or `lastPos`,
        whichever comes first. */
    method DropWalk(from: nat, endPos: nat, lastPos: nat, ghost c: Choice) returns (count: nat, first: int)
      requires Base() && from < mode.size && endPos < mode.size && lastPos < mode.size
      requires Off(endPos) == |w| && Off(from) <= |w| && c == RangeOf(w, Off(from), Off(lastPos))
      modifies this`w, this`numOutOfOrderPackets, this`firstReadableOutOfOrder, entries, queue
      ensures Base() && Others() == old(Others()) && -1 <= first
      ensures Dropping(w, count, first, Ooo()) == DroppedTo(mode, old(w), old(Ooo()), c, c.hi)
    {
      ghost var w0, o := w, Ooo();
      count, first := 0, -1;
      var i: nat := from;
      DroppedWithin(mode, w0, o, c, 0, Off(i));
      while i != endPos && i != lastPos
        invariant Base() && Others() == old(Others())
        invariant i < mode.size && c.lo <= Off(i) <= c.hi && -1 <= first
        invariant Dropping(w, count, first, Ooo()) == DroppedTo(mode, w0, o, c, Off(i))
        decreases |w0| - Off(i)
      {
        OffInjective(mode.size, startPos, i, endPos);
        OffInjective(mode.size, startPos, i, lastPos);
        count, first, i := DropStepInRange(i, count, first, w0, o, c);
      }
    }

    method DropByRange(lo: nat, hi: nat) returns (count: nat, first: int)
      requires Base() && lo <= |w| && hi < mode.size
      modifies this`w, this`numOutOfOrderPackets, this`firstReadableOutOfOrder, entries, queue
      ensures Base() && Others() == old(Others()) && -1 <= first
      ensures Dropping(w, count, first, Ooo()) ==
              DroppedTo(mode, old(w), old(Ooo()), RangeOf(old(w), lo, hi), |old(w)|)
    {
      ghost var c := RangeOf(w, lo, hi);
      EndOff(mode.size, startPos, maxPosInc);
      EndOff(mode.size, startPos, lo);
      EndOff(mode.size, startPos, hi);
      DroppedWithin(mode, w, Ooo(), c, c.hi, |w|);
      count, first := DropWalk(IncPos(mode.size, startPos, lo), IncPos(mode.size, startPos, maxPosInc),
                               IncPos(mode.size, startPos, hi), c);
    }

    /** The index is forgotten if it no longer points at a whole message, and searched again. */
    method RecheckOutOfOrder()
      requires Base()
      modifies this`firstReadableOutOfOrder
      ensures -1 <= firstReadableOutOfOrder < mode.size
      ensures Ooo() == OooAfterDrop(mode, w, Off(firstNonreadPos), old(Ooo()))
    {
      if !mode.tsbpd && mode.msgApi {
        var ok := CheckFirstReadableOutOfOrder();
        if !ok {
          firstReadableOutOfOrder := -1;
        }
        UpdateFirstReadableOutOfOrder();
      }
    }

    method FinishDropping(first: int)
      requires Base() && -1 <= first && Off(firstNonreadPos) <= |w|
      requires first == -1 || first > Off(firstNonreadPos) ==> !StartIsFiller(w)
      modifies this`w, this`startSeqNo, this`startPos, this`maxPosInc
      modifies this`firstNonreadPos, this`firstReadableOutOfOrder, entries, queue
      ensures Base() && Others() == old(Others())
      ensures Abs() == FinishDrop(mode, old(Abs()), first)
    {
      ghost var s := Abs();
      var size := GetRcvDataSize();
      var needUpdateNonreadPos := first != -1 && first <= size;
      ReleaseNextFillerEntries();
      if needUpdateNonreadPos {
        RestartFrontier();
      }
      RecheckOutOfOrder();
    }

    /** What DropMessage does after its loop over the state `s`. */
    method ConcludeDrop(count: nat, first: int, ghost s: State, ghost c: Choice)
      requires Base() && -1 <= first && -1 <= s.ooo && s.frontier <= |s.w| && !StartIsFiller(s.w)
      requires Dropping(w, count, first, Ooo()) == DroppedTo(mode, s.w, s.ooo, c, |s.w|)
      requires Abs().(w := s.w, ooo := s.ooo) == s
      modifies this`w, this`startSeqNo, this`startPos, this`maxPosInc
      modifies this`firstNonreadPos, this`firstReadableOutOfOrder, entries, queue
      ensures Base() && Others() == old(Others())
      ensures (Abs(), count) == DropMessage(mode, s, c)
    {
      if FirstPicked(s.w, c, |s.w|) != 0 {
        StartAfterDrop(s.w, c);
      }
      DroppedAll(mode, s, c, Dropping(w, count, first, Ooo()));
      FinishDropping(first);
    }

    method DropMessageByMsgno(msgno: nat) returns (n: int)
      requires Valid()
      modifies this, entries, queue
      ensures Valid() && Others() == old(Others())
      ensures (Abs(), n) == DropMessage(mode, old(Abs()), ByMsgno(msgno))
    {
      DropMessageKeepsInv(mode, Abs(), ByMsgno(msgno));
      n := DropMsgno(msgno);
    }

    method DropMsgno(msgno: nat) returns (n: int)
      requires Base() && Off(firstNonreadPos) <= |w| && !StartIsFiller(w)
      modifies this, entries, queue
      ensures Base() && Others() == old(Others())
      ensures (Abs(), n) == DropMessage(mode, old(Abs()), ByMsgno(msgno))
    {
      ghost var s := Abs();
      var count, first := DropByMsgno(msgno);
      ConcludeDrop(count, first, s, ByMsgno(msgno));
      return count;
    }

    method DropRange(lo: nat, hi: nat) returns (n: int)
      requires Base() && Off(firstNonreadPos) <= |w| && !StartIsFiller(w)
      requires lo <= |w| && hi < mode.size
      modifies this, entries, queue
      ensures Base() && Others() == old(Others())
      ensures (Abs(), n) == DropMessage(mode, old(Abs()), RangeOf(old(w), lo, hi))
    {
      ghost var s := Abs();
      var count, first := DropByRange(lo, hi);
      ConcludeDrop(count, first, s, RangeOf(s.w, lo, hi));
      return count;
    }

    /** Without a message number the range of sequence numbers counts. The first of them must not lie beyond
        the end of the window, nor the last beyond the ring. */
    method DropMessageByRange(seqnolo: Seq, seqnohi: Seq) returns (n: int)
      requires Valid()
      requires SeqOff(startSeqNo, seqnolo) <= |w| && SeqOff(startSeqNo, seqnohi) < mode.size
      modifies this, entries, queue
      ensures Valid() && Others() == old(Others())
      ensures var lo, hi := SeqOff(old(startSeqNo), seqnolo), SeqOff(old(startSeqNo), seqnohi);
              (Abs(), n) == if hi < 0 then (old(Abs()), 0)
                            else DropMessage(mode, old(Abs()), RangeOf(old(w), if lo < 0 then 0 else lo, hi))
    {
      var offsetA := SeqOff(startSeqNo, seqnolo);
      var offsetB := SeqOff(startSeqNo, seqnohi);
      if offsetB < 0 {
        return 0;
      }
      var startOff: nat := if offsetA < 0 then 0 else offsetA;
      DropMessageKeepsInv(mode, Abs(), RangeOf(w, startOff, offsetB));
      n := DropRange(startOff, offsetB);
    }

    // ----- reading

    method CountOutOfOrderRead(packet: Packet)
      requires Counted() && w != [] && (!packet.inOrder ==> mode.OutOfOrder() ==> CountUnordered(w) > 0)
      modifies this`numOutOfOrderPackets
      ensures numOutOfOrderPackets ==
              if mode.OutOfOrder() then CountUnordered(w) - (if packet.inOrder then 0 else 1) else 0
    {
      if numOutOfOrderPackets > 0 && !packet.inOrder {
        numOutOfOrderPackets := numOutOfOrderPackets - 1;
      }
    }

    /** One round of the loop in ReadMessage at the start of the window: the packet leaves the buffer. */
    method TakeFirst()
      requires Core() && Counted() && maxPosInc == |w| && firstNonreadPos < mode.size
      requires -1 <= firstReadableOutOfOrder < mode.size
      requires w != [] && w[0].Has() && w[0].Pkt().seqno == startSeqNo
      modifies this`w, this`numOutOfOrderPackets, this`startPos, this`maxPosInc, this`startSeqNo, entries, queue
      ensures Core() && Counted() && maxPosInc == |w| && Others() == old(Others())
      ensures Abs().(frontier := 0) == TakeOne(mode, old(Abs()), 0, true).(frontier := 0)
      ensures startPos == IncPos(mode.size, old(startPos), 1)
      ensures Off(firstNonreadPos) == Back(mode.size, old(Off(firstNonreadPos)), 1)
    {
      Look(startPos);
      AtOff(mode.size, startPos, startPos);
      var packet := entries[startPos].Pkt();
      CountSet(w, 0, EMPTY_ENTRY);
      CountOutOfOrderRead(packet);
      ReleaseStart();
      startSeqNo := IncSeq(packet.seqno, 1);
    }

    /** One round of the loop in ReadMessage elsewhere: the packet is marked read. */
    method TakeMiddle(i: nat)
      requires Core() && Counted() && i < mode.size && Off(i) < |w| && w[Off(i)].Has()
      modifies this`w, this`numOutOfOrderPackets, entries, queue
      ensures Core() && Counted() && Others() == old(Others())
      ensures w == old(w)[Off(i) := READ_ENTRY]
    {
      ghost var w0, k := w, Off(i);
      Look(i);
      CountSet(w, k, EMPTY_ENTRY);
      CountOutOfOrderRead(entries[i].Pkt());
      ReleaseUnitInPos(i);
      assert w[k := READ_ENTRY] == w0[k := READ_ENTRY];
      MarkFiller(i, Read);
    }

    /** What ReadMessage knows after it took `j` packets from offset `r` of the state `s`; `i` is its position. */
    ghost predicate Taking(s: State, r: nat, j: nat, i: nat, start0: nat, nonread0: nat)
      reads this, entries, queue
    {
      && Core() && Counted() && maxPosInc == |w| && firstNonreadPos < mode.size
      && -1 <= firstReadableOutOfOrder < mode.size
      && r + j <= |s.w| < mode.size
      && Abs().(frontier := 0) == TakeN(mode, s, r, j).(frontier := 0)
      && i < mode.size
      && (if r == 0 then i == startPos else startPos == start0 && Off(i) == r + j)
      && Off(firstNonreadPos) == if r == 0 then Back(mode.size, nonread0, j) else nonread0
    }

    method TakePacketFirst(ghost s: State, ghost j: nat, ghost start0: nat)
      requires Taking(s, 0, j, startPos, start0, s.frontier)
      requires j < |s.w| && s.w[j].Has() && Numbered(s.w, s.startSeq) && s.frontier <= |s.w|
      modifies this`w, this`numOutOfOrderPackets, this`startPos, this`maxPosInc, this`startSeqNo, entries, queue
      ensures Taking(s, 0, j + 1, startPos, start0, s.frontier) && Others() == old(Others())
      ensures startPos == IncPos(mode.size, old(startPos), 1)
    {
      TakeNNext(mode, s, j);
      TakeFirst();
    }

    method TakePacketMiddle(i: nat, ghost s: State, ghost r: nat, ghost j: nat, ghost start0: nat) returns (next: nat)
      requires Taking(s, r, j, i, start0, s.frontier) && r > 0
      requires r + j < |s.w| && s.w[r + j].Has() && s.frontier <= |s.w|
      modifies this`w, this`numOutOfOrderPackets, entries, queue
      ensures Taking(s, r, j + 1, next, start0, s.frontier) && Others() == old(Others())
      ensures next == IncPos(mode.size, i, 1)
    {
      AtOff(mode.size, startPos, i);
      TakeMiddle(i);
      next := IncPos(mode.size, i, 1);
    }

    method TakePacket(i: nat, updateStartPos: bool, ghost s: State, ghost r: nat, ghost j: nat, ghost start0: nat)
      returns (next: nat)
      requires Taking(s, r, j, i, start0, s.frontier) && updateStartPos == (r == 0)
      requires r + j < |s.w| && s.w[r + j].Has() && Numbered(s.w, s.startSeq) && s.frontier <= |s.w|
      modifies this`w, this`numOutOfOrderPackets, this`startPos, this`maxPosInc, this`startSeqNo, entries, queue
      ensures Taking(s, r, j + 1, next, start0, s.frontier) && Others() == old(Others())
    {
      if updateStartPos {
        TakePacketFirst(s, j, start0);
        next := startPos;
      } else {
        next := TakePacketMiddle(i, s, r, j, start0);
      }
    }

    lemma TakingLook(s: State, r: nat, j: nat, i: nat, start0: nat, nonread0: nat)
      requires Taking(s, r, j, i, start0, nonread0)
      ensures entries[i] == if r + j < |s.w| then s.w[r + j] else EMPTY_ENTRY
    {
      Look(i);
    }

    /** One round of the loop in ReadMessage: copy what fits, then take the packet. */
    method ReadPacket(i: nat, updateStartPos: bool, dst: seq<Byte>, remain: nat, bytes: nat, ghost len: nat,
                      ghost s: State, ghost r: nat, ghost j: nat, ghost start0: nat)
      returns (next: nat, dst': seq<Byte>, remain': nat, bytes': nat, last: bool)
      requires Taking(s, r, j, i, start0, s.frontier) && updateStartPos == (r == 0)
      requires r + j < |s.w| && s.w[r + j].Has() && Numbered(s.w, s.startSeq) && s.frontier <= |s.w|
      requires Copied(s.w, r, j, len, dst, remain, bytes)
      modifies this`w, this`numOutOfOrderPackets, this`startPos, this`maxPosInc, this`startSeqNo, entries, queue
      ensures Taking(s, r, j + 1, next, start0, s.frontier) && Others() == old(Others())
      ensures Copied(s.w, r, j + 1, len, dst', remain', bytes')
      ensures last == s.w[r + j].Pkt().isLast
    {
      TakingLook(s, r, j, i, start0, s.frontier);
      CopyStep(s.w, r, j, len, dst, remain, bytes);
      var packet := entries[i].Pkt();
      var unitSize := Min(remain, |packet.payload|);
      dst' := dst + packet.payload[..unitSize];
      remain' := remain - unitSize;
      bytes' := bytes + |packet.payload|;
      last := packet.isLast;
      next := TakePacket(i, updateStartPos, s, r, j, start0);
    }

    /** The loop of ReadMessage from position `readPos`, with room for `len` bytes. */
    method TakeMessage(readPos: nat, len: nat)
      returns (dst: seq<Byte>, pktsRead: nat, bytesExtracted: nat, last: bool, ghost end: nat)
      requires Base() && Numbered(w, startSeqNo)
      requires readPos < mode.size && Off(readPos) <= |w| && Off(firstNonreadPos) <= |w|
      modifies this`w, this`numOutOfOrderPackets, this`startPos, this`maxPosInc, this`startSeqNo, entries, queue
      ensures var s, r := old(Abs()), old(Off(readPos));
              && Walk(s.w, r, pktsRead, false, last)
              && |dst| <= len && Copied(s.w, r, pktsRead, len, dst, len - |dst|, bytesExtracted)
              && Taking(s, r, pktsRead, end, old(startPos), s.frontier)
      ensures Others() == old(Others())
    {
      ghost var s, r := Abs(), Off(readPos);
      var updateStartPos := readPos == startPos;
      AtOff(mode.size, startPos, readPos);
      AtOff(mode.size, startPos, startPos);
      var remain: nat := len;
      dst, pktsRead, bytesExtracted, last := [], 0, 0, false;
      var i: nat := readPos;
      var more := true;
      while more
        invariant Taking(s, r, pktsRead, i, old(startPos), s.frontier) && Others() == old(Others())
        invariant Walk(s.w, r, pktsRead, more, last)
        invariant Copied(s.w, r, pktsRead, len, dst, remain, bytesExtracted)
        decreases |s.w| - pktsRead, more
      {
        TakingLook(s, r, pktsRead, i, old(startPos), s.frontier);
        WalkStep(s.w, r, pktsRead, last);
        if !entries[i].Has() {
          more, last := false, false;
        } else {
          i, dst, remain, bytesExtracted, last := ReadPacket(i, updateStartPos, dst, remain, bytesExtracted, len,
                                                             s, r, pktsRead, old(startPos));
          pktsRead := pktsRead + 1;
          more := !last;
        }
      }
      end := i;
    }

    /** The range check after the loop of ReadMessage: the frontier goes back to the start if that has passed it. */
    method KeepFrontierInRange()
      requires Core() && Counted() && maxPosInc == |w| && firstNonreadPos < mode.size
      requires -1 <= firstReadableOutOfOrder < mode.size
      modifies this`firstNonreadPos
      ensures Base()
      ensures Off(firstNonreadPos) == if old(Off(firstNonreadPos)) <= |w| then old(Off(firstNonreadPos)) else 0
    {
      IsInRangeIffOffset(startPos, maxPosInc, mode.size, firstNonreadPos);
      if !IsInRange(startPos, maxPosInc, mode.size, firstNonreadPos) {
        firstNonreadPos := startPos;
        AtOff(mode.size, startPos, startPos);
      }
    }

    /** The start may move on over fillers. `f` is where the frontier was before the loop of ReadMessage,
        `passed` how many entries were left behind since. */
    method SettleStart(ghost f: nat, ghost passed: nat)
      requires Core() && Counted() && maxPosInc == |w| && firstNonreadPos < mode.size
      requires -1 <= firstReadableOutOfOrder < mode.size
      requires passed + |w| < mode.size && f <= passed + |w|
      requires Off(firstNonreadPos) == Back(mode.size, f, passed)
      modifies this`w, this`startSeqNo, this`startPos, this`maxPosInc, this`firstNonreadPos, entries, queue
      ensures Base() && Others() == old(Others())
      ensures Abs() == Settle(mode, old(Abs()).(frontier := f), passed)
    {
      ghost var s := Abs().(frontier := f);
      SettledFrontier(mode.size, f, passed, LeadingFillers(w), |w|);
      ReleaseNextFillerEntries();
      assert Abs().(frontier := 0) == Settle(mode, s, passed).(frontier := 0);
      KeepFrontierInRange();
      assert Off(firstNonreadPos) == Settle(mode, s, passed).frontier;
    }

    /** What ReadMessage does after its loop. */
    method FinishReading(ghost f: nat, ghost passed: nat)
      requires Core() && Counted() && maxPosInc == |w| && firstNonreadPos < mode.size
      requires -1 <= firstReadableOutOfOrder < mode.size
      requires passed + |w| < mode.size && f <= passed + |w|
      requires Off(firstNonreadPos) == Back(mode.size, f, passed)
      modifies this`w, this`startSeqNo, this`startPos, this`maxPosInc
      modifies this`firstNonreadPos, this`firstReadableOutOfOrder, entries, queue
      ensures Base() && Others() == old(Others())
      ensures Abs() == FinishRead(mode, old(Abs()).(frontier := f), passed)
    {
      SettleStart(f, passed);
      if !mode.tsbpd {
        UpdateFirstReadableOutOfOrder();
      }
    }

    /** The loop of ReadMessage with its last act: the index is forgotten if the message it points at was read. */
    method TakeWholeMessage(readPos: nat, len: nat) returns (data: seq<Byte>, pktsRead: nat, bytesExtracted: nat)
      requires Base() && Numbered(w, startSeqNo)
      requires readPos < mode.size && Off(readPos) <= |w| && Off(firstNonreadPos) <= |w|
      modifies this`w, this`numOutOfOrderPackets, this`startPos, this`maxPosInc, this`startSeqNo
      modifies this`firstReadableOutOfOrder, entries, queue
      ensures Core() && Counted() && maxPosInc == |w| && Others() == old(Others())
      ensures -1 <= firstReadableOutOfOrder < mode.size
      ensures Abs().(frontier := 0) == TakeAt(mode, old(Abs()), old(Off(readPos))).(frontier := 0)
      ensures pktsRead == SpanEnd(true, old(w), old(Off(readPos))) - old(Off(readPos))
      ensures Off(firstNonreadPos) ==
              if old(Off(readPos)) == 0 then Back(mode.size, old(Off(firstNonreadPos)), pktsRead)
              else old(Off(firstNonreadPos))
      ensures var full := Payloads(Taken(old(w), old(Off(readPos))));
              bytesExtracted == |full| && data == full[..Min(len, |full|)]
    {
      ghost var s, r := Abs(), Off(readPos);
      if firstReadableOutOfOrder >= 0 {
        OffInjective(mode.size, startPos, readPos, firstReadableOutOfOrder);
      }
      var last;
      ghost var end;
      data, pktsRead, bytesExtracted, last, end := TakeMessage(readPos, len);
      TakeAtIs(mode, s, r, pktsRead, last);
      if last && readPos == firstReadableOutOfOrder {
        firstReadableOutOfOrder := -1;
      }
    }

    method TakeAndCountMessage(readPos: nat, len: nat) returns (data: seq<Byte>, ghost passed: nat)
      requires Base() && Numbered(w, startSeqNo)
      requires readPos < mode.size && Off(readPos) <= |w| && Off(firstNonreadPos) <= |w|
      modifies this`w, this`numOutOfOrderPackets, this`startPos, this`maxPosInc, this`startSeqNo
      modifies this`firstReadableOutOfOrder, this`pktsCount, this`bytesCount, entries, queue
      ensures Core() && Counted() && maxPosInc == |w| && Others() == old(Others())
      ensures -1 <= firstReadableOutOfOrder < mode.size
      ensures var s, r := old(Abs()), old(Off(readPos));
              && Abs().(frontier := s.frontier) == TakeAndCount(mode, s, r)
              && passed == (if r == 0 then SpanEnd(true, s.w, 0) else 0)
              && Off(firstNonreadPos) == Back(mode.size, s.frontier, passed)
              && var full := Payloads(Taken(s.w, r)); data == full[..Min(len, |full|)]
    {
      ghost var r := Off(readPos);
      var pktsRead: int, bytesExtracted: int;
      data, pktsRead, bytesExtracted := TakeWholeMessage(readPos, len);
      CountBytes(-pktsRead, -bytesExtracted);
      passed := if r == 0 then pktsRead else 0;
    }

    method ReadMessageAt(readPos: nat, len: nat) returns (data: seq<Byte>)
      requires Base() && Numbered(w, startSeqNo)
      requires readPos < mode.size && Off(readPos) <= |w| && Off(firstNonreadPos) <= |w|
      modifies this, entries, queue
      ensures Base() && Others() == old(Others())
      ensures Abs() == ReadAt(mode, old(Abs()), old(Off(readPos)))
      ensures var full := Payloads(Taken(old(w), old(Off(readPos)))); data == full[..Min(len, |full|)]
    {
      ghost var f := Off(firstNonreadPos);
      ghost var passed;
      data, passed := TakeAndCountMessage(readPos, len);
      FinishReading(f, passed);
    }

    /** Read the message at `readPos` if a packet is stored there. */
    method ReadMessageFrom(readPos: nat, len: nat) returns (data: seq<Byte>)
      requires Valid() && readPos < mode.size && (Off(readPos) > 0 ==> Off(firstNonreadPos) == 0)
      modifies this, entries, queue
      ensures Valid() && Others() == old(Others())
      ensures var s, r := old(Abs()), old(Off(readPos));
              (Abs(), data) ==
              if r < |s.w| && s.w[r].Has() then
                var full := Payloads(Taken(s.w, r));
                (ReadAt(mode, s, r), full[..Min(len, |full|)])
              else (s, [])
    {
      Look(readPos);
      if !entries[readPos].Has() {
        return [];
      }
      ReadAtKeepsInv(mode, Abs(), Off(readPos));
      data := ReadMessageAt(readPos, len);
    }

    /** Read one message, from the start if it can be read in order, else from the index. What does not fit into
        `len` bytes is lost. Nothing is read if no packet is stored where the message should begin. */
    method ReadMessage(len: nat) returns (data: seq<Byte>)
      requires Valid()
      modifies this, entries, queue
      ensures Valid() && Others() == old(Others())
      ensures (Abs(), data) == RcvWindow.ReadMessage(mode, old(Abs()), len)
    {
      var canReadInOrder := HasReadableInorderPkts();
      if !canReadInOrder && firstReadableOutOfOrder < 0 {
        return [];
      }
      var readPos: nat := if canReadInOrder then startPos else firstReadableOutOfOrder;
      AtOff(mode.size, startPos, startPos);
      data := ReadMessageFrom(readPos, len);
    }

    method ReleaseReadPacket()
      requires Base() && !mode.msgApi && 0 < Off(firstNonreadPos) <= |w|
      modifies this`w, this`startPos, this`maxPosInc, this`startSeqNo, this`notch, entries, queue
      ensures Base() && Others() == old(Others())
      ensures Abs() == PassFirst(mode, old(Abs()))
      ensures startPos == IncPos(mode.size, old(startPos), 1)
    {
      ReleaseStart();
      notch := 0;
      startSeqNo := IncSeq(startSeqNo, 1);
    }

    /** The bytes in `dst` and then what the specification says of the present state make up `r`. */
    ghost predicate ReadsOn(r: (State, seq<Byte>), dst: seq<Byte>, room: nat, more: bool, playTime: Packet -> int,
                            now: int)
      reads this, entries, queue
    {
      && Base() && !mode.msgApi && ReadyToRead(Abs()) && NotchFits(Abs())
      && var q := if more then ReadBufferLoop(mode, Abs(), room, playTime, now) else (Abs(), []);
         r.0 == q.0 && r.1 == dst + q.1
    }

    /** There is room for all that is left of the first packet. */
    method ReadWhole(dst: seq<Byte>, room: nat, playTime: Packet -> int, now: int, part: seq<Byte>, ghost r: (State,
                     seq<Byte>))
      returns (dst': seq<Byte>, room': nat)
      requires ReadsOn(r, dst, room, true, playTime, now) && Off(firstNonreadPos) > 0 && room > 0
      requires Due(mode, w[0], playTime, now) && part == w[0].Pkt().payload[notch..] && |part| <= room
      modifies this`w, this`startPos, this`maxPosInc, this`startSeqNo, this`notch, entries, queue
      ensures ReadsOn(r, dst', room', true, playTime, now) && Others() == old(Others())
      ensures Off(firstNonreadPos) < old(Off(firstNonreadPos))
    {
      ghost var q' := ReadBufferLoop(mode, PassFirst(mode, Abs()), room - |part|, playTime, now);
      assert dst + (part + q'.1) == (dst + part) + q'.1;
      ReleaseReadPacket();
      dst', room' := dst + part, room - |part|;
    }

    /** One round of the loop in ReadBufferTo: a whole packet, or the part of it that fits, is read. */
    method ReadFirst(dst: seq<Byte>, room: nat, playTime: Packet -> int, now: int, ghost r: (State, seq<Byte>))
      returns (dst': seq<Byte>, room': nat, more: bool)
      requires ReadsOn(r, dst, room, true, playTime, now) && Off(firstNonreadPos) > 0 && room > 0
      modifies this`w, this`startPos, this`maxPosInc, this`startSeqNo, this`notch, entries, queue
      ensures ReadsOn(r, dst', room', more, playTime, now) && Others() == old(Others())
      ensures more ==> Off(firstNonreadPos) < old(Off(firstNonreadPos))
    {
      AtOff(mode.size, startPos, startPos);
      Look(startPos);
      var pkt := entries[startPos].Pkt();
      if mode.tsbpd && playTime(pkt) > now {
        return dst, room, false;
      }
      var part := pkt.payload[notch..];
      if room >= |part| {
        dst', room' := ReadWhole(dst, room, playTime, now, part, r);
        more := true;
      } else {
        ghost var q := ReadBufferLoop(mode, Abs(), room, playTime, now);
        assert dst + q.1 == (dst + part[..room]) + [];
        notch := notch + room;
        dst', room', more := dst + part[..room], 0, false;
      }
    }

    /** Read bytes in stream mode, whole packets and at last a part of one. In play-time mode the packets that
        are not due at `now` wait. */
    method ReadBytes(len: nat, playTime: Packet -> int, now: int) returns (dst: seq<Byte>)
      requires Base() && !mode.msgApi && ReadyToRead(Abs()) && NotchFits(Abs())
      modifies this`w, this`startPos, this`maxPosInc, this`startSeqNo, this`notch, entries, queue
      ensures Base() && Others() == old(Others())
      ensures (Abs(), dst) == ReadBufferLoop(mode, old(Abs()), len, playTime, now)
    {
      ghost var r := ReadBufferLoop(mode, Abs(), len, playTime, now);
      var room: nat := len;
      dst := [];
      var more := true;
      assert [] + r.1 == r.1;
      while more && startPos != firstNonreadPos && room > 0
        invariant ReadsOn(r, dst, room, more, playTime, now) && Others() == old(Others())
        decreases if more then Off(firstNonreadPos) + 1 else 0
      {
        OffInjective(mode.size, startPos, startPos, firstNonreadPos);
        dst, room, more := ReadFirst(dst, room, playTime, now, r);
      }
      assert dst + [] == dst;
    }

    /** The invariant is kept exactly when the read does not come to a filler: fillers are not released here. */
    method ReadBufferTo(len: nat, playTime: Packet -> int, now: int) returns (dst: seq<Byte>)
      requires Valid() && !mode.msgApi && NotchFits(Abs())
      modifies this, entries, queue
      ensures Base() && Others() == old(Others())
      ensures ReadyToRead(old(Abs())) && (Abs(), dst) == ReadBuffer(mode, old(Abs()), len, playTime, now)
      ensures Valid() <==> !ComesToFiller(mode, old(Abs()), len, playTime, now)
    {
      ChainStored(mode.msgApi, w, 0, Off(firstNonreadPos));
      ReadBufferKeepsInvIff(mode, Abs(), len, playTime, now);
      dst := ReadBytes(len, playTime, now);
      CountBytes(-1, -|dst|);
      // The frontier has not been passed, so the range check of the frontier changes nothing.
      IsInRangeIffOffset(startPos, maxPosInc, mode.size, firstNonreadPos);
      assert IsInRange(startPos, maxPosInc, mode.size, firstNonreadPos);
    }

    /** The destructor: every unit still held is freed. */
    method Destroy()
      requires Valid()
      modifies this, entries, queue
      ensures queue.taken == old(Others())
    {
      for i := 0 to mode.size
        invariant Core() && Others() == old(Others())
        invariant forall k :: 0 <= k < |w| && At(mode.size, startPos, k) < i ==> !w[k].Has()
      {
        Look(i);
        if entries[i].Has() {
          ReleaseUnitInPos(i);
        }
      }
    }
  }
}
