/** What the receive buffer does, stated on its window: the sequence of entries from the start position
    up to the furthest position that ever held a packet. Offset k of the window is the ring position
    k steps after the start position.

    The class in RcvRing is proved against these functions; their own properties are proved here and in RcvRun.
 */
module RcvWindow {
  import opened SeqNo
  import opened Packets

  datatype Status = Empty | Avail | Read | Drop

  datatype Entry = Entry(unit: Option<Unit>, status: Status) {
    predicate Has() { unit.Some? }

    predicate IsFiller() { status == Read || status == Drop }

    /** A unit is present if and only if the status says so. */
    predicate Consistent() { Has() <==> status == Avail }

    function Pkt(): Packet
      requires Has()
    {
      unit.value.packet
    }
  }

  const EMPTY_ENTRY := Entry(None, Empty)
  const READ_ENTRY := Entry(None, Read)
  const DROP_ENTRY := Entry(None, Drop)

  /** The parameters a buffer is built with. `tsbpd` is the play-time mode, `msgApi` the message mode. */
  datatype Mode = Mode(size: nat, tsbpd: bool, msgApi: bool) {
    predicate OutOfOrder() { !tsbpd && msgApi }
  }

  /** `frontier` and `ooo` are offsets of the window; `ooo` is -1 when no message is known
      to be readable out of order. */
  datatype State = State(
    w: seq<Entry>,
    startSeq: Seq,
    frontier: nat,
    ooo: int,
    pkts: int,
    bytes: int,
    notch: nat)

  type Window = seq<Entry>

  // ----- in-order frontier

  predicate Starts(msgApi: bool, e: Entry)
    requires e.Has()
  {
    !msgApi || e.Pkt().isFirst
  }

  predicate Ends(msgApi: bool, e: Entry)
    requires e.Has()
  {
    !msgApi || e.Pkt().isLast
  }

  /** Walk right from `k` over stored entries, up to and including the first that ends a message. */
  function SpanEnd(msgApi: bool, w: Window, k: nat): (e: nat)
    requires k <= |w|
    ensures k <= e <= |w|
    decreases |w| - k
  {
    if k < |w| && w[k].Has() then
      if Ends(msgApi, w[k]) then k + 1 else SpanEnd(msgApi, w, k + 1)
    else k
  }

  /** The walk from `k` finds the end of a message. */
  predicate SpanComplete(msgApi: bool, w: Window, k: nat)
    requires k <= |w|
    decreases |w| - k
  {
    k < |w| && w[k].Has() && (Ends(msgApi, w[k]) || SpanComplete(msgApi, w, k + 1))
  }

  /** A complete stored message begins at `k`. */
  predicate MessageAt(msgApi: bool, w: Window, k: nat)
    requires k <= |w|
  {
    k < |w| && w[k].Has() && Starts(msgApi, w[k]) && SpanComplete(msgApi, w, k)
  }

  /** The end of the longest run of complete stored messages from `k`. */
  function Frontier(msgApi: bool, w: Window, k: nat): (f: nat)
    requires k <= |w|
    ensures k <= f <= |w|
    decreases |w| - k
  {
    if MessageAt(msgApi, w, k) then
      SpanMoves(msgApi, w, k);
      Frontier(msgApi, w, SpanEnd(msgApi, w, k))
    else k
  }

  /** Some whole number of complete stored messages lead from `k` to `f`. */
  predicate OnChain(msgApi: bool, w: Window, k: nat, f: nat)
    requires k <= |w|
    decreases |w| - k
  {
    k == f || (MessageAt(msgApi, w, k) && (SpanMoves(msgApi, w, k); OnChain(msgApi, w, SpanEnd(msgApi, w, k), f)))
  }

  lemma SpanMoves(msgApi: bool, w: Window, k: nat)
    requires k < |w| && w[k].Has()
    ensures k < SpanEnd(msgApi, w, k)
  {
  }

  /** What a span consists of: stored entries, none but possibly the last ending a message. */
  lemma {:induction false} SpanShape(msgApi: bool, w: Window, k: nat)
    requires k <= |w|
    ensures forall i :: k <= i < SpanEnd(msgApi, w, k) ==> w[i].Has()
    ensures forall i :: k <= i < SpanEnd(msgApi, w, k) - 1 ==> !Ends(msgApi, w[i])
    ensures SpanComplete(msgApi, w, k) <==> k < SpanEnd(msgApi, w, k) && Ends(msgApi, w[SpanEnd(msgApi, w, k) - 1])
    ensures !SpanComplete(msgApi, w, k) && SpanEnd(msgApi, w, k) < |w| ==> !w[SpanEnd(msgApi, w, k)].Has()
    decreases |w| - k
  {
    if k < |w| && w[k].Has() && !Ends(msgApi, w[k]) {
      SpanShape(msgApi, w, k + 1);
    }
  }

  /** The converse of SpanShape for complete spans: such a stretch of entries is the span. */
  lemma {:induction false} SpanIs(msgApi: bool, w: Window, k: nat, e: nat)
    requires k < e <= |w|
    requires forall i :: k <= i < e ==> w[i].Has()
    requires forall i :: k <= i < e - 1 ==> !Ends(msgApi, w[i])
    requires Ends(msgApi, w[e - 1])
    ensures SpanEnd(msgApi, w, k) == e && SpanComplete(msgApi, w, k)
    decreases e - k
  {
    if k + 1 < e {
      SpanIs(msgApi, w, k + 1, e);
    }
  }

  /** A complete span depends on its own entries only. */
  lemma {:induction false} SpanLocal(msgApi: bool, w: Window, w': Window, k: nat, k': nat)
    requires k <= |w| && SpanComplete(msgApi, w, k)
    requires k' + (SpanEnd(msgApi, w, k) - k) <= |w'|
    requires forall i :: k <= i < SpanEnd(msgApi, w, k) ==> w'[k' + (i - k)] == w[i]
    ensures SpanComplete(msgApi, w', k') && SpanEnd(msgApi, w', k') == k' + (SpanEnd(msgApi, w, k) - k)
    decreases |w| - k
  {
    assert w'[k' + (k - k)] == w[k];
    if !Ends(msgApi, w[k]) {
      forall i | k + 1 <= i < SpanEnd(msgApi, w, k) ensures w'[k' + 1 + (i - (k + 1))] == w[i] {
        assert w'[k' + (i - k)] == w[i];
      }
      SpanLocal(msgApi, w, w', k + 1, k' + 1);
    }
  }

  /** The reached frontier is on the chain of messages, and everything before it is stored. */
  lemma {:induction false} FrontierOnChain(msgApi: bool, w: Window, k: nat)
    requires k <= |w|
    ensures OnChain(msgApi, w, k, Frontier(msgApi, w, k))
    decreases |w| - k
  {
    if MessageAt(msgApi, w, k) {
      SpanMoves(msgApi, w, k);
      FrontierOnChain(msgApi, w, SpanEnd(msgApi, w, k));
    }
  }

  lemma {:induction false} ChainStored(msgApi: bool, w: Window, k: nat, f: nat)
    requires k <= |w| && OnChain(msgApi, w, k, f)
    ensures k <= f <= |w|
    ensures forall i :: k <= i < f ==> w[i].Has()
    decreases |w| - k
  {
    if k != f {
      SpanMoves(msgApi, w, k);
      SpanShape(msgApi, w, k);
      ChainStored(msgApi, w, SpanEnd(msgApi, w, k), f);
    }
  }

  /** Restarting the scan from any point on the chain gives the full scan. */
  lemma {:induction false} ScanFromChain(msgApi: bool, w: Window, k: nat, f: nat)
    requires k <= |w| && OnChain(msgApi, w, k, f) && f <= |w|
    ensures Frontier(msgApi, w, k) == Frontier(msgApi, w, f)
    decreases |w| - k
  {
    if k != f {
      SpanMoves(msgApi, w, k);
      ScanFromChain(msgApi, w, SpanEnd(msgApi, w, k), f);
    }
  }

  /** A chain depends on its own entries only; `d` shifts the window. */
  lemma {:induction false} ChainLocal(msgApi: bool, w: Window, w': Window, k: nat, f: nat, d: nat)
    requires d <= k <= |w| && OnChain(msgApi, w, k, f)
    requires k <= f && f - d <= |w'|
    requires forall i :: k <= i < f ==> i < |w| && w'[i - d] == w[i]
    ensures OnChain(msgApi, w', k - d, f - d)
    decreases |w| - k
  {
    if k != f {
      var e := SpanEnd(msgApi, w, k);
      SpanMoves(msgApi, w, k);
      SpanShape(msgApi, w, k);
      ChainStored(msgApi, w, e, f);
      forall i | k <= i < e ensures w'[(k - d) + (i - k)] == w[i] {
        assert w'[i - d] == w[i];
      }
      SpanLocal(msgApi, w, w', k, k - d);
      assert w'[k - d] == w[k];
      ChainLocal(msgApi, w, w', e, f, d);
    }
  }

  // ----- the index of messages readable out of order

  /** The stored packets whose order flag is clear. */
  function CountUnordered(w: Window): nat {
    if w == [] then 0
    else (if w[0].Has() && !w[0].Pkt().inOrder then 1 else 0) + CountUnordered(w[1..])
  }

  /** Search right of `k` for the last packet of message `msgno`. */
  function ScanRight(w: Window, k: nat, msgno: nat): (r: int)
    requires k < |w|
    ensures r == -1 || k < r < |w|
    decreases |w| - k
  {
    if k + 1 >= |w| || !w[k + 1].Has() || w[k + 1].Pkt().msgno != msgno then -1
    else if w[k + 1].Pkt().isLast then k + 1
    else ScanRight(w, k + 1, msgno)
  }

  /** Search left of `k` for the first packet of message `msgno`. */
  function ScanLeft(w: Window, k: nat, msgno: nat): (r: int)
    requires k < |w|
    ensures -1 <= r < k
  {
    if k == 0 || !w[k - 1].Has() || w[k - 1].Pkt().msgno != msgno then -1
    else if w[k - 1].Pkt().isFirst then k - 1
    else ScanLeft(w, k - 1, msgno)
  }

  /** The index after a packet with a clear order flag was stored at `k`. */
  function OooOnInsert(w: Window, k: nat, ooo: int): int
    requires k < |w| && w[k].Has()
  {
    var p := w[k].Pkt();
    if ooo >= 0 then ooo
    else if !p.isLast && ScanRight(w, k, p.msgno) == -1 then -1
    else if p.isFirst then k
    else ScanLeft(w, k, p.msgno)
  }

  /** Search for the first message readable out of order. `first` and `msgno` remember the last
      packet seen that begins a message and is followed by nothing else so far; both are -1 otherwise. */
  function SearchOoo(w: Window, k: nat, first: int, msgno: int): int
    requires k <= |w|
    decreases |w| - k
  {
    if k == |w| then -1
    else if !w[k].Has() || w[k].Pkt().inOrder then SearchOoo(w, k + 1, -1, -1)
    else
      var p := w[k].Pkt();
      var first' := if p.isFirst then k else first;
      var msgno' := if p.isFirst then p.msgno else msgno;
      if p.msgno != msgno' then SearchOoo(w, k + 1, -1, -1)
      else if p.isLast then first'
      else SearchOoo(w, k + 1, first', msgno')
  }

  /** The index after it was updated: a search, unless something is readable in order or known already. */
  function OooUpdate(w: Window, frontier: nat, ooo: int): int {
    if frontier > 0 || ooo >= 0 then ooo else SearchOoo(w, 0, -1, -1)
  }

  /** The index still points at the first of the stored packets of one unordered message, up to its last. */
  predicate OooCheck(w: Window, k: nat, msgno: int)
    requires k <= |w|
    decreases |w| - k
  {
    && k < |w|
    && w[k].Has()
    && !w[k].Pkt().inOrder
    && (msgno == -1 || msgno == w[k].Pkt().msgno)
    && (w[k].Pkt().isLast || OooCheck(w, k + 1, if msgno == -1 then w[k].Pkt().msgno else msgno))
  }

  // ----- operations

  function Empties(n: nat): (w: Window)
    ensures |w| == n && forall i :: 0 <= i < n ==> w[i] == EMPTY_ENTRY
  {
    seq(n, _ => EMPTY_ENTRY)
  }

  function Grow(w: Window, n: nat): (w': Window)
    ensures |w'| == if n > |w| then n else |w|
    ensures forall i :: 0 <= i < |w'| ==> w'[i] == if i < |w| then w[i] else EMPTY_ENTRY
  {
    if n > |w| then w + Empties(n - |w|) else w
  }

  /** The result codes of `insert`. */
  const INSERTED := 0
  const ALREADY_STORED := -1
  const BEFORE_START := -2
  const BEYOND_CAPACITY := -3

  /** A packet is stored at offset `off`, and both indexes follow. */
  function StoreAt(m: Mode, s: State, off: nat, u: Unit): State
    requires off < |s.w| && s.frontier <= |s.w|
  {
    var w' := s.w[off := Entry(Some(u), Avail)];
    s.(w := w',
       pkts := s.pkts + 1,
       bytes := s.bytes + |u.packet.payload|,
       ooo := if m.OutOfOrder() && !u.packet.inOrder then OooOnInsert(w', off, s.ooo) else s.ooo,
       frontier := Frontier(m.msgApi, w', s.frontier))
  }

  /** A packet arrives for offset `off`. */
  function InsertAt(m: Mode, s: State, off: nat, u: Unit): (r: (State, int))
    requires s.frontier <= |s.w|
  {
    var grown := s.(w := Grow(s.w, off + 1));
    if grown.w[off].status != Empty then (grown, ALREADY_STORED)
    else (StoreAt(m, grown, off, u), INSERTED)
  }

  function Insert(m: Mode, s: State, u: Unit): (r: (State, int))
    requires m.size >= 1 && s.frontier <= |s.w|
  {
    var off := SeqOff(s.startSeq, u.packet.seqno);
    if off < 0 then (s, BEFORE_START)
    else if off >= m.size - 1 then (s, BEYOND_CAPACITY)
    else InsertAt(m, s, off, u)
  }

  /** How many entries at the start are fillers. */
  function LeadingFillers(w: Window): (c: nat)
    ensures c <= |w|
    ensures forall i :: 0 <= i < c ==> w[i].IsFiller()
    ensures c < |w| ==> !w[c].IsFiller()
  {
    if w != [] && w[0].IsFiller() then 1 + LeadingFillers(w[1..]) else 0
  }

  /** The offset of a fixed ring position after the start position moved right by `c`, one step at a time. */
  function Shift(m: Mode, o: int, c: nat): (r: int)
    requires m.size >= 1
    ensures o < 0 ==> r == o
    ensures 0 <= o < m.size ==> 0 <= r < m.size
    ensures 0 <= o < m.size && c < m.size ==> r == if c <= o then o - c else o - c + m.size
  {
    if o < 0 || c == 0 then o
    else
      var p := Shift(m, o, c - 1);
      if p >= 1 then p - 1 else m.size - 1
  }

  /** What `releaseNextFillerEntries` does to everything but the frontier. */
  function Release(m: Mode, s: State): State
    requires m.size >= 1 && |s.w| <= MAX_SEQ_NO
  {
    var c := LeadingFillers(s.w);
    s.(w := s.w[c..], startSeq := IncSeq(s.startSeq, c), ooo := Shift(m, s.ooo, c))
  }

  function Min(a: int, b: int): int {
    if a < b then a else b
  }

  /** Dropping the unit at offset `o` forgets the index that points there. */
  predicate DropForgets(m: Mode, w: Window, o: int) {
    m.OutOfOrder() && 0 <= o < |w| && w[o].Has() && !w[o].Pkt().inOrder
  }

  /** The first `len` positions are emptied and passed. */
  function DropFront(m: Mode, s: State, len: nat, seqno: Seq): State
    requires m.size >= 1
  {
    var n := Min(len, |s.w|);
    s.(w := s.w[n..],
       startSeq := seqno,
       ooo := if DropForgets(m, s.w[..n], s.ooo) then -1 else Shift(m, s.ooo, len))
  }

  function DropUpToAt(m: Mode, s: State, len: nat, seqno: Seq): State
    requires m.size >= 1 && |s.w| <= MAX_SEQ_NO
  {
    var s2 := Release(m, DropFront(m, s, len, seqno));
    var f := Frontier(m.msgApi, s2.w, 0);
    s2.(frontier := f, ooo := if m.OutOfOrder() then OooUpdate(s2.w, f, s2.ooo) else s2.ooo)
  }

  function DropUpTo(m: Mode, s: State, seqno: Seq): (r: (State, int))
    requires m.size >= 1 && |s.w| <= MAX_SEQ_NO
  {
    var len := SeqOff(s.startSeq, seqno);
    if len <= 0 then (s, 0) else (DropUpToAt(m, s, len, seqno), len)
  }

  function DropAll(m: Mode, s: State): (State, int)
    requires m.size >= 1 && |s.w| <= MAX_SEQ_NO
  {
    if |s.w| == 0 then (s, 0) else DropUpTo(m, s, IncSeq(s.startSeq, |s.w|))
  }

  /** What a call to `dropMessage` drops: the stored packets of a message, or a range of offsets
      that spares messages stored whole in one packet. */
  datatype Choice = ByMsgno(msgno: nat) | ByRange(lo: nat, hi: nat) {
    predicate Picks(i: nat, e: Entry) {
      match this
      case ByMsgno(n) => e.Has() && e.Pkt().msgno == n
      case ByRange(lo, hi) => lo <= i < hi && !(e.Has() && e.Pkt().isFirst && e.Pkt().isLast)
    }
  }

  /** The picked entries among the first `k` become Drop fillers. */
  function DropChosen(w: Window, c: Choice, k: nat): (w': Window)
    requires k <= |w|
    ensures |w'| == |w|
    ensures forall i :: 0 <= i < |w| ==> w'[i] == if i < k && c.Picks(i, w[i]) then DROP_ENTRY else w[i]
  {
    seq(|w|, i requires 0 <= i < |w| => if i < k && c.Picks(i, w[i]) then DROP_ENTRY else w[i])
  }

  function CountPicked(w: Window, c: Choice, k: nat): nat
    requires k <= |w|
  {
    if k == 0 then 0 else CountPicked(w, c, k - 1) + if c.Picks(k - 1, w[k - 1]) then 1 else 0
  }

  function FirstPicked(w: Window, c: Choice, k: nat): (r: int)
    requires k <= |w|
    ensures -1 <= r < k
    ensures r >= 0 ==> c.Picks(r, w[r]) && forall i :: 0 <= i < r ==> !c.Picks(i, w[i])
    ensures r == -1 ==> forall i :: 0 <= i < k ==> !c.Picks(i, w[i])
  {
    if k == 0 then -1
    else if FirstPicked(w, c, k - 1) >= 0 then FirstPicked(w, c, k - 1)
    else if c.Picks(k - 1, w[k - 1]) then k - 1
    else -1
  }

  /** The index after a drop: kept only while it still points at a whole message, then searched again. */
  function OooAfterDrop(m: Mode, w: Window, frontier: nat, ooo: int): int {
    if !m.OutOfOrder() then ooo
    else OooUpdate(w, frontier, if 0 <= ooo <= |w| && OooCheck(w, ooo, -1) then ooo else -1)
  }

  /** The picked entries have become fillers. */
  function DropPicked(m: Mode, s: State, c: Choice): State {
    s.(w := DropChosen(s.w, c, |s.w|),
       ooo := if DropForgets(m, s.w, s.ooo) && c.Picks(s.ooo, s.w[s.ooo]) then -1 else s.ooo)
  }

  /** What follows the marking: fillers at the start are released and both indexes follow. `first` is the
      first offset that was dropped, or -1. */
  function FinishDrop(m: Mode, s: State, first: int): State
    requires m.size >= 1 && |s.w| <= MAX_SEQ_NO
  {
    var s2 := Release(m, s);
    var f := if first != -1 && first <= s.frontier then Frontier(m.msgApi, s2.w, 0) else s.frontier;
    s2.(frontier := f, ooo := OooAfterDrop(m, s2.w, f, s2.ooo))
  }

  function DropMessage(m: Mode, s: State, c: Choice): (r: (State, int))
    requires m.size >= 1 && |s.w| <= MAX_SEQ_NO
  {
    (FinishDrop(m, DropPicked(m, s, c), FirstPicked(s.w, c, |s.w|)), CountPicked(s.w, c, |s.w|))
  }

  /** Offsets from `lo` up to but not including `hi`, or to the end of the window when `hi` is before `lo`
      or beyond that end. */
  function RangeOf(w: Window, lo: nat, hi: nat): Choice {
    ByRange(lo, if lo <= hi < |w| then hi else |w|)
  }

  function UnitPackets(w: Window): (ps: seq<Packet>)
    requires forall i :: 0 <= i < |w| ==> w[i].Has()
    ensures |ps| == |w| && forall i :: 0 <= i < |w| ==> ps[i] == w[i].Pkt()
  {
    seq(|w|, i requires 0 <= i < |w| => w[i].Pkt())
  }

  /** The packets that one `readMessage` from offset `r` takes. */
  function Taken(w: Window, r: nat): (ps: seq<Packet>)
    requires r <= |w|
  {
    SpanShape(true, w, r);
    UnitPackets(w[r..SpanEnd(true, w, r)])
  }

  function Reads(n: nat): (w: Window)
    ensures |w| == n && forall i :: 0 <= i < n ==> w[i] == READ_ENTRY
  {
    seq(n, _ => READ_ENTRY)
  }

  /** The packets from offset `r` through the last of the message are taken. At the start of the window
      they leave the buffer, elsewhere they become Read fillers. */
  function TakeAt(m: Mode, s: State, r: nat): State
    requires m.size >= 1 && |s.w| <= MAX_SEQ_NO && r <= |s.w|
  {
    var e := SpanEnd(true, s.w, r);
    var done := SpanComplete(true, s.w, r) && r == s.ooo;
    if r == 0 then
      s.(w := s.w[e..], startSeq := IncSeq(s.startSeq, e), ooo := if done then -1 else Shift(m, s.ooo, e))
    else
      s.(w := s.w[..r] + Reads(e - r) + s.w[e..], ooo := if done then -1 else s.ooo)
  }

  /** Fillers at the start are released. The frontier stays where it was unless the start passed it; `passed`
      entries were left behind already. */
  function Settle(m: Mode, s: State, passed: nat): State
    requires m.size >= 1 && |s.w| <= MAX_SEQ_NO
  {
    var c := passed + LeadingFillers(s.w);
    Release(m, s).(frontier := if s.frontier >= c then s.frontier - c else 0)
  }

  /** What follows the taking. */
  function FinishRead(m: Mode, s: State, passed: nat): State
    requires m.size >= 1 && |s.w| <= MAX_SEQ_NO
  {
    var s2 := Settle(m, s, passed);
    s2.(ooo := if m.OutOfOrder() then OooUpdate(s2.w, s2.frontier, s2.ooo) else s2.ooo)
  }

  /** The packets are taken and the counters follow. */
  function TakeAndCount(m: Mode, s: State, r: nat): State
    requires m.size >= 1 && |s.w| <= MAX_SEQ_NO && r <= |s.w|
  {
    TakeAt(m, s, r).(
      pkts := s.pkts - (SpanEnd(true, s.w, r) - r),
      bytes := s.bytes - |Payloads(Taken(s.w, r))|)
  }

  function ReadAt(m: Mode, s: State, r: nat): (s': State)
    requires m.size >= 1 && |s.w| <= MAX_SEQ_NO && r <= |s.w|
  {
    FinishRead(m, TakeAndCount(m, s, r), if r == 0 then SpanEnd(true, s.w, 0) else 0)
  }

  /** `readMessage` into a destination of `len` bytes: what is copied there is the second result. */
  function ReadMessage(m: Mode, s: State, len: nat): (r: (State, seq<Byte>))
    requires m.size >= 1 && |s.w| <= MAX_SEQ_NO
  {
    var r := if s.frontier > 0 then 0 else s.ooo;
    if r < 0 || r >= |s.w| || !s.w[r].Has() then (s, [])
    else
      var data := Payloads(Taken(s.w, r));
      (ReadAt(m, s, r), data[..Min(len, |data|)])
  }

  /** The read offset into the first packet lies inside it. */
  predicate NotchFits(s: State) {
    s.notch == 0 || (s.w != [] && s.w[0].Has() && s.notch <= |s.w[0].Pkt().payload|)
  }

  /** Everything before the frontier is stored. */
  ghost predicate ReadyToRead(s: State) {
    s.frontier <= |s.w| && forall i :: 0 <= i < s.frontier ==> s.w[i].Has()
  }

  /** The first packet was read to its end. */
  function PassFirst(m: Mode, s: State): State
    requires m.size >= 1 && s.w != [] && s.frontier > 0
  {
    s.(w := s.w[1..], startSeq := IncSeq(s.startSeq, 1), frontier := s.frontier - 1, ooo := Shift(m, s.ooo, 1),
       notch := 0)
  }

  /** The reading loop of `readBufferTo` with room for `room` more bytes. */
  function ReadBufferLoop(m: Mode, s: State, room: nat, playTime: Packet -> int, now: int): (r: (State, seq<Byte>))
    requires m.size >= 1 && ReadyToRead(s) && NotchFits(s)
    ensures |r.1| <= room && NotchFits(r.0) && r.0.frontier <= s.frontier
    decreases s.frontier
  {
    if s.frontier == 0 || room == 0 || (m.tsbpd && playTime(s.w[0].Pkt()) > now) then (s, [])
    else
      var rest := s.w[0].Pkt().payload[s.notch..];
      if room >= |rest| then
        var r := ReadBufferLoop(m, PassFirst(m, s), room - |rest|, playTime, now);
        (r.0, rest + r.1)
      else
        (s.(notch := s.notch + room), rest[..room])
  }

  function ReadBuffer(m: Mode, s: State, len: nat, playTime: Packet -> int, now: int): (r: (State, seq<Byte>))
    requires m.size >= 1 && ReadyToRead(s) && NotchFits(s)
    ensures |r.1| <= len && NotchFits(r.0) && r.0.frontier <= s.frontier
  {
    var r := ReadBufferLoop(m, s, len, playTime, now);
    (r.0.(pkts := r.0.pkts - 1, bytes := r.0.bytes - |r.1|), r.1)
  }
}
