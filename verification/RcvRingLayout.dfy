/** How a window of entries lies on a ring of positions. */
module RcvRingLayout {
  import opened SeqNo
  import opened Packets
  import opened RcvWindow
  import opened RcvWindowInvariant

  /** `incPos` and `offPos`: positions wrap at the ring size `n`. */
  function IncPos(n: nat, pos: nat, inc: nat): nat
    requires n >= 1
  {
    (pos + inc) % n
  }

  function DecPos(n: nat, pos: nat): nat
    requires n >= 1
  {
    if pos >= 1 then pos - 1 else n - 1
  }

  function OffPos(n: nat, pos1: nat, pos2: nat): nat
    requires pos1 < n
  {
    if pos2 >= pos1 then pos2 - pos1 else n + pos2 - pos1
  }

  /** The position `k` steps after `start`, for `k` up to the ring size. */
  ghost function At(n: nat, start: nat, k: nat): int {
    if start + k < n then start + k else start + k - n
  }

  /** The entries `a` hold the window `w` from position `start` on, and nothing else. */
  ghost predicate Ring(a: seq<Entry>, start: nat, w: Window) {
    && start < |a|
    && |w| < |a|
    && forall k :: 0 <= k < |a| ==> a[At(|a|, start, k)] == if k < |w| then w[k] else EMPTY_ENTRY
  }

  lemma SmallMod(x: nat, n: nat)
    requires n >= 1 && x < 2 * n
    ensures x % n == if x < n then x else x - n
  {
    if x >= n {
      ModIs(x, n, 1, x - n);
    } else {
      ModIs(x, n, 0, x);
    }
  }

  lemma ModIs(x: int, n: nat, q: int, r: int)
    requires 0 <= r < n && x == q * n + r
    ensures x % n == r
  {
    var q' := x / n;
    assert x == q' * n + x % n;
    assert (q - q') * n == x % n - r;
    MulBounds(q - q', n);
  }

  lemma MulBounds(d: int, n: nat)
    ensures d >= 1 ==> d * n >= n
    ensures d <= -1 ==> d * n <= 0 - n
  {
  }

  lemma IncPosIsAt(n: nat, pos: nat, inc: nat)
    requires pos < n && inc <= n
    ensures IncPos(n, pos, inc) == At(n, pos, inc) < n
  {
    SmallMod(pos + inc, n);
  }

  lemma AtOff(n: nat, start: nat, p: nat)
    requires start < n && p < n
    ensures OffPos(n, start, p) < n && At(n, start, OffPos(n, start, p)) == p
    ensures OffPos(n, start, IncPos(n, p, 1)) == if OffPos(n, start, p) + 1 < n then OffPos(n, start, p) + 1 else 0
    ensures IncPos(n, p, 1) < n
    ensures OffPos(n, start, DecPos(n, p)) == if OffPos(n, start, p) >= 1 then OffPos(n, start, p) - 1 else n - 1
  {
    SmallMod(p + 1, n);
  }

  lemma OffInjective(n: nat, start: nat, p: nat, q: nat)
    requires start < n && p < n && q < n
    ensures OffPos(n, start, p) == OffPos(n, start, q) <==> p == q
  {
  }

  lemma OffAt(n: nat, start: nat, k: nat)
    requires start < n && k < n
    ensures 0 <= At(n, start, k) < n && OffPos(n, start, At(n, start, k)) == k
  {
  }

  /** The position `inc` steps on from the start, as it is computed. */
  lemma EndOff(n: nat, start: nat, inc: nat)
    requires start < n && inc < n
    ensures IncPos(n, start, inc) < n && OffPos(n, start, IncPos(n, start, inc)) == inc
  {
    SmallMod(start + inc, n);
  }

  lemma RingLook(a: seq<Entry>, start: nat, w: Window, p: nat)
    requires Ring(a, start, w) && p < |a|
    ensures a[p] == if OffPos(|a|, start, p) < |w| then w[OffPos(|a|, start, p)] else EMPTY_ENTRY
  {
    AtOff(|a|, start, p);
  }

  lemma RingSet(a: seq<Entry>, start: nat, w: Window, p: nat, e: Entry)
    requires Ring(a, start, w) && p < |a| && OffPos(|a|, start, p) < |w|
    ensures Ring(a[p := e], start, w[OffPos(|a|, start, p) := e])
  {
    var k := OffPos(|a|, start, p);
    AtOff(|a|, start, p);
    forall i | 0 <= i < |a| && i != k
      ensures At(|a|, start, i) != p
    {
      OffAt(|a|, start, i);
    }
  }

  lemma RingGrow(a: seq<Entry>, start: nat, w: Window, n: nat)
    requires Ring(a, start, w) && n < |a|
    ensures Ring(a, start, Grow(w, n))
  {
  }

  /** The start moves past an empty first entry, or along an empty ring. */
  lemma RingAdvance(a: seq<Entry>, start: nat, w: Window)
    requires Ring(a, start, w) && (w != [] ==> w[0] == EMPTY_ENTRY)
    ensures Ring(a, IncPos(|a|, start, 1), if w == [] then [] else w[1..])
  {
    var n := |a|;
    var w' := if w == [] then [] else w[1..];
    IncPosIsAt(n, start, 1);
    var start' := IncPos(n, start, 1);
    forall k | 0 <= k < n
      ensures a[At(n, start', k)] == if k < |w'| then w'[k] else EMPTY_ENTRY
    {
      if k + 1 < n {
        assert At(n, start', k) == At(n, start, k + 1);
      } else {
        assert At(n, start', k) == At(n, start, 0);
      }
    }
  }

  /** The offset of a fixed position after the start moved by `c`, at most once around. */
  function Back(n: nat, off: nat, c: nat): int {
    if off >= c then off - c else off - c + n
  }

  lemma OffAdvance(n: nat, start: nat, p: nat)
    requires start < n && p < n
    ensures IncPos(n, start, 1) < n
    ensures OffPos(n, IncPos(n, start, 1), p) == Back(n, OffPos(n, start, p), 1)
  {
    SmallMod(start + 1, n);
  }

  /** The frontier `f` of a window of `len` entries, after the start moved by `passed` and then by `c`: the offset
      of its position shows whether it was passed. */
  lemma SettledFrontier(n: nat, f: nat, passed: nat, c: nat, len: nat)
    requires c <= len && passed + len < n && f <= passed + len
    ensures var o := Back(n, Back(n, f, passed), c);
            (if o <= len - c then o else 0) == if f >= passed + c then f - (passed + c) else 0
  {
  }

  /** The window and the index that a drop at the start changes. */
  datatype Front = Front(w: Window, ooo: int)

  ghost function DropOneFront(m: Mode, f: Front): Front
    requires m.size >= 1
  {
    Front(
      if f.w == [] then [] else f.w[1..],
      if f.ooo == 0 && DropForgets(m, f.w, 0) then -1 else Shift(m, f.ooo, 1))
  }

  ghost function DropN(m: Mode, f: Front, d: nat): Front
    requires m.size >= 1
  {
    if d == 0 then f else DropOneFront(m, DropN(m, f, d - 1))
  }

  /** Dropping the first positions one by one is dropping them all. */
  lemma {:induction false} DropNIs(m: Mode, w: Window, ooo: int, d: nat)
    requires m.size >= 1 && |w| < m.size && -1 <= ooo < m.size
    ensures var f := DropN(m, Front(w, ooo), d);
            && f.w == w[Min(d, |w|)..]
            && f.ooo == if DropForgets(m, w[..Min(d, |w|)], ooo) then -1 else Shift(m, ooo, d)
  {
    if d > 0 {
      DropNIs(m, w, ooo, d - 1);
      ShiftOne(m, ooo, d - 1);
      if d <= |w| {
        assert w[..d][..d - 1] == w[..d - 1];
        assert w[d - 1..][1..] == w[d..];
        assert w[d - 1..][0] == w[d - 1] == w[..d][d - 1];
      }
    }
  }

  lemma ShiftOne(m: Mode, o: int, c: nat)
    requires m.size >= 1
    ensures Shift(m, Shift(m, o, c), 1) == Shift(m, o, c + 1)
  {
    assert Shift(m, Shift(m, o, c), 0) == Shift(m, o, c);
  }

  /** `isInRange`: whether the frontier position lies in the window or right after it. */
  function IsInRange(startPos: nat, maxPosInc: nat, size: nat, pos: nat): bool
    requires size >= 1
  {
    if pos == startPos then true
    else
      var lastPos := (startPos + maxPosInc) % size;
      if lastPos < startPos then pos > startPos || pos <= lastPos
      else pos > startPos && pos <= lastPos
  }

  /** It is a test of the offset from the start. */
  lemma IsInRangeIffOffset(startPos: nat, maxPosInc: nat, size: nat, pos: nat)
    requires startPos < size && pos < size && maxPosInc < size
    ensures IsInRange(startPos, maxPosInc, size, pos) <==> OffPos(size, startPos, pos) <= maxPosInc
  {
    SmallMod(startPos + maxPosInc, size);
  }

  // ----- picking entries

  /** What a loop of drops has done after `k` entries: the window, how many entries it dropped,
      the offset of the first of them, and the index of messages readable out of order. */
  datatype Dropping = Dropping(w: Window, count: nat, first: int, ooo: int)

  ghost function DropOne(m: Mode, d: Dropping, k: nat): Dropping
    requires k < |d.w|
  {
    Dropping(
      d.w[k := DROP_ENTRY],
      d.count + 1,
      if d.first == -1 then k else d.first,
      if d.ooo == k && DropForgets(m, d.w, k) then -1 else d.ooo)
  }

  ghost function DroppedTo(m: Mode, w: Window, ooo: int, c: Choice, k: nat): (d: Dropping)
    requires k <= |w|
    ensures |d.w| == |w| && forall i :: k <= i < |w| ==> d.w[i] == w[i]
  {
    if k == 0 then Dropping(w, 0, -1, ooo)
    else
      var d := DroppedTo(m, w, ooo, c, k - 1);
      if c.Picks(k - 1, w[k - 1]) then DropOne(m, d, k - 1) else d
  }

  /** The loop computes what the specification of a drop says. */
  lemma {:induction false} DroppedIs(m: Mode, w: Window, ooo: int, c: Choice, k: nat)
    requires k <= |w| && -1 <= ooo
    ensures DroppedTo(m, w, ooo, c, k) == Dropping(
      DropChosen(w, c, k),
      CountPicked(w, c, k),
      FirstPicked(w, c, k),
      if DropForgets(m, w, ooo) && ooo < k && c.Picks(ooo, w[ooo]) then -1 else ooo)
  {
    if k == 0 {
      assert DropChosen(w, c, 0) == w;
    } else {
      DroppedIs(m, w, ooo, c, k - 1);
      var d := DroppedTo(m, w, ooo, c, k - 1);
      if c.Picks(k - 1, w[k - 1]) {
        assert DropChosen(w, c, k) == d.w[k - 1 := DROP_ENTRY];
      } else {
        assert DropChosen(w, c, k) == d.w;
      }
    }
  }

  lemma DroppedAll(m: Mode, s: State, c: Choice, d: Dropping)
    requires -1 <= s.ooo && d == DroppedTo(m, s.w, s.ooo, c, |s.w|)
    ensures s.(w := d.w, ooo := d.ooo) == DropPicked(m, s, c)
    ensures d.first == FirstPicked(s.w, c, |s.w|) && d.count == CountPicked(s.w, c, |s.w|)
  {
    DroppedIs(m, s.w, s.ooo, c, |s.w|);
  }

  /** A loop that skips a start and an end where nothing is picked does all there is to do. */
  lemma {:induction false} DroppedWithin(m: Mode, w: Window, ooo: int, c: Choice, lo: nat, k: nat)
    requires lo <= k <= |w|
    requires forall i :: lo <= i < k ==> !c.Picks(i, w[i])
    ensures DroppedTo(m, w, ooo, c, k) == DroppedTo(m, w, ooo, c, lo)
    decreases k - lo
  {
    if lo < k {
      DroppedWithin(m, w, ooo, c, lo, k - 1);
    }
  }

  lemma StartAfterDrop(w: Window, c: Choice)
    requires !StartIsFiller(w) && FirstPicked(w, c, |w|) != 0
    ensures !StartIsFiller(DropChosen(w, c, |w|))
  {
  }

  // ----- taking packets

  /** One packet is taken: from the front, or from offset `t` leaving a Read filler. */
  function TakeOne(m: Mode, s: State, t: nat, front: bool): State
    requires m.size >= 1 && t < |s.w|
  {
    if front then s.(w := s.w[1..], startSeq := IncSeq(s.startSeq, 1), ooo := Shift(m, s.ooo, 1))
    else s.(w := s.w[t := READ_ENTRY])
  }

  /** `j` packets were taken from offset `r` on. */
  ghost function TakeN(m: Mode, s: State, r: nat, j: nat): (s': State)
    requires m.size >= 1 && r + j <= |s.w|
    ensures r == 0 ==> s'.w == s.w[j..]
    ensures r > 0 ==> |s'.w| == |s.w| && forall i :: r + j <= i < |s.w| ==> s'.w[i] == s.w[i]
  {
    if j == 0 then
      assert s.w[0..] == s.w;
      s
    else
      assert s.w[j - 1..][1..] == s.w[j..];
      TakeOne(m, TakeN(m, s, r, j - 1), if r == 0 then 0 else r + j - 1, r == 0)
  }

  /** The next packet to take at the start carries the start sequence number. */
  lemma TakeNNext(m: Mode, s: State, j: nat)
    requires m.size >= 1 && j < |s.w| <= MAX_SEQ_NO && Numbered(s.w, s.startSeq) && s.w[j].Has()
    ensures TakeN(m, s, 0, j).w[0].Pkt().seqno == TakeN(m, s, 0, j).startSeq
  {
    TakeNFront(m, s, j);
  }

  ghost predicate StoredRun(w: Window, r: nat, j: nat) {
    r + j <= |w| && forall x :: r <= x < r + j ==> w[x].Has()
  }

  /** The walk from offset `r` took `j` entries. While `more` it goes on at offset `r + j`, otherwise it ended
      there, at the last packet of the message if `last`. */
  ghost predicate Walk(w: Window, r: nat, j: nat, more: bool, last: bool)
  {
    && StoredRun(w, r, j)
    && if more then
         SpanEnd(true, w, r) == SpanEnd(true, w, r + j) && SpanComplete(true, w, r) == SpanComplete(true, w, r + j)
       else
         SpanEnd(true, w, r) == r + j && SpanComplete(true, w, r) == last
  }

  lemma WalkStep(w: Window, r: nat, j: nat, last: bool)
    requires Walk(w, r, j, true, last)
    ensures if r + j == |w| || !w[r + j].Has() then Walk(w, r, j, false, false)
            else var p := w[r + j].Pkt(); Walk(w, r, j + 1, !p.isLast, p.isLast)
  {
  }

  lemma {:induction false} TakeNFront(m: Mode, s: State, j: nat)
    requires m.size >= 1 && j <= |s.w| <= MAX_SEQ_NO
    ensures TakeN(m, s, 0, j) == s.(w := s.w[j..], startSeq := IncSeq(s.startSeq, j), ooo := Shift(m, s.ooo, j))
  {
    if j > 0 {
      TakeNFront(m, s, j - 1);
      IncSeqAdds(s.startSeq, j - 1, 1);
      assert s.w[j - 1..][1..] == s.w[j..];
      ShiftOne(m, s.ooo, j - 1);
    }
  }

  lemma {:induction false} TakeNMiddle(m: Mode, s: State, r: nat, j: nat)
    requires m.size >= 1 && 0 < r && r + j <= |s.w|
    ensures TakeN(m, s, r, j) == s.(w := s.w[..r] + Reads(j) + s.w[r + j..])
  {
    if j == 0 {
      assert s.w[..r] + Reads(0) + s.w[r..] == s.w;
    } else {
      TakeNMiddle(m, s, r, j - 1);
      assert (s.w[..r] + Reads(j - 1) + s.w[r + j - 1..])[r + j - 1 := READ_ENTRY] ==
             s.w[..r] + Reads(j) + s.w[r + j..];
    }
  }

  /** The loop of `readMessage` computes what its specification says. */
  lemma TakeAtIs(m: Mode, s: State, r: nat, j: nat, last: bool)
    requires m.size >= 1 && |s.w| <= MAX_SEQ_NO && Walk(s.w, r, j, false, last)
    ensures TakeAt(m, s, r) == TakeN(m, s, r, j).(ooo := if last && r == s.ooo then -1 else TakeN(m, s, r, j).ooo)
    ensures TakenN(s.w, r, j) == Taken(s.w, r)
    ensures SpanEnd(true, s.w, r) == r + j
  {
    if r == 0 {
      TakeNFront(m, s, j);
    } else {
      TakeNMiddle(m, s, r, j);
    }
  }

  /** The packets of the first `j` entries from `r`. */
  ghost function TakenN(w: Window, r: nat, j: nat): seq<Packet>
    requires StoredRun(w, r, j)
  {
    UnitPackets(w[r..r + j])
  }

  /** `dst` holds what fits into `len` bytes of `j` payloads, `bytes` of them in all; `remain` is the room left. */
  ghost predicate Copied(w: Window, r: nat, j: nat, len: nat, dst: seq<Byte>, remain: nat, bytes: nat) {
    && StoredRun(w, r, j)
    && bytes == |Payloads(TakenN(w, r, j))|
    && dst == Payloads(TakenN(w, r, j))[..Min(len, bytes)]
    && remain == len - |dst|
  }

  lemma CopyStep(w: Window, r: nat, j: nat, len: nat, dst: seq<Byte>, remain: nat, bytes: nat)
    requires Copied(w, r, j, len, dst, remain, bytes) && r + j < |w| && w[r + j].Has()
    ensures var p := w[r + j].Pkt().payload;
            var n := Min(remain, |p|);
            Copied(w, r, j + 1, len, dst + p[..n], remain - n, bytes + |p|)
  {
    var p := w[r + j].Pkt();
    assert TakenN(w, r, j + 1) == TakenN(w, r, j) + [p];
    PayloadsAppend(TakenN(w, r, j), [p]);
    assert Payloads([p]) == p.payload + Payloads([]);
    assert Payloads([p]) == p.payload;
  }

  // ----- stored units

  ghost function UnitIds(e: Entry): set<nat> {
    if e.Has() then {e.unit.value.id} else {}
  }

  ghost function Ids(w: Window): set<nat> {
    set k | 0 <= k < |w| && w[k].Has() :: w[k].unit.value.id
  }

  ghost predicate DistinctIds(w: Window) {
    forall i, j :: 0 <= i < j < |w| && w[i].Has() && w[j].Has() ==> w[i].unit.value.id != w[j].unit.value.id
  }

  lemma IdsRemove(w: Window, k: nat, e: Entry)
    requires k < |w| && DistinctIds(w) && !e.Has()
    ensures DistinctIds(w[k := e])
    ensures Ids(w[k := e]) == Ids(w) - UnitIds(w[k])
  {
    var w' := w[k := e];
    forall x | x in Ids(w) - UnitIds(w[k]) ensures x in Ids(w') {
      var i :| 0 <= i < |w| && w[i].Has() && w[i].unit.value.id == x;
      assert w'[i] == w[i];
    }
    forall x | x in Ids(w') ensures x in Ids(w) - UnitIds(w[k]) {
      var i :| 0 <= i < |w'| && w'[i].Has() && w'[i].unit.value.id == x;
      assert w'[i] == w[i] && i != k;
    }
  }

  lemma IdsTail(w: Window)
    requires w != [] && DistinctIds(w) && !w[0].Has()
    ensures DistinctIds(w[1..]) && Ids(w[1..]) == Ids(w)
  {
    forall x | x in Ids(w) ensures x in Ids(w[1..]) {
      var i :| 0 <= i < |w| && w[i].Has() && w[i].unit.value.id == x;
      assert w[1..][i - 1] == w[i];
    }
  }

  lemma IdsGrow(w: Window, n: nat)
    requires DistinctIds(w)
    ensures DistinctIds(Grow(w, n)) && Ids(Grow(w, n)) == Ids(w)
  {
    forall x | x in Ids(w) ensures x in Ids(Grow(w, n)) {
      var i :| 0 <= i < |w| && w[i].Has() && w[i].unit.value.id == x;
      assert Grow(w, n)[i] == w[i];
    }
  }

  lemma IdsStore(w: Window, k: nat, e: Entry)
    requires k < |w| && DistinctIds(w) && !w[k].Has() && e.Has() && e.unit.value.id !in Ids(w)
    ensures DistinctIds(w[k := e])
    ensures Ids(w[k := e]) == Ids(w) + UnitIds(e)
  {
    var w' := w[k := e];
    forall i | 0 <= i < |w| && w[i].Has() ensures w[i].unit.value.id in Ids(w) && w'[i] == w[i] {
    }
    assert w'[k] == e;
    forall x | x in Ids(w) ensures x in Ids(w') {
      var i :| 0 <= i < |w| && w[i].Has() && w[i].unit.value.id == x;
      assert w'[i] == w[i];
    }
  }

  // ----- the count of unordered packets

  function Unordered(e: Entry): nat {
    if e.Has() && !e.Pkt().inOrder then 1 else 0
  }

  lemma {:induction false} CountSet(w: Window, k: nat, e: Entry)
    requires k < |w|
    ensures CountUnordered(w[k := e]) == CountUnordered(w) - Unordered(w[k]) + Unordered(e)
    ensures CountUnordered(w) >= Unordered(w[k])
  {
    if k == 0 {
      assert w[0 := e][1..] == w[1..];
    } else {
      assert w[k := e][1..] == w[1..][k - 1 := e];
      CountSet(w[1..], k - 1, e);
    }
  }

  lemma {:induction false} CountGrow(w: Window, n: nat)
    ensures CountUnordered(Grow(w, n)) == CountUnordered(w)
    decreases |w|, n
  {
    if w != [] {
      var n' := if n == 0 then 0 else n - 1;
      assert Grow(w, n)[1..] == Grow(w[1..], n');
      CountGrow(w[1..], n');
    } else if n > 0 {
      assert Grow(w, n)[1..] == Grow(w, n - 1);
      CountGrow(w, n - 1);
    }
  }

  lemma {:induction false} CountZero(w: Window)
    ensures CountUnordered(w) == 0 <==> forall i :: 0 <= i < |w| ==> Unordered(w[i]) == 0
  {
    if w != [] {
      CountZero(w[1..]);
      assert forall i :: 1 <= i < |w| ==> w[1..][i - 1] == w[i];
    }
  }

  lemma {:induction false} SearchNothing(w: Window, k: nat, first: int, msgno: int)
    requires k <= |w| && CountUnordered(w[k..]) == 0
    ensures SearchOoo(w, k, first, msgno) == -1
    decreases |w| - k
  {
    if k < |w| {
      CountFrom(w, k);
      SearchNothing(w, k + 1, -1, -1);
    }
  }

  lemma CountFrom(w: Window, k: nat)
    requires k < |w|
    ensures CountUnordered(w[k..]) == Unordered(w[k]) + CountUnordered(w[k + 1..])
  {
    assert w[k..][1..] == w[k + 1..];
  }
}
