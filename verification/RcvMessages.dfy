/** Windows filled from a well-formed stream of messages: what the index of messages readable out of order means. */
module RcvMessages {
  import opened SeqNo
  import opened Packets
  import opened RcvWindow
  import opened RcvWindowInvariant

  /** The stored packets look like parts of a stream: next to each other they continue one message or begin
      the next, and a message has one number and one order flag. */
  ghost predicate Coherent(w: Window) {
    forall i :: 0 <= i && i + 1 < |w| && w[i].Has() && w[i + 1].Has() ==>
      && (w[i].Pkt().isLast <==> w[i + 1].Pkt().isFirst)
      && (!w[i].Pkt().isLast ==>
            w[i].Pkt().msgno == w[i + 1].Pkt().msgno && w[i].Pkt().inOrder == w[i + 1].Pkt().inOrder)
  }

  /** A message that may be read out of order is stored whole from offset `k` on. */
  ghost predicate UnorderedAt(w: Window, k: int) {
    0 <= k < |w| && MessageAt(true, w, k) && !w[k].Pkt().inOrder
  }

  /** The index, when set, points at such a message. */
  ghost predicate OooSound(s: State) {
    s.ooo >= 0 ==> UnorderedAt(s.w, s.ooo)
  }

  /** With nothing readable in order, the index is set if there is any such message. */
  ghost predicate OooComplete(s: State) {
    s.frontier == 0 && s.ooo < 0 ==> forall k :: !UnorderedAt(s.w, k)
  }

  /** All packets of a stored stretch of one message carry its number and its order flag. */
  lemma {:induction false} SameMessage(w: Window, k: nat, i: nat)
    requires Coherent(w) && k <= i < |w|
    requires forall x :: k <= x <= i ==> w[x].Has()
    requires forall x :: k <= x < i ==> !w[x].Pkt().isLast
    ensures w[i].Pkt().msgno == w[k].Pkt().msgno && w[i].Pkt().inOrder == w[k].Pkt().inOrder
    ensures i > k ==> !w[i].Pkt().isFirst
  {
    if k < i {
      SameMessage(w, k, i - 1);
    }
  }

  /** Where a message that is complete at `k` has its parts. */
  lemma MessageShape(w: Window, k: nat)
    requires Coherent(w) && k < |w| && w[k].Has() && SpanComplete(true, w, k)
    ensures var e := SpanEnd(true, w, k);
            && k < e && w[e - 1].Has() && w[e - 1].Pkt().isLast
            && forall i :: k <= i < e ==>
                 && w[i].Has()
                 && w[i].Pkt().msgno == w[k].Pkt().msgno
                 && w[i].Pkt().inOrder == w[k].Pkt().inOrder
                 && (i < e - 1 ==> !w[i].Pkt().isLast)
                 && (i > k ==> !w[i].Pkt().isFirst)
  {
    var e := SpanEnd(true, w, k);
    SpanShape(true, w, k);
    forall i | k <= i < e
      ensures w[i].Pkt().msgno == w[k].Pkt().msgno && w[i].Pkt().inOrder == w[k].Pkt().inOrder
      ensures i > k ==> !w[i].Pkt().isFirst
    {
      SameMessage(w, k, i);
    }
  }

  /** A message stays complete where its entries stay as they are, `d` to the left. */
  lemma MessageMoves(w: Window, w': Window, k: nat, d: nat)
    requires k < |w| && MessageAt(true, w, k)
    requires d <= k && SpanEnd(true, w, k) - d <= |w'|
    requires forall i :: k <= i < SpanEnd(true, w, k) ==> w'[i - d] == w[i]
    ensures MessageAt(true, w', k - d) && SpanEnd(true, w', k - d) == SpanEnd(true, w, k) - d
    ensures w'[k - d] == w[k]
  {
    SpanMoves(true, w, k);
    assert w'[k - d] == w[k];
    forall i | k <= i < SpanEnd(true, w, k) ensures w'[(k - d) + (i - k)] == w[i] {
      assert w'[i - d] == w[i];
    }
    SpanLocal(true, w, w', k, k - d);
  }

  /** And where its entries stay in their places. */
  lemma MessageSame(w: Window, w': Window, k: nat)
    requires k < |w| && MessageAt(true, w, k) && SpanEnd(true, w, k) <= |w'|
    requires forall i :: k <= i < SpanEnd(true, w, k) ==> w'[i] == w[i]
    ensures MessageAt(true, w', k) && SpanEnd(true, w', k) == SpanEnd(true, w, k)
    ensures w'[k] == w[k]
  {
    SpanMoves(true, w, k);
    forall i | k <= i < SpanEnd(true, w, k) ensures w'[k + (i - k)] == w[i] {
    }
    SpanLocal(true, w, w', k, k);
  }

  // ----- the search

  /** What the search remembers at offset `k`: the message that begins at `first` is stored so far. */
  ghost predicate Candidate(w: Window, k: nat, first: int, msgno: int)
    requires k <= |w|
  {
    if first == -1 then msgno == -1
    else
      && 0 <= first < k
      && w[first].Has() && w[first].Pkt().isFirst && w[first].Pkt().msgno == msgno
      && forall i :: first <= i < k ==> w[i].Has() && !w[i].Pkt().inOrder && !w[i].Pkt().isLast
  }

  /** One step of the search from a packet it may use. */
  lemma CandidateStep(w: Window, k: nat, first: int, msgno: int)
    requires Coherent(w) && k < |w| && Candidate(w, k, first, msgno) && w[k].Has() && !w[k].Pkt().inOrder
    ensures var p := w[k].Pkt();
            var first' := if p.isFirst then k else first;
            var msgno' := if p.isFirst then p.msgno else msgno;
            if first' == -1 then p.msgno != msgno'
            else
              && p.msgno == msgno'
              && (p.isLast ==> UnorderedAt(w, first') && SpanEnd(true, w, first') == k + 1)
              && (!p.isLast ==> Candidate(w, k + 1, first', msgno'))
  {
    var p := w[k].Pkt();
    var first' := if p.isFirst then k else first;
    if first' != -1 {
      if !p.isFirst {
        assert w[k - 1].Has() && !w[k - 1].Pkt().isLast;
        SameMessage(w, first, k);
      }
      if p.isLast {
        SpanIs(true, w, first', k + 1);
      }
    }
  }

  /** The search finds a message that is readable out of order. */
  lemma {:induction false} SearchSound(w: Window, k: nat, first: int, msgno: int)
    requires Coherent(w) && k <= |w| && Candidate(w, k, first, msgno)
    ensures var r := SearchOoo(w, k, first, msgno); r == -1 || UnorderedAt(w, r)
    decreases |w| - k
  {
    if k < |w| {
      if !w[k].Has() || w[k].Pkt().inOrder {
        SearchSound(w, k + 1, -1, -1);
      } else {
        CandidateStep(w, k, first, msgno);
        var p := w[k].Pkt();
        var first' := if p.isFirst then k else first;
        var msgno' := if p.isFirst then p.msgno else msgno;
        if p.msgno != msgno' {
          SearchSound(w, k + 1, -1, -1);
        } else if !p.isLast {
          SearchSound(w, k + 1, first', msgno');
        }
      }
    }
  }

  /** The search misses none: not those that begin later, and not the one it has begun to see. */
  lemma {:induction false} SearchFinds(w: Window, k: nat, first: int, msgno: int, j: nat)
    requires Coherent(w) && k <= |w| && Candidate(w, k, first, msgno)
    requires UnorderedAt(w, j) && (j >= k || j == first)
    ensures SearchOoo(w, k, first, msgno) >= 0
    decreases |w| - k
  {
    MessageShape(w, j);
    var e := SpanEnd(true, w, j);
    assert k < e;
    if !w[k].Has() || w[k].Pkt().inOrder {
      SearchFinds(w, k + 1, -1, -1, j);
    } else {
      CandidateStep(w, k, first, msgno);
      var p := w[k].Pkt();
      var first' := if p.isFirst then k else first;
      var msgno' := if p.isFirst then p.msgno else msgno;
      if p.msgno != msgno' {
        SearchFinds(w, k + 1, -1, -1, j);
      } else if !p.isLast {
        SearchFinds(w, k + 1, first', msgno', j);
      }
    }
  }

  /** Updating the index makes it complete and keeps it sound. */
  lemma UpdateCorrect(w: Window, frontier: nat, ooo: int)
    requires Coherent(w) && (ooo >= 0 ==> UnorderedAt(w, ooo)) && ooo >= -1
    ensures var r := OooUpdate(w, frontier, ooo);
            && (r >= 0 ==> UnorderedAt(w, r))
            && (frontier == 0 && r < 0 ==> forall k :: !UnorderedAt(w, k))
  {
    if frontier == 0 && ooo < 0 {
      SearchSound(w, 0, -1, -1);
      forall k | UnorderedAt(w, k) ensures SearchOoo(w, 0, -1, -1) >= 0 {
        SearchFinds(w, 0, -1, -1, k);
      }
    }
  }

  // ----- insert

  lemma {:induction false} ScanRightFinds(w: Window, k: nat)
    requires Coherent(w) && k < |w| && w[k].Has() && !w[k].Pkt().isLast
    ensures ScanRight(w, k, w[k].Pkt().msgno) >= 0 <==> SpanComplete(true, w, k)
    decreases |w| - k
  {
    if k + 1 < |w| && w[k + 1].Has() && !w[k + 1].Pkt().isLast {
      ScanRightFinds(w, k + 1);
    }
  }

  lemma {:induction false} ScanLeftFinds(w: Window, k: nat, msgno: nat)
    requires Coherent(w) && k < |w| && w[k].Has() && !w[k].Pkt().isFirst && msgno == w[k].Pkt().msgno
    ensures var r := ScanLeft(w, k, msgno);
            r >= 0 ==>
              && w[r].Has() && w[r].Pkt().isFirst
              && forall i :: r <= i < k ==> w[i].Has() && !w[i].Pkt().isLast
    ensures forall j :: 0 <= j < k && w[j].Has() && w[j].Pkt().isFirst
                        && (forall i :: j < i < k ==> w[i].Has() && !w[i].Pkt().isFirst)
              ==> ScanLeft(w, k, msgno) == j
  {
    if k > 0 && w[k - 1].Has() && !w[k - 1].Pkt().isFirst {
      ScanLeftFinds(w, k - 1, msgno);
    }
  }

  /** Storing an unordered packet sets the index if a message became readable through it, and only then. */
  lemma OooOnInsertCorrect(w: Window, k: nat)
    requires Coherent(w) && k < |w| && w[k].Has() && !w[k].Pkt().inOrder
    ensures var r := OooOnInsert(w, k, -1);
            && (r >= 0 ==> UnorderedAt(w, r))
            && (r < 0 ==> forall j :: UnorderedAt(w, j) ==> !(j <= k < SpanEnd(true, w, j)))
  {
    var p := w[k].Pkt();
    if !p.isLast {
      ScanRightFinds(w, k);
    }
    if !p.isFirst {
      ScanLeftFinds(w, k, p.msgno);
    }
    var r := OooOnInsert(w, k, -1);
    if 0 <= r < k {
      SpanJoin(w, r, k);
      SameMessage(w, r, k);
    }
    forall j | UnorderedAt(w, j) && j <= k < SpanEnd(true, w, j)
      ensures r >= 0
    {
      MessageShape(w, j);
      SpanTail(w, j, k);
    }
  }

  /** A stored stretch without a last packet, and then a complete span. */
  lemma {:induction false} SpanJoin(w: Window, j: nat, k: nat)
    requires j <= k < |w| && SpanComplete(true, w, k)
    requires forall i :: j <= i < k ==> w[i].Has() && !w[i].Pkt().isLast
    ensures SpanComplete(true, w, j) && SpanEnd(true, w, j) == SpanEnd(true, w, k)
    decreases k - j
  {
    if j < k {
      SpanJoin(w, j + 1, k);
    }
  }

  lemma {:induction false} SpanTail(w: Window, j: nat, k: nat)
    requires j <= k < |w| && SpanComplete(true, w, j) && k < SpanEnd(true, w, j)
    ensures SpanComplete(true, w, k) && SpanEnd(true, w, k) == SpanEnd(true, w, j)
    decreases k - j
  {
    if j < k {
      SpanTail(w, j + 1, k);
    }
  }
}
