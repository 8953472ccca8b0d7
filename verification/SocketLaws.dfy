/** What calls and the collector do to sockets: which of them stay open, who waits in which queue, and how statuses
    move. */
module SocketLaws {
  import opened Packets
  import opened SocketTable
  import opened MuxCounts

  // ----- the collector

  /** A round of the collector closes exactly the broken sockets that nothing keeps open; they leave the queues of their
      listeners, and nothing else changes. */
  lemma CollectMoves(b: Books, kept: set<int>, u: int)
    requires b.sockets.Keys !! b.closed.Keys
    ensures var b' := BrokenMoved(b, ToClose(b, kept));
            var goes := u in b.sockets && b.sockets[u].broken && u !in kept;
            && (u in b'.sockets <==> u in b.sockets && !goes)
            && (u in b'.closed <==> u in b.closed || goes)
            && (goes ==> b'.closed[u].status == CLOSED && b'.closed[u].muxId == b.sockets[u].muxId)
            && (u in b'.sockets ==>
                  b'.sockets[u] == b.sockets[u].(queued := b'.sockets[u].queued) &&
                  forall v :: v in b'.sockets[u].queued <==> v in b.sockets[u].queued && !GoesFrom(b, kept, u, v))
            && (u in b.closed ==>
                  b'.closed[u] == b.closed[u].(queued := b'.closed[u].queued) &&
                  forall v :: v in b'.closed[u].queued <==> v in b.closed[u].queued && !GoesFrom(b, kept, u, v))
            && b'.muxes == b.muxes
  {
  }

  /** Socket `v` was accepted by `l`, is broken, and nothing keeps it open. */
  predicate GoesFrom(b: Books, kept: set<int>, l: int, v: int) {
    v in b.sockets && b.sockets[v].broken && v !in kept && b.sockets[v].listener == l
  }

  /** With a listener the sockets that wait to be accepted are closed, not lost; the others stay as they are. */
  lemma RemoveClosesQueue(b: Books, u: int, busy: set<int>, v: int)
    requires b.sockets.Keys !! b.closed.Keys && u in b.closed && u !in busy && v != u
    ensures var b' := Removed(b, u, busy);
            && u !in b'.sockets && u !in b'.closed
            && (v in b'.sockets <==> v in b.sockets && v !in b.closed[u].queued)
            && (v in b'.sockets ==> b'.sockets[v] == b.sockets[v])
            && (v in b'.closed <==> v in b.closed || (v in b.sockets && v in b.closed[u].queued))
            && (v in b.closed ==> b'.closed[v] == b.closed[v])
            && (v in b.sockets && v in b.closed[u].queued ==>
                  b'.closed[v] == b.sockets[v].(status := CLOSED, broken := true))
  {
  }

  /** Closing a listener only breaks it, so that the collector finds it; closing another socket takes it from the open
      ones at once. Nothing else changes, and a socket that is not there is left alone. */
  lemma CloseIs(b: Books, u: int, v: int)
    requires b.sockets.Keys !! b.closed.Keys
    ensures var b' := Close(b, u);
            && b'.muxes == b.muxes
            && (v != u ==>
                  && (v in b'.sockets <==> v in b.sockets) && (v in b.sockets ==> b'.sockets[v] == b.sockets[v])
                  && (v in b'.closed <==> v in b.closed) && (v in b.closed ==> b'.closed[v] == b.closed[v]))
            && (u in b.sockets && b.sockets[u].status == LISTENING ==>
                  u in b'.sockets && b'.sockets[u] == b.sockets[u].(broken := true))
            && (u in b.sockets && b.sockets[u].status != LISTENING && b.sockets[u].status != CLOSED ==>
                  u !in b'.sockets && u in b'.closed && b'.closed[u] == b.sockets[u].(status := CLOSED))
            && (u !in b.sockets || b.sockets[u].status == CLOSED ==> b' == b)
  {
  }

  // ----- connection requests

  /** Whether a request makes a new socket: the listener is there, the peer's earlier socket is not there or broken,
      and the queue has room. */
  predicate MakesSocket(b: Books, l: int, known: Option<int>) {
    && l in b.sockets && b.sockets[l].status != CLOSED
    && !(known.Some? && known.value in b.sockets && !b.sockets[known.value].broken)
    && var q := b.sockets[l].queued;
       |if known.Some? && known.value in b.sockets then q - {known.value} else q| < b.sockets[l].backlog
  }

  /** What a request makes: an open connected socket that waits in the queue of its listener and shares its
      multiplexer if it was accepted, else a closed one; and none if no socket is to be made. */
  lemma RequestMakes(b: Books, used: set<int>, l: int, known: Option<int>, u: int, out: Outcome)
    requires Inv(b, used) && Allowed(b, used, Request(l, known, u, out)) && u !in b.sockets
    ensures var b' := NewConnection(b, l, known, u, out);
            && (MakesSocket(b, l, known) && out == Accepted ==>
                  && u in b'.sockets && b'.sockets[u].status == CONNECTED && b'.sockets[u].listener == l
                  && l in b'.sockets && u in b'.sockets[l].queued
                  && b'.sockets[u].muxId == b.sockets[l].muxId && b.sockets[l].muxId in b.muxes)
            && (MakesSocket(b, l, known) && out != Accepted ==>
                  u !in b'.sockets && u in b'.closed && b'.closed[u].status == CLOSED)
            && (!MakesSocket(b, l, known) ==> u !in b'.sockets && u !in b'.closed)
  {
    if Located(b, l) && !(known.Some? && known.value in b.sockets && !b.sockets[known.value].broken) {
      var b1 := PeerDropped(b, l, known);
      PeerDroppedKeeps(b, used, l, known);
      PeerQueue(b, l, known);
      if MakesSocket(b, l, known) {
        ConnectedKeeps(b1, used, l, u, out);
        ConnectedIs(b1, l, u, out);
      }
    }
  }

  lemma PeerQueue(b: Books, l: int, known: Option<int>)
    requires l in b.sockets && known != Some(l)
    requires known.Some? && known.value in b.sockets ==> b.sockets[known.value].broken
    ensures var b1 := PeerDropped(b, l, known);
            && b1.sockets[l].queued == b.sockets[l].queued -
               (if known.Some? && known.value in b.sockets then {known.value} else {})
            && b1.sockets[l].backlog == b.sockets[l].backlog && b1.sockets[l].muxId == b.sockets[l].muxId
            && b1.muxes == b.muxes && b1.closed == b.closed
  {
  }

  lemma ConnectedIs(b: Books, l: int, u: int, out: Outcome)
    requires l in b.sockets && u !in b.sockets && b.sockets[l].muxId in b.muxes
    ensures var b' := Connected(b, l, u, out);
            && (out == Accepted ==>
                  && u in b'.sockets && b'.sockets[u].status == CONNECTED && b'.sockets[u].listener == l
                  && l in b'.sockets && u in b'.sockets[l].queued)
            && (out != Accepted ==> u !in b'.sockets && u in b'.closed && b'.closed[u].status == CLOSED)
  {
  }

  // ----- whole runs

  /** Only listeners have a queue, and none is longer than its backlog. */
  ghost predicate QueuesOk(sockets: map<int, Socket>) {
    forall l :: l in sockets ==>
      && |sockets[l].queued| <= sockets[l].backlog
      && (sockets[l].status != LISTENING && sockets[l].status != CLOSED ==> sockets[l].queued == {})
  }

  lemma FewerLeft(q: set<int>, r: set<int>)
    ensures |q - r| <= |q|
  {
    assert q == (q - r) + (q * r);
  }

  lemma BrokenMovedQueues(b: Books, tbc: set<int>)
    requires QueuesOk(b.sockets)
    ensures QueuesOk(BrokenMoved(b, tbc).sockets)
  {
    var ss := BrokenMoved(b, tbc).sockets;
    forall l | l in ss ensures |ss[l].queued| <= ss[l].backlog {
      FewerLeft(b.sockets[l].queued, Leaving(b.sockets, tbc, l));
    }
  }

  lemma {:induction false} AllRemovedQueues(b: Books, us: seq<int>, busy: set<int>)
    requires QueuesOk(b.sockets)
    ensures QueuesOk(AllRemoved(b, us, busy).sockets)
    decreases |us|
  {
    if us != [] {
      AllRemovedQueues(Removed(b, us[0], busy), us[1..], busy);
    }
  }

  lemma PeerDroppedQueues(b: Books, l: int, known: Option<int>)
    requires QueuesOk(b.sockets) && l in b.sockets && known != Some(l)
    ensures QueuesOk(PeerDropped(b, l, known).sockets)
    ensures PeerDropped(b, l, known).sockets[l].status == b.sockets[l].status
  {
    if known.Some? {
      FewerLeft(b.sockets[l].queued, {known.value});
    }
  }

  lemma ConnectedQueues(b: Books, l: int, u: int, out: Outcome)
    requires QueuesOk(b.sockets) && l in b.sockets && b.sockets[l].status == LISTENING && u !in b.sockets
    requires |b.sockets[l].queued| < b.sockets[l].backlog
    ensures QueuesOk(Connected(b, l, u, out).sockets)
  {
    assert u !in b.sockets[l].queued ==> |b.sockets[l].queued + {u}| == |b.sockets[l].queued| + 1;
    assert u in b.sockets[l].queued ==> b.sockets[l].queued + {u} == b.sockets[l].queued;
  }

  lemma RequestQueues(b: Books, l: int, known: Option<int>, u: int, out: Outcome)
    requires QueuesOk(b.sockets) && known != Some(l) && u !in b.sockets
    requires Located(b, l) ==> b.sockets[l].status == LISTENING
    ensures QueuesOk(NewConnection(b, l, known, u, out).sockets)
  {
    if Located(b, l) {
      var b1 := PeerDropped(b, l, known);
      PeerDroppedQueues(b, l, known);
      if u !in b1.sockets && |b1.sockets[l].queued| < b1.sockets[l].backlog {
        ConnectedQueues(b1, l, u, out);
      }
    }
  }

  lemma StepKeepsQueues(b: Books, used: set<int>, step: Step)
    requires QueuesOk(b.sockets) && Allowed(b, used, step)
    requires step.Request? || step.Create? ==> step.u !in b.sockets
    ensures QueuesOk(Next(b, step).sockets)
  {
    match step
    case Request(l, known, u, out) => RequestQueues(b, l, known, u, out);
    case DoAccept(l, first) =>
      if l in b.sockets {
        FewerLeft(b.sockets[l].queued, {first});
      }
    case Collect(kept, us, busy) =>
      BrokenMovedQueues(b, ToClose(b, kept));
      AllRemovedQueues(BrokenMoved(b, ToClose(b, kept)), us, busy);
    case Exit => BrokenMovedQueues(AllBroken(b), b.sockets.Keys);
    case _ =>
  }

  lemma {:induction false} RunKeepsQueues(b: Books, used: set<int>, steps: seq<Step>, b': Books)
    requires QueuesOk(b.sockets) && Leads(b, used, steps, b')
    ensures QueuesOk(b'.sockets)
    decreases |steps|
  {
    if steps != [] {
      StepKeepsQueues(b, used, steps[0]);
      RunKeepsQueues(Next(b, steps[0]), used + UsedBy(steps[0]), steps[1..], b');
    }
  }

  /** In every reachable state no more sockets wait at a listener than its backlog, and none at any other socket. */
  lemma BacklogHolds(steps: seq<Step>, b: Books, l: int)
    requires Leads(Books(map[], map[], map[]), {}, steps, b) && l in b.sockets
    ensures |b.sockets[l].queued| <= b.sockets[l].backlog
    ensures b.sockets[l].status != LISTENING && b.sockets[l].status != CLOSED ==> b.sockets[l].queued == {}
  {
    RunKeepsQueues(Books(map[], map[], map[]), {}, steps, b);
  }

  // ----- statuses and multiplexers

  /** How the status of an open socket may move in one step. */
  predicate MayMove(a: Status, c: Status) {
    || a == c || c == CLOSED
    || (a == INIT && (c == OPENED || c == CONNECTING || c == CONNECTED))
    || (a == OPENED && (c == LISTENING || c == CONNECTING || c == CONNECTED))
    || (a == CONNECTING && c == CONNECTED)
  }

  /** Socket `u`, open before and after, moved as it may, and names another multiplexer only if it had none and was
      bound just now. */
  ghost predicate MovedWell(b: Books, b': Books, u: int) {
    u in b.sockets && u in b'.sockets ==>
      && MayMove(b.sockets[u].status, b'.sockets[u].status)
      && (b'.sockets[u].muxId != b.sockets[u].muxId ==> b.sockets[u].status == INIT && b'.sockets[u].status != INIT)
  }

  lemma BoundMoves(b: Books, u: int, c: Choice, os: Option<SockAddr>, st: Status, v: int)
    requires u in b.sockets && b.sockets[u].status == INIT && (c.Shared? ==> c.id in b.muxes) && Bound(c, os)
    requires st == OPENED || st == CONNECTING || st == CONNECTED
    ensures MovedWell(b, WithStatus(MuxUpdated(b, u, c, os), u, st), v)
  {
  }

  lemma {:induction false} AllRemovedMoves(b: Books, us: seq<int>, busy: set<int>, v: int)
    ensures v in AllRemoved(b, us, busy).sockets ==>
            v in b.sockets && AllRemoved(b, us, busy).sockets[v] == b.sockets[v]
    decreases |us|
  {
    if us != [] {
      AllRemovedMoves(Removed(b, us[0], busy), us[1..], busy, v);
    }
  }

  lemma PeerDroppedMoves(b: Books, l: int, known: Option<int>, v: int)
    requires l in b.sockets
    ensures v in PeerDropped(b, l, known).sockets <==> v in b.sockets
    ensures MovedWell(b, PeerDropped(b, l, known), v)
    ensures v in b.sockets && PeerDropped(b, l, known).sockets[v].status != CLOSED ==>
              PeerDropped(b, l, known).sockets[v].status == b.sockets[v].status
  {
  }

  lemma ConnectedMoves(b: Books, l: int, u: int, out: Outcome, v: int)
    requires l in b.sockets && u !in b.sockets && v in b.sockets && v in Connected(b, l, u, out).sockets
    ensures Connected(b, l, u, out).sockets[v] == b.sockets[v].(queued := Connected(b, l, u, out).sockets[v].queued)
  {
  }

  lemma RequestMoves(b: Books, l: int, known: Option<int>, u: int, out: Outcome, v: int)
    requires u !in b.sockets
    ensures MovedWell(b, NewConnection(b, l, known, u, out), v)
  {
    if Located(b, l) && v in b.sockets {
      var b1 := PeerDropped(b, l, known);
      PeerDroppedMoves(b, l, known, v);
      PeerDroppedMoves(b, l, known, u);
      if v in Connected(b1, l, u, out).sockets {
        ConnectedMoves(b1, l, u, out, v);
      }
    }
  }

  /** One step of any run moves statuses as they may, and never gives a bound socket another multiplexer. */
  lemma StepMoves(b: Books, used: set<int>, step: Step, v: int)
    requires Allowed(b, used, step)
    requires step.Request? || step.Create? ==> step.u !in b.sockets
    ensures MovedWell(b, Next(b, step), v)
  {
    match step
    case DoBind(u, _, c, os) =>
      if u in b.sockets && b.sockets[u].status == INIT && Bound(c, os) {
        BoundMoves(b, u, c, os, OPENED, v);
      }
    case Attach(u, os) =>
      if u in b.sockets && b.sockets[u].status == INIT && Bound(Fresh, os) {
        BoundMoves(b, u, Fresh, os, OPENED, v);
      }
    case Connect(u, family, rendezvous, c, os, done) =>
      if u in b.sockets && b.sockets[u].status == INIT && !rendezvous && Bound(c, os) {
        BoundMoves(b, u, c, os, done, v);
      }
    case Request(l, known, u, out) => RequestMoves(b, l, known, u, out, v);
    case Collect(kept, us, busy) => AllRemovedMoves(BrokenMoved(b, ToClose(b, kept)), us, busy, v);
    case _ =>
  }
}
