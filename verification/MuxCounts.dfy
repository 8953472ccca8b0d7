/** The reference count of every multiplexer is the number of sockets, open or closed, that name it: in every state that
    calls and the collector can reach. */
module MuxCounts {
  import opened Packets
  import opened SocketTable

  /** The multiplexer each socket names, or -1. */
  function Ids(b: Books): (ids: map<int, int>)
    ensures ids.Keys == b.sockets.Keys + b.closed.Keys
  {
    map u | u in b.sockets.Keys + b.closed.Keys :: if u in b.sockets then b.sockets[u].muxId else b.closed[u].muxId
  }

  function Users(ids: map<int, int>, i: int): set<int> {
    set u | u in ids && ids[u] == i
  }

  ghost predicate Exact(ids: map<int, int>, muxes: MuxMap) {
    && (forall i :: i in muxes ==> i != -1 && muxes[i].id == i && 1 <= muxes[i].refCount == |Users(ids, i)|)
    && (forall u :: u in ids ==> ids[u] == -1 || ids[u] in muxes)
  }

  // ----- counting

  lemma ExactAdd(ids: map<int, int>, muxes: MuxMap, u: int)
    requires Exact(ids, muxes) && u !in ids
    ensures Exact(ids[u := -1], muxes)
  {
    forall i | i in muxes ensures Users(ids[u := -1], i) == Users(ids, i) {
    }
  }

  lemma ExactJoin(ids: map<int, int>, muxes: MuxMap, u: int, i: int, m: Mux)
    requires Exact(ids, muxes) && u in ids && ids[u] == -1 && i in muxes
    requires m.id == i && m.refCount == muxes[i].refCount + 1
    ensures Exact(ids[u := i], muxes[i := m])
  {
    forall j | j in muxes ensures Users(ids[u := i], j) == if j == i then Users(ids, j) + {u} else Users(ids, j) {
    }
  }

  lemma ExactFound(ids: map<int, int>, muxes: MuxMap, u: int, m: Mux)
    requires Exact(ids, muxes) && u in ids && ids[u] == -1 && u !in muxes && u != -1
    requires m.id == u && m.refCount == 1
    ensures Exact(ids[u := u], muxes[u := m])
  {
    assert forall v :: v in ids && v != u ==> ids[v] != u;
    assert Users(ids[u := u], u) == {u};
    forall j | j in muxes ensures Users(ids[u := u], j) == Users(ids, j) {
    }
  }

  /** A multiplexer goes exactly with its last user. */
  lemma ExactDrop(ids: map<int, int>, muxes: MuxMap, u: int)
    requires Exact(ids, muxes) && u in ids
    ensures Exact(ids - {u}, Released(muxes, ids[u]))
    ensures forall i :: i in muxes ==> (i !in Released(muxes, ids[u]) <==> Users(ids, i) == {u})
  {
    var k := ids[u];
    forall j | j in muxes ensures Users(ids - {u}, j) == Users(ids, j) - {u} {
    }
    assert k in muxes ==> u in Users(ids, k);
    forall j | j in muxes && j != k ensures u !in Users(ids, j) && |Users(ids, j)| >= 1 {
    }
    if k in muxes && muxes[k].refCount == 1 {
      assert |Users(ids, k) - {u}| == 0;
      assert Users(ids, k) == {u};
      forall v | v in ids - {u} ensures ids[v] != k {
        assert ids[v] == k ==> v in Users(ids, k);
      }
    }
    if k in muxes && Users(ids, k) == {u} {
      assert |Users(ids, k)| == 1;
    }
  }

  // ----- the invariant

  predicate Live(s: Status) {
    s == OPENED || s == LISTENING || s == CONNECTING || s == CONNECTED
  }

  /** A socket not bound yet names no multiplexer and has founded none; a live one names one. */
  predicate SocketOk(s: Socket, u: int, muxes: MuxMap) {
    && (s.status == INIT ==> s.muxId == -1 && u !in muxes)
    && (Live(s.status) ==> s.muxId != -1)
  }

  ghost predicate SocketsOk(sockets: map<int, Socket>, muxes: MuxMap) {
    forall u :: u in sockets ==> SocketOk(sockets[u], u, muxes)
  }

  /** `used` are all identifiers given out so far. */
  ghost predicate Known(b: Books, used: set<int>) {
    && b.sockets.Keys <= used && b.closed.Keys <= used && b.muxes.Keys <= used
    && forall u :: u in used ==> u > 0
  }

  ghost predicate Inv(b: Books, used: set<int>) {
    && b.sockets.Keys !! b.closed.Keys
    && Known(b, used)
    && Exact(Ids(b), b.muxes)
    && SocketsOk(b.sockets, b.muxes)
  }

  lemma InitInv()
    ensures Inv(Books(map[], map[], map[]), {})
  {
  }

  // ----- steps

  lemma NewSocketKeeps(b: Books, used: set<int>, u: int, s: Socket)
    requires Inv(b, used) && u > 0 && u !in used && s.status == INIT && s.muxId == -1
    ensures Inv(b.(sockets := b.sockets[u := s]), used + {u})
  {
    ExactAdd(Ids(b), b.muxes, u);
    assert Ids(b.(sockets := b.sockets[u := s])) == Ids(b)[u := -1];
  }

  /** A change of a socket that keeps its multiplexer and does not bring it to life. */
  lemma TouchKeeps(b: Books, used: set<int>, u: int, s: Socket)
    requires Inv(b, used) && u in b.sockets && s.muxId == b.sockets[u].muxId
    requires SocketOk(s, u, b.muxes)
    ensures Inv(b.(sockets := b.sockets[u := s]), used)
  {
    assert Ids(b.(sockets := b.sockets[u := s])) == Ids(b);
  }

  lemma MovedKeeps(b: Books, used: set<int>, u: int)
    requires Inv(b, used) && u in b.sockets
    ensures Inv(Moved(b, u), used)
  {
    assert Ids(Moved(b, u)) == Ids(b);
  }

  lemma JoinedKeeps(b: Books, used: set<int>, u: int, i: int, s: Socket, m: Mux)
    requires Inv(b, used) && u in b.sockets && b.sockets[u].status == INIT && i in b.muxes
    requires s.muxId == i && s.status != INIT && m.id == i && m.refCount == b.muxes[i].refCount + 1
    ensures Inv(b.(muxes := b.muxes[i := m], sockets := b.sockets[u := s]), used)
  {
    var b' := b.(muxes := b.muxes[i := m], sockets := b.sockets[u := s]);
    ExactJoin(Ids(b), b.muxes, u, i, m);
    assert Ids(b') == Ids(b)[u := i];
  }

  lemma FoundedKeeps(b: Books, used: set<int>, u: int, s: Socket, m: Mux)
    requires Inv(b, used) && u in b.sockets && b.sockets[u].status == INIT
    requires s.muxId == u && s.status != INIT && m.id == u && m.refCount == 1
    ensures Inv(b.(muxes := b.muxes[u := m], sockets := b.sockets[u := s]), used)
  {
    var b' := b.(muxes := b.muxes[u := m], sockets := b.sockets[u := s]);
    ExactFound(Ids(b), b.muxes, u, m);
    assert Ids(b') == Ids(b)[u := u];
  }

  lemma BoundKeeps(b: Books, used: set<int>, u: int, c: Choice, os: Option<SockAddr>, st: Status)
    requires Inv(b, used) && u in b.sockets && b.sockets[u].status == INIT && st != INIT
    requires (c.Shared? ==> c.id in b.muxes) && Bound(c, os)
    ensures Inv(WithStatus(MuxUpdated(b, u, c, os), u, st), used)
  {
    var b1 := MuxUpdated(b, u, c, os);
    var s' := b1.sockets[u].(status := st);
    if c.Shared? {
      JoinedKeeps(b, used, u, c.id, s', b1.muxes[c.id]);
      assert b.sockets[u := b1.sockets[u]][u := s'] == b.sockets[u := s'];
    } else {
      FoundedKeeps(b, used, u, s', b1.muxes[u]);
      assert b.sockets[u := b1.sockets[u]][u := s'] == b.sockets[u := s'];
    }
  }

  lemma BrokenMovedKeys(b: Books, tbc: set<int>)
    ensures BrokenMoved(b, tbc).sockets.Keys == b.sockets.Keys - tbc
    ensures BrokenMoved(b, tbc).closed.Keys == b.closed.Keys + (b.sockets.Keys * tbc)
  {
  }

  lemma BrokenMovedIds(b: Books, tbc: set<int>)
    requires b.sockets.Keys !! b.closed.Keys
    ensures Ids(BrokenMoved(b, tbc)) == Ids(b)
  {
    var b' := BrokenMoved(b, tbc);
    BrokenMovedKeys(b, tbc);
    forall v | v in Ids(b) ensures Ids(b')[v] == Ids(b)[v] {
    }
    assert Ids(b').Keys == Ids(b).Keys;
  }

  lemma BrokenMovedSockets(b: Books, tbc: set<int>)
    requires SocketsOk(b.sockets, b.muxes)
    ensures SocketsOk(BrokenMoved(b, tbc).sockets, b.muxes)
  {
  }

  lemma BrokenMovedKeeps(b: Books, used: set<int>, tbc: set<int>)
    requires Inv(b, used)
    ensures Inv(BrokenMoved(b, tbc), used)
  {
    BrokenMovedKeys(b, tbc);
    BrokenMovedIds(b, tbc);
    BrokenMovedSockets(b, tbc);
  }

  lemma QueueClosedKeeps(b: Books, used: set<int>, q: set<int>)
    requires Inv(b, used)
    ensures Inv(QueueClosed(b, q), used) && Ids(QueueClosed(b, q)) == Ids(b)
  {
    var b' := QueueClosed(b, q);
    assert b'.sockets.Keys == b.sockets.Keys - q && b'.closed.Keys == b.closed.Keys + (b.sockets.Keys * q);
    forall v | v in Ids(b) ensures Ids(b')[v] == Ids(b)[v] {
    }
    assert Ids(b') == Ids(b);
  }

  lemma RemovedKeeps(b: Books, used: set<int>, u: int, busy: set<int>)
    requires Inv(b, used)
    ensures Inv(Removed(b, u, busy), used)
    ensures u in b.closed && u !in busy ==>
              && b.closed[u].muxId in b.muxes.Keys + {-1}
              && forall i :: i in b.muxes ==> (i !in Removed(b, u, busy).muxes <==> Users(Ids(b), i) == {u})
  {
    if u in b.closed && u !in busy {
      var b1 := QueueClosed(b, b.closed[u].queued);
      QueueClosedKeeps(b, used, b.closed[u].queued);
      assert Ids(b)[u] == b.closed[u].muxId;
      ExactDrop(Ids(b), b.muxes, u);
      assert Ids(Removed(b, u, busy)) == Ids(b1) - {u};
    }
  }

  lemma {:induction false} AllRemovedKeeps(b: Books, used: set<int>, us: seq<int>, busy: set<int>)
    requires Inv(b, used)
    ensures Inv(AllRemoved(b, us, busy), used)
    decreases |us|
  {
    if us != [] {
      RemovedKeeps(b, used, us[0], busy);
      AllRemovedKeeps(Removed(b, us[0], busy), used, us[1..], busy);
    }
  }

  lemma AllMovedKeeps(b: Books, used: set<int>)
    requires Inv(b, used)
    ensures Inv(AllMoved(b), used) && AllMoved(b).sockets == map[]
  {
    assert Ids(AllBroken(b)) == Ids(b);
    BrokenMovedKeeps(AllBroken(b), used, b.sockets.Keys);
    BrokenMovedKeys(AllBroken(b), b.sockets.Keys);
  }

  lemma ListenerJoinedIs(b: Books, used: set<int>, u: int, l: int)
    requires Inv(b, used) && u in b.sockets && l in b.sockets && Live(b.sockets[l].status)
    ensures b.sockets[l].muxId in b.muxes && b.muxes[b.sockets[l].muxId].id == b.sockets[l].muxId
  {
    assert Ids(b)[l] == b.sockets[l].muxId;
  }

  lemma PeerDroppedKeeps(b: Books, used: set<int>, l: int, known: Option<int>)
    requires Inv(b, used) && l in b.sockets
    ensures Inv(PeerDropped(b, l, known), used)
    ensures PeerDropped(b, l, known).sockets.Keys == b.sockets.Keys
    ensures known != Some(l) ==> PeerDropped(b, l, known).sockets[l].status == b.sockets[l].status
  {
    if known.Some? && known.value in b.sockets && b.sockets[known.value].broken {
      TouchKeeps(b, used, known.value, Shut(b.sockets[known.value]));
      var b1 := WithStatus(b, known.value, CLOSED);
      TouchKeeps(b1, used, l, Unqueued(b1.sockets[l], {known.value}));
    }
  }

  lemma MovedForgets(b: Books, u: int, st: Status)
    requires u in b.sockets
    ensures Moved(WithStatus(b, u, st), u) == Moved(b, u)
  {
    assert b.sockets[u := b.sockets[u].(status := st)] - {u} == b.sockets - {u};
  }

  /** However a connection request ends, the counts are right; and there is a multiplexer for the new socket. */
  lemma ConnectedKeeps(b: Books, used: set<int>, l: int, u: int, out: Outcome)
    requires Inv(b, used) && l in b.sockets && Live(b.sockets[l].status) && u > 0 && u !in used
    ensures Inv(Connected(b, l, u, out), used + {u})
    ensures out == Accepted ==> Connected(b, l, u, out).sockets[u].muxId == b.sockets[l].muxId
  {
    var used' := used + {u};
    var s := NewSocket(b.sockets[l].config).(listener := l);
    var b1 := b.(sockets := b.sockets[u := s]);
    NewSocketKeeps(b, used, u, s);
    if out == Rejected {
      MovedKeeps(b1, used', u);
    } else {
      ListenerJoinedIs(b1, used', u, l);
      var i := b1.sockets[l].muxId;
      var b2 := ListenerJoined(b1, u, l);
      var s2 := b2.sockets[u].(status := CONNECTED);
      var b3 := WithStatus(b2, u, CONNECTED);
      assert b3 == b1.(muxes := b1.muxes[i := b2.muxes[i]], sockets := b1.sockets[u := s2]);
      JoinedKeeps(b1, used', u, i, s2, b2.muxes[i]);
      TouchKeeps(b3, used', l, Enqueued(b3, l, u).sockets[l]);
      MovedKeeps(Enqueued(b3, l, u), used', u);
      MovedKeeps(b3, used', u);
      MovedForgets(b2, u, CONNECTED);
    }
  }

  // ----- runs

  datatype Step =
    | Create(u: int, config: Config)
    | DoBind(u: int, addr: SockAddr, c: Choice, os: Option<SockAddr>)
    | Attach(u: int, os: Option<SockAddr>)
    | Connect(u: int, family: int, rendezvous: bool, c: Choice, os: Option<SockAddr>, done: Status)
    | DoListen(u: int, backlog: int, ok: bool)
    | Request(l: int, known: Option<int>, u: int, out: Outcome)
    | DoAccept(l: int, first: int)
    | DoClose(u: int)
    | Break(u: int)
    | Complete(u: int)
    | Collect(kept: set<int>, us: seq<int>, busy: set<int>)
    | Exit

  /** The address a socket is bound to if none was given. */
  function Auto(family: int): SockAddr {
    SockAddr(family, 0, 0)
  }

  ghost predicate SearchOk(b: Books, u: int, addr: SockAddr, c: Choice) {
    u in b.sockets && b.sockets[u].status == INIT ==> Chosen(b.muxes, addr, b.sockets[u].config, c)
  }

  /** When a step can be taken. New identifiers are new; searches end as they do; a request comes to a listener, and the
      earlier socket of its peer is another one; a connection attempt ends in one of three ways. */
  ghost predicate Allowed(b: Books, used: set<int>, step: Step) {
    match step
    case Create(u, _) => u > 0 && u !in used
    case DoBind(u, addr, c, _) => (c.Shared? ==> c.id in b.muxes) && SearchOk(b, u, addr, c)
    case Connect(u, family, _, c, _, done) =>
      (c.Shared? ==> c.id in b.muxes) && SearchOk(b, u, Auto(family), c) && done in {OPENED, CONNECTING, CONNECTED}
    case Request(l, known, u, _) =>
      u > 0 && u !in used && known != Some(l) && (Located(b, l) ==> b.sockets[l].status == LISTENING)
    case _ => true
  }

  function Next(b: Books, step: Step): Books
    requires step.DoBind? || step.Connect? ==> (step.c.Shared? ==> step.c.id in b.muxes)
    requires step.Request? || step.Create? ==> step.u !in b.sockets
  {
    match step
    case Create(u, config) => b.(sockets := b.sockets[u := NewSocket(config)])
    case DoBind(u, _, c, os) => Bind(b, u, c, os)
    case Attach(u, os) => Bind(b, u, Fresh, os)
    case Connect(u, family, rendezvous, c, os, done) => ConnectIn(b, u, family, rendezvous, c, os, done)
    case DoListen(u, backlog, ok) => Listen(b, u, backlog, ok)
    case Request(l, known, u, out) => NewConnection(b, l, known, u, out)
    case DoAccept(l, first) => Accept(b, l, first)
    case DoClose(u) => Close(b, u)
    case Break(u) => if u in b.sockets then b.(sockets := b.sockets[u := b.sockets[u].(broken := true)]) else b
    case Complete(u) =>
      if u in b.sockets && b.sockets[u].status == CONNECTING then WithStatus(b, u, CONNECTED) else b
    case Collect(kept, us, busy) => Collected(b, kept, us, busy)
    case Exit => AllMoved(b)
  }

  function UsedBy(step: Step): set<int> {
    if step.Create? || step.Request? then {step.u} else {}
  }

  lemma BindKeeps(b: Books, used: set<int>, u: int, c: Choice, os: Option<SockAddr>)
    requires Inv(b, used) && (c.Shared? ==> c.id in b.muxes)
    ensures Inv(Bind(b, u, c, os), used)
  {
    if u in b.sockets && b.sockets[u].status == INIT && Bound(c, os) {
      BoundKeeps(b, used, u, c, os, OPENED);
    }
  }

  lemma ConnectInKeeps(b: Books, used: set<int>, u: int, family: int, rendezvous: bool, c: Choice, os: Option<SockAddr>,
                       done: Status)
    requires Inv(b, used) && (c.Shared? ==> c.id in b.muxes) && Live(done)
    ensures Inv(ConnectIn(b, u, family, rendezvous, c, os, done), used)
  {
    if u in b.sockets {
      if b.sockets[u].status == INIT {
        if !rendezvous && Bound(c, os) {
          BoundKeeps(b, used, u, c, os, done);
        }
      } else if b.sockets[u].status == OPENED {
        TouchKeeps(b, used, u, b.sockets[u].(status := done));
      }
    }
  }

  lemma RequestKeeps(b: Books, used: set<int>, l: int, known: Option<int>, u: int, out: Outcome)
    requires Inv(b, used) && Allowed(b, used, Request(l, known, u, out))
    ensures u !in b.sockets && Inv(NewConnection(b, l, known, u, out), used + {u})
  {
    if Located(b, l) {
      var b1 := PeerDropped(b, l, known);
      PeerDroppedKeeps(b, used, l, known);
      ConnectedKeeps(b1, used, l, u, out);
      assert NewConnection(b, l, known, u, out) in {b, b1, Connected(b1, l, u, out)};
      assert Known(b, used + {u}) && Known(b1, used + {u});
    }
  }

  /** What the calls on one socket do to it. */
  lemma CallKeeps(b: Books, used: set<int>, step: Step)
    requires Inv(b, used)
    requires step.DoListen? || step.DoAccept? || step.DoClose? || step.Break? || step.Complete?
    ensures Inv(Next(b, step), used)
  {
    var u := match step case DoAccept(l, _) => l case DoListen(u, _, _) => u case DoClose(u) => u
                        case Break(u) => u case Complete(u) => u;
    if u in b.sockets {
      var b' := Next(b, step);
      if u in b'.sockets && b' != b {
        TouchKeeps(b, used, u, b'.sockets[u]);
      }
      MovedKeeps(b, used, u);
    }
  }

  lemma StepKeeps(b: Books, used: set<int>, step: Step)
    requires Inv(b, used) && Allowed(b, used, step)
    ensures step.Request? || step.Create? ==> step.u !in b.sockets
    ensures Inv(Next(b, step), used + UsedBy(step))
  {
    match step
    case Create(u, config) => NewSocketKeeps(b, used, u, NewSocket(config));
    case DoBind(u, _, c, os) => BindKeeps(b, used, u, c, os);
    case Attach(u, os) => BindKeeps(b, used, u, Fresh, os);
    case Connect(u, family, rendezvous, c, os, done) => ConnectInKeeps(b, used, u, family, rendezvous, c, os, done);
    case Request(l, known, u, out) => RequestKeeps(b, used, l, known, u, out);
    case Collect(kept, us, busy) =>
      BrokenMovedKeeps(b, used, ToClose(b, kept));
      AllRemovedKeeps(BrokenMoved(b, ToClose(b, kept)), used, us, busy);
    case Exit => AllMovedKeeps(b, used);
    case _ => CallKeeps(b, used, step);
  }

  ghost predicate Leads(b: Books, used: set<int>, steps: seq<Step>, b': Books)
    decreases |steps|
  {
    if steps == [] then b == b'
    else
      && Allowed(b, used, steps[0])
      && (steps[0].Request? || steps[0].Create? ==> steps[0].u !in b.sockets)
      && Leads(Next(b, steps[0]), used + UsedBy(steps[0]), steps[1..], b')
  }

  lemma {:induction false} RunKeeps(b: Books, used: set<int>, steps: seq<Step>, b': Books) returns (used': set<int>)
    requires Inv(b, used) && Leads(b, used, steps, b')
    ensures Inv(b', used')
    decreases |steps|
  {
    if steps == [] {
      used' := used;
    } else {
      StepKeeps(b, used, steps[0]);
      used' := RunKeeps(Next(b, steps[0]), used + UsedBy(steps[0]), steps[1..], b');
    }
  }

  /** In every reachable state: each multiplexer counts exactly the sockets, open or closed, that name it, and has at
      least one; the multiplexer that a socket names exists; every live socket names one; and no socket is both open and
      closed. */
  lemma CountsAreExact(steps: seq<Step>, b: Books)
    requires Leads(Books(map[], map[], map[]), {}, steps, b)
    ensures b.sockets.Keys !! b.closed.Keys
    ensures forall i :: i in b.muxes ==> 1 <= b.muxes[i].refCount == |Users(Ids(b), i)|
    ensures forall u :: u in Ids(b) ==> Ids(b)[u] == -1 || Ids(b)[u] in b.muxes
    ensures forall u :: u in b.sockets && Live(b.sockets[u].status) ==> b.sockets[u].muxId in b.muxes
  {
    InitInv();
    var used := RunKeeps(Books(map[], map[], map[]), {}, steps, b);
    forall u | u in b.sockets && Live(b.sockets[u].status) ensures b.sockets[u].muxId in b.muxes {
      assert Ids(b)[u] == b.sockets[u].muxId;
    }
  }

  lemma OtherUser(ids: map<int, int>, i: int, u: int)
    requires |Users(ids, i)| >= 1
    ensures Users(ids, i) != {u} <==> exists v :: v in ids && ids[v] == i && v != u
  {
    var us := Users(ids, i);
    assert forall v :: v in ids && ids[v] == i ==> v in us;
    if forall v :: v in us ==> v == u {
      assert us <= {u};
      assert us == {} || us == {u};
    } else {
      var v :| v in us && v != u;
      assert v in ids && ids[v] == i;
    }
  }

  lemma NoUsers(ids: map<int, int>, muxes: MuxMap)
    requires Exact(ids, muxes) && ids == map[]
    ensures muxes == map[]
  {
    forall i: int ensures i !in muxes {
      assert Users(ids, i) == {};
    }
  }

  /** When a socket is removed, its multiplexer goes if and only if no other socket names it, and no other multiplexer
      goes; in particular the multiplexer is never missing. */
  lemma GoesWithLast(steps: seq<Step>, b: Books, u: int, busy: set<int>)
    requires Leads(Books(map[], map[], map[]), {}, steps, b)
    requires u in b.closed && u !in busy
    ensures b.closed[u].muxId == -1 || b.closed[u].muxId in b.muxes
    ensures forall i :: i in b.muxes ==>
            (i in Removed(b, u, busy).muxes <==> exists v :: v in Ids(b) && Ids(b)[v] == i && v != u)
  {
    InitInv();
    var used := RunKeeps(Books(map[], map[], map[]), {}, steps, b);
    RemovedKeeps(b, used, u, busy);
    forall i | i in b.muxes
      ensures i in Removed(b, u, busy).muxes <==> exists v :: v in Ids(b) && Ids(b)[v] == i && v != u
    {
      OtherUser(Ids(b), i, u);
    }
  }

  lemma {:induction false} AllRemovedIs(b: Books, us: seq<int>)
    requires b.sockets == map[]
    ensures AllRemoved(b, us, {}).sockets == map[]
    ensures AllRemoved(b, us, {}).closed.Keys == b.closed.Keys - set u | u in us
    decreases |us|
  {
    if us != [] {
      var b1 := Removed(b, us[0], {});
      assert b1.closed.Keys == b.closed.Keys - {us[0]};
      AllRemovedIs(b1, us[1..]);
      assert (set u | u in us) == {us[0]} + set u | u in us[1..];
    }
  }

  lemma NothingOpen(b: Books, tbc: set<int>)
    requires b.sockets == map[]
    ensures BrokenMoved(b, tbc).sockets == map[] && BrokenMoved(b, tbc).closed.Keys == b.closed.Keys
  {
  }

  /** After the global exit, once every closed socket was collected, no multiplexer is left. */
  lemma ExitReleasesAll(steps: seq<Step>, b: Books, us: seq<int>)
    requires Leads(Books(map[], map[], map[]), {}, steps, b)
    requires forall u :: u in AllMoved(b).closed ==> u in us
    ensures Collected(AllMoved(b), {}, us, {}) == Books(map[], map[], map[])
  {
    InitInv();
    var used := RunKeeps(Books(map[], map[], map[]), {}, steps, b);
    AllMovedKeeps(b, used);
    var b0 := AllMoved(b);
    var b1 := BrokenMoved(b0, ToClose(b0, {}));
    BrokenMovedKeeps(b0, used, ToClose(b0, {}));
    NothingOpen(b0, ToClose(b0, {}));
    AllRemovedKeeps(b1, used, us, {});
    AllRemovedIs(b1, us);
    var b2 := AllRemoved(b1, us, {});
    assert b2.closed == map[];
    assert Ids(b2) == map[];
    NoUsers(Ids(b2), b2.muxes);
  }
}
