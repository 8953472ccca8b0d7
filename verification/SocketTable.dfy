/** The books of the library: open sockets, closed sockets waiting to be collected, and the multiplexers they share
    (CUDTUnited). Each call is one step. */
module SocketTable {
  import opened Packets

  datatype Status = INIT | OPENED | LISTENING | CONNECTING | CONNECTED | CLOSED

  /** A port is 0 when the system is to choose it; address 0 is the wildcard. */
  datatype SockAddr = SockAddr(family: int, ip: int, port: nat) {
    predicate IsAny() { ip == 0 }

    predicate EqualAddress(a: SockAddr) { family == a.family && ip == a.ip }
  }

  /** `ipV6Only` is -1 if not set; `rest` stands for the other settings of the channel. */
  datatype Config = Config(reuseAddr: bool, ipV6Only: int, rest: int)

  datatype Socket = Socket(status: Status, muxId: int, listener: int, queued: set<int>, backlog: nat, broken: bool,
                           config: Config, selfAddr: SockAddr)

  datatype Mux = Mux(id: int, bound: SockAddr, ipVersion: int, refCount: int, config: Config)

  datatype Books = Books(sockets: map<int, Socket>, closed: map<int, Socket>, muxes: map<int, Mux>)

  type MuxMap = map<int, Mux>

  const NO_ADDR := SockAddr(0, 0, 0)

  function NewSocket(config: Config): Socket {
    Socket(INIT, -1, 0, {}, 0, false, config, NO_ADDR)
  }

  // ----- binding

  datatype Verdict = Skip | Reuse | Conflict

  predicate SettingsMatch(mux: Config, socket: Config) {
    mux.reuseAddr && mux == socket
  }

  /** What an existing multiplexer means for a socket to be bound to `addr`. */
  function VerdictOf(m: Mux, addr: SockAddr, config: Config): Verdict {
    var verdict := if SettingsMatch(m.config, config) then Reuse else Conflict;
    if m.bound.port != addr.port then Skip
    else if m.bound.IsAny() then
      if !addr.IsAny() then Conflict
      else if m.config.ipV6Only != -1 && m.config.ipV6Only != config.ipV6Only then Conflict
      else if (m.config.ipV6Only == 0 || config.ipV6Only == 0) && m.ipVersion != addr.family then Conflict
      else verdict
    else if addr.IsAny() && addr.family == m.bound.family then Conflict
    else if m.bound.EqualAddress(addr) then verdict
    else Skip
  }

  predicate AllSkip(muxes: MuxMap, addr: SockAddr, config: Config) {
    forall i :: i in muxes ==> VerdictOf(muxes[i], addr, config) == Skip
  }

  /** `i` is the first multiplexer, in the order of identifiers, that decides. */
  predicate Decides(muxes: MuxMap, addr: SockAddr, config: Config, i: int) {
    && i in muxes && VerdictOf(muxes[i], addr, config) != Skip
    && forall j :: j in muxes && j < i ==> VerdictOf(muxes[j], addr, config) == Skip
  }

  /** What the search comes to. */
  datatype Choice = Fresh | Shared(id: int) | Refused

  ghost predicate Chosen(muxes: MuxMap, addr: SockAddr, config: Config, c: Choice) {
    match c
    case Fresh => AllSkip(muxes, addr, config)
    case Shared(i) => Decides(muxes, addr, config, i) && VerdictOf(muxes[i], addr, config) == Reuse
    case Refused => exists i :: Decides(muxes, addr, config, i) && VerdictOf(muxes[i], addr, config) == Conflict
  }

  /** Socket `u` holds on to multiplexer `i`. */
  function Joined(b: Books, u: int, i: int): Books
    requires u in b.sockets && i in b.muxes
  {
    var m := b.muxes[i];
    b.(muxes := b.muxes[i := m.(refCount := m.refCount + 1)],
       sockets := b.sockets[u := b.sockets[u].(muxId := m.id, selfAddr := m.bound)])
  }

  /** Socket `u` gets a multiplexer of its own, which the system bound to `bound`. */
  function Founded(b: Books, u: int, bound: SockAddr): Books
    requires u in b.sockets
  {
    var s := b.sockets[u];
    b.(muxes := b.muxes[u := Mux(u, bound, bound.family, 1, s.config)],
       sockets := b.sockets[u := s.(muxId := u, selfAddr := bound)])
  }

  /** updateMux after the search; `os` is the address the system bound the channel to, if it could. */
  function MuxUpdated(b: Books, u: int, c: Choice, os: Option<SockAddr>): Books
    requires u in b.sockets && (c.Shared? ==> c.id in b.muxes)
  {
    match c
    case Fresh => if os.Some? then Founded(b, u, os.value) else b
    case Shared(i) => Joined(b, u, i)
    case Refused => b
  }

  predicate Bound(c: Choice, os: Option<SockAddr>) {
    c.Shared? || (c.Fresh? && os.Some?)
  }

  function WithStatus(b: Books, u: int, st: Status): Books
    requires u in b.sockets
  {
    b.(sockets := b.sockets[u := b.sockets[u].(status := st)])
  }

  // ----- closing

  function Shut(s: Socket): Socket {
    s.(status := CLOSED)
  }

  /** One socket goes from the open ones to the closed ones. */
  function Moved(b: Books, u: int): Books
    requires u in b.sockets
  {
    b.(sockets := b.sockets - {u}, closed := b.closed[u := Shut(b.sockets[u])])
  }

  /** Sockets accepted by `v`, of those that go. */
  function Leaving(sockets: map<int, Socket>, tbc: set<int>, v: int): set<int> {
    set u | u in tbc && u in sockets && sockets[u].listener == v
  }

  function Unqueued(s: Socket, us: set<int>): Socket {
    s.(queued := s.queued - us)
  }

  /** All sockets of `tbc` go, and leave the queues of their listeners. */
  function BrokenMoved(b: Books, tbc: set<int>): Books {
    b.(sockets := map v | v in b.sockets && v !in tbc :: Unqueued(b.sockets[v], Leaving(b.sockets, tbc, v)),
       closed := map v | v in b.closed.Keys + (b.sockets.Keys * tbc) ::
         if v in b.sockets && v in tbc then Unqueued(Shut(b.sockets[v]), Leaving(b.sockets, tbc, v))
         else Unqueued(b.closed[v], Leaving(b.sockets, tbc, v)))
  }

  /** Broken sockets that nothing keeps open: neither a pause for late clients nor data still to be read. */
  function ToClose(b: Books, kept: set<int>): set<int> {
    set u | u in b.sockets && b.sockets[u].broken && u !in kept
  }

  /** Sockets waiting to be accepted are closed with their listener. */
  function QueueClosed(b: Books, q: set<int>): Books {
    b.(sockets := b.sockets - q,
       closed := b.closed + map v | v in q && v in b.sockets :: Shut(b.sockets[v]).(broken := true))
  }

  function Released(muxes: MuxMap, i: int): MuxMap {
    if i == -1 || i !in muxes then muxes
    else if muxes[i].refCount == 1 then muxes - {i}
    else muxes[i := muxes[i].(refCount := muxes[i].refCount - 1)]
  }

  /** A closed socket is deleted, unless a worker still has it. */
  function Removed(b: Books, u: int, busy: set<int>): Books {
    if u !in b.closed || u in busy then b
    else
      var s := b.closed[u];
      var b1 := QueueClosed(b, s.queued);
      b1.(closed := b1.closed - {u}, muxes := Released(b1.muxes, s.muxId))
  }

  function AllRemoved(b: Books, us: seq<int>, busy: set<int>): Books
    decreases |us|
  {
    if us == [] then b else AllRemoved(Removed(b, us[0], busy), us[1..], busy)
  }

  // ----- connections

  /** How a connection request on a listener ends: refused before the new socket gets its multiplexer; failed after; as
      well, but when it was queued already; or accepted. */
  datatype Outcome = Rejected | Failed | FailedQueued | Accepted

  function Enqueued(b: Books, l: int, u: int): Books
    requires l in b.sockets
  {
    b.(sockets := b.sockets[l := b.sockets[l].(queued := b.sockets[l].queued + {u})])
  }

  /** The multiplexer of the listener, with one user more. */
  function ListenerJoined(b: Books, u: int, l: int): Books
    requires u in b.sockets && l in b.sockets
  {
    var i := b.sockets[l].muxId;
    if i !in b.muxes then b
    else
      var m := b.muxes[i];
      b.(muxes := b.muxes[i := m.(refCount := m.refCount + 1)],
         sockets := b.sockets[u := b.sockets[u].(muxId := m.id)])
  }

  /** A repeated request whose socket is broken: that socket is closed and leaves the queue. */
  function PeerDropped(b: Books, l: int, known: Option<int>): Books
    requires l in b.sockets
  {
    if known.Some? && known.value in b.sockets && b.sockets[known.value].broken then
      var b1 := WithStatus(b, known.value, CLOSED);
      b1.(sockets := b1.sockets[l := Unqueued(b1.sockets[l], {known.value})])
    else b
  }

  function Connected(b: Books, l: int, u: int, out: Outcome): Books
    requires l in b.sockets && u !in b.sockets
  {
    var b1 := b.(sockets := b.sockets[u := NewSocket(b.sockets[l].config).(listener := l)]);
    if out == Rejected then Moved(b1, u)
    else
      var b2 := ListenerJoined(b1, u, l);
      if out == Failed then Moved(b2, u)
      else
        var b3 := Enqueued(WithStatus(b2, u, CONNECTED), l, u);
        if out == Accepted then b3 else Moved(b3, u)
  }

  /** locateSocket. */
  predicate Located(b: Books, u: int) {
    u in b.sockets && b.sockets[u].status != CLOSED
  }

  /** A connection request; `known` is the socket of an earlier request of the same peer. */
  function NewConnection(b: Books, l: int, known: Option<int>, u: int, out: Outcome): Books
    requires u !in b.sockets
  {
    if !Located(b, l) then b
    else if known.Some? && known.value in b.sockets && !b.sockets[known.value].broken then b
    else
      var b1 := PeerDropped(b, l, known);
      if |b1.sockets[l].queued| >= b1.sockets[l].backlog then b1 else Connected(b1, l, u, out)
  }

  function AllBroken(b: Books): Books {
    b.(sockets := map v | v in b.sockets :: b.sockets[v].(broken := true))
  }

  /** The global exit breaks and moves all sockets. */
  function AllMoved(b: Books): Books {
    BrokenMoved(AllBroken(b), b.sockets.Keys)
  }

  // ----- calls

  function Bind(b: Books, u: int, c: Choice, os: Option<SockAddr>): Books
    requires c.Shared? ==> c.id in b.muxes
  {
    if u !in b.sockets || b.sockets[u].status != INIT then b
    else if !Bound(c, os) then b
    else WithStatus(MuxUpdated(b, u, c, os), u, OPENED)
  }

  /** `done` is the status that the attempt to connect leaves. */
  function ConnectIn(b: Books, u: int, family: int, rendezvous: bool, c: Choice, os: Option<SockAddr>,
                     done: Status): Books
    requires c.Shared? ==> c.id in b.muxes
  {
    if u !in b.sockets then b
    else if b.sockets[u].status == INIT then
      if rendezvous || !Bound(c, os) then b else WithStatus(MuxUpdated(b, u, c, os), u, done)
    else if b.sockets[u].status != OPENED || family != b.sockets[u].selfAddr.family then b
    else WithStatus(b, u, done)
  }

  function Listen(b: Books, u: int, backlog: int, ok: bool): Books {
    if backlog <= 0 || !Located(b, u) || b.sockets[u].status != OPENED || !ok then b
    else b.(sockets := b.sockets[u := b.sockets[u].(backlog := backlog, status := LISTENING)])
  }

  /** The first of the queue is given out. */
  function Accept(b: Books, l: int, first: int): Books {
    if !Located(b, l) || b.sockets[l].status != LISTENING || b.sockets[l].broken then b
    else b.(sockets := b.sockets[l := Unqueued(b.sockets[l], {first})])
  }

  function Close(b: Books, u: int): Books {
    if !Located(b, u) then b
    else if b.sockets[u].status == LISTENING then b.(sockets := b.sockets[u := b.sockets[u].(broken := true)])
    else Moved(b, u)
  }

  /** One round of the collector; `us` are the closed sockets whose time is over. */
  function Collected(b: Books, kept: set<int>, us: seq<int>, busy: set<int>): Books {
    AllRemoved(BrokenMoved(b, ToClose(b, kept)), us, busy)
  }
}
