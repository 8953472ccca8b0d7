/** The calls and the collector themselves (CUDTUnited), each proved to take the step that SocketTable describes. */
module United {
  import opened Packets
  import opened SocketTable

  /** The first loop of the collector marks the sockets of `tbc`; they are moved after it. */
  function Marked(b: Books, tbc: set<int>): Books {
    b.(sockets := map v | v in b.sockets ::
         Unqueued(if v in tbc then Shut(b.sockets[v]) else b.sockets[v], Leaving(b.sockets, tbc, v)),
       closed := map v | v in b.closed :: Unqueued(b.closed[v], Leaving(b.sockets, tbc, v)))
  }

  function UnqueuedAt(m: map<int, Socket>, l: int, u: int): map<int, Socket> {
    if l in m then m[l := Unqueued(m[l], {u})] else m
  }

  /** One socket is marked, and leaves the queue of its listener, open or closed. */
  function MarkOne(b: Books, u: int): Books
    requires u in b.sockets
  {
    var ss := b.sockets[u := Shut(b.sockets[u])];
    var l := ss[u].listener;
    if l in ss then b.(sockets := UnqueuedAt(ss, l, u)) else b.(sockets := ss, closed := UnqueuedAt(b.closed, l, u))
  }

  lemma LeavingMore(sockets: map<int, Socket>, tbc: set<int>, u: int, v: int)
    requires u in sockets
    ensures Leaving(sockets, tbc + {u}, v) ==
            Leaving(sockets, tbc, v) + if sockets[u].listener == v then {u} else {}
  {
  }

  lemma UnqueuedMore(s: Socket, us: set<int>, u: int)
    ensures Unqueued(Unqueued(s, us), {u}) == Unqueued(s, us + {u}) && Unqueued(s, us + {}) == Unqueued(s, us)
    ensures Shut(Unqueued(s, us)) == Unqueued(Shut(s), us)
  {
    assert s.queued - us - {u} == s.queued - (us + {u});
    assert us + {} == us;
  }

  lemma MarkedIs(b: Books, tbc: set<int>, u: int)
    requires u in b.sockets
    ensures u in Marked(b, tbc).sockets && Marked(b, tbc).sockets[u].broken == b.sockets[u].broken
  {
  }

  lemma ToCloseLess(b: Books, kept: set<int>, todo: set<int>, u: int)
    requires u in todo && u in b.sockets
    ensures ToClose(b, kept) - (todo - {u}) ==
            ToClose(b, kept) - todo + if b.sockets[u].broken && u !in kept then {u} else {}
  {
  }

  lemma MarkOneMore(b: Books, tbc: set<int>, u: int)
    requires u in b.sockets && b.sockets.Keys !! b.closed.Keys
    ensures MarkOne(Marked(b, tbc), u) == Marked(b, tbc + {u})
  {
    var b1, b2 := MarkOne(Marked(b, tbc), u), Marked(b, tbc + {u});
    forall v | v in b.sockets ensures b1.sockets[v] == b2.sockets[v] {
      MarkedSocket(b, tbc, u, v);
    }
    forall v | v in b.closed ensures b1.closed[v] == b2.closed[v] {
      LeavingMore(b.sockets, tbc, u, v);
      UnqueuedMore(b.closed[v], Leaving(b.sockets, tbc, v), u);
    }
    assert b1.sockets.Keys == b2.sockets.Keys;
    assert b1.closed.Keys == b2.closed.Keys;
    assert b1.sockets == b2.sockets && b1.closed == b2.closed;
  }

  lemma MarkedSocket(b: Books, tbc: set<int>, u: int, v: int)
    requires u in b.sockets && v in b.sockets
    ensures MarkOne(Marked(b, tbc), u).sockets[v] == Marked(b, tbc + {u}).sockets[v]
  {
    LeavingMore(b.sockets, tbc, u, v);
    UnqueuedMore(b.sockets[v], Leaving(b.sockets, tbc, v), u);
    UnqueuedMore(Shut(b.sockets[v]), Leaving(b.sockets, tbc, v), u);
  }

  /** One round of the first loop. */
  lemma MarkStep(b: Books, cur: Books, kept: set<int>, tbc: set<int>, todo: set<int>, u: int)
    requires cur == Marked(b, tbc) && u in todo && todo <= b.sockets.Keys && b.sockets.Keys !! b.closed.Keys
    requires tbc == ToClose(b, kept) - todo
    ensures u in cur.sockets
    ensures var tbc' := if cur.sockets[u].broken && u !in kept then tbc + {u} else tbc;
            && tbc' == ToClose(b, kept) - (todo - {u})
            && Marked(b, tbc') == if tbc' == tbc then cur else MarkOne(cur, u)
  {
    MarkedIs(b, tbc, u);
    ToCloseLess(b, kept, todo, u);
    MarkOneMore(b, tbc, u);
  }

  lemma NoneMarked(b: Books)
    ensures Marked(b, {}) == b
  {
    forall v: int ensures Leaving(b.sockets, {}, v) == {} {
    }
    assert forall s: Socket :: Unqueued(s, {}) == s;
    assert Marked(b, {}).sockets == b.sockets && Marked(b, {}).closed == b.closed;
  }

  /** The marked sockets are moved. */
  function MarkedMoved(b: Books, tbc: set<int>): Books {
    b.(sockets := b.sockets - tbc, closed := b.closed + map u | u in b.sockets && u in tbc :: b.sockets[u])
  }

  lemma MarkedMovedIs(b: Books, tbc: set<int>)
    requires b.sockets.Keys !! b.closed.Keys
    ensures MarkedMoved(Marked(b, tbc), tbc) == BrokenMoved(b, tbc)
  {
    var b1, b2 := MarkedMoved(Marked(b, tbc), tbc), BrokenMoved(b, tbc);
    assert b1.sockets == b2.sockets;
    assert b1.closed.Keys == b2.closed.Keys;
    forall v | v in b1.closed ensures b1.closed[v] == b2.closed[v] {
    }
  }

  /** Of the sockets waiting at a closed listener those in `q` are closed, one at a time. */
  lemma QueueClosedMore(b: Books, q: set<int>, u: int)
    requires u !in q
    ensures QueueClosed(b, q + {u}) ==
            if u in b.sockets then
              var b1 := QueueClosed(b, q);
              b1.(sockets := b1.sockets - {u}, closed := b1.closed[u := Shut(b.sockets[u]).(broken := true)])
            else QueueClosed(b, q)
  {
    var b1, b2 := QueueClosed(b, q), QueueClosed(b, q + {u});
    assert b2.sockets == b1.sockets - {u};
    if u in b.sockets {
      assert b2.closed == b1.closed[u := Shut(b.sockets[u]).(broken := true)];
    } else {
      assert b2.sockets == b1.sockets;
      assert b2.closed == b1.closed;
    }
  }

  lemma {:induction false} AllRemovedAppend(b: Books, us: seq<int>, u: int, busy: set<int>)
    ensures AllRemoved(b, us + [u], busy) == Removed(AllRemoved(b, us, busy), u, busy)
    decreases |us|
  {
    if us == [] {
      assert us + [u] == [u];
    } else {
      assert (us + [u])[1..] == us[1..] + [u];
      AllRemovedAppend(Removed(b, us[0], busy), us[1..], u, busy);
    }
  }

  lemma AnyOf<T>(s: set<T>) returns (x: T)
    requires s != {}
    ensures x in s
  {
    x :| x in s;
  }

  lemma {:induction false} LeastExists(s: set<int>)
    requires s != {}
    ensures exists m :: m in s && forall n :: n in s ==> m <= n
    decreases |s|
  {
    var x := AnyOf(s);
    if s != {x} {
      var t := s - {x};
      assert s == t + {x} && (t == {} ==> t + {x} == {x});
      LeastExists(t);
      var m :| m in t && forall n :: n in t ==> m <= n;
      var k := if m <= x then m else x;
      assert forall n :: n in s ==> n == x || n in t;
      assert k in s && forall n :: n in s ==> k <= n;
    }
  }

  /** Maps are gone through in the order of their keys. */
  method Least(s: set<int>) returns (m: int)
    requires s != {}
    ensures m in s && forall n :: n in s ==> m <= n
  {
    LeastExists(s);
    m :| m in s && forall n :: n in s ==> m <= n;
  }

  class CUDTUnited {
    var sockets: map<int, Socket>
    var closed: map<int, Socket>
    var muxes: MuxMap

    function View(): Books
      reads this
    {
      Books(sockets, closed, muxes)
    }

    constructor ()
      ensures View() == Books(map[], map[], map[])
    {
      sockets := map[];
      closed := map[];
      muxes := map[];
    }

    method Open(u: int, config: Config)
      requires u !in sockets
      modifies this
      ensures View() == old(View()).(sockets := old(sockets)[u := NewSocket(config)])
    {
      sockets := sockets[u := NewSocket(config)];
    }

    /** The first multiplexer that is one to share or in conflict, if there is any. */
    method FindMux(u: int, addr: SockAddr) returns (c: Choice)
      requires u in sockets
      ensures Chosen(muxes, addr, sockets[u].config, c) && (c.Shared? ==> c.id in muxes)
    {
      var config, todo := sockets[u].config, muxes.Keys;
      while todo != {}
        invariant todo <= muxes.Keys
        invariant forall i :: i in muxes && i !in todo ==> VerdictOf(muxes[i], addr, config) == Skip
        invariant forall i, j :: i in muxes && i !in todo && j in todo ==> i < j
        decreases |todo|
      {
        var i := Least(todo);
        match VerdictOf(muxes[i], addr, config) {
          case Reuse => return Shared(i);
          case Conflict =>
            assert Decides(muxes, addr, config, i);
            return Refused;
          case Skip => todo := todo - {i};
        }
      }
      return Fresh;
    }

    /** A multiplexer for socket `u`: an existing one, or a new one if none is in the way and the system can bind it. */
    method UpdateMux(u: int, addr: SockAddr, os: Option<SockAddr>) returns (ok: bool, c: Choice)
      requires u in sockets
      modifies this
      ensures Chosen(old(muxes), addr, old(sockets[u].config), c)
      ensures c.Shared? ==> c.id in old(muxes)
      ensures View() == MuxUpdated(old(View()), u, c, os) && ok == Bound(c, os)
    {
      c := FindMux(u, addr);
      match c {
        case Shared(i) =>
          var m := muxes[i];
          muxes := muxes[i := m.(refCount := m.refCount + 1)];
          sockets := sockets[u := sockets[u].(muxId := m.id, selfAddr := m.bound)];
          ok := true;
        case Refused => ok := false;
        case Fresh => ok := CreateMux(u, os);
      }
    }

    method CreateMux(u: int, os: Option<SockAddr>) returns (ok: bool)
      requires u in sockets
      modifies this
      ensures View() == MuxUpdated(old(View()), u, Fresh, os) && ok == os.Some?
    {
      if os == None {
        return false;
      }
      var m := Mux(u, os.value, os.value.family, 1, sockets[u].config);
      sockets := sockets[u := sockets[u].(muxId := u, selfAddr := os.value)];
      muxes := muxes[m.id := m];
      return true;
    }

    method Bind(u: int, addr: SockAddr, os: Option<SockAddr>) returns (ok: bool, ghost c: Choice)
      requires u in sockets
      modifies this
      ensures old(sockets[u].status) == INIT ==> Chosen(old(muxes), addr, old(sockets[u].config), c)
      ensures c.Shared? ==> c.id in old(muxes)
      ensures View() == SocketTable.Bind(old(View()), u, c, os)
      ensures ok <==> old(sockets[u].status) == INIT && Bound(c, os)
    {
      if sockets[u].status != INIT {
        return false, Refused;
      }
      ok, c := UpdateMux(u, addr, os);
      if ok {
        sockets := sockets[u := sockets[u].(status := OPENED)];
      }
    }

    /** A socket is bound to a channel that the caller made. */
    method Attach(u: int, os: Option<SockAddr>) returns (ok: bool)
      requires u in sockets
      modifies this
      ensures View() == SocketTable.Bind(old(View()), u, Fresh, os)
    {
      if sockets[u].status != INIT {
        return false;
      }
      ok := CreateMux(u, os);
      if ok {
        sockets := sockets[u := sockets[u].(status := OPENED)];
      }
    }

    method ConnectIn(u: int, family: int, rendezvous: bool, os: Option<SockAddr>, done: Status)
      returns (ok: bool, ghost c: Choice)
      requires u in sockets
      modifies this
      ensures old(sockets[u].status) == INIT && !rendezvous ==>
                Chosen(old(muxes), SockAddr(family, 0, 0), old(sockets[u].config), c)
      ensures c.Shared? ==> c.id in old(muxes)
      ensures View() == SocketTable.ConnectIn(old(View()), u, family, rendezvous, c, os, done)
    {
      c := Refused;
      if sockets[u].status == INIT {
        if rendezvous {
          return false, c;
        }
        ok, c := UpdateMux(u, SockAddr(family, 0, 0), os);
        if !ok {
          return;
        }
      } else if sockets[u].status != OPENED || family != sockets[u].selfAddr.family {
        return false, c;
      }
      sockets := sockets[u := sockets[u].(status := done)];
      ok := done != OPENED;
    }

    method Listen(u: int, backlog: int, able: bool)
      modifies this
      ensures View() == SocketTable.Listen(old(View()), u, backlog, able)
    {
      if backlog <= 0 || !Located(View(), u) || sockets[u].status != OPENED || !able {
        return;
      }
      sockets := sockets[u := sockets[u].(backlog := backlog, status := LISTENING)];
    }

    method Accept(l: int) returns (u: Option<int>)
      modifies this
      ensures u.Some? ==> l in old(sockets) && u.value in old(sockets[l].queued)
      ensures u.Some? ==> forall v :: v in old(sockets[l].queued) ==> u.value <= v
      ensures View() == if u.Some? then SocketTable.Accept(old(View()), l, u.value) else old(View())
    {
      u := None;
      if Located(View(), l) && sockets[l].status == LISTENING && !sockets[l].broken && sockets[l].queued != {} {
        var first := Least(sockets[l].queued);
        sockets := sockets[l := sockets[l].(queued := sockets[l].queued - {first})];
        u := Some(first);
      }
    }

    /** The new socket joins the multiplexer of its listener. */
    method UpdateListenerMux(u: int, l: int) returns (found: bool)
      requires u in sockets && l in sockets
      modifies this
      ensures View() == ListenerJoined(old(View()), u, l) && found == (old(sockets[l].muxId) in old(muxes))
    {
      var i := sockets[l].muxId;
      found := i in muxes;
      if found {
        var m := muxes[i];
        muxes := muxes[i := m.(refCount := m.refCount + 1)];
        sockets := sockets[u := sockets[u].(muxId := m.id)];
      }
    }

    method MoveToClosed(u: int)
      requires u in sockets
      modifies this
      ensures View() == Moved(old(View()), u)
    {
      var s := sockets[u].(status := CLOSED);
      sockets := sockets - {u};
      closed := closed[u := s];
    }

    method NewConnection(l: int, known: Option<int>, u: int, out: Outcome)
      requires u !in sockets
      modifies this
      ensures View() == SocketTable.NewConnection(old(View()), l, known, u, out)
    {
      if !Located(View(), l) {
        return;
      }
      if known.Some? && known.value in sockets {
        var k := known.value;
        if !sockets[k].broken {
          return;
        }
        sockets := sockets[k := sockets[k].(status := CLOSED)];
        sockets := sockets[l := sockets[l].(queued := sockets[l].queued - {k})];
      }
      if |sockets[l].queued| < sockets[l].backlog {
        CreateConnected(l, u, out);
      }
    }

    method CreateConnected(l: int, u: int, out: Outcome)
      requires l in sockets && u !in sockets
      modifies this
      ensures View() == SocketTable.Connected(old(View()), l, u, out)
    {
      sockets := sockets[u := SocketTable.NewSocket(sockets[l].config).(listener := l)];
      if out == Rejected {
        MoveToClosed(u);
        return;
      }
      var found := UpdateListenerMux(u, l);
      if out == Failed {
        MoveToClosed(u);
        return;
      }
      sockets := sockets[u := sockets[u].(status := CONNECTED)];
      sockets := sockets[l := sockets[l].(queued := sockets[l].queued + {u})];
      if out == FailedQueued {
        MoveToClosed(u);
      }
    }

    method Close(u: int)
      modifies this
      ensures View() == SocketTable.Close(old(View()), u)
    {
      if !Located(View(), u) {
        return;
      }
      if sockets[u].status == LISTENING {
        sockets := sockets[u := sockets[u].(broken := true)];
      } else {
        MoveToClosed(u);
      }
    }

    /** The sockets waiting at a closed listener are closed. */
    method CloseQueue(q: set<int>)
      modifies this
      ensures View() == QueueClosed(old(View()), q)
    {
      ghost var b := View();
      var todo := q;
      assert QueueClosed(b, {}) == b;
      assert q - todo == {};
      while todo != {}
        invariant todo <= q && View() == QueueClosed(b, q - todo)
        decreases |todo|
      {
        var u := Least(todo);
        QueueClosedMore(b, q - todo, u);
        assert q - (todo - {u}) == (q - todo) + {u};
        if u in sockets {
          var s := sockets[u].(status := CLOSED, broken := true);
          closed := closed[u := s];
          sockets := sockets - {u};
        }
        todo := todo - {u};
      }
      assert q - todo == q;
    }

    method RemoveSocket(u: int, busy: set<int>)
      modifies this
      ensures View() == Removed(old(View()), u, busy)
    {
      if u !in closed || u in busy {
        return;
      }
      var s := closed[u];
      CloseQueue(s.queued);
      closed := closed - {u};
      var mid := s.muxId;
      if mid == -1 || mid !in muxes {
        return;
      }
      var m := muxes[mid].(refCount := muxes[mid].refCount - 1);
      if m.refCount == 0 {
        muxes := muxes - {mid};
      } else {
        muxes := muxes[mid := m];
      }
    }

    method Mark(u: int)
      requires u in sockets
      modifies this
      ensures View() == MarkOne(old(View()), u)
    {
      sockets := sockets[u := sockets[u].(status := CLOSED)];
      var l := sockets[u].listener;
      if l in sockets {
        sockets := sockets[l := sockets[l].(queued := sockets[l].queued - {u})];
      } else if l in closed {
        closed := closed[l := closed[l].(queued := closed[l].queued - {u})];
      }
    }

    /** Broken sockets that nothing keeps open go to the closed ones. */
    method MoveBroken(kept: set<int>)
      requires sockets.Keys !! closed.Keys
      modifies this
      ensures View() == BrokenMoved(old(View()), ToClose(old(View()), kept))
    {
      ghost var b := View();
      var todo, tbc: set<int> := sockets.Keys, {};
      NoneMarked(b);
      while todo != {}
        invariant todo <= b.sockets.Keys && View() == Marked(b, tbc)
        invariant tbc == ToClose(b, kept) - todo
        decreases |todo|
      {
        var u := Least(todo);
        MarkStep(b, View(), kept, tbc, todo, u);
        if sockets[u].broken && u !in kept {
          Mark(u);
          tbc := tbc + {u};
        }
        todo := todo - {u};
      }
      MarkedMovedIs(b, tbc);
      MoveMarked(tbc);
      assert tbc == ToClose(b, kept);
    }

    method MoveMarked(tbc: set<int>)
      modifies this
      ensures View() == MarkedMoved(old(View()), tbc)
    {
      closed := closed + map u | u in sockets && u in tbc :: sockets[u];
      sockets := sockets - tbc;
    }

    /** At the global exit all sockets are broken and moved. */
    method MoveAll()
      requires sockets.Keys !! closed.Keys
      modifies this
      ensures View() == AllMoved(old(View()))
    {
      ghost var keys := sockets.Keys;
      sockets := map u | u in sockets :: sockets[u].(broken := true);
      assert ToClose(View(), {}) == keys;
      MoveBroken({});
    }

    /** One round of the collector. `kept` are the broken sockets that must wait, `due` those whose time after closing
        is over, and `busy` those a worker still has. */
    method CheckBrokenSockets(kept: set<int>, due: set<int>, busy: set<int>) returns (us: seq<int>)
      requires sockets.Keys !! closed.Keys
      modifies this
      ensures View() == Collected(old(View()), kept, us, busy)
      ensures forall u :: u in us <==> u in due && u in BrokenMoved(old(View()), ToClose(old(View()), kept)).closed
    {
      MoveBroken(kept);
      ghost var b := View();
      var tbr := closed.Keys * due;
      var todo := tbr;
      us := [];
      while todo != {}
        invariant todo <= tbr && View() == AllRemoved(b, us, busy)
        invariant forall u :: u in us <==> u in tbr && u !in todo
        decreases |todo|
      {
        var u := Least(todo);
        AllRemovedAppend(b, us, u, busy);
        RemoveSocket(u, busy);
        us := us + [u];
        todo := todo - {u};
      }
    }
  }
}
