/** When a socket shares a multiplexer, when binding it is refused, and when it gets one of its own, told from ports,
    addresses, families and settings. */
module MuxChoice {
  import opened Packets
  import opened SocketTable
  import opened MuxCounts
  import opened MuxBindings

  /** Both are the wildcard; where IPv6 sockets are open for both families, the families agree. */
  predicate WildcardMatch(m: Mux, addr: SockAddr, config: Config) {
    && m.bound.ip == 0 && addr.ip == 0
    && (config.ipV6Only == 0 ==> m.ipVersion == addr.family)
  }

  /** The multiplexer may be shared: the port is the same, the address is the same, reuse is allowed, and all settings
      are equal. */
  predicate CanShare(m: Mux, addr: SockAddr, config: Config) {
    && m.bound.port == addr.port
    && m.config.reuseAddr && m.config == config
    && ((m.bound.ip != 0 && m.bound.ip == addr.ip && m.bound.family == addr.family) || WildcardMatch(m, addr, config))
  }

  /** On one port, one of two addresses is a wildcard that covers the other, or they are equal. A wildcard that is bound
      already covers everything, one that is asked for covers its own family. */
  predicate Overlaps(bound: SockAddr, addr: SockAddr) {
    && bound.port == addr.port
    && (|| bound.ip == 0
        || (addr.ip == 0 && addr.family == bound.family)
        || (addr.ip == bound.ip && addr.family == bound.family))
  }

  lemma VerdictIs(m: Mux, addr: SockAddr, config: Config)
    ensures VerdictOf(m, addr, config) == Reuse <==> CanShare(m, addr, config)
    ensures VerdictOf(m, addr, config) == Conflict <==> Overlaps(m.bound, addr) && !CanShare(m, addr, config)
    ensures VerdictOf(m, addr, config) == Skip <==> !Overlaps(m.bound, addr)
  {
  }

  /** What each outcome of the search means: the first multiplexer whose address overlaps can be shared, or cannot, or
      there is none. */
  lemma ChoiceMeans(muxes: MuxMap, addr: SockAddr, config: Config, c: Choice)
    requires Chosen(muxes, addr, config, c)
    ensures c.Shared? ==> c.id in muxes && CanShare(muxes[c.id], addr, config)
    ensures c == Refused ==>
            exists i :: i in muxes && Overlaps(muxes[i].bound, addr) && !CanShare(muxes[i], addr, config)
    ensures c == Fresh ==> forall i :: i in muxes ==> !Overlaps(muxes[i].bound, addr)
    ensures c.Shared? ==> forall j :: j in muxes && j < c.id ==> !Overlaps(muxes[j].bound, addr)
  {
    forall i | i in muxes
      ensures VerdictOf(muxes[i], addr, config) == Skip <==> !Overlaps(muxes[i].bound, addr)
      ensures VerdictOf(muxes[i], addr, config) == Reuse <==> CanShare(muxes[i], addr, config)
    {
      VerdictIs(muxes[i], addr, config);
    }
    if c == Refused {
      var i :| Decides(muxes, addr, config, i) && VerdictOf(muxes[i], addr, config) == Conflict;
      assert Overlaps(muxes[i].bound, addr) && !CanShare(muxes[i], addr, config);
    }
  }

  lemma DecidesOne(muxes: MuxMap, addr: SockAddr, config: Config, i: int, j: int)
    requires Decides(muxes, addr, config, i) && Decides(muxes, addr, config, j)
    ensures i == j
  {
    assert forall k :: k in muxes && (k < i || k < j) ==> VerdictOf(muxes[k], addr, config) == Skip;
  }

  /** Which multiplexer decided. */
  lemma DeciderOf(muxes: MuxMap, addr: SockAddr, config: Config, c: Choice) returns (i: int)
    requires Chosen(muxes, addr, config, c) && !c.Fresh?
    ensures Decides(muxes, addr, config, i) && (c.Shared? ==> i == c.id)
    ensures VerdictOf(muxes[i], addr, config) == if c.Shared? then Reuse else Conflict
  {
    if c.Shared? {
      i := c.id;
    } else {
      i :| Decides(muxes, addr, config, i) && VerdictOf(muxes[i], addr, config) == Conflict;
    }
  }

  /** The search has one outcome. */
  lemma ChoiceIsOne(muxes: MuxMap, addr: SockAddr, config: Config, c: Choice, c': Choice)
    requires Chosen(muxes, addr, config, c) && Chosen(muxes, addr, config, c')
    ensures c == c'
  {
    if !c.Fresh? && !c'.Fresh? {
      var i := DeciderOf(muxes, addr, config, c);
      var j := DeciderOf(muxes, addr, config, c');
      DecidesOne(muxes, addr, config, i, j);
    } else if !c.Fresh? {
      var i := DeciderOf(muxes, addr, config, c);
    } else if !c'.Fresh? {
      var j := DeciderOf(muxes, addr, config, c');
    }
  }

  /** A multiplexer that could be shared decides exactly if none before it, in the order of identifiers, overlaps. */
  lemma SharedIff(muxes: MuxMap, addr: SockAddr, config: Config, c: Choice, i: int)
    requires Chosen(muxes, addr, config, c) && i in muxes && CanShare(muxes[i], addr, config)
    ensures c == Shared(i) <==> forall j :: j in muxes && j < i ==> !Overlaps(muxes[j].bound, addr)
  {
    ChoiceMeans(muxes, addr, config, c);
    VerdictIs(muxes[i], addr, config);
    if forall j :: j in muxes && j < i ==> !Overlaps(muxes[j].bound, addr) {
      forall j | j in muxes && j < i ensures VerdictOf(muxes[j], addr, config) == Skip {
        VerdictIs(muxes[j], addr, config);
      }
      assert Decides(muxes, addr, config, i);
      ChoiceIsOne(muxes, addr, config, c, Shared(i));
    }
  }

  /** A wildcard binding of another family on the port of `bound`. */
  predicate OtherWildcard(a: SockAddr, bound: SockAddr) {
    a.port == bound.port && a.ip == 0 && bound.ip != 0 && a.family != bound.family
  }

  /** Where multiplexers are bound apart, only one thing overlaps with an address that is bound already: a wildcard of
      the other family. */
  lemma OnlyWildcardOverlaps(muxes: MuxMap, i: int, j: int)
    requires AllApart(muxes) && i in muxes && j in muxes && i != j
    ensures Overlaps(muxes[j].bound, muxes[i].bound) <==> OtherWildcard(muxes[j].bound, muxes[i].bound)
  {
    assert Apart(muxes[i].bound, muxes[j].bound) && Apart(muxes[j].bound, muxes[i].bound);
  }

  /** In every reachable state a socket that asks for the very address and settings of a multiplexer that allows reuse
      shares it, unless a wildcard of the other family comes before it on that port: exactly then it is refused. */
  lemma MatchIsShared(steps: seq<Step>, b: Books, config: Config, c: Choice, i: int)
    requires Leads(Books(map[], map[], map[]), {}, steps, b) && AllAsked(Books(map[], map[], map[]), {}, steps)
    requires i in b.muxes && CanShare(b.muxes[i], b.muxes[i].bound, config)
    requires Chosen(b.muxes, b.muxes[i].bound, config, c)
    ensures (forall j :: j in b.muxes && j < i ==> !OtherWildcard(b.muxes[j].bound, b.muxes[i].bound)) ==>
            c == Shared(i)
    ensures (exists j :: j in b.muxes && j < i && OtherWildcard(b.muxes[j].bound, b.muxes[i].bound)) ==> c == Refused
  {
    var addr := b.muxes[i].bound;
    BindingsStayApart(steps, b);
    SharedIff(b.muxes, addr, config, c, i);
    ChoiceMeans(b.muxes, addr, config, c);
    forall j | j in b.muxes && j != i ensures Overlaps(b.muxes[j].bound, addr) <==>
        OtherWildcard(b.muxes[j].bound, addr) {
      OnlyWildcardOverlaps(b.muxes, i, j);
    }
  }

  // ----- a match that is refused

  const V4 := SockAddr(2, 7, 9000)
  const ANY6 := SockAddr(10, 0, 9000)
  const PLAIN := Config(true, -1, 0)

  /** Identifiers count down: a specific address is bound, then the wildcard of the other family, then the specific
      address is asked for again. */
  const BINDS := [
    Create(30, PLAIN), DoBind(30, V4, Fresh, Some(V4)),
    Create(20, PLAIN), DoBind(20, ANY6, Fresh, Some(ANY6)),
    Create(10, PLAIN)]

  const BOUND30 := Socket(OPENED, 30, 0, {}, 0, false, PLAIN, V4)
  const BOUND20 := Socket(OPENED, 20, 0, {}, 0, false, PLAIN, ANY6)
  const NEW := Socket(INIT, -1, 0, {}, 0, false, PLAIN, NO_ADDR)
  const MUX30 := Mux(30, V4, 2, 1, PLAIN)
  const MUX20 := Mux(20, ANY6, 10, 1, PLAIN)

  const B0 := Books(map[], map[], map[])
  const B1 := Books(map[30 := NEW], map[], map[])
  const B2 := Books(map[30 := BOUND30], map[], map[30 := MUX30])
  const B3 := Books(map[30 := BOUND30, 20 := NEW], map[], map[30 := MUX30])
  const B4 := Books(map[30 := BOUND30, 20 := BOUND20], map[], map[30 := MUX30, 20 := MUX20])
  const B5 := Books(map[30 := BOUND30, 20 := BOUND20, 10 := NEW], map[], map[30 := MUX30, 20 := MUX20])

  lemma BindSteps()
    ensures Allowed(B0, {}, BINDS[0]) && Next(B0, BINDS[0]) == B1
    ensures Allowed(B1, {30}, BINDS[1]) && Next(B1, BINDS[1]) == B2
    ensures Allowed(B2, {30}, BINDS[2]) && Next(B2, BINDS[2]) == B3
    ensures Allowed(B3, {30, 20}, BINDS[3]) && Next(B3, BINDS[3]) == B4
    ensures Allowed(B4, {30, 20}, BINDS[4]) && Next(B4, BINDS[4]) == B5
  {
    assert Next(B1, BINDS[1]).sockets == B2.sockets && Next(B1, BINDS[1]).muxes == B2.muxes;
    assert Next(B3, BINDS[3]).sockets == B4.sockets && Next(B3, BINDS[3]).muxes == B4.muxes;
  }

  lemma BindsLead()
    ensures Leads(B0, {}, BINDS, B5)
  {
    BindSteps();
    assert BINDS[1..][0] == BINDS[1] && BINDS[1..][1..] == BINDS[2..] && BINDS[2..][1..] == BINDS[3..];
    assert BINDS[3..][1..] == BINDS[4..] && BINDS[4..][1..] == [];
    assert {} + UsedBy(BINDS[0]) == {30} && {30} + UsedBy(BINDS[1]) == {30} && {30} + UsedBy(BINDS[2]) == {30, 20};
    assert {30, 20} + UsedBy(BINDS[3]) == {30, 20};
    assert Leads(B5, {30, 20} + UsedBy(BINDS[4]), [], B5);
    assert Leads(B4, {30, 20}, BINDS[4..], B5);
    assert Leads(B3, {30, 20}, BINDS[3..], B5);
    assert Leads(B2, {30}, BINDS[2..], B5);
    assert Leads(B1, {30}, BINDS[1..], B5);
  }

  /** It happens: the socket asks for the address and the settings of a multiplexer that may be shared, and is
      refused. */
  lemma MatchIsRefused()
    ensures Leads(Books(map[], map[], map[]), {}, BINDS, B5)
    ensures CanShare(B5.muxes[30], V4, B5.sockets[10].config) && B5.sockets[10].status == INIT
    ensures Chosen(B5.muxes, V4, B5.sockets[10].config, Refused)
  {
    BindsLead();
    assert VerdictOf(B5.muxes[20], V4, PLAIN) == Conflict;
    assert Decides(B5.muxes, V4, PLAIN, 20);
  }
}
