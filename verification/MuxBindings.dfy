/** No two multiplexers are bound where they would get in each other's way, as long as only the library binds. */
module MuxBindings {
  import opened Packets
  import opened SocketTable
  import opened MuxCounts

  /** On one port two addresses differ, and if one is the wildcard the other is a specific one of the other family. */
  predicate Apart(a: SockAddr, b: SockAddr) {
    a.port == b.port ==>
      && !a.EqualAddress(b)
      && !(a.IsAny() && b.IsAny())
      && (a.IsAny() || b.IsAny() ==> a.family != b.family)
  }

  ghost predicate AllApart(muxes: MuxMap) {
    forall i, j :: i in muxes && j in muxes && i != j ==> Apart(muxes[i].bound, muxes[j].bound)
  }

  /** The system binds to the address asked for, and chooses a port that none of the multiplexers has. */
  ghost predicate BindsAsAsked(muxes: MuxMap, addr: SockAddr, os: Option<SockAddr>) {
    os.Some? ==>
      && os.value.family == addr.family && os.value.ip == addr.ip
      && (addr.port != 0 ==> os.value.port == addr.port)
      && (addr.port == 0 ==> forall i :: i in muxes ==> muxes[i].bound.port != os.value.port)
  }

  /** The multiplexers are some of the old ones, bound as before. */
  ghost predicate Within(muxes': MuxMap, muxes: MuxMap) {
    forall i :: i in muxes' ==> i in muxes && muxes'[i].bound == muxes[i].bound
  }

  lemma WithinKeeps(muxes': MuxMap, muxes: MuxMap)
    requires AllApart(muxes) && Within(muxes', muxes)
    ensures AllApart(muxes')
  {
  }

  /** A new multiplexer is bound only where no other is in the way. */
  lemma FoundedApart(muxes: MuxMap, addr: SockAddr, config: Config, os: Option<SockAddr>, u: int, m: Mux)
    requires AllApart(muxes) && AllSkip(muxes, addr, config) && BindsAsAsked(muxes, addr, os)
    requires os.Some? && m.bound == os.value
    ensures AllApart(muxes[u := m])
  {
    forall i | i in muxes ensures Apart(muxes[i].bound, m.bound) && Apart(m.bound, muxes[i].bound) {
      assert VerdictOf(muxes[i], addr, config) == Skip;
    }
  }

  lemma BoundApart(b: Books, u: int, addr: SockAddr, c: Choice, os: Option<SockAddr>)
    requires AllApart(b.muxes) && u in b.sockets && (c.Shared? ==> c.id in b.muxes)
    requires Chosen(b.muxes, addr, b.sockets[u].config, c) && BindsAsAsked(b.muxes, addr, os)
    ensures AllApart(MuxUpdated(b, u, c, os).muxes)
  {
    if c.Fresh? && os.Some? {
      FoundedApart(b.muxes, addr, b.sockets[u].config, os, u, MuxUpdated(b, u, c, os).muxes[u]);
    } else {
      WithinKeeps(MuxUpdated(b, u, c, os).muxes, b.muxes);
    }
  }

  lemma RemovedWithin(b: Books, u: int, busy: set<int>)
    ensures Within(Removed(b, u, busy).muxes, b.muxes)
  {
  }

  lemma {:induction false} AllRemovedWithin(b: Books, us: seq<int>, busy: set<int>)
    ensures Within(AllRemoved(b, us, busy).muxes, b.muxes)
    decreases |us|
  {
    if us != [] {
      RemovedWithin(b, us[0], busy);
      AllRemovedWithin(Removed(b, us[0], busy), us[1..], busy);
    }
  }

  lemma RequestWithin(b: Books, l: int, known: Option<int>, u: int, out: Outcome)
    requires u !in b.sockets
    ensures Within(NewConnection(b, l, known, u, out).muxes, b.muxes)
  {
  }

  /** Every socket is bound by its address, not to a channel that the caller made. */
  ghost predicate Asked(b: Books, step: Step) {
    match step
    case DoBind(_, addr, _, os) => BindsAsAsked(b.muxes, addr, os)
    case Connect(_, family, _, _, os, _) => BindsAsAsked(b.muxes, Auto(family), os)
    case Attach(_, _) => false
    case _ => true
  }

  lemma StepKeepsApart(b: Books, used: set<int>, step: Step)
    requires AllApart(b.muxes) && Allowed(b, used, step) && Asked(b, step)
    requires step.Request? || step.Create? ==> step.u !in b.sockets
    ensures AllApart(Next(b, step).muxes)
  {
    match step
    case DoBind(u, addr, c, os) =>
      if u in b.sockets && b.sockets[u].status == INIT && Bound(c, os) {
        BoundApart(b, u, addr, c, os);
      }
    case Connect(u, family, rendezvous, c, os, done) =>
      if u in b.sockets && b.sockets[u].status == INIT && !rendezvous && Bound(c, os) {
        BoundApart(b, u, Auto(family), c, os);
      }
    case Request(l, known, u, out) =>
      RequestWithin(b, l, known, u, out);
      WithinKeeps(Next(b, step).muxes, b.muxes);
    case Collect(kept, us, busy) =>
      AllRemovedWithin(BrokenMoved(b, ToClose(b, kept)), us, busy);
      WithinKeeps(Next(b, step).muxes, b.muxes);
    case _ =>
  }

  ghost predicate AllAsked(b: Books, used: set<int>, steps: seq<Step>)
    decreases |steps|
  {
    steps != [] && Allowed(b, used, steps[0]) && (steps[0].Request? || steps[0].Create? ==>
        steps[0].u !in b.sockets) ==>
      Asked(b, steps[0]) && AllAsked(Next(b, steps[0]), used + UsedBy(steps[0]), steps[1..])
  }

  lemma {:induction false} RunKeepsApart(b: Books, used: set<int>, steps: seq<Step>, b': Books)
    requires AllApart(b.muxes) && Leads(b, used, steps, b') && AllAsked(b, used, steps)
    ensures AllApart(b'.muxes)
    decreases |steps|
  {
    if steps != [] {
      StepKeepsApart(b, used, steps[0]);
      RunKeepsApart(Next(b, steps[0]), used + UsedBy(steps[0]), steps[1..], b');
    }
  }

  /** In every reachable state the multiplexers are bound apart: what a bind refuses, and what it shares, leaves no
      two in each other's way. */
  lemma BindingsStayApart(steps: seq<Step>, b: Books)
    requires Leads(Books(map[], map[], map[]), {}, steps, b) && AllAsked(Books(map[], map[], map[]), {}, steps)
    ensures AllApart(b.muxes)
  {
    RunKeepsApart(Books(map[], map[], map[]), {}, steps, b);
  }
}
