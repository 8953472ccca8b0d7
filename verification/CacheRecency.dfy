/** The address cache seen from outside: a list of address blocks, the one updated last in front (CInfoBlock, and what
    CCache promises). */
module CacheRecency {
  import opened Packets

  const AF_INET := 2

  type Word = w: int | 0 <= w < 0x1_0000_0000

  /** The words of an address in machine order. */
  datatype Ip = Ip(w0: Word, w1: Word, w2: Word, w3: Word)

  datatype InfoBlock = InfoBlock(ip: Ip, ipVersion: int, timeStamp: nat, srtt: int, bandwidth: int, lossRate: int,
                                 reorderDistance: int, interval: real, cWnd: real)

  /** operator==: only addresses are compared, and only one word of an IPv4 address. */
  predicate SameKey(a: InfoBlock, b: InfoBlock) {
    if a.ipVersion != b.ipVersion then false
    else if a.ipVersion == AF_INET then a.ip.w0 == b.ip.w0
    else a.ip == b.ip
  }

  /** An unsigned word read as a signed one. */
  function Signed(w: Word): int {
    if w < 0x8000_0000 then w else w - 0x1_0000_0000
  }

  function GetKey(b: InfoBlock): int {
    Signed(if b.ipVersion == AF_INET then b.ip.w0 else (b.ip.w0 + b.ip.w1 + b.ip.w2 + b.ip.w3) % 0x1_0000_0000)
  }

  /** What an address block is the block of. */
  datatype Host = Host(ipVersion: int, ip: Ip)

  function HostOf(b: InfoBlock): Host {
    Host(b.ipVersion, if b.ipVersion == AF_INET then Ip(b.ip.w0, 0, 0, 0) else b.ip)
  }

  /** Comparison is equality of hosts, and equal blocks have equal hash keys. */
  lemma SameKeyIff(a: InfoBlock, b: InfoBlock)
    ensures SameKey(a, b) <==> HostOf(a) == HostOf(b)
    ensures SameKey(a, b) ==> GetKey(a) == GetKey(b)
  {
  }

  /** The hash key is the sum of the address words, of which an IPv4 address has one, in 32 bits with a sign; so an IPv4
      address is refused exactly if its word has the highest bit. */
  lemma GetKeyIs(b: InfoBlock)
    ensures var sum := if b.ipVersion == AF_INET then b.ip.w0 as int
                       else b.ip.w0 as int + b.ip.w1 as int + b.ip.w2 as int + b.ip.w3 as int;
            && -0x8000_0000 <= GetKey(b) < 0x8000_0000
            && exists q: int :: GetKey(b) == sum - q * 0x1_0000_0000
    ensures b.ipVersion == AF_INET ==> (GetKey(b) < 0 <==> b.ip.w0 >= 0x8000_0000)
  {
    var sum := if b.ipVersion == AF_INET then b.ip.w0 as int
               else b.ip.w0 as int + b.ip.w1 as int + b.ip.w2 as int + b.ip.w3 as int;
    var q := sum / 0x1_0000_0000;
    assert sum % 0x1_0000_0000 == sum - q * 0x1_0000_0000;
    assert GetKey(b) == sum - q * 0x1_0000_0000 || GetKey(b) == sum - (q + 1) * 0x1_0000_0000;
  }

  function Find(s: seq<InfoBlock>, h: Host): (r: Option<InfoBlock>)
    ensures r.Some? ==> r.value in s && HostOf(r.value) == h
  {
    if s == [] then None
    else if HostOf(s[0]) == h then Some(s[0])
    else Find(s[1..], h)
  }

  function Without(s: seq<InfoBlock>, h: Host): (r: seq<InfoBlock>)
    ensures |r| <= |s|
  {
    if s == [] then []
    else if HostOf(s[0]) == h then Without(s[1..], h)
    else [s[0]] + Without(s[1..], h)
  }

  /** The first `n` elements, if there are that many. */
  function Take(s: seq<InfoBlock>, n: nat): seq<InfoBlock> {
    if |s| <= n then s else s[..n]
  }

  /** A block whose hash key is negative is refused. */
  function Lookup(s: seq<InfoBlock>, d: InfoBlock): Option<InfoBlock> {
    if GetKey(d) < 0 then None else Find(s, HostOf(d))
  }

  /** The block comes to the front, in place of an older one of the same host. */
  function Recent(s: seq<InfoBlock>, d: InfoBlock): (r: seq<InfoBlock>)
  {
    if GetKey(d) < 0 then s else [d] + Without(s, HostOf(d))
  }

  /** A cache of size `max` keeps one block less. */
  function Updated(s: seq<InfoBlock>, d: InfoBlock, max: nat): (r: seq<InfoBlock>)
    requires max >= 1
  {
    Take(Recent(s, d), max - 1)
  }

  ghost predicate Distinct(s: seq<InfoBlock>) {
    forall i, j :: 0 <= i < j < |s| ==> HostOf(s[i]) != HostOf(s[j])
  }

  // ----- one host

  /** The blocks in front of those of host `h`. */
  function Front(s: seq<InfoBlock>, h: Host): (r: seq<InfoBlock>)
    ensures |r| <= |s|
  {
    if s == [] || HostOf(s[0]) == h then [] else [s[0]] + Front(s[1..], h)
  }

  function Hosts(s: seq<InfoBlock>): set<Host> {
    set b | b in s :: HostOf(b)
  }

  lemma {:induction false} WithoutOther(s: seq<InfoBlock>, g: Host, h: Host)
    requires g != h
    ensures Find(Without(s, g), h) == Find(s, h)
    ensures Hosts(Front(Without(s, g), h)) == Hosts(Front(s, h)) - {g}
  {
    if s != [] {
      WithoutOther(s[1..], g, h);
      HostsCons(s[0], Front(s[1..], h));
      HostsCons(s[0], Front(Without(s[1..], g), h));
    }
  }

  lemma HostsCons(b: InfoBlock, s: seq<InfoBlock>)
    ensures Hosts([b] + s) == {HostOf(b)} + Hosts(s)
  {
    assert forall x :: x in [b] + s <==> x == b || x in s;
  }

  lemma {:induction false} WithoutAny(s: seq<InfoBlock>, g: Host)
    ensures forall b :: b in Without(s, g) <==> b in s && HostOf(b) != g
    ensures Distinct(s) ==> Distinct(Without(s, g))
  {
    if s != [] {
      WithoutAny(s[1..], g);
      assert forall b :: b in s <==> b == s[0] || b in s[1..];
    }
  }

  lemma {:induction false} FrontDistinct(s: seq<InfoBlock>, h: Host)
    requires Distinct(s)
    ensures |Hosts(Front(s, h))| == |Front(s, h)|
    ensures forall b :: b in Front(s, h) ==> b in s
  {
    if s != [] && HostOf(s[0]) != h {
      FrontDistinct(s[1..], h);
      HostsCons(s[0], Front(s[1..], h));
      assert HostOf(s[0]) !in Hosts(Front(s[1..], h));
    }
  }

  lemma {:induction false} FindInTake(s: seq<InfoBlock>, h: Host, n: nat)
    ensures Find(Take(s, n), h) == if |Front(s, h)| < n then Find(s, h) else None
  {
    if s != [] && n > 0 {
      TakeTail(s, n);
      if HostOf(s[0]) != h {
        FindInTake(s[1..], h, n - 1);
      }
    }
  }

  // ----- eviction only shortens

  lemma {:induction false} WithoutAbsent(s: seq<InfoBlock>, h: Host)
    requires forall b :: b in s ==> HostOf(b) != h
    ensures Without(s, h) == s
  {
    if s != [] {
      WithoutAbsent(s[1..], h);
    }
  }

  lemma TakeTail(s: seq<InfoBlock>, n: nat)
    requires s != [] && n >= 1
    ensures Take(s, n) != [] && Take(s, n)[0] == s[0] && Take(s, n)[1..] == Take(s[1..], n - 1)
  {
  }

  lemma TakeCons(b: InfoBlock, s: seq<InfoBlock>, n: nat)
    requires n >= 1
    ensures Take([b] + s, n) == [b] + Take(s, n - 1)
  {
  }

  lemma TakeTwice(s: seq<InfoBlock>, n: nat)
    ensures Take(Take(s, n), n) == Take(s, n)
  {
  }

  lemma {:induction false} WithoutTake(s: seq<InfoBlock>, h: Host, n: nat)
    requires Distinct(s) && n >= 1
    ensures Take(Without(Take(s, n), h), n - 1) == Take(Without(s, h), n - 1)
  {
    if s != [] {
      TakeTail(s, n);
      if HostOf(s[0]) == h {
        WithoutAbsent(s[1..], h);
        WithoutAbsent(Take(s[1..], n - 1), h);
        TakeTwice(s[1..], n - 1);
      } else if n > 1 {
        WithoutTake(s[1..], h, n - 1);
        TakeCons(s[0], Without(Take(s[1..], n - 1), h), n - 1);
        TakeCons(s[0], Without(s[1..], h), n - 1);
      }
    }
  }

  /** A full cache holds what an unlimited one would have in front. */
  lemma UpdatedTake(s: seq<InfoBlock>, d: InfoBlock, max: nat)
    requires Distinct(s) && max >= 1
    ensures Updated(Take(s, max - 1), d, max) == Take(Recent(s, d), max - 1)
    ensures Distinct(Recent(s, d))
  {
    var h := HostOf(d);
    WithoutAny(s, h);
    if GetKey(d) >= 0 && max > 1 {
      WithoutTake(s, h, max - 1);
      var a, b := Without(Take(s, max - 1), h), Without(s, h);
      TakeCons(d, a, max - 1);
      TakeCons(d, b, max - 1);
    }
  }

  // ----- whole runs

  /** A cache of size `max` after some updates. */
  function AfterUpdates(us: seq<InfoBlock>, max: nat): seq<InfoBlock>
    requires max >= 1
  {
    if us == [] then [] else Updated(AfterUpdates(us[..|us| - 1], max), us[|us| - 1], max)
  }

  /** A cache that forgets nothing. */
  function AllRecent(us: seq<InfoBlock>): seq<InfoBlock> {
    if us == [] then [] else Recent(AllRecent(us[..|us| - 1]), us[|us| - 1])
  }

  lemma {:induction false} CacheIsPrefix(us: seq<InfoBlock>, max: nat)
    requires max >= 1
    ensures AfterUpdates(us, max) == Take(AllRecent(us), max - 1)
    ensures Distinct(AllRecent(us))
  {
    if us != [] {
      CacheIsPrefix(us[..|us| - 1], max);
      UpdatedTake(AllRecent(us[..|us| - 1]), us[|us| - 1], max);
    }
  }

  /** The last of the updates that was one of host `h`, or -1. */
  function LastUpdate(us: seq<InfoBlock>, h: Host): (i: int)
    ensures -1 <= i < |us|
    ensures i >= 0 ==> HostOf(us[i]) == h
    ensures forall j :: i < j < |us| ==> HostOf(us[j]) != h
  {
    if us == [] then -1
    else if HostOf(us[|us| - 1]) == h then |us| - 1
    else LastUpdate(us[..|us| - 1], h)
  }

  /** The hosts updated since. */
  function Since(us: seq<InfoBlock>, i: int): set<Host>
    requires -1 <= i
  {
    set j | i < j < |us| && GetKey(us[j]) >= 0 :: HostOf(us[j])
  }

  lemma SinceAppend(us: seq<InfoBlock>, d: InfoBlock, i: int)
    requires -1 <= i < |us|
    ensures Since(us + [d], i) == Since(us, i) + if GetKey(d) >= 0 then {HostOf(d)} else {}
  {
    var us' := us + [d];
    forall g | g in Since(us, i) ensures g in Since(us', i) {
      var j :| i < j < |us| && GetKey(us[j]) >= 0 && HostOf(us[j]) == g;
      assert us'[j] == us[j];
    }
    assert us'[|us|] == d;
  }

  lemma {:induction false} FrontIsSince(us: seq<InfoBlock>, h: Host, key: InfoBlock)
    requires HostOf(key) == h && GetKey(key) >= 0
    ensures var i := LastUpdate(us, h);
            && Find(AllRecent(us), h) == (if i >= 0 then Some(us[i]) else None)
            && (i >= 0 ==> Hosts(Front(AllRecent(us), h)) == Since(us, i))
  {
    if us != [] {
      var pre, d := us[..|us| - 1], us[|us| - 1];
      assert us == pre + [d];
      FrontIsSince(pre, h, key);
      if HostOf(d) == h {
        SameKeyIff(d, key);
      } else {
        WithoutOther(AllRecent(pre), HostOf(d), h);
        HostsCons(d, Front(Without(AllRecent(pre), HostOf(d)), h));
        var i := LastUpdate(pre, h);
        if i >= 0 {
          SinceAppend(pre, d, i);
        }
      }
    }
  }

  lemma {:induction false} FoundInCache(us: seq<InfoBlock>, max: nat, h: Host, key: InfoBlock)
    requires max >= 1 && HostOf(key) == h && GetKey(key) >= 0
    ensures var i := LastUpdate(us, h);
            Find(AfterUpdates(us, max), h) == if i >= 0 && |Since(us, i)| < max - 1 then Some(us[i]) else None
  {
    var all := AllRecent(us);
    CacheIsPrefix(us, max);
    FrontIsSince(us, h, key);
    FrontDistinct(all, h);
    FindInTake(all, h, max - 1);
  }

  /** After any updates a cache gives the block last stored for a host exactly when fewer than `max - 1` other hosts
      were updated since. */
  lemma LeastRecentlyUsed(us: seq<InfoBlock>, max: nat, d: InfoBlock)
    requires max >= 1
    ensures var i := LastUpdate(us, HostOf(d));
            Lookup(AfterUpdates(us, max), d) ==
            if GetKey(d) >= 0 && i >= 0 && |Since(us, i)| < max - 1 then Some(us[i]) else None
  {
    if GetKey(d) >= 0 {
      FoundInCache(us, max, HostOf(d), d);
    }
  }
}
