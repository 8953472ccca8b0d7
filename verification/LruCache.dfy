/** The address cache itself: a list of entries in order of use, and a table of chains over the same entries (CCache).
    Each operation is proved to do what CacheRecency says of the list alone. */
module LruCache {
  import opened Packets
  import opened CacheRecency

  // ----- list and table, whatever the entries are

  /** The chain that a hash key leads to. */
  function Slot(key: nat, hashSize: nat): (i: nat)
    requires hashSize >= 1
    ensures i < hashSize
  {
    key % hashSize
  }

  lemma SmallSlot(key: nat, hashSize: nat)
    requires key < hashSize
    ensures Slot(key, hashSize) == key
  {
  }

  function Erase<E(==)>(s: seq<E>, e: E): (r: seq<E>)
    ensures |r| <= |s|
  {
    if s == [] then [] else if s[0] == e then s[1..] else [s[0]] + Erase(s[1..], e)
  }

  ghost predicate NoTwice<E>(s: seq<E>) {
    forall i, j :: 0 <= i < j < |s| ==> s[i] != s[j]
  }

  lemma {:induction false} EraseAt<E>(s: seq<E>, e: E, p: nat)
    requires NoTwice(s) && p < |s| && s[p] == e
    ensures Erase(s, e) == s[..p] + s[p + 1..]
  {
    if p > 0 {
      EraseAt(s[1..], e, p - 1);
      assert s[1..][..p - 1] == s[1..p];
      assert [s[0]] + s[1..p] == s[..p];
    }
  }

  lemma {:induction false} WithoutAt(cs: seq<InfoBlock>, p: nat)
    requires Distinct(cs) && p < |cs|
    ensures Without(cs, HostOf(cs[p])) == cs[..p] + cs[p + 1..]
  {
    if p > 0 {
      WithoutAt(cs[1..], p - 1);
      assert cs[1..][..p - 1] == cs[1..p];
      assert [cs[0]] + cs[1..p] == cs[..p];
    } else {
      WithoutAbsent(cs[1..], HostOf(cs[0]));
    }
  }

  /** Every entry has its block, and no two blocks are of one host. */
  ghost predicate Listed<E>(st: seq<E>, cs: seq<InfoBlock>) {
    && |st| == |cs| && NoTwice(st) && Distinct(cs)
    && forall i :: 0 <= i < |cs| ==> GetKey(cs[i]) >= 0
  }

  /** The chains hold entries of the list only, once each. */
  ghost predicate Chains<E>(st: seq<E>, bk: seq<seq<E>>) {
    && (forall h :: 0 <= h < |bk| ==> NoTwice(bk[h]))
    && (forall h, e :: 0 <= h < |bk| && e in bk[h] ==> e in st)
  }

  /** Each entry is in the chain that its hash key leads to, and in no other. */
  ghost predicate Placed<E>(st: seq<E>, cs: seq<InfoBlock>, bk: seq<seq<E>>)
    requires Listed(st, cs) && |bk| >= 1
  {
    forall i, h :: 0 <= i < |st| && 0 <= h < |bk| ==> (st[i] in bk[h] <==> h == Slot(GetKey(cs[i]), |bk|))
  }

  ghost predicate Indexed<E>(st: seq<E>, cs: seq<InfoBlock>, bk: seq<seq<E>>) {
    |bk| >= 1 && Listed(st, cs) && Chains(st, bk) && Placed(st, cs, bk)
  }

  function Chained<E>(bk: seq<seq<E>>, h: nat, chain: seq<E>): seq<seq<E>>
    requires h < |bk|
  {
    bk[h := chain]
  }

  lemma {:induction false} Erased<E>(s: seq<E>, e: E)
    requires NoTwice(s)
    ensures NoTwice(Erase(s, e))
    ensures forall x :: x in Erase(s, e) <==> x in s && x != e
  {
    if s != [] {
      assert forall x :: x in s <==> x == s[0] || x in s[1..];
      assert s[0] !in s[1..];
      Erased(s[1..], e);
      if s[0] != e {
        var t := Erase(s[1..], e);
        assert Erase(s, e) == [s[0]] + t && s[0] !in t;
      }
    }
  }

  function Cut<X>(s: seq<X>, p: nat): (r: seq<X>)
    requires p < |s|
    ensures |r| == |s| - 1
    ensures forall i :: 0 <= i < |r| ==> r[i] == s[if i < p then i else i + 1]
  {
    s[..p] + s[p + 1..]
  }

  lemma CutListed<E>(st: seq<E>, cs: seq<InfoBlock>, p: nat)
    requires Listed(st, cs) && p < |st|
    ensures Listed(Cut(st, p), Cut(cs, p))
  {
  }

  lemma ErasedChains<E>(st: seq<E>, bk: seq<seq<E>>, e: E, h: nat)
    requires NoTwice(st) && Chains(st, bk) && h < |bk|
    requires forall g :: 0 <= g < |bk| && e in bk[g] ==> g == h
    ensures Chains(Erase(st, e), Chained(bk, h, Erase(bk[h], e)))
  {
    Erased(st, e);
    Erased(bk[h], e);
    forall g, x | 0 <= g < |bk| && x in Chained(bk, h, Erase(bk[h], e))[g]
      ensures x in Erase(st, e)
    {
      assert x in bk[g] && x != e;
    }
  }

  lemma CutPlaced<E>(st: seq<E>, cs: seq<InfoBlock>, bk: seq<seq<E>>, p: nat, h: nat)
    requires |bk| >= 1 && Listed(st, cs) && Placed(st, cs, bk) && p < |st| && h < |bk| && NoTwice(bk[h])
    requires Listed(Cut(st, p), Cut(cs, p))
    ensures Placed(Cut(st, p), Cut(cs, p), Chained(bk, h, Erase(bk[h], st[p])))
  {
    var st', cs', bk' := Cut(st, p), Cut(cs, p), Chained(bk, h, Erase(bk[h], st[p]));
    Erased(bk[h], st[p]);
    forall i, g | 0 <= i < |st'| && 0 <= g < |bk'|
      ensures st'[i] in bk'[g] <==> g == Slot(GetKey(cs'[i]), |bk'|)
    {
      var k := if i < p then i else i + 1;
      assert st'[i] == st[k] && cs'[i] == cs[k] && st[k] != st[p];
      assert st[k] in bk'[g] <==> st[k] in bk[g];
    }
  }

  /** An entry is taken out of both. */
  lemma Removed<E>(st: seq<E>, cs: seq<InfoBlock>, bk: seq<seq<E>>, e: E, p: nat, h: nat)
    requires Indexed(st, cs, bk) && p < |st| && st[p] == e && h == Slot(GetKey(cs[p]), |bk|)
    ensures Indexed(Erase(st, e), Without(cs, HostOf(cs[p])), Chained(bk, h, Erase(bk[h], e)))
    ensures Erase(st, e) == Cut(st, p) && Without(cs, HostOf(cs[p])) == Cut(cs, p)
  {
    EraseAt(st, e, p);
    WithoutAt(cs, p);
    CutListed(st, cs, p);
    ErasedChains(st, bk, e, h);
    CutPlaced(st, cs, bk, p, h);
  }

  /** An entry is put in front. */
  lemma Pushed<E>(st: seq<E>, cs: seq<InfoBlock>, bk: seq<seq<E>>, e: E, d: InfoBlock, h: nat)
    requires Indexed(st, cs, bk) && e !in st && HostOf(d) !in Hosts(cs)
    requires GetKey(d) >= 0 && h == Slot(GetKey(d), |bk|)
    ensures Indexed([e] + st, [d] + cs, Chained(bk, h, [e] + bk[h]))
  {
    var st', cs', bk' := [e] + st, [d] + cs, Chained(bk, h, [e] + bk[h]);
    assert forall i :: 0 <= i < |cs| ==> HostOf(cs[i]) in Hosts(cs);
    forall i, g | 0 <= i < |st'| && 0 <= g < |bk'|
      ensures st'[i] in bk'[g] <==> g == Slot(GetKey(cs'[i]), |bk'|)
    {
      if i > 0 {
        assert st[i - 1] in bk[g] <==> g == Slot(GetKey(cs[i - 1]), |bk|);
      }
    }
  }

  lemma InChain<E>(st: seq<E>, cs: seq<InfoBlock>, bk: seq<seq<E>>, d: InfoBlock, p: nat, h: nat)
    requires Indexed(st, cs, bk) && GetKey(d) >= 0 && h == Slot(GetKey(d), |bk|) && p < |cs|
    ensures SameKey(d, cs[p]) <==> st[p] in bk[h] && HostOf(cs[p]) == HostOf(d)
  {
    SameKeyIff(d, cs[p]);
  }

  lemma {:induction false} FindAt(cs: seq<InfoBlock>, h: Host)
    ensures Find(cs, h).Some? <==> h in Hosts(cs)
    ensures h !in Hosts(cs) ==> Without(cs, h) == cs
  {
    if cs != [] {
      FindAt(cs[1..], h);
      HostsCons(cs[0], cs[1..]);
      assert cs == [cs[0]] + cs[1..];
    }
  }

  lemma {:induction false} FindIs(cs: seq<InfoBlock>, p: nat)
    requires Distinct(cs) && p < |cs|
    ensures Find(cs, HostOf(cs[p])) == Some(cs[p])
  {
    if p > 0 {
      FindIs(cs[1..], p - 1);
    }
  }

  /** The block of one host is replaced and comes to the front. */
  lemma Moved<E>(st: seq<E>, cs: seq<InfoBlock>, bk: seq<seq<E>>, e: E, p: nat, d: InfoBlock, h: nat, max: nat)
    requires Indexed(st, cs, bk) && p < |st| && st[p] == e && HostOf(cs[p]) == HostOf(d) && |st| < max
    requires GetKey(d) >= 0 && h == Slot(GetKey(d), |bk|)
    ensures Indexed([e] + Erase(st, e), Updated(cs, d, max), Chained(bk, h, [e] + Erase(bk[h], e)))
    ensures Updated(cs, d, max) == [d] + Cut(cs, p) && Erase(st, e) == Cut(st, p)
    ensures Lookup(cs, d) == Some(cs[p])
  {
    SameKeyIff(d, cs[p]);
    Removed(st, cs, bk, e, p, h);
    Erased(st, e);
    WithoutAny(cs, HostOf(d));
    Pushed(Erase(st, e), Cut(cs, p), Chained(bk, h, Erase(bk[h], e)), e, d, h);
    assert Chained(Chained(bk, h, Erase(bk[h], e)), h, [e] + Erase(bk[h], e)) == Chained(bk, h, [e] + Erase(bk[h], e));
    FindIs(cs, p);
  }

  /** The last entry is taken out of both. */
  lemma Evicted<E>(st: seq<E>, cs: seq<InfoBlock>, bk: seq<seq<E>>, h: nat)
    requires Indexed(st, cs, bk) && st != [] && h == Slot(GetKey(cs[|cs| - 1]), |bk|)
    ensures var e := st[|st| - 1];
            Indexed(st[..|st| - 1], cs[..|cs| - 1], Chained(bk, h, Erase(bk[h], e)))
  {
    var p := |st| - 1;
    Removed(st, cs, bk, st[p], p, h);
    assert Cut(st, p) == st[..p] && Cut(cs, p) == cs[..p];
  }

  // ----- the cache

  class Entry {
    var info: InfoBlock

    constructor (d: InfoBlock)
      ensures info == d
    {
      info := d;
    }
  }

  /** The entries hold the blocks. */
  ghost predicate Hold(st: seq<Entry>, cs: seq<InfoBlock>)
    reads st
  {
    |st| == |cs| && forall i :: 0 <= i < |st| ==> st[i].info == cs[i]
  }

  lemma HoldMoved(st: seq<Entry>, cs: seq<InfoBlock>, p: nat, d: InfoBlock)
    requires |st| == |cs| && p < |st| && st[p].info == d
    requires forall i :: 0 <= i < |st| && i != p ==> st[i].info == cs[i]
    ensures Hold([st[p]] + Cut(st, p), [d] + Cut(cs, p))
  {
  }

  lemma OtherEntries(st: seq<Entry>, p: nat)
    requires NoTwice(st) && p < |st|
    ensures forall i :: 0 <= i < |st| && i != p ==> st[i] != st[p]
  {
  }

  class Cache {
    var storage: seq<Entry>
    const buckets: array<seq<Entry>>
    const maxSize: nat
    const hashSize: nat
    var currSize: int
    ghost var contents: seq<InfoBlock>

    ghost predicate Valid()
      reads this, buckets, storage
    {
      && maxSize >= 1 && hashSize == 3 * maxSize == buckets.Length
      && currSize == |storage| < maxSize
      && Indexed(storage, contents, buckets[..])
      && Hold(storage, contents)
    }

    constructor (size: nat)
      requires size >= 1
      ensures Valid() && contents == [] && maxSize == size && fresh(buckets)
    {
      maxSize := size;
      hashSize := size * 3;
      currSize := 0;
      storage := [];
      contents := [];
      buckets := new seq<Entry>[size * 3](_ => []);
      new;
      assert forall h :: 0 <= h < |buckets[..]| ==> buckets[..][h] == [];
    }

    /** The chain of a block, or none for a negative hash key. */
    function Chain(d: InfoBlock): (h: int)
      requires maxSize >= 1 && hashSize == 3 * maxSize
      ensures GetKey(d) < 0 ==> h == -1
      ensures GetKey(d) >= 0 ==> h == Slot(GetKey(d), hashSize)
    {
      var key := GetKey(d);
      if key < 0 then -1
      else if key >= maxSize then key % hashSize
      else SmallSlot(key, hashSize); key
    }

    /** The first entry of a chain that equals `d`. */
    method Search(h: nat, d: InfoBlock) returns (e: Entry?, ghost p: nat)
      requires h < buckets.Length && Indexed(storage, contents, buckets[..]) && Hold(storage, contents)
      requires GetKey(d) >= 0 && h == Slot(GetKey(d), buckets.Length)
      ensures e != null ==> p < |storage| && storage[p] == e && HostOf(contents[p]) == HostOf(d)
      ensures e == null ==> HostOf(d) !in Hosts(contents)
    {
      var chain := buckets[h];
      assert buckets[..][h] == chain;
      for i := 0 to |chain|
        invariant forall j :: 0 <= j < i ==> !SameKey(d, chain[j].info)
      {
        assert chain[i] in storage;
        if SameKey(d, chain[i].info) {
          p :| 0 <= p < |storage| && storage[p] == chain[i];
          InChain(storage, contents, buckets[..], d, p, h);
          return chain[i], p;
        }
      }
      forall q | 0 <= q < |contents| ensures HostOf(contents[q]) != HostOf(d) {
        InChain(storage, contents, buckets[..], d, q, h);
        SameKeyIff(d, contents[q]);
      }
      return null, 0;
    }

    method Lookup(d: InfoBlock) returns (r: Option<InfoBlock>)
      requires Valid()
      ensures r == CacheRecency.Lookup(contents, d)
    {
      var h := Chain(d);
      if h < 0 {
        return None;
      }
      var e, p := Search(h, d);
      if e != null {
        FindIs(contents, p);
        return Some(e.info);
      }
      FindAt(contents, HostOf(d));
      return None;
    }

    /** The entry found gets the new block and comes to the front of the list and of its chain. */
    method MoveToFront(e: Entry, d: InfoBlock, h: nat, ghost p: nat)
      requires Valid() && GetKey(d) >= 0 && h == Slot(GetKey(d), hashSize)
      requires p < |storage| && storage[p] == e && HostOf(contents[p]) == HostOf(d)
      modifies this, buckets, storage
      ensures Valid() && contents == Updated(old(contents), d, maxSize)
      ensures forall x :: x in storage ==> x in old(storage)
    {
      Moved(storage, contents, buckets[..], e, p, d, h, maxSize);
      ghost var bk, st, cs := buckets[..], storage, contents;
      OtherEntries(st, p);
      e.info := d;
      HoldMoved(st, cs, p, d);
      Erased(st, e);
      buckets[h] := [e] + Erase(buckets[h], e);
      storage := [e] + Erase(storage, e);
      contents := Updated(contents, d, maxSize);
      assert buckets[..] == Chained(bk, h, [e] + Erase(bk[h], e));
    }

    method EvictOldest()
      requires maxSize >= 1 && hashSize == 3 * maxSize == buckets.Length
      requires Indexed(storage, contents, buckets[..]) && Hold(storage, contents)
      requires currSize == |storage| == maxSize
      modifies this, buckets
      ensures Valid() && contents == old(contents)[..|old(contents)| - 1]
      ensures storage == old(storage)[..|old(storage)| - 1]
    {
      var last := storage[|storage| - 1];
      var h := GetKey(last.info) % hashSize;
      ghost var bk := buckets[..];
      var e, p := Search(h, last.info);
      assert HostOf(contents[|contents| - 1]) in Hosts(contents);
      assert e == last;
      Evicted(storage, contents, bk, h);
      if e != null {
        buckets[h] := Erase<Entry>(buckets[h], e);
      }
      storage := storage[..|storage| - 1];
      contents := contents[..|contents| - 1];
      currSize := currSize - 1;
      assert buckets[..] == Chained(bk, h, Erase(bk[h], last));
    }

    /** A new entry in front. */
    method PushFront(d: InfoBlock, h: nat)
      requires Valid() && GetKey(d) >= 0 && h == Slot(GetKey(d), hashSize)
      requires HostOf(d) !in Hosts(contents)
      modifies this, buckets
      ensures Indexed(storage, contents, buckets[..]) && Hold(storage, contents)
      ensures contents == [d] + old(contents) && currSize == |storage| == old(|storage|) + 1
      ensures forall x :: x in storage ==> x in old(storage) || fresh(x)
    {
      var curr := new Entry(d);
      ghost var bk := buckets[..];
      Pushed(storage, contents, bk, curr, d, h);
      storage := [curr] + storage;
      buckets[h] := [curr] + buckets[h];
      contents := [d] + contents;
      currSize := currSize + 1;
      assert buckets[..] == Chained(bk, h, [curr] + bk[h]);
    }

    /** A new entry in front; the cache stays below its size. */
    method Insert(d: InfoBlock, h: nat)
      requires Valid() && GetKey(d) >= 0 && h == Slot(GetKey(d), hashSize)
      requires HostOf(d) !in Hosts(contents)
      modifies this, buckets
      ensures Valid() && contents == Updated(old(contents), d, maxSize)
      ensures forall x :: x in storage ==> x in old(storage) || fresh(x)
    {
      FindAt(contents, HostOf(d));
      PushFront(d, h);
      if currSize >= maxSize {
        EvictOldest();
      }
    }

    method Update(d: InfoBlock) returns (rc: int)
      requires Valid()
      modifies this, buckets, storage
      ensures Valid() && contents == Updated(old(contents), d, maxSize)
      ensures rc == if GetKey(d) < 0 then -1 else 0
      ensures forall x :: x in storage ==> x in old(storage) || fresh(x)
    {
      var h := Chain(d);
      if h < 0 {
        return -1;
      }
      var e, p := Search(h, d);
      if e != null {
        MoveToFront(e, d, h, p);
      } else {
        Insert(d, h);
      }
      return 0;
    }

    method Clear()
      requires Valid()
      modifies this, buckets
      ensures Valid() && contents == [] && storage == []
    {
      storage := [];
      contents := [];
      for h := 0 to buckets.Length
        modifies buckets
        invariant forall g :: 0 <= g < h ==> buckets[g] == []
      {
        buckets[h] := [];
      }
      currSize := 0;
      assert forall g :: 0 <= g < |buckets[..]| ==> buckets[..][g] == [];
    }
  }
}
