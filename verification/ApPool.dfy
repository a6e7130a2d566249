/**
 The structural invariant of the station pool: free queue, hash chains and the two lists.
 Every elementary update keeps it, and under it get_stainfo is a finite-map lookup.
 */
module ApPool {
  import opened Wrappers
  import opened Lists
  import opened MacAddress
  import opened ApState

  ghost predicate ChainOk(s: Ap, h: nat)
    requires Shape(s) && h < NUM_STA
  {
    && NoDup(s.hash[h])
    && forall x :: x in s.hash[h] ==> InUse(s, x) && WifiMacHash(s.sta[x].hwaddr) == h
  }

  ghost predicate FreeOk(s: Ap) {
    NoDup(s.free) && AllBelow(s.free, NUM_STA)
  }

  ghost predicate ChainsOk(s: Ap)
    requires Shape(s)
  {
    && (forall h :: 0 <= h < NUM_STA ==> ChainOk(s, h))
    && (forall x :: InUse(s, x) ==> x in s.hash[WifiMacHash(s.sta[x].hwaddr)])
  }

  /** No canonical address is used twice. */
  ghost predicate AddressesOk(s: Ap)
    requires Shape(s)
  {
    forall x, y :: InUse(s, x) && InUse(s, y) && s.sta[x].hwaddr == s.sta[y].hwaddr ==>
      x == y || s.sta[x].hwaddr != Canonical(s.sta[x].hwaddr)
  }

  ghost predicate CountOk(s: Ap) {
    s.count == TotalLength(s.hash) == NUM_STA - |s.free|
  }

  /** Slots are partitioned between the free queue and the chains, and counted. */
  ghost predicate Pool(s: Ap) {
    Shape(s) && FreeOk(s) && ChainsOk(s) && AddressesOk(s) && CountOk(s)
  }

  ghost predicate Queues(s: Ap) {
    && NoDup(s.auth) && NoDup(s.asoc)
    && (forall x :: x in s.auth ==> InUse(s, x) && x !in s.asoc)
    && (forall x :: x in s.asoc ==> InUse(s, x))
  }

  /** Everything Pool and Queues look at is the same in both states. */
  ghost predicate SamePool(s: Ap, r: Ap)
    requires Shape(s) && Shape(r)
  {
    && r.free == s.free && r.hash == s.hash && r.count == s.count
    && forall x :: 0 <= x < NUM_STA ==> r.sta[x].hwaddr == s.sta[x].hwaddr
  }

  lemma PoolFrame(s: Ap, r: Ap)
    requires Pool(s) && Shape(r) && SamePool(s, r)
    ensures Pool(r)
  {
    assert forall x :: InUse(r, x) <==> InUse(s, x);
    forall h | 0 <= h < NUM_STA ensures ChainOk(r, h) {
      assert ChainOk(s, h);
    }
    forall x | InUse(r, x) ensures x in r.hash[WifiMacHash(r.sta[x].hwaddr)] {
      assert InUse(s, x);
    }
  }

  lemma PoolGivesRanges(s: Ap)
    requires Pool(s)
    ensures ChainsInRange(s)
  {
    forall h | 0 <= h < |s.hash| ensures AllBelow(s.hash[h], NUM_STA) {
      assert ChainOk(s, h);
      assert forall i :: 0 <= i < |s.hash[h]| ==> s.hash[h][i] in s.hash[h];
    }
  }

  /** get_stainfo finds exactly the in-use station with the canonical form of the address. */
  lemma LookupRefinesMap(s: Ap, addr: Mac)
    requires Pool(s)
    ensures ChainsInRange(s)
    ensures forall x: nat :: Lookup(s, addr) == Some(x) <==> InUse(s, x) && s.sta[x].hwaddr == Canonical(addr)
    ensures Lookup(s, addr).None? <==> forall x :: InUse(s, x) ==> s.sta[x].hwaddr != Canonical(addr)
  {
    PoolGivesRanges(s);
    var a := Canonical(addr);
    assert ChainOk(s, WifiMacHash(a));
    var r := FindIn(s.sta, s.hash[WifiMacHash(a)], a);
    assert r == Lookup(s, addr);
    forall x: nat | InUse(s, x) && s.sta[x].hwaddr == a ensures r == Some(x) {
      assert x in s.hash[WifiMacHash(a)];
      assert r.Some?;
      assert InUse(s, r.value) && s.sta[r.value].hwaddr == a;
    }
  }

  /** The pool after slot `x`, first of the free queue, has been handed out under `addr`. */
  lemma AllocKeepsChains(s: Ap, addr: Mac)
    requires Shape(s) && FreeOk(s) && ChainsOk(s) && s.free != []
    ensures ChainsOk(Alloc(s, addr).0)
  {
    var x, k := s.free[0], WifiMacHash(addr);
    var r := Alloc(s, addr).0;
    assert s.free == [x] + r.free;
    assert forall y :: InUse(r, y) <==> InUse(s, y) || y == x;
    assert r.hash == s.hash[k := s.hash[k] + [x]];
    forall h | 0 <= h < NUM_STA ensures ChainOk(r, h) {
      assert ChainOk(s, h);
      assert x !in s.hash[h];
      if h == k {
        NoDupAppend(s.hash[h], x);
      }
    }
    forall y | InUse(r, y) ensures y in r.hash[WifiMacHash(r.sta[y].hwaddr)] {
      if y == x {
        assert r.hash[k][|s.hash[k]|] == x;
      } else {
        var h := WifiMacHash(s.sta[y].hwaddr);
        assert y in s.hash[h];
        assert r.hash[h] == s.hash[h] || r.hash[h] == s.hash[h] + [x];
      }
    }
  }

  /** Fields and slots other than those of `x` are as before. */
  ghost predicate OthersKept(s: Ap, r: Ap, x: nat)
    requires Shape(s) && Shape(r)
  {
    && r.maxNumSta == s.maxNumSta
    && forall y :: 0 <= y < NUM_STA && y != x ==> r.sta[y] == s.sta[y] && (InUse(r, y) <==> InUse(s, y))
  }

  lemma AllocKeepsPool(s: Ap, addr: Mac)
    requires Pool(s) && Queues(s)
    requires forall x :: InUse(s, x) && s.sta[x].hwaddr == addr ==> addr != Canonical(addr)
    ensures var (r, slot) := Alloc(s, addr);
      Pool(r) && Queues(r) &&
      if s.free == [] then slot.None? && r == s
      else slot == Some(s.free[0]) && InUse(r, s.free[0]) && OthersKept(s, r, s.free[0])
  {
    if s.free != [] {
      var x, k := s.free[0], WifiMacHash(addr);
      var r := Alloc(s, addr).0;
      assert s.free == [x] + r.free;
      assert x !in r.free;
      AllocKeepsChains(s, addr);
      TotalLengthUpdate(s.hash, k, s.hash[k] + [x]);
      assert FreeOk(r);
    }
  }

  /** What free_stainfo changes, field by field. */
  lemma FreeEffect(s: Ap, x: nat)
    requires Shape(s) && InUse(s, x)
    ensures var r := FreeSta(s, x);
      var k := WifiMacHash(s.sta[x].hwaddr);
      && r.free == s.free + [x] && r.hash == s.hash[k := Without(s.hash[k], x)] && r.count == s.count - 1
      && r.auth == Without(s.auth, x) && r.asoc == Without(s.asoc, x)
      && OthersKept(s, r, x) && !InUse(r, x)
      && r.bss == s.bss && r.maxNumSta == s.maxNumSta
  {
  }

  lemma FreeKeepsChains(s: Ap, x: nat)
    requires Shape(s) && FreeOk(s) && ChainsOk(s) && InUse(s, x)
    ensures ChainsOk(FreeSta(s, x))
  {
    FreeEffect(s, x);
    var r := FreeSta(s, x);
    var k := WifiMacHash(s.sta[x].hwaddr);
    forall h | 0 <= h < NUM_STA ensures ChainOk(r, h) {
      assert ChainOk(s, h);
      assert x !in r.hash[h];
    }
    forall y | InUse(r, y) ensures y in r.hash[WifiMacHash(r.sta[y].hwaddr)] {
      assert y in s.hash[WifiMacHash(s.sta[y].hwaddr)];
    }
  }

  lemma FreeKeepsPool(s: Ap, x: nat)
    requires Pool(s) && InUse(s, x)
    ensures Pool(FreeSta(s, x))
  {
    FreeEffect(s, x);
    FreeKeepsChains(s, x);
    var r := FreeSta(s, x);
    var k := WifiMacHash(s.sta[x].hwaddr);
    NoDupAppend(s.free, x);
    assert ChainOk(s, k);
    TotalLengthUpdate(s.hash, k, Without(s.hash[k], x));
    forall y, z | InUse(r, y) && InUse(r, z) && r.sta[y].hwaddr == r.sta[z].hwaddr
      ensures y == z || r.sta[y].hwaddr != Canonical(r.sta[y].hwaddr)
    {
      assert InUse(s, y) && InUse(s, z);
    }
  }

  lemma FreeKeepsQueues(s: Ap, x: nat)
    requires Shape(s) && Queues(s) && InUse(s, x)
    ensures Queues(FreeSta(s, x))
  {
    FreeEffect(s, x);
  }
}
