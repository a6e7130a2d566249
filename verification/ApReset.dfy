/**
 free_assoc_resources in access-point state: a local disassociation frees the stations directly, and what that
 does to the invariant, to the counters and to the table of AIDs.
 */
module ApReset {
  import opened Wrappers
  import opened Lists
  import opened MacAddress
  import opened ApState
  import opened ApPool
  import opened ApInvariant
  import opened ApCounters
  import opened ApHandlers
  import opened ApTeardown

  /** free_assoc_resources: the AP's own entry, then everybody, and the broadcast station anew. */
  function FreeAssoc(s: Ap, own: Mac): (r: Ap)
    requires Pool(s) && Queues(s)
    ensures Shape(r)
  {
    FreeAtEffect(s, own);
    RenewPool(FreeAt(s, own))
  }

  // ---- direct frees --------------------------------------------------------------------------

  /** The slot names a station that is gone and held its AID. */
  ghost predicate GivenBack(s: Ap, r: Ap, k: int)
    requires Shape(s) && 0 <= k < NUM_STA
  {
    s.aids[k].Some? && var x := s.aids[k].value; InUse(s, x) && !InUse(r, x) && s.sta[x].aid == k + 1
  }

  ghost predicate AidsGivenBack(s: Ap, r: Ap)
    requires Shape(s) && Shape(r)
  {
    forall k :: 0 <= k < NUM_STA ==> r.aids[k] == if GivenBack(s, r, k) then None else s.aids[k]
  }

  /** `r` is `s` after some stations have been freed by free_stainfo alone. */
  ghost predicate Direct(s: Ap, r: Ap)
    requires Shape(s) && Shape(r)
  {
    && Shrunk(s, r) && r.bss == s.bss && (Counted(s) ==> Counted(r)) && AidsGivenBack(s, r)
    && forall x: nat :: InUse(r, x) ==> (x in r.auth <==> x in s.auth) && (x in r.asoc <==> x in s.asoc)
  }

  lemma FreeGivesBack(s: Ap, x: nat)
    requires Shape(s) && InUse(s, x)
    ensures AidsGivenBack(s, FreeSta(s, x))
  {
  }

  lemma FreeIsDirect(s: Ap, x: nat)
    requires Shape(s) && InUse(s, x)
    ensures Direct(s, FreeSta(s, x))
  {
    FreeEffect(s, x);
    FreeGivesBack(s, x);
    if Counted(s) {
      FreeKeepsCounted(s, x);
    }
  }

  lemma DirectTwice(s: Ap, m: Ap, r: Ap)
    requires Shape(s) && Shape(m) && Shape(r) && Direct(s, m) && Direct(m, r)
    ensures Direct(s, r)
  {
    forall k | 0 <= k < NUM_STA ensures r.aids[k] == if GivenBack(s, r, k) then None else s.aids[k] {
      assert m.aids[k] == if GivenBack(s, m, k) then None else s.aids[k];
    }
  }

  lemma {:induction false} FreeChainIsDirect(s: Ap, todo: seq<nat>, keep: Option<nat>)
    requires Pool(s) && Queues(s) && NoDup(todo) && forall x :: x in todo ==> InUse(s, x)
    ensures AllBelow(todo, NUM_STA) && Direct(s, FreeChain(s, todo, keep))
    decreases |todo|
  {
    assert forall i :: 0 <= i < |todo| ==> todo[i] in todo;
    if todo != [] {
      FreeChainFirst(s, todo, keep);
      FreeIsDirect(s, todo[0]);
      var m := if keep == Some(todo[0]) then s else FreeSta(s, todo[0]);
      FreeChainIsDirect(m, todo[1..], keep);
      DirectTwice(s, m, FreeChain(m, todo[1..], keep));
    }
  }

  lemma {:induction false} FreeChainsIsDirect(s: Ap, h: nat, keep: Option<nat>)
    requires Pool(s) && Queues(s) && h <= NUM_STA
    ensures Direct(s, FreeChains(s, h, keep))
    decreases NUM_STA - h
  {
    if h < NUM_STA {
      PoolGivesRanges(s);
      assert ChainOk(s, h);
      FreeChainEffect(s, s.hash[h], keep);
      FreeChainIsDirect(s, s.hash[h], keep);
      var m := FreeChain(s, s.hash[h], keep);
      FreeChainsIsDirect(m, h + 1, keep);
      DirectTwice(s, m, FreeChains(m, h + 1, keep));
    }
  }

  lemma FreeAtIsDirect(s: Ap, addr: Mac)
    requires Pool(s) && Queues(s)
    ensures Direct(s, FreeAt(s, addr))
  {
    LookupRefinesMap(s, addr);
    if x: nat :| Lookup(s, addr) == Some(x) {
      FreeIsDirect(s, x);
    }
  }

  lemma FreeStationsIsDirect(s: Ap)
    requires Pool(s) && Queues(s)
    ensures Direct(s, FreeStations(s))
  {
    FreeAllEffect(s);
    FreeChainsIsDirect(s, 0, Lookup(s, BROADCAST));
    FreeAtIsDirect(FreeAll(s), BROADCAST);
    DirectTwice(s, FreeAll(s), FreeStations(s));
  }

  lemma DirectKeepsGood(s: Ap, r: Ap, cfg: Config)
    requires Good(cfg, s) && Pool(r) && Queues(r) && Direct(s, r)
    ensures Good(cfg, r)
  {
    forall x | InUse(r, x) ensures AidOk(r, x) && LogOk(r, x) {
      assert AidOk(s, x) && LogOk(s, x);
    }
  }

  /** A direct free leaves a count behind if and only if a freed station carried the bit. */
  lemma DirectLeak(s: Ap, r: Ap, c: Cap)
    requires Shape(s) && Shape(r) && Counted(s) && Direct(s, r)
    ensures r.leak.Get(c) >= s.leak.Get(c)
    ensures r.leak.Get(c) == s.leak.Get(c) <==> forall x: nat :: HasFlag(s, x, c) ==> InUse(r, x)
  {
    assert s.bss.counter.Get(c) == |Flagged(s, c)| + s.leak.Get(c);
    assert r.bss.counter.Get(c) == |Flagged(r, c)| + r.leak.Get(c);
    assert forall x: nat :: HasFlag(r, x, c) <==> HasFlag(s, x, c) && InUse(r, x);
    SubsetSize(Flagged(r, c), Flagged(s, c));
    assert forall x: nat :: x in Flagged(s, c) <==> HasFlag(s, x, c);
    if r.leak.Get(c) == s.leak.Get(c) {
      forall x: nat | HasFlag(s, x, c) ensures InUse(r, x) {
        assert x in Flagged(r, c);
      }
    }
  }

  lemma SubsetSize(a: set<int>, b: set<int>)
    requires a <= b
    ensures |a| <= |b| && (|a| == |b| <==> a == b)
  {
    assert b == a + (b - a);
  }

  // ---- free_assoc_resources ------------------------------------------------------------------

  /**
   The one station that can be left: neither the own entry nor the broadcast station, and apart from the own entry
   nobody else is in use, so that free_all_stainfo returns at once.
   */
  ghost predicate Survives(s: Ap, own: Mac, x: nat)
    requires Shape(s)
  {
    && InUse(s, x) && s.sta[x].hwaddr != Canonical(own) && s.sta[x].hwaddr != BROADCAST
    && forall y: nat :: InUse(s, y) && y != x ==> s.sta[y].hwaddr == Canonical(own)
  }

  lemma CountIsOne(s: Ap, x: nat)
    requires Pool(s) && InUse(s, x)
    ensures s.count == 1 <==> forall y: nat :: InUse(s, y) ==> y == x
  {
    CountIsInUse(s);
    if s.count == 1 {
      forall y: nat | InUse(s, y) ensures y == x {
        OneInUse(s, x, y);
      }
    } else if forall y: nat :: InUse(s, y) ==> y == x {
      OneUsed(s, x);
    }
  }

  /** The state before the broadcast station is made anew. */
  function Freed(s: Ap, own: Mac): (r: Ap)
    requires Pool(s) && Queues(s)
    ensures Shape(r)
  {
    FreeAtEffect(s, own);
    FreeStations(FreeAt(s, own))
  }

  lemma FreedEffect(s: Ap, own: Mac)
    requires Pool(s) && Queues(s)
    ensures var r := Freed(s, own);
      && Pool(r) && Queues(r) && Direct(s, r)
      && forall x: nat :: InUse(r, x) <==> Survives(s, own, x)
  {
    FreeAtEffect(s, own);
    FreeAtIsDirect(s, own);
    var m := FreeAt(s, own);
    FreeStationsEffect(m);
    FreeStationsIsDirect(m);
    DirectTwice(s, m, Freed(s, own));
    forall x: nat | InUse(m, x) ensures InUse(Freed(s, own), x) <==> Survives(s, own, x) {
      CountIsOne(m, x);
      assert m.sta[x] == s.sta[x];
    }
  }

  lemma InitBcmcKeepsGood(s: Ap, cfg: Config)
    requires Good(cfg, s) && forall x: nat :: InUse(s, x) ==> s.sta[x].hwaddr != BROADCAST
    ensures AllBelow(s.free, NUM_STA) && Good(cfg, InitBcmc(s)) && InitBcmc(s).leak == s.leak
  {
    AllocKeepsGood(cfg, s, BROADCAST);
    AllocKeepsInv(s, BROADCAST);
    var (m, slot) := Alloc(s, BROADCAST);
    if slot.Some? {
      assert AidOk(m, slot.value) && LogOk(m, slot.value);
      FrameKeepsGood(cfg, m, InitBcmc(s), slot.value);
    }
  }

  /** free_assoc_resources keeps the whole invariant, and the counters of everybody it frees stay behind. */
  lemma FreeAssocKeepsGood(s: Ap, cfg: Config, own: Mac)
    requires Good(cfg, s)
    ensures Good(cfg, FreeAssoc(s, own))
    ensures forall c: Cap :: FreeAssoc(s, own).leak.Get(c) >= s.leak.Get(c)
    ensures forall c: Cap :: FreeAssoc(s, own).leak.Get(c) == s.leak.Get(c) <==>
      forall x: nat :: HasFlag(s, x, c) ==> Survives(s, own, x)
  {
    FreedEffect(s, own);
    var f := Freed(s, own);
    DirectKeepsGood(s, f, cfg);
    InitBcmcKeepsGood(f, cfg);
    forall c: Cap
      ensures f.leak.Get(c) >= s.leak.Get(c)
      ensures f.leak.Get(c) == s.leak.Get(c) <==> forall x: nat :: HasFlag(s, x, c) ==> Survives(s, own, x)
    {
      DirectLeak(s, f, c);
    }
  }

  /** Whoever is in use afterwards is the new broadcast station, listed nowhere, or the one survivor as it was. */
  lemma FreeAssocEffect(s: Ap, own: Mac) returns (b: nat)
    requires Pool(s) && Queues(s)
    ensures var r := FreeAssoc(s, own);
      && InUse(r, b) && r.sta[b] == Blank(BROADCAST).(macId := 1) && b !in r.auth && b !in r.asoc && !Survives(s, own, b)
      && (forall x: nat :: x != b ==> (InUse(r, x) <==> Survives(s, own, x)))
      && (forall x: nat :: Survives(s, own, x) ==> r.sta[x] == s.sta[x])
  {
    FreedEffect(s, own);
    var f := Freed(s, own);
    NoneFreeMeansTwo(f);
    b := f.free[0];
    assert b in f.free;
    assert f.free == [b] + f.free[1..];
  }

  lemma NoneFreeMeansTwo(s: Ap)
    requires Shape(s) && forall x: nat, y: nat :: InUse(s, x) && InUse(s, y) ==> x == y
    ensures s.free != []
  {
    assert InUse(s, 0) || InUse(s, 1) || s.free != [];
    assert InUse(s, 0) && InUse(s, 1) ==> 0 == 1;
  }

  /**
   Leaving access-point mode with a beacon set runs free_assoc_resources before stop_ap_mode. The pool is then
   always quiet with the broadcast station alone, the stranger that stop_ap_mode by itself may keep included.
   */
  lemma LeaveEffect(s: Ap, cfg: Config, own: Mac)
    requires Good(cfg, s)
    ensures var f := Flush(FreeAssoc(s, own), cfg);
      Good(cfg, f) && OnlyBroadcast(RenewPool(f)) && Quiet(RenewPool(f))
  {
    FreeAssocKeepsGood(s, cfg, own);
    var b := FreeAssocEffect(s, own);
    var r := FreeAssoc(s, own);
    ListedBelow(r);
    FlushEffect(r, cfg, r.asoc);
    var f := Flush(r, cfg);
    assert InUse(f, b) && f.sta[b].hwaddr == BROADCAST;
    CountIsOne(f, b);
    StopEffect(f);
  }
}
