/** Emptying the pool: rtw_sta_flush, free_all_stainfo, stop_ap_mode and the fresh start after it. */
module ApTeardown {
  import opened Wrappers
  import opened Lists
  import opened MacAddress
  import opened ApState
  import opened ApPool
  import opened ApInvariant
  import opened ApCounters
  import opened ApHandlers

  // ---- how many stations are in use ----------------------------------------------------------

  ghost function Members(q: seq<nat>): (r: set<nat>)
    ensures forall x :: x in r <==> x in q
    ensures NoDup(q) ==> |r| == |q|
  {
    if q == [] then {} else
      assert q == [q[0]] + q[1..];
      assert NoDup(q) ==> q[0] !in q[1..];
      {q[0]} + Members(q[1..])
  }

  ghost function Below(n: nat): (r: set<nat>)
    ensures forall x: nat :: x in r <==> x < n
    ensures |r| == n
  {
    if n == 0 then {} else Below(n - 1) + {n - 1}
  }

  ghost function Used(s: Ap): (r: set<nat>)
    ensures forall x :: x in r <==> InUse(s, x)
  {
    Below(NUM_STA) - Members(s.free)
  }

  /** asoc_sta_count is the number of in-use stations. */
  lemma CountIsInUse(s: Ap)
    requires Pool(s)
    ensures s.count == |Used(s)|
  {
    assert forall x :: x in s.free ==> x < NUM_STA;
    assert Members(s.free) <= Below(NUM_STA);
  }

  lemma OneInUse(s: Ap, x: nat, y: nat)
    requires Pool(s) && s.count == 1 && InUse(s, x) && InUse(s, y)
    ensures x == y
  {
    CountIsInUse(s);
    var others := Used(s) - {x};
    assert |others| == 0;
    assert y !in others;
  }

  lemma OneUsed(s: Ap, x: nat)
    requires InUse(s, x) && forall y :: InUse(s, y) ==> y == x
    ensures |Used(s)| == 1
  {
    assert Used(s) == {x};
  }

  // ---- free_all_stainfo ----------------------------------------------------------------------

  /** One chain: every station but `keep` is freed while the chain is being walked. */
  function FreeChain(s: Ap, todo: seq<nat>, keep: Option<nat>): (r: Ap)
    requires Shape(s) && AllBelow(todo, NUM_STA)
    ensures Shape(r)
    decreases |todo|
  {
    if todo == [] then s
    else FreeChain(if keep == Some(todo[0]) then s else FreeSta(s, todo[0]), todo[1..], keep)
  }

  function FreeChains(s: Ap, h: nat, keep: Option<nat>): (r: Ap)
    requires Shape(s) && h <= NUM_STA
    ensures Shape(r)
    decreases NUM_STA - h
  {
    if h == NUM_STA || !AllBelow(s.hash[h], NUM_STA) then s
    else FreeChains(FreeChain(s, s.hash[h], keep), h + 1, keep)
  }

  function FreeAll(s: Ap): (r: Ap)
    requires Shape(s) && ChainsInRange(s)
    ensures Shape(r)
  {
    if s.count == 1 then s else FreeChains(s, 0, Lookup(s, BROADCAST))
  }

  /** Only free_stainfo has been applied: the address of an in-use station and the others stay. */
  ghost predicate Shrunk(s: Ap, r: Ap)
    requires Shape(s) && Shape(r)
  {
    r.maxNumSta == s.maxNumSta && forall x :: InUse(r, x) ==> InUse(s, x) && r.sta[x] == s.sta[x]
  }

  /** The stations of `todo` other than `keep` are gone and nothing else has happened. */
  ghost predicate Emptied(s: Ap, r: Ap, todo: seq<nat>, keep: Option<nat>)
    requires Shape(s) && Shape(r)
  {
    Shrunk(s, r) && forall x :: InUse(r, x) <==> InUse(s, x) && (x !in todo || keep == Some(x))
  }

  lemma FreeStep(s: Ap, x: nat)
    requires Pool(s) && Queues(s) && InUse(s, x)
    ensures var r := FreeSta(s, x); Pool(r) && Queues(r) && Emptied(s, r, [x], None)
  {
    FreeKeepsPool(s, x);
    FreeKeepsQueues(s, x);
    FreeEffect(s, x);
  }

  lemma EmptiedExtends(s: Ap, m: Ap, r: Ap, x: nat, rest: seq<nat>, keep: Option<nat>)
    requires Shape(s) && Shape(m) && Shape(r)
    requires if keep == Some(x) then m == s else Emptied(s, m, [x], None)
    requires Emptied(m, r, rest, keep)
    ensures Emptied(s, r, [x] + rest, keep)
  {
  }

  lemma FreeChainFirst(s: Ap, todo: seq<nat>, keep: Option<nat>)
    requires Pool(s) && Queues(s) && NoDup(todo) && todo != [] && forall x :: x in todo ==> InUse(s, x)
    ensures InUse(s, todo[0]) && NoDup(todo[1..]) && todo == [todo[0]] + todo[1..]
    ensures var m := if keep == Some(todo[0]) then s else FreeSta(s, todo[0]);
      && Pool(m) && Queues(m) && (keep == Some(todo[0]) || Emptied(s, m, [todo[0]], None))
      && forall x :: x in todo[1..] ==> InUse(m, x)
  {
    var x, rest := todo[0], todo[1..];
    assert todo == [x] + rest && x !in rest;
    FreeStep(s, x);
  }

  lemma {:induction false} FreeChainEffect(s: Ap, todo: seq<nat>, keep: Option<nat>)
    requires Pool(s) && Queues(s) && NoDup(todo) && forall x :: x in todo ==> InUse(s, x)
    ensures AllBelow(todo, NUM_STA)
    ensures var r := FreeChain(s, todo, keep); Pool(r) && Queues(r) && Emptied(s, r, todo, keep)
    decreases |todo|
  {
    assert forall i :: 0 <= i < |todo| ==> todo[i] in todo;
    if todo != [] {
      var x, rest := todo[0], todo[1..];
      FreeChainFirst(s, todo, keep);
      var m := if keep == Some(x) then s else FreeSta(s, x);
      FreeChainEffect(m, rest, keep);
      EmptiedExtends(s, m, FreeChain(m, rest, keep), x, rest, keep);
    }
  }

  lemma {:induction false} FreeChainsEffect(s: Ap, h: nat, keep: Option<nat>)
    requires Pool(s) && Queues(s) && h <= NUM_STA
    ensures var r := FreeChains(s, h, keep);
      && Pool(r) && Queues(r) && Shrunk(s, r)
      && forall x :: InUse(r, x) <==> InUse(s, x) && (WifiMacHash(s.sta[x].hwaddr) < h || keep == Some(x))
    decreases NUM_STA - h
  {
    if h < NUM_STA {
      PoolGivesRanges(s);
      assert ChainOk(s, h);
      FreeChainEffect(s, s.hash[h], keep);
      var m := FreeChain(s, s.hash[h], keep);
      FreeChainsEffect(m, h + 1, keep);
      forall x | InUse(s, x)
        ensures InUse(FreeChains(s, h, keep), x) <==> WifiMacHash(s.sta[x].hwaddr) < h || keep == Some(x)
      {
        assert x in s.hash[h] <==> WifiMacHash(s.sta[x].hwaddr) == h;
        assert InUse(m, x) ==> m.sta[x] == s.sta[x];
      }
    }
  }

  /**
   free_all_stainfo empties the pool except for the broadcast station; when exactly one station is
   in use it does nothing at all, whoever that station is.
   */
  lemma FreeAllEffect(s: Ap)
    requires Pool(s) && Queues(s)
    ensures ChainsInRange(s)
    ensures var r := FreeAll(s);
      && Pool(r) && Queues(r) && Shrunk(s, r)
      && forall x: nat :: InUse(r, x) <==> InUse(s, x) && (s.count == 1 || s.sta[x].hwaddr == BROADCAST)
  {
    LookupRefinesMap(s, BROADCAST);
    FreeChainsEffect(s, 0, Lookup(s, BROADCAST));
  }

  /** Exactly the broadcast station is left if and only if it was in use before. */
  lemma FreeAllLeavesBroadcast(s: Ap)
    requires Pool(s) && Queues(s)
    ensures ChainsInRange(s)
    ensures (exists b: nat :: InUse(s, b) && s.sta[b].hwaddr == BROADCAST) <==>
            (exists b: nat :: InUse(FreeAll(s), b) && FreeAll(s).sta[b].hwaddr == BROADCAST
               && forall x: nat :: InUse(FreeAll(s), x) ==> x == b)
  {
    FreeAllEffect(s);
    var r := FreeAll(s);
    if b: nat :| InUse(s, b) && s.sta[b].hwaddr == BROADCAST {
      assert InUse(r, b) && r.sta[b] == s.sta[b];
      forall x: nat | InUse(r, x) ensures x == b {
        if s.count == 1 {
          OneInUse(s, x, b);
        } else {
          assert s.sta[x].hwaddr == s.sta[b].hwaddr;
        }
      }
    }
    if b: nat :| InUse(r, b) && r.sta[b].hwaddr == BROADCAST && forall x: nat :: InUse(r, x) ==> x == b {
      assert InUse(s, b) && s.sta[b].hwaddr == BROADCAST;
    }
  }

  // ---- rtw_sta_flush, stop_ap_mode, start_ap_mode ---------------------------------------------

  /** rtw_sta_flush: asoc_list is walked while its stations are freed. */
  function FlushAsoc(s: Ap, cfg: Config, todo: seq<nat>): (r: Ap)
    requires Shape(s) && AllBelow(todo, NUM_STA)
    ensures Shape(r)
    decreases |todo|
  {
    if todo == [] then s
    else FlushAsoc(ApFreeSta(s.(asoc := Without(s.asoc, todo[0])), cfg, todo[0]), cfg, todo[1..])
  }

  lemma ListedBelow(s: Ap)
    requires Queues(s)
    ensures AllBelow(s.auth, NUM_STA) && AllBelow(s.asoc, NUM_STA)
  {
    assert forall i :: 0 <= i < |s.auth| ==> s.auth[i] in s.auth;
    assert forall i :: 0 <= i < |s.asoc| ==> s.asoc[i] in s.asoc;
  }

  lemma DelistKeepsGood(s: Ap, cfg: Config, x: nat)
    requires Good(cfg, s) && x in s.asoc
    ensures x < NUM_STA && InUse(s, x) && x !in s.auth && Good(cfg, s.(asoc := Without(s.asoc, x)))
  {
    assert AidOk(s, x) && LogOk(s, x);
    FrameKeepsGood(cfg, s, s.(asoc := Without(s.asoc, x)), x);
  }

  /** The stations of `todo` have been freed and taken off asoc_list. */
  ghost predicate Flushed(s: Ap, r: Ap, todo: seq<nat>)
    requires Shape(s) && Shape(r)
  {
    && Emptied(s, r, todo, None) && r.auth == s.auth
    && forall x :: x in r.asoc <==> x in s.asoc && x !in todo
  }

  lemma FlushStep(s: Ap, cfg: Config, x: nat)
    requires Good(cfg, s) && x in s.asoc
    ensures x < NUM_STA
    ensures var m := ApFreeSta(s.(asoc := Without(s.asoc, x)), cfg, x); Good(cfg, m) && Flushed(s, m, [x])
  {
    DelistKeepsGood(s, cfg, x);
    var d := s.(asoc := Without(s.asoc, x));
    ApFreeKeepsGood(d, cfg, x);
    assert Without(d.asoc, x) == d.asoc;
  }

  lemma FlushFirst(s: Ap, cfg: Config, todo: seq<nat>)
    requires Good(cfg, s) && NoDup(todo) && todo != [] && forall x :: x in todo ==> x in s.asoc
    ensures todo[0] < NUM_STA && todo == [todo[0]] + todo[1..] && todo[0] !in todo[1..] && NoDup(todo[1..])
    ensures var m := ApFreeSta(s.(asoc := Without(s.asoc, todo[0])), cfg, todo[0]);
      Good(cfg, m) && Flushed(s, m, [todo[0]]) && forall x :: x in todo[1..] ==> x in m.asoc
  {
    assert todo[0] in todo;
    FlushStep(s, cfg, todo[0]);
  }

  lemma FlushedExtends(s: Ap, m: Ap, r: Ap, x: nat, rest: seq<nat>)
    requires Shape(s) && Shape(m) && Shape(r) && Flushed(s, m, [x]) && Flushed(m, r, rest)
    ensures Flushed(s, r, [x] + rest)
  {
    EmptiedExtends(s, m, r, x, rest, None);
  }

  lemma {:induction false} FlushEffect(s: Ap, cfg: Config, todo: seq<nat>)
    requires Good(cfg, s) && NoDup(todo) && forall x :: x in todo ==> x in s.asoc
    ensures AllBelow(todo, NUM_STA)
    ensures var r := FlushAsoc(s, cfg, todo); Good(cfg, r) && Flushed(s, r, todo)
    decreases |todo|
  {
    ListedBelow(s);
    assert forall i :: 0 <= i < |todo| ==> todo[i] in s.asoc;
    if todo != [] {
      FlushFirst(s, cfg, todo);
      var m := ApFreeSta(s.(asoc := Without(s.asoc, todo[0])), cfg, todo[0]);
      FlushEffect(m, cfg, todo[1..]);
      FlushedExtends(s, m, FlushAsoc(m, cfg, todo[1..]), todo[0], todo[1..]);
    }
  }

  /** The state stop_ap_mode is in after rtw_sta_flush. */
  function Flush(s: Ap, cfg: Config): (r: Ap)
    requires Shape(s)
    ensures Shape(r)
  {
    if AllBelow(s.asoc, NUM_STA) then FlushAsoc(s, cfg, s.asoc) else s
  }

  /** init_bcmc_stainfo */
  function InitBcmc(s: Ap): (r: Ap)
    requires Shape(s) && AllBelow(s.free, NUM_STA)
  {
    var (s, slot) := Alloc(s, BROADCAST);
    if slot.None? || slot.value >= NUM_STA then s
    else s.(sta := s.sta[slot.value := s.sta[slot.value].(macId := 1)])
  }

  /** get_stainfo and free_stainfo of what it finds. */
  function FreeAt(s: Ap, addr: Mac): (r: Ap)
    requires Pool(s)
    ensures Shape(r)
  {
    LookupRefinesMap(s, addr);
    var x := Lookup(s, addr);
    if x.None? then s else FreeSta(s, x.value)
  }

  lemma FreeAtEffect(s: Ap, addr: Mac)
    requires Pool(s) && Queues(s)
    ensures var r := FreeAt(s, addr);
      && Pool(r) && Queues(r) && Shrunk(s, r)
      && forall x: nat :: InUse(r, x) <==> InUse(s, x) && s.sta[x].hwaddr != Canonical(addr)
  {
    LookupRefinesMap(s, addr);
    if x: nat :| Lookup(s, addr) == Some(x) {
      FreeStep(s, x);
      assert forall y: nat :: InUse(s, y) && s.sta[y].hwaddr == Canonical(addr) ==> Lookup(s, addr) == Some(y);
    }
  }

  /** The frees of both stop_ap_mode and free_assoc_resources: all stations, then the broadcast one. */
  function FreeStations(s: Ap): (r: Ap)
    requires Pool(s) && Queues(s)
    ensures Shape(r)
  {
    FreeAllEffect(s);
    FreeAt(FreeAll(s), BROADCAST)
  }

  lemma FreeStationsEffect(s: Ap)
    requires Pool(s) && Queues(s)
    ensures var r := FreeStations(s);
      && Pool(r) && Queues(r) && Shrunk(s, r)
      && forall x: nat :: InUse(r, x) <==> InUse(s, x) && s.count == 1 && s.sta[x].hwaddr != BROADCAST
  {
    FreeAllEffect(s);
    FreeAtEffect(FreeAll(s), BROADCAST);
    assert Canonical(BROADCAST) == BROADCAST;
  }

  /** Those frees, and the broadcast station made anew: stop_ap_mode after the flush. */
  function RenewPool(s: Ap): (r: Ap)
    requires Pool(s) && Queues(s)
    ensures Shape(r)
  {
    FreeStationsEffect(s);
    InitBcmc(FreeStations(s))
  }

  /** start_ap_mode */
  function StartAp(s: Ap): (r: Ap) {
    s.(bss := Bss(All(0), HtOpMode(Pure, false, false), false, []),
       aids := seq(NUM_STA, i => None),
       leak := All(0))
  }

  /** What start_ap_mode finds: nobody listed, and every station in use as good as new. */
  ghost predicate Quiet(s: Ap) {
    && Pool(s) && s.auth == s.asoc == [] && s.maxNumSta <= NUM_STA
    && forall x :: InUse(s, x) ==>
        var p := s.sta[x];
        p.aid == 0 && p.macId <= 1 && p.authSeq == 0 && !p.state.authSuccess && p.capSet == All(false)
  }

  lemma StartIsGood(s: Ap, cfg: Config)
    requires Quiet(s)
    ensures Good(cfg, StartAp(s))
  {
    var r := StartAp(s);
    PoolFrame(s, r);
    forall c: Cap ensures r.bss.counter.Get(c) == |Flagged(r, c)| + r.leak.Get(c) && r.leak.Get(c) >= 0 {
      forall x: nat ensures !HasFlag(r, x, c) {
        if InUse(r, x) {
          assert InUse(s, x);
        }
        match c case NonErp => case NoShortSlot => case NoShortPreamble => case NoHtGf => case NoHt => case Ht20Mhz =>
      }
      assert Flagged(r, c) == {};
      match c case NonErp => case NoShortSlot => case NoShortPreamble => case NoHtGf => case NoHt => case Ht20Mhz =>
    }
    forall x | InUse(r, x) ensures AidOk(r, x) && LogOk(r, x) {
      assert InUse(s, x);
    }
  }

  lemma NonEmptyHasMember(q: seq<nat>)
    ensures q != [] ==> exists x :: x in q
  {
    assert q != [] ==> q[0] in q;
  }

  lemma NobodyListed(s: Ap)
    requires Queues(s) && forall x :: !InUse(s, x)
    ensures s.auth == [] && s.asoc == []
  {
    NonEmptyHasMember(s.auth);
    NonEmptyHasMember(s.asoc);
  }

  /** Exactly the broadcast station is in use. */
  ghost predicate OnlyBroadcast(s: Ap)
    requires Shape(s)
  {
    exists b: nat :: InUse(s, b) && s.sta[b].hwaddr == BROADCAST && forall x :: InUse(s, x) ==> x == b
  }

  /** An empty pool, with a fresh broadcast station. */
  lemma InitBcmcIsQuiet(s: Ap)
    requires Pool(s) && Queues(s) && s.maxNumSta <= NUM_STA && forall x :: !InUse(s, x)
    ensures Quiet(InitBcmc(s)) && OnlyBroadcast(InitBcmc(s))
  {
    NobodyListed(s);
    AllocKeepsPool(s, BROADCAST);
    var m := Alloc(s, BROADCAST).0;
    assert InUse(s, 0) || 0 in s.free;
    var b := s.free[0];
    var r := InitBcmc(s);
    PoolFrame(m, r);
    assert InUse(r, b) && r.sta[b].hwaddr == BROADCAST;
  }

  lemma InitBcmcKeeps(s: Ap, z: nat)
    requires Pool(s) && InUse(s, z)
    ensures var r := InitBcmc(s); Shape(r) && InUse(r, z) && r.sta[z] == s.sta[z]
  {
    assert s.free != [] ==> s.free[0] in s.free;
  }

  /** With one station in use that is not the broadcast station, stop_ap_mode frees nobody. */
  lemma StopLeavesStranger(s: Ap)
    requires Pool(s) && Queues(s) && s.count == 1 && !OnlyBroadcast(s)
    ensures !OnlyBroadcast(RenewPool(s))
  {
    CountIsInUse(s);
    var z :| z in Used(s);
    forall x | InUse(s, x) ensures x == z {
      OneInUse(s, x, z);
    }
    assert s.sta[z].hwaddr != BROADCAST;
    FreeStationsEffect(s);
    InitBcmcKeeps(FreeStations(s), z);
  }

  /**
   stop_ap_mode leaves a quiet pool with exactly the broadcast station, unless the flush left one
   single station that is not the broadcast station: that one is then still there.
   */
  lemma StopEffect(s: Ap)
    requires Pool(s) && Queues(s) && s.maxNumSta <= NUM_STA
    ensures var r := RenewPool(s);
      && (OnlyBroadcast(r) <==> s.count != 1 || OnlyBroadcast(s))
      && (OnlyBroadcast(r) ==> Quiet(r))
  {
    FreeStationsEffect(s);
    if s.count != 1 || OnlyBroadcast(s) {
      InitBcmcIsQuiet(FreeStations(s));
    } else {
      StopLeavesStranger(s);
    }
  }

  /** _init_sta_priv: every slot on the free queue in order, every chain empty. */
  function FreshAp(): (r: Ap)
    ensures Shape(r)
  {
    Ap(seq(NUM_STA, i => Blank(BROADCAST)), seq(NUM_STA, i => i), seq(NUM_STA, i => []), 0,
       seq(NUM_STA, i => None), NUM_STA, [], [],
       Bss(All(0), HtOpMode(Pure, false, false), false, []), All(0))
  }

  lemma {:induction false} EmptyChains(chains: seq<seq<nat>>)
    requires forall h :: 0 <= h < |chains| ==> chains[h] == []
    ensures TotalLength(chains) == 0
  {
    if chains != [] {
      EmptyChains(chains[1..]);
    }
  }

  lemma NobodyFresh()
    ensures forall x :: !InUse(FreshAp(), x)
  {
    var r := FreshAp();
    forall x ensures !InUse(r, x) {
      assert 0 <= x < NUM_STA ==> r.free[x] == x;
    }
  }

  lemma FreshIsQuiet()
    ensures Quiet(FreshAp()) && forall x :: !InUse(FreshAp(), x)
  {
    var r := FreshAp();
    EmptyChains(r.hash);
    NobodyFresh();
    forall h | 0 <= h < NUM_STA ensures ChainOk(r, h) {
      assert r.hash[h] == [];
    }
  }
}
