/**
 The two-second tick: both lists are walked while their stations are being freed. Each listed
 station is visited once, and exactly those whose countdown reaches zero disappear.
 */
module ApExpiry {
  import opened Lists
  import opened MacAddress
  import opened ApState
  import opened ApPool
  import opened ApInvariant
  import opened ApCounters
  import opened ApHandlers

  /** expire_timeout_chk */
  function Tick(s: Ap, cfg: Config): (r: Ap)
    requires Shape(s) && AllBelow(s.auth, NUM_STA)
    ensures Shape(r)
  {
    var s := TickAuth(s, s.auth);
    if AllBelow(s.asoc, NUM_STA) then TickAsoc(s, cfg, s.asoc) else s
  }

  // ---- one station ---------------------------------------------------------------------------

  lemma WithoutTwice(q: seq<nat>, x: nat)
    ensures Without(Without(q, x), x) == Without(q, x)
  {
  }

  /** Freeing does not look at what the visit changed just before. */
  lemma UnlinkForgets(s: Ap, x: nat, e: nat)
    requires Shape(s) && x < NUM_STA
    ensures Unlink(s.(sta := s.sta[x := s.sta[x].(expireTo := e)], auth := Without(s.auth, x)), x) == Unlink(s, x)
  {
    WithoutTwice(s.auth, x);
    var p := s.sta[x];
    assert s.sta[x := p.(expireTo := e)][x := p.(expireTo := 0)] == s.sta[x := p.(expireTo := 0)];
  }

  lemma TickAuthExpires(s: Ap, x: nat)
    requires Shape(s) && x < NUM_STA && s.sta[x].expireTo == 1
    ensures TickAuthOne(s, x) == FreeSta(s, x)
  {
    UnlinkForgets(s, x, 0);
  }

  /** What a visit on auth_list does to station `x`. */
  ghost predicate AuthVisited(s: Ap, r: Ap, x: nat)
    requires Shape(s) && Shape(r) && x < NUM_STA
  {
    if s.sta[x].expireTo == 1 then x !in r.auth && !InUse(r, x)
    else x in r.auth && InUse(r, x) && r.sta[x] == s.sta[x].(expireTo := Decremented(s.sta[x].expireTo))
  }

  /** The stations of `todo` have been visited on auth_list and nothing else has changed for any station. */
  ghost predicate AuthWalked(s: Ap, r: Ap, todo: seq<nat>)
    requires Shape(s) && Shape(r)
  {
    && r.asoc == s.asoc
    && (forall x :: x in todo ==> x < NUM_STA && AuthVisited(s, r, x))
    && (forall x: nat :: x !in todo ==> (x in r.auth <==> x in s.auth) && (InUse(r, x) <==> InUse(s, x)))
    && (forall x: nat :: x < NUM_STA && x !in todo ==> r.sta[x] == s.sta[x])
  }

  lemma TickAuthOneKeepsGood(s: Ap, cfg: Config, x: nat)
    requires Good(cfg, s) && x in s.auth
    ensures x < NUM_STA && InUse(s, x) && s.sta[x].expireTo > 0
    ensures var r := TickAuthOne(s, x);
      && Good(cfg, r) && AuthWalked(s, r, [x])
      && r.leak == if s.sta[x].expireTo == 1 then AddBits(s.leak, s.sta[x].capSet) else s.leak
  {
    assert AidOk(s, x) && LogOk(s, x);
    if s.sta[x].expireTo == 1 {
      TickAuthExpires(s, x);
      FreeKeepsGood(s, cfg, x);
      FreeKeepsCounted(s, x);
      FreeEffect(s, x);
    } else {
      FrameKeepsGood(cfg, s, TickAuthOne(s, x), x);
    }
  }

  /** What a visit on asoc_list does to station `x`. */
  ghost predicate AsocVisited(s: Ap, cfg: Config, r: Ap, x: nat)
    requires Shape(s) && Shape(r) && x < NUM_STA
  {
    if Countdown(cfg, s.sta[x]) == 1 then x !in r.asoc && !InUse(r, x)
    else x in r.asoc && InUse(r, x) && r.sta[x] == Visited(cfg, s.sta[x])
  }

  lemma AsocRecordKeepsGood(s: Ap, cfg: Config, x: nat, asoc: seq<nat>)
    requires Good(cfg, s) && x in s.asoc && (asoc == s.asoc || asoc == Without(s.asoc, x))
    ensures x < NUM_STA && InUse(s, x) && x !in s.auth
    ensures Good(cfg, s.(sta := s.sta[x := Visited(cfg, s.sta[x])], asoc := asoc))
  {
    assert AidOk(s, x) && LogOk(s, x);
    FrameKeepsGood(cfg, s, s.(sta := s.sta[x := Visited(cfg, s.sta[x])], asoc := asoc), x);
  }

  lemma TickAsocExpires(s: Ap, cfg: Config, x: nat)
    requires Good(cfg, s) && x in s.asoc
    ensures x < NUM_STA && InUse(s, x)
    ensures Countdown(cfg, s.sta[x]) == 1 ==>
      var r := TickAsocOne(s, cfg, x);
      && Good(cfg, r) && OthersKept(s, r, x) && r.auth == s.auth && r.leak == s.leak
      && r.asoc == Without(s.asoc, x) && !InUse(r, x)
  {
    AsocRecordKeepsGood(s, cfg, x, Without(s.asoc, x));
    var m := s.(sta := s.sta[x := Visited(cfg, s.sta[x])], asoc := Without(s.asoc, x));
    ApFreeKeepsGood(m, cfg, x);
    WithoutTwice(s.asoc, x);
  }

  /** The stations of `todo` have been visited on asoc_list and nothing else has changed for any station. */
  ghost predicate AsocWalked(s: Ap, cfg: Config, r: Ap, todo: seq<nat>)
    requires Shape(s) && Shape(r)
  {
    && r.auth == s.auth && r.leak == s.leak
    && (forall x :: x in todo ==> x < NUM_STA && AsocVisited(s, cfg, r, x))
    && (forall x: nat :: x !in todo ==> (x in r.asoc <==> x in s.asoc) && (InUse(r, x) <==> InUse(s, x)))
    && (forall x: nat :: x < NUM_STA && x !in todo ==> r.sta[x] == s.sta[x])
  }

  lemma TickAsocOneKeepsGood(s: Ap, cfg: Config, x: nat)
    requires Good(cfg, s) && x in s.asoc
    ensures x < NUM_STA && InUse(s, x)
    ensures var r := TickAsocOne(s, cfg, x);
      && Good(cfg, r) && AsocWalked(s, cfg, r, [x])
  {
    TickAsocExpires(s, cfg, x);
    if Countdown(cfg, s.sta[x]) != 1 {
      AsocRecordKeepsGood(s, cfg, x, s.asoc);
      var m := s.(sta := s.sta[x := Visited(cfg, s.sta[x])], asoc := s.asoc);
      assert TickAsocOne(s, cfg, x) == m;
    }
  }

  // ---- both walks ----------------------------------------------------------------------------

  /** The leak after the stations of `todo` that are about to expire have been freed directly. */
  function LeakAfter(sta: seq<StaInfo>, todo: seq<nat>, leak: Six<int>): (r: Six<int>)
    requires AllBelow(todo, |sta|)
  {
    if todo == [] then leak
    else LeakAfter(sta, todo[1..], if sta[todo[0]].expireTo == 1 then AddBits(leak, sta[todo[0]].capSet) else leak)
  }

  lemma {:induction false} LeakAfterFrame(s: seq<StaInfo>, r: seq<StaInfo>, todo: seq<nat>, leak: Six<int>)
    requires AllBelow(todo, |s|) && |s| == |r| && forall x :: x in todo ==> r[x] == s[x]
    ensures LeakAfter(r, todo, leak) == LeakAfter(s, todo, leak)
  {
    if todo != [] {
      LeakAfterFrame(s, r, todo[1..], if s[todo[0]].expireTo == 1 then AddBits(leak, s[todo[0]].capSet) else leak);
    }
  }

  lemma AuthWalkExtends(s: Ap, m: Ap, r: Ap, x: nat, rest: seq<nat>)
    requires Shape(s) && Shape(m) && Shape(r) && x !in rest
    requires AuthWalked(s, m, [x]) && AuthWalked(m, r, rest)
    ensures AuthWalked(s, r, [x] + rest)
  {
    forall y | y in [x] + rest ensures y < NUM_STA && AuthVisited(s, r, y) {
      if y != x {
        assert AuthVisited(m, r, y);
        assert m.sta[y] == s.sta[y];
      }
    }
  }

  lemma AuthFirst(s: Ap, cfg: Config, todo: seq<nat>)
    requires Good(cfg, s) && NoDup(todo) && todo != [] && forall x :: x in todo ==> x in s.auth
    ensures todo[0] < NUM_STA && todo == [todo[0]] + todo[1..] && todo[0] !in todo[1..] && NoDup(todo[1..])
    ensures var m := TickAuthOne(s, todo[0]);
      && Good(cfg, m) && AuthWalked(s, m, [todo[0]])
      && forall y :: y in todo[1..] ==> y in m.auth
  {
    assert todo[0] in todo;
    TickAuthOneKeepsGood(s, cfg, todo[0]);
  }

  lemma {:induction false} TickAuthKeepsGood(s: Ap, cfg: Config, todo: seq<nat>)
    requires Good(cfg, s) && NoDup(todo) && forall x :: x in todo ==> x in s.auth
    ensures AllBelow(todo, NUM_STA)
    ensures Good(cfg, TickAuth(s, todo)) && AuthWalked(s, TickAuth(s, todo), todo)
    decreases |todo|
  {
    assert forall i :: 0 <= i < |todo| ==> todo[i] in s.auth;
    if todo != [] {
      AuthFirst(s, cfg, todo);
      var m := TickAuthOne(s, todo[0]);
      TickAuthKeepsGood(m, cfg, todo[1..]);
      AuthWalkExtends(s, m, TickAuth(m, todo[1..]), todo[0], todo[1..]);
    }
  }

  lemma {:induction false} TickAuthLeaks(s: Ap, cfg: Config, todo: seq<nat>)
    requires Good(cfg, s) && NoDup(todo) && forall x :: x in todo ==> x in s.auth
    ensures AllBelow(todo, NUM_STA) && TickAuth(s, todo).leak == LeakAfter(s.sta, todo, s.leak)
    decreases |todo|
  {
    assert forall i :: 0 <= i < |todo| ==> todo[i] in s.auth;
    if todo != [] {
      AuthFirst(s, cfg, todo);
      TickAuthOneKeepsGood(s, cfg, todo[0]);
      var m := TickAuthOne(s, todo[0]);
      TickAuthLeaks(m, cfg, todo[1..]);
      LeakAfterFrame(s.sta, m.sta, todo[1..], m.leak);
    }
  }

  lemma AsocWalkExtends(s: Ap, cfg: Config, m: Ap, r: Ap, x: nat, rest: seq<nat>)
    requires Shape(s) && Shape(m) && Shape(r) && x !in rest
    requires AsocWalked(s, cfg, m, [x]) && AsocWalked(m, cfg, r, rest)
    ensures AsocWalked(s, cfg, r, [x] + rest)
  {
    forall y | y in [x] + rest ensures y < NUM_STA && AsocVisited(s, cfg, r, y) {
      if y != x {
        assert AsocVisited(m, cfg, r, y);
        assert m.sta[y] == s.sta[y];
      }
    }
  }

  lemma AsocFirst(s: Ap, cfg: Config, todo: seq<nat>)
    requires Good(cfg, s) && NoDup(todo) && todo != [] && forall x :: x in todo ==> x in s.asoc
    ensures todo[0] < NUM_STA && todo == [todo[0]] + todo[1..] && todo[0] !in todo[1..] && NoDup(todo[1..])
    ensures var m := TickAsocOne(s, cfg, todo[0]);
      && Good(cfg, m) && AsocWalked(s, cfg, m, [todo[0]])
      && forall y :: y in todo[1..] ==> y in m.asoc
  {
    assert todo[0] in todo;
    TickAsocOneKeepsGood(s, cfg, todo[0]);
  }

  lemma {:induction false} TickAsocKeepsGood(s: Ap, cfg: Config, todo: seq<nat>)
    requires Good(cfg, s) && NoDup(todo) && forall x :: x in todo ==> x in s.asoc
    ensures AllBelow(todo, NUM_STA)
    ensures Good(cfg, TickAsoc(s, cfg, todo)) && AsocWalked(s, cfg, TickAsoc(s, cfg, todo), todo)
    decreases |todo|
  {
    assert forall i :: 0 <= i < |todo| ==> todo[i] in s.asoc;
    if todo != [] {
      AsocFirst(s, cfg, todo);
      var m := TickAsocOne(s, cfg, todo[0]);
      TickAsocKeepsGood(m, cfg, todo[1..]);
      AsocWalkExtends(s, cfg, m, TickAsoc(m, cfg, todo[1..]), todo[0], todo[1..]);
    }
  }

  /**
   One tick. Listed stations are freed exactly when their countdown is one; the leak grows by the
   flagged ones among the expired stations of auth_list and by nothing else.
   */
  lemma TickEffect(s: Ap, cfg: Config)
    requires Good(cfg, s)
    ensures AllBelow(s.auth, NUM_STA)
    ensures var r := Tick(s, cfg);
      && Good(cfg, r)
      && (forall x :: x in s.auth ==> AuthVisited(s, r, x))
      && (forall x :: x in s.asoc ==> AsocVisited(s, cfg, r, x))
      && (forall x: nat :: x < NUM_STA && x !in s.auth && x !in s.asoc ==>
            r.sta[x] == s.sta[x] && (InUse(r, x) <==> InUse(s, x)) && x !in r.auth && x !in r.asoc)
      && r.leak == LeakAfter(s.sta, s.auth, s.leak)
  {
    TickAuthKeepsGood(s, cfg, s.auth);
    TickAuthLeaks(s, cfg, s.auth);
    var m := TickAuth(s, s.auth);
    TickAsocKeepsGood(m, cfg, m.asoc);
    var r := Tick(s, cfg);
    assert r == TickAsoc(m, cfg, m.asoc);
    forall x | x in s.auth ensures AuthVisited(s, r, x) {
      assert AuthVisited(s, m, x);
      assert x !in m.asoc;
    }
    forall x | x in s.asoc ensures AsocVisited(s, cfg, r, x) {
      assert x !in s.auth;
      assert AsocVisited(m, cfg, r, x);
      assert m.sta[x] == s.sta[x];
    }
  }
}
