/** The invariant of one access-point run and the two ways in which handlers change a station. */
module ApInvariant {
  import opened Wrappers
  import opened Lists
  import opened MacAddress
  import opened ApState
  import opened ApPool

  // ---- association ids -----------------------------------------------------------------------

  /** Station `x` owns the AID-table slot of its AID and the one its MAC id was derived from. */
  ghost predicate AidOk(s: Ap, x: nat)
    requires Shape(s) && x < NUM_STA
  {
    var p := s.sta[x];
    && p.aid <= NUM_STA && (p.aid > 0 ==> s.aids[p.aid - 1] == Some(x))
    && p.macId <= NUM_STA + 1 && (p.macId >= 2 ==> s.aids[p.macId - 2] == Some(x))
  }

  // ---- authentication history ----------------------------------------------------------------

  /** An accepted open exchange, or an accepted challenge answered correctly later. */
  ghost predicate AuthCompleted(log: seq<Milestone>) {
    || OpenAccepted in log
    || exists i, j :: 0 <= i < j < |log| && log[i] == ChallengeIssued && log[j] == ChallengePassed
  }

  /** An accepted association after a completed authentication. */
  ghost predicate Admitted(log: seq<Milestone>) {
    exists k :: 0 <= k < |log| && log[k] == Associated && AuthCompleted(log[..k])
  }

  lemma LogGrows(log: seq<Milestone>, m: Milestone)
    ensures AuthCompleted(log) ==> AuthCompleted(log + [m])
    ensures Admitted(log) ==> Admitted(log + [m])
    ensures m == OpenAccepted ==> AuthCompleted(log + [m])
    ensures m == ChallengePassed && ChallengeIssued in log ==> AuthCompleted(log + [m])
    ensures m == Associated && AuthCompleted(log) ==> Admitted(log + [m])
    ensures ChallengeIssued in log || m == ChallengeIssued ==> ChallengeIssued in log + [m]
  {
    var l := log + [m];
    assert l[|log|] == m;
    assert l[..|log|] == log;
    assert forall i :: 0 <= i < |log| ==> l[i] == log[i];
    if ChallengeIssued in log {
      var i :| 0 <= i < |log| && log[i] == ChallengeIssued;
      assert l[i] == ChallengeIssued;
    }
    if AuthCompleted(log) && OpenAccepted !in log {
      var i, j :| 0 <= i < j < |log| && log[i] == ChallengeIssued && log[j] == ChallengePassed;
      assert l[i] == ChallengeIssued && l[j] == ChallengePassed;
    }
    if Admitted(log) {
      var k :| 0 <= k < |log| && log[k] == Associated && AuthCompleted(log[..k]);
      assert l[..k] == log[..k];
      assert l[k] == Associated;
    }
  }

  /** What the record of a station on or off the two lists says about its history. */
  ghost predicate HistoryOk(p: StaInfo, inAuth: bool, inAsoc: bool) {
    && (p.state.authSuccess ==> AuthCompleted(p.log) && p.authSeq == 0)
    && (p.authSeq == 0 || p.authSeq == 2)
    && (p.authSeq == 2 ==> ChallengeIssued in p.log && inAuth)
    && (inAsoc ==> Admitted(p.log))
    && (inAuth ==> p.expireTo > 0)
  }

  ghost predicate LogOk(s: Ap, x: nat)
    requires Shape(s) && x < NUM_STA
  {
    HistoryOk(s.sta[x], x in s.auth, x in s.asoc)
  }

  ghost predicate StationsOk(s: Ap)
    requires Shape(s)
  {
    forall x :: InUse(s, x) ==> AidOk(s, x) && LogOk(s, x)
  }

  ghost predicate Inv(s: Ap) {
    Pool(s) && Queues(s) && StationsOk(s) && s.maxNumSta <= NUM_STA
  }

  /** `r` differs from `s` only in station `x`: its record, its list membership and AID slots it took. */
  ghost predicate OnlyStation(s: Ap, r: Ap, x: nat)
    requires Shape(s) && Shape(r)
  {
    && SamePool(s, r) && r.maxNumSta == s.maxNumSta
    && (forall y :: 0 <= y < NUM_STA && y != x ==> r.sta[y] == s.sta[y])
    && (forall y: nat :: y != x ==> (y in r.auth <==> y in s.auth) && (y in r.asoc <==> y in s.asoc))
    && (forall k :: 0 <= k < NUM_STA ==> r.aids[k] == s.aids[k] || (s.aids[k] == None && r.aids[k] == Some(x)))
  }

  lemma StationUpdateKeepsQueues(s: Ap, r: Ap, x: nat)
    requires Shape(s) && Queues(s) && InUse(s, x) && Shape(r) && OnlyStation(s, r, x)
    requires NoDup(r.auth) && NoDup(r.asoc) && !(x in r.auth && x in r.asoc)
    ensures Queues(r)
  {
    assert forall y :: y in r.auth ==> y == x || y in s.auth;
    assert forall y :: y in r.asoc ==> y == x || y in s.asoc;
  }

  lemma StationUpdateKeepsInv(s: Ap, r: Ap, x: nat)
    requires Inv(s) && InUse(s, x) && Shape(r) && OnlyStation(s, r, x)
    requires NoDup(r.auth) && NoDup(r.asoc) && !(x in r.auth && x in r.asoc)
    requires AidOk(r, x) && LogOk(r, x)
    ensures Inv(r)
  {
    PoolFrame(s, r);
    StationUpdateKeepsQueues(s, r, x);
    forall y | InUse(r, y) ensures AidOk(r, y) && LogOk(r, y) {
      assert InUse(s, y);
      if y != x {
        assert AidOk(s, y) && LogOk(s, y);
      }
    }
  }

  lemma AllocKeepsInv(s: Ap, addr: Mac)
    requires Inv(s)
    requires forall x :: InUse(s, x) && s.sta[x].hwaddr == addr ==> addr != Canonical(addr)
    ensures var (r, slot) := Alloc(s, addr);
      Inv(r) &&
      if s.free == [] then slot.None? && r == s
      else slot == Some(s.free[0]) && InUse(r, s.free[0]) && OthersKept(s, r, s.free[0])
  {
    AllocKeepsPool(s, addr);
    var (r, slot) := Alloc(s, addr);
    forall y | InUse(r, y) ensures AidOk(r, y) && LogOk(r, y) {
      if slot.Some? && y == slot.value {
        assert !InUse(s, y);
      } else {
        assert AidOk(s, y) && LogOk(s, y);
      }
    }
  }

  /** free_stainfo gives back only the AID-table slot the station itself owns. */
  lemma FreeKeepsInv(s: Ap, x: nat)
    requires Inv(s) && InUse(s, x)
    ensures Inv(FreeSta(s, x))
  {
    FreeEffect(s, x);
    FreeKeepsPool(s, x);
    FreeKeepsQueues(s, x);
    var r := FreeSta(s, x);
    forall y | InUse(r, y) ensures AidOk(r, y) && LogOk(r, y) {
      assert InUse(s, y) && y != x;
      assert AidOk(s, y) && LogOk(s, y);
      assert forall k :: 0 <= k < NUM_STA && s.aids[k] == Some(y) ==> r.aids[k] == Some(y);
    }
  }
}
