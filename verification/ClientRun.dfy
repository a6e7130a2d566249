/** Whole runs of a join: the phases are passed in order, and the link timer fires a bounded number of times. */
module ClientRun {
  import opened ClientLink

  /** The timer is armed in the linking phases only, and the retry counts are within their limits. */
  predicate Sound(c: Client) {
    && (c.armed ==> Linking(c.phase))
    && (c.phase == Authenticating ==> c.reauth <= REAUTH_LIMIT && c.reassoc == 0)
    && (c.phase == Associating ==> c.reassoc <= REASSOC_LIMIT)
  }

  lemma StepIsSound(c: Client, e: Event)
    requires Sound(c)
    ensures Sound(Step(c, e))
  {
  }

  function Run(c: Client, es: seq<Event>): (r: Client) {
    if es == [] then c else Step(Run(c, es[..|es| - 1]), es[|es| - 1])
  }

  lemma {:induction false} RunIsSound(c: Client, es: seq<Event>)
    requires Sound(c)
    ensures Sound(Run(c, es))
  {
    if es != [] {
      RunIsSound(c, es[..|es| - 1]);
      StepIsSound(Run(c, es[..|es| - 1]), es[|es| - 1]);
    }
  }

  // The order of the phases.

  function After(c: Client, es: seq<Event>, k: nat): (r: Client)
    requires k <= |es|
  {
    Run(c, es[..k])
  }

  /** The event that enters a phase, and the phase it enters from. */
  predicate Enters(before: Client, e: Event, p: Phase) {
    match p
    case Idle => true
    case WaitBeacon => e == Join(true, true)
    case Authenticating => before.phase == WaitBeacon && e == Beacon(false, true)
    case Associating =>
      && before.phase == Authenticating && e.AuthRsp? && e.toMe && e.status == 0
      && (if before.algo == SharedKey then e.seqNo == 4 else e.seqNo == 2)
    case Linked => before.phase == Associating && e.AssocRsp? && e.toMe && e.status == 0
  }

  lemma ChangeEnters(c: Client, e: Event)
    ensures Step(c, e).phase != c.phase ==> Enters(c, e, Step(c, e).phase)
  {
  }

  /** Event `k` entered the phase the run ends in, which has held since. */
  ghost predicate EnteredAt(c: Client, es: seq<Event>, k: nat) {
    && k < |es| && Enters(After(c, es, k), es[k], Run(c, es).phase)
    && forall m :: k < m <= |es| ==> After(c, es, m).phase == Run(c, es).phase
  }

  /** A phase other than Idle was entered by its event. */
  lemma {:induction false} WasEntered(c: Client, es: seq<Event>) returns (k: nat)
    requires c.phase == Idle && Run(c, es).phase != Idle
    ensures EnteredAt(c, es, k)
  {
    var n := |es| - 1;
    var before := Run(c, es[..n]);
    assert es[..|es|] == es;
    if before.phase == Run(c, es).phase {
      k := WasEntered(c, es[..n]);
      assert es[..n][..k] == es[..k];
      forall m | k < m <= |es|
        ensures After(c, es, m).phase == Run(c, es).phase
      {
        assert m <= n ==> es[..n][..m] == es[..m];
        assert m <= n ==> After(c, es[..n], m).phase == before.phase;
      }
    } else {
      k := n;
      ChangeEnters(before, es[n]);
    }
  }

  /**
   A linked run ended with a join command, a beacon of the network, an accepted authentication and
   an accepted association, in that order, with each phase held from one to the next.
   */
  lemma LinkedThroughAllPhases(c: Client, es: seq<Event>) returns (join: nat, beacon: nat, auth: nat, assoc: nat)
    requires c.phase == Idle && Run(c, es).phase == Linked
    ensures join < beacon < auth < assoc < |es|
    ensures After(c, es, beacon).phase == WaitBeacon && After(c, es, auth).phase == Authenticating
    ensures After(c, es, assoc).phase == Associating
    ensures EnteredAt(c, es, assoc) && EnteredAt(c, es[..assoc], auth) && EnteredAt(c, es[..auth], beacon) && EnteredAt(c, es[..beacon], join)
  {
    assoc := WasEntered(c, es);
    auth := WasEntered(c, es[..assoc]);
    assert es[..assoc][..auth] == es[..auth];
    beacon := WasEntered(c, es[..auth]);
    assert es[..auth][..beacon] == es[..beacon];
    join := WasEntered(c, es[..beacon]);
  }

  // The number of timer expiries.

  /** How many more times the link timer can fire before the join is over. */
  function Left(c: Client): (r: nat) {
    match c.phase
    case WaitBeacon => Attempt(c.algo)
    case Authenticating =>
      if c.reauth > REAUTH_LIMIT then 0
      else if c.algo == AutoSwitch then Attempt(AutoSwitch) - c.reauth else Attempt(SharedKey) - c.reauth
    case Associating => if c.reassoc > REASSOC_LIMIT then 0 else REASSOC_LIMIT + 1 - c.reassoc
    case _ => 0
  }

  /** The most expiries one join can see. */
  function Attempt(algo: Algo): (r: nat) {
    (if algo == AutoSwitch then 2 * REAUTH_LIMIT + 1 else REAUTH_LIMIT) + REASSOC_LIMIT + 1
  }

  function Fires(c: Client, e: Event): (r: nat) {
    if e == LinkTimer && c.armed then 1 else 0
  }

  function Expiries(c: Client, es: seq<Event>): (r: nat) {
    if es == [] then 0
    else Expiries(c, es[..|es| - 1]) + Fires(Run(c, es[..|es| - 1]), es[|es| - 1])
  }

  lemma StepSpends(c: Client, e: Event)
    requires Sound(c) && !e.Join? && !e.SetAuth?
    ensures Left(Step(c, e)) + Fires(c, e) <= Left(c)
  {
  }

  lemma {:induction false} RunSpends(c: Client, es: seq<Event>)
    requires Sound(c) && forall k :: 0 <= k < |es| ==> !es[k].Join? && !es[k].SetAuth?
    ensures Expiries(c, es) + Left(Run(c, es)) <= Left(c)
  {
    if es != [] {
      var n := |es| - 1;
      RunSpends(c, es[..n]);
      RunIsSound(c, es[..n]);
      StepSpends(Run(c, es[..n]), es[n]);
    }
  }

  /** One join sees at most 2 * REAUTH_LIMIT + REASSOC_LIMIT + 2 expiries, unless the algorithm is set meanwhile. */
  lemma JoinExpiries(c: Client, es: seq<Event>)
    requires Sound(c) && forall k :: 0 <= k < |es| ==> !es[k].Join? && !es[k].SetAuth?
    ensures Expiries(Step(c, Join(true, true)), es) <= Attempt(c.algo) <= 2 * (REAUTH_LIMIT + 1) + REASSOC_LIMIT
  {
    StepIsSound(c, Join(true, true));
    RunSpends(Step(c, Join(true, true)), es);
  }

  /** A run on which the bound is met: five retries of authentication, and association never answered. */
  function WorstEvent(k: nat): (r: Event) {
    if k == 0 then Beacon(false, true) else if k == 6 then AuthRsp(true, 0, 4, false) else LinkTimer
  }

  function WorstRun(): (r: seq<Event>) {
    seq(10, k requires 0 <= k => WorstEvent(k))
  }

  /** The client before event `k` of that run. */
  predicate WorstClient(c: Client, k: nat) {
    && c.phase == (if k == 0 then WaitBeacon else if k <= 6 then Authenticating else if k <= 9 then Associating else Idle)
    && c.algo == (if k <= 3 then AutoSwitch else SharedKey) && c.armed == (k < 10)
    && (1 <= k <= 6 ==> c.reauth == (k - 1) % 3 && c.reassoc == 0) && (7 <= k <= 9 ==> c.reassoc == k - 7)
  }

  lemma WorstStep(c: Client, k: nat)
    requires k < 10 && WorstClient(c, k)
    ensures WorstClient(Step(c, WorstEvent(k)), k + 1) && Fires(c, WorstEvent(k)) == if k == 0 || k == 6 then 0 else 1
  {
  }

  lemma RunStep(c: Client, es: seq<Event>, k: nat)
    requires k < |es|
    ensures After(c, es, k + 1) == Step(After(c, es, k), es[k])
    ensures Expiries(c, es[..k + 1]) == Expiries(c, es[..k]) + Fires(After(c, es, k), es[k])
  {
    assert es[..k + 1][..k] == es[..k];
  }

  lemma {:induction false} WorstSoFar(d: Client, k: nat)
    requires WorstClient(d, 0) && k <= 10
    ensures WorstClient(After(d, WorstRun(), k), k)
    ensures Expiries(d, WorstRun()[..k]) == if k == 0 then 0 else if k <= 6 then k - 1 else k - 2
  {
    if k > 0 {
      WorstSoFar(d, k - 1);
      RunStep(d, WorstRun(), k - 1);
      WorstStep(After(d, WorstRun(), k - 1), k - 1);
    } else {
      assert WorstRun()[..0] == [];
    }
  }

  lemma BoundIsMet(c: Client)
    requires c.algo == AutoSwitch
    ensures Expiries(Step(c, Join(true, true)), WorstRun()) == 2 * (REAUTH_LIMIT + 1) + REASSOC_LIMIT
    ensures Run(Step(c, Join(true, true)), WorstRun()).phase == Idle
  {
    WorstSoFar(Step(c, Join(true, true)), 10);
    assert WorstRun()[..10] == WorstRun();
  }

  // No join waits forever.

  /** While a join is on, the timer behind it is armed. */
  predicate Guarded(c: Client) {
    Linking(c.phase) ==> c.armed
  }

  /** Only a rejected association, or a join command for a network that cannot be joined, leaves a join without its timer. */
  lemma StaysGuardedIff(c: Client, e: Event)
    requires Sound(c) && Guarded(c)
    ensures Guarded(Step(c, e)) <==>
      !(c.phase == Associating && e.AssocRsp? && e.toMe && e.status > 0) && !(Linking(c.phase) && e == Join(true, false))
  {
  }

  function Expire(c: Client, n: nat): (r: Client)
    decreases n
  {
    if n == 0 then c else Expire(Step(c, LinkTimer), n - 1)
  }

  /** Left to itself, a guarded join is given up after at most Left(c) expiries. */
  lemma {:induction false} SilenceEndsJoin(c: Client, n: nat)
    requires Sound(c) && Guarded(c) && c.phase != Linked && n >= Left(c)
    ensures Expire(c, n).phase == Idle
    decreases n
  {
    if Linking(c.phase) {
      StepSpends(c, LinkTimer);
      StepIsSound(c, LinkTimer);
      StaysGuardedIff(c, LinkTimer);
      SilenceEndsJoin(Step(c, LinkTimer), n - 1);
    } else if n > 0 {
      SilenceEndsJoin(Step(c, LinkTimer), n - 1);
    }
  }
}
