/** The station side of a join: beacon, authentication, association, and the one link timer behind them. */
module ClientLink {
  const REAUTH_LIMIT: nat := 2
  const REASSOC_LIMIT: nat := 2

  const STATION_STATE: bv16 := 0x0002
  const AUTH_NULL: bv16 := 0x0100
  const AUTH_STATE: bv16 := 0x0200
  const AUTH_SUCCESS: bv16 := 0x0400
  const ASSOC_STATE: bv16 := 0x2000
  const ASSOC_SUCCESS: bv16 := 0x4000
  const LINKING_STATE: bv16 := AUTH_NULL | AUTH_STATE | AUTH_SUCCESS | ASSOC_STATE

  datatype Algo = OpenSystem | SharedKey | Ieee8021X | AutoSwitch

  datatype Phase = Idle | WaitBeacon | Authenticating | Associating | Linked

  /** What the driver sends or reports; only the history of a run. */
  datatype Effect = SendAuth(seqNo: nat, shared: bool) | SendAssocReq | SendDeauth | ReportJoin(res: int) | ReportDelSta

  /** The state of a join, with the phase in place of the state word. */
  datatype Client = Client(
    phase: Phase,
    algo: Algo,
    authSeq: nat,
    reauth: nat,
    reassoc: nat,
    armed: bool,
    log: seq<Effect>)

  datatype Event =
    | Beacon(scanning: bool, mine: bool)
    | AuthRsp(toMe: bool, status: nat, seqNo: nat, challenge: bool)
    | AssocRsp(toMe: bool, status: nat, aid: nat)
    | Deauth(mine: bool)
    | LinkTimer
    | Join(fits: bool, ess: bool)
    | Disconnect
    | StaDel(ibssEmpty: bool) // whether no entry of FW_sta_info is taken, which infrastructure mode never changes
    | SetAuth(mode: nat)

  /** The state word of each phase. */
  function Word(p: Phase): (r: bv16) {
    match p
    case Idle => 0
    case WaitBeacon => AUTH_NULL | STATION_STATE
    case Authenticating => AUTH_STATE | STATION_STATE
    case Associating => AUTH_SUCCESS | ASSOC_STATE | STATION_STATE
    case Linked => AUTH_SUCCESS | ASSOC_SUCCESS | STATION_STATE
  }

  /** The phase of a state word, Idle for a word that belongs to none. */
  function PhaseOf(state: bv16): (p: Phase)
    ensures forall q :: state == Word(q) ==> p == q
  {
    if state == Word(WaitBeacon) then WaitBeacon
    else if state == Word(Authenticating) then Authenticating
    else if state == Word(Associating) then Associating
    else if state == Word(Linked) then Linked
    else Idle
  }

  const IBSS_START: nat := 6

  /** is_IBSS_empty, on the status fields of FW_sta_info */
  predicate IbssEmpty(status: seq<int>) {
    forall k :: IBSS_START <= k < |status| ==> status[k] != 1
  }

  predicate Linking(p: Phase) {
    p != Idle && p != Linked
  }

  function AuthSent(c: Client, seqNo: nat): (r: Client) {
    c.(authSeq := seqNo, log := c.log + [SendAuth(seqNo, c.algo == SharedKey)])
  }

  function StartAuth(c: Client): (r: Client) {
    AuthSent(c.(phase := Authenticating, reauth := 0, reassoc := 0, armed := true), 1)
  }

  function StartAssoc(c: Client): (r: Client) {
    c.(phase := Associating, armed := true, log := c.log + [SendAssocReq])
  }

  function OnAuthRsp(c: Client, status: nat, seqNo: nat, challenge: bool): (r: Client) {
    if c.phase != Authenticating || status != 0 then c
    else if seqNo == 2 && c.algo == SharedKey then (if challenge then AuthSent(c, 3) else c)
    else if seqNo == 2 || (seqNo == 4 && c.algo == SharedKey) then StartAssoc(c)
    else c
  }

  function OnAssocRsp(c: Client, status: nat, aid: nat): (r: Client) {
    if c.phase != Associating then c
    else if status > 0 then c.(armed := false, log := c.log + [ReportJoin(-4)])
    else c.(phase := Linked, armed := false, log := c.log + [ReportJoin(aid % 0x4000)])
  }

  function OnLinkTimer(c: Client): (r: Client) {
    match c.phase
    case WaitBeacon => c.(phase := Idle, armed := false, log := c.log + [ReportJoin(-3)])
    case Authenticating =>
      if c.reauth + 1 <= REAUTH_LIMIT then AuthSent(c.(reauth := c.reauth + 1, armed := true), 1)
      else if c.algo == AutoSwitch then AuthSent(c.(algo := SharedKey, reauth := 0, armed := true), 1)
      else c.(phase := Idle, reauth := c.reauth + 1, armed := false, log := c.log + [ReportJoin(-1)])
    case Associating =>
      if c.reassoc + 1 <= REASSOC_LIMIT then c.(reassoc := c.reassoc + 1, armed := true, log := c.log + [SendAssocReq])
      else c.(phase := Idle, reassoc := c.reassoc + 1, armed := false, log := c.log + [ReportJoin(-2)])
    case _ => c.(armed := false)
  }

  function OnJoin(c: Client, fits: bool, ess: bool): (r: Client) {
    var d := if c.phase == Linked then c.(phase := Idle, armed := false, log := c.log + [SendDeauth]) else c;
    if !fits then d
    else if ess then d.(phase := WaitBeacon, armed := true)
    else d.(armed := false)
  }

  function OnDeauth(c: Client): (r: Client) {
    if c.phase == Linked then c.(log := c.log + [ReportDelSta])
    else if Linking(c.phase) then c.(log := c.log + [ReportJoin(-2)])
    else c
  }

  function OnDisconnect(c: Client): (r: Client) {
    c.(phase := Idle, armed := false, log := if c.phase == Linked then c.log + [SendDeauth] else c.log)
  }

  function AlgoOf(mode: nat, before: Algo): (r: Algo) {
    if mode == 0 then OpenSystem else if mode == 1 then SharedKey else if mode == 2 then Ieee8021X
    else if mode == 3 then AutoSwitch else before
  }

  /** One event; the link timer only fires while it is armed. */
  function Step(c: Client, e: Event): (r: Client) {
    match e
    case Beacon(scanning, mine) => if !scanning && mine && c.phase == WaitBeacon then StartAuth(c) else c
    case AuthRsp(toMe, status, seqNo, challenge) => if toMe then OnAuthRsp(c, status, seqNo, challenge) else c
    case AssocRsp(toMe, status, aid) => if toMe then OnAssocRsp(c, status, aid) else c
    case Deauth(mine) => if mine then OnDeauth(c) else c
    case LinkTimer => if c.armed then OnLinkTimer(c) else c
    case Join(fits, ess) => OnJoin(c, fits, ess)
    case Disconnect => OnDisconnect(c)
    case StaDel(ibssEmpty) => if c.phase == Linked || ibssEmpty then c.(phase := Idle, armed := false) else c
    case SetAuth(mode) => c.(algo := AlgoOf(mode, c.algo))
  }

  /** mlme_ext_info and the link timer, with the code's own tests of the state word. */
  class MlmeExtInfo {
    var state: bv16
    var authAlgo: Algo
    var authSeq: nat
    var reauthCount: nat
    var reassocCount: nat
    var linkTimer: bool
    ghost var log: seq<Effect>

    /** The state word is that of one of the five phases. */
    ghost predicate Valid()
      reads this
    {
      state == Word(PhaseOf(state))
    }

    ghost function View(): (r: Client)
      reads this
    {
      Client(PhaseOf(state), authAlgo, authSeq, reauthCount, reassocCount, linkTimer, log)
    }

    constructor ()
      ensures Valid() && View() == Client(Idle, OpenSystem, 0, 0, 0, false, [])
    {
      state, authAlgo, authSeq, reauthCount, reassocCount, linkTimer := 0, OpenSystem, 0, 0, 0, false;
      log := [];
    }

    method IssueAuth()
      modifies this`log
      ensures log == old(log) + [SendAuth(authSeq, authAlgo == SharedKey)]
    {
      log := log + [SendAuth(authSeq, authAlgo == SharedKey)];
    }

    method StartClntAuth()
      requires Valid() && state == Word(WaitBeacon)
      modifies this
      ensures Valid() && View() == StartAuth(old(View()))
    {
      linkTimer := false;
      state := state & !AUTH_NULL;
      state := state | AUTH_STATE;
      authSeq := 1;
      reauthCount := 0;
      reassocCount := 0;
      IssueAuth();
      linkTimer := true;
    }

    method StartClntAssoc()
      requires Valid() && state == Word(Authenticating)
      modifies this
      ensures Valid() && View() == StartAssoc(old(View()))
    {
      linkTimer := false;
      state := state & !(AUTH_NULL | AUTH_STATE);
      state := state | (AUTH_SUCCESS | ASSOC_STATE);
      log := log + [SendAssocReq];
      linkTimer := true;
    }

    method OnBeaconFrame(scanning: bool, mine: bool)
      requires Valid()
      modifies this
      ensures Valid() && View() == Step(old(View()), Beacon(scanning, mine))
    {
      if scanning {
        return;
      }
      if mine && state & AUTH_NULL != 0 {
        StartClntAuth();
      }
    }

    method OnAuthClient(toMe: bool, status: nat, seqNo: nat, challenge: bool)
      requires Valid()
      modifies this
      ensures Valid() && View() == Step(old(View()), AuthRsp(toMe, status, seqNo, challenge))
    {
      if !toMe || state & AUTH_STATE == 0 || status != 0 {
        return;
      }
      if seqNo == 2 {
        if authAlgo == SharedKey {
          if challenge {
            authSeq := 3;
            IssueAuth();
          }
          return;
        }
      } else if seqNo == 4 {
        if authAlgo != SharedKey {
          return;
        }
      } else {
        return;
      }
      StartClntAssoc();
    }

    method OnAssocRspFrame(toMe: bool, status: nat, aid: nat)
      requires Valid()
      modifies this
      ensures Valid() && View() == Step(old(View()), AssocRsp(toMe, status, aid))
    {
      if !toMe || state & (AUTH_SUCCESS | ASSOC_STATE) == 0 || state & ASSOC_SUCCESS != 0 {
        return;
      }
      linkTimer := false;
      var res: int;
      if status > 0 {
        res := -4;
      } else {
        res := aid % 0x4000;
        state := state & !ASSOC_STATE;
        state := state | ASSOC_SUCCESS;
      }
      log := log + [ReportJoin(res)];
    }

    method ReceiveDisconnect(mine: bool)
      requires Valid()
      modifies this`log
      ensures Valid() && View() == Step(old(View()), Deauth(mine))
    {
      if !mine {
        return;
      }
      if state & 3 == STATION_STATE {
        if state & ASSOC_SUCCESS != 0 {
          log := log + [ReportDelSta];
        } else if state & LINKING_STATE != 0 {
          log := log + [ReportJoin(-2)];
        }
      }
    }

    method LinkTimerHdl()
      requires Valid() && linkTimer
      modifies this
      ensures Valid() && View() == Step(old(View()), LinkTimer)
    {
      linkTimer := false;
      if state & AUTH_NULL != 0 {
        state := 0;
        log := log + [ReportJoin(-3)];
      } else if state & AUTH_STATE != 0 {
        reauthCount := reauthCount + 1;
        if reauthCount > REAUTH_LIMIT {
          if authAlgo != AutoSwitch {
            state := 0;
            log := log + [ReportJoin(-1)];
            return;
          }
          authAlgo := SharedKey;
          reauthCount := 0;
        }
        authSeq := 1;
        IssueAuth();
        linkTimer := true;
      } else if state & ASSOC_STATE != 0 {
        reassocCount := reassocCount + 1;
        if reassocCount > REASSOC_LIMIT {
          state := 0;
          log := log + [ReportJoin(-2)];
          return;
        }
        log := log + [SendAssocReq];
        linkTimer := true;
      }
    }

    /** join_cmd_hdl and start_clnt_join for a network that is not an IBSS. */
    method JoinCmd(fits: bool, ess: bool)
      requires Valid()
      modifies this
      ensures Valid() && View() == Step(old(View()), Join(fits, ess))
    {
      if state & ASSOC_SUCCESS != 0 {
        if state & STATION_STATE != 0 {
          log := log + [SendDeauth];
        }
        state := 0;
        linkTimer := false;
      }
      if !fits {
        return;
      }
      linkTimer := false;
      if ess {
        state := AUTH_NULL | STATION_STATE;
        linkTimer := true;
      }
    }

    method IsClientAssociatedToAp() returns (r: bool)
      ensures r == (state & ASSOC_SUCCESS != 0 && state & 3 == STATION_STATE)
    {
      r := state & ASSOC_SUCCESS != 0 && state & 3 == STATION_STATE;
    }

    method DisconnectHdl()
      requires Valid()
      modifies this
      ensures Valid() && View() == Step(old(View()), Disconnect)
    {
      var associated := IsClientAssociatedToAp();
      if associated {
        log := log + [SendDeauth];
      }
      state := 0;
      linkTimer := false;
    }

    method IsIbssEmpty(status: seq<int>) returns (r: bool)
      requires |status| == 32
      ensures r == IbssEmpty(status)
    {
      for i := IBSS_START to |status|
        invariant forall k :: IBSS_START <= k < i ==> status[k] != 1
      {
        if status[i] == 1 {
          return false;
        }
      }
      return true;
    }

    method StaDelEventCallback(status: seq<int>)
      requires Valid() && |status| == 32
      modifies this
      ensures Valid() && View() == Step(old(View()), StaDel(IbssEmpty(status)))
    {
      var associated := IsClientAssociatedToAp();
      var empty := IsIbssEmpty(status);
      if associated || empty {
        state := 0;
        linkTimer := false;
      }
    }

    method SetAuthHdl(mode: nat)
      modifies this`authAlgo
      ensures View() == Step(old(View()), SetAuth(mode))
    {
      if mode < 4 {
        authAlgo := AlgoOf(mode, authAlgo);
      }
    }
  }
}
