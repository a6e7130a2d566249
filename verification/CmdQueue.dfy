/**
 The command queue and its thread, as atomic steps that interleave in any order: a producer inserts
 under the lock and later raises the semaphore; the thread sleeps on the semaphore, then empties the queue.
 */
module CmdQueue {
  /** The number of entries of wlancmds[]; codes up to and including it are looked up. */
  datatype Config = Config(tableSize: nat)

  datatype Cmd = Cmd(id: nat, code: nat)

  /** Where the thread is: sleeping on the semaphore, at the label _next, in a handler, past the loop, or gone. */
  datatype Pc = AtDown | AtNext | Handling(cmd: Cmd) | Draining | Exited

  /**
   `pending` is the number of producers between insert and up. `accepted`, `taken`, `handled` and `freed`
   are histories: the commands inserted, those the loop has dequeued, those of them that went to a
   handler and on to a callback or free_cmd_obj, and those freed after the loop.
   */
  datatype State = State(
    queue: seq<Cmd>,
    sema: nat,
    pending: nat,
    pc: Pc,
    stopped: bool,
    hwInit: bool,
    issued: nat,
    seqNo: nat,
    terminated: bool,
    accepted: seq<Cmd>,
    taken: seq<Cmd>,
    handled: seq<Cmd>,
    freed: seq<Cmd>)

  datatype Event =
    | Insert(cmd: Cmd, skip: bool)
    | Up
    | SpareUp
    | Down
    | Interrupt
    | Next
    | Finish
    | Drain
    | Stop(on: bool)
    | HwInit(on: bool)

  predicate Enabled(s: State, e: Event) {
    match e
    case Insert(_, _) | SpareUp | Stop(_) | HwInit(_) => true
    case Up => s.pending > 0
    case Down => s.pc == AtDown && s.sema > 0
    case Interrupt => s.pc == AtDown
    case Next => s.pc == AtNext
    case Finish => s.pc.Handling?
    case Drain => s.pc == Draining
  }

  /** The first half of enqueue_cmd and enqueue_cmd_ex; a refused command is freed by its producer. */
  function Inserted(s: State, cmd: Cmd, skip: bool): (r: State) {
    if !s.hwInit && !skip then s
    else s.(queue := s.queue + [cmd], pending := s.pending + 1, accepted := s.accepted + [cmd])
  }

  function Dispatched(s: State): (r: State) {
    if s.stopped then s.(pc := Draining)
    else if s.queue == [] then s.(pc := AtDown)
    else s.(queue := s.queue[1..], pc := Handling(s.queue[0]), issued := s.issued + 1, taken := s.taken + [s.queue[0]])
  }

  function Drained(s: State): (r: State) {
    if s.queue == [] then s.(pc := Exited, terminated := true)
    else s.(queue := s.queue[1..], freed := s.freed + [s.queue[0]])
  }

  /** A command whose code is not looked up is left as it is: not handled, not freed. */
  function Finished(cfg: Config, s: State): (r: State)
    requires s.pc.Handling?
  {
    if s.pc.cmd.code <= cfg.tableSize then s.(pc := AtNext, seqNo := s.seqNo + 1, handled := s.handled + [s.pc.cmd])
    else s.(pc := AtNext)
  }

  function Step(cfg: Config, s: State, e: Event): (r: State) {
    if !Enabled(s, e) then s
    else
      match e
      case Insert(cmd, skip) => Inserted(s, cmd, skip)
      case Up => s.(pending := s.pending - 1, sema := s.sema + 1)
      case SpareUp => s.(sema := s.sema + 1)
      case Down => s.(sema := s.sema - 1, pc := AtNext)
      case Interrupt => s.(pc := Draining)
      case Next => Dispatched(s)
      case Finish => Finished(cfg, s)
      case Drain => Drained(s)
      case Stop(on) => s.(stopped := on)
      case HwInit(on) => s.(hwInit := on)
  }

  const START := State([], 0, 0, AtDown, false, false, 0, 0, false, [], [], [], [])

  /** cmd_priv; each method is one atomic section. */
  class CmdPriv {
    const cfg: Config
    var queue: seq<Cmd>
    var sema: nat
    var hwInitCompleted: bool
    var stopped: bool
    var issuedCnt: nat
    var cmdSeq: nat
    var terminated: bool
    var pc: Pc
    ghost var pending: nat
    ghost var accepted: seq<Cmd>
    ghost var taken: seq<Cmd>
    ghost var handled: seq<Cmd>
    ghost var freed: seq<Cmd>

    ghost function View(): (r: State)
      reads this
    {
      State(queue, sema, pending, pc, stopped, hwInitCompleted, issuedCnt, cmdSeq, terminated, accepted, taken, handled, freed)
    }

    constructor (cfg: Config)
      ensures this.cfg == cfg && View() == START
    {
      this.cfg := cfg;
      queue, sema, hwInitCompleted, stopped, issuedCnt, cmdSeq, terminated, pc := [], 0, false, false, 0, 0, false, AtDown;
      pending, accepted, taken, handled, freed := 0, [], [], [], [];
    }

    method EnqueueCmdEx(cmd: Cmd, skip: bool) returns (ok: bool)
      modifies this
      ensures View() == Step(cfg, old(View()), Insert(cmd, skip)) && ok == (hwInitCompleted || skip)
    {
      if !hwInitCompleted && !skip {
        return false;
      }
      queue := queue + [cmd];
      pending, accepted := pending + 1, accepted + [cmd];
      return true;
    }

    method UpSema()
      requires pending > 0
      modifies this
      ensures View() == Step(cfg, old(View()), Up)
    {
      pending := pending - 1;
      sema := sema + 1;
    }

    method DownSema(interrupted: bool)
      requires pc == AtDown && (interrupted || sema > 0)
      modifies this
      ensures View() == Step(cfg, old(View()), if interrupted then Interrupt else Down)
    {
      if interrupted {
        pc := Draining;
        return;
      }
      sema := sema - 1;
      pc := AtNext;
    }

    method DequeueCmd() returns (ok: bool, cmd: Cmd)
      modifies this`queue
      ensures ok == (old(queue) != []) && queue == if ok then old(queue)[1..] else []
      ensures ok ==> cmd == old(queue)[0]
    {
      if queue == [] {
        return false, Cmd(0, 0);
      }
      cmd := queue[0];
      queue := queue[1..];
      return true, cmd;
    }

    /** From _next to the handler, or out of the loop, or back to sleep. */
    method AtLabelNext()
      requires pc == AtNext
      modifies this
      ensures View() == Step(cfg, old(View()), Next)
    {
      if stopped {
        pc := Draining;
        return;
      }
      var ok, cmd := DequeueCmd();
      if !ok {
        pc := AtDown;
        return;
      }
      issuedCnt := issuedCnt + 1;
      taken := taken + [cmd];
      pc := Handling(cmd);
    }

    method FinishCmd()
      requires pc.Handling?
      modifies this
      ensures View() == Step(cfg, old(View()), Finish)
    {
      if pc.cmd.code <= cfg.tableSize {
        handled := handled + [pc.cmd];
        cmdSeq := cmdSeq + 1;
      }
      pc := AtNext;
    }

    method DrainOne()
      requires pc == Draining
      modifies this
      ensures View() == Step(cfg, old(View()), Drain)
    {
      var ok, cmd := DequeueCmd();
      if !ok {
        terminated := true;
        pc := Exited;
        return;
      }
      freed := freed + [cmd];
    }
  }
}
