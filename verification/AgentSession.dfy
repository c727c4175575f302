/** The agent's session loop: connect, run the workers, wait for all of them, reset, connect again. */
module AgentSession {
  import opened Prelude

  /** How far `RunAgent` and `StartAgent` are; `started` workers have been started. */
  datatype Control = Dialing | Starting(started: nat) | Waiting | Resetting

  const WORKERS := 6

  /** The worker that reads messages, and so the only one that uses the read buffer. */
  const LISTENER := 1

  /** A worker remembers for which connection it was started. */
  datatype Worker = Absent | Running(connection: nat) | Exited

  /** `connection` counts connections and resets; `lock` says for which of them the send lock was made. */
  datatype Agent = Agent(
    control: Control,
    connection: nat,
    conn: Option<nat>,
    valid: bool,
    lock: nat,
    readBuf: Bytes,
    workers: seq<Worker>)

  datatype Action =
    | DialFails
    | DialWorks
    | StartWorker
    | StartDone
    | Invalidate(worker: nat)
    | Receive(worker: nat, buf: Bytes)
    | Exit(worker: nat)
    | WaitOver
    | Reset

  function Fresh(): Agent {
    Agent(Dialing, 0, None, true, 0, [], seq(WORKERS, _ => Absent))
  }

  predicate IsRunning(a: Agent, k: nat) {
    k < |a.workers| && a.workers[k].Running?
  }

  predicate Enabled(a: Agent, act: Action) {
    match act
    case DialFails => a.control.Dialing?
    case DialWorks => a.control.Dialing?
    case StartWorker => a.control.Starting? && a.control.started < |a.workers|
    case StartDone => a.control.Starting? && a.control.started == |a.workers|
    case Invalidate(k) => IsRunning(a, k)
    case Receive(k, _) => IsRunning(a, k) && k == LISTENER
    case Exit(k) => IsRunning(a, k) && !a.valid
    case WaitOver => a.control.Waiting? && forall k | 0 <= k < |a.workers| :: a.workers[k].Exited?
    case Reset => a.control.Resetting?
  }

  /** A worker invalidates the agent on a failed read or write and exits when it sees the flag down. */
  function Next(a: Agent, act: Action): Agent
    requires Enabled(a, act)
  {
    match act
    case DialFails => a.(control := Resetting)
    case DialWorks => a.(control := Starting(0), conn := Some(a.connection))
    case StartWorker =>
      a.(control := Starting(a.control.started + 1), workers := a.workers[a.control.started := Running(a.connection)])
    case StartDone => a.(control := Waiting)
    case Invalidate(_) => a.(valid := false)
    case Receive(_, buf) => a.(readBuf := buf)
    case Exit(k) => a.(workers := a.workers[k := Exited])
    case WaitOver => a.(control := Resetting)
    case Reset =>
      var c := a.connection + 1;
      Agent(Dialing, c, None, true, c, [], seq(|a.workers|, _ => Absent))
  }

  ghost predicate NoneRunning(a: Agent) {
    forall k | 0 <= k < |a.workers| :: !a.workers[k].Running?
  }

  ghost predicate AllExited(a: Agent) {
    forall k | 0 <= k < |a.workers| :: a.workers[k].Exited?
  }

  /** A worker works for the present connection, whose socket and lock are in the agent. */
  ghost predicate AtHome(a: Agent, w: Worker) {
    w.Running? ==> w.connection == a.connection && a.conn == Some(a.connection) && a.lock == a.connection
  }

  /** The workers from the `n`-th on have not been started. */
  ghost predicate AbsentFrom(a: Agent, n: nat) {
    forall k | n <= k < |a.workers| :: a.workers[k].Absent?
  }

  /** The workers before the `n`-th have been started. */
  ghost predicate PresentUpTo(a: Agent, n: nat) {
    forall k | 0 <= k < |a.workers| && k < n :: !a.workers[k].Absent?
  }

  ghost predicate Inv(a: Agent) {
    && |a.workers| == WORKERS
    && a.lock == a.connection
    && (forall k | 0 <= k < |a.workers| :: AtHome(a, a.workers[k]))
    && (a.control.Dialing? ==> AbsentFrom(a, 0) && a.conn == None && a.readBuf == [] && a.valid)
    && (a.control.Resetting? ==> NoneRunning(a))
    && (a.control.Starting? ==> a.conn == Some(a.connection) && AbsentFrom(a, a.control.started))
    && (a.control.Starting? ==> a.control.started <= WORKERS && PresentUpTo(a, a.control.started))
    && (a.control.Starting? && a.control.started == 0 ==> a.valid)
    && (a.control.Waiting? ==> PresentUpTo(a, WORKERS))
    && (a.workers[LISTENER].Absent? ==> a.readBuf == [])
    && (a.control.Resetting? && !a.valid ==> AllExited(a))
  }

  lemma StepKeeps(a: Agent, act: Action)
    requires Inv(a) && Enabled(a, act)
    ensures Inv(Next(a, act))
  {
    if act.Invalidate? || act.Receive? || act.Exit? {
      assert AtHome(a, a.workers[act.worker]);
      assert a.workers[act.worker].Running?;
    }
  }

  ghost predicate Reachable(a: Agent, steps: seq<Action>)
    decreases |steps|
  {
    if |steps| == 0 then a == Fresh()
    else
      var k := |steps| - 1;
      exists b :: Reachable(b, steps[..k]) && Enabled(b, steps[k]) && a == Next(b, steps[k])
  }

  lemma {:induction false} ReachableKeeps(a: Agent, steps: seq<Action>)
    requires Reachable(a, steps)
    ensures Inv(a)
    decreases |steps|
  {
    if |steps| > 0 {
      var k := |steps| - 1;
      var b :| Reachable(b, steps[..k]) && Enabled(b, steps[k]) && a == Next(b, steps[k]);
      ReachableKeeps(b, steps[..k]);
      StepKeeps(b, steps[k]);
    }
  }

  /**
   * In every run: the agent is reset only when no worker runs; a worker only ever sees the socket and the
   * lock of its own connection; a new connection starts valid; and the read buffer is empty until, and
   * when, the worker that parses it is started.
   */
  lemma SessionsApart(a: Agent, steps: seq<Action>)
    requires Reachable(a, steps)
    ensures Enabled(a, Reset) ==> NoneRunning(a)
    ensures forall k | 0 <= k < |a.workers| && a.workers[k].Running? ::
      a.conn == Some(a.workers[k].connection) && a.lock == a.workers[k].connection
    ensures Enabled(a, DialWorks) ==> Next(a, DialWorks).readBuf == [] && Next(a, DialWorks).valid && NoneRunning(a)
    ensures |a.workers| == WORKERS && (a.workers[LISTENER].Absent? ==> a.readBuf == [])
    ensures a.control == Starting(LISTENER) ==> Next(a, StartWorker).workers[LISTENER] == Running(a.connection)
    ensures a.control == Starting(LISTENER) ==> Next(a, StartWorker).readBuf == []
  {
    ReachableKeeps(a, steps);
    forall k | 0 <= k < |a.workers| && a.workers[k].Running?
      ensures a.conn == Some(a.workers[k].connection) && a.lock == a.workers[k].connection
    {
      assert AtHome(a, a.workers[k]);
    }
  }

  ghost predicate Leads(a: Agent, steps: seq<Action>, b: Agent)
    decreases |steps|
  {
    if |steps| == 0 then b == a
    else Enabled(a, steps[0]) && Leads(Next(a, steps[0]), steps[1..], b)
  }

  lemma {:induction false} ConnectionsGrow(a: Agent, steps: seq<Action>, b: Agent)
    requires Leads(a, steps, b)
    ensures a.connection <= b.connection
    decreases |steps|
  {
    if |steps| > 0 {
      ConnectionsGrow(Next(a, steps[0]), steps[1..], b);
    }
  }

  /** Within one connection the flag never comes up again. */
  lemma {:induction false} NeverValidAgain(a: Agent, steps: seq<Action>, b: Agent)
    requires Leads(a, steps, b) && !a.valid && b.connection == a.connection
    ensures !b.valid
    decreases |steps|
  {
    if |steps| > 0 {
      var a' := Next(a, steps[0]);
      ConnectionsGrow(a', steps[1..], b);
      NeverValidAgain(a', steps[1..], b);
    }
  }

  // ----- A session that is over comes to its end -----

  /** Steps that a worker still owes: being started and leaving. */
  function Owes(w: Worker): nat {
    match w
    case Absent => 2
    case Running(_) => 1
    case Exited => 0
  }

  function Owed(ws: seq<Worker>): nat {
    if |ws| == 0 then 0 else Owes(ws[0]) + Owed(ws[1..])
  }

  lemma {:induction false} OwedBound(ws: seq<Worker>)
    ensures Owed(ws) <= 2 * |ws|
  {
    if |ws| > 0 {
      OwedBound(ws[1..]);
    }
  }

  lemma {:induction false} OwedUpdate(ws: seq<Worker>, k: nat, w: Worker)
    requires k < |ws|
    ensures Owed(ws[k := w]) + Owes(ws[k]) == Owed(ws) + Owes(w)
  {
    var ws' := ws[k := w];
    if k == 0 {
      assert ws'[1..] == ws[1..];
    } else {
      OwedUpdate(ws[1..], k - 1, w);
      assert ws'[1..] == ws[1..][k - 1 := w];
    }
  }

  /** The steps left until the next connection is dialled. */
  function Left(a: Agent): nat {
    match a.control
    case Dialing => 0
    case Starting(_) => Owed(a.workers) + 3
    case Waiting => Owed(a.workers) + 2
    case Resetting => 1
  }

  /** Steps that a worker can take any number of times. */
  predicate Idle(act: Action) {
    act.Invalidate? || act.Receive?
  }

  function Busy(steps: seq<Action>): nat {
    if |steps| == 0 then 0 else Busy(steps[1..]) + if Idle(steps[0]) then 0 else 1
  }

  /** Once the flag is down every step of the session counts, and none is ever taken back. */
  lemma StepLeft(a: Agent, act: Action)
    requires Inv(a) && !a.valid && Enabled(a, act)
    ensures Left(Next(a, act)) + (if Idle(act) then 0 else 1) <= Left(a)
  {
    match act
    case StartWorker => OwedUpdate(a.workers, a.control.started, Running(a.connection));
    case Exit(k) =>
      assert IsRunning(a, k);
      OwedUpdate(a.workers, k, Exited);
    case _ =>
  }

  /** A step of the session that can be taken. */
  ghost function Useful(a: Agent): Action {
    match a.control
    case Dialing => DialWorks
    case Starting(n) => if n < WORKERS then StartWorker else StartDone
    case Waiting => if AllExited(a) then WaitOver else var k: nat :| k < |a.workers| && !a.workers[k].Exited?; Exit(k)
    case Resetting => Reset
  }

  /** With the flag down the session is never stuck. */
  lemma NeverStuck(a: Agent)
    requires Inv(a) && !a.valid
    ensures Enabled(a, Useful(a)) && !Idle(Useful(a))
  {
  }

  lemma {:induction false} RunLeft(a: Agent, steps: seq<Action>, b: Agent)
    requires Inv(a) && !a.valid && Leads(a, steps, b) && b.connection == a.connection
    ensures Inv(b) && !b.valid && Busy(steps) + Left(b) <= Left(a)
    decreases |steps|
  {
    if |steps| > 0 {
      var a' := Next(a, steps[0]);
      StepKeeps(a, steps[0]);
      StepLeft(a, steps[0]);
      ConnectionsGrow(a', steps[1..], b);
      assert !a'.valid;
      RunLeft(a', steps[1..], b);
    }
  }

  /**
   * Every run, under any schedule, from a reachable state whose flag is down: as long as it is in the same
   * connection it has taken fewer steps than `Left(a)`, not counting receives and further invalidations,
   * and one more such step can be taken.  So the workers' group drains and the agent reconnects.
   */
  lemma WaitingEnds(a: Agent, past: seq<Action>, steps: seq<Action>, b: Agent)
    requires Reachable(a, past) && !a.valid && Leads(a, steps, b) && b.connection == a.connection
    ensures Busy(steps) < Left(a) <= 2 * WORKERS + 3
    ensures Enabled(b, Useful(b)) && !Idle(Useful(b))
  {
    ReachableKeeps(a, past);
    RunLeft(a, steps, b);
    NeverStuck(b);
    OwedBound(a.workers);
  }

  /** Such a run exists, up to the next connection. */
  lemma {:induction false} Reconnects(a: Agent) returns (steps: seq<Action>, b: Agent)
    requires Inv(a) && !a.valid
    ensures Leads(a, steps, b) && b.control.Dialing? && b.valid && b.connection == a.connection + 1
    ensures |steps| <= Left(a)
    decreases Left(a)
  {
    NeverStuck(a);
    var act := Useful(a);
    var a' := Next(a, act);
    StepKeeps(a, act);
    StepLeft(a, act);
    var rest := [];
    if act.Reset? {
      b := a';
    } else {
      rest, b := Reconnects(a');
    }
    steps := [act] + rest;
    assert steps[1..] == rest;
  }
}
