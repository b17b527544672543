/**
 Cancelling a streamed execution: the worker, the response stream that may be dropped at any
 moment, and the thread that then keeps cancelling, in every interleaving.
 */
module Cancellation {
  import opened Prelude

  /** Names the database session whose statement a cancel request interrupts. */
  type Handle = nat

  datatype Control = Control(handle: Option<Handle>, disconnected: bool, finished: bool)

  function Registered(c: Control, h: Handle): Control {
    if c.disconnected then c else c.(handle := Some(h))
  }

  function Disconnected(c: Control): Control {
    c.(disconnected := true)
  }

  /** `CancellationControl`; each method is one critical section or one atomic access. */
  class CancellationControl {
    var handle: Option<Handle>
    var disconnected: bool
    var workerFinished: bool

    function State(): Control
      reads this
    {
      Control(handle, disconnected, workerFinished)
    }

    constructor ()
      ensures State() == Control(None, false, false)
    {
      handle, disconnected, workerFinished := None, false, false;
    }

    /** Refused after a disconnect, and then the handle is not kept. */
    method Register(h: Handle) returns (accepted: bool)
      modifies this
      ensures State() == Registered(old(State()), h) && accepted == !old(disconnected)
    {
      if disconnected {
        return false;
      }
      handle := Some(h);
      return true;
    }

    method Disconnect() returns (h: Option<Handle>)
      modifies this
      ensures State() == Disconnected(old(State())) && h == old(handle)
    {
      disconnected := true;
      return handle;
    }

    method Finish()
      modifies this`workerFinished
      ensures State() == old(State()).(finished := true)
    {
      workerFinished := true;
    }
  }

  // ----- the three parties -----

  datatype Worker = Preparing | Accepted | Executing | Refused | Ended | Finished

  datatype Stream = Waiting | Answered | TimedOut | Dropped(armed: bool)

  /** Milliseconds throughout; `attempts` counts the cancel requests sent so far. */
  datatype Canceller =
    | Absent
    | Checking(handle: Handle, deadline: nat, attempts: nat)
    | Sending(handle: Handle, deadline: nat, attempts: nat)
    | Sleeping(handle: Handle, deadline: nat, attempts: nat, wake: nat)
    | Stopped(handle: Handle, deadline: nat, attempts: nat)

  datatype Sent = Sent(handle: Handle, time: nat, late: bool)

  datatype World = World(
    control: Control,
    worker: Worker,
    stream: Stream,
    canceller: Canceller,
    now: nat,
    statements: nat,
    sent: seq<Sent>)

  datatype Event =
    | Register | FailEarly | StartStatement | EndStatement | ReturnResult | MarkFinished
    | ReceiveResult | ReachDeadline | DropStream
    | CheckWorker | SendCancel | WakeUp
    | Pass(time: nat)

  const FIRST_DELAY: nat := 10
  const LONGEST_DELAY: nat := 250

  /** The delay after the n-th attempt: doubling from the first delay up to the longest. */
  function RetryDelay(n: nat): (d: nat)
    ensures FIRST_DELAY <= d <= LONGEST_DELAY
  {
    if n == 0 then FIRST_DELAY
    else if 2 * RetryDelay(n - 1) <= LONGEST_DELAY then 2 * RetryDelay(n - 1) else LONGEST_DELAY
  }

  function PowerOfTwo(n: nat): nat {
    if n == 0 then 1 else 2 * PowerOfTwo(n - 1)
  }

  /** The delay after the n-th attempt is the smaller of 10 * 2^n and 250 milliseconds. */
  lemma {:induction false} DelayIs(n: nat)
    ensures RetryDelay(n) == if 10 * PowerOfTwo(n) <= 250 then 10 * PowerOfTwo(n) else 250
    ensures PowerOfTwo(n) >= 1
  {
    if n > 0 {
      DelayIs(n - 1);
    }
  }

  /** All delays before the n-th attempt: 10, 20, 40, 80 and 160 milliseconds, then 250 each. */
  lemma {:induction false} WaitsAre(n: nat)
    ensures Waits(n) == if n <= 5 then 10 * PowerOfTwo(n) - 10 else 310 + 250 * (n - 5)
    ensures n >= 5 ==> PowerOfTwo(n) >= 32
  {
    if n > 0 {
      WaitsAre(n - 1);
      DelayIs(n - 1);
    }
    if n <= 5 {
      FirstPowers();
    }
  }

  lemma FirstPowers()
    ensures PowerOfTwo(0) == 1 && PowerOfTwo(1) == 2 && PowerOfTwo(2) == 4 && PowerOfTwo(3) == 8 && PowerOfTwo(4) == 16 && PowerOfTwo(5) == 32
  {
    assert PowerOfTwo(3) == 2 * PowerOfTwo(2);
    assert PowerOfTwo(5) == 2 * PowerOfTwo(4);
  }

  function Waits(n: nat): nat {
    if n == 0 then 0 else Waits(n - 1) + RetryDelay(n - 1)
  }

  function Initial(): World {
    World(Control(None, false, false), Preparing, Waiting, Absent, 0, 0, [])
  }

  /** The guard's drop: only an armed one disconnects, and only with a handle is a thread started. */
  function DropGuard(w: World, maximum: nat): World {
    if w.stream.Dropped? then w
    else if w.stream.Answered? then w.(stream := Dropped(false))
    else w.(stream := Dropped(true), control := Disconnected(w.control),
            canceller := if w.control.handle.Some? then Checking(w.control.handle.value, w.now + maximum, 0) else Absent)
  }

  function Step(w: World, e: Event, session: Handle, maximum: nat): World {
    match e
    case Register =>
      if !w.worker.Preparing? then w
      else w.(control := Registered(w.control, session), worker := if w.control.disconnected then Refused else Accepted)
    case FailEarly => if w.worker.Preparing? then w.(worker := Ended) else w
    case StartStatement => if w.worker.Accepted? then w.(worker := Executing, statements := w.statements + 1) else w
    case EndStatement => if w.worker.Executing? then w.(worker := Accepted) else w
    case ReturnResult => if w.worker.Accepted? || w.worker.Refused? || w.worker.Executing? then w.(worker := Ended) else w
    case MarkFinished => if w.worker.Ended? then w.(worker := Finished, control := w.control.(finished := true)) else w
    case ReceiveResult => if w.stream.Waiting? && (w.worker.Ended? || w.worker.Finished?) then w.(stream := Answered) else w
    case ReachDeadline => if w.stream.Waiting? then w.(stream := TimedOut) else w
    case DropStream => DropGuard(w, maximum)
    case CheckWorker =>
      (match w.canceller
       case Checking(h, d, n) => w.(canceller := if !w.control.finished && w.now < d then Sending(h, d, n) else Stopped(h, d, n))
       case _ => w)
    case SendCancel =>
      (match w.canceller
       case Sending(h, d, n) => w.(canceller := Sleeping(h, d, n + 1, w.now + RetryDelay(n)), sent := w.sent + [Sent(h, w.now, w.control.finished)])
       case _ => w)
    case WakeUp =>
      (match w.canceller
       case Sleeping(h, d, n, wake) => if w.now >= wake then w.(canceller := Checking(h, d, n)) else w
       case _ => w)
    case Pass(time) => w.(now := w.now + time)
  }

  function Run(events: seq<Event>, session: Handle, maximum: nat): World {
    if events == [] then Initial()
    else Step(Run(events[..|events| - 1], session, maximum), events[|events| - 1], session, maximum)
  }

  // ----- the invariant -----

  function Late(sent: seq<Sent>): nat {
    if sent == [] then 0 else Late(sent[..|sent| - 1]) + (if sent[|sent| - 1].late then 1 else 0)
  }

  /** The worker's registration and the control agree. */
  ghost predicate WorkerAgrees(w: World, session: Handle) {
    && (w.worker.Preparing? || w.worker.Refused? ==> w.control.handle == None)
    && (w.worker.Accepted? || w.worker.Executing? ==> w.control.handle == Some(session))
    && (w.worker.Refused? ==> w.control.disconnected)
    && (w.control.handle == None || w.control.handle == Some(session))
    && (w.statements > 0 ==> w.control.handle == Some(session))
    && w.control.finished == w.worker.Finished?
  }

  /** A dropped armed stream is known to the control, and a canceller exists for a handle it found. */
  ghost predicate CancellerAgrees(w: World, session: Handle) {
    && (w.control.disconnected <==> w.stream == Dropped(true))
    && (w.canceller.Absent? <==> !(w.control.disconnected && w.control.handle.Some?))
    && (!w.canceller.Absent? ==> w.canceller.handle == session && w.canceller.attempts == |w.sent|)
    && (w.canceller.Absent? ==> w.sent == [])
    && (w.canceller.Stopped? ==> w.control.finished || w.now >= w.canceller.deadline)
    && (w.stream.Answered? || w.stream == Dropped(false) ==> w.worker.Ended? || w.worker.Finished?)
  }

  ghost predicate LateBounded(w: World) {
    && Late(w.sent) <= 1
    && (!w.control.finished || w.canceller.Sending? ==> Late(w.sent) == 0)
    && (forall i :: 0 <= i < |w.sent| ==> w.sent[i].time <= w.now)
  }

  /** Attempts are spaced by the delays, and each was preceded by a check before the deadline. */
  ghost predicate Paced(w: World, session: Handle, maximum: nat) {
    !w.canceller.Absent? && w.canceller.deadline >= maximum ==>
      var start := w.canceller.deadline - maximum;
      && (forall i :: 0 <= i < |w.sent| ==> w.sent[i].handle == session && start + Waits(i) <= w.sent[i].time && Waits(i) < maximum)
      && start + Waits(|w.sent|) <= (if w.canceller.Sleeping? then w.canceller.wake else w.now)
      && (w.canceller.Sending? ==> Waits(|w.sent|) < maximum)
  }

  /** After attempt i the thread sleeps through the i-th delay before it does anything else. */
  ghost predicate Spaced(w: World) {
    && (forall i :: 0 <= i < |w.sent| - 1 ==> w.sent[i].time + RetryDelay(i) <= w.sent[i + 1].time)
    && (w.sent != [] ==> w.sent[|w.sent| - 1].time + RetryDelay(|w.sent| - 1) <= if w.canceller.Sleeping? then w.canceller.wake else w.now)
  }

  ghost predicate Invariant(w: World, session: Handle, maximum: nat) {
    && WorkerAgrees(w, session) && CancellerAgrees(w, session) && LateBounded(w) && Paced(w, session, maximum) && Spaced(w)
    && (w.canceller.Absent? || w.canceller.deadline >= maximum)
  }

  lemma LateAppend(sent: seq<Sent>, x: Sent)
    ensures Late(sent + [x]) == Late(sent) + (if x.late then 1 else 0)
  {
    assert (sent + [x])[..|sent|] == sent;
  }

  lemma SendPaced(w: World, session: Handle, maximum: nat)
    requires Invariant(w, session, maximum) && w.canceller.Sending?
    ensures Paced(Step(w, SendCancel, session, maximum), session, maximum)
  {
    hide Late, RetryDelay, Spaced, WorkerAgrees, LateBounded;
    assert Waits(|w.sent| + 1) == Waits(|w.sent|) + RetryDelay(|w.sent|);
    hide Waits;
  }

  lemma SendSpaced(w: World, session: Handle, maximum: nat)
    requires Invariant(w, session, maximum) && w.canceller.Sending?
    ensures Spaced(Step(w, SendCancel, session, maximum))
  {
    hide Late, RetryDelay, Waits, Paced;
  }

  lemma SendKeeps(w: World, session: Handle, maximum: nat)
    requires Invariant(w, session, maximum) && w.canceller.Sending?
    ensures Invariant(Step(w, SendCancel, session, maximum), session, maximum)
  {
    hide Late, Waits, RetryDelay;
    SendPaced(w, session, maximum);
    SendSpaced(w, session, maximum);
    hide Paced, Spaced;
    LateAppend(w.sent, Sent(w.canceller.handle, w.now, w.control.finished));
  }

  lemma OtherSpaced(w: World, e: Event, session: Handle, maximum: nat)
    requires Spaced(w) && CancellerAgrees(w, session) && !(e.SendCancel? && w.canceller.Sending?)
    ensures Spaced(Step(w, e, session, maximum))
  {
    hide RetryDelay;
    assert Step(w, e, session, maximum).sent == w.sent;
  }

  lemma OtherPaced(w: World, e: Event, session: Handle, maximum: nat)
    requires Invariant(w, session, maximum) && !(e.SendCancel? && w.canceller.Sending?)
    ensures Paced(Step(w, e, session, maximum), session, maximum)
  {
    if e.DropStream? {
      DropPaced(w, session, maximum);
    } else {
      hide Late, RetryDelay, Spaced, WorkerAgrees, LateBounded, Waits;
      assert Step(w, e, session, maximum).sent == w.sent;
    }
  }

  lemma DropPaced(w: World, session: Handle, maximum: nat)
    requires Invariant(w, session, maximum)
    ensures Paced(Step(w, DropStream, session, maximum), session, maximum)
  {
    assert Waits(0) == 0;
    hide Late, RetryDelay, Spaced, WorkerAgrees, LateBounded, Waits;
  }

  lemma OtherKeeps(w: World, e: Event, session: Handle, maximum: nat)
    requires WorkerAgrees(w, session) && CancellerAgrees(w, session) && LateBounded(w) && !(e.SendCancel? && w.canceller.Sending?)
    requires w.canceller.Absent? || w.canceller.deadline >= maximum
    ensures var w' := Step(w, e, session, maximum);
      && WorkerAgrees(w', session) && CancellerAgrees(w', session) && LateBounded(w')
      && (w'.canceller.Absent? || w'.canceller.deadline >= maximum)
  {
    hide Late, RetryDelay;
    assert Step(w, e, session, maximum).sent == w.sent;
  }

  lemma StepKeeps(w: World, e: Event, session: Handle, maximum: nat)
    requires Invariant(w, session, maximum)
    ensures Invariant(Step(w, e, session, maximum), session, maximum)
  {
    hide Late, RetryDelay, Step, Spaced, Paced, WorkerAgrees, CancellerAgrees, LateBounded;
    if e.SendCancel? && w.canceller.Sending? {
      SendKeeps(w, session, maximum);
    } else {
      OtherSpaced(w, e, session, maximum);
      OtherPaced(w, e, session, maximum);
      OtherKeeps(w, e, session, maximum);
    }
  }

  lemma {:induction false} RunKeeps(events: seq<Event>, session: Handle, maximum: nat)
    ensures Invariant(Run(events, session, maximum), session, maximum)
  {
    if events != [] {
      RunKeeps(events[..|events| - 1], session, maximum);
      StepKeeps(Run(events[..|events| - 1], session, maximum), events[|events| - 1], session, maximum);
    }
  }

  // ----- facts that last -----

  /** What no later step takes back. */
  ghost predicate Lasts(w: World, w': World) {
    && (w.control.disconnected ==> w'.control.disconnected && w'.control.handle == w.control.handle)
    && (w.stream.Answered? || w.stream == Dropped(false) ==> w'.stream.Answered? || w'.stream == Dropped(false))
    && (w.control.disconnected && w.control.handle == None ==> w'.statements == w.statements)
    && (w.control.finished ==> w'.control.finished)
    && |w.sent| <= |w'.sent|
  }

  lemma {:induction false} RunLasts(events: seq<Event>, i: nat, session: Handle, maximum: nat)
    requires i <= |events|
    ensures Lasts(Run(events[..i], session, maximum), Run(events, session, maximum))
  {
    hide Invariant, Step;
    if i < |events| {
      var n := |events| - 1;
      RunLasts(events[..n], i, session, maximum);
      assert events[..n][..i] == events[..i];
      RunKeeps(events[..n], session, maximum);
      StepLasts(Run(events[..n], session, maximum), events[n], session, maximum);
    } else {
      assert events[..i] == events;
    }
  }

  lemma StepLasts(w: World, e: Event, session: Handle, maximum: nat)
    requires Invariant(w, session, maximum)
    ensures Lasts(w, Step(w, e, session, maximum))
  {
    hide LateBounded, Paced, Spaced, Waits, RetryDelay;
  }

  // ----- what the client may rely on -----

  /**
   No cancellation is lost. After an armed drop, at every later moment: if the worker had not registered,
   no statement ever starts; otherwise a canceller holds this worker's handle, and it gives
   up only when the worker has finished or the deadline has passed.
   */
  lemma NoLostCancellation(events: seq<Event>, i: nat, session: Handle, maximum: nat)
    requires i <= |events| && Run(events[..i], session, maximum).stream == Dropped(true)
    ensures var dropped, later := Run(events[..i], session, maximum), Run(events, session, maximum);
      if dropped.control.handle == None
      then later.statements == 0 && !later.worker.Accepted? && !later.worker.Executing? && later.sent == []
      else !later.canceller.Absent? && later.canceller.handle == session
           && (later.canceller.Stopped? ==> later.control.finished || later.now >= later.canceller.deadline)
  {
    RunKeeps(events[..i], session, maximum);
    RunKeeps(events, session, maximum);
    RunLasts(events, i, session, maximum);
  }

  /** While the worker runs before the deadline, a canceller that looks again sends again. */
  lemma CancellerPersists(events: seq<Event>, session: Handle, maximum: nat)
    requires var w := Run(events, session, maximum); w.stream == Dropped(true) && w.control.handle.Some?
    requires var w := Run(events, session, maximum); !w.control.finished && (w.canceller.Absent? || w.now < w.canceller.deadline)
    ensures var w := Run(events, session, maximum); w.canceller.Sending? || w.canceller.Checking? || w.canceller.Sleeping?
    ensures var w := Run(events, session, maximum); w.canceller.Checking? ==>
      var sent := Run(events + [CheckWorker, SendCancel], session, maximum).sent; |sent| == |w.sent| + 1 && sent[|w.sent|].handle == session
  {
    hide Run, Step, WorkerAgrees, LateBounded;
    RunKeeps(events, session, maximum);
    RunTwoMore(events, CheckWorker, SendCancel, session, maximum);
    var w := Run(events, session, maximum);
    if w.canceller.Checking? {
      CheckThenSend(w, session, maximum);
    }
  }

  lemma RunTwoMore(events: seq<Event>, a: Event, b: Event, session: Handle, maximum: nat)
    ensures Run(events + [a, b], session, maximum) == Step(Step(Run(events, session, maximum), a, session, maximum), b, session, maximum)
  {
    hide Step;
    var more := events + [a, b];
    assert more[..|more| - 1] == events + [a];
    assert (events + [a])[..|events|] == events;
  }

  lemma CheckThenSend(w: World, session: Handle, maximum: nat)
    requires w.canceller.Checking? && w.canceller.handle == session && !w.control.finished && w.now < w.canceller.deadline
    ensures var sent := Step(Step(w, CheckWorker, session, maximum), SendCancel, session, maximum).sent;
      |sent| == |w.sent| + 1 && sent[|w.sent|].handle == session
  {
  }

  /** At most one cancel request is sent after the worker has finished, in any run. */
  lemma AtMostOneLateCancel(events: seq<Event>, session: Handle, maximum: nat)
    ensures Late(Run(events, session, maximum).sent) <= 1
  {
    RunKeeps(events, session, maximum);
  }

  /** A stream that delivered its result never cancels anything, before or after. */
  lemma AnsweredNeverCancels(events: seq<Event>, i: nat, session: Handle, maximum: nat)
    requires i <= |events| && Run(events[..i], session, maximum).stream.Answered?
    ensures Run(events, session, maximum).sent == [] && !Run(events, session, maximum).control.disconnected
  {
    RunKeeps(events, session, maximum);
    RunLasts(events, i, session, maximum);
  }

  /**
   Cancel requests go to this worker only. The k-th comes no sooner than 10, 20, 40, 80, 160 and then 250 milliseconds after
   the one before it, in all no sooner than those delays after the drop, and was decided on before the deadline.
   */
  lemma CancelsPaced(events: seq<Event>, session: Handle, maximum: nat, k: nat)
    requires k < |Run(events, session, maximum).sent|
    ensures var w := Run(events, session, maximum);
            var waited := if k <= 5 then 10 * PowerOfTwo(k) - 10 else 310 + 250 * (k - 5);
      && w.sent[k].handle == session && !w.canceller.Absent?
      && w.canceller.deadline >= maximum
      && w.sent[k].time >= w.canceller.deadline - maximum + waited && waited < maximum
      && (k > 0 ==> w.sent[k].time - w.sent[k - 1].time >= if 10 * PowerOfTwo(k - 1) <= 250 then 10 * PowerOfTwo(k - 1) else 250)
  {
    hide Run, RetryDelay, Waits, WorkerAgrees, LateBounded;
    RunKeeps(events, session, maximum);
    WaitsAre(k);
    if k > 0 {
      DelayIs(k - 1);
      var w := Run(events, session, maximum);
      assert w.sent[k - 1].time + RetryDelay(k - 1) <= w.sent[(k - 1) + 1].time;
    }
  }
}
