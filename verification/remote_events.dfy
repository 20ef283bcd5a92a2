/** The armed/fired event between the two processors: one waiter, any number of remote and local
    signallers, and the doorbell interrupt, each taking one memory access at a time. */
module RemoteEvents {

  /** Where the waiter is. It looks at fired, arms, looks again, sleeps on the semaphore,
      disarms and clears fired; then it does the work it was woken for. */
  datatype Waiter = Look | Arm | LookAgain | Sleep | Disarm | Clear | Work | Cancel

  /** The event, the doorbell, and how many threads are at each point of the signalling code.
      poll and work are the two reasons to wake the waiter: a local request, and something the
      remote side has published. */
  datatype State = State(
    armed: bool, fired: bool, sem: nat, bell: bool,
    waiter: Waiter,
    publishing: nat,  // remote signallers about to set fired
    ringing: nat,     // remote signallers about to look at armed
    polling: nat,     // interrupts about to look at fired
    checking: nat,    // interrupts about to look at armed
    disarming: nat,   // signallers about to clear armed
    raising: nat,     // signallers about to raise the semaphore
    poll: bool, work: bool)

  datatype Action =
    | Wait          // the waiter's next access
    | Interrupted   // the waiter's sleep fails
    | Publish       // the remote side has something new and goes on to signal it
    | Request       // a local thread asks for a poll and goes on to signal it
    | SetFired | Ring | TakeBell | Poll | Check | ClearArmed | Up

  predicate Enabled(s: State, a: Action) {
    match a
    case Wait => s.waiter == Sleep ==> s.sem > 0
    case Interrupted => s.waiter == Sleep
    case Publish => true
    case Request => true
    case SetFired => s.publishing > 0
    case Ring => s.ringing > 0
    case TakeBell => s.bell
    case Poll => s.polling > 0
    case Check => s.checking > 0
    case ClearArmed => s.disarming > 0
    case Up => s.raising > 0
  }

  function WaitStep(s: State): (t: State)
    requires Enabled(s, Wait)
  {
    match s.waiter
    case Look => s.(waiter := if s.fired then Clear else Arm)
    case Arm => s.(armed := true, waiter := LookAgain)
    case LookAgain => s.(waiter := if s.fired then Disarm else Sleep)
    case Sleep => s.(sem := s.sem - 1, waiter := Disarm)
    case Disarm => s.(armed := false, waiter := Clear)
    case Clear => s.(fired := false, waiter := Work)
    case Work => s.(poll := false, work := false, waiter := Look)
    case Cancel => s.(armed := false, waiter := Work)
  }

  function Step(s: State, a: Action): (t: State)
    requires Enabled(s, a)
  {
    match a
    case Wait => WaitStep(s)
    case Interrupted => s.(waiter := Cancel)
    case Publish => s.(work := true, publishing := s.publishing + 1)
    case Request => s.(poll := true, disarming := s.disarming + 1)
    case SetFired => s.(fired := true, publishing := s.publishing - 1, ringing := s.ringing + 1)
    case Ring => s.(bell := s.bell || s.armed, ringing := s.ringing - 1)
    case TakeBell => s.(bell := false, polling := s.polling + 1)
    case Poll => s.(polling := s.polling - 1, checking := s.checking + if s.fired then 1 else 0)
    case Check => s.(checking := s.checking - 1, disarming := s.disarming + if s.armed then 1 else 0)
    case ClearArmed => s.(armed := false, disarming := s.disarming - 1, raising := s.raising + 1)
    case Up => s.(sem := s.sem + 1, raising := s.raising - 1)
  }

  /** A fresh event. The remote side may have fired it already. */
  function Start(fired: bool): (s: State) {
    State(false, fired, 0, false, Look, 0, 0, 0, 0, 0, 0, false, false)
  }

  /** The state after these steps, in any interleaving; null when one of them was not possible. */
  datatype Outcome = Stuck | At(state: State)

  function Run(s: State, acts: seq<Action>): (r: Outcome) {
    if |acts| == 0 then At(s)
    else
      var r := Run(s, acts[..|acts| - 1]);
      var a := acts[|acts| - 1];
      if r.At? && Enabled(r.state, a) then At(Step(r.state, a)) else Stuck
  }

  ghost predicate Reachable(s: State) {
    exists fired, acts :: Run(Start(fired), acts) == At(s)
  }

  /** Someone will still look at armed after fired was set. */
  predicate SignalPending(s: State) {
    s.ringing > 0 || s.bell || s.polling > 0 || s.checking > 0
  }

  /** Someone is about to raise the semaphore. */
  predicate UpPending(s: State) {
    s.disarming > 0 || s.raising > 0
  }

  /** The waiter has armed the event and not yet gone on. */
  predicate AboutToSleep(s: State) {
    s.waiter == LookAgain || s.waiter == Sleep
  }

  predicate BeforeWork(s: State) {
    s.waiter == Look || s.waiter == Arm || s.waiter == LookAgain || s.waiter == Sleep
  }

  ghost predicate Safe(s: State) {
    // the event is armed only around the waiter's sleep
    && (s.armed ==> AboutToSleep(s) || s.waiter == Disarm || s.waiter == Cancel)
    // an armed event is only disarmed together with a raised semaphore
    && (AboutToSleep(s) ==> s.armed || s.raising > 0 || s.sem > 0)
    // whoever fires after the second look meets an armed event
    && (s.waiter == Sleep && s.fired && s.armed ==> SignalPending(s) || s.disarming > 0)
    // a request raises the semaphore, or the waiter is on its way to the work
    && (BeforeWork(s) && s.poll ==> s.sem > 0 || UpPending(s))
    // published work is announced by fired until the waiter goes on to do it
    && (s.work && s.waiter != Work && s.waiter != Cancel ==> s.fired || s.publishing > 0)
  }

  lemma WaitSafe(s: State)
    requires Safe(s) && Enabled(s, Wait)
    ensures Safe(WaitStep(s))
  {
  }

  lemma StepSafe(s: State, a: Action)
    requires Safe(s) && Enabled(s, a)
    ensures Safe(Step(s, a))
  {
    hide WaitStep;
    if a.Wait? {
      WaitSafe(s);
    }
  }

  lemma {:induction false} RunSafe(fired: bool, acts: seq<Action>)
    ensures Run(Start(fired), acts).At? ==> Safe(Run(Start(fired), acts).state)
  {
    if |acts| > 0 {
      RunSafe(fired, acts[..|acts| - 1]);
      var r := Run(Start(fired), acts[..|acts| - 1]);
      if r.At? && Enabled(r.state, acts[|acts| - 1]) {
        StepSafe(r.state, acts[|acts| - 1]);
      }
    }
  }

  /** No wake-up is lost: a waiter asleep on a zero semaphore, whose event has fired, has a
      doorbell pending, or a signaller or interrupt on its way to ring or raise it. */
  lemma NoLostWakeUp(s: State)
    requires Reachable(s) && s.waiter == Sleep && s.sem == 0 && s.fired
    ensures SignalPending(s) || UpPending(s)
    ensures !s.armed ==> s.raising > 0
  {
    var fired, acts :| Run(Start(fired), acts) == At(s);
    RunSafe(fired, acts);
  }

  /** The event is armed only while the waiter is about to sleep, asleep, or on its way to disarm it. */
  lemma ArmedAroundSleep(s: State)
    requires Reachable(s) && s.armed
    ensures s.waiter in {LookAgain, Sleep, Disarm, Cancel}
  {
    var fired, acts :| Run(Start(fired), acts) == At(s);
    RunSafe(fired, acts);
  }

  /** The same for both reasons to wake up: published work and a requested poll. */
  lemma NoForgottenWork(s: State)
    requires Reachable(s) && s.waiter == Sleep && s.sem == 0 && (s.work || s.poll)
    ensures s.publishing > 0 || SignalPending(s) || UpPending(s)
  {
    var fired, acts :| Run(Start(fired), acts) == At(s);
    RunSafe(fired, acts);
  }

  // ---------------------------------------------------------------- a waiter left alone

  /** How many steps the waiter has before it sleeps on a zero semaphore, when nobody else moves. */
  function StepsToSleep(s: State): (n: nat) {
    var n := match s.waiter
      case Sleep => 0
      case LookAgain => if s.fired then 7 else 1
      case Arm => if s.fired then 8 else 2
      case Look => if s.fired then 6 else 3
      case Clear => 5
      case Disarm => 6
      case Work => if s.fired then 7 else 4
      case Cancel => if s.fired then 8 else 5;
    7 * s.sem + n
  }

  lemma WaiterGetsOn(s: State)
    ensures Enabled(s, Wait) <==> StepsToSleep(s) > 0
    ensures Enabled(s, Wait) ==> StepsToSleep(WaitStep(s)) == StepsToSleep(s) - 1
  {
  }

  function Waits(n: nat): (acts: seq<Action>) {
    if n == 0 then [] else Waits(n - 1) + [Wait]
  }

  lemma {:induction false} WaitsRun(s: State, n: nat)
    requires n <= StepsToSleep(s)
    ensures |Waits(n)| == n && Run(s, Waits(n)).At?
    ensures StepsToSleep(Run(s, Waits(n)).state) == StepsToSleep(s) - n
    ensures Distance(Run(s, Waits(n)).state) == Distance(s)
  {
    hide Distance;
    if n > 0 {
      WaitsRun(s, n - 1);
      assert Waits(n)[..n - 1] == Waits(n - 1);
      var t := Run(s, Waits(n - 1)).state;
      WaiterGetsOn(t);
      WaitKeepsDistance(t);
    }
  }

  lemma WaitKeepsDistance(s: State)
    requires Enabled(s, Wait)
    ensures Distance(WaitStep(s)) == Distance(s)
  {
    hide WaitStep;
    WaitKeepsOthers(s);
  }

  lemma WaitKeepsOthers(s: State)
    requires Enabled(s, Wait)
    ensures var t := WaitStep(s);
      && t.publishing == s.publishing && t.ringing == s.ringing && t.bell == s.bell && t.polling == s.polling
      && t.checking == s.checking && t.disarming == s.disarming && t.raising == s.raising
  {
  }

  lemma {:induction false} RunKeepsSafe(s: State, acts: seq<Action>)
    requires Safe(s)
    ensures Run(s, acts).At? ==> Safe(Run(s, acts).state)
  {
    hide Safe, Step;
    if |acts| > 0 {
      RunKeepsSafe(s, acts[..|acts| - 1]);
      var r := Run(s, acts[..|acts| - 1]);
      if r.At? && Enabled(r.state, acts[|acts| - 1]) {
        StepSafe(r.state, acts[|acts| - 1]);
      }
    }
  }

  /** A waiter left alone goes to sleep: from every reachable state with nothing under way, after a
      number of its own steps known beforehand, and no sooner, it sleeps on a zero semaphore, with
      the event armed and not fired, and all work and every request dealt with. */
  lemma LeftAloneSleeps(s: State)
    requires Reachable(s) && Distance(s) == 0
    ensures Run(s, Waits(StepsToSleep(s))).At?
    ensures var t := Run(s, Waits(StepsToSleep(s))).state;
      t.waiter == Sleep && t.sem == 0 && t.armed && !t.fired && !t.work && !t.poll && !Enabled(t, Wait)
  {
    hide Run, Step, Start;
    var fired, acts :| Run(Start(fired), acts) == At(s);
    RunSafe(fired, acts);
    var n := StepsToSleep(s);
    WaitsRun(s, n);
    RunKeepsSafe(s, Waits(n));
    WaiterGetsOn(Run(s, Waits(n)).state);
  }

  /** A fresh event has nothing under way; and both reasons to wake up do come to a sleeping waiter. */
  lemma FreshEvent()
    ensures Distance(Start(false)) == 0 && Distance(Start(true)) == 0
    ensures exists s :: Reachable(s) && s.waiter == Sleep && s.sem == 0 && s.work && s.poll
  {
    hide Run, Step, Distance;
    assert Distance(Start(false)) == 0 && Distance(Start(true)) == 0 by { FreshDistance(); }
    var s := State(true, false, 0, false, Sleep, 0, 0, 0, 0, 0, 0, false, false);
    var t, u := Step(s, Publish), Step(Step(s, Publish), Request);
    AsleepAtOnce();
    RunOne(Start(false), Waits(3), s, Publish);
    RunOne(Start(false), Waits(3) + [Publish], t, Request);
    assert Run(Start(false), Waits(3) + [Publish] + [Request]) == At(u);
    Reaches(false, Waits(3) + [Publish] + [Request], u);
    SignalsWait(s);
  }

  lemma FreshDistance()
    ensures forall fired :: Distance(Start(fired)) == 0
  {
  }

  lemma Reaches(fired: bool, acts: seq<Action>, s: State)
    requires Run(Start(fired), acts) == At(s)
    ensures Reachable(s)
  {
  }

  lemma SignalsWait(s: State)
    ensures var u := Step(Step(s, Publish), Request); u.waiter == s.waiter && u.sem == s.sem && u.work && u.poll
  {
  }

  lemma AsleepAtOnce()
    ensures Run(Start(false), Waits(3)) == At(State(true, false, 0, false, Sleep, 0, 0, 0, 0, 0, 0, false, false))
  {
    hide Run;
    assert Waits(1) == Waits(0) + [Wait] && Waits(2) == Waits(1) + [Wait] && Waits(3) == Waits(2) + [Wait];
    NothingRun(Start(false));
    RunOne(Start(false), Waits(0), Start(false), Wait);
    RunOne(Start(false), Waits(1), Start(false).(waiter := Arm), Wait);
    RunOne(Start(false), Waits(2), Start(false).(armed := true, waiter := LookAgain), Wait);
  }

  lemma NothingRun(s: State)
    ensures Run(s, Waits(0)) == At(s)
  {
  }

  lemma RunOne(start: State, acts: seq<Action>, s: State, a: Action)
    requires Run(start, acts) == At(s) && Enabled(s, a)
    ensures Run(start, acts + [a]) == At(Step(s, a))
  {
    assert (acts + [a])[..|acts|] == acts;
  }

  // ---------------------------------------------------------------- the wake-up arrives

  /** Steps of signallers and interrupts already on their way. */
  predicate Helping(a: Action) {
    a.SetFired? || a.Ring? || a.TakeBell? || a.Poll? || a.Check? || a.ClearArmed? || a.Up?
  }

  ghost predicate AllHelping(acts: seq<Action>) {
    forall i :: 0 <= i < |acts| ==> Helping(acts[i])
  }

  /** Progress still to be made before the semaphore is raised. */
  function Distance(s: State): (d: nat) {
    7 * s.publishing + 6 * s.ringing + (if s.bell then 5 else 0) + 4 * s.polling + 3 * s.checking + 2 * s.disarming + s.raising
  }

  /** Whatever order they move in, the steps already under way come to an end. */
  lemma HelpingEnds(s: State, a: Action)
    requires Enabled(s, a) && Helping(a)
    ensures Distance(Step(s, a)) < Distance(s)
  {
  }

  /** Some step under way is possible whenever anything is under way. */
  lemma HelpingGoesOn(s: State)
    ensures Distance(s) > 0 ==> exists a :: Helping(a) && Enabled(s, a)
  {
    if s.publishing > 0 { assert Helping(SetFired) && Enabled(s, SetFired); }
    else if s.ringing > 0 { assert Helping(Ring) && Enabled(s, Ring); }
    else if s.bell { assert Helping(TakeBell) && Enabled(s, TakeBell); }
    else if s.polling > 0 { assert Helping(Poll) && Enabled(s, Poll); }
    else if s.checking > 0 { assert Helping(Check) && Enabled(s, Check); }
    else if s.disarming > 0 { assert Helping(ClearArmed) && Enabled(s, ClearArmed); }
    else if s.raising > 0 { assert Helping(Up) && Enabled(s, Up); }
  }

  /** Once everything under way has finished, a sleeping waiter with work to do has its
      semaphore raised: no order of the helping steps leaves it asleep. */
  lemma {:induction false} WakeUpArrives(s: State, acts: seq<Action>)
    requires Safe(s) && s.waiter == Sleep && (s.work || s.poll)
    requires AllHelping(acts) && Run(s, acts).At? && Distance(Run(s, acts).state) == 0
    ensures Run(s, acts).state.sem > 0
  {
    HelpingKeeps(s, acts);
  }

  lemma {:induction false} HelpingKeeps(s: State, acts: seq<Action>)
    requires Safe(s) && s.waiter == Sleep && AllHelping(acts) && Run(s, acts).At?
    ensures var t := Run(s, acts).state;
      Safe(t) && t.waiter == Sleep && t.work == s.work && t.poll == s.poll
  {
    hide Safe, Step;
    if |acts| > 0 {
      HelpingKeeps(s, acts[..|acts| - 1]);
      StepSafe(Run(s, acts[..|acts| - 1]).state, acts[|acts| - 1]);
      HelpingStep(Run(s, acts[..|acts| - 1]).state, acts[|acts| - 1]);
    }
  }

  lemma HelpingStep(s: State, a: Action)
    requires Enabled(s, a) && Helping(a)
    ensures Step(s, a).waiter == s.waiter && Step(s, a).work == s.work && Step(s, a).poll == s.poll
  {
    hide WaitStep;
  }

  /** Helping steps use up the distance. */
  lemma {:induction false} HelpingBounded(s: State, acts: seq<Action>)
    requires AllHelping(acts) && Run(s, acts).At?
    ensures |acts| + Distance(Run(s, acts).state) <= Distance(s)
  {
    hide Distance, Step, Enabled;
    if |acts| > 0 {
      HelpingBounded(s, acts[..|acts| - 1]);
      HelpingEnds(Run(s, acts[..|acts| - 1]).state, acts[|acts| - 1]);
    }
  }

  /** No helping step is left to take. */
  ghost predicate Settled(s: State) {
    forall a :: Helping(a) ==> !Enabled(s, a)
  }

  /** The wake-up is certain. From every reachable state in which the waiter sleeps with work or a
      poll to do, every run of helping steps is finite, with a bound known beforehand; and a run
      that cannot go on has raised the semaphore, so the waiter can go on instead. */
  lemma WakeUpCertain(s: State, acts: seq<Action>)
    requires Reachable(s) && s.waiter == Sleep && (s.work || s.poll)
    requires AllHelping(acts) && Run(s, acts).At?
    ensures |acts| <= Distance(s)
    ensures Settled(Run(s, acts).state) ==> Run(s, acts).state.sem > 0 && Enabled(Run(s, acts).state, Wait)
  {
    hide Distance, Step, Run, Safe, AllHelping, Start;
    var fired, before :| Run(Start(fired), before) == At(s);
    RunSafe(fired, before);
    HelpingBounded(s, acts);
    var t := Run(s, acts).state;
    if Settled(t) {
      HelpingGoesOn(t);
      WakeUpArrives(s, acts);
      HelpingKeeps(s, acts);
    }
  }
}
