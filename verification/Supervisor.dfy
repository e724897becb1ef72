/** The validator watcher: a supervisor loop that spawns the node, a monitor task per child and the status and
    restart channels between them, as every interleaving of their steps.
    Models applications/tari_watcher/src/process.rs and applications/tari_watcher/src/monitoring.rs. */
module Supervisors {
  import opened Wrappers

  datatype Status = Running | Exited(code: int) | Crashed | InternalError(message: string) | Submitted(id: nat, block: nat)

  predicate IsTerminal(s: Status) {
    s.Exited? || s.Crashed? || s.InternalError?
  }

  /** How waiting for a child ends: the child succeeded, with its exit code if it has one, or did not, or waiting failed. */
  datatype WaitResult = Succeeded(code: Option<int>) | Failed | Unwaited(message: string)

  /** The status a monitor reports for it. */
  function StatusOf(result: WaitResult): (status: Status)
    ensures IsTerminal(status)
  {
    match result
    case Succeeded(Some(code)) => Exited(code)
    case Succeeded(None) => Exited(0)
    case Failed => Crashed
    case Unwaited(message) => InternalError(message)
  }

  const STATUS_CAPACITY := 16
  const RESTART_CAPACITY := 1

  /** A bounded channel: what it holds, everything ever sent on it, and whether its receiver was dropped. */
  datatype Channel = Channel(queue: seq<Status>, sent: seq<Status>, closed: bool)

  /** Where a monitor task stands; each step up to `Done` is one await point. */
  datatype Monitor =
    | SendRunningLog
    | SendRunningAlert
    | WaitChild
    | SendTerminalLog(status: Status)
    | SendTerminalAlert(status: Status)
    | SendRestart
    | Done
    | Panicked

  predicate Active(m: Monitor) {
    !m.Done? && !m.Panicked?
  }

  /** Where the supervisor loop stands: about to spawn, waiting on the restart channel, or out of the loop. */
  datatype Loop = Spawning | Waiting | Stopped

  /** `restarts` is the content of the restart channel, `senders` its live sender handles, `spawned` the number of
      successful spawns and `received` the number of signals the loop consumed. */
  datatype State = State(
    loop: Loop,
    monitors: seq<Monitor>,
    restarts: nat,
    senders: nat,
    log: Channel,
    alert: Channel,
    spawned: nat,
    received: nat)

  /** The loop owns one sender of the restart channel; the spawning function has dropped its own. */
  ghost predicate Init(s: State) {
    && s.loop == Spawning && s.monitors == [] && s.restarts == 0 && s.senders == 1
    && s.log == Channel([], [], false) && s.alert == Channel([], [], false)
    && s.spawned == 0 && s.received == 0
  }

  datatype Step =
    | SpawnFails
    | SpawnSucceeds
    | ReceiveRestart
    | RestartChannelEnds
    | MonitorSendsLog(i: nat)
    | MonitorSendsAlert(i: nat)
    | ChildEnds(i: nat, result: WaitResult)
    | MonitorSendsRestart(i: nat)
    | OtherSendsLog(id: nat, block: nat)
    | OtherSendsAlert(id: nat, block: nat)
    | ReadLog
    | ReadAlert
    | DropLog
    | DropAlert

  predicate CanSend(c: Channel) {
    c.closed || |c.queue| < STATUS_CAPACITY
  }

  function Push(c: Channel, m: Status): Channel {
    c.(queue := c.queue + [m], sent := c.sent + [m])
  }

  /** The status a monitor at a sending point sends next. */
  function Message(m: Monitor): Status
    requires m.SendRunningLog? || m.SendRunningAlert? || m.SendTerminalLog? || m.SendTerminalAlert?
  {
    if m.SendRunningLog? || m.SendRunningAlert? then Running else m.status
  }

  /** Where a monitor goes after a send that succeeded. */
  function Sent(m: Monitor): Monitor {
    match m
    case SendRunningLog => SendRunningAlert
    case SendRunningAlert => WaitChild
    case SendTerminalLog(st) => SendTerminalAlert(st)
    case SendTerminalAlert(_) => SendRestart
    case other => other
  }

  ghost predicate Enabled(s: State, step: Step) {
    match step
    case SpawnFails => s.loop == Spawning
    case SpawnSucceeds => s.loop == Spawning
    case ReceiveRestart => s.loop == Waiting && s.restarts > 0
    case RestartChannelEnds => s.loop == Waiting && s.restarts == 0 && s.senders == 0
    case MonitorSendsLog(i) =>
      i < |s.monitors| && (s.monitors[i].SendRunningLog? || s.monitors[i].SendTerminalLog?) && CanSend(s.log)
    case MonitorSendsAlert(i) =>
      i < |s.monitors| && (s.monitors[i].SendRunningAlert? || s.monitors[i].SendTerminalAlert?) && CanSend(s.alert)
    case ChildEnds(i, _) => i < |s.monitors| && s.monitors[i].WaitChild?
    case MonitorSendsRestart(i) =>
      i < |s.monitors| && s.monitors[i].SendRestart? && (s.loop == Stopped || s.restarts < RESTART_CAPACITY)
    case OtherSendsLog(_, _) => !s.log.closed && CanSend(s.log)
    case OtherSendsAlert(_, _) => !s.alert.closed && CanSend(s.alert)
    case ReadLog => s.log.queue != [] && !s.log.closed
    case ReadAlert => s.alert.queue != [] && !s.alert.closed
    case DropLog => true
    case DropAlert => true
  }

  /** A task that ends, normally or by panic, drops its restart sender. */
  function WithMonitor(s: State, i: nat, m: Monitor): State
    requires i < |s.monitors|
  {
    s.(monitors := s.monitors[i := m],
       senders := if Active(s.monitors[i]) && !Active(m) && s.senders > 0 then s.senders - 1 else s.senders)
  }

  /** A send on a channel whose receiver is gone panics the sending task. */
  ghost function Apply(s: State, autoRestart: bool, step: Step): State
    requires Enabled(s, step)
  {
    match step
    case SpawnFails => s
    case SpawnSucceeds =>
      s.(loop := Waiting, monitors := s.monitors + [SendRunningLog], senders := s.senders + 1, spawned := s.spawned + 1)
    case ReceiveRestart =>
      var left := s.(restarts := s.restarts - 1, received := s.received + 1);
      if autoRestart then left.(loop := Spawning)
      else left.(loop := Stopped, senders := if s.senders > 0 then s.senders - 1 else 0)
    case RestartChannelEnds => s.(loop := Stopped)
    case MonitorSendsLog(i) =>
      if s.log.closed then WithMonitor(s, i, Panicked)
      else WithMonitor(s, i, Sent(s.monitors[i])).(log := Push(s.log, Message(s.monitors[i])))
    case MonitorSendsAlert(i) =>
      if s.alert.closed then WithMonitor(s, i, Panicked)
      else WithMonitor(s, i, Sent(s.monitors[i])).(alert := Push(s.alert, Message(s.monitors[i])))
    case ChildEnds(i, result) => WithMonitor(s, i, SendTerminalLog(StatusOf(result)))
    case MonitorSendsRestart(i) =>
      if s.loop == Stopped then WithMonitor(s, i, Panicked)
      else WithMonitor(s, i, Done).(restarts := s.restarts + 1)
    case OtherSendsLog(id, block) => s.(log := Push(s.log, Submitted(id, block)))
    case OtherSendsAlert(id, block) => s.(alert := Push(s.alert, Submitted(id, block)))
    case ReadLog => s.(log := s.log.(queue := s.log.queue[1..]))
    case ReadAlert => s.(alert := s.alert.(queue := s.alert.queue[1..]))
    case DropLog => s.(log := s.log.(closed := true, queue := []))
    case DropAlert => s.(alert := s.alert.(closed := true, queue := []))
  }

  /** A behaviour: a sequence of states, each reached from the previous one by an enabled step. */
  ghost predicate Behaviour(autoRestart: bool, states: seq<State>) {
    && |states| > 0 && Init(states[0])
    && forall k :: 0 <= k < |states| - 1 ==> Follows(autoRestart, states[k], states[k + 1])
  }

  ghost predicate Follows(autoRestart: bool, s: State, s': State) {
    exists step :: Enabled(s, step) && s' == Apply(s, autoRestart, step)
  }

  // ---- The inductive invariant ----

  /** The messages other than `Submitted`, in order. */
  function Lifecycle(sent: seq<Status>): seq<Status> {
    if sent == [] then []
    else
      var init := Lifecycle(sent[..|sent| - 1]);
      if sent[|sent| - 1].Submitted? then init else init + [sent[|sent| - 1]]
  }

  /** Running, terminal, Running, terminal, ... */
  predicate Alternates(sent: seq<Status>) {
    forall i :: 0 <= i < |sent| ==> if i % 2 == 0 then sent[i].Running? else IsTerminal(sent[i])
  }

  /** All monitors but the last one spawned have ended. */
  ghost predicate OnlyLastActive(monitors: seq<Monitor>) {
    forall i :: 0 <= i < |monitors| - 1 ==> !Active(monitors[i])
  }

  ghost function Last(monitors: seq<Monitor>): Monitor {
    if monitors == [] then Done else monitors[|monitors| - 1]
  }

  /** How many lifecycle messages the monitors have sent on each channel, by where the last monitor stands. */
  ghost predicate Sending(m: Monitor, log: seq<Status>, alert: seq<Status>) {
    match m
    case SendRunningLog => |log| % 2 == 0 && alert == log
    case SendRunningAlert => |log| % 2 == 1 && alert == log[..|log| - 1]
    case WaitChild => |log| % 2 == 1 && alert == log
    case SendTerminalLog(st) => |log| % 2 == 1 && alert == log && IsTerminal(st)
    case SendTerminalAlert(st) => |log| > 0 && |log| % 2 == 0 && alert == log[..|log| - 1] && log[|log| - 1] == st && IsTerminal(st)
    case SendRestart => |log| % 2 == 0 && alert == log
    case Done => |log| % 2 == 0 && alert == log
    case Panicked => alert == log || (|log| > 0 && alert == log[..|log| - 1])
  }

  ghost predicate Invariant(s: State, autoRestart: bool) {
    var log, alert := Lifecycle(s.log.sent), Lifecycle(s.alert.sent);
    && OnlyLastActive(s.monitors)
    && Alternates(log)
    && Sending(Last(s.monitors), log, alert)
    && |s.log.queue| <= STATUS_CAPACITY && |s.alert.queue| <= STATUS_CAPACITY
    && s.restarts == (if s.loop == Waiting && Last(s.monitors).Done? then 1 else 0)
    && (s.loop == Spawning ==> Last(s.monitors).Done? && s.spawned == s.received)
    && (s.loop == Waiting ==> s.monitors != [] && s.spawned == s.received + 1)
    && (s.loop == Stopped ==> Last(s.monitors).Done? && !autoRestart && s.spawned == s.received)
    && s.spawned == |s.monitors|
    && s.senders == (if s.loop == Stopped then 0 else 1) + (if Active(Last(s.monitors)) then 1 else 0)
    && (!autoRestart ==> s.received == if s.loop == Stopped then 1 else 0)
  }

  lemma LifecyclePush(c: Channel, m: Status)
    ensures Lifecycle(Push(c, m).sent) == if m.Submitted? then Lifecycle(c.sent) else Lifecycle(c.sent) + [m]
  {
    assert (c.sent + [m])[..|c.sent|] == c.sent;
  }

  lemma InvariantHoldsInitially(s: State, autoRestart: bool)
    requires Init(s)
    ensures Invariant(s, autoRestart)
  {
  }

  /** Every step of every task keeps the invariant. */
  lemma InvariantIsKept(s: State, autoRestart: bool, step: Step)
    requires Invariant(s, autoRestart) && Enabled(s, step)
    ensures Invariant(Apply(s, autoRestart, step), autoRestart)
  {
    hide Invariant, Apply, Enabled;
    match step
    case MonitorSendsLog(i) => LogStepKeeps(s, autoRestart, i);
    case MonitorSendsAlert(i) => AlertStepKeeps(s, autoRestart, i);
    case ChildEnds(_, _) => TaskStepKeeps(s, autoRestart, step);
    case MonitorSendsRestart(_) => TaskStepKeeps(s, autoRestart, step);
    case SpawnFails => LoopStepKeeps(s, autoRestart, step);
    case SpawnSucceeds => LoopStepKeeps(s, autoRestart, step);
    case ReceiveRestart => LoopStepKeeps(s, autoRestart, step);
    case RestartChannelEnds => LoopStepKeeps(s, autoRestart, step);
    case OtherSendsLog(_, _) => OtherLogKeeps(s, autoRestart, step);
    case OtherSendsAlert(_, _) => OtherAlertKeeps(s, autoRestart, step);
    case _ => ReaderStepKeeps(s, autoRestart, step);
  }

  lemma LastMonitorSteps(monitors: seq<Monitor>, i: nat, m: Monitor)
    requires OnlyLastActive(monitors) && i < |monitors| && Active(monitors[i])
    ensures i == |monitors| - 1 && monitors[i] == Last(monitors)
    ensures OnlyLastActive(monitors[i := m]) && Last(monitors[i := m]) == m
  {
  }

  /** A lifecycle message sent on the log channel continues the pattern. */
  lemma LogMessageFits(m: Monitor, log: seq<Status>, alert: seq<Status>)
    requires m.SendRunningLog? || m.SendTerminalLog?
    requires Alternates(log) && Sending(m, log, alert)
    ensures !Message(m).Submitted? && Alternates(log + [Message(m)]) && Sending(Sent(m), log + [Message(m)], alert)
    ensures m.SendTerminalLog? ==> IsTerminal(Message(m))
    ensures Sending(Panicked, log, alert)
  {
  }

  /** The same message sent on the alert channel catches it up with the log channel. */
  lemma AlertMessageFits(m: Monitor, log: seq<Status>, alert: seq<Status>)
    requires m.SendRunningAlert? || m.SendTerminalAlert?
    requires Alternates(log) && Sending(m, log, alert)
    ensures !Message(m).Submitted? && Sending(Sent(m), log, alert + [Message(m)])
    ensures Sending(Panicked, log, alert)
  {
    assert log == log[..|log| - 1] + [log[|log| - 1]];
  }

  lemma LogStepKeeps(s: State, autoRestart: bool, i: nat)
    requires Invariant(s, autoRestart) && Enabled(s, MonitorSendsLog(i))
    ensures Invariant(Apply(s, autoRestart, MonitorSendsLog(i)), autoRestart)
  {
    hide Sending, Alternates, OnlyLastActive, Last, Lifecycle;
    var m := s.monitors[i];
    LastMonitorSteps(s.monitors, i, if s.log.closed then Panicked else Sent(m));
    LifecyclePush(s.log, Message(m));
    LogMessageFits(m, Lifecycle(s.log.sent), Lifecycle(s.alert.sent));
  }

  lemma AlertStepKeeps(s: State, autoRestart: bool, i: nat)
    requires Invariant(s, autoRestart) && Enabled(s, MonitorSendsAlert(i))
    ensures Invariant(Apply(s, autoRestart, MonitorSendsAlert(i)), autoRestart)
  {
    hide Sending, Alternates, OnlyLastActive, Last, Lifecycle;
    var m := s.monitors[i];
    LastMonitorSteps(s.monitors, i, if s.alert.closed then Panicked else Sent(m));
    LifecyclePush(s.alert, Message(m));
    AlertMessageFits(m, Lifecycle(s.log.sent), Lifecycle(s.alert.sent));
  }

  lemma TaskStepKeeps(s: State, autoRestart: bool, step: Step)
    requires Invariant(s, autoRestart) && Enabled(s, step)
    requires step.ChildEnds? || step.MonitorSendsRestart?
    ensures Invariant(Apply(s, autoRestart, step), autoRestart)
  {
    hide Alternates, OnlyLastActive, Last;
    LastMonitorSteps(s.monitors, step.i, Apply(s, autoRestart, step).monitors[step.i]);
  }

  lemma LoopStepKeeps(s: State, autoRestart: bool, step: Step)
    requires Invariant(s, autoRestart) && Enabled(s, step)
    requires step.SpawnFails? || step.SpawnSucceeds? || step.ReceiveRestart? || step.RestartChannelEnds?
    ensures Invariant(Apply(s, autoRestart, step), autoRestart)
  {
    hide Alternates;
  }

  lemma OtherLogKeeps(s: State, autoRestart: bool, step: Step)
    requires Invariant(s, autoRestart) && Enabled(s, step) && step.OtherSendsLog?
    ensures Invariant(Apply(s, autoRestart, step), autoRestart)
  {
    hide Sending, Alternates, OnlyLastActive, Last, Lifecycle;
    LifecyclePush(s.log, Submitted(step.id, step.block));
  }

  lemma OtherAlertKeeps(s: State, autoRestart: bool, step: Step)
    requires Invariant(s, autoRestart) && Enabled(s, step) && step.OtherSendsAlert?
    ensures Invariant(Apply(s, autoRestart, step), autoRestart)
  {
    hide Sending, Alternates, OnlyLastActive, Last, Lifecycle;
    LifecyclePush(s.alert, Submitted(step.id, step.block));
  }

  lemma ReaderStepKeeps(s: State, autoRestart: bool, step: Step)
    requires Invariant(s, autoRestart) && Enabled(s, step)
    requires step.ReadLog? || step.ReadAlert? || step.DropLog? || step.DropAlert?
    ensures Invariant(Apply(s, autoRestart, step), autoRestart)
  {
    hide Sending, Alternates, OnlyLastActive, Last, Lifecycle;
  }

  lemma {:induction false} InvariantAlways(autoRestart: bool, states: seq<State>, k: nat)
    requires Behaviour(autoRestart, states) && k < |states|
    ensures Invariant(states[k], autoRestart)
  {
    if k == 0 {
      InvariantHoldsInitially(states[0], autoRestart);
    } else {
      InvariantAlways(autoRestart, states, k - 1);
      assert Follows(autoRestart, states[k - 1], states[k - 1 + 1]);
      var step :| Enabled(states[k - 1], step) && states[k] == Apply(states[k - 1], autoRestart, step);
      InvariantIsKept(states[k - 1], autoRestart, step);
    }
  }

  // ---- What every behaviour guarantees ----

  /** At most one monitor is between its spawn and its end, in every reachable state of every interleaving. */
  lemma AtMostOneActiveMonitor(autoRestart: bool, states: seq<State>, k: nat, i: nat, j: nat)
    requires Behaviour(autoRestart, states) && k < |states|
    requires i < |states[k].monitors| && j < |states[k].monitors|
    requires Active(states[k].monitors[i]) && Active(states[k].monitors[j])
    ensures i == j
  {
    InvariantAlways(autoRestart, states, k);
  }

  /** On each status channel the lifecycle messages alternate Running, terminal, Running, ...; the alert channel carries
      the same messages as the log channel, at most one behind. */
  lemma StatusesAlternate(autoRestart: bool, states: seq<State>, k: nat)
    requires Behaviour(autoRestart, states) && k < |states|
    ensures var log, alert := Lifecycle(states[k].log.sent), Lifecycle(states[k].alert.sent);
            Alternates(log) && Alternates(alert) && alert <= log && |log| <= |alert| + 1
  {
    InvariantAlways(autoRestart, states, k);
  }

  /** The restart channel never holds more than one signal, a monitor that wants to signal never waits and never
      panics, and the loop never sees the channel end. */
  lemma RestartChannelDiscipline(autoRestart: bool, states: seq<State>, k: nat, i: nat)
    requires Behaviour(autoRestart, states) && k < |states|
    ensures states[k].restarts <= RESTART_CAPACITY
    ensures !Enabled(states[k], RestartChannelEnds)
    ensures i < |states[k].monitors| && states[k].monitors[i].SendRestart? ==>
              states[k].restarts == 0 && states[k].loop == Waiting &&
              Enabled(states[k], MonitorSendsRestart(i))
  {
    InvariantAlways(autoRestart, states, k);
  }

  /** No signal is lost: while the loop waits, either the last monitor is still active, or its signal is in the channel,
      or that monitor died because a status receiver was dropped. */
  lemma NoLostRestart(autoRestart: bool, states: seq<State>, k: nat)
    requires Behaviour(autoRestart, states) && k < |states| && states[k].loop == Waiting
    ensures states[k].monitors != []
    ensures var last := states[k].monitors[|states[k].monitors| - 1];
            (Active(last) && states[k].restarts == 0) || (last.Done? && states[k].restarts == 1) || last.Panicked?
  {
    InvariantAlways(autoRestart, states, k);
  }

  /** Successful spawns exceed consumed signals by at most one; without auto-restart there is at most one. */
  lemma SpawnsFollowSignals(autoRestart: bool, states: seq<State>, k: nat)
    requires Behaviour(autoRestart, states) && k < |states|
    ensures states[k].received <= states[k].spawned <= states[k].received + 1
    ensures !autoRestart ==> states[k].spawned <= 1
  {
    InvariantAlways(autoRestart, states, k);
  }

  // ---- What the channels carry ----

  /** A behaviour with its steps. */
  ghost predicate Trace(autoRestart: bool, states: seq<State>, steps: seq<Step>) {
    && |states| == |steps| + 1 && Init(states[0])
    && forall k :: 0 <= k < |steps| ==>
         Enabled(states[k], steps[k]) && states[k + 1] == Apply(states[k], autoRestart, steps[k])
  }

  lemma TraceIsBehaviour(autoRestart: bool, states: seq<State>, steps: seq<Step>)
    requires Trace(autoRestart, states, steps)
    ensures Behaviour(autoRestart, states)
  {
    hide Enabled, Apply;
    forall k | 0 <= k < |states| - 1 ensures Follows(autoRestart, states[k], states[k + 1]) {
      assert Enabled(states[k], steps[k]) && states[k + 1] == Apply(states[k], autoRestart, steps[k]);
    }
  }

  lemma TracePrefix(autoRestart: bool, states: seq<State>, steps: seq<Step>)
    requires Trace(autoRestart, states, steps) && steps != []
    ensures Trace(autoRestart, states[..|steps|], steps[..|steps| - 1])
  {
    hide Enabled, Apply, Init;
  }

  /** How the children of a run ended, in order. */
  function Ends(steps: seq<Step>): seq<WaitResult> {
    if steps == [] then []
    else
      var step := steps[|steps| - 1];
      var before := Ends(steps[..|steps| - 1]);
      if step.ChildEnds? then before + [step.result] else before
  }

  /** What other tasks submitted to the log channel, in order. */
  function SubmittedToLog(steps: seq<Step>): seq<Status> {
    if steps == [] then []
    else
      var step := steps[|steps| - 1];
      var before := SubmittedToLog(steps[..|steps| - 1]);
      if step.OtherSendsLog? then before + [Submitted(step.id, step.block)] else before
  }

  /** What other tasks submitted to the alert channel, in order. */
  function SubmittedToAlert(steps: seq<Step>): seq<Status> {
    if steps == [] then []
    else
      var step := steps[|steps| - 1];
      var before := SubmittedToAlert(steps[..|steps| - 1]);
      if step.OtherSendsAlert? then before + [Submitted(step.id, step.block)] else before
  }

  function Count(steps: seq<Step>, step: Step): nat {
    if steps == [] then 0
    else Count(steps[..|steps| - 1], step) + if steps[|steps| - 1] == step then 1 else 0
  }

  function Terminals(sent: seq<Status>): seq<Status> {
    if sent == [] then []
    else
      var init := Terminals(sent[..|sent| - 1]);
      if IsTerminal(sent[|sent| - 1]) then init + [sent[|sent| - 1]] else init
  }

  function Submissions(sent: seq<Status>): seq<Status> {
    if sent == [] then []
    else
      var init := Submissions(sent[..|sent| - 1]);
      if sent[|sent| - 1].Submitted? then init + [sent[|sent| - 1]] else init
  }

  function Runnings(sent: seq<Status>): nat {
    if sent == [] then 0
    else Runnings(sent[..|sent| - 1]) + if sent[|sent| - 1].Running? then 1 else 0
  }

  /** What a terminal status says about the child. */
  predicate Tells(status: Status, result: WaitResult) {
    match status
    case Exited(code) => result == Succeeded(Some(code)) || (code == 0 && result == Succeeded(None))
    case Crashed => result == Failed
    case InternalError(message) => result == Unwaited(message)
    case _ => false
  }

  ghost predicate AllTell(terminals: seq<Status>, ends: seq<WaitResult>) {
    |terminals| == |ends| && forall i :: 0 <= i < |ends| ==> Tells(terminals[i], ends[i])
  }

  /** The log channel tells how each child ended, in order, less the one that the last monitor has not told (yet). */
  ghost predicate EndsReported(last: Monitor, terminals: seq<Status>, ends: seq<WaitResult>) {
    match last
    case SendTerminalLog(status) =>
      ends != [] && AllTell(terminals, ends[..|ends| - 1]) && Tells(status, ends[|ends| - 1])
    case Panicked => AllTell(terminals, ends) || (ends != [] && AllTell(terminals, ends[..|ends| - 1]))
    case _ => AllTell(terminals, ends)
  }

  /** It got one Running for every spawn, less one that the last monitor has not sent (yet). */
  ghost predicate SpawnsReported(last: Monitor, runnings: nat, spawned: nat) {
    match last
    case SendRunningLog => spawned == runnings + 1
    case Panicked => runnings <= spawned <= runnings + 1
    case _ => spawned == runnings
  }

  /** An open channel holds what was sent on it and not yet read, in order. */
  ghost predicate InOrder(c: Channel, taken: nat) {
    !c.closed ==> taken <= |c.sent| && c.queue == c.sent[taken..]
  }

  ghost predicate Reports(s: State, steps: seq<Step>) {
    && EndsReported(Last(s.monitors), Terminals(s.log.sent), Ends(steps))
    && SpawnsReported(Last(s.monitors), Runnings(s.log.sent), s.spawned)
    && Submissions(s.log.sent) == SubmittedToLog(steps) && Submissions(s.alert.sent) == SubmittedToAlert(steps)
    && InOrder(s.log, Count(steps, ReadLog)) && InOrder(s.alert, Count(steps, ReadAlert))
  }

  lemma SentPush(c: Channel, m: Status)
    ensures Terminals(Push(c, m).sent) == if IsTerminal(m) then Terminals(c.sent) + [m] else Terminals(c.sent)
    ensures Submissions(Push(c, m).sent) == if m.Submitted? then Submissions(c.sent) + [m] else Submissions(c.sent)
    ensures Runnings(Push(c, m).sent) == Runnings(c.sent) + if m.Running? then 1 else 0
  {
    assert (c.sent + [m])[..|c.sent|] == c.sent;
  }

  lemma OrderIsKept(c: Channel, m: Status, taken: nat)
    requires InOrder(c, taken)
    ensures InOrder(Push(c, m), taken)
    ensures !c.closed && c.queue != [] ==> InOrder(c.(queue := c.queue[1..]), taken + 1)
  {
  }

  lemma ClosedIsInOrder(c: Channel, taken: nat)
    requires c.closed
    ensures InOrder(c, taken)
  {
  }

  lemma StepsSnoc(steps: seq<Step>, step: Step)
    ensures var all := steps + [step];
            && Ends(all) == (if step.ChildEnds? then Ends(steps) + [step.result] else Ends(steps))
            && SubmittedToLog(all) ==
               (if step.OtherSendsLog? then SubmittedToLog(steps) + [Submitted(step.id, step.block)] else SubmittedToLog(steps))
            && SubmittedToAlert(all) ==
               (if step.OtherSendsAlert? then SubmittedToAlert(steps) + [Submitted(step.id, step.block)]
                else SubmittedToAlert(steps))
            && Count(all, ReadLog) == Count(steps, ReadLog) + (if step == ReadLog then 1 else 0)
            && Count(all, ReadAlert) == Count(steps, ReadAlert) + (if step == ReadAlert then 1 else 0)
  {
    var all := steps + [step];
    assert all[..|all| - 1] == steps && all[|all| - 1] == step;
  }

  lemma MessageTells(m: Monitor, terminals: seq<Status>, ends: seq<WaitResult>)
    requires (m.SendRunningLog? || m.SendTerminalLog?) && EndsReported(m, terminals, ends)
    ensures EndsReported(Sent(m), if m.SendTerminalLog? then terminals + [m.status] else terminals, ends)
    ensures EndsReported(Panicked, terminals, ends)
  {
  }

  lemma LogReportKept(s: State, autoRestart: bool, steps: seq<Step>, i: nat)
    requires Invariant(s, autoRestart) && Reports(s, steps) && Enabled(s, MonitorSendsLog(i))
    ensures Reports(Apply(s, autoRestart, MonitorSendsLog(i)), steps + [MonitorSendsLog(i)])
  {
    hide Ends, SubmittedToLog, SubmittedToAlert, Count, Terminals, Submissions, Runnings, Lifecycle, Alternates, Sending, InOrder;
    hide OnlyLastActive, Last, EndsReported;
    var m := s.monitors[i];
    LastMonitorSteps(s.monitors, i, if s.log.closed then Panicked else Sent(m));
    MessageTells(m, Terminals(s.log.sent), Ends(steps));
    StepsSnoc(steps, MonitorSendsLog(i));
    SentPush(s.log, Message(m));
    LogMessageFits(m, Lifecycle(s.log.sent), Lifecycle(s.alert.sent));
    OrderIsKept(s.log, Message(m), Count(steps, ReadLog));
  }

  lemma AlertReportKept(s: State, autoRestart: bool, steps: seq<Step>, i: nat)
    requires Invariant(s, autoRestart) && Reports(s, steps) && Enabled(s, MonitorSendsAlert(i))
    ensures Reports(Apply(s, autoRestart, MonitorSendsAlert(i)), steps + [MonitorSendsAlert(i)])
  {
    hide Ends, SubmittedToLog, SubmittedToAlert, Count, Terminals, Submissions, Runnings, Lifecycle, Alternates, Sending, InOrder;
    hide OnlyLastActive, Last;
    var m := s.monitors[i];
    LastMonitorSteps(s.monitors, i, if s.alert.closed then Panicked else Sent(m));
    StepsSnoc(steps, MonitorSendsAlert(i));
    SentPush(s.alert, Message(m));
    AlertMessageFits(m, Lifecycle(s.log.sent), Lifecycle(s.alert.sent));
    OrderIsKept(s.alert, Message(m), Count(steps, ReadAlert));
  }

  lemma TaskReportKept(s: State, autoRestart: bool, steps: seq<Step>, step: Step)
    requires Invariant(s, autoRestart) && Reports(s, steps) && Enabled(s, step) && (step.ChildEnds? || step.MonitorSendsRestart?)
    ensures Reports(Apply(s, autoRestart, step), steps + [step])
  {
    hide Ends, SubmittedToLog, SubmittedToAlert, Count, Terminals, Submissions, Runnings, Lifecycle, Alternates, Sending, InOrder;
    hide OnlyLastActive, Last;
    StepsSnoc(steps, step);
    LastMonitorSteps(s.monitors, step.i, Apply(s, autoRestart, step).monitors[step.i]);
  }

  lemma LoopReportKept(s: State, autoRestart: bool, steps: seq<Step>, step: Step)
    requires Invariant(s, autoRestart) && Reports(s, steps) && Enabled(s, step)
    requires step.SpawnFails? || step.SpawnSucceeds? || step.ReceiveRestart? || step.RestartChannelEnds?
    ensures Reports(Apply(s, autoRestart, step), steps + [step])
  {
    hide Ends, SubmittedToLog, SubmittedToAlert, Count, Terminals, Submissions, Runnings, Lifecycle, Alternates, Sending, InOrder;
    hide OnlyLastActive;
    StepsSnoc(steps, step);
  }

  lemma ChannelReportKept(s: State, autoRestart: bool, steps: seq<Step>, step: Step)
    requires Reports(s, steps) && Enabled(s, step)
    requires step.OtherSendsLog? || step.OtherSendsAlert? || step.ReadLog? || step.ReadAlert? || step.DropLog? || step.DropAlert?
    ensures Reports(Apply(s, autoRestart, step), steps + [step])
  {
    hide Ends, SubmittedToLog, SubmittedToAlert, Count, Terminals, Submissions, Runnings, InOrder, EndsReported, SpawnsReported;
    StepsSnoc(steps, step);
    match step
    case OtherSendsLog(id, block) =>
      SentPush(s.log, Submitted(id, block));
      OrderIsKept(s.log, Submitted(id, block), Count(steps, ReadLog));
    case OtherSendsAlert(id, block) =>
      SentPush(s.alert, Submitted(id, block));
      OrderIsKept(s.alert, Submitted(id, block), Count(steps, ReadAlert));
    case ReadLog => OrderIsKept(s.log, Running, Count(steps, ReadLog));
    case ReadAlert => OrderIsKept(s.alert, Running, Count(steps, ReadAlert));
    case DropLog => ClosedIsInOrder(Apply(s, autoRestart, step).log, Count(steps, ReadLog));
    case DropAlert => ClosedIsInOrder(Apply(s, autoRestart, step).alert, Count(steps, ReadAlert));
  }

  lemma ReportsKept(s: State, autoRestart: bool, steps: seq<Step>, step: Step)
    requires Invariant(s, autoRestart) && Reports(s, steps) && Enabled(s, step)
    ensures Reports(Apply(s, autoRestart, step), steps + [step])
  {
    hide Invariant, Reports, Enabled, Apply;
    match step
    case MonitorSendsLog(i) => LogReportKept(s, autoRestart, steps, i);
    case MonitorSendsAlert(i) => AlertReportKept(s, autoRestart, steps, i);
    case ChildEnds(_, _) => TaskReportKept(s, autoRestart, steps, step);
    case MonitorSendsRestart(_) => TaskReportKept(s, autoRestart, steps, step);
    case SpawnFails => LoopReportKept(s, autoRestart, steps, step);
    case SpawnSucceeds => LoopReportKept(s, autoRestart, steps, step);
    case ReceiveRestart => LoopReportKept(s, autoRestart, steps, step);
    case RestartChannelEnds => LoopReportKept(s, autoRestart, steps, step);
    case _ => ChannelReportKept(s, autoRestart, steps, step);
  }

  /** In every run, whatever the interleaving: the log channel tells how each child ended, in order, and carries one Running
      per spawn, each less at most the one the last monitor has not sent; what other tasks
      submit arrives unchanged and in order; and readers get what was sent, in order. */
  lemma {:induction false} ChannelsReportTheRun(autoRestart: bool, states: seq<State>, steps: seq<Step>)
    requires Trace(autoRestart, states, steps)
    ensures Reports(states[|steps|], steps)
  {
    if steps != [] {
      hide Invariant, Reports, Enabled, Apply, Init, Behaviour;
      var n := |steps| - 1;
      TraceIsBehaviour(autoRestart, states, steps);
      InvariantAlways(autoRestart, states, n);
      TracePrefix(autoRestart, states, steps);
      ChannelsReportTheRun(autoRestart, states[..n + 1], steps[..n]);
      ReportsKept(states[n], autoRestart, steps[..n], steps[n]);
      assert steps[..n] + [steps[n]] == steps;
    }
  }
}
