/** Registration of the agent, its heartbeat check, and the switching between online and offline mode. */
module Heartbeat {
  import opened CStrings

  datatype Event = ChangeMode(online: bool)

  /** `pid == 0` means no agent is registered; `span` is the TTL cycle given at registration. */
  datatype State = State(now: nat, pid: int, timeStamp: nat, span: int, check: nat, running: bool, isOnline: bool,
                         events: seq<Event>)

  /** Nobody registered, offline, nothing queued. */
  const START := State(0, 0, 0, 0, 0, false, false, [])

  /** The actions, each of them atomic. An event or message handler that runs two of them can be interrupted in
      between by other threads. */
  datatype Step =
    | Tick                           // one second of the heartbeat loop
    | Register(pid: int)             // a register message, first action: the agent is registered
    | StartHeartbeat                 // its second action
    | Unregister                     // an unregister event, first action: the agent is cleared
    | StopHeartbeat                  // its second action
    | Ttl(pid: int, online: bool)    // a TTL event
    | AskMode(online: bool)          // an on/offline message, which queues the change it names
    | SwitchMode                     // the first queued mode change is handled

  // ---- The agent stub ----

  function Cleared(s: State): State {
    s.(pid := 0, timeStamp := 0, span := 0)
  }

  predicate OutDated(s: State) {
    s.pid == 0 || s.now - s.timeStamp > s.span * 3
  }

  function Queued(s: State, online: bool): State {
    s.(events := s.events + [ChangeMode(online)])
  }

  /** What the check of one full cycle does. */
  function CheckAgent(s: State): State {
    var s' := if s.pid != 0 && OutDated(s) then Cleared(s) else s;
    if (s.pid == 0 || OutDated(s)) && s.isOnline then Queued(s', false) else s'
  }

  function TickStep(s: State, ttlCycle: int): State {
    var s1 := s.(now := s.now + 1);
    if !s.running || ttlCycle <= 0 then s1
    else if s.check + 1 < ttlCycle then s1.(check := s.check + 1)
    else CheckAgent(s1.(check := 0))
  }

  function TtlStep(s: State, pid: int, online: bool, ttlCycle: int): State {
    var s' :=
      if pid == 0 then s
      else if s.pid == pid then s.(timeStamp := s.now)
      else s.(pid := pid, span := ttlCycle, timeStamp := s.now);
    if online != s.isOnline then Queued(s', online) else s'
  }

  function RegisterStep(s: State, pid: int, ttlCycle: int): State {
    var s' := s.(pid := pid, span := ttlCycle, timeStamp := s.now);
    if s.isOnline then s' else Queued(s', true)
  }

  function UnregisterStep(s: State): State {
    if s.isOnline then Queued(Cleared(s), false) else Cleared(s)
  }

  function Next(s: State, step: Step, ttlCycle: int): State {
    match step
    case Tick => TickStep(s, ttlCycle)
    case Register(pid) => RegisterStep(s, pid, ttlCycle)
    case StartHeartbeat => if s.running then s else s.(running := true, check := 0)
    case Unregister => UnregisterStep(s)
    case StopHeartbeat => s.(running := false)
    case Ttl(pid, online) => TtlStep(s, pid, online, ttlCycle)
    case AskMode(online) => Queued(s, online)
    case SwitchMode => if s.events == [] then s else s.(isOnline := s.events[0].online, events := s.events[1..])
  }

  function Run(s: State, steps: seq<Step>, ttlCycle: int): State {
    if steps == [] then s else Next(Run(s, steps[..|steps| - 1], ttlCycle), steps[|steps| - 1], ttlCycle)
  }

  /** The heartbeat thread and the agent stub as objects updated in place. */
  class HeartbeatCheck {
    var state: State
    const ttlCycle: int

    constructor (state: State, ttlCycle: int)
      ensures this.state == state && this.ttlCycle == ttlCycle
    {
      this.state, this.ttlCycle := state, ttlCycle;
    }

    /** One turn of the loop in `fnHeartbeatCheck`. */
    method OneSecond()
      modifies this`state
      ensures state == Next(old(state), Tick, ttlCycle)
    {
      state := state.(now := state.now + 1);
      if !state.running || 0 >= ttlCycle {
        return;
      }
      state := state.(check := state.check + 1);
      if state.check < ttlCycle {
        return;
      }
      state := state.(check := 0);
      var needOfflinePolicy := true;
      if state.pid == 0 {
      } else if OutDated(state) {
        state := Cleared(state);
      } else {
        needOfflinePolicy := false;
      }
      if needOfflinePolicy && state.isOnline {
        state := Queued(state, false);
      }
    }
  }

  // ---- The latency of going offline ----

  /** `n` seconds in which nothing but the heartbeat happens. */
  function Silence(s: State, n: nat, ttlCycle: int): State {
    if n == 0 then s else TickStep(Silence(s, n - 1, ttlCycle), ttlCycle)
  }

  /** How long after the last sign of life the alarm comes, for a heartbeat that is `check` seconds into its cycle. */
  function AlarmAfter(check: nat, ttlCycle: int): int {
    4 * ttlCycle - check
  }

  /** The position in the cycle after `n` silent seconds, up to the fourth check. */
  function Position(check: nat, ttlCycle: int, n: nat): int {
    if check + n < ttlCycle then check + n
    else if check + n < 2 * ttlCycle then check + n - ttlCycle
    else if check + n < 3 * ttlCycle then check + n - 2 * ttlCycle
    else check + n - 3 * ttlCycle
  }

  /** A registered agent that was just heard of, while the supervisor is online. */
  predicate Heard(s: State, ttlCycle: int) {
    s.pid != 0 && s.timeStamp == s.now && s.span == ttlCycle && s.isOnline && s.check < ttlCycle
  }

  predicate JustHeard(s: State, ttlCycle: int) {
    Heard(s, ttlCycle) && s.running
  }

  lemma {:induction false} QuietBeforeAlarm(s: State, n: nat, ttlCycle: int)
    requires 2 <= ttlCycle && JustHeard(s, ttlCycle) && n < AlarmAfter(s.check, ttlCycle)
    ensures Silence(s, n, ttlCycle) == s.(now := s.now + n, check := Position(s.check, ttlCycle, n))
  {
    if n > 0 {
      QuietBeforeAlarm(s, n - 1, ttlCycle);
    }
  }

  /** The first "offline" is queued more than three and at most four cycles after the last sign of life: at
      exactly `AlarmAfter` seconds, and at no second before. */
  lemma OfflineLatency(s: State, ttlCycle: int)
    requires 2 <= ttlCycle && JustHeard(s, ttlCycle)
    ensures var alarm := AlarmAfter(s.check, ttlCycle);
            && 3 * ttlCycle < alarm <= 4 * ttlCycle
            && (forall n: nat | n < alarm :: Silence(s, n, ttlCycle).events == s.events)
            && Silence(s, alarm, ttlCycle).events == s.events + [ChangeMode(false)]
            && Silence(s, alarm, ttlCycle).pid == 0
  {
    var alarm := AlarmAfter(s.check, ttlCycle);
    forall n: nat | n < alarm
      ensures Silence(s, n, ttlCycle).events == s.events
    {
      QuietBeforeAlarm(s, n, ttlCycle);
    }
    QuietBeforeAlarm(s, alarm - 1, ttlCycle);
  }

  // ---- The same in any run without a sign of life ----

  /** Steps that are no sign of life of an agent and do not stop the heartbeat, whatever mode changes they ask for
      or handle. */
  predicate IsSilent(step: Step) {
    step.Tick? || step.SwitchMode? || step.AskMode? || step.StartHeartbeat? || (step.Ttl? && step.pid == 0)
  }

  predicate AllSilent(steps: seq<Step>) {
    forall i | 0 <= i < |steps| :: IsSilent(steps[i])
  }

  function Ticks(steps: seq<Step>): nat {
    if steps == [] then 0 else Ticks(steps[..|steps| - 1]) + if steps[|steps| - 1].Tick? then 1 else 0
  }

  /** An agent just heard of and a running heartbeat, in whichever mode. */
  predicate Watched(s: State, ttlCycle: int) {
    s.pid != 0 && s.timeStamp == s.now && s.span == ttlCycle && s.running && s.check < ttlCycle
  }

  /** What the heartbeat has seen of `s` after `n` silent seconds, before the alarm. */
  predicate SilentFor(s: State, t: State, n: nat, ttlCycle: int) {
    && t.pid == s.pid && t.timeStamp == s.timeStamp && t.span == s.span && t.running
    && t.now == s.now + n && t.check == Position(s.check, ttlCycle, n)
  }

  lemma {:induction false} StaysSilent(s: State, steps: seq<Step>, ttlCycle: int)
    requires 2 <= ttlCycle && Watched(s, ttlCycle) && AllSilent(steps) && Ticks(steps) < AlarmAfter(s.check, ttlCycle)
    ensures SilentFor(s, Run(s, steps, ttlCycle), Ticks(steps), ttlCycle)
  {
    if steps != [] {
      var n := |steps| - 1;
      StaysSilent(s, steps[..n], ttlCycle);
      SilentStep(s, Run(s, steps[..n], ttlCycle), Ticks(steps[..n]), steps[n], ttlCycle);
    }
    hide Next, SilentFor, Watched;
  }

  lemma SilentStep(s: State, t: State, n: nat, step: Step, ttlCycle: int)
    requires 2 <= ttlCycle && Watched(s, ttlCycle) && IsSilent(step) && SilentFor(s, t, n, ttlCycle)
    requires var n' := if step.Tick? then n + 1 else n; n' < AlarmAfter(s.check, ttlCycle)
    ensures SilentFor(s, Next(t, step, ttlCycle), if step.Tick? then n + 1 else n, ttlCycle)
  {
  }

  /** Whatever mode changes are asked for and handled meanwhile: the agent is given up at the very tick that makes
      `AlarmAfter` seconds of silence and at none before, and that tick alone queues "offline", iff the supervisor
      is online then. */
  lemma SilenceNoticed(s: State, steps: seq<Step>, ttlCycle: int)
    requires 2 <= ttlCycle && Watched(s, ttlCycle) && AllSilent(steps) && Ticks(steps) < AlarmAfter(s.check, ttlCycle)
    ensures var t := Run(s, steps, ttlCycle);
            var t' := Next(t, Tick, ttlCycle);
            && 3 * ttlCycle < AlarmAfter(s.check, ttlCycle) <= 4 * ttlCycle
            && (if Ticks(steps) + 1 < AlarmAfter(s.check, ttlCycle) then t'.pid == s.pid && t'.events == t.events
                else t'.pid == 0 && t'.events == t.events + if t.isOnline then [ChangeMode(false)] else [])
  {
    StaysSilent(s, steps, ttlCycle);
    hide Run, Ticks;
  }

  lemma {:induction false} StaysUnregistered(s: State, steps: seq<Step>, ttlCycle: int)
    requires s.pid == 0 && s.running && AllSilent(steps) && s.check + Ticks(steps) < ttlCycle
    ensures var t := Run(s, steps, ttlCycle); t.pid == 0 && t.running && t.check == s.check + Ticks(steps)
  {
    if steps != [] {
      StaysUnregistered(s, steps[..|steps| - 1], ttlCycle);
    }
  }

  /** With no agent but a running heartbeat, online mode is noticed at the end of every cycle, and only there. */
  lemma OrphanNoticed(s: State, steps: seq<Step>, ttlCycle: int)
    requires s.pid == 0 && s.running && AllSilent(steps) && s.check + Ticks(steps) < ttlCycle
    ensures var t := Run(s, steps, ttlCycle);
            Next(t, Tick, ttlCycle).events ==
            t.events + if s.check + Ticks(steps) + 1 == ttlCycle && t.isOnline then [ChangeMode(false)] else []
  {
    StaysUnregistered(s, steps, ttlCycle);
    hide Run, Ticks;
  }

  /** A heartbeat that is started, rather than running already, makes its first check a full cycle later. */
  lemma FirstCheckAfterStart(s: State, steps: seq<Step>, ttlCycle: int)
    requires s.pid == 0 && !s.running && AllSilent(steps) && Ticks(steps) < ttlCycle
    ensures var t := Run(Next(s, StartHeartbeat, ttlCycle), steps, ttlCycle);
            Next(t, Tick, ttlCycle).events ==
            t.events + if Ticks(steps) + 1 == ttlCycle && t.isOnline then [ChangeMode(false)] else []
  {
    OrphanNoticed(Next(s, StartHeartbeat, ttlCycle), steps, ttlCycle);
    hide Run, Ticks;
  }

  // ---- A heartbeat that does not run ----

  lemma {:induction false} NobodyWatches(s: State, n: nat, ttlCycle: int)
    requires !s.running
    ensures Silence(s, n, ttlCycle) == s.(now := s.now + n)
  {
    if n > 0 {
      NobodyWatches(s, n - 1, ttlCycle);
    }
  }

  /** The silence of an agent just heard of while online is ever noticed iff the heartbeat runs. */
  lemma NoticedExactly(s: State, ttlCycle: int)
    requires 2 <= ttlCycle && Heard(s, ttlCycle)
    ensures (exists n: nat :: Silence(s, n, ttlCycle).events != s.events) <==> s.running
  {
    if s.running {
      OfflineLatency(s, ttlCycle);
      assert Silence(s, AlarmAfter(s.check, ttlCycle), ttlCycle).events != s.events;
    } else {
      forall n: nat
        ensures Silence(s, n, ttlCycle).events == s.events
      {
        NobodyWatches(s, n, ttlCycle);
      }
    }
  }

  /** Some start of the heartbeat was not followed by a stop. */
  ghost predicate StillStarted(steps: seq<Step>) {
    exists i :: 0 <= i < |steps| && steps[i].StartHeartbeat? && forall j | i < j < |steps| :: !steps[j].StopHeartbeat?
  }

  lemma StillStartedStep(steps: seq<Step>)
    requires steps != []
    ensures var n := |steps| - 1;
            StillStarted(steps) <==> steps[n].StartHeartbeat? || (StillStarted(steps[..n]) && !steps[n].StopHeartbeat?)
  {
    var n := |steps| - 1;
    var earlier := steps[..n];
    if StillStarted(earlier) && !steps[n].StopHeartbeat? {
      var i :| 0 <= i < n && earlier[i].StartHeartbeat? && forall j | i < j < n :: !earlier[j].StopHeartbeat?;
      assert steps[i].StartHeartbeat? && forall j | i < j < |steps| :: j == n || !earlier[j].StopHeartbeat?;
    }
    if StillStarted(steps) && !steps[n].StartHeartbeat? {
      var i :| 0 <= i < |steps| && steps[i].StartHeartbeat? && forall j | i < j < |steps| :: !steps[j].StopHeartbeat?;
      assert earlier[i].StartHeartbeat?;
    }
  }

  /** The heartbeat runs iff some start of it, as registrations make them, was not followed by a stop, as
      unregistrations make them. */
  lemma {:induction false} RunningExactly(steps: seq<Step>, ttlCycle: int)
    ensures Run(START, steps, ttlCycle).running <==> StillStarted(steps)
  {
    hide StillStarted, Next;
    if steps != [] {
      var n := |steps| - 1;
      RunningExactly(steps[..n], ttlCycle);
      RunningStep(Run(START, steps[..n], ttlCycle), steps[n], ttlCycle);
      StillStartedStep(steps);
    } else {
      NothingStarted();
    }
  }

  lemma NothingStarted()
    ensures !StillStarted([])
  {
  }

  lemma RunningStep(s: State, step: Step, ttlCycle: int)
    ensures Next(s, step, ttlCycle).running == (step.StartHeartbeat? || (s.running && !step.StopHeartbeat?))
  {
  }

  /** A TTL message after the unregistration registers the agent again, but starts no heartbeat: the supervisor
      is online with a registered agent whose silence nobody will notice. */
  lemma UnwatchedAgent(ttlCycle: int)
    requires 2 <= ttlCycle
    ensures var t := Run(START, [Register(7), StartHeartbeat, SwitchMode, Unregister, StopHeartbeat, SwitchMode, Ttl(7, true),
                                 SwitchMode], ttlCycle);
            Heard(t, ttlCycle) && forall n: nat :: Silence(t, n, ttlCycle).events == t.events
  {
    var steps := [Register(7), StartHeartbeat, SwitchMode, Unregister, StopHeartbeat, SwitchMode, Ttl(7, true), SwitchMode];
    var s1 := RegisterStep(START, 7, ttlCycle);
    var s2 := s1.(running := true);
    var s3 := s2.(isOnline := true, events := []);
    var s4 := UnregisterStep(s3);
    var s5 := s4.(running := false);
    var s6 := s5.(isOnline := false, events := []);
    var s7 := TtlStep(s6, 7, true, ttlCycle);
    var t := s7.(isOnline := true, events := []);
    RunOf(steps, [START, s1, s2, s3, s4, s5, s6, s7, t], ttlCycle);
    NoticedExactly(t, ttlCycle);
  }

  /** So does a registration between the two actions of an unregistration: the heartbeat still runs, so it is not
      started, and then it is stopped. */
  lemma RegisteredWhileStopping(ttlCycle: int)
    requires 2 <= ttlCycle
    ensures var t := Run(START, [Register(7), StartHeartbeat, SwitchMode, Unregister, Register(8), StartHeartbeat, StopHeartbeat,
                                 SwitchMode, Ttl(8, true), SwitchMode], ttlCycle);
            t.pid == 8 && Heard(t, ttlCycle) && forall n: nat :: Silence(t, n, ttlCycle).events == t.events
  {
    var steps := [Register(7), StartHeartbeat, SwitchMode, Unregister, Register(8), StartHeartbeat, StopHeartbeat,
                  SwitchMode, Ttl(8, true), SwitchMode];
    var s1 := RegisterStep(START, 7, ttlCycle);
    var s2 := s1.(running := true);
    var s3 := s2.(isOnline := true, events := []);
    var s4 := UnregisterStep(s3);
    var s5 := RegisterStep(s4, 8, ttlCycle);
    var s7 := s5.(running := false);
    var s8 := s7.(isOnline := false, events := []);
    var s9 := TtlStep(s8, 8, true, ttlCycle);
    var t := s9.(isOnline := true, events := []);
    RunOf(steps, [START, s1, s2, s3, s4, s5, s5, s7, s8, s9, t], ttlCycle);
    NoticedExactly(t, ttlCycle);
  }

  /** A run given by its states. */
  lemma {:induction false} RunOf(steps: seq<Step>, states: seq<State>, ttlCycle: int)
    requires |states| == |steps| + 1 && states[0] == START
    requires forall i | 0 <= i < |steps| :: states[i + 1] == Next(states[i], steps[i], ttlCycle)
    ensures Run(START, steps, ttlCycle) == states[|steps|]
  {
    if steps != [] {
      RunOf(steps[..|steps| - 1], states[..|steps|], ttlCycle);
    }
  }

  // ---- No false alarm ----

  /** The heartbeat of the next tick, if it runs, finds a registered agent heard of within three cycles. */
  predicate Alive(before: State) {
    before.running ==> before.pid != 0 && before.now + 1 - before.timeStamp <= 3 * before.span
  }

  ghost predicate AliveThroughout(s: State, steps: seq<Step>, ttlCycle: int) {
    forall i | 0 <= i < |steps| && steps[i] == Tick :: Alive(Run(s, steps[..i], ttlCycle))
  }

  /** The mode change a message asks for; the heartbeat's own is not among them. */
  function AskedBy(before: State, step: Step): seq<Event> {
    match step
    case Ttl(_, online) => if online != before.isOnline then [ChangeMode(online)] else []
    case Register(_) => if before.isOnline then [] else [ChangeMode(true)]
    case Unregister => if before.isOnline then [ChangeMode(false)] else []
    case AskMode(online) => [ChangeMode(online)]
    case _ => []
  }

  /** Everything queued at the start or asked for by a message of the run, in order. */
  function AskedFor(s: State, steps: seq<Step>, ttlCycle: int): seq<Event> {
    if steps == [] then s.events
    else
      var n := |steps| - 1;
      AskedFor(s, steps[..n], ttlCycle) + AskedBy(Run(s, steps[..n], ttlCycle), steps[n])
  }

  /** How many queued changes the run handled. */
  function Handled(s: State, steps: seq<Step>, ttlCycle: int): nat {
    if steps == [] then 0
    else
      var n := |steps| - 1;
      Handled(s, steps[..n], ttlCycle) +
      if steps[n] == SwitchMode && Run(s, steps[..n], ttlCycle).events != [] then 1 else 0
  }

  lemma StepEvents(before: State, step: Step, ttlCycle: int)
    requires step == Tick ==> Alive(before)
    ensures Next(before, step, ttlCycle).events ==
            if step == SwitchMode && before.events != [] then before.events[1..]
            else before.events + AskedBy(before, step)
  {
  }

  /** Over any run in which the agent stays alive the heartbeat queues nothing: the queue is exactly what was
      there and what the messages asked for, less the changes already handled. */
  lemma {:induction false} QueueAsAsked(s: State, steps: seq<Step>, ttlCycle: int)
    requires AliveThroughout(s, steps, ttlCycle)
    ensures Handled(s, steps, ttlCycle) <= |AskedFor(s, steps, ttlCycle)|
    ensures Run(s, steps, ttlCycle).events == AskedFor(s, steps, ttlCycle)[Handled(s, steps, ttlCycle)..]
  {
    if steps != [] {
      hide Next, AskedBy;
      var n := |steps| - 1;
      AliveBefore(s, steps, ttlCycle);
      QueueAsAsked(s, steps[..n], ttlCycle);
      var before, asked, done := Run(s, steps[..n], ttlCycle), AskedFor(s, steps[..n], ttlCycle), Handled(s, steps[..n], ttlCycle);
      StepEvents(before, steps[n], ttlCycle);
      if steps[n] == SwitchMode && before.events != [] {
        SwitchAsksNothing(before);
      }
      QueueArithmetic(asked, AskedBy(before, steps[n]), done);
      hide AliveThroughout;
    }
  }

  lemma QueueArithmetic(asked: seq<Event>, more: seq<Event>, done: nat)
    requires done <= |asked|
    ensures (asked + more)[done..] == asked[done..] + more
    ensures done < |asked| ==> (asked + [])[done + 1..] == asked[done..][1..]
  {
  }

  lemma AliveBefore(s: State, steps: seq<Step>, ttlCycle: int)
    requires steps != [] && AliveThroughout(s, steps, ttlCycle)
    ensures AliveThroughout(s, steps[..|steps| - 1], ttlCycle)
  {
    var earlier := steps[..|steps| - 1];
    assert forall i | 0 <= i < |earlier| :: earlier[..i] == steps[..i] && earlier[i] == steps[i];
  }

  lemma SwitchAsksNothing(before: State)
    ensures AskedBy(before, SwitchMode) == []
  {
  }

  // ---- The same by what was received, and when ----

  /** A message that comes from an agent: the id under which it reports, 0 for any other step. */
  function SignOf(step: Step): int {
    if step.Register? || step.Ttl? then step.pid else 0
  }

  /** The seconds since the latest sign of life, and who gave it; None if there was none since the start, the
      latest unregistration, or a registration without an id. */
  function SinceSign(steps: seq<Step>): Option<(int, nat)> {
    if steps == [] then None else SignAfter(SinceSign(steps[..|steps| - 1]), steps[|steps| - 1])
  }

  function SignAfter(earlier: Option<(int, nat)>, last: Step): Option<(int, nat)> {
    if SignOf(last) != 0 then Some((SignOf(last), 0))
    else if last.Unregister? || last.Register? then None
    else if last.Tick? && earlier.Some? then Some((earlier.value.0, earlier.value.1 + 1))
    else earlier
  }

  /** While the heartbeat runs, a sign of life comes every three cycles at the latest. */
  ghost predicate InTime(steps: seq<Step>, ttlCycle: int) {
    forall i | 0 <= i < |steps| && steps[i] == Tick && StillStarted(steps[..i]) ::
      Soon(SinceSign(steps[..i]), ttlCycle)
  }

  /** The agent stub knows who gave the latest sign of life, and when. */
  predicate Knows(s: State, sign: Option<(int, nat)>, ttlCycle: int) {
    && (s.pid != 0 <==> sign.Some?)
    && (sign.Some? ==> s.pid == sign.value.0 && s.now - s.timeStamp == sign.value.1 && s.span == ttlCycle)
  }

  predicate Soon(sign: Option<(int, nat)>, ttlCycle: int) {
    sign.Some? && sign.value.1 + 1 <= 3 * ttlCycle
  }

  lemma KnowsStep(s: State, sign: Option<(int, nat)>, step: Step, ttlCycle: int)
    requires Knows(s, sign, ttlCycle) && (step == Tick && s.running ==> Soon(sign, ttlCycle))
    ensures Knows(Next(s, step, ttlCycle), SignAfter(sign, step), ttlCycle)
  {
  }

  lemma KnownIsAlive(s: State, sign: Option<(int, nat)>, ttlCycle: int)
    requires Knows(s, sign, ttlCycle) && (s.running ==> Soon(sign, ttlCycle))
    ensures Alive(s)
  {
  }

  lemma InTimeBefore(steps: seq<Step>, ttlCycle: int)
    requires steps != [] && InTime(steps, ttlCycle)
    ensures InTime(steps[..|steps| - 1], ttlCycle)
  {
    var earlier := steps[..|steps| - 1];
    assert forall i | 0 <= i < |earlier| :: earlier[..i] == steps[..i] && earlier[i] == steps[i];
    hide StillStarted, SinceSign;
  }

  lemma {:induction false} InTimeIsAlive(steps: seq<Step>, ttlCycle: int)
    requires InTime(steps, ttlCycle)
    ensures Knows(Run(START, steps, ttlCycle), SinceSign(steps), ttlCycle)
    ensures AliveThroughout(START, steps, ttlCycle)
  {
    if steps != [] {
      var n := |steps| - 1;
      InTimeBefore(steps, ttlCycle);
      InTimeIsAlive(steps[..n], ttlCycle);
      RunningExactly(steps[..n], ttlCycle);
      KnowsStep(Run(START, steps[..n], ttlCycle), SinceSign(steps[..n]), steps[n], ttlCycle);
      if steps[n] == Tick {
        KnownIsAlive(Run(START, steps[..n], ttlCycle), SinceSign(steps[..n]), ttlCycle);
      }
      assert forall i | 0 <= i < n :: steps[..n][..i] == steps[..i] && steps[..n][i] == steps[i];
    }
    hide Next, StillStarted, SignAfter, Alive, Soon;
  }

  /** In every run from the start in which, while the heartbeat runs, a registration or a TTL message with an id comes
      every three cycles at the latest, the heartbeat queues nothing: the queue is what the messages asked for, less
      the changes already handled, and the agent that reported last is still registered. */
  lemma NoFalseAlarm(steps: seq<Step>, ttlCycle: int)
    requires InTime(steps, ttlCycle)
    ensures Handled(START, steps, ttlCycle) <= |AskedFor(START, steps, ttlCycle)|
    ensures Run(START, steps, ttlCycle).events == AskedFor(START, steps, ttlCycle)[Handled(START, steps, ttlCycle)..]
    ensures Run(START, steps, ttlCycle).pid == if SinceSign(steps).Some? then SinceSign(steps).value.0 else 0
  {
    InTimeIsAlive(steps, ttlCycle);
    QueueAsAsked(START, steps, ttlCycle);
    hide InTime, AskedFor, Handled, Run, SinceSign;
  }

  // ---- Every sign of life starts the clock anew ----

  lemma {:induction false} RunFacts(steps: seq<Step>, ttlCycle: int)
    requires 2 <= ttlCycle
    ensures var s := Run(START, steps, ttlCycle);
            s.check < ttlCycle && (s.pid != 0 ==> s.span == ttlCycle)
  {
    if steps != [] {
      RunFacts(steps[..|steps| - 1], ttlCycle);
    }
  }

  /** After any message that comes from an agent, in any run from the start, the heartbeat watches that agent from
      second zero. */
  lemma SignRestartsClock(steps: seq<Step>, ttlCycle: int)
    requires 2 <= ttlCycle && steps != [] && SignOf(steps[|steps| - 1]) != 0 && StillStarted(steps)
    ensures var s := Run(START, steps, ttlCycle);
            Watched(s, ttlCycle) && s.pid == SignOf(steps[|steps| - 1])
  {
    RunFacts(steps[..|steps| - 1], ttlCycle);
    RunFacts(steps, ttlCycle);
    RunningExactly(steps, ttlCycle);
    hide StillStarted;
  }

  lemma {:induction false} RunOn(s: State, a: seq<Step>, b: seq<Step>, ttlCycle: int)
    ensures Run(s, a + b, ttlCycle) == Run(Run(s, a, ttlCycle), b, ttlCycle)
  {
    if b == [] {
      assert a + b == a;
    } else {
      RunOn(s, a, b[..|b| - 1], ttlCycle);
      assert (a + b)[..|a + b| - 1] == a + b[..|b| - 1];
    }
    hide Next;
  }

  lemma {:induction false} GivenUp(s: State, steps: seq<Step>, ttlCycle: int)
    requires 2 <= ttlCycle && Watched(s, ttlCycle) && AllSilent(steps)
    ensures Run(s, steps, ttlCycle).pid == if Ticks(steps) < AlarmAfter(s.check, ttlCycle) then s.pid else 0
    ensures Run(s, steps, ttlCycle).running
  {
    if Ticks(steps) < AlarmAfter(s.check, ttlCycle) {
      StaysSilent(s, steps, ttlCycle);
    } else {
      var n := |steps| - 1;
      GivenUp(s, steps[..n], ttlCycle);
      if Ticks(steps[..n]) < AlarmAfter(s.check, ttlCycle) {
        SilenceNoticed(s, steps[..n], ttlCycle);
      } else {
        NobodyComes(Run(s, steps[..n], ttlCycle), steps[n], ttlCycle);
      }
    }
    hide Next;
  }

  lemma NobodyComes(s: State, step: Step, ttlCycle: int)
    requires s.pid == 0 && s.running && IsSilent(step)
    ensures Next(s, step, ttlCycle).pid == 0 && Next(s, step, ttlCycle).running
  {
  }

  /** In any run from the start with the heartbeat on: an agent that gave a sign of life and then none for three
      cycles is still registered, and after four cycles it is not, whatever mode changes go on meanwhile. */
  lemma GivenUpInTime(before: seq<Step>, silent: seq<Step>, ttlCycle: int)
    requires 2 <= ttlCycle && before != [] && SignOf(before[|before| - 1]) != 0 && StillStarted(before) && AllSilent(silent)
    ensures Ticks(silent) <= 3 * ttlCycle ==> Run(START, before + silent, ttlCycle).pid == SignOf(before[|before| - 1])
    ensures Ticks(silent) >= 4 * ttlCycle ==> Run(START, before + silent, ttlCycle).pid == 0
  {
    SignRestartsClock(before, ttlCycle);
    RunOn(START, before, silent, ttlCycle);
    GivenUp(Run(START, before, ttlCycle), silent, ttlCycle);
    hide Run, Ticks, StillStarted;
  }

  // ---- Online with nobody there ----

  /** The mode once every queued change has been handled. */
  function LastMode(s: State): bool {
    if s.events == [] then s.isOnline else s.events[|s.events| - 1].online
  }

  /** All queued changes handled, nothing else happening. */
  function Drained(s: State, ttlCycle: int): State
    decreases |s.events|
  {
    if s.events == [] then s else Drained(Next(s, SwitchMode, ttlCycle), ttlCycle)
  }

  lemma {:induction false} DrainedMode(s: State, ttlCycle: int)
    ensures Drained(s, ttlCycle) == s.(isOnline := LastMode(s), events := [])
    decreases |s.events|
  {
    if s.events != [] {
      DrainedMode(Next(s, SwitchMode, ttlCycle), ttlCycle);
    }
  }

  /** Heading for online mode with neither an agent nor a heartbeat. */
  predicate Abandoned(s: State) {
    LastMode(s) && s.pid == 0 && !s.running
  }

  /** After an undisturbed unregistration, once the queued changes are handled, the supervisor is online iff it was
      offline with a change to online as the last one queued; agent and heartbeat are gone in any case. */
  lemma UnregisterExactly(s: State, ttlCycle: int)
    ensures var t := Drained(Next(Next(s, Unregister, ttlCycle), StopHeartbeat, ttlCycle), ttlCycle);
            && t.pid == 0 && !t.running && t.events == []
            && (t.isOnline <==> !s.isOnline && s.events != [] && s.events[|s.events| - 1].online)
  {
    DrainedMode(Next(Next(s, Unregister, ttlCycle), StopHeartbeat, ttlCycle), ttlCycle);
  }

  /** The actions that leave the supervisor abandoned, in the state they are taken in: clearing the agent or stopping
      the heartbeat while the mode heads for online and the other one is gone, asking for online with both gone, and
      a registration or TTL message without a process id, which registers nobody but still sets the mode. */
  predicate Abandons(s: State, step: Step) {
    match step
    case Register(pid) => pid == 0 && !s.running && (s.isOnline ==> LastMode(s))
    case Unregister => !s.running && !s.isOnline && LastMode(s)
    case StopHeartbeat => s.pid == 0 && LastMode(s)
    case Ttl(pid, online) => pid == 0 && s.pid == 0 && !s.running && if online != s.isOnline then online else LastMode(s)
    case AskMode(online) => online && s.pid == 0 && !s.running
    case _ => false
  }

  /** Everything but a tick and the handling of a queued change. */
  predicate Decides(step: Step) {
    !step.Tick? && !step.SwitchMode?
  }

  /** These actions decide, and ticks and mode switches change nothing about it. */
  lemma StepAbandons(s: State, step: Step, ttlCycle: int)
    ensures Abandoned(Next(s, step, ttlCycle)) <==> if Decides(step) then Abandons(s, step) else Abandoned(s)
  {
  }

  /** Over every run: the supervisor ends up online with neither agent nor heartbeat iff the last
      deciding action is one of those. */
  lemma {:induction false} AbandonedExactly(steps: seq<Step>, ttlCycle: int)
    ensures Abandoned(Run(START, steps, ttlCycle)) <==> LastDecisionAbandons(steps, ttlCycle)
  {
    if steps != [] {
      hide Abandoned, Abandons, Next;
      var n := |steps| - 1;
      AbandonedExactly(steps[..n], ttlCycle);
      StepAbandons(Run(START, steps[..n], ttlCycle), steps[n], ttlCycle);
      LastDecisionStep(steps, ttlCycle);
    } else {
      assert !Abandoned(START);
    }
  }

  ghost predicate LastDecisionAbandons(steps: seq<Step>, ttlCycle: int) {
    exists i :: 0 <= i < |steps| && Decides(steps[i]) && Abandons(Run(START, steps[..i], ttlCycle), steps[i])
                && forall j | i < j < |steps| :: !Decides(steps[j])
  }

  lemma LastDecisionStep(steps: seq<Step>, ttlCycle: int)
    requires steps != []
    ensures var n := |steps| - 1;
            LastDecisionAbandons(steps, ttlCycle) <==>
            if Decides(steps[n]) then Abandons(Run(START, steps[..n], ttlCycle), steps[n])
            else LastDecisionAbandons(steps[..n], ttlCycle)
  {
    hide Run, Abandons;
    var n := |steps| - 1;
    var earlier := steps[..n];
    assert forall i | 0 <= i <= n :: earlier[..i] == steps[..i];
    if Decides(steps[n]) {
      if LastDecisionAbandons(steps, ttlCycle) {
        var i :| 0 <= i < |steps| && Decides(steps[i]) && Abandons(Run(START, steps[..i], ttlCycle), steps[i])
                 && forall j | i < j < |steps| :: !Decides(steps[j]);
        assert i == n;
      }
    } else {
      if LastDecisionAbandons(earlier, ttlCycle) {
        var i :| 0 <= i < n && Decides(earlier[i]) && Abandons(Run(START, earlier[..i], ttlCycle), earlier[i])
                 && forall j | i < j < n :: !Decides(earlier[j]);
        assert forall j | i < j < |steps| :: j < n ==> steps[j] == earlier[j];
        assert Decides(steps[i]);
      }
      if LastDecisionAbandons(steps, ttlCycle) {
        var i :| 0 <= i < |steps| && Decides(steps[i]) && Abandons(Run(START, steps[..i], ttlCycle), steps[i])
                 && forall j | i < j < |steps| :: !Decides(steps[j]);
        assert i < n && Decides(earlier[i]);
      }
    }
  }

  /** A run from the start that ends so: the agent goes offline, asks for online again and unregisters, and the
      change to online is handled last. */
  lemma OnlineWithoutAgent(ttlCycle: int)
    ensures var t := Run(START, [Register(7), StartHeartbeat, SwitchMode, Ttl(7, false), SwitchMode, Ttl(7, true), Unregister,
                                 StopHeartbeat, SwitchMode], ttlCycle);
            t.isOnline && t.pid == 0 && !t.running && t.events == []
  {
    var steps := [Register(7), StartHeartbeat, SwitchMode, Ttl(7, false), SwitchMode, Ttl(7, true), Unregister, StopHeartbeat, SwitchMode];
    var s1 := RegisterStep(START, 7, ttlCycle);
    var s2 := s1.(running := true);
    var s3 := s2.(isOnline := true, events := []);
    var s4 := TtlStep(s3, 7, false, ttlCycle);
    var s5 := s4.(isOnline := false, events := []);
    var s6 := TtlStep(s5, 7, true, ttlCycle);
    var s7 := UnregisterStep(s6);
    var s8 := s7.(running := false);
    var t := s8.(isOnline := true, events := []);
    RunOf(steps, [START, s1, s2, s3, s4, s5, s6, s7, s8, t], ttlCycle);
  }

  /** The shortest such run: a message asks for online, and nobody ever registered. */
  lemma OnlineFromTheStart(ttlCycle: int)
    ensures var t := Run(START, [AskMode(true), SwitchMode], ttlCycle);
            t.isOnline && t.pid == 0 && !t.running && t.events == []
  {
    RunOf([AskMode(true), SwitchMode], [START, Queued(START, true), START.(isOnline := true)], ttlCycle);
  }
}
