/** core/pkg/schd/schd.go: two channels of capacity one, non-blocking sends, and loops that select on
    them. A run is any interleaving of calls and loop steps. */
module Scheduler {

  /** A loop is at its select, has received a tick and not yet called Manual, runs the task, or has
      returned. */
  datatype Loop = Selecting | Ticked | Running | Exited

  /** manual and cancel: a token is in the channel. The counters record what happened so far: loops
      started, Stop calls whose token was accepted, Manual calls whose token was accepted, task runs. */
  datatype State = State(manual: bool, cancel: bool, loops: seq<Loop>,
                         starts: nat, stops: nat, triggers: nat, runs: nat)

  datatype Event =
    | Manual | Stop | Start
    | Tick(l: nat) | TickManual(l: nat) | Take(l: nat) | TaskEnd(l: nat) | Cancel(l: nat)

  /** NewScheduler starts one loop. */
  function Init(): State {
    State(false, false, [Selecting], 1, 0, 0, 0)
  }

  predicate IsAt(s: State, l: nat, p: Loop) {
    l < |s.loops| && s.loops[l] == p
  }

  function Move(s: State, l: nat, p: Loop): State
    requires l < |s.loops|
  {
    s.(loops := s.loops[l := p])
  }

  function SendManual(s: State): State {
    if s.manual then s else s.(manual := true, triggers := s.triggers + 1)
  }

  function Apply(s: State, e: Event): State {
    match e
    case Manual => SendManual(s)
    case Stop => if s.cancel then s else s.(cancel := true, stops := s.stops + 1)
    case Start => s.(loops := s.loops + [Selecting], starts := s.starts + 1)
    case Tick(l) => if IsAt(s, l, Selecting) then Move(s, l, Ticked) else s
    case TickManual(l) => if IsAt(s, l, Ticked) then SendManual(Move(s, l, Selecting)) else s
    case Take(l) => if IsAt(s, l, Selecting) && s.manual then Move(s, l, Running).(manual := false, runs := s.runs + 1) else s
    case TaskEnd(l) => if IsAt(s, l, Running) then Move(s, l, Selecting) else s
    case Cancel(l) => if IsAt(s, l, Selecting) && s.cancel then Move(s, l, Exited).(cancel := false) else s
  }

  function Run(s: State, events: seq<Event>): State
    decreases |events|
  {
    if events == [] then s else Run(Apply(s, events[0]), events[1..])
  }

  function Bit(b: bool): nat {
    if b then 1 else 0
  }

  /** Loops that have not returned. */
  function Live(loops: seq<Loop>): nat {
    if loops == [] then 0 else Bit(loops[0] != Exited) + Live(loops[1..])
  }

  function Executing(loops: seq<Loop>): nat {
    if loops == [] then 0 else Bit(loops[0] == Running) + Executing(loops[1..])
  }

  lemma {:induction false} LiveUpdate(loops: seq<Loop>, l: nat, p: Loop)
    requires l < |loops|
    ensures Live(loops[l := p]) == Live(loops) - Bit(loops[l] != Exited) + Bit(p != Exited)
    decreases l
  {
    if l != 0 {
      LiveUpdate(loops[1..], l - 1, p);
      assert loops[l := p][1..] == loops[1..][l - 1 := p];
    } else {
      assert loops[l := p][1..] == loops[1..];
    }
  }

  lemma {:induction false} LiveAppend(loops: seq<Loop>)
    ensures Live(loops + [Selecting]) == Live(loops) + 1
    decreases |loops|
  {
    if loops == [] {
      assert loops + [Selecting] == [Selecting] && [Selecting][1..] == [];
    } else {
      LiveAppend(loops[1..]);
      assert (loops + [Selecting])[1..] == loops[1..] + [Selecting];
    }
  }

  lemma {:induction false} ExecutingIsLive(loops: seq<Loop>)
    ensures Executing(loops) <= Live(loops)
    decreases |loops|
  {
    if loops != [] { ExecutingIsLive(loops[1..]); }
  }

  /** Loops that will be left once the pending cancel token has been taken. */
  function Balance(s: State): int {
    Live(s.loops) - Bit(s.cancel)
  }

  ghost predicate Accounted(s: State) {
    && Balance(s) == s.starts - s.stops
    && s.triggers == s.runs + Bit(s.manual)
    && Bit(s.cancel) <= s.stops
  }

  lemma StepAccounts(s: State, e: Event)
    requires Accounted(s)
    ensures Accounted(Apply(s, e))
    ensures s.runs <= Apply(s, e).runs
    ensures s.manual ==> Apply(s, e).manual || Apply(s, e).runs > s.runs
  {
    match e {
      case Manual =>
      case Stop =>
      case Start => LiveAppend(s.loops);
      case Tick(l) => if l < |s.loops| { LiveUpdate(s.loops, l, Ticked); }
      case TickManual(l) => if l < |s.loops| { LiveUpdate(s.loops, l, Selecting); }
      case Take(l) => if l < |s.loops| { LiveUpdate(s.loops, l, Running); }
      case TaskEnd(l) => if l < |s.loops| { LiveUpdate(s.loops, l, Selecting); }
      case Cancel(l) => if l < |s.loops| { LiveUpdate(s.loops, l, Exited); }
    }
  }

  lemma {:induction false} RunAccounts(s: State, events: seq<Event>)
    requires Accounted(s)
    ensures var s' := Run(s, events);
      Accounted(s') && s.runs <= s'.runs && (s.manual ==> s'.manual || s'.runs > s.runs)
    decreases |events|
  {
    if events != [] {
      StepAccounts(s, events[0]);
      RunAccounts(Apply(s, events[0]), events[1..]);
    }
  }

  lemma StartAccounted()
    ensures Accounted(Init())
  {
    assert [Selecting][1..] == [];
    assert Live([Selecting]) == 1;
  }

  lemma AccountedMeans(s: State)
    requires Accounted(s)
    ensures Live(s.loops) - Bit(s.cancel) == s.starts - s.stops
    ensures s.triggers == s.runs + Bit(s.manual) && Bit(s.cancel) <= s.stops
  {
  }

  /** In every reachable state: live loops less the pending cancel token are loop starts less accepted
      stops, and accepted triggers are task runs plus the pending trigger. */
  lemma EveryStateAccounted(events: seq<Event>)
    ensures var s := Run(Init(), events);
      && Live(s.loops) - Bit(s.cancel) == s.starts - s.stops
      && s.triggers == s.runs + Bit(s.manual)
      && Bit(s.cancel) <= s.stops
  {
    hide *;
    StartAccounted();
    RunAccounts(Init(), events);
    AccountedMeans(Run(Init(), events));
  }

  /** No trigger is lost: whatever happened before a Manual call, accepted or dropped, and whatever
      happens after it, a trigger is pending or a task has been started since the call. */
  lemma NoTriggerLost(before: seq<Event>, after: seq<Event>)
    ensures var called := Apply(Run(Init(), before), Manual); var s := Run(called, after);
      called.manual && (s.manual || s.runs > called.runs)
  {
    hide Run, Accounted;
    StartAccounted();
    RunAccounts(Init(), before);
    var called := Apply(Run(Init(), before), Manual);
    StepAccounts(Run(Init(), before), Manual);
    RunAccounts(called, after);
  }

  /** While loop l holds a tick it does nothing else; once it is back a trigger is pending or a task was
      started since. */
  ghost predicate Answered(s: State, l: nat, runs: nat) {
    l < |s.loops| && (s.loops[l] == Ticked || s.manual || s.runs > runs)
  }

  lemma TickTaken(s: State, l: nat)
    requires IsAt(s, l, Selecting)
    ensures Answered(Apply(s, Tick(l)), l, s.runs)
  {
  }

  lemma {:induction false} TickAnswered(s: State, l: nat, runs: nat, events: seq<Event>)
    requires Answered(s, l, runs) && s.runs >= runs
    ensures Answered(Run(s, events), l, runs) && Run(s, events).runs >= runs
    decreases |events|
  {
    if events != [] {
      TickAnswered(Apply(s, events[0]), l, runs, events[1..]);
    }
  }

  /** No tick is lost either: once loop l has received a tick and gone back to its select, a trigger is
      pending or a task has been started since the tick, whatever happens between and afterwards. */
  lemma NoTickLost(before: seq<Event>, l: nat, between: seq<Event>, after: seq<Event>)
    requires IsAt(Run(Init(), before), l, Selecting)
    requires IsAt(Run(Apply(Run(Init(), before), Tick(l)), between), l, Selecting)
    ensures var ticked := Run(Init(), before);
      var back := Run(Apply(ticked, Tick(l)), between);
      var s := Run(back, after);
      (back.manual || back.runs > ticked.runs) && (s.manual || s.runs > ticked.runs)
  {
    hide Run, Apply, Accounted;
    var ticked := Run(Init(), before);
    StartAccounted();
    RunAccounts(Init(), before);
    StepAccounts(ticked, Tick(l));
    TickTaken(ticked, l);
    TickAnswered(Apply(ticked, Tick(l)), l, ticked.runs, between);
    RunAccounts(Apply(ticked, Tick(l)), between);
    RunAccounts(Run(Apply(ticked, Tick(l)), between), after);
  }

  /** Restart is Stop then Start. It keeps the balance if no cancel token is pending and adds a loop
      if one is. */
  lemma RestartBalance(s: State)
    ensures Balance(Apply(Apply(s, Stop), Start)) == Balance(s) + Bit(s.cancel)
    ensures Apply(Apply(s, Stop), Start).cancel
  {
    LiveAppend(s.loops);
  }

  lemma {:induction false} SomeLoopLives(loops: seq<Loop>) returns (l: nat)
    requires Live(loops) > 0
    ensures l < |loops| && loops[l] != Exited
    decreases |loops|
  {
    l := 0;
    if loops[0] == Exited {
      var rest := SomeLoopLives(loops[1..]);
      l := rest + 1;
    }
  }

  lemma {:induction false} NoLoopNoRun(s: State, events: seq<Event>)
    requires Live(s.loops) == 0 && StartsIn(events) == 0
    ensures Run(s, events).runs == s.runs
    decreases |events|
  {
    if events != [] {
      var e := events[0];
      forall l: nat | l < |s.loops| ensures s.loops[l] == Exited {
        LiveUpdate(s.loops, l, Exited);
      }
      assert Apply(s, e).loops == s.loops && Apply(s, e).runs == s.runs;
      NoLoopNoRun(Apply(s, e), events[1..]);
    }
  }

  /** What loop l still has to do to serve the pending trigger. */
  function Serving(s: State, l: nat): seq<Event>
    requires l < |s.loops|
  {
    match s.loops[l]
    case Selecting => [Take(l)]
    case Ticked => [TickManual(l), Take(l)]
    case Running => [TaskEnd(l), Take(l)]
    case Exited => []
  }

  lemma ServingServes(s: State, l: nat)
    requires s.manual && l < |s.loops| && s.loops[l] != Exited
    ensures Run(s, Serving(s, l)).runs == s.runs + 1 && StartsIn(Serving(s, l)) == 0
  {
    var events := Serving(s, l);
    var tail: seq<Event> := [Take(l)];
    assert tail[1..] == [] && StartsIn(tail) == 0;
    if s.loops[l] == Selecting {
      assert Run(s, events) == Run(Apply(s, Take(l)), events[1..]);
    } else {
      assert events[1..] == tail;
      var s1 := Apply(s, events[0]);
      assert Run(s1, tail) == Run(Apply(s1, Take(l)), tail[1..]);
    }
  }

  /** A pending trigger can still lead to a task run without a Restart if and only if some loop has not
      returned: live loops never block each other out. */
  lemma ServedIffSomeLoopLives(s: State)
    requires s.manual
    ensures Live(s.loops) > 0 <==> exists events :: StartsIn(events) == 0 && Run(s, events).runs > s.runs
  {
    if Live(s.loops) > 0 {
      var l := SomeLoopLives(s.loops);
      ServingServes(s, l);
    } else {
      forall events | StartsIn(events) == 0 ensures Run(s, events).runs == s.runs {
        NoLoopNoRun(s, events);
      }
    }
  }

  /** What the loops do by themselves: no call of Manual, Stop or Restart. */
  predicate OwnSteps(events: seq<Event>) {
    forall e :: e in events ==> !e.Manual? && !e.Stop? && !e.Start?
  }

  /** What loop l does from wherever it is until a tick made it run the task. */
  function UntilNextRun(s: State, l: nat): seq<Event>
    requires l < |s.loops|
  {
    match s.loops[l]
    case Selecting => [Tick(l), TickManual(l), Take(l)]
    case Ticked => [TickManual(l), Take(l)]
    case Running => [TaskEnd(l), Tick(l), TickManual(l), Take(l)]
    case Exited => []
  }

  lemma RunTwo(s: State, e0: Event, e1: Event)
    ensures Run(s, [e0, e1]) == Apply(Apply(s, e0), e1)
  {
    assert [e0, e1][1..] == [e1];
    assert [e1][1..] == [];
    assert Run(Apply(s, e0), [e1]) == Run(Apply(Apply(s, e0), e1), []);
  }

  lemma RunThree(s: State, e0: Event, e1: Event, e2: Event)
    ensures Run(s, [e0, e1, e2]) == Apply(Apply(Apply(s, e0), e1), e2)
  {
    assert [e0, e1, e2][1..] == [e1, e2];
    RunTwo(Apply(s, e0), e1, e2);
  }

  lemma NextRunHappens(s: State, l: nat)
    requires l < |s.loops| && s.loops[l] != Exited
    ensures OwnSteps(UntilNextRun(s, l)) && Run(s, UntilNextRun(s, l)).runs == s.runs + 1
  {
    match s.loops[l] {
      case Selecting => RunThree(s, Tick(l), TickManual(l), Take(l));
      case Ticked => RunTwo(s, TickManual(l), Take(l));
      case Running =>
        assert [TaskEnd(l), Tick(l), TickManual(l), Take(l)][1..] == [Tick(l), TickManual(l), Take(l)];
        RunThree(Apply(s, TaskEnd(l)), Tick(l), TickManual(l), Take(l));
      case _ =>
    }
  }

  lemma {:induction false} OwnStepsStartNothing(events: seq<Event>)
    requires OwnSteps(events)
    ensures StartsIn(events) == 0
    decreases |events|
  {
    if events != [] {
      assert events[0] in events;
      OwnStepsStartNothing(events[1..]);
    }
  }

  /** The task goes on running on its own, from ticks alone, exactly as long as some loop has not
      returned: in every state, also with a cancel pending. */
  lemma TicksRunTheTask(s: State)
    ensures Live(s.loops) > 0 <==> exists events :: OwnSteps(events) && Run(s, events).runs > s.runs
  {
    if Live(s.loops) > 0 {
      var l := SomeLoopLives(s.loops);
      NextRunHappens(s, l);
    } else {
      forall events | OwnSteps(events) ensures Run(s, events).runs == s.runs {
        OwnStepsStartNothing(events);
        NoLoopNoRun(s, events);
      }
    }
  }

  /** What loop l does until it takes the cancel token; a running task is waited for. */
  function UntilExit(s: State, l: nat): seq<Event>
    requires l < |s.loops|
  {
    match s.loops[l]
    case Selecting => [Cancel(l)]
    case Ticked => [TickManual(l), Cancel(l)]
    case Running => [TaskEnd(l), Cancel(l)]
    case Exited => []
  }

  predicate OneLoopLess(s: State, s': State) {
    Live(s'.loops) == Live(s.loops) - 1 && !s'.cancel && s'.runs == s.runs
  }

  /** A stop ends one loop: with its token pending and a loop left, the loops reach by themselves a state
      with one loop less and no cancel pending. */
  lemma StopEndsOneLoop(s: State)
    requires s.cancel && Live(s.loops) > 0
    ensures exists events :: OwnSteps(events) && OneLoopLess(s, Run(s, events))
  {
    var l := SomeLoopLives(s.loops);
    var events := UntilExit(s, l);
    LiveUpdate(s.loops, l, Exited);
    if s.loops[l] == Selecting {
      assert Run(Apply(s, Cancel(l)), events[1..]) == Apply(s, Cancel(l));
    } else {
      RunTwo(s, events[0], Cancel(l));
      assert s.loops[l := Selecting][l := Exited] == s.loops[l := Exited];
    }
    assert OwnSteps(events) && OneLoopLess(s, Run(s, events));
  }

  function StartsIn(events: seq<Event>): nat {
    if events == [] then 0 else Bit(events[0].Start?) + StartsIn(events[1..])
  }

  lemma {:induction false} StartsCounted(s: State, events: seq<Event>)
    ensures Run(s, events).starts == s.starts + StartsIn(events)
    decreases |events|
  {
    if events != [] {
      StartsCounted(Apply(s, events[0]), events[1..]);
    }
  }

  /** Tasks running at once never exceed one, plus the restarts, less the accepted stops, plus the
      pending cancel; so without Restart there is at most one. */
  lemma ConcurrentTasks(events: seq<Event>)
    ensures var s := Run(Init(), events);
      && Executing(s.loops) <= 1 + StartsIn(events) - s.stops + Bit(s.cancel)
      && (StartsIn(events) == 0 ==> Executing(s.loops) <= 1)
  {
    var s := Run(Init(), events);
    EveryStateAccounted(events);
    StartsCounted(Init(), events);
    ExecutingIsLive(s.loops);
  }

  // ---- the object ----

  class SchedulerObject {
    var manualChan: bool
    var cancelChan: bool
    var loops: seq<Loop>
    ghost var starts: nat
    ghost var stops: nat
    ghost var triggers: nat
    ghost var runs: nat

    ghost function Abstract(): State
      reads this
    {
      State(manualChan, cancelChan, loops, starts, stops, triggers, runs)
    }

    constructor ()
      ensures Abstract() == Init()
    {
      manualChan, cancelChan, loops := false, false, [Selecting];
      starts, stops, triggers, runs := 1, 0, 0, 0;
    }

    method Manual()
      modifies this
      ensures Abstract() == Apply(old(Abstract()), Event.Manual)
      ensures manualChan && runs == old(runs) && loops == old(loops) && cancelChan == old(cancelChan)
    {
      if !manualChan {
        manualChan := true;
        triggers := triggers + 1;
      }
    }

    method Stop()
      modifies this
      ensures Abstract() == Apply(old(Abstract()), Event.Stop)
      ensures cancelChan && runs == old(runs) && loops == old(loops) && manualChan == old(manualChan)
    {
      if !cancelChan {
        cancelChan := true;
        stops := stops + 1;
      }
    }

    method Start()
      modifies this
      ensures Abstract() == Apply(old(Abstract()), Event.Start)
      ensures loops == old(loops) + [Selecting] && manualChan == old(manualChan) && cancelChan == old(cancelChan)
    {
      loops := loops + [Selecting];
      starts := starts + 1;
    }

    method Restart()
      modifies this
      ensures Abstract() == Apply(Apply(old(Abstract()), Event.Stop), Event.Start)
      ensures Balance(Abstract()) == Balance(old(Abstract())) + Bit(old(cancelChan))
    {
      RestartBalance(Abstract());
      Stop();
      Start();
    }

    /** One turn of loop l's select, with the ready case given; a task runs to its end within the turn. */
    method Turn(l: nat, ready: Event)
      requires IsAt(Abstract(), l, Selecting) && ready in [Tick(l), Take(l), Cancel(l)]
      modifies this
      ensures Abstract() == (match ready
        case Tick(_) => Apply(Apply(old(Abstract()), Tick(l)), TickManual(l))
        case Take(_) => (if old(manualChan) then Apply(Apply(old(Abstract()), Take(l)), TaskEnd(l)) else old(Abstract()))
        case _ => Apply(old(Abstract()), Cancel(l)))
      ensures ready.Tick? ==> manualChan && loops == old(loops) && cancelChan == old(cancelChan) && runs == old(runs)
      ensures ready.Take? ==> !manualChan && loops == old(loops) && cancelChan == old(cancelChan)
      ensures ready.Take? ==> runs == old(runs) + Bit(old(manualChan))
      ensures ready.Cancel? ==> !cancelChan && manualChan == old(manualChan) && runs == old(runs)
      ensures ready.Cancel? ==> loops == if old(cancelChan) then old(loops)[l := Exited] else old(loops)
    {
      match ready {
        case Tick(_) =>
          assert loops[l := Ticked][l := Selecting] == loops;
          Manual();
        case Take(_) =>
          if manualChan {
            manualChan := false;
            runs := runs + 1;
            loops := loops[l := Running];
            loops := loops[l := Selecting];
          }
        case Cancel(_) =>
          if cancelChan {
            cancelChan := false;
            loops := loops[l := Exited];
          }
      }
    }
  }
}
