/**
Bounded opening of artifacts in an external program (src/runtime/artifact_opener.rs): one request
runs, one waits, every other is refused at once, and each is answered exactly once.
*/
module ArtifactOpener {
  import opened Wrappers

  datatype Answer = Opened | Busy | Refused | NoView | ViewerFailed

  /** What the authority, the copy and the viewer say about one request. */
  datatype World = World(acceptedBefore: bool, copied: bool, acceptedAfter: bool, viewer: bool)

  /** The answer this world leads to. */
  function Outcome(world: World): Answer {
    if !world.acceptedBefore then Refused
    else if !world.copied then NoView
    else if !world.acceptedAfter then Refused
    else if world.viewer then Opened
    else ViewerFailed
  }

  /** Both validations and the copy went through. */
  predicate Reaches(world: World) {
    world.acceptedBefore && world.copied && world.acceptedAfter
  }

  /** `open`: validate, copy, validate again, and only then hand the copy to the viewer. */
  method Open(world: World) returns (answer: Answer, dispatched: bool, retained: bool)
    ensures dispatched == Reaches(world)
    ensures answer == Outcome(world)
    ensures retained <==> answer.Opened?
  {
    dispatched, retained := false, false;
    if !world.acceptedBefore {
      return Refused, dispatched, retained;
    }
    if !world.copied {
      return NoView, dispatched, retained;
    }
    if !world.acceptedAfter {
      return Refused, dispatched, retained;
    }
    dispatched := true;
    if world.viewer {
      retained := true;
      return Opened, dispatched, retained;
    }
    return ViewerFailed, dispatched, retained;
  }

  /** The worker's loop over the requests it receives until the channel is closed and empty. */
  method Serve(requests: seq<(nat, World)>) returns (answered: seq<(nat, Answer)>, shown: seq<nat>)
    ensures |answered| == |requests| && forall i :: 0 <= i < |requests| ==> answered[i] == (requests[i].0, Outcome(requests[i].1))
    ensures forall id :: id in shown <==> exists i :: 0 <= i < |requests| && requests[i].0 == id && Reaches(requests[i].1)
  {
    answered, shown := [], [];
    for i := 0 to |requests|
      invariant |answered| == i && forall k :: 0 <= k < i ==> answered[k] == (requests[k].0, Outcome(requests[k].1))
      invariant forall id :: id in shown <==> exists k :: 0 <= k < i && requests[k].0 == id && Reaches(requests[k].1)
    {
      var answer, dispatched, _ := Open(requests[i].1);
      answered := answered + [(requests[i].0, answer)];
      if dispatched {
        shown := shown + [requests[i].0];
      }
    }
  }

  /** How far the running request is; the viewer is reached through both validations only. */
  datatype Stage = Received | Validated | Viewed | Cleared | Dispatched

  datatype Running = Running(id: nat, stage: Stage)

  datatype System = System(
    queue: Option<nat>,
    running: Option<Running>,
    /** The sender is taken by `drop`; the worker ends when the channel is closed and empty. */
    open: bool,
    ended: bool,
    /** `drop` returned. */
    gone: bool,
    requested: multiset<nat>,
    answered: seq<(nat, Answer)>,
    /** Requests the viewer was called for, with how often each had been accepted by then. */
    accepted: map<nat, nat>,
    dispatched: seq<nat>)

  datatype Action =
    | Request(id: nat)
    | Receive
    | Validate(accepted: bool)
    | Copy(copied: bool)
    | Dispatch
    | Finish(shown: bool)
    | Drop
    | End
    | Return

  predicate At(system: System, stage: Stage) {
    system.running.Some? && system.running.value.stage == stage
  }

  predicate Enabled(system: System, action: Action) {
    match action
    // Ids are never used twice; nobody calls a dropped opener.
    case Request(id) => system.open && id !in system.requested
    case Receive => !system.ended && system.running.None? && system.queue.Some?
    case Validate(_) => At(system, Received) || At(system, Viewed)
    case Copy(_) => At(system, Validated)
    case Dispatch => At(system, Cleared)
    case Finish(_) => At(system, Dispatched)
    case Drop => system.open
    case End => !system.open && !system.ended && system.running.None? && system.queue.None?
    case Return => !system.open && system.ended
  }

  function Accepts(system: System, id: nat): nat {
    if id in system.accepted then system.accepted[id] else 0
  }

  function Answered(system: System, id: nat, answer: Answer): System {
    system.(running := None, answered := system.answered + [(id, answer)])
  }

  function Advanced(system: System, stage: Stage): System
    requires system.running.Some?
  {
    system.(running := Some(system.running.value.(stage := stage)))
  }

  function Step(system: System, action: Action): System
    requires Enabled(system, action)
  {
    match action
    case Request(id) =>
      var noted := system.(requested := system.requested + multiset{id});
      if system.queue.None? && !system.ended then noted.(queue := Some(id))
      else noted.(answered := noted.answered + [(id, Busy)])
    case Receive => system.(running := Some(Running(system.queue.value, Received)), queue := None)
    case Validate(accepted) =>
      var running := system.running.value;
      if !accepted then Answered(system, running.id, Refused)
      else
        Advanced(system, if running.stage.Received? then Validated else Cleared)
          .(accepted := system.accepted[running.id := Accepts(system, running.id) + 1])
    case Copy(copied) =>
      if copied then Advanced(system, Viewed) else Answered(system, system.running.value.id, NoView)
    case Dispatch => Advanced(system, Dispatched).(dispatched := system.dispatched + [system.running.value.id])
    case Finish(shown) => Answered(system, system.running.value.id, if shown then Opened else ViewerFailed)
    case Drop => system.(open := false)
    case End => system.(ended := true)
    case Return => system.(gone := true)
  }

  const START := System(None, None, true, false, false, multiset{}, [], map[], [])

  function Count(answered: seq<(nat, Answer)>, id: nat): nat {
    if answered == [] then 0
    else Count(answered[..|answered| - 1], id) + (if answered[|answered| - 1].0 == id then 1 else 0)
  }

  lemma CountSnoc(answered: seq<(nat, Answer)>, id: nat, other: nat, answer: Answer)
    ensures Count(answered + [(other, answer)], id) == Count(answered, id) + (if other == id then 1 else 0)
  {
    assert (answered + [(other, answer)])[..|answered|] == answered;
  }

  /** Every request is answered, waiting or running: exactly one of the three, exactly once. */
  ghost predicate Balanced(system: System, id: nat) {
    Count(system.answered, id)
    + (if system.queue == Some(id) then 1 else 0)
    + (if system.running.Some? && system.running.value.id == id then 1 else 0)
    == system.requested[id] <= 1
  }

  function Acceptances(stage: Stage): nat {
    match stage
    case Received => 0
    case Validated => 1
    case Viewed => 1
    case Cleared => 2
    case Dispatched => 2
  }

  /** How often each request has been accepted: by its stage, none while it waits, twice once dispatched. */
  ghost predicate AcceptsOk(system: System) {
    && (forall id :: id in system.accepted ==> id in system.requested)
    && (system.queue.Some? ==> Accepts(system, system.queue.value) == 0)
    && (system.running.Some? ==> Accepts(system, system.running.value.id) == Acceptances(system.running.value.stage))
    && (forall i :: 0 <= i < |system.dispatched| ==> Accepts(system, system.dispatched[i]) == 2)
  }

  /** The worker ends once the channel is closed and empty, and only then does `drop` return. */
  ghost predicate EndOk(system: System) {
    && (system.ended ==> !system.open && system.queue.None? && system.running.None?)
    && (system.gone ==> system.ended)
  }

  ghost predicate StageOk(system: System) {
    AcceptsOk(system) && EndOk(system)
  }

  ghost predicate Invariant(system: System) {
    StageOk(system) && forall id :: Balanced(system, id)
  }

  lemma StepKeepsBalance(system: System, action: Action, id: nat)
    requires Balanced(system, id) && Enabled(system, action)
    requires action.Request? ==> Balanced(system, action.id)
    ensures Balanced(Step(system, action), id)
  {
    hide Count;
    var next := Step(system, action);
    if |next.answered| > |system.answered| {
      var last := next.answered[|system.answered|];
      CountSnoc(system.answered, id, last.0, last.1);
    }
  }

  lemma StepKeepsEnd(system: System, action: Action)
    requires EndOk(system) && Enabled(system, action)
    ensures EndOk(Step(system, action))
  {
  }

  /** An acceptance changes the count of the running request, which neither waits nor was dispatched. */
  lemma ValidateKeepsAccepts(system: System, action: Action)
    requires action.Validate? && Enabled(system, action)
    requires AcceptsOk(system) && Balanced(system, system.running.value.id)
    ensures AcceptsOk(Step(system, action))
  {
    hide Count;
  }

  lemma RequestKeepsAccepts(system: System, action: Action)
    requires action.Request? && Enabled(system, action) && AcceptsOk(system)
    ensures AcceptsOk(Step(system, action))
  {
  }

  lemma ReceiveKeepsAccepts(system: System, action: Action)
    requires action.Receive? && Enabled(system, action) && AcceptsOk(system)
    ensures AcceptsOk(Step(system, action))
  {
  }

  lemma CopyKeepsAccepts(system: System, action: Action)
    requires action.Copy? && Enabled(system, action) && AcceptsOk(system)
    ensures AcceptsOk(Step(system, action))
  {
  }

  lemma DispatchKeepsAccepts(system: System, action: Action)
    requires action.Dispatch? && Enabled(system, action) && AcceptsOk(system)
    ensures AcceptsOk(Step(system, action))
  {
  }

  lemma FinishKeepsAccepts(system: System, action: Action)
    requires action.Finish? && Enabled(system, action) && AcceptsOk(system)
    ensures AcceptsOk(Step(system, action))
  {
  }

  lemma DropKeepsAccepts(system: System, action: Action)
    requires action.Drop? || action.End? || action.Return?
    requires Enabled(system, action) && AcceptsOk(system)
    ensures AcceptsOk(Step(system, action))
  {
  }

  lemma StepKeepsAccepts(system: System, action: Action)
    requires Enabled(system, action) && AcceptsOk(system)
    requires action.Validate? ==> Balanced(system, system.running.value.id)
    ensures AcceptsOk(Step(system, action))
  {
    hide Step, AcceptsOk, Enabled, Balanced;
    match action
    case Request(_) => RequestKeepsAccepts(system, action);
    case Receive => ReceiveKeepsAccepts(system, action);
    case Validate(_) => ValidateKeepsAccepts(system, action);
    case Copy(_) => CopyKeepsAccepts(system, action);
    case Dispatch => DispatchKeepsAccepts(system, action);
    case Finish(_) => FinishKeepsAccepts(system, action);
    case _ => DropKeepsAccepts(system, action);
  }

  lemma StepKeepsStages(system: System, action: Action)
    requires Invariant(system) && Enabled(system, action)
    ensures StageOk(Step(system, action))
  {
    hide Count, AcceptsOk, EndOk, Step, Balanced;
    StepKeepsEnd(system, action);
    if action.Validate? {
      assert Balanced(system, system.running.value.id);
    }
    StepKeepsAccepts(system, action);
  }

  ghost predicate IsRun(systems: seq<System>, actions: seq<Action>) {
    && |systems| == |actions| + 1 && systems[0] == START
    && forall i :: 0 <= i < |actions| ==> Enabled(systems[i], actions[i]) && systems[i + 1] == Step(systems[i], actions[i])
  }

  lemma {:induction false} EveryRunKeeps(systems: seq<System>, actions: seq<Action>, n: nat)
    requires IsRun(systems, actions) && n < |systems|
    ensures Invariant(systems[n])
  {
    hide Step, StageOk, Enabled;
    if n == 0 {
      StartOk();
    } else {
      EveryRunKeeps(systems, actions, n - 1);
      var before, action := systems[n - 1], actions[n - 1];
      StepKeepsStages(before, action);
      forall id
        ensures Balanced(systems[n], id)
      {
        assert Balanced(before, id);
        if action.Request? {
          assert Balanced(before, action.id);
        }
        StepKeepsBalance(before, action, id);
      }
    }
  }

  lemma StartOk()
    ensures Invariant(START)
  {
    assert forall id :: Balanced(START, id);
  }

  /**
  In every run: a request is answered at most once; the viewer is called only for a request that
  was accepted twice; and when `drop` returned, every request has its one answer.
  */
  lemma OneAnswerEach(systems: seq<System>, actions: seq<Action>, n: nat, id: nat)
    requires IsRun(systems, actions) && n < |systems|
    ensures Count(systems[n].answered, id) <= 1
    ensures id !in systems[n].requested ==> Count(systems[n].answered, id) == 0
    ensures systems[n].gone && id in systems[n].requested ==> Count(systems[n].answered, id) == 1
    ensures id in systems[n].dispatched ==> Accepts(systems[n], id) == 2
  {
    EveryRunKeeps(systems, actions, n);
    assert Balanced(systems[n], id);
  }

  // ---------------------------------------------------------------- one request, from start to answer

  /** At this stage of the running request, the action answers as the world does. */
  ghost predicate Obeys(system: System, action: Action, world: World) {
    match action
    case Validate(accepted) =>
      if At(system, Received) then accepted == world.acceptedBefore else accepted == world.acceptedAfter
    case Copy(copied) => copied == world.copied
    case Finish(shown) => shown == world.viewer
    case _ => true
  }

  /** What the world must have said for the request to be this far. */
  predicate Fits(stage: Stage, world: World) {
    match stage
    case Received => true
    case Validated => world.acceptedBefore
    case Viewed => world.acceptedBefore && world.copied
    case Cleared => Reaches(world)
    case Dispatched => Reaches(world)
  }

  /** The request is under way: received, not answered, and dispatched only if it is that far. */
  ghost predicate UnderWay(system: System, id: nat, world: World) {
    && system.running.Some? && system.running.value.id == id && Fits(system.running.value.stage, world)
    && (id in system.dispatched <==> system.running.value.stage.Dispatched?)
  }

  /** The request was just answered as the world has it. */
  ghost predicate AnsweredAs(before: System, after: System, id: nat, world: World) {
    && after.running.None? && after.answered == before.answered + [(id, Outcome(world))]
    && (id in after.dispatched <==> Reaches(world))
  }

  lemma ReceiveStarts(system: System, world: World)
    requires Invariant(system) && Enabled(system, Receive)
    ensures UnderWay(Step(system, Receive), system.queue.value, world)
  {
    hide Balanced, Count;
    assert forall k :: 0 <= k < |system.dispatched| ==> Accepts(system, system.dispatched[k]) == 2;
  }

  lemma OneStep(system: System, action: Action, id: nat, world: World)
    requires UnderWay(system, id, world) && Enabled(system, action) && Obeys(system, action, world)
    ensures var next := Step(system, action);
            if next.running.Some? then UnderWay(next, id, world) else AnsweredAs(system, next, id, world)
  {
  }

  /** A run of which the worker's oracles answer as one world from step `i` on. */
  ghost predicate ObeysFrom(systems: seq<System>, actions: seq<Action>, i: nat, n: nat, world: World)
    requires |systems| == |actions| + 1 && n <= |actions|
  {
    forall k :: i < k < n ==> Obeys(systems[k], actions[k], world)
  }

  lemma {:induction false} StaysUnderWay(systems: seq<System>, actions: seq<Action>, i: nat, n: nat, world: World)
    requires IsRun(systems, actions) && i < n < |systems| && actions[i].Receive?
    requires ObeysFrom(systems, actions, i, n, world)
    requires forall k :: i < k <= n ==> systems[k].running.Some?
    ensures systems[i].queue.Some? && UnderWay(systems[n], systems[i].queue.value, world)
  {
    hide Step, UnderWay, Obeys, Invariant;
    if n == i + 1 {
      EveryRunKeeps(systems, actions, i);
      ReceiveStarts(systems[i], world);
    } else {
      StaysUnderWay(systems, actions, i, n - 1, world);
      assert systems[n].running.Some?;
      OneStep(systems[n - 1], actions[n - 1], systems[i].queue.value, world);
    }
  }

  /**
  In every run, whatever requests, drops and returns fall in between: from the step that receives
  a request to the one that answers it, a world leads to the answer `Open` gives for it, and to
  the viewer exactly when `Open` calls it.
  */
  lemma RunsAnswerAsOpen(systems: seq<System>, actions: seq<Action>, i: nat, n: nat, world: World)
    requires IsRun(systems, actions) && i < n < |actions| && actions[i].Receive?
    requires ObeysFrom(systems, actions, i, n + 1, world)
    requires forall k :: i < k <= n ==> systems[k].running.Some?
    requires systems[n + 1].running.None?
    ensures systems[i].queue.Some? && AnsweredAs(systems[n], systems[n + 1], systems[i].queue.value, world)
  {
    hide Step, UnderWay, Obeys, AnsweredAs;
    StaysUnderWay(systems, actions, i, n, world);
    assert Obeys(systems[n], actions[n], world);
    OneStep(systems[n], actions[n], systems[i].queue.value, world);
  }

  // ---------------------------------------------------------------- admission

  /** The worker's answers are never that of a refused admission. */
  lemma {:induction false} BusyComesFromRequest(systems: seq<System>, actions: seq<Action>, i: nat, n: nat)
    requires IsRun(systems, actions) && i < n < |systems| && actions[i].Request?
    ensures (actions[i].id, Busy) in systems[n].answered <==> systems[i].queue.Some?
    ensures actions[i].id in systems[n].requested
  {
    hide Invariant, Count;
    var id := actions[i].id;
    if n == i + 1 {
      EveryRunKeeps(systems, actions, i);
      NotYetAnswered(systems[i], id);
      OpenHasNotEnded(systems[i]);
    } else {
      BusyComesFromRequest(systems, actions, i, n - 1);
      LaterAnswers(systems[n - 1], actions[n - 1], id);
    }
  }

  lemma NotYetAnswered(system: System, id: nat)
    requires Invariant(system) && id !in system.requested
    ensures (id, Busy) !in system.answered
  {
    assert Balanced(system, id);
    Uncounted(system.answered, id, Busy);
  }

  lemma {:induction false} Uncounted(answered: seq<(nat, Answer)>, id: nat, answer: Answer)
    requires Count(answered, id) == 0
    ensures (id, answer) !in answered
  {
    if answered != [] {
      Uncounted(answered[..|answered| - 1], id, answer);
      assert answered == answered[..|answered| - 1] + [answered[|answered| - 1]];
    }
  }

  lemma OpenHasNotEnded(system: System)
    requires Invariant(system) && system.open
    ensures !system.ended
  {
  }

  lemma LaterAnswers(system: System, action: Action, id: nat)
    requires Enabled(system, action) && id in system.requested
    ensures (id, Busy) in Step(system, action).answered <==> (id, Busy) in system.answered
    ensures id in Step(system, action).requested
  {
  }

  /**
  Admission is exact: in every run a request is answered as busy if and only if one was waiting
  when it came; otherwise it waits itself, for its own validations.
  */
  lemma BusyIffOneWaits(systems: seq<System>, actions: seq<Action>, i: nat, n: nat)
    requires IsRun(systems, actions) && i < n < |systems| && actions[i].Request?
    ensures (actions[i].id, Busy) in systems[n].answered <==> systems[i].queue.Some?
    ensures systems[i].queue.None? ==> systems[i + 1].queue == Some(actions[i].id) && systems[i + 1].answered == systems[i].answered
    ensures systems[i].queue.Some? ==> systems[i + 1].queue == systems[i].queue
  {
    hide Invariant;
    BusyComesFromRequest(systems, actions, i, n);
    EveryRunKeeps(systems, actions, i);
    OpenHasNotEnded(systems[i]);
  }
}
