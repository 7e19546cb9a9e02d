/**
The coalescing preview lane of src/runtime/preview_pump.rs: one pending request, one completion,
and a wrapping generation that fences out whatever a newer request or a cancellation overtook.

The class `PreviewState` is the shared state, one method per critical section. A run interleaves
the render thread's sections with the worker's, the authority's answers and fetches in between.
What a job asks for and what a fetch brings are opaque numbers.
*/
module PreviewPump {
  import opened Wrappers

  /** 2^64: generations wrap. */
  const WRAP: nat := 0x1_0000_0000_0000_0000

  /** What was asked: target, request id, path, filter and root together. */
  type Ask = nat

  datatype Outcome = Ok(payload: nat) | Err(error: nat)

  datatype Job = Job(generation: nat, ask: Ask)

  datatype Completion = Completion(ask: Ask, result: Outcome)

  /** The state behind the lock. */
  datatype Preview = Preview(generation: nat, pending: Option<Job>, completed: Option<Completion>, stopped: bool) {

    function Requested(ask: Ask): Preview {
      var next := (generation + 1) % WRAP;
      Preview(next, Some(Job(next, ask)), None, stopped)
    }

    function Cancelled(): Preview {
      Preview((generation + 1) % WRAP, None, None, stopped)
    }

    function Published(job: Job, result: Outcome): Preview {
      if generation == job.generation && !stopped then this.(completed := Some(Completion(job.ask, result))) else this
    }
  }

  const FRESH := Preview(0, None, None, false)

  class PreviewState {
    var generation: nat
    var pending: Option<Job>
    var completed: Option<Completion>
    var stopped: bool

    constructor ()
      ensures View() == FRESH
    {
      generation, pending, completed, stopped := 0, None, None, false;
    }

    ghost function View(): Preview
      reads this
    {
      Preview(generation, pending, completed, stopped)
    }

    method Request(ask: Ask)
      modifies this
      ensures View() == old(View()).Requested(ask)
    {
      generation := (generation + 1) % WRAP;
      pending := Some(Job(generation, ask));
      completed := None;
    }

    method Cancel()
      modifies this
      ensures View() == old(View()).Cancelled()
    {
      generation := (generation + 1) % WRAP;
      pending, completed := None, None;
    }

    method Take() returns (completion: Option<Completion>)
      modifies this
      ensures completion == old(completed) && View() == old(View()).(completed := None)
    {
      completion, completed := completed, None;
    }

    /** The worker's first section, entered once there is something to do; none means it ends. */
    method NextJob() returns (job: Option<Job>)
      requires pending.Some? || stopped
      modifies this
      ensures if old(stopped) then job.None? && View() == old(View())
              else job == old(pending) && View() == old(View()).(pending := None)
    {
      if stopped {
        return None;
      }
      job, pending := pending, None;
    }

    /** The worker's second section. */
    method Publish(job: Job, result: Outcome)
      modifies this
      ensures View() == old(View()).Published(job, result)
    {
      if generation == job.generation && !stopped {
        completed := Some(Completion(job.ask, result));
      }
    }

    /** The section of `drop`. */
    method Stop()
      modifies this
      ensures View() == old(View()).(stopped := true, pending := None, completed := None)
    {
      stopped, pending, completed := true, None, None;
    }
  }

  // ---------------------------------------------------------------- runs

  /** Where the worker is with its job. */
  datatype Worker =
    | Waiting
    | Checking(job: Job)
    | Fetching(job: Job)
    | Rechecking(job: Job, payload: nat)
    | Publishing(job: Job, result: Outcome)
    | Gone

  /** What the authority and the fetch answered, under the count of the job they were asked for. */
  datatype Answer =
    | Validated(serial: nat, accepted: bool)
    | Fetched(serial: nat, outcome: Outcome)

  /** A completion that was put up. */
  datatype Notice = Notice(serial: nat, completion: Completion)

  /**
  `serial` counts requests and cancellations without wrapping; `working` is the count of the job
  the worker took last; `newest` is the latest request unless it was cancelled; `answers` records
  every answer the worker was given, in order.
  */
  datatype System = System(
    state: Preview,
    worker: Worker,
    serial: nat,
    working: nat,
    newest: Option<Ask>,
    notices: seq<Notice>,
    answers: seq<Answer>,
    taken: seq<Completion>)

  datatype Action =
    | Request(ask: Ask)
    | Cancel
    | Take
    | Stop
    | Wake
    | Validate(accepted: bool, error: nat)
    | Fetch(outcome: Outcome)
    | Publish

  predicate Enabled(system: System, action: Action) {
    match action
    // The pump is gone for its callers once it was dropped.
    case Request(_) => !system.state.stopped
    case Cancel => !system.state.stopped
    case Take => !system.state.stopped
    case Stop => !system.state.stopped
    case Wake => system.worker.Waiting? && (system.state.pending.Some? || system.state.stopped)
    case Validate(_, _) => system.worker.Checking? || system.worker.Rechecking?
    case Fetch(_) => system.worker.Fetching?
    case Publish => system.worker.Publishing?
  }

  function Step(system: System, action: Action): System
    requires Enabled(system, action)
  {
    var state := system.state;
    match action
    case Request(ask) =>
      system.(state := state.Requested(ask), serial := system.serial + 1, newest := Some(ask))
    case Cancel =>
      system.(state := state.Cancelled(), serial := system.serial + 1, newest := None)
    case Take =>
      system.(state := state.(completed := None),
              taken := system.taken + (if state.completed.Some? then [state.completed.value] else []))
    case Stop =>
      system.(state := state.(stopped := true, pending := None, completed := None))
    case Wake =>
      if state.stopped then system.(worker := Gone)
      else system.(worker := Checking(state.pending.value), state := state.(pending := None), working := system.serial)
    case Validate(accepted, error) =>
      var noted := system.(answers := system.answers + [Validated(system.working, accepted)]);
      (match system.worker
       case Checking(job) =>
         noted.(worker := if accepted then Fetching(job) else Publishing(job, Err(error)))
       case Rechecking(job, payload) =>
         noted.(worker := Publishing(job, if accepted then Ok(payload) else Err(error)))
       case _ => noted)
    case Fetch(outcome) =>
      var noted := system.(answers := system.answers + [Fetched(system.working, outcome)]);
      (match system.worker
       case Fetching(job) =>
         noted.(worker := if outcome.Ok? then Rechecking(job, outcome.payload) else Publishing(job, outcome))
       case _ => noted)
    case Publish =>
      (match system.worker
       case Publishing(job, result) =>
         var next := state.Published(job, result);
         system.(state := next, worker := Waiting,
                 notices := if state.generation == job.generation && !state.stopped
                            then system.notices + [Notice(system.working, Completion(job.ask, result))]
                            else system.notices)
       case _ => system)
  }

  const START := System(FRESH, Waiting, 0, 0, None, [], [], [])

  predicate Busy(worker: Worker) {
    !worker.Waiting? && !worker.Gone?
  }

  /** Fewer than 2^64 requests and cancellations happened while the present job ran. */
  predicate NoWrap(system: System) {
    system.serial - system.working < WRAP
  }

  /** The fence is exact: it lets a job pass if and only if the counts agree modulo 2^64. */
  lemma FenceIsExact(serial: nat, working: nat)
    requires working <= serial
    ensures serial % WRAP == working % WRAP <==> (serial - working) % WRAP == 0
    ensures serial - working < WRAP ==> (serial % WRAP == working % WRAP <==> serial == working)
  {
    var q, p := serial / WRAP, working / WRAP;
    var gap := serial - working;
    assert serial == WRAP * q + serial % WRAP && working == WRAP * p + working % WRAP;
    if serial % WRAP == working % WRAP {
      assert gap == WRAP * (q - p);
      Multiple(gap, q - p);
    }
    if gap % WRAP == 0 {
      var k := gap / WRAP;
      assert serial == WRAP * (p + k) + working % WRAP;
      Remainder(serial, p + k, working % WRAP);
    }
  }

  lemma Multiple(gap: nat, k: int)
    requires gap == WRAP * k
    ensures gap % WRAP == 0
  {
  }

  lemma Remainder(n: nat, k: nat, r: nat)
    requires n == WRAP * k + r && r < WRAP
    ensures n % WRAP == r
  {
  }

  /** The pending request is always the newest one, and newer than anything the worker took. */
  ghost predicate QueueOk(system: System) {
    var state := system.state;
    && state.generation == system.serial % WRAP && system.working <= system.serial
    && (state.pending.Some? ==>
          && state.pending.value.generation == state.generation && system.newest == Some(state.pending.value.ask)
          && system.working < system.serial)
    && (Busy(system.worker) ==>
          && system.worker.job.generation == system.working % WRAP
          && (system.working == system.serial ==> system.newest == Some(system.worker.job.ask)))
    && (state.stopped ==> state.pending.None? && state.completed.None?)
  }

  /** What is up for taking answers the newest request. */
  ghost predicate FreshOk(system: System) {
    system.state.completed.Some? ==>
      && system.newest == Some(system.state.completed.value.ask)
      && system.state.pending.None?
      && system.notices != []
      && var last := system.notices[|system.notices| - 1];
         last.serial == system.serial && last.completion == system.state.completed.value && !Busy(system.worker)
  }

  /** Notices, one per request at most, in the order of the requests. */
  ghost predicate NoticesOk(system: System) {
    && (forall i, j :: 0 <= i < j < |system.notices| ==> system.notices[i].serial < system.notices[j].serial)
    && (forall i :: 0 <= i < |system.notices| ==>
          if Busy(system.worker) then system.notices[i].serial < system.working else system.notices[i].serial <= system.working)
  }

  /** In this record, answer `i` accepted the job. */
  ghost predicate AcceptedAt(answers: seq<Answer>, serial: nat, i: nat) {
    i < |answers| && answers[i] == Validated(serial, true)
  }

  /** In this record the job was accepted, and after that fetched this payload. */
  ghost predicate FetchedAt(answers: seq<Answer>, serial: nat, payload: nat, i: nat, j: nat) {
    AcceptedAt(answers, serial, i) && i < j < |answers| && answers[j] == Fetched(serial, Ok(payload))
  }

  /** The job was accepted, then fetched this payload, then accepted again. */
  ghost predicate Vouched(answers: seq<Answer>, serial: nat, payload: nat) {
    exists i: nat, j: nat, k: nat ::
      FetchedAt(answers, serial, payload, i, j) && j < k && AcceptedAt(answers, serial, k)
  }

  /** What the worker holds, and every payload it put up, is vouched for by the record. */
  ghost predicate VouchedOk(system: System) {
    && (match system.worker
        case Fetching(_) => exists i: nat :: AcceptedAt(system.answers, system.working, i)
        case Rechecking(_, payload) => exists i: nat, j: nat :: FetchedAt(system.answers, system.working, payload, i, j)
        case Publishing(_, Ok(payload)) => Vouched(system.answers, system.working, payload)
        case _ => true)
    && (forall n :: 0 <= n < |system.notices| && system.notices[n].completion.result.Ok? ==>
          Vouched(system.answers, system.notices[n].serial, system.notices[n].completion.result.payload))
  }

  ghost predicate Invariant(system: System) {
    QueueOk(system) && FreshOk(system) && NoticesOk(system) && VouchedOk(system)
  }

  lemma Increment(serial: nat)
    ensures (serial % WRAP + 1) % WRAP == (serial + 1) % WRAP
  {
  }

  lemma StepKeepsQueue(system: System, action: Action)
    requires QueueOk(system) && Enabled(system, action)
    ensures QueueOk(Step(system, action))
  {
    Increment(system.serial);
  }

  lemma StepKeepsNotices(system: System, action: Action)
    requires QueueOk(system) && NoticesOk(system) && Enabled(system, action)
    ensures NoticesOk(Step(system, action))
  {
  }

  /** A longer record vouches for what a shorter one did. */
  lemma RecordGrows(answers: seq<Answer>, answer: Answer)
    ensures forall serial, i: nat :: AcceptedAt(answers, serial, i) ==> AcceptedAt(answers + [answer], serial, i)
    ensures forall serial, payload, i: nat, j: nat ::
              FetchedAt(answers, serial, payload, i, j) ==> FetchedAt(answers + [answer], serial, payload, i, j)
    ensures forall serial, payload :: Vouched(answers, serial, payload) ==> Vouched(answers + [answer], serial, payload)
  {
    forall serial, payload | Vouched(answers, serial, payload)
      ensures Vouched(answers + [answer], serial, payload)
    {
      var i: nat, j: nat, k: nat :| FetchedAt(answers, serial, payload, i, j) && j < k && AcceptedAt(answers, serial, k);
      assert FetchedAt(answers + [answer], serial, payload, i, j) && AcceptedAt(answers + [answer], serial, k);
    }
  }

  lemma ValidateKeepsVouched(system: System, action: Action)
    requires VouchedOk(system) && action.Validate? && Enabled(system, action)
    ensures VouchedOk(Step(system, action))
  {
    hide Vouched;
    var answer := Validated(system.working, action.accepted);
    var longer := system.answers + [answer];
    RecordGrows(system.answers, answer);
    assert action.accepted ==> AcceptedAt(longer, system.working, |system.answers|);
    if system.worker.Rechecking? && action.accepted {
      var i: nat, j: nat :| FetchedAt(system.answers, system.working, system.worker.payload, i, j);
      AcceptedAgain(longer, system.working, system.worker.payload, i, j, |system.answers|);
    }
  }

  lemma AcceptedAgain(answers: seq<Answer>, serial: nat, payload: nat, i: nat, j: nat, k: nat)
    requires FetchedAt(answers, serial, payload, i, j) && j < k && AcceptedAt(answers, serial, k)
    ensures Vouched(answers, serial, payload)
  {
  }

  lemma FetchKeepsVouched(system: System, action: Action)
    requires VouchedOk(system) && action.Fetch? && Enabled(system, action)
    ensures VouchedOk(Step(system, action))
  {
    hide Vouched;
    var answer := Fetched(system.working, action.outcome);
    var longer := system.answers + [answer];
    RecordGrows(system.answers, answer);
    var i: nat :| AcceptedAt(system.answers, system.working, i);
    if action.outcome.Ok? {
      assert FetchedAt(longer, system.working, action.outcome.payload, i, |system.answers|);
    }
  }

  lemma StepKeepsVouched(system: System, action: Action)
    requires VouchedOk(system) && Enabled(system, action)
    ensures VouchedOk(Step(system, action))
  {
    hide Vouched;
    if action.Validate? {
      ValidateKeepsVouched(system, action);
    } else if action.Fetch? {
      FetchKeepsVouched(system, action);
    }
  }

  lemma StepKeepsFresh(system: System, action: Action)
    requires QueueOk(system) && FreshOk(system) && Enabled(system, action)
    requires action.Publish? ==> NoWrap(system)
    ensures FreshOk(Step(system, action))
  {
    FenceIsExact(system.serial, system.working);
  }

  /** A run in which no single fetch sees 2^64 requests go by. */
  ghost predicate IsRun(systems: seq<System>, actions: seq<Action>) {
    && |systems| == |actions| + 1 && systems[0] == START
    && forall i :: 0 <= i < |actions| ==>
         && Enabled(systems[i], actions[i]) && systems[i + 1] == Step(systems[i], actions[i])
         && (actions[i].Publish? ==> NoWrap(systems[i]))
  }

  lemma {:induction false} EveryRunKeeps(systems: seq<System>, actions: seq<Action>, n: nat)
    requires IsRun(systems, actions) && n < |systems|
    ensures Invariant(systems[n])
  {
    hide Step, QueueOk, FreshOk, NoticesOk, VouchedOk;
    if n == 0 {
      StartOk();
    } else {
      EveryRunKeeps(systems, actions, n - 1);
      StepKeepsQueue(systems[n - 1], actions[n - 1]);
      StepKeepsFresh(systems[n - 1], actions[n - 1]);
      StepKeepsNotices(systems[n - 1], actions[n - 1]);
      StepKeepsVouched(systems[n - 1], actions[n - 1]);
    }
  }

  lemma StartOk()
    ensures Invariant(START)
  {
  }

  /**
  A stale result never surfaces: whatever is taken, at any moment of any run, answers the newest
  request, with no cancellation since; and if it is a payload, the record shows that for this very
  request the authority accepted, the fetch then gave the payload, and the authority accepted again.
  */
  lemma TakenAnswersNewest(systems: seq<System>, actions: seq<Action>, n: nat)
    requires IsRun(systems, actions) && n < |actions| && actions[n].Take?
    ensures systems[n].state.completed.Some? ==>
              && systems[n + 1].taken == systems[n].taken + [systems[n].state.completed.value]
              && systems[n].newest == Some(systems[n].state.completed.value.ask)
              && (systems[n].state.completed.value.result.Ok? ==>
                    Vouched(systems[n].answers, systems[n].serial, systems[n].state.completed.value.result.payload))
    ensures systems[n].state.completed.None? ==> systems[n + 1].taken == systems[n].taken
  {
    EveryRunKeeps(systems, actions, n);
    assert systems[n].taken + [] == systems[n].taken;
  }

  /** Each request completes at most once. */
  lemma CompletesAtMostOnce(systems: seq<System>, actions: seq<Action>, n: nat, i: nat, j: nat)
    requires IsRun(systems, actions) && n < |systems|
    requires i < |systems[n].notices| && j < |systems[n].notices|
    ensures systems[n].notices[i].serial == systems[n].notices[j].serial ==> i == j
  {
    EveryRunKeeps(systems, actions, n);
  }

  /** Once dropped the lane stays silent. */
  lemma StoppedIsSilent(systems: seq<System>, actions: seq<Action>, n: nat)
    requires IsRun(systems, actions) && n < |systems| && systems[n].state.stopped
    ensures systems[n].state.completed.None? && systems[n].state.pending.None?
  {
    EveryRunKeeps(systems, actions, n);
  }

  /**
  The bound on requests per fetch is not slack: a job overtaken by a positive multiple of 2^64
  requests passes the fence, and only such a job does.
  */
  lemma StaleSurfacesOnlyAfterWrap(system: System)
    requires QueueOk(system) && system.worker.Publishing? && !system.state.stopped && system.working < system.serial
    ensures Step(system, Publish).state.completed == Some(Completion(system.worker.job.ask, system.worker.result))
            && |Step(system, Publish).notices| == |system.notices| + 1
            <==> (system.serial - system.working) % WRAP == 0
  {
    FenceIsExact(system.serial, system.working);
  }

  // ---------------------------------------------------------------- a request leads to its answer

  /** Nothing overtook a request from the step behind `i` up to step `n`. */
  ghost predicate NotOvertaken(actions: seq<Action>, i: nat, n: nat) {
    n <= |actions| && forall k :: i < k < n ==> !actions[k].Request? && !actions[k].Cancel? && !actions[k].Stop?
  }

  /**
  A request waits. Until the worker wakes, and while nothing overtakes it, a job with what was
  asked is pending, under a count that no job had which was taken or put up before; and a waiting
  worker may wake.
  */
  lemma {:induction false} RequestWaits(systems: seq<System>, actions: seq<Action>, i: nat, n: nat)
    requires IsRun(systems, actions) && i < n < |systems| && actions[i].Request?
    requires NotOvertaken(actions, i, n) && forall k :: i < k < n ==> !actions[k].Wake?
    ensures var system := systems[n];
            && system.state.pending == Some(Job(system.serial % WRAP, actions[i].ask)) && !system.state.stopped
            && system.serial == systems[i].serial + 1 && system.working <= systems[i].serial
            && system.state.generation == system.serial % WRAP
            && (system.worker.Waiting? ==> Enabled(system, Wake))
  {
    hide QueueOk, FreshOk, NoticesOk, VouchedOk;
    if n == i + 1 {
      EveryRunKeeps(systems, actions, i);
      CountsAre(systems[i]);
      Increment(systems[i].serial);
    } else {
      RequestWaits(systems, actions, i, n - 1);
      assert !actions[n - 1].Request? && !actions[n - 1].Cancel? && !actions[n - 1].Stop? && !actions[n - 1].Wake?;
    }
  }

  lemma CountsAre(system: System)
    requires Invariant(system)
    ensures system.state.generation == system.serial % WRAP && system.working <= system.serial
    ensures Busy(system.worker) ==> system.worker.job.generation == system.working % WRAP
  {
  }

  /** The worker that wakes next is handed exactly that job. */
  lemma WakeTakesRequest(systems: seq<System>, actions: seq<Action>, i: nat, n: nat)
    requires IsRun(systems, actions) && i < n < |actions| && actions[i].Request? && actions[n].Wake?
    requires NotOvertaken(actions, i, n) && forall k :: i < k < n ==> !actions[k].Wake?
    ensures systems[n + 1].worker == Checking(Job(systems[n + 1].serial % WRAP, actions[i].ask))
    ensures systems[n + 1].working == systems[n + 1].serial == systems[i].serial + 1 && systems[n + 1].state.pending.None?
  {
    RequestWaits(systems, actions, i, n);
  }

  /** What the authority and the fetch say about one job. */
  datatype World = World(before: Option<nat>, fetched: Outcome, after: Option<nat>)

  /** The answer that leads to: the first refusal, else what the fetch brought, refused or not behind it. */
  function Verdict(world: World): Outcome {
    match world.before
    case Some(error) => Err(error)
    case None =>
      match world.fetched
      case Err(error) => Err(error)
      case Ok(payload) =>
        match world.after
        case Some(error) => Err(error)
        case None => Ok(payload)
  }

  /** At this point of the job the action answers as the world does; a refusal carries its error. */
  ghost predicate Obeys(system: System, action: Action, world: World) {
    match action
    case Validate(accepted, error) =>
      var refusal := if system.worker.Checking? then world.before else world.after;
      accepted == refusal.None? && (refusal.Some? ==> error == refusal.value)
    case Fetch(outcome) => outcome == world.fetched
    case _ => true
  }

  /** The worker is under way with this job, and its answers so far were the world's. */
  ghost predicate Underway(worker: Worker, job: Job, world: World) {
    match worker
    case Checking(j) => j == job
    case Fetching(j) => j == job && world.before.None?
    case Rechecking(j, payload) => j == job && world.before.None? && world.fetched == Ok(payload)
    case Publishing(j, result) => j == job && result == Verdict(world)
    case _ => false
  }

  lemma UnderwayGoesOn(system: System, action: Action, job: Job, world: World)
    requires Underway(system.worker, job, world) && Enabled(system, action) && Obeys(system, action, world)
    requires !action.Publish?
    ensures Underway(Step(system, action).worker, job, world)
  {
  }

  /** From the wake that takes a job until it is published, its worker is under way with it. */
  lemma {:induction false} WorkerStaysUnderway(systems: seq<System>, actions: seq<Action>, i: nat, w: nat, n: nat, world: World)
    requires IsRun(systems, actions) && i < w < n < |systems| && actions[i].Request? && actions[w].Wake?
    requires NotOvertaken(actions, i, n) && (forall k :: i < k < w ==> !actions[k].Wake?)
    requires forall k :: w < k < n ==> !actions[k].Publish? && Obeys(systems[k], actions[k], world)
    ensures var serial := systems[i].serial + 1;
            && Underway(systems[n].worker, Job(serial % WRAP, actions[i].ask), world)
            && systems[n].serial == systems[n].working == serial && !systems[n].state.stopped
            && systems[n].state.generation == serial % WRAP
  {
    hide QueueOk, FreshOk, NoticesOk, VouchedOk, Obeys, Underway;
    if n == w + 1 {
      RequestWaits(systems, actions, i, w);
      StartsUnderway(Job((systems[i].serial + 1) % WRAP, actions[i].ask), world);
    } else {
      WorkerStaysUnderway(systems, actions, i, w, n - 1, world);
      var action := actions[n - 1];
      assert !action.Request? && !action.Cancel? && !action.Stop? && !action.Publish?;
      UnderwayIsBusy(systems[n - 1].worker, Job((systems[i].serial + 1) % WRAP, actions[i].ask), world);
      UnderwayGoesOn(systems[n - 1], action, Job((systems[i].serial + 1) % WRAP, actions[i].ask), world);
    }
  }

  lemma StartsUnderway(job: Job, world: World)
    ensures Underway(Checking(job), job, world)
  {
  }

  lemma UnderwayIsBusy(worker: Worker, job: Job, world: World)
    requires Underway(worker, job, world)
    ensures Busy(worker) && worker.job == job
    ensures worker.Publishing? ==> worker.result == Verdict(world)
  {
  }

  /**
  A request that nobody overtakes is answered. When its job is published, a completion is put up
  with what was asked and the outcome that the authority and the fetch gave for it, a refusal
  included.
  */
  lemma RequestIsAnswered(systems: seq<System>, actions: seq<Action>, i: nat, w: nat, n: nat, world: World)
    requires IsRun(systems, actions) && i < w < n < |actions|
    requires actions[i].Request? && actions[w].Wake? && actions[n].Publish?
    requires NotOvertaken(actions, i, n) && (forall k :: i < k < w ==> !actions[k].Wake?)
    requires forall k :: w < k < n ==> !actions[k].Publish? && Obeys(systems[k], actions[k], world)
    ensures var completion := Completion(actions[i].ask, Verdict(world));
            && systems[n + 1].state.completed == Some(completion) && systems[n + 1].worker.Waiting?
            && systems[n + 1].notices == systems[n].notices + [Notice(systems[i].serial + 1, completion)]
  {
    hide Obeys, Underway;
    WorkerStaysUnderway(systems, actions, i, w, n, world);
    UnderwayIsBusy(systems[n].worker, Job((systems[i].serial + 1) % WRAP, actions[i].ask), world);
  }

  /** And the next taking, unless a request, a cancellation or the stop comes first, returns it. */
  lemma {:induction false} AnswerIsTaken(systems: seq<System>, actions: seq<Action>, n: nat, t: nat, completion: Completion)
    requires IsRun(systems, actions) && n < t < |actions| && actions[t].Take?
    requires systems[n + 1].state.completed == Some(completion)
    requires NotOvertaken(actions, n, t) && forall k :: n < k < t ==> !actions[k].Take?
    ensures systems[t + 1].taken == systems[t].taken + [completion] && systems[t + 1].state.completed.None?
  {
    hide QueueOk, FreshOk, NoticesOk, VouchedOk;
    CompletionStays(systems, actions, n, t, completion);
  }

  lemma {:induction false} CompletionStays(systems: seq<System>, actions: seq<Action>, n: nat, t: nat, completion: Completion)
    requires IsRun(systems, actions) && n < t < |systems|
    requires systems[n + 1].state.completed == Some(completion)
    requires NotOvertaken(actions, n, t) && forall k :: n < k < t ==> !actions[k].Take?
    ensures systems[t].state.completed == Some(completion)
  {
    hide QueueOk, NoticesOk, VouchedOk;
    if t > n + 1 {
      CompletionStays(systems, actions, n, t - 1, completion);
      EveryRunKeeps(systems, actions, t - 1);
      var action := actions[t - 1];
      assert !action.Request? && !action.Cancel? && !action.Stop? && !action.Take?;
    }
  }
}
