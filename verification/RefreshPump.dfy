/**
One observation lane of src/runtime/refresh_pump.rs: its schedule, the class that keeps it, and
what every run of render thread and worker keeps, above all how often it may fetch.

Times are milliseconds since the pump started; counters are unbounded.
*/
module RefreshPump {
  import opened Numbers
  import opened Wrappers

  datatype Fetched<T> = Ok(value: T) | Err(message: string)

  const MIN_INTERVAL := 250
  const MAX_INTERVAL := 1000
  const DORMANT_INTERVAL := 250

  datatype Cadence = Cadence(interval: nat, backoffBase: nat, backoffMax: nat) {

    /** `RefreshCadence::new`: no lane opts out of the window. */
    static function New(interval: nat, backoffBase: nat, backoffMax: nat): Cadence {
      var clamped := if interval < MIN_INTERVAL then MIN_INTERVAL else if interval > MAX_INTERVAL then MAX_INTERVAL else interval;
      Cadence(clamped, backoffBase, backoffMax)
    }

    function Delay(failures: nat): nat {
      if failures == 0 then interval
      else Min(backoffBase * Doublings(Min(failures - 1, 16)), backoffMax)
    }

    /** The least any delay can be. */
    function Floor(): nat {
      Min(interval, Min(backoffBase, backoffMax))
    }
  }

  /** A cadence comes out with the interval of the window that is nearest to the one asked for. */
  lemma NewClamps(interval: nat, backoffBase: nat, backoffMax: nat, other: nat)
    requires 250 <= other <= 1000
    ensures var cadence := Cadence.New(interval, backoffBase, backoffMax);
            && 250 <= cadence.interval <= 1000
            && (interval <= other ==> interval <= cadence.interval <= other || interval < 250 == cadence.interval)
            && (other <= interval ==> other <= cadence.interval <= interval)
            && cadence.backoffBase == backoffBase && cadence.backoffMax == backoffMax
  {
  }

  lemma DelayAtLeastFloor(cadence: Cadence, failures: nat)
    ensures cadence.Delay(failures) >= cadence.Floor()
  {
    if failures > 0 {
      var factor := Doublings(Min(failures - 1, 16));
      assert cadence.backoffBase * factor >= cadence.backoffBase;
    }
  }

  lemma {:induction false} DoublingsGrow(a: nat, b: nat)
    requires a <= b
    ensures Doublings(a) <= Doublings(b)
  {
    if a < b {
      DoublingsGrow(a, b - 1);
    }
  }

  /** Backing off never speeds up, starts at the base and stays under the cap. */
  lemma BackoffGrows(cadence: Cadence, failures: nat, more: nat)
    requires 1 <= failures <= more
    ensures cadence.Delay(failures) <= cadence.Delay(more) <= cadence.backoffMax
    ensures cadence.Delay(1) == Min(cadence.backoffBase, cadence.backoffMax)
  {
    var a, b := Min(failures - 1, 16), Min(more - 1, 16);
    DoublingsGrow(a, b);
    assert cadence.backoffBase * Doublings(a) <= cadence.backoffBase * Doublings(b) by {
      Scale(cadence.backoffBase, Doublings(a), Doublings(b));
    }
    assert Doublings(0) == 1;
  }

  lemma Scale(factor: nat, a: nat, b: nat)
    requires a <= b
    ensures factor * a <= factor * b
  {
  }

  /** The steady interval without a failure, then the base, doubled by each further failure up to the cap. */
  lemma DelayDoubles(cadence: Cadence, failures: nat)
    ensures cadence.Delay(0) == cadence.interval
    ensures cadence.Delay(1) == Min(cadence.backoffBase, cadence.backoffMax)
    ensures 1 <= failures <= 16 ==> cadence.Delay(failures + 1) == Min(2 * cadence.Delay(failures), cadence.backoffMax)
    ensures failures >= 17 ==> cadence.Delay(failures + 1) == cadence.Delay(failures)
  {
    assert Doublings(0) == 1;
    if 1 <= failures <= 16 {
      Twice(cadence.backoffBase, Doublings(failures - 1));
    }
  }

  lemma Twice(base: nat, factor: nat)
    ensures base * (2 * factor) == 2 * (base * factor)
  {
  }

  datatype Metrics = Metrics(fetches: nat, failures: nat, coalesced: nat, wakes: nat)

  /** The scheduling state of one lane; no due time means dormant. */
  datatype Lane<T> = Lane(
    cadence: Cadence,
    due: Option<nat>,
    failures: nat,
    latest: Option<Fetched<T>>,
    woken: bool,
    metrics: Metrics)
  {
    static function Dormant(cadence: Cadence): Lane<T> {
      Lane(cadence, None, 0, None, false, Metrics(0, 0, 0, 0))
    }

    function Activated(): Lane<T> {
      if due.None? then this.(due := Some(0), woken := true) else this
    }

    predicate MayBegin(now: nat) {
      due.Some? && due.value <= now
    }

    function Begun(): Lane<T> {
      this.(metrics := metrics.(fetches := metrics.fetches + 1))
    }

    function Completed(now: nat, result: Fetched<T>): Lane<T> {
      var streak := if result.Err? then failures + 1 else 0;
      this.(
        failures := streak,
        latest := Some(result),
        due := Some(now + cadence.Delay(streak)),
        metrics := metrics.(
          failures := metrics.failures + (if result.Err? then 1 else 0),
          coalesced := metrics.coalesced + (if latest.Some? then 1 else 0)))
    }

    function Woken(): Lane<T> {
      this.(due := Some(0), woken := true, metrics := metrics.(wakes := metrics.wakes + 1))
    }

    function WaitFor(now: nat): nat {
      if due.None? then DORMANT_INTERVAL else if due.value < now then 0 else due.value - now
    }
  }

  /** `RefreshState`, field by field and in place. */
  class RefreshState<T> {
    const cadence: Cadence
    var due: Option<nat>
    var failures: nat
    var latest: Option<Fetched<T>>
    var woken: bool
    var metrics: Metrics

    constructor (cadence: Cadence)
      ensures View() == Lane<T>.Dormant(cadence)
    {
      this.cadence := cadence;
      due, failures, latest, woken := None, 0, None, false;
      metrics := Metrics(0, 0, 0, 0);
    }

    ghost function View(): Lane<T>
      reads this
    {
      Lane(cadence, due, failures, latest, woken, metrics)
    }

    method Activate() returns (changed: bool)
      modifies this
      ensures changed == old(View()).due.None? && View() == old(View()).Activated()
    {
      if due.None? {
        due, woken := Some(0), true;
        return true;
      }
      return false;
    }

    method Begin(now: nat) returns (allowed: bool)
      modifies this
      ensures allowed == old(View()).MayBegin(now)
      ensures View() == if allowed then old(View()).Begun() else old(View())
    {
      if due.None? || now < due.value {
        return false;
      }
      metrics := metrics.(fetches := metrics.fetches + 1);
      return true;
    }

    method Complete(now: nat, result: Fetched<T>)
      modifies this
      ensures View() == old(View()).Completed(now, result)
    {
      if result.Err? {
        metrics := metrics.(failures := metrics.failures + 1);
        failures := failures + 1;
      } else {
        failures := 0;
      }
      if latest.Some? {
        metrics := metrics.(coalesced := metrics.coalesced + 1);
      }
      latest := Some(result);
      due := Some(now + cadence.Delay(failures));
    }

    method Wake()
      modifies this
      ensures View() == old(View()).Woken()
    {
      metrics := metrics.(wakes := metrics.wakes + 1);
      due, woken := Some(0), true;
    }

    method WaitFor(now: nat) returns (wait: nat)
      ensures wait == View().WaitFor(now)
    {
      match due
      case None => wait := DORMANT_INTERVAL;
      case Some(at) => wait := if at < now then 0 else at - now;
    }

    method Take() returns (result: Option<Fetched<T>>)
      modifies this
      ensures result == old(latest) && View() == old(View()).(latest := None)
    {
      result := latest;
      latest := None;
    }
  }

  // ---------------------------------------------------------------- runs

  /**
  A lane with its worker and the world around it. `owed` marks a due time that came from waking
  or activating and was neither spent by a fetch nor overwritten by a completion.
  */
  datatype System<T> = System(
    lane: Lane<T>,
    clock: nat,
    fetching: bool,
    /** Every completed fetch, and every one the render thread took. */
    completed: seq<Fetched<T>>,
    drained: seq<Fetched<T>>,
    lastBegin: nat,
    owed: bool)

  datatype Action<T> =
    | Elapse(time: nat)
    | Activate
    | Wake
    | Look
    | Finish(result: Fetched<T>, at: nat)
    | Spend
    | Drain

  /**
  The worker looks for work only between fetches, and finishes only one it began. It reads the
  clock before it takes the lock to finish, so the time it finishes at may lie back a little.
  */
  predicate Enabled<T>(system: System<T>, action: Action<T>) {
    match action
    case Look => !system.fetching
    case Spend => !system.fetching
    case Finish(_, at) => system.fetching && system.lastBegin <= at <= system.clock
    case _ => true
  }

  function Step<T>(system: System<T>, action: Action<T>): System<T> {
    var lane := system.lane;
    match action
    case Elapse(time) => system.(clock := system.clock + time)
    case Activate => system.(lane := lane.Activated(), owed := system.owed || lane.due.None?)
    case Wake => system.(lane := lane.Woken(), owed := true)
    case Look =>
      if lane.MayBegin(system.clock)
      then system.(lane := lane.Begun(), fetching := true, lastBegin := system.clock, owed := false)
      else system
    case Finish(result, at) =>
      system.(lane := lane.Completed(at, result), fetching := false, owed := false,
              completed := system.completed + [result])
    case Spend => system.(lane := lane.(woken := false))
    case Drain =>
      system.(lane := lane.(latest := None),
              drained := system.drained + (if lane.latest.Some? then [lane.latest.value] else []))
  }

  function Start<T>(cadence: Cadence): System<T> {
    System(Lane.Dormant(cadence), 0, false, [], [], 0, false)
  }

  function Failures<T>(results: seq<Fetched<T>>): nat {
    if results == [] then 0
    else Failures(results[..|results| - 1]) + (if results[|results| - 1].Err? then 1 else 0)
  }

  /** The length of the streak of failures at the end. */
  function Streak<T>(results: seq<Fetched<T>>): nat {
    if results == [] || results[|results| - 1].Ok? then 0 else 1 + Streak(results[..|results| - 1])
  }

  /** What was fetched was drained, coalesced away, or waits; and what waits is the newest. */
  ghost predicate Accounted<T>(system: System<T>) {
    var lane := system.lane;
    && lane.metrics.fetches == |system.completed| + (if system.fetching then 1 else 0)
    && |system.completed| == |system.drained| + lane.metrics.coalesced + (if lane.latest.Some? then 1 else 0)
    && (lane.latest.Some? ==> system.completed != [] && lane.latest.value == system.completed[|system.completed| - 1])
    && lane.metrics.failures == Failures(system.completed)
    && lane.failures == Streak(system.completed)
  }

  /** Every fetch is paid for: by the first activation, by a wake, or by a delay waited out. */
  ghost predicate Paid<T>(system: System<T>) {
    var lane := system.lane;
    var floor := lane.cadence.Floor();
    && system.lastBegin <= system.clock
    && (lane.due.None? ==> lane.metrics.fetches == 0 && lane.metrics.wakes == 0 && !system.fetching && !system.owed)
    && (lane.due.Some? && !system.fetching && !system.owed ==> lane.due.value >= system.lastBegin + floor)
    && Charge(lane.metrics.fetches, lane.metrics.wakes, floor) <= system.lastBegin - (if system.owed then floor else 0)
  }

  /** The time that fetches beyond the first and the woken ones stand for. */
  function Charge(fetches: nat, wakes: nat, floor: nat): int {
    (fetches as int - 1 - wakes as int) * floor
  }

  lemma ChargeSteps(fetches: nat, wakes: nat, floor: nat)
    ensures Charge(fetches + 1, wakes, floor) == Charge(fetches, wakes, floor) + floor
    ensures Charge(fetches, wakes + 1, floor) == Charge(fetches, wakes, floor) - floor
    ensures Charge(0, 0, floor) == -(floor as int)
  {
  }

  lemma StepPays<T>(system: System<T>, action: Action<T>)
    requires Paid(system) && Enabled(system, action)
    requires system.lane.due.None? ==> system.lastBegin == 0
    ensures Paid(Step(system, action))
  {
    hide Charge, Cadence.Delay;
    var lane := system.lane;
    ChargeSteps(lane.metrics.fetches, lane.metrics.wakes, lane.cadence.Floor());
    if action.Finish? {
      DelayAtLeastFloor(lane.cadence, Step(system, action).lane.failures);
    }
  }

  lemma StepAccounts<T>(system: System<T>, action: Action<T>)
    requires Accounted(system) && Enabled(system, action)
    ensures Accounted(Step(system, action))
  {
    if action.Finish? {
      assert (system.completed + [action.result])[..|system.completed|] == system.completed;
    }
  }

  ghost predicate IsRun<T(!new)>(cadence: Cadence, systems: seq<System<T>>, actions: seq<Action<T>>) {
    && |systems| == |actions| + 1 && systems[0] == Start(cadence)
    && forall i :: 0 <= i < |actions| ==> Enabled(systems[i], actions[i]) && systems[i + 1] == Step(systems[i], actions[i])
  }

  ghost predicate Invariant<T(!new)>(cadence: Cadence, system: System<T>) {
    && system.lane.cadence == cadence && Paid(system) && Accounted(system)
    && (system.lane.due.None? ==> system.lastBegin == 0)
  }

  lemma {:induction false} EveryRunKeeps<T(!new)>(cadence: Cadence, systems: seq<System<T>>, actions: seq<Action<T>>, n: nat)
    requires IsRun(cadence, systems, actions) && n < |systems|
    ensures Invariant(cadence, systems[n])
  {
    if n == 0 {
      ChargeSteps(0, 0, cadence.Floor());
    } else {
      EveryRunKeeps(cadence, systems, actions, n - 1);
      StepPays(systems[n - 1], actions[n - 1]);
      StepAccounts(systems[n - 1], actions[n - 1]);
    }
  }

  /**
  The rate bound, for every run: fetches number at most one, plus the wakes, plus the elapsed
  time over the least delay; written as a product so that a zero delay needs no exception. A
  lane that is still dormant has fetched nothing.
  */
  lemma RateBound<T(!new)>(cadence: Cadence, systems: seq<System<T>>, actions: seq<Action<T>>, n: nat)
    requires IsRun(cadence, systems, actions) && n < |systems|
    ensures var system := systems[n];
            && system.lane.metrics.fetches * cadence.Floor()
               <= (1 + system.lane.metrics.wakes) * cadence.Floor() + system.clock
            && (system.lane.due.None? ==> system.lane.metrics.fetches == 0)
  {
    EveryRunKeeps(cadence, systems, actions, n);
    var metrics, floor := systems[n].lane.metrics, cadence.Floor();
    assert Charge(metrics.fetches, metrics.wakes, floor) == metrics.fetches * floor - (1 + metrics.wakes) * floor;
  }

  /** Nothing completed is lost track of, and draining gives the newest completion or nothing. */
  lemma NewestIsDrained<T(!new)>(cadence: Cadence, systems: seq<System<T>>, actions: seq<Action<T>>, n: nat)
    requires IsRun(cadence, systems, actions) && n < |systems|
    ensures var system := systems[n];
            && |system.completed| == |system.drained| + system.lane.metrics.coalesced + (if system.lane.latest.Some? then 1 else 0)
            && (system.lane.latest.Some? ==>
                  Step(system, Drain).drained == system.drained + [system.completed[|system.completed| - 1]])
            && (system.lane.latest.None? ==> Step(system, Drain).drained == system.drained)
  {
    EveryRunKeeps(cadence, systems, actions, n);
    assert systems[n].drained + [] == systems[n].drained;
  }

  // ---------------------------------------------------------------- wakes

  /** The worker looked and a fetch began. */
  ghost predicate Begins<T(!new)>(systems: seq<System<T>>, actions: seq<Action<T>>, j: nat)
    requires |systems| == |actions| + 1 && j < |actions|
  {
    actions[j].Look? && !systems[j].fetching && systems[j + 1].fetching
  }

  /** Between these two steps nobody woke the lane and no fetch began. */
  ghost predicate Undisturbed<T(!new)>(systems: seq<System<T>>, actions: seq<Action<T>>, from: nat, to: nat)
    requires |systems| == |actions| + 1 && to <= |actions|
  {
    forall k :: from <= k < to ==> !actions[k].Wake? && !Begins(systems, actions, k)
  }

  /** After a fetch finished, and until a wake or the next fetch, the lane keeps its due time. */
  lemma {:induction false} DueStays<T(!new)>(cadence: Cadence, systems: seq<System<T>>, actions: seq<Action<T>>, f: nat, n: nat)
    requires IsRun(cadence, systems, actions) && f < n <= |actions|
    requires actions[f].Finish? && Undisturbed(systems, actions, f + 1, n)
    ensures !systems[n].fetching
    ensures systems[n].lane.due == Some(actions[f].at + cadence.Delay(systems[f + 1].lane.failures))
  {
    hide Invariant, Cadence.Delay;
    if n == f + 1 {
      EveryRunKeeps(cadence, systems, actions, f);
      CadenceStays(cadence, systems, actions, f);
    } else {
      DueStays(cadence, systems, actions, f, n - 1);
      assert !actions[n - 1].Wake? && !Begins(systems, actions, n - 1);
    }
  }

  lemma CadenceStays<T(!new)>(cadence: Cadence, systems: seq<System<T>>, actions: seq<Action<T>>, n: nat)
    requires IsRun(cadence, systems, actions) && n < |systems|
    ensures systems[n].lane.cadence == cadence
  {
    hide Step;
    EveryRunKeeps(cadence, systems, actions, n);
  }

  /**
  A lane rests after every fetch: while nobody wakes it, the next look begins a fetch if and only
  if the delay that its streak asks for is over.
  */
  lemma RestsAfterFetch<T(!new)>(cadence: Cadence, systems: seq<System<T>>, actions: seq<Action<T>>, f: nat, j: nat)
    requires IsRun(cadence, systems, actions) && f < j < |actions|
    requires actions[f].Finish? && actions[j].Look? && Undisturbed(systems, actions, f + 1, j)
    ensures Begins(systems, actions, j) <==>
              systems[j].clock >= actions[f].at + cadence.Delay(systems[f + 1].lane.failures)
  {
    hide Cadence.Delay;
    DueStays(cadence, systems, actions, f, j);
  }

  /** From a wake between fetches on, and until the worker looks, the lane is due at once. */
  lemma {:induction false} WokenStaysDue<T(!new)>(cadence: Cadence, systems: seq<System<T>>, actions: seq<Action<T>>, i: nat, n: nat)
    requires IsRun(cadence, systems, actions) && i < n <= |actions|
    requires actions[i].Wake? && !systems[i].fetching
    requires forall k :: i < k < n ==> !actions[k].Look?
    ensures !systems[n].fetching && systems[n].lane.due == Some(0)
  {
    if n > i + 1 {
      WokenStaysDue(cadence, systems, actions, i, n - 1);
      assert !actions[n - 1].Look?;
    }
  }

  lemma {:induction false} StaysFetching<T(!new)>(cadence: Cadence, systems: seq<System<T>>, actions: seq<Action<T>>, i: nat, n: nat)
    requires IsRun(cadence, systems, actions) && i <= n <= |actions| && systems[i].fetching
    requires forall k :: i <= k < n ==> !actions[k].Finish?
    ensures systems[n].fetching
  {
    if n > i {
      StaysFetching(cadence, systems, actions, i, n - 1);
      assert !actions[n - 1].Finish?;
    }
  }

  /**
  A wake is honoured by the first look behind it exactly when it falls between fetches. One that
  falls into a fetch is overwritten: the look comes behind the end of that fetch, and unless
  somebody wakes the lane again after it, begins one only once the lane has rested as if it had
  never been woken.
  */
  lemma WakeIsHonouredBetweenFetches<T(!new)>(cadence: Cadence, systems: seq<System<T>>, actions: seq<Action<T>>, i: nat, j: nat)
    returns (f: nat)
    requires IsRun(cadence, systems, actions) && i < j < |actions|
    requires actions[i].Wake? && actions[j].Look? && forall k :: i < k < j ==> !actions[k].Look?
    ensures !systems[i].fetching ==> Begins(systems, actions, j)
    ensures systems[i].fetching ==> i < f < j && actions[f].Finish?
    ensures systems[i].fetching && (forall k :: f < k < j ==> !actions[k].Wake?) ==>
              (Begins(systems, actions, j) <==>
                 systems[j].clock >= actions[f].at + cadence.Delay(systems[f + 1].lane.failures))
  {
    hide Cadence.Delay, Step, Invariant;
    f := 0;
    if !systems[i].fetching {
      WokenStaysDue(cadence, systems, actions, i, j);
      LookAtDue(systems[j]);
    } else {
      if forall k :: i <= k < j ==> !actions[k].Finish? {
        StaysFetching(cadence, systems, actions, i, j);
        assert false;
      }
      f :| i <= f < j && actions[f].Finish?;
      if forall k :: f < k < j ==> !actions[k].Wake? {
        RestsAfterFetch(cadence, systems, actions, f, j);
      }
    }
  }

  /** What a lane is woken by: a wake, or the activation that ends its dormancy. */
  ghost predicate Rouses<T(!new)>(system: System<T>, action: Action<T>) {
    action.Wake? || (action.Activate? && system.lane.due.None?)
  }

  /** A lane that was roused is due at once and ends the worker's wait; an active lane is not roused by activating. */
  lemma RousedIsDue<T(!new)>(system: System<T>, action: Action<T>)
    requires action.Wake? || action.Activate?
    ensures var next := Step(system, action);
            if Rouses(system, action) then next.lane.due == Some(0) && next.lane.woken && next.lane.WaitFor(next.clock) == 0
            else next == system
  {
  }

  /** The first look behind an activation begins the first fetch. */
  lemma ActivationStarts<T(!new)>(cadence: Cadence, systems: seq<System<T>>, actions: seq<Action<T>>, i: nat, j: nat)
    requires IsRun(cadence, systems, actions) && i < j < |actions|
    requires actions[i].Activate? && systems[i].lane.due.None?
    requires actions[j].Look? && forall k :: i < k < j ==> !actions[k].Look?
    ensures Begins(systems, actions, j) && systems[j].lane.metrics.fetches == 0
  {
    hide Cadence.Delay, Step, Invariant;
    ActivatedStaysDue(cadence, systems, actions, i, j);
    LookAtDue(systems[j]);
  }

  lemma {:induction false} ActivatedStaysDue<T(!new)>(cadence: Cadence, systems: seq<System<T>>, actions: seq<Action<T>>, i: nat, n: nat)
    requires IsRun(cadence, systems, actions) && i < n <= |actions|
    requires actions[i].Activate? && systems[i].lane.due.None?
    requires forall k :: i < k < n ==> !actions[k].Look?
    ensures !systems[n].fetching && systems[n].lane.due == Some(0) && systems[n].lane.metrics.fetches == 0
  {
    if n == i + 1 {
      EveryRunKeeps(cadence, systems, actions, i);
    } else {
      ActivatedStaysDue(cadence, systems, actions, i, n - 1);
      assert !actions[n - 1].Look?;
    }
  }

  /** The wake lasts until the worker's wait has spent it, so it is not missed by a worker that waits later. */
  lemma {:induction false} WakeLasts<T(!new)>(cadence: Cadence, systems: seq<System<T>>, actions: seq<Action<T>>, i: nat, n: nat)
    requires IsRun(cadence, systems, actions) && i < n < |systems| && Rouses(systems[i], actions[i])
    requires forall k :: i < k < n ==> !actions[k].Spend?
    ensures systems[n].lane.woken
  {
    hide Cadence.Delay;
    if n == i + 1 {
      RousedIsDue(systems[i], actions[i]);
    } else {
      WakeLasts(cadence, systems, actions, i, n - 1);
      assert !actions[n - 1].Spend?;
    }
  }

  lemma LookAtDue<T>(system: System<T>)
    requires !system.fetching && system.lane.due == Some(0)
    ensures Step(system, Look).fetching
  {
  }

  /** A run in which a wake is lost: it falls into the first fetch, and the look behind it finds nothing to do. */
  lemma LostWake<T(!new)>(cadence: Cadence, value: T) returns (systems: seq<System<T>>, actions: seq<Action<T>>)
    requires cadence.interval > 0
    ensures IsRun(cadence, systems, actions)
    ensures |actions| == 5 && actions[2].Wake? && systems[2].fetching && actions[4].Look? && !systems[5].fetching
  {
    actions := [Activate, Look, Wake, Finish(Ok(value), 0), Look];
    var s0: System<T> := Start(cadence);
    var s1 := Step(s0, Activate);
    var s2 := Step(s1, Look);
    var s3 := Step(s2, Wake);
    var s4 := Step(s3, Finish(Ok(value), 0));
    systems := [s0, s1, s2, s3, s4, Step(s4, Look)];
  }

  /**
  Waiting is exact: an active lane may begin at once when the wait is over, and not before; a
  dormant one parks for its fixed time and may not begin at all.
  */
  lemma WaitIsExact<T>(lane: Lane<T>, now: nat, later: nat)
    requires now <= later
    ensures lane.due.Some? ==> (lane.MayBegin(later) <==> later >= now + lane.WaitFor(now))
    ensures lane.due.None? ==> !lane.MayBegin(later) && lane.WaitFor(now) == 250
  {
  }
}
