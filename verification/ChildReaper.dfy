/**
Bounded reaping of helper processes (src/runtime/platform_child_reaper.rs): admission under a
capacity, a backwards sweep that removes by swapping, and one result per observed helper.

What `try_wait` says about a child in one pass is an oracle; the set of children is changed in
place as the source changes its vector.
*/
module ChildReaper {

  const MAX_TRACKED_CHILDREN := 32

  datatype HelperExit = Success | Failure | Unconfirmed

  /** A tracked child; `awaited` while its completion sender has not been used. */
  datatype Tracked = Tracked(id: nat, awaited: bool)

  /** The answer of `try_wait`. */
  datatype Try = Exited(success: bool) | Running | Unknown

  datatype Sent = Sent(id: nat, exit: HelperExit)

  /** What admission says; only `Admitted` leaves a process behind. */
  datatype Admission = Admitted | Unavailable | Busy | Full | SpawnFailed

  function Classify(success: bool): HelperExit {
    if success then Success else Failure
  }

  // ---------------------------------------------------------------- one pass, as functions

  function SurvivorOf(child: Tracked, answer: Try): seq<Tracked> {
    match answer
    case Exited(_) => []
    case Running => [child]
    case Unknown => [child.(awaited := false)]
  }

  function ResultOf(child: Tracked, answer: Try): seq<Sent> {
    if !child.awaited then []
    else match answer
      case Exited(success) => [Sent(child.id, Classify(success))]
      case Running => []
      case Unknown => [Sent(child.id, Unconfirmed)]
  }

  function Survivors(children: seq<Tracked>, answers: nat -> Try): seq<Tracked> {
    if children == [] then []
    else SurvivorOf(children[0], answers(children[0].id)) + Survivors(children[1..], answers)
  }

  /** Results in the order of the pass, which goes from the back. */
  function Results(children: seq<Tracked>, answers: nat -> Try): seq<Sent> {
    if children == [] then []
    else Results(children[1..], answers) + ResultOf(children[0], answers(children[0].id))
  }

  function Ids(children: seq<Tracked>): seq<nat> {
    seq(|children|, i requires 0 <= i < |children| => children[i].id)
  }

  class Reaper {
    var children: seq<Tracked>
    var sent: seq<Sent>

    constructor ()
      ensures children == [] && sent == []
    {
      children, sent := [], [];
    }

    /** `Vec::swap_remove`. */
    method SwapRemove(index: nat) returns (removed: Tracked)
      requires index < |children|
      modifies this`children
      ensures removed == old(children)[index]
      ensures var last := old(children)[|old(children)| - 1];
              children == if index == |old(children)| - 1 then old(children)[..index]
                          else old(children)[..|old(children)| - 1][index := last]
    {
      removed := children[index];
      var last := children[|children| - 1];
      children := children[index := last];
      children := children[..|children| - 1];
    }

    /** The sweep of `reap_children`, under the lock. */
    method Sweep(answers: nat -> Try) returns (empty: bool, ghost polled: seq<nat>)
      modifies this
      ensures empty == (children == [])
      ensures multiset(polled) == multiset(Ids(old(children)))
      ensures multiset(children) == multiset(Survivors(old(children), answers)) && |children| <= |old(children)|
      ensures sent == old(sent) + Results(old(children), answers)
    {
      hide Survivors, Results, Ids;
      polled := [];
      var index := |children|;
      ghost var before := children;
      NothingSwept(before, answers);
      while index > 0
        invariant 0 <= index <= |children| <= |before| && children[..index] == before[..index]
        invariant multiset(children[index..]) == multiset(Survivors(before[index..], answers))
        invariant sent == old(sent) + Results(before[index..], answers)
        invariant multiset(polled) == multiset(Ids(before[index..]))
      {
        index := index - 1;
        ghost var swept := children;
        assert swept[..index + 1][index] == before[..index + 1][index];
        assert swept[..index] == before[..index] by {
          assert swept[..index] == swept[..index + 1][..index];
          assert before[..index] == before[..index + 1][..index];
        }
        SweepStep(before, index, answers);
        polled := polled + [children[index].id];
        Visit(index, answers(children[index].id));
      }
      assert before[0..] == before && children[0..] == children;
      empty := children == [];
    }

    /** The body of the sweep: one child, whose members behind it were swept already. */
    method Visit(index: nat, answer: Try)
      requires index < |children|
      modifies this
      ensures index <= |children| <= |old(children)| && children[..index] == old(children)[..index]
      ensures multiset(children[index..])
              == multiset(SurvivorOf(old(children)[index], answer)) + multiset(old(children)[index + 1..])
      ensures sent == old(sent) + ResultOf(old(children)[index], answer)
    {
      ghost var child, tail := children[index], children[index + 1..];
      match answer {
        case Exited(success) =>
          Remove(index, success);
        case Unknown =>
          if children[index].awaited {
            sent := sent + [Sent(children[index].id, Unconfirmed)];
          }
          children := children[index := children[index].(awaited := false)];
          assert children[index..] == [child.(awaited := false)] + tail;
        case Running =>
          assert children[index..] == [child] + tail;
      }
    }

    /** A child that ended leaves the set, and whoever observed it is told how. */
    method Remove(index: nat, success: bool)
      requires index < |children|
      modifies this
      ensures |children| + 1 == |old(children)| && index <= |children| && children[..index] == old(children)[..index]
      ensures multiset(children[index..]) == multiset(old(children)[index + 1..])
      ensures sent == old(sent) + (if old(children)[index].awaited then [Sent(old(children)[index].id, Classify(success))] else [])
    {
      ghost var head, child, tail := children[..index], children[index], children[index + 1..];
      assert children == head + [child] + tail;
      var tracked := SwapRemove(index);
      SwapKeepsTheRest(head, child, tail, children);
      if tracked.awaited {
        sent := sent + [Sent(tracked.id, Classify(success))];
      }
    }

    /** `admit`: capacity is checked before anything is spawned, and nobody waits for the lock. */
    method Admit(id: nat, observed: bool, alive: bool, locked: bool, spawns: bool) returns (admission: Admission)
      modifies this`children
      ensures admission == if !alive then Unavailable else if locked then Busy
                           else if |old(children)| >= 32 then Full
                           else if !spawns then SpawnFailed else Admitted
      ensures children == if admission.Admitted? then old(children) + [Tracked(id, observed)] else old(children)
    {
      if !alive {
        return Unavailable;
      }
      if locked {
        return Busy;
      }
      if |children| >= MAX_TRACKED_CHILDREN {
        return Full;
      }
      if !spawns {
        return SpawnFailed;
      }
      children := children + [Tracked(id, observed)];
      return Admitted;
    }
  }

  lemma NothingSwept(before: seq<Tracked>, answers: nat -> Try)
    ensures before[|before|..] == [] && Survivors([], answers) == [] && Results([], answers) == [] && Ids([]) == []
  {
  }

  lemma SweepStep(before: seq<Tracked>, index: nat, answers: nat -> Try)
    requires index < |before|
    ensures before[index..] == [before[index]] + before[index + 1..]
    ensures Survivors(before[index..], answers)
            == SurvivorOf(before[index], answers(before[index].id)) + Survivors(before[index + 1..], answers)
    ensures Results(before[index..], answers)
            == Results(before[index + 1..], answers) + ResultOf(before[index], answers(before[index].id))
    ensures multiset(Survivors(before[index..], answers))
            == multiset(SurvivorOf(before[index], answers(before[index].id))) + multiset(Survivors(before[index + 1..], answers))
    ensures multiset(Ids(before[index..])) == multiset(Ids(before[index + 1..])) + multiset{before[index].id}
  {
    assert before[index..][1..] == before[index + 1..];
    assert Ids(before[index..]) == [before[index].id] + Ids(before[index + 1..]);
  }

  /** What was already swept keeps its members when one of them fills the gap. */
  lemma SwapKeepsTheRest(head: seq<Tracked>, child: Tracked, tail: seq<Tracked>, swapped: seq<Tracked>)
    requires var all := head + [child] + tail;
             swapped == if tail == [] then all[..|head|] else all[..|all| - 1][|head| := all[|all| - 1]]
    ensures swapped[..|head|] == head && multiset(swapped[|head|..]) == multiset(tail)
  {
    if tail == [] {
      assert swapped[|head|..] == [];
    } else {
      assert swapped[|head|..] == [tail[|tail| - 1]] + tail[..|tail| - 1];
      assert tail == tail[..|tail| - 1] + [tail[|tail| - 1]];
    }
  }

  // ---------------------------------------------------------------- runs

  /** How many results a child was sent. */
  function Received(sent: seq<Sent>, id: nat): nat {
    if sent == [] then 0
    else Received(sent[..|sent| - 1], id) + (if sent[|sent| - 1].id == id then 1 else 0)
  }

  function Awaiting(children: seq<Tracked>, id: nat): nat {
    multiset(children)[Tracked(id, true)]
  }

  lemma {:induction false} ReceivedAppend(a: seq<Sent>, b: seq<Sent>, id: nat)
    ensures Received(a + b, id) == Received(a, id) + Received(b, id)
  {
    if b == [] {
      assert a + b == a;
    } else {
      ReceivedAppend(a, b[..|b| - 1], id);
      assert (a + b)[..|a + b| - 1] == a + b[..|b| - 1];
    }
  }

  /** A pass turns waiting into results, one for one. */
  lemma {:induction false} PassAnswersOnce(children: seq<Tracked>, answers: nat -> Try, id: nat)
    ensures Awaiting(Survivors(children, answers), id) + Received(Results(children, answers), id) == Awaiting(children, id)
    ensures |Survivors(children, answers)| <= |children|
  {
    hide SurvivorOf, ResultOf, Awaiting, Received;
    if children == [] {
      assert Received([], id) == 0 && Awaiting([], id) == 0 by { NothingAwaited(id); }
    } else {
      var child, rest := children[0], children[1..];
      PassAnswersOnce(rest, answers, id);
      var kept := SurvivorOf(child, answers(child.id));
      ReceivedAppend(Results(rest, answers), ResultOf(child, answers(child.id)), id);
      OneAnswer(child, answers(child.id), id);
      AwaitingAppend(kept, Survivors(rest, answers), id);
      AwaitingAppend([child], rest, id);
      assert children == [child] + rest;
    }
  }

  lemma NothingAwaited(id: nat)
    ensures Received([], id) == 0 && Awaiting([], id) == 0
  {
  }

  lemma AwaitingAppend(a: seq<Tracked>, b: seq<Tracked>, id: nat)
    ensures Awaiting(a + b, id) == Awaiting(a, id) + Awaiting(b, id)
  {
  }

  lemma OneAnswer(child: Tracked, answer: Try, id: nat)
    ensures |SurvivorOf(child, answer)| <= 1
    ensures Awaiting(SurvivorOf(child, answer), id) + Received(ResultOf(child, answer), id) == Awaiting([child], id)
  {
    var results := ResultOf(child, answer);
    if results != [] {
      assert results[..0] == [];
    }
  }

  /**
  What a pass says, child by child. A result goes out exactly to those who observe a child: success
  or failure as it exited, and unconfirmed where its state could not be read. Exactly those children
  stay that still run, and, without their observer, those that could not be read.
  */
  lemma {:induction false} PassSays(children: seq<Tracked>, answers: nat -> Try, sent: Sent, child: Tracked)
    ensures sent in Results(children, answers) <==>
              Tracked(sent.id, true) in children &&
              match answers(sent.id)
              case Exited(success) => sent.exit == (if success then Success else Failure)
              case Unknown => sent.exit == Unconfirmed
              case Running => false
    ensures child in Survivors(children, answers) <==>
              match answers(child.id)
              case Exited(_) => false
              case Running => child in children
              case Unknown => !child.awaited && exists awaited: bool :: Tracked(child.id, awaited) in children
  {
    hide Classify;
    if children != [] {
      var first, rest := children[0], children[1..];
      assert children == [first] + rest;
      PassSays(rest, answers, sent, child);
      OneSays(first, answers(first.id), sent, child);
      assert forall other: Tracked :: other in children <==> other == first || other in rest;
      assert Tracked(child.id, true) in children || Tracked(child.id, false) in children
             <==> exists awaited: bool :: Tracked(child.id, awaited) in children;
      assert Tracked(child.id, true) in rest || Tracked(child.id, false) in rest
             <==> exists awaited: bool :: Tracked(child.id, awaited) in rest;
    }
  }

  lemma OneSays(first: Tracked, answer: Try, sent: Sent, child: Tracked)
    ensures sent in ResultOf(first, answer) <==>
              first == Tracked(sent.id, true) &&
              match answer
              case Exited(success) => sent.exit == (if success then Success else Failure)
              case Unknown => sent.exit == Unconfirmed
              case Running => false
    ensures child in SurvivorOf(first, answer) <==>
              match answer
              case Exited(_) => false
              case Running => child == first
              case Unknown => child == Tracked(first.id, false)
  {
  }

  /** The worker reads whether anyone can still admit, sweeps, and then decides. */
  datatype Worker = Top | Reading(accepting: bool) | Deciding(accepting: bool, empty: bool) | Ended

  datatype System = System(
    children: seq<Tracked>,
    sent: seq<Sent>,
    /** Live admission handles; none can be made from nothing. */
    handles: nat,
    worker: Worker,
    admitted: map<nat, bool>)

  datatype Action =
    | Clone
    | Drop
    | Admit(id: nat, observed: bool)
    | Read
    | Sweep(answers: nat -> Try, left: seq<Tracked>)
    | Decide

  /** Admission that succeeds: through a live handle, with room, for a process not seen before. */
  ghost predicate Enabled(system: System, action: Action) {
    match action
    case Clone => system.handles > 0
    case Drop => system.handles > 0
    case Admit(id, _) => system.handles > 0 && |system.children| < MAX_TRACKED_CHILDREN && id !in system.admitted
    case Read => system.worker.Top?
    case Sweep(answers, left) => system.worker.Reading? && multiset(left) == multiset(Survivors(system.children, answers))
    case Decide => system.worker.Deciding?
  }

  ghost function Step(system: System, action: Action): System
    requires Enabled(system, action)
  {
    match action
    case Clone => system.(handles := system.handles + 1)
    case Drop => system.(handles := system.handles - 1)
    case Admit(id, observed) =>
      system.(children := system.children + [Tracked(id, observed)], admitted := system.admitted[id := observed])
    case Read => system.(worker := Reading(system.handles > 0))
    case Sweep(answers, left) =>
      system.(children := left, sent := system.sent + Results(system.children, answers),
              worker := Deciding(system.worker.accepting, left == []))
    case Decide =>
      system.(worker := if !system.worker.accepting && system.worker.empty then Ended else Top)
  }

  const START := System([], [], 1, Top, map[])

  /** One result each: sent already, or still owed to a child in the set. */
  ghost predicate Owed(system: System, id: nat) {
    Received(system.sent, id) + Awaiting(system.children, id)
    == if id in system.admitted && system.admitted[id] then 1 else 0
  }

  ghost predicate Invariant(system: System) {
    && |system.children| <= MAX_TRACKED_CHILDREN
    && (forall id :: Owed(system, id))
    && (match system.worker
        case Reading(accepting) => !accepting ==> system.handles == 0
        case Deciding(accepting, empty) => !accepting ==> system.handles == 0 && (empty ==> system.children == [])
        case Ended => system.handles == 0 && system.children == []
        case Top => true)
  }

  lemma StepKeepsOwed(system: System, action: Action, id: nat)
    requires Owed(system, id) && Enabled(system, action)
    ensures Owed(Step(system, action), id)
  {
    if action.Sweep? {
      PassAnswersOnce(system.children, action.answers, id);
      ReceivedAppend(system.sent, Results(system.children, action.answers), id);
    }
  }

  lemma StepKeeps(system: System, action: Action)
    requires Invariant(system) && Enabled(system, action)
    ensures Invariant(Step(system, action))
  {
    var next := Step(system, action);
    forall id
      ensures Owed(next, id)
    {
      StepKeepsOwed(system, action, id);
    }
    if action.Sweep? {
      PassAnswersOnce(system.children, action.answers, 0);
      assert |multiset(action.left)| == |action.left|;
    }
  }

  ghost predicate IsRun(systems: seq<System>, actions: seq<Action>) {
    && |systems| == |actions| + 1 && systems[0] == START
    && forall i :: 0 <= i < |actions| ==> Enabled(systems[i], actions[i]) && systems[i + 1] == Step(systems[i], actions[i])
  }

  lemma {:induction false} EveryRunKeeps(systems: seq<System>, actions: seq<Action>, n: nat)
    requires IsRun(systems, actions) && n < |systems|
    ensures Invariant(systems[n])
  {
    hide Step, Enabled;
    if n == 0 {
      assert forall id :: Owed(START, id);
    } else {
      EveryRunKeeps(systems, actions, n - 1);
      StepKeeps(systems[n - 1], actions[n - 1]);
    }
  }

  /**
  The set stays within its bound; a child is sent at most one result, so a channel of capacity
  one is empty whenever it is sent to; an observed child that left the set was sent exactly one.
  */
  lemma ExactlyOnce(systems: seq<System>, actions: seq<Action>, n: nat, id: nat)
    requires IsRun(systems, actions) && n < |systems|
    ensures |systems[n].children| <= 32
    ensures Received(systems[n].sent, id) <= 1
    ensures Tracked(id, true) in systems[n].children ==> Received(systems[n].sent, id) == 0
    ensures id in systems[n].admitted && systems[n].admitted[id] && id !in Ids(systems[n].children)
            ==> Received(systems[n].sent, id) == 1
  {
    EveryRunKeeps(systems, actions, n);
    assert Owed(systems[n], id);
    if Tracked(id, true) in systems[n].children {
      assert Tracked(id, true) in multiset(systems[n].children);
      var k :| 0 <= k < |systems[n].children| && systems[n].children[k] == Tracked(id, true);
      assert Ids(systems[n].children)[k] == id;
    } else {
      assert Tracked(id, true) !in multiset(systems[n].children);
    }
  }

  predicate WorkerMoves(action: Action) {
    action.Read? || action.Sweep? || action.Decide?
  }

  lemma {:induction false} WorkerStays(systems: seq<System>, actions: seq<Action>, from: nat, n: nat)
    requires IsRun(systems, actions) && from <= n < |systems|
    requires forall k :: from <= k < n ==> !WorkerMoves(actions[k])
    ensures systems[n].worker == systems[from].worker
  {
    if n > from {
      WorkerStays(systems, actions, from, n - 1);
      assert !WorkerMoves(actions[n - 1]);
    }
  }

  /** It does end: one round that finds nobody left to admit and leaves no child is its last. */
  lemma LastRoundEnds(systems: seq<System>, actions: seq<Action>, i: nat, j: nat, k: nat)
    requires IsRun(systems, actions) && i < j < k < |actions|
    requires actions[i].Read? && actions[j].Sweep? && actions[k].Decide?
    requires forall m :: i < m < k && m != j ==> !WorkerMoves(actions[m])
    ensures systems[k + 1].worker.Ended? <==> systems[i].handles == 0 && systems[j + 1].children == []
    ensures !systems[k + 1].worker.Ended? ==> systems[k + 1].worker.Top?
  {
    WorkerStays(systems, actions, i + 1, j);
    WorkerStays(systems, actions, j + 1, k);
  }

  /** The worker ends only over an empty set, and with nobody left who could admit another child. */
  lemma EndsEmptyForGood(systems: seq<System>, actions: seq<Action>, n: nat, action: Action)
    requires IsRun(systems, actions) && n < |systems| && systems[n].worker.Ended?
    ensures systems[n].children == [] && systems[n].handles == 0
    ensures !Enabled(systems[n], action)
  {
    EveryRunKeeps(systems, actions, n);
  }
}
