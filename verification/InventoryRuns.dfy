/**
Every run of the background inventory lane (src/runtime/inventory_pump.rs): the render thread
changes the watch set and drains exits, the observation thread dispatches rounds and completes
their jobs, in any order the lock allows. Beside the state of Inventory.dfy a system holds the
jobs that are out and what was observed so far.

A round's jobs are completed with the round's own time, as `run_round` does; between dispatch and
completion any other step may happen.
*/
module InventoryRuns {
  import opened Numbers
  import opened Wrappers
  import opened Inventory

  /** A job that is out; stale once its scope's list or the epoch changed after its dispatch. */
  datatype Flight = Flight(job: Job, at: nat, stale: bool)

  datatype System = System(
    state: State,
    flights: seq<Flight>,
    /** Exits queued so far, and those the render thread drained. */
    observed: seq<TerminalRef>,
    drained: seq<TerminalRef>,
    /** How often a watch list brought a terminal in. */
    entered: TerminalRef -> nat,
    /** When each generation was last dispatched. */
    dispatched: map<nat, nat>)

  datatype Action =
    | Rewatch(epoch: nat, terminals: seq<TerminalRef>, now: nat)
    | Dispatch(now: nat, jobs: seq<Job>)
    | Complete(index: nat, reply: Reply)
    | Drain(limit: nat)

  function ListOf(state: State, scope: Scope): Option<seq<TerminalRef>> {
    if scope in state.scopes then Some(state.scopes[scope].terminals) else None
  }

  predicate Changed(before: State, after: State, scope: Scope) {
    before.epoch != after.epoch || ListOf(before, scope) != ListOf(after, scope)
  }

  /** How many copies of a terminal are tracked. */
  function Count(state: State, terminal: TerminalRef): nat {
    if ScopeOf(terminal) in state.scopes then multiset(state.scopes[ScopeOf(terminal)].terminals)[terminal] else 0
  }

  function Gain(before: State, after: State, terminal: TerminalRef): nat {
    if Count(after, terminal) > Count(before, terminal) then Count(after, terminal) - Count(before, terminal) else 0
  }

  function Aged(flights: seq<Flight>, before: State, after: State): seq<Flight> {
    seq(|flights|, i requires 0 <= i < |flights| =>
      flights[i].(stale := flights[i].stale || Changed(before, after, flights[i].job.scope)))
  }

  function Departing(jobs: seq<Job>, now: nat): seq<Flight> {
    seq(|jobs|, i requires 0 <= i < |jobs| => Flight(jobs[i], now, false))
  }

  function Stamped(dispatched: map<nat, nat>, jobs: seq<Job>, now: nat): map<nat, nat> {
    if jobs == [] then dispatched
    else Stamped(dispatched, jobs[..|jobs| - 1], now)[jobs[|jobs| - 1].generation := now]
  }

  ghost predicate Enabled(system: System, action: Action) {
    match action
    case Dispatch(now, jobs) => JobsOf(system.state, now, jobs)
    case Complete(index, _) => index < |system.flights|
    case _ => true
  }

  function Step(system: System, action: Action): System
    requires action.Complete? ==> action.index < |system.flights|
  {
    var state := system.state;
    match action
    case Rewatch(epoch, terminals, now) =>
      var next := Watch(state, epoch, terminals, now);
      system.(state := next, flights := Aged(system.flights, state, next),
              entered := (terminal: TerminalRef) => system.entered(terminal) + Gain(state, next, terminal))
    case Dispatch(now, jobs) =>
      system.(state := BeginRound(state, now), flights := system.flights + Departing(jobs, now),
              dispatched := Stamped(system.dispatched, jobs, now))
    case Complete(index, reply) =>
      var flight := system.flights[index];
      var next := Apply(state, flight.job, reply, flight.at);
      system.(state := next, flights := system.flights[..index] + system.flights[index + 1..],
              observed := system.observed + Newly(state, next))
    case Drain(limit) =>
      system.(state := TakeExited(state, limit),
              drained := system.drained + state.exited[..Taken(state, limit)])
  }

  /** What a completion put behind the exits that were waiting. */
  function Newly(before: State, after: State): seq<TerminalRef> {
    if |before.exited| <= |after.exited| then after.exited[|before.exited|..] else []
  }

  // ---------------------------------------------------------------- grouping

  ghost predicate GroupsOk(groups: seq<Group>) {
    && |groups| <= MAX_SCOPES
    && (forall i, j :: 0 <= i < j < |groups| ==> groups[i].scope != groups[j].scope)
    && (forall i :: 0 <= i < |groups| ==> ListOk(groups[i].scope, groups[i].terminals))
  }

  ghost predicate ListOk(scope: Scope, terminals: seq<TerminalRef>) {
    |terminals| <= MAX_TERMINALS_PER_SCOPE && forall k :: 0 <= k < |terminals| ==> ScopeOf(terminals[k]) == scope
  }

  lemma {:induction false} GroupedOk(terminals: seq<TerminalRef>)
    ensures GroupsOk(Grouped(terminals))
  {
    if terminals != [] {
      GroupedOk(terminals[..|terminals| - 1]);
      AdmitOk(Grouped(terminals[..|terminals| - 1]), terminals[|terminals| - 1]);
    }
  }

  lemma AdmitOk(groups: seq<Group>, terminal: TerminalRef)
    requires GroupsOk(groups)
    ensures GroupsOk(Admit(groups, terminal))
  {
    hide IndexOf;
    var index := IndexOf(groups, ScopeOf(terminal));
    if index < |groups| && |groups[index].terminals| < MAX_TERMINALS_PER_SCOPE {
      assert ListOk(groups[index].scope, groups[index].terminals);
      assert ListOk(groups[index].scope, groups[index].terminals + [terminal]);
    } else if index == |groups| {
      assert ListOk(ScopeOf(terminal), [terminal]);
    }
  }

  function ScopesOf(groups: seq<Group>): set<Scope> {
    set group | group in groups :: group.scope
  }

  lemma {:induction false} FewScopes(groups: seq<Group>)
    ensures |ScopesOf(groups)| <= |groups|
  {
    if groups != [] {
      var init, last := groups[..|groups| - 1], groups[|groups| - 1];
      FewScopes(init);
      assert groups == init + [last];
      assert ScopesOf(groups) == ScopesOf(init) + {last.scope};
    }
  }

  lemma HasScopeIs(groups: seq<Group>, scope: Scope)
    ensures HasScope(groups, scope) <==> scope in ScopesOf(groups)
  {
    if HasScope(groups, scope) {
      assert groups[IndexOf(groups, scope)] in groups;
    }
    if scope in ScopesOf(groups) {
      var group :| group in groups && group.scope == scope;
      var i :| 0 <= i < |groups| && groups[i] == group;
    }
  }

  lemma {:induction false} FewKeys(small: set<Scope>, large: set<Scope>)
    requires small <= large
    ensures |small| <= |large|
  {
    if small != {} {
      var scope :| scope in small;
      FewKeys(small - {scope}, large - {scope});
    }
  }

  // ---------------------------------------------------------------- what `watch` does to a scope

  /** One scope's entry, and its generations, are in order. */
  ghost predicate TableOk(scopes: map<Scope, Watched>, nextGeneration: nat) {
    && (forall scope :: scope in scopes ==>
          scopes[scope].scope == scope && ListOk(scope, scopes[scope].terminals) && scopes[scope].generation <= nextGeneration)
    && (forall a, b :: a in scopes && b in scopes && a != b ==> scopes[a].generation != scopes[b].generation)
  }

  /** A scope's entry after `watch`, given its list and generation. */
  predicate Entered(before: State, after: Watched, epochChanged: bool, now: nat, scope: Scope) {
    && after.scope == scope
    && if scope !in before.scopes then
         after.due == now && after.failures == 0 && !after.inFlight
       else
         var known := before.scopes[scope];
         var changed := after.terminals != known.terminals || epochChanged;
         && after.due == (if epochChanged || HasNew(known.terminals, after.terminals) then now else known.due)
         && after.failures == (if epochChanged then 0 else known.failures)
         && after.inFlight == (known.inFlight && !changed)
         && (!changed ==> after.generation == known.generation)
  }

  /** A terminal of the new list is not on the old one. */
  predicate HasNew(tracked: seq<TerminalRef>, terminals: seq<TerminalRef>) {
    exists i :: 0 <= i < |terminals| && terminals[i] !in tracked
  }

  /** Kept exactly as it was, or under a generation no job was ever dispatched with. */
  ghost predicate Settled(before: State, after: Watched, terminals: seq<TerminalRef>, epochChanged: bool, now: nat, scope: Scope) {
    && after.terminals == terminals && Entered(before, after, epochChanged, now, scope)
    && if scope in before.scopes && before.scopes[scope].terminals == terminals && !epochChanged
       then after == before.scopes[scope]
       else after.generation > before.nextGeneration && !after.inFlight
  }

  ghost predicate Midway(before: State, table: Table, groups: seq<Group>, epochChanged: bool, now: nat, n: nat)
    requires n <= |groups|
  {
    && table.nextGeneration >= before.nextGeneration
    && TableOk(table.scopes, table.nextGeneration)
    && (forall i :: 0 <= i < n ==>
          groups[i].scope in table.scopes
          && Settled(before, table.scopes[groups[i].scope], groups[i].terminals, epochChanged, now, groups[i].scope))
    && (forall scope :: scope in table.scopes && (forall i :: 0 <= i < n ==> groups[i].scope != scope) ==>
          scope in before.scopes && table.scopes[scope] == before.scopes[scope])
    && table.scopes.Keys <= ScopesOf(groups)
    && (forall i :: n <= i < |groups| ==> (groups[i].scope in table.scopes <==> groups[i].scope in before.scopes))
  }

  lemma TableUpdateOk(scopes: map<Scope, Watched>, nextGeneration: nat, watched: Watched, next: nat)
    requires TableOk(scopes, nextGeneration) && nextGeneration <= next
    requires ListOk(watched.scope, watched.terminals) && watched.generation <= next
    requires watched.generation > nextGeneration
             || (watched.scope in scopes && watched.generation == scopes[watched.scope].generation)
    ensures TableOk(scopes[watched.scope := watched], next)
  {
    hide ListOk;
  }

  lemma WatchGroupMidway(before: State, table: Table, groups: seq<Group>, epochChanged: bool, now: nat, n: nat)
    requires GroupsOk(groups) && n < |groups| && Midway(before, table, groups, epochChanged, now, n)
    ensures Midway(before, WatchGroup(table, groups[n], epochChanged, now), groups, epochChanged, now, n + 1)
  {
    hide ListOk, TableOk, Settled;
    var group := groups[n];
    var next := WatchGroup(table, group, epochChanged, now);
    assert group.scope in ScopesOf(groups) by { assert group in groups; }
    EntryOk(table, group.scope);
    GroupOk(groups, n);
    GroupEffect(before, table, group, epochChanged, now);
    var watched := next.scopes[group.scope];
    assert next.scopes == table.scopes[group.scope := watched];
    TableUpdateOk(table.scopes, table.nextGeneration, watched, next.nextGeneration);
    MidwayStep(before, table, next, groups, epochChanged, now, n, watched);
  }

  lemma EntryOk(table: Table, scope: Scope)
    requires TableOk(table.scopes, table.nextGeneration)
    ensures scope in table.scopes ==>
              table.scopes[scope].scope == scope && table.scopes[scope].generation <= table.nextGeneration
  {
  }

  lemma GroupOk(groups: seq<Group>, n: nat)
    requires GroupsOk(groups) && n < |groups|
    ensures ListOk(groups[n].scope, groups[n].terminals)
  {
  }

  /** One group's entry, from the untouched entry of the same scope. */
  lemma GroupEffect(before: State, table: Table, group: Group, epochChanged: bool, now: nat)
    requires table.nextGeneration >= before.nextGeneration
    requires group.scope in table.scopes <==> group.scope in before.scopes
    requires group.scope in table.scopes ==> table.scopes[group.scope] == before.scopes[group.scope]
                                             && table.scopes[group.scope].scope == group.scope
                                             && table.scopes[group.scope].generation <= table.nextGeneration
    ensures var next := WatchGroup(table, group, epochChanged, now);
            && next.nextGeneration >= table.nextGeneration && group.scope in next.scopes
            && var watched := next.scopes[group.scope];
            && next.scopes == table.scopes[group.scope := watched]
            && watched.scope == group.scope && watched.terminals == group.terminals
            && watched.generation <= next.nextGeneration
            && (watched.generation > table.nextGeneration
                || (group.scope in table.scopes && watched.generation == table.scopes[group.scope].generation))
            && Settled(before, watched, group.terminals, epochChanged, now, group.scope)
  {
  }

  lemma MidwayStep(before: State, table: Table, next: Table, groups: seq<Group>, epochChanged: bool, now: nat, n: nat, watched: Watched)
    requires n < |groups| && Midway(before, table, groups, epochChanged, now, n)
    requires forall i :: 0 <= i < |groups| && i != n ==> groups[i].scope != groups[n].scope
    requires next.scopes == table.scopes[groups[n].scope := watched] && next.nextGeneration >= table.nextGeneration
    requires groups[n].scope in ScopesOf(groups)
    requires TableOk(next.scopes, next.nextGeneration)
    requires Settled(before, watched, groups[n].terminals, epochChanged, now, groups[n].scope)
    ensures Midway(before, next, groups, epochChanged, now, n + 1)
  {
    hide TableOk, Settled, ScopesOf;
  }

  lemma {:induction false} WatchGroupsMidway(before: State, groups: seq<Group>, epochChanged: bool, now: nat, n: nat)
    requires GroupsOk(groups) && n <= |groups| && TableOk(before.scopes, before.nextGeneration)
    ensures Midway(before,
                   WatchGroups(Table(Retained(before.scopes, groups), before.nextGeneration, false), groups[..n], epochChanged, now),
                   groups, epochChanged, now, n)
  {
    hide HasScope, GroupsOk, WatchGroup;
    if n == 0 {
      RetainedMidway(before, groups, epochChanged, now);
    } else {
      WatchGroupsMidway(before, groups, epochChanged, now, n - 1);
      assert groups[..n][..n - 1] == groups[..n - 1];
      var table := WatchGroups(Table(Retained(before.scopes, groups), before.nextGeneration, false), groups[..n - 1], epochChanged, now);
      WatchGroupMidway(before, table, groups, epochChanged, now, n - 1);
    }
  }

  lemma RetainedMidway(before: State, groups: seq<Group>, epochChanged: bool, now: nat)
    requires TableOk(before.scopes, before.nextGeneration)
    ensures Midway(before, Table(Retained(before.scopes, groups), before.nextGeneration, false), groups, epochChanged, now, 0)
  {
    hide HasScope;
    forall scope
      ensures HasScope(groups, scope) <==> scope in ScopesOf(groups)
    {
      HasScopeIs(groups, scope);
    }
    assert forall i :: 0 <= i < |groups| ==> groups[i].scope in ScopesOf(groups) by {
      assert forall i :: 0 <= i < |groups| ==> groups[i] in groups;
    }
  }

  /**
  `watch`, scope by scope: a watched scope whose list and epoch stay as they were is not touched
  at all; any other one is free and carries a generation no earlier job can hold.
  */
  lemma WatchEffect(state: State, epoch: nat, terminals: seq<TerminalRef>, now: nat)
    requires TableOk(state.scopes, state.nextGeneration)
    ensures var after := Watch(state, epoch, terminals, now);
            && after.nextGeneration >= state.nextGeneration
            && TableOk(after.scopes, after.nextGeneration)
            && |after.scopes| <= MAX_SCOPES
            && (forall scope :: scope in after.scopes ==>
                  if scope in state.scopes && !Changed(state, after, scope)
                  then after.scopes[scope] == state.scopes[scope]
                  else after.scopes[scope].generation > state.nextGeneration && !after.scopes[scope].inFlight)
  {
    hide WatchGroups, Grouped, Drops, TableOk, Midway, Retained;
    var groups := Grouped(terminals);
    GroupedOk(terminals);
    WatchGroupsMidway(state, groups, epoch != state.epoch, now, |groups|);
    assert groups[..|groups|] == groups;
    MidwayDone(state, WatchTable(state, epoch, terminals, now), groups, epoch, now, Watch(state, epoch, terminals, now));
  }

  lemma MidwayDone(state: State, table: Table, groups: seq<Group>, epoch: nat, now: nat, after: State)
    requires GroupsOk(groups) && Midway(state, table, groups, epoch != state.epoch, now, |groups|)
    requires after.scopes == table.scopes && after.nextGeneration == table.nextGeneration && after.epoch == epoch
    ensures after.nextGeneration >= state.nextGeneration
    ensures TableOk(after.scopes, after.nextGeneration)
    ensures |after.scopes| <= MAX_SCOPES
    ensures forall scope :: scope in after.scopes ==>
              if scope in state.scopes && !Changed(state, after, scope)
              then after.scopes[scope] == state.scopes[scope]
              else after.scopes[scope].generation > state.nextGeneration && !after.scopes[scope].inFlight
  {
    FewScopes(groups);
    FewKeys(after.scopes.Keys, ScopesOf(groups));
    forall scope | scope in after.scopes
      ensures if scope in state.scopes && !Changed(state, after, scope)
              then after.scopes[scope] == state.scopes[scope]
              else after.scopes[scope].generation > state.nextGeneration && !after.scopes[scope].inFlight
    {
      var group :| group in groups && group.scope == scope;
      var i :| 0 <= i < |groups| && groups[i] == group;
      assert Settled(state, table.scopes[groups[i].scope], groups[i].terminals, epoch != state.epoch, now, groups[i].scope);
    }
  }

  /** The entry of every scope that `watch` leaves watched, field by field. */
  lemma WatchEntry(state: State, epoch: nat, terminals: seq<TerminalRef>, now: nat, scope: Scope)
    requires TableOk(state.scopes, state.nextGeneration)
    ensures var after := Watch(state, epoch, terminals, now);
            scope in after.scopes ==> Entered(state, after.scopes[scope], epoch != state.epoch, now, scope)
  {
    hide Watch, Grouped, TableOk, Settled, Entered;
    var after := Watch(state, epoch, terminals, now);
    if scope in after.scopes {
      var i := WatchSettles(state, epoch, terminals, now, scope);
      SettledIsEntered(state, after.scopes[scope], Grouped(terminals)[i].terminals, epoch != state.epoch, now, scope);
    }
  }

  lemma SettledIsEntered(before: State, after: Watched, terminals: seq<TerminalRef>, epochChanged: bool, now: nat, scope: Scope)
    requires Settled(before, after, terminals, epochChanged, now, scope)
    ensures Entered(before, after, epochChanged, now, scope) && after.terminals == terminals
  {
    hide Entered;
  }

  /** A watched scope is one of the groups, and its entry is settled by that group. */
  lemma WatchSettles(state: State, epoch: nat, terminals: seq<TerminalRef>, now: nat, scope: Scope) returns (i: nat)
    requires TableOk(state.scopes, state.nextGeneration)
    requires scope in Watch(state, epoch, terminals, now).scopes
    ensures i < |Grouped(terminals)| && Grouped(terminals)[i].scope == scope
    ensures Settled(state, Watch(state, epoch, terminals, now).scopes[scope], Grouped(terminals)[i].terminals, epoch != state.epoch, now, scope)
  {
    hide WatchGroups, Grouped, Drops, TableOk, Retained, Settled, GroupsOk;
    var groups := Grouped(terminals);
    GroupedOk(terminals);
    WatchGroupsMidway(state, groups, epoch != state.epoch, now, |groups|);
    assert groups[..|groups|] == groups;
    i := GroupOf(groups, scope);
  }

  lemma GroupOf(groups: seq<Group>, scope: Scope) returns (i: nat)
    requires scope in ScopesOf(groups)
    ensures i < |groups| && groups[i].scope == scope
  {
    var group :| group in groups && group.scope == scope;
    i :| 0 <= i < |groups| && groups[i] == group;
  }

  /** Every group is watched, with its list. */
  lemma WatchKeepsGroup(state: State, epoch: nat, terminals: seq<TerminalRef>, now: nat, i: nat)
    requires TableOk(state.scopes, state.nextGeneration) && i < |Grouped(terminals)|
    ensures var after, group := Watch(state, epoch, terminals, now), Grouped(terminals)[i];
            group.scope in after.scopes && after.scopes[group.scope].terminals == group.terminals
  {
    hide WatchGroups, Grouped, Drops, TableOk, Retained, GroupsOk, Entered;
    var groups := Grouped(terminals);
    GroupedOk(terminals);
    WatchGroupsMidway(state, groups, epoch != state.epoch, now, |groups|);
    assert groups[..|groups|] == groups;
    var after := Watch(state, epoch, terminals, now);
    assert Settled(state, after.scopes[groups[i].scope], groups[i].terminals, epoch != state.epoch, now, groups[i].scope);
  }

  /**
  What is watched of a list: each scope's own terminals, in order, up to sixty-four of them; and
  where a scope that occurs is not watched, thirty-two others are.
  */
  lemma WatchesList(state: State, epoch: nat, terminals: seq<TerminalRef>, now: nat, scope: Scope)
    requires TableOk(state.scopes, state.nextGeneration)
    ensures var after := Watch(state, epoch, terminals, now);
            if scope in after.scopes then after.scopes[scope].terminals == FirstOf(Of(terminals, scope), 64) && Of(terminals, scope) != []
            else Of(terminals, scope) == [] || |Grouped(terminals)| == 32
  {
    hide Watch, Grouped, TableOk, Settled, Of, IndexOf;
    var groups, after := Grouped(terminals), Watch(state, epoch, terminals, now);
    GroupedExactly(terminals);
    if scope in after.scopes {
      var i := WatchSettles(state, epoch, terminals, now, scope);
      SettledIsEntered(state, after.scopes[scope], groups[i].terminals, epoch != state.epoch, now, scope);
    } else if HasScope(groups, scope) {
      WatchKeepsGroup(state, epoch, terminals, now, IndexOf(groups, scope));
    }
  }

  /** This group calls for an observation: its scope is new, a terminal arrived, or the epoch changed. */
  predicate Calls(before: State, scope: Scope, terminals: seq<TerminalRef>, epochChanged: bool) {
    scope !in before.scopes || epochChanged || HasNew(before.scopes[scope].terminals, terminals)
  }

  lemma {:induction false} GroupsCall(before: State, groups: seq<Group>, epochChanged: bool, now: nat, n: nat)
    requires GroupsOk(groups) && n <= |groups| && TableOk(before.scopes, before.nextGeneration)
    ensures var start := Table(Retained(before.scopes, groups), before.nextGeneration, false);
            WatchGroups(start, groups[..n], epochChanged, now).needsObservation
            <==> exists i :: 0 <= i < n && Calls(before, groups[i].scope, groups[i].terminals, epochChanged)
  {
    hide GroupsOk, TableOk, Midway, Retained, Calls, WatchGroup, WatchGroups;
    var start := Table(Retained(before.scopes, groups), before.nextGeneration, false);
    if n == 0 {
      WatchNoGroups(start, epochChanged, now);
      assert groups[..0] == [];
    } else {
      var table := WatchGroups(start, groups[..n - 1], epochChanged, now);
      GroupsCall(before, groups, epochChanged, now, n - 1);
      WatchGroupsMidway(before, groups, epochChanged, now, n - 1);
      MidwayNext(before, table, groups, epochChanged, now, n - 1);
      WatchGroupsSnoc(start, groups[..n - 1], groups[n - 1], epochChanged, now);
      assert groups[..n] == groups[..n - 1] + [groups[n - 1]];
      GroupCalls(before, table, groups[n - 1], epochChanged, now);
    }
  }

  lemma WatchNoGroups(table: Table, epochChanged: bool, now: nat)
    ensures WatchGroups(table, [], epochChanged, now) == table
  {
  }

  lemma WatchGroupsSnoc(table: Table, init: seq<Group>, last: Group, epochChanged: bool, now: nat)
    ensures WatchGroups(table, init + [last], epochChanged, now)
            == WatchGroup(WatchGroups(table, init, epochChanged, now), last, epochChanged, now)
  {
    assert (init + [last])[..|init|] == init;
  }

  /** The group that is next finds its scope as it was before the call. */
  lemma MidwayNext(before: State, table: Table, groups: seq<Group>, epochChanged: bool, now: nat, n: nat)
    requires GroupsOk(groups) && n < |groups| && Midway(before, table, groups, epochChanged, now, n)
    ensures var scope := groups[n].scope;
            && (scope in table.scopes <==> scope in before.scopes)
            && (scope in table.scopes ==> table.scopes[scope] == before.scopes[scope])
  {
    hide TableOk, Settled, ScopesOf, ListOk;
    ScopesApart(groups, n);
  }

  lemma ScopesApart(groups: seq<Group>, n: nat)
    requires GroupsOk(groups) && n < |groups|
    ensures forall i :: 0 <= i < n ==> groups[i].scope != groups[n].scope
  {
  }

  lemma GroupCalls(before: State, table: Table, group: Group, epochChanged: bool, now: nat)
    requires group.scope in table.scopes <==> group.scope in before.scopes
    requires group.scope in table.scopes ==> table.scopes[group.scope] == before.scopes[group.scope]
    ensures WatchGroup(table, group, epochChanged, now).needsObservation
            <==> table.needsObservation || Calls(before, group.scope, group.terminals, epochChanged)
  {
  }

  /**
  `watch` wakes the worker if and only if a scope it leaves watched is new, has a terminal that was
  not tracked before, or lives on under another epoch.
  */
  lemma WakesExactly(state: State, epoch: nat, terminals: seq<TerminalRef>, now: nat)
    requires TableOk(state.scopes, state.nextGeneration)
    ensures var after := Watch(state, epoch, terminals, now);
            WatchTable(state, epoch, terminals, now).needsObservation
            <==> exists scope :: scope in after.scopes && Calls(state, scope, after.scopes[scope].terminals, epoch != state.epoch)
  {
    hide WatchGroups, Grouped, Drops, TableOk, Retained, GroupsOk, Watch, Calls, Settled;
    var groups := Grouped(terminals);
    var after := Watch(state, epoch, terminals, now);
    GroupedOk(terminals);
    GroupsCall(state, groups, epoch != state.epoch, now, |groups|);
    assert groups[..|groups|] == groups;
    WatchTableIs(state, epoch, terminals, now);
    if i: nat :| i < |groups| && Calls(state, groups[i].scope, groups[i].terminals, epoch != state.epoch) {
      WatchKeepsGroup(state, epoch, terminals, now, i);
      assert groups[i].scope in after.scopes;
    }
    if scope :| scope in after.scopes && Calls(state, scope, after.scopes[scope].terminals, epoch != state.epoch) {
      var i := WatchSettles(state, epoch, terminals, now, scope);
      SettledIsEntered(state, after.scopes[scope], groups[i].terminals, epoch != state.epoch, now, scope);
    }
  }

  lemma WatchTableIs(state: State, epoch: nat, terminals: seq<TerminalRef>, now: nat)
    ensures WatchTable(state, epoch, terminals, now)
            == WatchGroups(Table(Retained(state.scopes, Grouped(terminals)), state.nextGeneration, false), Grouped(terminals), epoch != state.epoch, now)
  {
  }

  /**
  A call that does not wake the worker brings in no scope and moves no due time, and where no slot
  was taken it makes nothing dispatchable that was not so before: sleeping on misses nothing.
  */
  lemma QuietWatchAddsNothing(state: State, epoch: nat, terminals: seq<TerminalRef>, now: nat, later: nat)
    requires TableOk(state.scopes, state.nextGeneration)
    requires !WatchTable(state, epoch, terminals, now).needsObservation
    ensures var after := Watch(state, epoch, terminals, now);
            && (forall scope :: scope in after.scopes ==>
                  scope in state.scopes && after.scopes[scope].due == state.scopes[scope].due)
            && ((forall scope :: scope in state.scopes ==> !state.scopes[scope].inFlight) ==>
                  DueScopes(after, later) <= DueScopes(state, later))
  {
    hide WatchTable, Watch, TableOk;
    var after := Watch(state, epoch, terminals, now);
    WakesExactly(state, epoch, terminals, now);
    forall scope | scope in after.scopes
      ensures scope in state.scopes && after.scopes[scope].due == state.scopes[scope].due
    {
      assert !Calls(state, scope, after.scopes[scope].terminals, epoch != state.epoch);
      WatchEntry(state, epoch, terminals, now, scope);
    }
  }

  // ---------------------------------------------------------------- what a sweep does to a list

  lemma SweptSnoc(init: seq<TerminalRef>, last: TerminalRef, entries: seq<Entry>, waiting: nat)
    ensures var before, sweep := Swept(init, entries, waiting), Swept(init + [last], entries, waiting);
            if Dead(entries, last) && waiting + |before.queued| < MAX_QUEUED_EXITS
            then sweep.still == before.still && sweep.queued == before.queued + [last]
            else sweep.still == before.still + [last] && sweep.queued == before.queued
    ensures Swept([], entries, waiting) == Sweep([], [], 0)
  {
    hide Dead;
    assert (init + [last])[..|init|] == init;
  }

  lemma {:induction false} SweptSplits(terminals: seq<TerminalRef>, entries: seq<Entry>, waiting: nat)
    ensures var sweep := Swept(terminals, entries, waiting);
            && multiset(terminals) == multiset(sweep.still) + multiset(sweep.queued)
            && |sweep.still| + |sweep.queued| == |terminals|
            && (forall k :: 0 <= k < |sweep.queued| ==> ListedDead(entries, sweep.queued[k]))
            && (forall k :: 0 <= k < |sweep.still| ==> sweep.still[k] in terminals)
            && (waiting <= MAX_QUEUED_EXITS ==> waiting + |sweep.queued| <= MAX_QUEUED_EXITS)
  {
    hide Dead, ListedDead, Swept;
    DeadAreListedDead(entries);
    if terminals == [] {
      SweptSnoc([], TerminalRef(0, 0, 0, None, 0), entries, waiting);
    } else {
      var init, last := terminals[..|terminals| - 1], terminals[|terminals| - 1];
      SweptSplits(init, entries, waiting);
      SweptSnoc(init, last, entries, waiting);
      assert terminals == init + [last];
    }
  }

  /** A sweep leaves a dead terminal tracked only behind a full queue. */
  lemma {:induction false} SweptReports(terminals: seq<TerminalRef>, entries: seq<Entry>, waiting: nat)
    ensures var sweep := Swept(terminals, entries, waiting);
            && (waiting + |sweep.queued| < MAX_QUEUED_EXITS ==>
                  sweep.drops == 0 && forall k :: 0 <= k < |sweep.still| ==> !ListedDead(entries, sweep.still[k]))
            && (forall k :: 0 <= k < |terminals| && !ListedDead(entries, terminals[k]) ==> terminals[k] in sweep.still)
  {
    hide Dead, ListedDead;
    DeadAreListedDead(entries);
    if terminals != [] {
      var init, last := terminals[..|terminals| - 1], terminals[|terminals| - 1];
      SweptReports(init, entries, waiting);
      var before, sweep := Swept(init, entries, waiting), Swept(terminals, entries, waiting);
      assert before.still <= sweep.still;
      forall k | 0 <= k < |terminals| && !ListedDead(entries, terminals[k])
        ensures terminals[k] in sweep.still
      {
        if k < |init| {
          assert terminals[k] == init[k];
        } else {
          assert sweep.still[|sweep.still| - 1] == last;
        }
      }
    }
  }

  /**
  No exit is lost to the bounded queue. Two replies to an unchanged list of up to sixty-four
  terminals, the queue drained before each, between them report every terminal that both list
  as dead; and what they do not report is still tracked.
  */
  lemma TwoRepliesReportAll(terminals: seq<TerminalRef>, first: seq<Entry>, second: seq<Entry>, terminal: TerminalRef)
    requires |terminals| <= MAX_TERMINALS_PER_SCOPE && terminal in terminals
    ensures var one := Swept(terminals, first, 0);
            var two := Swept(one.still, second, 0);
            && (ListedDead(first, terminal) && ListedDead(second, terminal) ==> terminal in one.queued || terminal in two.queued)
            && (terminal in one.queued || terminal in two.queued || terminal in two.still)
  {
    hide Dead, ListedDead;
    var one := Swept(terminals, first, 0);
    var two := Swept(one.still, second, 0);
    SweptSplits(terminals, first, 0);
    SweptSplits(one.still, second, 0);
    SweptReports(terminals, first, 0);
    SweptReports(one.still, second, 0);
    assert terminal in multiset(terminals);
    if terminal !in one.queued {
      assert terminal in multiset(one.still);
      if terminal !in two.queued {
        assert terminal in multiset(two.still);
        var k :| 0 <= k < |two.still| && two.still[k] == terminal;
        var m :| 0 <= m < |one.still| && one.still[m] == terminal;
      }
    }
  }

  /**
  The same over the lane's state: two rounds of one scope whose list nobody changed in between,
  whatever happens to the other scopes, the epoch, the metrics and the cadence.
  */
  lemma TwoRoundsReportAll(state: State, between: State, job: Job, again: Job, first: seq<Entry>, second: seq<Entry>,
                           now: nat, later: nat, terminal: TerminalRef)
    requires Current(state, job) && Current(between, again) && again.scope == job.scope
    requires state.exited == [] && between.exited == []
    requires forall i :: 0 <= i < |first| ==> Belongs(first[i].terminal, job.scope)
    requires forall i :: 0 <= i < |second| ==> Belongs(second[i].terminal, job.scope)
    requires |state.scopes[job.scope].terminals| <= MAX_TERMINALS_PER_SCOPE && terminal in state.scopes[job.scope].terminals
    requires between.scopes[job.scope].terminals == Apply(state, job, Listed(first), now).scopes[job.scope].terminals
    ensures var one, two := Apply(state, job, Listed(first), now), Apply(between, again, Listed(second), later);
            && (ListedDead(first, terminal) && ListedDead(second, terminal) ==> terminal in one.exited || terminal in two.exited)
            && (terminal in one.exited || terminal in two.exited || terminal in two.scopes[job.scope].terminals)
  {
    hide Swept, Dead, ListedDead, Rest;
    InScopeIsBelonging(first, job.scope);
    InScopeIsBelonging(second, job.scope);
    var terminals := state.scopes[job.scope].terminals;
    TwoRepliesReportAll(terminals, first, second, terminal);
    var one := Swept(terminals, first, 0);
    var two := Swept(one.still, second, 0);
    assert [] + one.queued == one.queued && [] + two.queued == two.queued;
  }

  lemma {:induction false} SweptAllDead(terminals: seq<TerminalRef>, entries: seq<Entry>)
    requires forall k :: 0 <= k < |terminals| ==> ListedDead(entries, terminals[k])
    ensures var count := if |terminals| < MAX_QUEUED_EXITS then |terminals| else MAX_QUEUED_EXITS;
            && Swept(terminals, entries, 0).queued == terminals[..count]
            && Swept(terminals, entries, 0).still == terminals[count..]
  {
    hide Dead, ListedDead;
    DeadAreListedDead(entries);
    if terminals != [] {
      var init, last := terminals[..|terminals| - 1], terminals[|terminals| - 1];
      SweptAllDead(init, entries);
      assert terminals == init + [last];
    }
  }

  lemma AdmitAlone(init: seq<TerminalRef>, last: TerminalRef, scope: Scope)
    requires ScopeOf(last) == scope && |init| < MAX_TERMINALS_PER_SCOPE
    ensures Admit(if init == [] then [] else [Group(scope, init)], last) == [Group(scope, init + [last])]
  {
    if init == [] {
      assert init + [last] == [last];
    }
  }

  lemma {:induction false} GroupedAlone(terminals: seq<TerminalRef>, scope: Scope)
    requires 1 <= |terminals| && ListOk(scope, terminals)
    ensures Grouped(terminals) == [Group(scope, terminals)]
  {
    hide Grouped, Admit;
    var init, last := terminals[..|terminals| - 1], terminals[|terminals| - 1];
    assert terminals == init + [last];
    GroupedSnoc(init, last);
    AdmitAlone(init, last, scope);
    if init != [] {
      GroupedAlone(init, scope);
    }
  }

  /** A free and due scope whose whole list is watched, with the queue drained. */
  ghost predicate Watching(state: State, scope: Scope, terminals: seq<TerminalRef>, now: nat) {
    && TableOk(state.scopes, state.nextGeneration) && state.exited == []
    && scope in state.scopes && state.scopes[scope].terminals == terminals && Free(state.scopes[scope], now)
  }

  /** One round of a scope, a drain of all it queued, and the same list watched again. */
  function Cycle(state: State, scope: Scope, terminals: seq<TerminalRef>, entries: seq<Entry>, now: nat): (next: (seq<TerminalRef>, State))
    requires scope in state.scopes
  {
    var begun := BeginRound(state, now);
    var done := Apply(begun, JobOf(begun, scope), Listed(entries), now);
    (done.exited, Watch(TakeExited(done, MAX_QUEUED_EXITS), state.epoch, terminals, now))
  }

  /**
  The limit of that promise. Watching the full list again tracks reported terminals again, so if
  the render thread keeps doing so, every round of an all-dead list reports the same terminals,
  the first thirty-two, and leaves the lane as it was: beyond thirty-two the rest never get their
  turn. A list of up to thirty-two is reported whole by every round.
  */
  lemma RewatchingStarves(state: State, scope: Scope, terminals: seq<TerminalRef>, entries: seq<Entry>, now: nat)
    requires Watching(state, scope, terminals, now) && terminals != []
    requires forall i :: 0 <= i < |entries| ==> Belongs(entries[i].terminal, scope)
    requires forall k :: 0 <= k < |terminals| ==> ListedDead(entries, terminals[k])
    requires forall i, j :: 0 <= i < j < |terminals| ==> terminals[i] != terminals[j]
    ensures var next := Cycle(state, scope, terminals, entries, now);
            && next.0 == terminals[..if |terminals| < 32 then |terminals| else 32]
            && Watching(next.1, scope, terminals, now)
  {
    hide Watch, TableOk, Swept, ListedDead, Rest, Grouped;
    InScopeIsBelonging(entries, scope);
    var begun := BeginRound(state, now);
    RoundTableOk(state, now);
    var job := JobOf(begun, scope);
    var done := Apply(begun, job, Listed(entries), now);
    ApplyFrame(begun, job, Listed(entries), now);
    SweptAllDead(terminals, entries);
    var queued := Swept(terminals, entries, 0).queued;
    assert [] + queued == queued;
    var drained := TakeExited(done, MAX_QUEUED_EXITS);
    ListIsOk(state, scope);
    GroupedAlone(terminals, scope);
    WatchEntry(drained, state.epoch, terminals, now, scope);
    WatchKeepsGroup(drained, state.epoch, terminals, now, 0);
    WatchEffect(drained, state.epoch, terminals, now);
    WatchFrame(drained, state.epoch, terminals, now);
    assert Grouped(terminals)[0].scope == scope;
    assert Arrived(drained.scopes[scope], terminals) by {
      assert terminals[0] !in drained.scopes[scope].terminals;
    }
  }

  /** It happens to any such list from its first watch on: the rest of sixty-four never gets its turn. */
  lemma StarvingStarts(scope: Scope, terminals: seq<TerminalRef>, now: nat)
    requires terminals != [] && ListOk(scope, terminals)
    ensures Watching(Watch(INITIAL, 0, terminals, now), scope, terminals, now)
  {
    hide Watch, Grouped;
    GroupedAlone(terminals, scope);
    var after := Watch(INITIAL, 0, terminals, now);
    WatchEffect(INITIAL, 0, terminals, now);
    WatchEntry(INITIAL, 0, terminals, now, scope);
    WatchKeepsGroup(INITIAL, 0, terminals, now, 0);
    WatchFrame(INITIAL, 0, terminals, now);
  }

  lemma ListIsOk(state: State, scope: Scope)
    requires TableOk(state.scopes, state.nextGeneration) && scope in state.scopes
    ensures ListOk(scope, state.scopes[scope].terminals)
  {
  }

  // ---------------------------------------------------------------- invariants

  /** Bounds of the state, and distinct generations in the table. */
  ghost predicate BoundsOk(system: System) {
    && TableOk(system.state.scopes, system.state.nextGeneration)
    && |system.state.scopes| <= MAX_SCOPES
    && |system.state.exited| <= MAX_QUEUED_EXITS
  }

  /** The generation alone is a sound fence: whoever carries it has the job's scope and epoch. */
  ghost predicate Fenced(state: State, job: Job) {
    && job.generation <= state.nextGeneration
    && forall scope :: scope in state.scopes && state.scopes[scope].generation == job.generation ==>
         scope == job.scope && state.epoch == job.epoch
  }

  /** Jobs that are out: a job can complete its scope exactly while nothing it asked about changed. */
  ghost predicate FlightsOk(system: System) {
    && (forall i :: 0 <= i < |system.flights| ==>
          Fenced(system.state, system.flights[i].job)
          && (system.flights[i].stale <==> !Current(system.state, system.flights[i].job)))
    && (forall i, j :: 0 <= i < j < |system.flights| ==>
          system.flights[i].job.generation != system.flights[j].job.generation)
  }

  ghost predicate Out(system: System, job: Job) {
    exists i :: 0 <= i < |system.flights| && system.flights[i].job == job
  }

  /** A slot is taken exactly while the job that took it is out. */
  ghost predicate SlotsOk(system: System) {
    forall scope :: scope in system.state.scopes ==>
      (system.state.scopes[scope].inFlight <==> Out(system, JobOf(system.state, scope)))
  }

  /** Every free scope that was dispatched under its generation rests from that dispatch on. */
  ghost predicate RestsOk(system: System) {
    && (forall i :: 0 <= i < |system.flights| ==>
          system.flights[i].job.generation in system.dispatched
          && system.dispatched[system.flights[i].job.generation] == system.flights[i].at)
    && (forall generation :: generation in system.dispatched ==> generation <= system.state.nextGeneration)
    && (forall scope :: scope in system.state.scopes ==> Rested(system, system.state.scopes[scope]))
  }

  ghost predicate Rested(system: System, watched: Watched) {
    watched.generation in system.dispatched && !watched.inFlight ==>
      watched.due == system.dispatched[watched.generation] + Rest(watched.failures)
  }

  /** Exits: what was observed is what was drained and what is queued, never more than came in. */
  ghost predicate ExitsOk(system: System) {
    && system.observed == system.drained + system.state.exited
    && system.state.metrics.exitsObserved == |system.observed|
    && forall terminal :: Balanced(system, terminal)
  }

  ghost predicate Balanced(system: System, terminal: TerminalRef) {
    multiset(system.observed)[terminal] + Count(system.state, terminal) <= system.entered(terminal)
  }

  ghost predicate Invariant(system: System) {
    BoundsOk(system) && FlightsOk(system) && SlotsOk(system) && RestsOk(system) && ExitsOk(system)
  }

  const START := System(INITIAL, [], [], [], _ => 0, map[])

  lemma StartOk()
    ensures Invariant(START)
  {
    assert multiset(START.observed) == multiset{};
  }

  // ---------------------------------------------------------------- watch

  lemma RewatchKeepsFlights(system: System, action: Action)
    requires action.Rewatch? && BoundsOk(system) && FlightsOk(system)
    ensures FlightsOk(Step(system, action)) && BoundsOk(Step(system, action))
  {
    hide Watch, TableOk;
    var before, after := system.state, Watch(system.state, action.epoch, action.terminals, action.now);
    WatchEffect(before, action.epoch, action.terminals, action.now);
    WatchFrame(before, action.epoch, action.terminals, action.now);
    var flights := Aged(system.flights, before, after);
    forall i | 0 <= i < |flights|
      ensures Fenced(after, flights[i].job) && (flights[i].stale <==> !Current(after, flights[i].job))
    {
      assert flights[i].job == system.flights[i].job;
      assert Fenced(before, system.flights[i].job);
    }
  }

  lemma WatchFrame(state: State, epoch: nat, terminals: seq<TerminalRef>, now: nat)
    ensures var after := Watch(state, epoch, terminals, now);
            after.epoch == epoch && after.exited == state.exited && after.metrics.exitsObserved == state.metrics.exitsObserved
  {
  }

  lemma RewatchKeepsSlots(system: System, action: Action)
    requires action.Rewatch? && BoundsOk(system) && FlightsOk(system) && SlotsOk(system) && RestsOk(system)
    ensures SlotsOk(Step(system, action)) && RestsOk(Step(system, action))
  {
    hide Watch, TableOk, Rest;
    var before, after := system.state, Watch(system.state, action.epoch, action.terminals, action.now);
    WatchEffect(before, action.epoch, action.terminals, action.now);
    WatchFrame(before, action.epoch, action.terminals, action.now);
    var next := Step(system, action);
    assert forall i :: 0 <= i < |next.flights| ==> next.flights[i].job == system.flights[i].job;
    forall scope | scope in after.scopes
      ensures after.scopes[scope].inFlight <==> Out(next, JobOf(after, scope))
      ensures Rested(next, after.scopes[scope])
    {
      var job := JobOf(after, scope);
      if scope in before.scopes && !Changed(before, after, scope) {
        assert job == JobOf(before, scope);
        assert Out(next, job) <==> Out(system, job);
        assert Rested(system, before.scopes[scope]);
      } else {
        forall i | 0 <= i < |next.flights|
          ensures next.flights[i].job != job
        {
          assert Fenced(before, system.flights[i].job);
        }
      }
    }
  }

  lemma RewatchKeepsExits(system: System, action: Action)
    requires action.Rewatch? && ExitsOk(system)
    ensures ExitsOk(Step(system, action))
  {
    hide Watch;
    WatchFrame(system.state, action.epoch, action.terminals, action.now);
    var next := Step(system, action);
    forall terminal
      ensures Balanced(next, terminal)
    {
      assert Balanced(system, terminal);
    }
  }

  // ---------------------------------------------------------------- dispatch

  ghost predicate Carries(jobs: seq<Job>, generation: nat) {
    exists i :: 0 <= i < |jobs| && jobs[i].generation == generation
  }

  lemma CarriesSnoc(init: seq<Job>, last: Job, generation: nat)
    ensures Carries(init + [last], generation) <==> Carries(init, generation) || last.generation == generation
    ensures !Carries([], generation)
  {
    var jobs := init + [last];
    assert jobs[|init|] == last;
    assert forall i :: 0 <= i < |init| ==> jobs[i] == init[i];
  }

  lemma StampedSnoc(dispatched: map<nat, nat>, init: seq<Job>, last: Job, now: nat)
    ensures Stamped(dispatched, init + [last], now) == Stamped(dispatched, init, now)[last.generation := now]
    ensures Stamped(dispatched, [], now) == dispatched
  {
    assert (init + [last])[..|init|] == init;
  }

  /** The stamp of one generation: this round's, if one of its jobs carries it. */
  lemma {:induction false} StampedAt(dispatched: map<nat, nat>, jobs: seq<Job>, now: nat, generation: nat)
    ensures var stamped := Stamped(dispatched, jobs, now);
            && (generation in stamped <==> generation in dispatched || Carries(jobs, generation))
            && (generation in stamped ==>
                  stamped[generation] == if Carries(jobs, generation) then now else dispatched[generation])
  {
    hide Stamped, Carries;
    if jobs == [] {
      StampedSnoc(dispatched, [], Job(Scope(0, None, 0), 0, 0), now);
      CarriesSnoc([], Job(Scope(0, None, 0), 0, 0), generation);
    } else {
      var init, last := jobs[..|jobs| - 1], jobs[|jobs| - 1];
      assert jobs == init + [last];
      StampedAt(dispatched, init, now, generation);
      StampedSnoc(dispatched, init, last, now);
      CarriesSnoc(init, last, generation);
    }
  }

  lemma StampedIs(dispatched: map<nat, nat>, jobs: seq<Job>, now: nat)
    ensures var stamped := Stamped(dispatched, jobs, now);
            && (forall i :: 0 <= i < |jobs| ==> jobs[i].generation in stamped && stamped[jobs[i].generation] == now)
            && (forall g :: g in dispatched && (forall i :: 0 <= i < |jobs| ==> jobs[i].generation != g) ==>
                  g in stamped && stamped[g] == dispatched[g])
            && (forall g :: g in stamped ==> g in dispatched || exists i :: 0 <= i < |jobs| && jobs[i].generation == g)
  {
    hide Stamped;
    forall g
      ensures var stamped := Stamped(dispatched, jobs, now);
              && (g in stamped <==> g in dispatched || Carries(jobs, g))
              && (g in stamped ==> stamped[g] == if Carries(jobs, g) then now else dispatched[g])
    {
      StampedAt(dispatched, jobs, now, g);
    }
    forall i | 0 <= i < |jobs|
      ensures Carries(jobs, jobs[i].generation)
    {
    }
  }

  /** What a round leaves alone, and what its jobs carry. */
  lemma RoundFrame(state: State, now: nat, jobs: seq<Job>)
    requires TableOk(state.scopes, state.nextGeneration) && JobsOf(state, now, jobs)
    ensures var after := BeginRound(state, now);
            && after.epoch == state.epoch && after.nextGeneration == state.nextGeneration && after.exited == state.exited
            && after.metrics.exitsObserved == state.metrics.exitsObserved
            && after.scopes.Keys == state.scopes.Keys
            && (forall scope :: scope in state.scopes ==>
                  after.scopes[scope] == state.scopes[scope].(inFlight := state.scopes[scope].inFlight || Free(state.scopes[scope], now)))
            && (forall i :: 0 <= i < |jobs| ==>
                  jobs[i].scope in state.scopes && Free(state.scopes[jobs[i].scope], now) && jobs[i] == JobOf(after, jobs[i].scope)
                  && Current(after, jobs[i]) && Fenced(after, jobs[i]))
            && (forall i, j :: 0 <= i < j < |jobs| ==> jobs[i].generation != jobs[j].generation)
            && (forall scope :: scope in state.scopes && Free(state.scopes[scope], now) ==> JobOf(after, scope) in jobs)
  {
    var after := BeginRound(state, now);
    forall i | 0 <= i < |jobs|
      ensures jobs[i].scope in state.scopes && Free(state.scopes[jobs[i].scope], now) && jobs[i] == JobOf(after, jobs[i].scope)
      ensures Current(after, jobs[i]) && Fenced(after, jobs[i])
    {
      assert jobs[i].scope in DueScopes(state, now);
    }
    forall scope | scope in state.scopes && Free(state.scopes[scope], now)
      ensures JobOf(after, scope) in jobs
    {
      assert scope in DueScopes(state, now);
    }
  }

  /** A free scope's job is never out already: a round cannot double a request. */
  lemma NoJobTwice(system: System, now: nat, jobs: seq<Job>, i: nat, k: nat)
    requires BoundsOk(system) && FlightsOk(system) && SlotsOk(system) && JobsOf(system.state, now, jobs)
    requires i < |system.flights| && k < |jobs|
    ensures system.flights[i].job.generation != jobs[k].generation
  {
    var state := system.state;
    assert jobs[k].scope in DueScopes(state, now);
    assert Fenced(state, system.flights[i].job);
    assert !Out(system, JobOf(state, jobs[k].scope));
    assert system.flights[i].job != JobOf(state, jobs[k].scope);
  }

  lemma DispatchKeepsGenerationsApart(system: System, action: Action)
    requires action.Dispatch? && Enabled(system, action)
    requires BoundsOk(system) && FlightsOk(system) && SlotsOk(system)
    ensures var flights := Step(system, action).flights;
            forall i, j :: 0 <= i < j < |flights| ==> flights[i].job.generation != flights[j].job.generation
  {
    hide BeginRound, JobsOf, BoundsOk, SlotsOk;
    RoundApart(system, action.now, action.jobs);
    var flights := Step(system, action).flights;
    var n := |system.flights|;
    forall i, j | 0 <= i < j < |flights|
      ensures flights[i].job.generation != flights[j].job.generation
    {
      if i < n <= j {
        NoJobTwice(system, action.now, action.jobs, i, j - n);
      } else if n <= i {
        assert action.jobs[i - n].generation != action.jobs[j - n].generation;
      }
    }
  }

  lemma RoundApart(system: System, now: nat, jobs: seq<Job>)
    requires BoundsOk(system) && JobsOf(system.state, now, jobs)
    ensures forall i, j :: 0 <= i < j < |jobs| ==> jobs[i].generation != jobs[j].generation
  {
    RoundFrame(system.state, now, jobs);
  }

  /** A round changes no fence, and keeps the table sound. */
  lemma RoundKeepsFences(state: State, now: nat, jobs: seq<Job>)
    requires TableOk(state.scopes, state.nextGeneration) && JobsOf(state, now, jobs)
    ensures var after := BeginRound(state, now);
            && (forall job :: Fenced(after, job) <==> Fenced(state, job))
            && (forall job :: Current(after, job) <==> Current(state, job))
            && TableOk(after.scopes, after.nextGeneration) && |after.scopes| == |state.scopes|
  {
    hide BeginRound, JobsOf;
    RoundFrame(state, now, jobs);
    var after := BeginRound(state, now);
    assert |after.scopes| == |after.scopes.Keys| && |state.scopes| == |state.scopes.Keys|;
  }

  /** The jobs of a round are current and fenced, and the round keeps the bounds. */
  lemma RoundJobsAreCurrent(state: State, now: nat, jobs: seq<Job>)
    requires TableOk(state.scopes, state.nextGeneration) && JobsOf(state, now, jobs)
    ensures var after := BeginRound(state, now);
            && (forall i :: 0 <= i < |jobs| ==> Current(after, jobs[i]) && Fenced(after, jobs[i]))
            && after.exited == state.exited
  {
    hide BeginRound, JobsOf, Fenced, Current;
    RoundFrame(state, now, jobs);
  }

  lemma DispatchKeepsFlights(system: System, action: Action)
    requires action.Dispatch? && Enabled(system, action)
    requires BoundsOk(system) && FlightsOk(system) && SlotsOk(system)
    ensures FlightsOk(Step(system, action)) && BoundsOk(Step(system, action))
  {
    hide BeginRound, JobsOf, SlotsOk, Fenced, Current, TableOk, Stamped;
    DispatchKeepsGenerationsApart(system, action);
    var state, after := system.state, BeginRound(system.state, action.now);
    RoundKeepsFences(state, action.now, action.jobs);
    RoundJobsAreCurrent(state, action.now, action.jobs);
    var next := Step(system, action);
    var n := |system.flights|;
    forall i | 0 <= i < |next.flights|
      ensures Fenced(after, next.flights[i].job) && (next.flights[i].stale <==> !Current(after, next.flights[i].job))
    {
      if i < n {
        assert next.flights[i] == system.flights[i];
      } else {
        assert next.flights[i] == Flight(action.jobs[i - n], action.now, false);
      }
    }
  }

  /** After a round a job is out if it was before, or is one of the round's. */
  lemma OutAfterRound(system: System, action: Action, job: Job)
    requires action.Dispatch? && Enabled(system, action)
    ensures Out(Step(system, action), job) <==> Out(system, job) || job in action.jobs
  {
    hide BeginRound, JobsOf;
    var next := Step(system, action);
    var n := |system.flights|;
    if Out(system, job) {
      var i :| 0 <= i < n && system.flights[i].job == job;
      assert next.flights[i].job == job;
    }
    if job in action.jobs {
      var k :| 0 <= k < |action.jobs| && action.jobs[k] == job;
      assert next.flights[n + k].job == job;
    }
    if Out(next, job) {
      var i :| 0 <= i < |next.flights| && next.flights[i].job == job;
      assert i < n ==> system.flights[i].job == job;
      assert i >= n ==> action.jobs[i - n] == job;
    }
  }

  lemma DispatchKeepsSlots(system: System, action: Action)
    requires action.Dispatch? && Enabled(system, action) && BoundsOk(system) && SlotsOk(system)
    ensures SlotsOk(Step(system, action))
  {
    hide BeginRound, JobsOf, TableOk, Fenced, Current, Out, Free;
    var state, after := system.state, BeginRound(system.state, action.now);
    RoundFrame(state, action.now, action.jobs);
    var next := Step(system, action);
    forall scope | scope in after.scopes
      ensures after.scopes[scope].inFlight <==> Out(next, JobOf(after, scope))
    {
      var job := JobOf(after, scope);
      assert job == JobOf(state, scope);
      OutAfterRound(system, action, job);
    }
  }

  lemma DispatchStampsFlights(system: System, action: Action)
    requires action.Dispatch? && Enabled(system, action)
    requires BoundsOk(system) && FlightsOk(system) && SlotsOk(system) && RestsOk(system)
    ensures var next := Step(system, action);
            forall i :: 0 <= i < |next.flights| ==>
              next.flights[i].job.generation in next.dispatched
              && next.dispatched[next.flights[i].job.generation] == next.flights[i].at
  {
    hide BeginRound, JobsOf, Stamped, BoundsOk, FlightsOk, SlotsOk, Rested;
    StampedIs(system.dispatched, action.jobs, action.now);
    var next := Step(system, action);
    var n := |system.flights|;
    forall i | 0 <= i < |next.flights|
      ensures next.flights[i].job.generation in next.dispatched
      ensures next.dispatched[next.flights[i].job.generation] == next.flights[i].at
    {
      if i < n {
        forall k | 0 <= k < |action.jobs|
          ensures action.jobs[k].generation != system.flights[i].job.generation
        {
          NoJobTwice(system, action.now, action.jobs, i, k);
        }
      } else {
        assert next.flights[i] == Flight(action.jobs[i - n], action.now, false);
      }
    }
  }

  lemma {:induction false} StampedBound(dispatched: map<nat, nat>, jobs: seq<Job>, now: nat, bound: nat)
    requires forall g :: g in dispatched ==> g <= bound
    requires forall k :: 0 <= k < |jobs| ==> jobs[k].generation <= bound
    ensures forall g :: g in Stamped(dispatched, jobs, now) ==> g <= bound
  {
    if jobs != [] {
      StampedBound(dispatched, jobs[..|jobs| - 1], now, bound);
    }
  }

  lemma DispatchKeepsRested(system: System, action: Action, scope: Scope)
    requires action.Dispatch? && Enabled(system, action)
    requires BoundsOk(system) && scope in system.state.scopes && Rested(system, system.state.scopes[scope])
    ensures scope in Step(system, action).state.scopes
    ensures Rested(Step(system, action), Step(system, action).state.scopes[scope])
  {
    hide BeginRound, JobsOf, Stamped, Rest, TableOk, ListOk;
    var state := system.state;
    RoundFrame(state, action.now, action.jobs);
    StampedIs(system.dispatched, action.jobs, action.now);
    var watched := state.scopes[scope];
    if !watched.inFlight && !Free(watched, action.now) {
      forall k | 0 <= k < |action.jobs|
        ensures action.jobs[k].generation != watched.generation
      {
        assert Fenced(BeginRound(state, action.now), action.jobs[k]);
      }
    }
  }

  lemma DispatchKeepsRests(system: System, action: Action)
    requires action.Dispatch? && Enabled(system, action)
    requires BoundsOk(system) && FlightsOk(system) && SlotsOk(system) && RestsOk(system)
    ensures RestsOk(Step(system, action))
  {
    hide BeginRound, JobsOf, Stamped, Rest, FlightsOk, SlotsOk, TableOk, ListOk, Rested;
    DispatchStampsFlights(system, action);
    var state, after := system.state, BeginRound(system.state, action.now);
    RoundFrame(state, action.now, action.jobs);
    forall k | 0 <= k < |action.jobs|
      ensures action.jobs[k].generation <= after.nextGeneration
    {
      assert Fenced(after, action.jobs[k]);
    }
    StampedBound(system.dispatched, action.jobs, action.now, after.nextGeneration);
    forall scope | scope in after.scopes
      ensures Rested(Step(system, action), after.scopes[scope])
    {
      DispatchKeepsRested(system, action, scope);
    }
  }

  lemma DispatchKeepsExits(system: System, action: Action)
    requires action.Dispatch? && Enabled(system, action) && BoundsOk(system) && ExitsOk(system)
    ensures ExitsOk(Step(system, action))
  {
    hide BeginRound, JobsOf;
    RoundFrame(system.state, action.now, action.jobs);
    var next := Step(system, action);
    forall terminal
      ensures Balanced(next, terminal)
    {
      assert Balanced(system, terminal);
    }
  }

  // ---------------------------------------------------------------- completion

  /** A completion touches nothing beyond its own scope, and that only if it is still current. */
  lemma ApplyFrame(state: State, job: Job, reply: Reply, now: nat)
    requires TableOk(state.scopes, state.nextGeneration) && |state.exited| <= MAX_QUEUED_EXITS
    ensures var after := Apply(state, job, reply, now);
            && after.epoch == state.epoch && after.nextGeneration == state.nextGeneration
            && after.scopes.Keys == state.scopes.Keys && TableOk(after.scopes, after.nextGeneration)
            && |after.exited| <= MAX_QUEUED_EXITS
            && (!Current(state, job) ==>
                  after == state.(metrics := state.metrics.(fencedDrops := state.metrics.fencedDrops + 1)))
            && (Current(state, job) ==>
                  && after.scopes == state.scopes[job.scope := after.scopes[job.scope]]
                  && after.scopes[job.scope].generation == job.generation && !after.scopes[job.scope].inFlight
                  && after.scopes[job.scope].due == now + Rest(after.scopes[job.scope].failures))
  {
    hide Rest, Swept;
    if Current(state, job) {
      var watched, after := state.scopes[job.scope], Apply(state, job, reply, now);
      assert ListOk(job.scope, watched.terminals);
      RestAfterSuccess();
      if reply.Listed? && InScope(reply.entries, job.scope) {
        SweptSplits(watched.terminals, reply.entries, |state.exited|);
        assert ListOk(job.scope, after.scopes[job.scope].terminals);
      }
      TableUpdateOk(state.scopes, state.nextGeneration, after.scopes[job.scope], state.nextGeneration);
    }
  }

  lemma RestAfterSuccess()
    ensures Rest(0) == INVENTORY_INTERVAL
  {
  }

  // ---------------------------------------------------------------- a round on its own

  /** The scope was observed: its slot is free and it rests from this round on. */
  ghost predicate JobDone(before: State, after: State, scope: Scope, now: nat) {
    && scope in before.scopes && scope in after.scopes
    && after.scopes[scope].generation == before.scopes[scope].generation
    && !after.scopes[scope].inFlight
    && after.scopes[scope].due == now + Rest(after.scopes[scope].failures)
  }

  lemma RoundTableOk(state: State, now: nat)
    requires TableOk(state.scopes, state.nextGeneration)
    ensures TableOk(BeginRound(state, now).scopes, state.nextGeneration)
  {
    var after := BeginRound(state, now);
    forall scope | scope in after.scopes
      ensures ListOk(scope, after.scopes[scope].terminals)
    {
      assert after.scopes[scope].terminals == state.scopes[scope].terminals;
    }
  }

  /** The state after the jobs of a round were completed one after the other. */
  function Completed(state: State, jobs: seq<Job>, now: nat, fetch: Job -> Reply): State {
    if jobs == [] then state
    else
      var last := jobs[|jobs| - 1];
      Apply(Completed(state, jobs[..|jobs| - 1], now, fetch), last, fetch(last), now)
  }

  lemma CompletedSnoc(state: State, jobs: seq<Job>, i: nat, now: nat, fetch: Job -> Reply)
    requires i < |jobs|
    ensures Completed(state, jobs[..i + 1], now, fetch)
            == Apply(Completed(state, jobs[..i], now, fetch), jobs[i], fetch(jobs[i]), now)
  {
    hide Apply;
    assert jobs[..i + 1][..i] == jobs[..i];
  }

  /** A round of which `n` jobs are complete: those are done, the others still current. */
  ghost predicate InRound(before: State, state: State, now: nat, jobs: seq<Job>, n: nat)
    requires n <= |jobs|
  {
    && TableOk(state.scopes, state.nextGeneration) && |state.exited| <= MAX_QUEUED_EXITS
    && state.scopes.Keys == before.scopes.Keys && state.epoch == before.epoch
    && (forall i, j :: 0 <= i < j < |jobs| ==> jobs[i].scope != jobs[j].scope)
    && (forall i :: 0 <= i < n ==> JobDone(before, state, jobs[i].scope, now))
    && (forall i :: n <= i < |jobs| ==> Current(state, jobs[i]) && state.scopes[jobs[i].scope].generation == before.scopes[jobs[i].scope].generation)
    && (forall scope :: scope in before.scopes && (forall i :: 0 <= i < |jobs| ==> jobs[i].scope != scope) ==>
          state.scopes[scope] == before.scopes[scope])
  }

  lemma RoundStep(before: State, state: State, now: nat, jobs: seq<Job>, i: nat, reply: Reply)
    requires i < |jobs| && InRound(before, state, now, jobs, i)
    ensures InRound(before, Apply(state, jobs[i], reply, now), now, jobs, i + 1)
  {
    hide Apply, Rest, TableOk;
    ApplyFrame(state, jobs[i], reply, now);
    var after := Apply(state, jobs[i], reply, now);
    assert JobDone(before, after, jobs[i].scope, now);
    forall k | 0 <= k < i
      ensures JobDone(before, after, jobs[k].scope, now)
    {
      assert JobDone(before, state, jobs[k].scope, now);
    }
  }

  lemma RoundEnds(before: State, state: State, now: nat, jobs: seq<Job>)
    requires JobsOf(before, now, jobs) && InRound(before, state, now, jobs, |jobs|)
    ensures forall scope :: scope in DueScopes(before, now) ==> JobDone(before, state, scope, now)
    ensures forall scope :: scope in before.scopes && scope !in DueScopes(before, now) ==>
              state.scopes[scope] == before.scopes[scope]
  {
    hide TableOk, Rest;
    forall scope | scope in DueScopes(before, now)
      ensures JobDone(before, state, scope, now)
    {
      var i :| 0 <= i < |jobs| && jobs[i] == JobOf(before, scope);
      assert JobDone(before, state, jobs[i].scope, now);
    }
  }

  lemma CompleteKeepsFlights(system: System, action: Action)
    requires action.Complete? && Enabled(system, action) && BoundsOk(system) && FlightsOk(system)
    ensures FlightsOk(Step(system, action)) && BoundsOk(Step(system, action))
  {
    hide Apply, TableOk;
    var flight := system.flights[action.index];
    ApplyFrame(system.state, flight.job, action.reply, flight.at);
    var next := Step(system, action);
    forall i | 0 <= i < |next.flights|
      ensures Fenced(next.state, next.flights[i].job) && (next.flights[i].stale <==> !Current(next.state, next.flights[i].job))
    {
      var k := if i < action.index then i else i + 1;
      assert next.flights[i] == system.flights[k];
      assert Fenced(system.state, system.flights[k].job);
    }
  }

  lemma CompleteKeepsSlots(system: System, action: Action)
    requires action.Complete? && Enabled(system, action)
    requires BoundsOk(system) && FlightsOk(system) && SlotsOk(system) && RestsOk(system)
    ensures SlotsOk(Step(system, action)) && RestsOk(Step(system, action))
  {
    hide Apply, TableOk, Rest;
    var state, flight := system.state, system.flights[action.index];
    ApplyFrame(state, flight.job, action.reply, flight.at);
    var next := Step(system, action);
    forall i | 0 <= i < |next.flights|
      ensures next.flights[i].job.generation != flight.job.generation
      ensures next.flights[i].job.generation in next.dispatched
      ensures next.dispatched[next.flights[i].job.generation] == next.flights[i].at
    {
      var k := if i < action.index then i else i + 1;
      assert next.flights[i] == system.flights[k];
    }
    forall scope | scope in next.state.scopes
      ensures next.state.scopes[scope].inFlight <==> Out(next, JobOf(next.state, scope))
      ensures Rested(next, next.state.scopes[scope])
    {
      assert Rested(system, state.scopes[scope]);
      var job := JobOf(next.state, scope);
      if Current(state, flight.job) && scope == flight.job.scope {
        assert job.generation == flight.job.generation;
      } else {
        assert job == JobOf(state, scope);
        StillOut(system, next, action.index, job);
      }
    }
  }

  lemma StillOut(system: System, next: System, index: nat, job: Job)
    requires index < |system.flights| && next.flights == system.flights[..index] + system.flights[index + 1..]
    requires job == system.flights[index].job ==> !Out(system, job)
    ensures Out(next, job) <==> Out(system, job)
  {
    if Out(system, job) {
      var i :| 0 <= i < |system.flights| && system.flights[i].job == job;
      var k := if i < index then i else i - 1;
      assert next.flights[k].job == job;
    }
    if Out(next, job) {
      var k :| 0 <= k < |next.flights| && next.flights[k].job == job;
      assert system.flights[if k < index then k else k + 1].job == job;
    }
  }

  /** A completion splits its scope's list: each terminal stays tracked or is queued, none doubles. */
  lemma ApplySplits(state: State, job: Job, reply: Reply, now: nat, terminal: TerminalRef)
    requires TableOk(state.scopes, state.nextGeneration)
    ensures var after := Apply(state, job, reply, now);
            && state.exited <= after.exited
            && Newly(state, after) == after.exited[|state.exited|..]
            && after.metrics.exitsObserved == state.metrics.exitsObserved + |Newly(state, after)|
            && Count(state, terminal) == Count(after, terminal) + multiset(Newly(state, after))[terminal]
  {
    hide Swept, Rest;
    var after := Apply(state, job, reply, now);
    if Current(state, job) && reply.Listed? && InScope(reply.entries, job.scope) {
      var watched := state.scopes[job.scope];
      var sweep := Swept(watched.terminals, reply.entries, |state.exited|);
      SweptSplits(watched.terminals, reply.entries, |state.exited|);
      assert Newly(state, after) == sweep.queued;
      if ScopeOf(terminal) != job.scope {
        NotInList(job.scope, watched.terminals, terminal);
        assert multiset(sweep.queued)[terminal] <= multiset(watched.terminals)[terminal];
      }
    } else {
      assert Newly(state, after) == [];
    }
  }

  lemma NotInList(scope: Scope, terminals: seq<TerminalRef>, terminal: TerminalRef)
    requires ListOk(scope, terminals) && ScopeOf(terminal) != scope
    ensures multiset(terminals)[terminal] == 0
  {
    assert terminal !in terminals;
  }

  lemma CompleteKeepsExits(system: System, action: Action)
    requires action.Complete? && Enabled(system, action) && BoundsOk(system) && ExitsOk(system)
    ensures ExitsOk(Step(system, action))
  {
    hide Apply, TableOk, Count;
    var state, flight := system.state, system.flights[action.index];
    var next := Step(system, action);
    var newly := Newly(state, next.state);
    forall terminal
      ensures Balanced(next, terminal)
      ensures next.observed == next.drained + next.state.exited
      ensures next.state.metrics.exitsObserved == |next.observed|
    {
      ApplySplits(state, flight.job, action.reply, flight.at, terminal);
      assert Balanced(system, terminal);
      assert multiset(system.observed + newly) == multiset(system.observed) + multiset(newly);
      assert state.exited + newly == next.state.exited;
    }
    var any := TerminalRef(0, 0, 0, None, 0);
    assert Balanced(next, any);
  }

  // ---------------------------------------------------------------- drain, and every run

  lemma DrainKeepsFlights(system: System, action: Action)
    requires action.Drain? && BoundsOk(system) && FlightsOk(system)
    ensures BoundsOk(Step(system, action)) && FlightsOk(Step(system, action))
  {
    hide TableOk;
    var next := Step(system, action);
    assert forall job :: Current(next.state, job) == Current(system.state, job);
    forall i | 0 <= i < |next.flights|
      ensures Fenced(next.state, next.flights[i].job)
    {
      assert Fenced(system.state, system.flights[i].job);
    }
  }

  lemma DrainKeepsSlots(system: System, action: Action)
    requires action.Drain? && SlotsOk(system) && RestsOk(system)
    ensures SlotsOk(Step(system, action)) && RestsOk(Step(system, action))
  {
    hide Rest;
    var next := Step(system, action);
    forall scope | scope in next.state.scopes
      ensures next.state.scopes[scope].inFlight <==> Out(next, JobOf(next.state, scope))
      ensures Rested(next, next.state.scopes[scope])
    {
      assert JobOf(next.state, scope) == JobOf(system.state, scope);
      assert Out(next, JobOf(next.state, scope)) == Out(system, JobOf(system.state, scope));
      assert Rested(system, system.state.scopes[scope]);
    }
  }

  lemma DrainKeepsExits(system: System, action: Action)
    requires action.Drain? && ExitsOk(system)
    ensures ExitsOk(Step(system, action))
  {
    var next := Step(system, action);
    var count := Taken(system.state, action.limit);
    assert system.state.exited[..count] + system.state.exited[count..] == system.state.exited;
    forall terminal
      ensures Balanced(next, terminal)
    {
      assert Balanced(system, terminal);
    }
  }

  lemma StepKeeps(system: System, action: Action)
    requires Invariant(system) && Enabled(system, action)
    ensures Invariant(Step(system, action))
  {
    hide Step, BoundsOk, FlightsOk, SlotsOk, RestsOk, ExitsOk;
    match action
    case Rewatch(_, _, _) =>
      RewatchKeepsFlights(system, action);
      RewatchKeepsSlots(system, action);
      RewatchKeepsExits(system, action);
    case Dispatch(_, _) =>
      DispatchKeepsFlights(system, action);
      DispatchKeepsSlots(system, action);
      DispatchKeepsRests(system, action);
      DispatchKeepsExits(system, action);
    case Complete(_, _) =>
      CompleteKeepsFlights(system, action);
      CompleteKeepsSlots(system, action);
      CompleteKeepsExits(system, action);
    case Drain(_) =>
      DrainKeepsFlights(system, action);
      DrainKeepsSlots(system, action);
      DrainKeepsExits(system, action);
  }

  /** A run: every step taken while it was possible. */
  ghost predicate IsRun(systems: seq<System>, actions: seq<Action>) {
    && |systems| == |actions| + 1 && systems[0] == START
    && forall i :: 0 <= i < |actions| ==> Enabled(systems[i], actions[i]) && systems[i + 1] == Step(systems[i], actions[i])
  }

  /** The invariant holds everywhere in every run. */
  lemma {:induction false} EveryRunKeeps(systems: seq<System>, actions: seq<Action>, n: nat)
    requires IsRun(systems, actions) && n < |systems|
    ensures Invariant(systems[n])
  {
    hide Invariant, Step;
    if n == 0 {
      StartOk();
    } else {
      EveryRunKeeps(systems, actions, n - 1);
      StepKeeps(systems[n - 1], actions[n - 1]);
    }
  }

  // ---------------------------------------------------------------- what the invariant means

  /**
  Fencing. Of the jobs that are out, at most one can still complete a given scope; one whose
  scope's list or the epoch changed since its dispatch changes nothing but a counter; and a
  matching generation alone already means the scope and the epoch match.
  */
  lemma Fencing(system: System, i: nat, reply: Reply)
    requires Invariant(system) && i < |system.flights|
    ensures var flight := system.flights[i];
            && (Current(system.state, flight.job) ==>
                  forall j :: 0 <= j < |system.flights| && j != i && system.flights[j].job.scope == flight.job.scope
                    ==> !Current(system.state, system.flights[j].job))
            && (flight.stale ==>
                  Apply(system.state, flight.job, reply, flight.at)
                  == system.state.(metrics := system.state.metrics.(fencedDrops := system.state.metrics.fencedDrops + 1)))
            && (forall scope :: scope in system.state.scopes && system.state.scopes[scope].generation == flight.job.generation
                  ==> scope == flight.job.scope && system.state.epoch == flight.job.epoch && !flight.stale)
  {
    hide TableOk, SlotsOk, RestsOk, ExitsOk;
    assert Fenced(system.state, system.flights[i].job);
  }

  /** At most one request per scope: a round never asks again while the answer can still count. */
  lemma OneRequestPerScope(system: System, action: Action, k: nat)
    requires Invariant(system) && action.Dispatch? && Enabled(system, action) && k < |action.jobs|
    ensures forall i :: 0 <= i < |system.flights| && Current(system.state, system.flights[i].job)
              ==> system.flights[i].job.scope != action.jobs[k].scope
  {
    hide TableOk, RestsOk, ExitsOk;
    var scope := action.jobs[k].scope;
    assert scope in DueScopes(system.state, action.now);
    assert !Out(system, JobOf(system.state, scope));
    forall i | 0 <= i < |system.flights| && Current(system.state, system.flights[i].job)
      ensures system.flights[i].job.scope != scope
    {
      assert system.flights[i].job != JobOf(system.state, scope);
    }
  }

  /**
  Spacing. While `watch` leaves a scope's generation alone, its next dispatch comes no sooner
  after the previous one than its rest: two seconds after a success, the capped backoff after a
  number of straight failures.
  */
  lemma DispatchesAreSpaced(system: System, action: Action, k: nat)
    requires Invariant(system) && action.Dispatch? && Enabled(system, action) && k < |action.jobs|
    requires action.jobs[k].generation in system.dispatched
    ensures action.jobs[k].scope in system.state.scopes
    ensures action.now >= system.dispatched[action.jobs[k].generation]
                          + Rest(system.state.scopes[action.jobs[k].scope].failures)
  {
    hide TableOk, FlightsOk, SlotsOk, ExitsOk, Rest;
    var scope := action.jobs[k].scope;
    assert scope in DueScopes(system.state, action.now);
    assert Rested(system, system.state.scopes[scope]);
  }

  /** The rests: the steady cadence, then 500 ms doubled per failure and capped at eight seconds. */
  lemma Rests(failures: nat)
    ensures Rest(0) == 2000 && Rest(1) == 500 && Rest(2) == 1000 && Rest(3) == 2000 && Rest(4) == 4000
    ensures failures >= 5 ==> Rest(failures) == 8000
    ensures Rest(failures) <= BACKOFF_MAX
  {
    assert Doublings(1) == 2 && Doublings(2) == 4;
    assert Doublings(3) == 8;
    assert Doublings(4) == 16;
  }

  /** What one reply does to the failure count. */
  lemma OneReplyCounts(state: State, job: Job, reply: Reply, now: nat)
    requires Current(state, job)
    ensures Apply(state, job, reply, now).scopes[job.scope].failures
            == if reply.Listed? && InScope(reply.entries, job.scope) then 0 else state.scopes[job.scope].failures + 1
  {
    hide Rest, Swept;
  }

  /**
  The failures of a scope at a moment of a run: current replies that failed it since the last one
  that observed it, since it was brought in, and since the epoch changed.
  */
  ghost function Streak(systems: seq<System>, actions: seq<Action>, scope: Scope, n: nat): nat
    requires |systems| == |actions| + 1 && n < |systems|
    requires forall i :: 0 <= i < |actions| && actions[i].Complete? ==> actions[i].index < |systems[i].flights|
  {
    if n == 0 then 0
    else
      var before, after := systems[n - 1].state, systems[n].state;
      var streak := Streak(systems, actions, scope, n - 1);
      match actions[n - 1]
      case Rewatch(epoch, _, _) =>
        if scope in before.scopes && scope in after.scopes && epoch == before.epoch then streak else 0
      case Complete(index, reply) =>
        var job := systems[n - 1].flights[index].job;
        if job.scope != scope || !Current(before, job) then streak
        else if reply.Listed? && InScope(reply.entries, scope) then 0
        else streak + 1
      case _ => streak
  }

  /** The failure count that drives the backoff is the length of the streak, in every run. */
  lemma {:induction false} StreakCounts(systems: seq<System>, actions: seq<Action>, scope: Scope, n: nat)
    requires IsRun(systems, actions) && n < |systems| && scope in systems[n].state.scopes
    ensures systems[n].state.scopes[scope].failures == Streak(systems, actions, scope, n)
  {
    hide Watch, Apply, TableOk, Invariant, Rest, JobsOf;
    if n > 0 {
      var before, action := systems[n - 1], actions[n - 1];
      EveryRunKeeps(systems, actions, n - 1);
      TableIsOk(before);
      match action
      case Rewatch(epoch, terminals, now) =>
        WatchEntry(before.state, epoch, terminals, now, scope);
        if scope in before.state.scopes {
          StreakCounts(systems, actions, scope, n - 1);
        }
      case Complete(index, reply) =>
        var flight := before.flights[index];
        ApplyFrame(before.state, flight.job, reply, flight.at);
        StreakCounts(systems, actions, scope, n - 1);
        if Current(before.state, flight.job) {
          OneReplyCounts(before.state, flight.job, reply, flight.at);
        }
      case Dispatch(_, _) =>
        StreakCounts(systems, actions, scope, n - 1);
      case Drain(_) =>
        StreakCounts(systems, actions, scope, n - 1);
    }
  }

  lemma TableIsOk(system: System)
    requires Invariant(system)
    ensures TableOk(system.state.scopes, system.state.nextGeneration) && |system.state.exited| <= MAX_QUEUED_EXITS
  {
    hide TableOk, FlightsOk, SlotsOk, RestsOk, ExitsOk;
  }

  /**
  Losing a tab while its scope is in flight: `watch` frees the slot under a generation that fences
  the answer out, but keeps the old due time and the streak, so the answer that was under way is
  lost and no earlier observation replaces it.
  */
  lemma LostTabKeepsDue(state: State, terminals: seq<TerminalRef>, now: nat, scope: Scope)
    requires TableOk(state.scopes, state.nextGeneration)
    requires scope in state.scopes && state.scopes[scope].inFlight
    requires var after := Watch(state, state.epoch, terminals, now);
             && scope in after.scopes && after.scopes[scope].terminals != state.scopes[scope].terminals
             && forall i :: 0 <= i < |after.scopes[scope].terminals| ==>
                  after.scopes[scope].terminals[i] in state.scopes[scope].terminals
    ensures var after := Watch(state, state.epoch, terminals, now);
            && !after.scopes[scope].inFlight && !Current(after, JobOf(state, scope))
            && after.scopes[scope].due == state.scopes[scope].due
            && after.scopes[scope].failures == state.scopes[scope].failures
  {
    hide Watch, TableOk;
    WatchEntry(state, state.epoch, terminals, now, scope);
    WatchEffect(state, state.epoch, terminals, now);
    WatchFrame(state, state.epoch, terminals, now);
    GenerationIsOk(state, scope);
  }

  lemma GenerationIsOk(state: State, scope: Scope)
    requires TableOk(state.scopes, state.nextGeneration) && scope in state.scopes
    ensures state.scopes[scope].generation <= state.nextGeneration
  {
  }

  /**
  An exit is queued only for a tracked terminal, by a current job, on a reply all of whose lines
  belong to the job's scope and whose first line about the terminal does not list it as live.
  */
  lemma OnlyDeadLinesExit(state: State, job: Job, reply: Reply, now: nat, terminal: TerminalRef)
    requires terminal in Newly(state, Apply(state, job, reply, now))
    ensures Current(state, job) && reply.Listed?
    ensures forall i :: 0 <= i < |reply.entries| ==> Belongs(reply.entries[i].terminal, job.scope)
    ensures terminal in state.scopes[job.scope].terminals && ListedDead(reply.entries, terminal)
  {
    hide Rest, Swept, ListedDead;
    if Current(state, job) && reply.Listed? && InScope(reply.entries, job.scope) {
      var watched := state.scopes[job.scope];
      InScopeIsBelonging(reply.entries, job.scope);
      SweptSplits(watched.terminals, reply.entries, |state.exited|);
      var sweep := Swept(watched.terminals, reply.entries, |state.exited|);
      assert Newly(state, Apply(state, job, reply, now)) == sweep.queued;
      assert terminal in multiset(sweep.queued);
      assert terminal in multiset(watched.terminals);
    }
  }

  /**
  What a current, correctly scoped reply does to one tracked terminal, wherever the queue has room:
  it is reported and no longer tracked if and only if the reply has a line about it and the first
  such line does not list it as live. A terminal that is live, or not mentioned, stays tracked
  whatever the room.
  */
  lemma ExitsExactly(state: State, job: Job, entries: seq<Entry>, now: nat, terminal: TerminalRef)
    requires Current(state, job) && forall i :: 0 <= i < |entries| ==> Belongs(entries[i].terminal, job.scope)
    requires terminal in state.scopes[job.scope].terminals
    ensures var after := Apply(state, job, Listed(entries), now);
            var tracked := state.scopes[job.scope].terminals;
            && (!ListedDead(entries, terminal) ==>
                  terminal !in Newly(state, after) && terminal in after.scopes[job.scope].terminals)
            && (ListedDead(entries, terminal) && |state.exited| + |tracked| <= 32 ==>
                  terminal in Newly(state, after) && terminal !in after.scopes[job.scope].terminals)
  {
    hide Rest, Swept, ListedDead;
    var tracked := state.scopes[job.scope].terminals;
    var sweep := Swept(tracked, entries, |state.exited|);
    InScopeIsBelonging(entries, job.scope);
    SweptSplits(tracked, entries, |state.exited|);
    SweptReports(tracked, entries, |state.exited|);
    assert Newly(state, Apply(state, job, Listed(entries), now)) == sweep.queued;
    assert terminal in multiset(tracked);
    if terminal in sweep.still {
      assert terminal in multiset(sweep.still);
    }
    if ListedDead(entries, terminal) && |state.exited| + |tracked| <= 32 {
      FullQueue(tracked, entries, |state.exited|);
      assert terminal !in sweep.still;
      assert terminal !in multiset(sweep.still);
    }
  }

  /** A queue that has room for the whole list turns no exit away. */
  lemma {:induction false} FullQueue(terminals: seq<TerminalRef>, entries: seq<Entry>, waiting: nat)
    requires waiting + |terminals| <= MAX_QUEUED_EXITS
    ensures forall k :: 0 <= k < |Swept(terminals, entries, waiting).still| ==>
              !ListedDead(entries, Swept(terminals, entries, waiting).still[k])
  {
    hide Dead, ListedDead, Swept;
    DeadAreListedDead(entries);
    if terminals == [] {
      SweptSnoc([], TerminalRef(0, 0, 0, None, 0), entries, waiting);
    } else {
      var init, last := terminals[..|terminals| - 1], terminals[|terminals| - 1];
      assert terminals == init + [last];
      SweptSplits(init, entries, waiting);
      FullQueue(init, entries, waiting);
      SweptSnoc(init, last, entries, waiting);
    }
  }

  /** How many of these the reply lists as dead: exits that wait for a later round. */
  ghost function Postponed(terminals: seq<TerminalRef>, entries: seq<Entry>): nat {
    if terminals == [] then 0
    else
      Postponed(terminals[..|terminals| - 1], entries) + (if ListedDead(entries, terminals[|terminals| - 1]) then 1 else 0)
  }

  lemma PostponedSnoc(init: seq<TerminalRef>, last: TerminalRef, entries: seq<Entry>)
    ensures Postponed(init + [last], entries) == Postponed(init, entries) + (if ListedDead(entries, last) then 1 else 0)
    ensures Postponed([], entries) == 0
  {
    hide ListedDead;
    assert (init + [last])[..|init|] == init;
  }

  lemma {:induction false} DropsArePostponed(terminals: seq<TerminalRef>, entries: seq<Entry>, waiting: nat)
    ensures Swept(terminals, entries, waiting).drops == Postponed(Swept(terminals, entries, waiting).still, entries)
  {
    hide Dead, ListedDead, Postponed;
    if terminals == [] {
      PostponedSnoc([], TerminalRef(0, 0, 0, None, 0), entries);
    } else {
      var init, last := terminals[..|terminals| - 1], terminals[|terminals| - 1];
      DropsArePostponed(init, entries, waiting);
      DeadIsListedDead(entries, last);
      PostponedSnoc(Swept(init, entries, waiting).still, last, entries);
    }
  }

  /**
  The counters of a completion: it is fenced out, fails (and is then perhaps a mismatch), or
  observes, reporting some exits and postponing those of the dead that stay tracked.
  */
  lemma ApplyCounts(state: State, job: Job, reply: Reply, now: nat)
    ensures var after := Apply(state, job, reply, now);
            var foreign := reply.Listed? && exists i :: 0 <= i < |reply.entries| && !Belongs(reply.entries[i].terminal, job.scope);
            var observes := Current(state, job) && reply.Listed? && !foreign;
            && after.metrics.fencedDrops == state.metrics.fencedDrops + (if Current(state, job) then 0 else 1)
            && after.metrics.failures == state.metrics.failures + (if Current(state, job) && !observes then 1 else 0)
            && after.metrics.scopeMismatches == state.metrics.scopeMismatches + (if Current(state, job) && foreign then 1 else 0)
            && after.metrics.observations == state.metrics.observations && after.metrics.coalesced == state.metrics.coalesced
            && after.metrics.watchDrops == state.metrics.watchDrops
            && after.metrics.queueDrops == state.metrics.queueDrops
                 + (if observes then Postponed(after.scopes[job.scope].terminals, reply.entries) else 0)
            && (observes ==> after.metrics.exitsObserved == state.metrics.exitsObserved + |Newly(state, after)|)
  {
    hide Rest, Swept, Postponed;
    if reply.Listed? {
      InScopeIsBelonging(reply.entries, job.scope);
      if Current(state, job) {
        DropsArePostponed(state.scopes[job.scope].terminals, reply.entries, |state.exited|);
      }
    }
  }

  function ScopesIn(jobs: seq<Job>): set<Scope> {
    set job | job in jobs :: job.scope
  }

  lemma {:induction false} ScopesCounted(jobs: seq<Job>)
    requires forall i, j :: 0 <= i < j < |jobs| ==> jobs[i].scope != jobs[j].scope
    ensures |ScopesIn(jobs)| == |jobs|
  {
    if jobs != [] {
      var init, last := jobs[..|jobs| - 1], jobs[|jobs| - 1];
      ScopesCounted(init);
      assert jobs == init + [last];
      assert ScopesIn(jobs) == ScopesIn(init) + {last.scope};
    }
  }

  lemma JobsCounted(state: State, now: nat, jobs: seq<Job>)
    requires JobsOf(state, now, jobs)
    ensures BeginRound(state, now).metrics.observations == state.metrics.observations + |jobs|
  {
    ScopesCounted(jobs);
    assert ScopesIn(jobs) == DueScopes(state, now);
  }

  function Completions(actions: seq<Action>, n: nat): nat
    requires n <= |actions|
  {
    if n == 0 then 0 else Completions(actions, n - 1) + (if actions[n - 1].Complete? then 1 else 0)
  }

  /** Every dispatched observation is out or was completed, in every run. */
  lemma {:induction false} ObservationsAreAccounted(systems: seq<System>, actions: seq<Action>, n: nat)
    requires IsRun(systems, actions) && n < |systems|
    ensures systems[n].state.metrics.observations == |systems[n].flights| + Completions(actions, n)
  {
    hide Watch, Apply, BeginRound, JobsOf;
    if n > 0 {
      var before, action := systems[n - 1], actions[n - 1];
      ObservationsAreAccounted(systems, actions, n - 1);
      match action
      case Rewatch(epoch, terminals, now) => WatchLeavesCounts(before.state, epoch, terminals, now);
      case Dispatch(now, jobs) => JobsCounted(before.state, now, jobs);
      case Complete(index, reply) =>
        ApplyCounts(before.state, before.flights[index].job, reply, before.flights[index].at);
      case Drain(_) =>
    }
  }

  lemma WatchLeavesCounts(state: State, epoch: nat, terminals: seq<TerminalRef>, now: nat)
    ensures Watch(state, epoch, terminals, now).metrics
            == state.metrics.(watchDrops := state.metrics.watchDrops + Drops(terminals))
  {
  }

  /** One line about another scope, or no answer at all: nothing exits, the list stays, the scope backs off. */
  lemma ForeignLineFails(state: State, job: Job, reply: Reply, now: nat)
    requires Current(state, job)
    requires reply.Unanswered? || exists i :: 0 <= i < |reply.entries| && !Belongs(reply.entries[i].terminal, job.scope)
    ensures var before, after := state.scopes[job.scope], Apply(state, job, reply, now);
            && after.exited == state.exited
            && after.scopes == state.scopes[job.scope := before.(inFlight := false, failures := before.failures + 1,
                                                                due := now + Rest(before.failures + 1))]
  {
    hide Rest, Swept;
    if reply.Listed? {
      InScopeIsBelonging(reply.entries, job.scope);
    }
  }

  lemma ExitsAreConserved(systems: seq<System>, actions: seq<Action>, n: nat, terminal: TerminalRef)
    requires IsRun(systems, actions) && n < |systems|
    ensures var system := systems[n];
            && system.observed == system.drained + system.state.exited
            && system.state.metrics.exitsObserved == |system.observed|
            && multiset(system.observed)[terminal] + Count(system.state, terminal) <= system.entered(terminal)
  {
    hide Step, IsRun, BoundsOk, FlightsOk, SlotsOk, RestsOk;
    EveryRunKeeps(systems, actions, n);
    assert Balanced(systems[n], terminal);
  }
}
