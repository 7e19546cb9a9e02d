/**
The scheduling state of src/runtime/inventory_pump.rs as a value, and what each of its operations
does to it. InventoryPump.dfy holds the class that changes its fields in place and is proved
against these functions; InventoryRuns.dfy proves what every interleaving keeps.

Times are milliseconds. Counters and generations are unbounded.
*/
module Inventory {
  import opened Numbers
  import opened Wrappers

  const INVENTORY_INTERVAL := 2000
  const BACKOFF_BASE := 500
  const BACKOFF_MAX := 8000
  const UNWATCHED_INTERVAL := 250
  const MAX_SCOPES := 32
  const MAX_TERMINALS_PER_SCOPE := 64
  const MAX_QUEUED_EXITS := 32

  datatype Scope = Scope(workspace: nat, session: Option<nat>, worktree: nat)

  datatype TerminalRef = TerminalRef(daemon: nat, id: nat, workspace: nat, session: Option<nat>, worktree: nat)

  function ScopeOf(terminal: TerminalRef): Scope {
    Scope(terminal.workspace, terminal.session, terminal.worktree)
  }

  /** One line of a reply; whether a line is about a terminal is plain equality. */
  datatype Entry = Entry(terminal: TerminalRef, live: bool)

  datatype Reply = Listed(entries: seq<Entry>) | Unanswered

  datatype Watched = Watched(
    scope: Scope,
    terminals: seq<TerminalRef>,
    generation: nat,
    due: nat,
    failures: nat,
    inFlight: bool)

  datatype Job = Job(scope: Scope, epoch: nat, generation: nat)

  datatype Metrics = Metrics(
    observations: nat,
    failures: nat,
    scopeMismatches: nat,
    fencedDrops: nat,
    coalesced: nat,
    exitsObserved: nat,
    queueDrops: nat,
    watchDrops: nat)

  datatype State = State(
    scopes: map<Scope, Watched>,
    epoch: nat,
    nextGeneration: nat,
    exited: seq<TerminalRef>,
    metrics: Metrics)

  const INITIAL := State(map[], 0, 0, [], Metrics(0, 0, 0, 0, 0, 0, 0, 0))

  // ---------------------------------------------------------------- watch

  datatype Group = Group(scope: Scope, terminals: seq<TerminalRef>)

  /** Index of the group of a scope, or the number of groups. */
  function IndexOf(groups: seq<Group>, scope: Scope): (index: nat)
    ensures index <= |groups|
    ensures index < |groups| ==> groups[index].scope == scope
    ensures forall i :: 0 <= i < index ==> groups[i].scope != scope
  {
    if groups == [] then 0
    else if groups[0].scope == scope then 0
    else 1 + IndexOf(groups[1..], scope)
  }

  predicate HasScope(groups: seq<Group>, scope: Scope) {
    IndexOf(groups, scope) < |groups|
  }

  /** One terminal of a watch list joins its scope's group, within both bounds. */
  function Admit(groups: seq<Group>, terminal: TerminalRef): seq<Group> {
    var index := IndexOf(groups, ScopeOf(terminal));
    if index < |groups| then
      if |groups[index].terminals| >= MAX_TERMINALS_PER_SCOPE then groups
      else groups[index := Group(groups[index].scope, groups[index].terminals + [terminal])]
    else if |groups| >= MAX_SCOPES then groups
    else groups + [Group(ScopeOf(terminal), [terminal])]
  }

  predicate Refused(groups: seq<Group>, terminal: TerminalRef) {
    Admit(groups, terminal) == groups
  }

  function Grouped(terminals: seq<TerminalRef>): seq<Group> {
    if terminals == [] then []
    else Admit(Grouped(terminals[..|terminals| - 1]), terminals[|terminals| - 1])
  }

  function Drops(terminals: seq<TerminalRef>): nat {
    if terminals == [] then 0
    else
      var init := terminals[..|terminals| - 1];
      Drops(init) + (if Refused(Grouped(init), terminals[|terminals| - 1]) then 1 else 0)
  }

  lemma GroupedSnoc(init: seq<TerminalRef>, last: TerminalRef)
    ensures Grouped(init + [last]) == Admit(Grouped(init), last)
    ensures Drops(init + [last]) == Drops(init) + (if Refused(Grouped(init), last) then 1 else 0)
    ensures Grouped([]) == [] && Drops([]) == 0
  {
    assert (init + [last])[..|init|] == init;
  }

  /** The terminals of a watch list that belong to a scope, in order. */
  function Of(terminals: seq<TerminalRef>, scope: Scope): seq<TerminalRef> {
    if terminals == [] then []
    else
      var last := terminals[|terminals| - 1];
      Of(terminals[..|terminals| - 1], scope) + (if Belongs(last, scope) then [last] else [])
  }

  lemma OfSnoc(init: seq<TerminalRef>, last: TerminalRef, scope: Scope)
    ensures Of(init + [last], scope) == Of(init, scope) + (if Belongs(last, scope) then [last] else [])
    ensures Of([], scope) == []
  {
    assert (init + [last])[..|init|] == init;
  }

  /** At most this many of a list. */
  function FirstOf(terminals: seq<TerminalRef>, limit: nat): seq<TerminalRef> {
    if |terminals| <= limit then terminals else terminals[..limit]
  }

  /** Groups hold the first sixty-four of their scope; a scope without one found thirty-two groups there. */
  ghost predicate GroupsAre(groups: seq<Group>, terminals: seq<TerminalRef>) {
    && |groups| <= 32
    && (forall i, j :: 0 <= i < j < |groups| ==> groups[i].scope != groups[j].scope)
    && (forall i :: 0 <= i < |groups| ==>
          groups[i].terminals != [] && groups[i].terminals == FirstOf(Of(terminals, groups[i].scope), 64))
    && (forall scope :: Of(terminals, scope) != [] && !HasScope(groups, scope) ==> |groups| == 32)
  }

  lemma AdmitKeepsGroups(groups: seq<Group>, init: seq<TerminalRef>, last: TerminalRef)
    requires GroupsAre(groups, init)
    ensures GroupsAre(Admit(groups, last), init + [last])
  {
    hide IndexOf, Of, Belongs;
    var scope := ScopeOf(last);
    var index, after := IndexOf(groups, scope), Admit(groups, last);
    ScopeOfIsBelonging(last, scope);
    forall other
      ensures Of(init + [last], other) == Of(init, other) + (if other == scope then [last] else [])
    {
      OfSnoc(init, last, other);
      ScopeOfIsBelonging(last, other);
    }
    forall i | 0 <= i < |after|
      ensures after[i].terminals != [] && after[i].terminals == FirstOf(Of(init + [last], after[i].scope), 64)
    {
      if i < |groups| {
        IndexOfOther(groups, i, scope);
      } else {
        assert Of(init, scope) == [];
      }
    }
    forall other | Of(init + [last], other) != [] && !HasScope(after, other)
      ensures |after| == 32
    {
      HasScopeAdmit(groups, last, other);
    }
  }

  /** A scope has one group: the first that carries it. */
  lemma IndexOfOther(groups: seq<Group>, i: nat, scope: Scope)
    requires i < |groups|
    ensures HasScope(groups, groups[i].scope)
    ensures groups[i].scope == scope ==> IndexOf(groups, scope) <= i
  {
  }

  lemma HasScopeAdmit(groups: seq<Group>, last: TerminalRef, other: Scope)
    ensures HasScope(groups, other) ==> HasScope(Admit(groups, last), other)
    ensures other == ScopeOf(last) && !HasScope(Admit(groups, last), other) ==> |groups| >= 32 && Admit(groups, last) == groups
  {
    hide IndexOf;
    var after := Admit(groups, last);
    if HasScope(groups, other) {
      assert after[IndexOf(groups, other)].scope == other;
      IndexOfOther(after, IndexOf(groups, other), other);
    }
    if |after| > |groups| {
      IndexOfOther(after, |groups|, ScopeOf(last));
    }
  }

  /**
  What a watch list is watched as. Each of the first thirty-two scopes that occur in it is watched
  with its own terminals, in order, up to sixty-four; every terminal is watched or counted as
  refused. A list within both bounds is watched whole.
  */
  lemma {:induction false} GroupedExactly(terminals: seq<TerminalRef>)
    ensures GroupsAre(Grouped(terminals), terminals)
    ensures Drops(terminals) + Tracked(Grouped(terminals)) == |terminals|
  {
    hide Admit;
    if terminals == [] {
      GroupedSnoc([], TerminalRef(0, 0, 0, None, 0));
      assert forall scope :: Of([], scope) == [];
    } else {
      var init, last := terminals[..|terminals| - 1], terminals[|terminals| - 1];
      assert terminals == init + [last];
      GroupedExactly(init);
      GroupedSnoc(init, last);
      AdmitKeepsGroups(Grouped(init), init, last);
      AdmitTracks(Grouped(init), last);
    }
  }

  function Tracked(groups: seq<Group>): nat {
    if groups == [] then 0 else Tracked(groups[..|groups| - 1]) + |groups[|groups| - 1].terminals|
  }

  lemma {:induction false} TrackedUpdate(groups: seq<Group>, index: nat, group: Group)
    requires index < |groups|
    ensures Tracked(groups[index := group]) == Tracked(groups) - |groups[index].terminals| + |group.terminals|
  {
    var init, last := groups[..|groups| - 1], groups[|groups| - 1];
    if index == |groups| - 1 {
      assert groups[index := group][..|groups| - 1] == init;
    } else {
      TrackedUpdate(init, index, group);
      assert groups[index := group][..|groups| - 1] == init[index := group];
    }
  }

  lemma AdmitTracks(groups: seq<Group>, last: TerminalRef)
    ensures Tracked(Admit(groups, last)) == Tracked(groups) + (if Refused(groups, last) then 0 else 1)
  {
    hide IndexOf;
    var index := IndexOf(groups, ScopeOf(last));
    if index < |groups| {
      TrackedUpdate(groups, index, Group(groups[index].scope, groups[index].terminals + [last]));
    } else {
      var group := Group(ScopeOf(last), [last]);
      assert (groups + [group])[..|groups|] == groups;
    }
  }

  /** The watch set in the making: scopes, generations handed out, and whether to wake the worker. */
  datatype Table = Table(scopes: map<Scope, Watched>, nextGeneration: nat, needsObservation: bool)

  predicate Arrived(known: Watched, terminals: seq<TerminalRef>) {
    exists i :: 0 <= i < |terminals| && terminals[i] !in known.terminals
  }

  /** A scope that stays watched keeps its cadence; a changed shape gets a new generation. */
  function Rewatched(known: Watched, terminals: seq<TerminalRef>, generation: nat, epochChanged: bool, now: nat): Watched {
    var changed := known.terminals != terminals || epochChanged;
    Watched(
      known.scope,
      terminals,
      if changed then generation else known.generation,
      if Arrived(known, terminals) || epochChanged then now else known.due,
      if epochChanged then 0 else known.failures,
      known.inFlight && !changed)
  }

  function WatchGroup(table: Table, group: Group, epochChanged: bool, now: nat): Table {
    var next := table.nextGeneration + 1;
    if group.scope !in table.scopes then
      var added := Watched(group.scope, group.terminals, next, now, 0, false);
      Table(table.scopes[group.scope := added], next, true)
    else
      var known := table.scopes[group.scope];
      Table(
        table.scopes[group.scope := Rewatched(known, group.terminals, next, epochChanged, now)],
        if known.terminals != group.terminals || epochChanged then next else table.nextGeneration,
        table.needsObservation || Arrived(known, group.terminals) || epochChanged)
  }

  function WatchGroups(table: Table, groups: seq<Group>, epochChanged: bool, now: nat): Table {
    if groups == [] then table
    else
      WatchGroup(WatchGroups(table, groups[..|groups| - 1], epochChanged, now), groups[|groups| - 1], epochChanged, now)
  }

  function Retained(scopes: map<Scope, Watched>, groups: seq<Group>): map<Scope, Watched> {
    map scope | scope in scopes && HasScope(groups, scope) :: scopes[scope]
  }

  function WatchTable(state: State, epoch: nat, terminals: seq<TerminalRef>, now: nat): Table {
    var groups := Grouped(terminals);
    WatchGroups(Table(Retained(state.scopes, groups), state.nextGeneration, false), groups, epoch != state.epoch, now)
  }

  function Watch(state: State, epoch: nat, terminals: seq<TerminalRef>, now: nat): State {
    var table := WatchTable(state, epoch, terminals, now);
    State(table.scopes, epoch, table.nextGeneration, state.exited,
          state.metrics.(watchDrops := state.metrics.watchDrops + Drops(terminals)))
  }

  // ---------------------------------------------------------------- rounds

  predicate Free(watched: Watched, now: nat) {
    watched.due <= now && !watched.inFlight
  }

  function DueScopes(state: State, now: nat): set<Scope> {
    set scope | scope in state.scopes && Free(state.scopes[scope], now)
  }

  function BusyScopes(state: State, now: nat): set<Scope> {
    set scope | scope in state.scopes && state.scopes[scope].due <= now && state.scopes[scope].inFlight
  }

  function Launched(scopes: map<Scope, Watched>, now: nat): map<Scope, Watched> {
    map scope | scope in scopes ::
      if Free(scopes[scope], now) then scopes[scope].(inFlight := true) else scopes[scope]
  }

  function BeginRound(state: State, now: nat): State {
    state.(
      scopes := Launched(state.scopes, now),
      metrics := state.metrics.(
        coalesced := state.metrics.coalesced + |BusyScopes(state, now)|,
        observations := state.metrics.observations + |DueScopes(state, now)|))
  }

  function JobOf(state: State, scope: Scope): Job
    requires scope in state.scopes
  {
    Job(scope, state.epoch, state.scopes[scope].generation)
  }

  /** One job per due and free scope, none twice, none else. */
  ghost predicate JobsOf(state: State, now: nat, jobs: seq<Job>) {
    && (forall i :: 0 <= i < |jobs| ==> jobs[i].scope in DueScopes(state, now) && jobs[i] == JobOf(state, jobs[i].scope))
    && (forall i, j :: 0 <= i < j < |jobs| ==> jobs[i].scope != jobs[j].scope)
    && (forall scope :: scope in DueScopes(state, now) ==> JobOf(state, scope) in jobs)
  }

  // ---------------------------------------------------------------- completions

  /** How long a scope rests after this many straight failures; none means after a success. */
  function Rest(failures: nat): nat {
    if failures == 0 then INVENTORY_INTERVAL
    else
      var shift := if failures - 1 < 4 then failures - 1 else 4;
      var delay := BACKOFF_BASE * Doublings(shift);
      if delay < BACKOFF_MAX then delay else BACKOFF_MAX
  }

  function Backed(watched: Watched, now: nat): Watched {
    watched.(failures := watched.failures + 1, due := now + Rest(watched.failures + 1))
  }

  /** The first line about a terminal decides; a terminal the reply omits is not known dead. */
  predicate Dead(entries: seq<Entry>, terminal: TerminalRef) {
    if entries == [] then false
    else if entries[0].terminal == terminal then !entries[0].live
    else Dead(entries[1..], terminal)
  }

  predicate InScope(entries: seq<Entry>, scope: Scope) {
    forall i :: 0 <= i < |entries| ==> ScopeOf(entries[i].terminal) == scope
  }

  /** The first line of a reply about a terminal. */
  predicate FirstLine(entries: seq<Entry>, terminal: TerminalRef, i: nat) {
    i < |entries| && entries[i].terminal == terminal && forall k :: 0 <= k < i ==> entries[k].terminal != terminal
  }

  /** A reply says that a terminal is gone: it has lines about it, and the first does not list it as live. */
  ghost predicate ListedDead(entries: seq<Entry>, terminal: TerminalRef) {
    exists i: nat :: FirstLine(entries, terminal, i) && !entries[i].live
  }

  lemma {:induction false} DeadIsListedDead(entries: seq<Entry>, terminal: TerminalRef)
    ensures Dead(entries, terminal) <==> ListedDead(entries, terminal)
  {
    if entries != [] {
      var rest := entries[1..];
      DeadIsListedDead(rest, terminal);
      if entries[0].terminal == terminal {
        assert FirstLine(entries, terminal, 0);
      } else {
        if i: nat :| FirstLine(rest, terminal, i) && !rest[i].live {
          assert FirstLine(entries, terminal, i + 1);
        }
        if i: nat :| FirstLine(entries, terminal, i) && !entries[i].live {
          assert FirstLine(rest, terminal, i - 1);
        }
      }
    }
  }

  lemma DeadAreListedDead(entries: seq<Entry>)
    ensures forall terminal :: Dead(entries, terminal) <==> ListedDead(entries, terminal)
  {
    forall terminal
      ensures Dead(entries, terminal) <==> ListedDead(entries, terminal)
    {
      DeadIsListedDead(entries, terminal);
    }
  }

  /** A terminal belongs to a scope by its workspace, its session and its worktree. */
  predicate Belongs(terminal: TerminalRef, scope: Scope) {
    terminal.workspace == scope.workspace && terminal.session == scope.session && terminal.worktree == scope.worktree
  }

  lemma ScopeOfIsBelonging(terminal: TerminalRef, scope: Scope)
    ensures ScopeOf(terminal) == scope <==> Belongs(terminal, scope)
  {
  }

  lemma InScopeIsBelonging(entries: seq<Entry>, scope: Scope)
    ensures InScope(entries, scope) <==> forall i :: 0 <= i < |entries| ==> Belongs(entries[i].terminal, scope)
  {
  }

  /** A sweep in the making: who stays tracked, who was queued, and who found the queue full. */
  datatype Sweep = Sweep(still: seq<TerminalRef>, queued: seq<TerminalRef>, drops: nat)

  function Swept(terminals: seq<TerminalRef>, entries: seq<Entry>, waiting: nat): Sweep {
    if terminals == [] then Sweep([], [], 0)
    else
      var before := Swept(terminals[..|terminals| - 1], entries, waiting);
      var terminal := terminals[|terminals| - 1];
      if !Dead(entries, terminal) then before.(still := before.still + [terminal])
      else if waiting + |before.queued| >= MAX_QUEUED_EXITS then
        before.(still := before.still + [terminal], drops := before.drops + 1)
      else before.(queued := before.queued + [terminal])
  }

  /** Still current: same epoch, and the scope is watched under the generation of the dispatch. */
  predicate Current(state: State, job: Job) {
    job.epoch == state.epoch && job.scope in state.scopes && state.scopes[job.scope].generation == job.generation
  }

  function Observed(state: State, job: Job, entries: seq<Entry>, now: nat): State
    requires job.scope in state.scopes
  {
    var watched := state.scopes[job.scope];
    var sweep := Swept(watched.terminals, entries, |state.exited|);
    state.(
      scopes := state.scopes[job.scope := watched.(
        terminals := sweep.still, failures := 0, due := now + INVENTORY_INTERVAL, inFlight := false)],
      exited := state.exited + sweep.queued,
      metrics := state.metrics.(
        queueDrops := state.metrics.queueDrops + sweep.drops,
        exitsObserved := state.metrics.exitsObserved + |sweep.queued|))
  }

  function FailedBy(state: State, job: Job, mismatch: bool, now: nat): State
    requires job.scope in state.scopes
  {
    state.(
      scopes := state.scopes[job.scope := Backed(state.scopes[job.scope].(inFlight := false), now)],
      metrics := state.metrics.(
        scopeMismatches := state.metrics.scopeMismatches + (if mismatch then 1 else 0),
        failures := state.metrics.failures + 1))
  }

  function Apply(state: State, job: Job, reply: Reply, now: nat): State {
    if !Current(state, job) then
      state.(metrics := state.metrics.(fencedDrops := state.metrics.fencedDrops + 1))
    else match reply
      case Unanswered => FailedBy(state, job, false, now)
      case Listed(entries) =>
        if InScope(entries, job.scope) then Observed(state, job, entries, now)
        else FailedBy(state, job, true, now)
  }

  // ---------------------------------------------------------------- drain and wait

  function Taken(state: State, limit: nat): nat {
    if |state.exited| < limit then |state.exited| else limit
  }

  function TakeExited(state: State, limit: nat): State {
    state.(exited := state.exited[Taken(state, limit)..])
  }

  function Until(due: nat, now: nat): nat {
    if due < now then 0 else due - now
  }

  /** The shortest time to a free scope's next round. */
  ghost predicate NextWait(state: State, now: nat, wait: nat) {
    if forall scope :: scope in state.scopes ==> state.scopes[scope].inFlight then wait == UNWATCHED_INTERVAL
    else
      && (forall scope :: scope in state.scopes && !state.scopes[scope].inFlight ==> wait <= Until(state.scopes[scope].due, now))
      && (exists scope :: scope in state.scopes && !state.scopes[scope].inFlight && wait == Until(state.scopes[scope].due, now))
  }

  /**
  Waiting is exact: no round before the announced time dispatches anything, and a round at that
  time dispatches something whenever a scope is free to be observed.
  */
  lemma WaitingIsExact(state: State, now: nat, wait: nat, later: nat)
    requires NextWait(state, now, wait) && now <= later
    ensures (forall scope :: scope in state.scopes ==> state.scopes[scope].inFlight) ==> wait == 250
    ensures later < now + wait ==> DueScopes(state, later) == {}
    ensures later == now + wait && (exists scope :: scope in state.scopes && !state.scopes[scope].inFlight)
            ==> DueScopes(state, later) != {}
  {
    if later == now + wait && exists scope :: scope in state.scopes && !state.scopes[scope].inFlight {
      var scope :| scope in state.scopes && !state.scopes[scope].inFlight && wait == Until(state.scopes[scope].due, now);
      assert scope in DueScopes(state, later);
    }
  }
}
