/**
`InventoryState` of src/runtime/inventory_pump.rs: the same fields, changed in place by the same
loops. Every method is proved against its function in Inventory.dfy; the vector of watched scopes
is read as a table, which `Valid` makes exact by keeping its scopes distinct.
*/
module InventoryPump {
  import opened Numbers
  import opened Wrappers
  import opened Inventory

  function TableOf(scopes: seq<Watched>): map<Scope, Watched> {
    if scopes == [] then map[]
    else
      var last := scopes[|scopes| - 1];
      TableOf(scopes[..|scopes| - 1])[last.scope := last]
  }

  predicate Distinct(scopes: seq<Watched>) {
    scopes == [] ||
    (scopes[|scopes| - 1].scope !in TableOf(scopes[..|scopes| - 1]) && Distinct(scopes[..|scopes| - 1]))
  }

  lemma TableSnoc(scopes: seq<Watched>, watched: Watched)
    ensures TableOf(scopes + [watched]) == TableOf(scopes)[watched.scope := watched]
    ensures Distinct(scopes + [watched]) <==> Distinct(scopes) && watched.scope !in TableOf(scopes)
  {
    assert (scopes + [watched])[..|scopes|] == scopes;
  }

  lemma {:induction false} TableAt(scopes: seq<Watched>, index: nat)
    requires Distinct(scopes) && index < |scopes|
    ensures scopes[index].scope in TableOf(scopes) && TableOf(scopes)[scopes[index].scope] == scopes[index]
  {
    if index < |scopes| - 1 {
      TableAt(scopes[..|scopes| - 1], index);
    }
  }

  lemma {:induction false} TableUpdate(scopes: seq<Watched>, index: nat, watched: Watched)
    requires Distinct(scopes) && index < |scopes| && watched.scope == scopes[index].scope
    ensures Distinct(scopes[index := watched])
    ensures TableOf(scopes[index := watched]) == TableOf(scopes)[watched.scope := watched]
  {
    var init, last := scopes[..|scopes| - 1], scopes[|scopes| - 1];
    var updated := scopes[index := watched];
    if index == |scopes| - 1 {
      assert updated[..|scopes| - 1] == init;
    } else {
      assert updated[..|scopes| - 1] == init[index := watched];
      TableAt(init, index);
      TableUpdate(init, index, watched);
    }
  }

  /** `iter().position`: the first scope that matches, or the length. */
  function Position(scopes: seq<Watched>, scope: Scope): (index: nat)
    ensures index <= |scopes|
    ensures index < |scopes| ==> scopes[index].scope == scope
  {
    if scopes == [] then 0
    else if scopes[0].scope == scope then 0
    else 1 + Position(scopes[1..], scope)
  }

  lemma {:induction false} PositionSnoc(scopes: seq<Watched>, last: Watched, scope: Scope)
    ensures Position(scopes + [last], scope)
            == if Position(scopes, scope) < |scopes| then Position(scopes, scope)
               else if last.scope == scope then |scopes| else |scopes| + 1
  {
    if scopes != [] {
      PositionSnoc(scopes[1..], last, scope);
      assert (scopes + [last])[1..] == scopes[1..] + [last];
    }
  }

  lemma {:induction false} PositionFinds(scopes: seq<Watched>, scope: Scope)
    ensures Position(scopes, scope) < |scopes| <==> scope in TableOf(scopes)
  {
    if scopes != [] {
      var init, last := scopes[..|scopes| - 1], scopes[|scopes| - 1];
      PositionFinds(init, scope);
      PositionSnoc(init, last, scope);
      assert init + [last] == scopes;
    }
  }

  // ---------------------------------------------------------------- passes over the vector

  function KeptIn(scopes: seq<Watched>, groups: seq<Group>): seq<Watched> {
    if scopes == [] then []
    else
      var init, last := KeptIn(scopes[..|scopes| - 1], groups), scopes[|scopes| - 1];
      if HasScope(groups, last.scope) then init + [last] else init
  }

  lemma {:induction false} KeptIsRetained(scopes: seq<Watched>, groups: seq<Group>)
    requires Distinct(scopes)
    ensures Distinct(KeptIn(scopes, groups)) && TableOf(KeptIn(scopes, groups)) == Retained(TableOf(scopes), groups)
  {
    hide HasScope, Retained;
    if scopes == [] {
      RetainedEmpty(groups);
    } else {
      var init, last := scopes[..|scopes| - 1], scopes[|scopes| - 1];
      KeptIsRetained(init, groups);
      RetainedSnoc(TableOf(init), last, groups);
      TableSnoc(KeptIn(init, groups), last);
    }
  }

  lemma RetainedEmpty(groups: seq<Group>)
    ensures Retained(map[], groups) == map[]
  {
  }

  lemma RetainedSnoc(table: map<Scope, Watched>, last: Watched, groups: seq<Group>)
    requires last.scope !in table
    ensures last.scope !in Retained(table, groups)
    ensures Retained(table[last.scope := last], groups)
            == if HasScope(groups, last.scope) then Retained(table, groups)[last.scope := last] else Retained(table, groups)
  {
    hide HasScope;
  }

  function LaunchOne(watched: Watched, now: nat): Watched {
    if Free(watched, now) then watched.(inFlight := true) else watched
  }

  function LaunchedIn(scopes: seq<Watched>, now: nat): (launched: seq<Watched>)
    ensures |launched| == |scopes|
  {
    if scopes == [] then []
    else LaunchedIn(scopes[..|scopes| - 1], now) + [LaunchOne(scopes[|scopes| - 1], now)]
  }

  function JobsIn(scopes: seq<Watched>, epoch: nat, now: nat): seq<Job> {
    if scopes == [] then []
    else
      var jobs, last := JobsIn(scopes[..|scopes| - 1], epoch, now), scopes[|scopes| - 1];
      if Free(last, now) then jobs + [Job(last.scope, epoch, last.generation)] else jobs
  }

  function BusyIn(scopes: seq<Watched>, now: nat): nat {
    if scopes == [] then 0
    else
      var last := scopes[|scopes| - 1];
      BusyIn(scopes[..|scopes| - 1], now) + (if last.due <= now && last.inFlight then 1 else 0)
  }

  lemma {:induction false} LaunchedIsLaunched(scopes: seq<Watched>, now: nat)
    requires Distinct(scopes)
    ensures Distinct(LaunchedIn(scopes, now)) && TableOf(LaunchedIn(scopes, now)) == Launched(TableOf(scopes), now)
  {
    if scopes != [] {
      var init, last := scopes[..|scopes| - 1], scopes[|scopes| - 1];
      LaunchedIsLaunched(init, now);
      TableSnoc(LaunchedIn(init, now), LaunchOne(last, now));
    }
  }

  /** The three passes, one scope further. */
  lemma RoundStep(scopes: seq<Watched>, i: nat, epoch: nat, now: nat)
    requires i < |scopes|
    ensures LaunchedIn(scopes[..i + 1], now) == LaunchedIn(scopes[..i], now) + [LaunchOne(scopes[i], now)]
    ensures LaunchedIn(scopes[..i + 1], now) + scopes[i + 1..]
            == (LaunchedIn(scopes[..i], now) + scopes[i..])[i := LaunchOne(scopes[i], now)]
    ensures (LaunchedIn(scopes[..i], now) + scopes[i..])[i] == scopes[i]
    ensures JobsIn(scopes[..i + 1], epoch, now)
            == JobsIn(scopes[..i], epoch, now) + (if Free(scopes[i], now) then [Job(scopes[i].scope, epoch, scopes[i].generation)] else [])
    ensures BusyIn(scopes[..i + 1], now)
            == BusyIn(scopes[..i], now) + (if scopes[i].due <= now && scopes[i].inFlight then 1 else 0)
  {
    assert scopes[..i + 1][..i] == scopes[..i];
  }

  lemma RoundStart(epoch: nat, now: nat)
    ensures JobsIn([], epoch, now) == [] && BusyIn([], now) == 0
  {
  }

  lemma RoundDone(scopes: seq<Watched>, now: nat)
    ensures scopes[..|scopes|] == scopes && LaunchedIn(scopes, now) + scopes[|scopes|..] == LaunchedIn(scopes, now)
    ensures LaunchedIn(scopes[..0], now) + scopes[0..] == scopes
  {
  }

  /** A round over the vector is the round over the table. */
  lemma {:induction false} RoundIs(scopes: seq<Watched>, state: State, now: nat)
    requires Distinct(scopes) && state.scopes == TableOf(scopes)
    ensures JobsOf(state, now, JobsIn(scopes, state.epoch, now))
    ensures |JobsIn(scopes, state.epoch, now)| == |DueScopes(state, now)|
    ensures BusyIn(scopes, now) == |BusyScopes(state, now)|
  {
    hide Distinct, TableOf, JobsOf, DueScopes, BusyScopes;
    if scopes == [] {
      EmptyRound(state, now);
    } else {
      var init, last := scopes[..|scopes| - 1], scopes[|scopes| - 1];
      var before := state.(scopes := TableOf(init));
      TableSnoc(init, last);
      assert scopes == init + [last];
      assert state == before.(scopes := before.scopes[last.scope := last]);
      RoundIs(init, before, now);
      RoundSnoc(before, last, now, JobsIn(init, state.epoch, now));
    }
  }

  lemma EmptyRound(state: State, now: nat)
    requires state.scopes == TableOf([])
    ensures JobsOf(state, now, []) && DueScopes(state, now) == {} && BusyScopes(state, now) == {}
  {
  }

  lemma RoundSnoc(state: State, last: Watched, now: nat, jobs: seq<Job>)
    requires last.scope !in state.scopes
    requires JobsOf(state, now, jobs)
    ensures var after := state.(scopes := state.scopes[last.scope := last]);
            && DueScopes(after, now) == DueScopes(state, now) + (if Free(last, now) then {last.scope} else {})
            && BusyScopes(after, now) == BusyScopes(state, now) + (if last.due <= now && last.inFlight then {last.scope} else {})
            && last.scope !in DueScopes(state, now) && last.scope !in BusyScopes(state, now)
            && JobsOf(after, now, if Free(last, now) then jobs + [JobOf(after, last.scope)] else jobs)
  {
    var after := state.(scopes := state.scopes[last.scope := last]);
    var more := if Free(last, now) then jobs + [JobOf(after, last.scope)] else jobs;
    forall scope | scope in DueScopes(after, now)
      ensures JobOf(after, scope) in more
    {
      if scope == last.scope {
        assert more[|jobs|] == JobOf(after, scope);
      } else {
        assert scope in DueScopes(state, now) && JobOf(state, scope) in jobs;
      }
    }
  }

  lemma AdmitChanges(groups: seq<Group>, terminal: TerminalRef)
    ensures var index := IndexOf(groups, ScopeOf(terminal));
            Refused(groups, terminal) <==>
              if index < |groups| then |groups[index].terminals| >= MAX_TERMINALS_PER_SCOPE
              else |groups| >= MAX_SCOPES
  {
    var index := IndexOf(groups, ScopeOf(terminal));
    if index < |groups| {
      assert |groups[index].terminals + [terminal]| != |groups[index].terminals|;
    }
  }

  lemma GroupsStart(table: Table, groups: seq<Group>, epochChanged: bool, now: nat)
    ensures WatchGroups(table, groups[..0], epochChanged, now) == table
  {
  }

  lemma GroupsStep(table: Table, groups: seq<Group>, g: nat, epochChanged: bool, now: nat)
    requires g < |groups|
    ensures WatchGroups(table, groups[..g + 1], epochChanged, now)
            == WatchGroup(WatchGroups(table, groups[..g], epochChanged, now), groups[g], epochChanged, now)
  {
    assert groups[..g + 1][..g] == groups[..g];
  }

  lemma WakesAdd(table: Table, group: Group, epochChanged: bool, now: nat)
    ensures var quiet := WatchGroup(table.(needsObservation := false), group, epochChanged, now);
            WatchGroup(table, group, epochChanged, now)
            == quiet.(needsObservation := table.needsObservation || quiet.needsObservation)
  {
  }

  class InventoryState {
    var scopes: seq<Watched>
    var epoch: nat
    var nextGeneration: nat
    var exited: seq<TerminalRef>
    var metrics: Metrics

    constructor ()
      ensures Valid() && View() == INITIAL
    {
      scopes, epoch, nextGeneration, exited := [], 0, 0, [];
      metrics := Metrics(0, 0, 0, 0, 0, 0, 0, 0);
    }

    ghost predicate Valid()
      reads this
    {
      Distinct(scopes)
    }

    ghost function View(): State
      reads this
    {
      State(TableOf(scopes), epoch, nextGeneration, exited, metrics)
    }

    /** `watch`: replace the watched set; tells whether the worker must look sooner than planned. */
    method Watch(epoch: nat, terminals: seq<TerminalRef>, now: nat) returns (needsObservation: bool)
      requires Valid()
      modifies this
      ensures Valid()
      ensures View() == Inventory.Watch(old(View()), epoch, terminals, now)
      ensures needsObservation == WatchTable(old(View()), epoch, terminals, now).needsObservation
    {
      hide TableOf, Distinct, WatchGroup, WatchGroups, Grouped, Drops, Retained;
      var epochChanged := epoch != this.epoch;
      this.epoch := epoch;
      var grouped := GroupTerminals(terminals);
      ghost var start := Table(Retained(TableOf(scopes), grouped), nextGeneration, false);
      KeepWatched(grouped);
      needsObservation := false;
      GroupsStart(start, grouped, epochChanged, now);
      for g := 0 to |grouped|
        invariant Distinct(scopes)
        invariant Table(TableOf(scopes), nextGeneration, needsObservation)
                  == WatchGroups(start, grouped[..g], epochChanged, now)
        invariant this.epoch == epoch && exited == old(exited)
        invariant metrics == old(metrics).(watchDrops := old(metrics).watchDrops + Drops(terminals))
      {
        GroupsStep(start, grouped, g, epochChanged, now);
        WakesAdd(Table(TableOf(scopes), nextGeneration, needsObservation), grouped[g], epochChanged, now);
        var more := WatchOne(grouped[g], epochChanged, now);
        needsObservation := needsObservation || more;
      }
      assert grouped[..|grouped|] == grouped;
    }

    /** The grouping loop of `watch`, within both bounds. */
    method GroupTerminals(terminals: seq<TerminalRef>) returns (grouped: seq<Group>)
      modifies this`metrics
      ensures grouped == Grouped(terminals)
      ensures metrics == old(metrics).(watchDrops := old(metrics).watchDrops + Drops(terminals))
    {
      grouped := [];
      for i := 0 to |terminals|
        invariant grouped == Grouped(terminals[..i])
        invariant metrics == old(metrics).(watchDrops := old(metrics).watchDrops + Drops(terminals[..i]))
      {
        assert terminals[..i + 1] == terminals[..i] + [terminals[i]];
        GroupedSnoc(terminals[..i], terminals[i]);
        AdmitChanges(grouped, terminals[i]);
        var scope := ScopeOf(terminals[i]);
        var index := IndexOf(grouped, scope);
        if index < |grouped| {
          var tracked := grouped[index].terminals;
          if |tracked| >= MAX_TERMINALS_PER_SCOPE {
            metrics := metrics.(watchDrops := metrics.watchDrops + 1);
            continue;
          }
          grouped := grouped[index := Group(scope, tracked + [terminals[i]])];
        } else if |grouped| >= MAX_SCOPES {
          metrics := metrics.(watchDrops := metrics.watchDrops + 1);
        } else {
          grouped := grouped + [Group(scope, [terminals[i]])];
        }
      }
      assert terminals[..|terminals|] == terminals;
    }

    /** The `retain` of `watch`: scopes that left the set stop being observed. */
    method KeepWatched(grouped: seq<Group>)
      requires Valid()
      modifies this`scopes
      ensures Valid() && TableOf(scopes) == Retained(old(TableOf(scopes)), grouped)
    {
      var kept: seq<Watched> := [];
      for i := 0 to |scopes|
        invariant scopes == old(scopes) && kept == KeptIn(scopes[..i], grouped)
      {
        assert scopes[..i + 1][..i] == scopes[..i];
        if HasScope(grouped, scopes[i].scope) {
          kept := kept + [scopes[i]];
        }
      }
      assert scopes[..|scopes|] == scopes;
      KeptIsRetained(scopes, grouped);
      scopes := kept;
    }

    /** The body of `watch`'s last loop: one group of the new set. */
    method WatchOne(group: Group, epochChanged: bool, now: nat) returns (needsObservation: bool)
      requires Valid()
      modifies this`scopes, this`nextGeneration
      ensures Valid()
      ensures Table(TableOf(scopes), nextGeneration, needsObservation)
              == WatchGroup(Table(old(TableOf(scopes)), old(nextGeneration), false), group, epochChanged, now)
    {
      hide TableOf, Distinct, Position;
      PositionFinds(scopes, group.scope);
      var index := Position(scopes, group.scope);
      if index == |scopes| {
        nextGeneration := nextGeneration + 1;
        var watched := Watched(group.scope, group.terminals, nextGeneration, now, 0, false);
        TableSnoc(scopes, watched);
        scopes := scopes + [watched];
        return true;
      }
      TableAt(scopes, index);
      var next := nextGeneration + 1;
      var watched := scopes[index];
      var changed := watched.terminals != group.terminals;
      var arrived := exists i :: 0 <= i < |group.terminals| && group.terminals[i] !in watched.terminals;
      watched := watched.(terminals := group.terminals);
      if changed || epochChanged {
        nextGeneration := next;
        // A job of the old list can no longer complete, which frees the slot.
        watched := watched.(generation := next, inFlight := false);
      }
      needsObservation := false;
      if arrived || epochChanged {
        watched := watched.(due := now);
        needsObservation := true;
      }
      if epochChanged {
        watched := watched.(failures := 0);
      }
      TableUpdate(scopes, index, watched);
      scopes := scopes[index := watched];
    }

    /** `begin_round`: every due scope with a free slot is asked once, and takes its slot. */
    method BeginRound(now: nat) returns (jobs: seq<Job>)
      requires Valid()
      modifies this`scopes, this`metrics
      ensures Valid()
      ensures View() == Inventory.BeginRound(old(View()), now)
      ensures JobsOf(old(View()), now, jobs)
    {
      hide TableOf, Distinct, LaunchedIn, JobsIn, BusyIn;
      jobs := [];
      var coalesced := 0;
      ghost var before := scopes;
      RoundDone(before, now);
      RoundStart(epoch, now);
      for i := 0 to |scopes|
        invariant metrics == old(metrics) && |scopes| == |before|
        invariant scopes == LaunchedIn(before[..i], now) + before[i..]
        invariant jobs == JobsIn(before[..i], epoch, now) && coalesced == BusyIn(before[..i], now)
      {
        RoundStep(before, i, epoch, now);
        var watched := scopes[i];
        if watched.due > now {
          assert scopes[i := watched] == scopes;
          continue;
        }
        if watched.inFlight {
          assert scopes[i := watched] == scopes;
          coalesced := coalesced + 1;
          continue;
        }
        scopes := scopes[i := watched.(inFlight := true)];
        jobs := jobs + [Job(watched.scope, epoch, watched.generation)];
      }
      metrics := metrics.(coalesced := metrics.coalesced + coalesced, observations := metrics.observations + |jobs|);
      LaunchedIsLaunched(before, now);
      assert before[..|before|] == before;
      RoundIs(before, old(View()), now);
    }

    /** `fail`: back one scope off. */
    method Fail(index: nat, now: nat)
      requires Valid() && index < |scopes|
      modifies this`scopes, this`metrics
      ensures Valid() && scopes == old(scopes)[index := Backed(old(scopes)[index], now)]
      ensures metrics == old(metrics).(failures := old(metrics).failures + 1)
    {
      metrics := metrics.(failures := metrics.failures + 1);
      var watched := scopes[index];
      watched := watched.(failures := watched.failures + 1);
      var shift := if watched.failures - 1 < 4 then watched.failures - 1 else 4;
      var delay := BACKOFF_BASE * Doublings(shift);
      if delay > BACKOFF_MAX {
        delay := BACKOFF_MAX;
      }
      watched := watched.(due := now + delay);
      TableUpdate(scopes, index, watched);
      scopes := scopes[index := watched];
    }

    /** `apply`: the reply to one job, if the job is still current. */
    method Apply(job: Job, reply: Reply, now: nat)
      requires Valid()
      modifies this
      ensures Valid()
      ensures View() == Inventory.Apply(old(View()), job, reply, now)
    {
      hide TableOf, Distinct, Position, Swept;
      PositionFinds(scopes, job.scope);
      if job.epoch != epoch {
        metrics := metrics.(fencedDrops := metrics.fencedDrops + 1);
        return;
      }
      var index := Position(scopes, job.scope);
      if index < |scopes| {
        TableAt(scopes, index);
      }
      if index == |scopes| || scopes[index].generation != job.generation {
        metrics := metrics.(fencedDrops := metrics.fencedDrops + 1);
        return;
      }
      ghost var before := scopes;
      var watched := scopes[index].(inFlight := false);
      TableUpdate(before, index, watched);
      scopes := scopes[index := watched];
      if reply.Unanswered? || !InScope(reply.entries, job.scope) {
        if reply.Listed? {
          metrics := metrics.(scopeMismatches := metrics.scopeMismatches + 1);
        }
        Fail(index, now);
        TableUpdate(before, index, Backed(watched, now));
        assert scopes == before[index := Backed(watched, now)];
        return;
      }
      var stillTracked := QueueExits(watched.terminals, reply.entries);
      var settled := watched.(terminals := stillTracked, failures := 0, due := now + INVENTORY_INTERVAL);
      TableUpdate(before, index, settled);
      scopes := scopes[index := settled];
      assert scopes == before[index := settled];
    }

    /** The sweep of `apply`: each terminal known dead is queued, if the queue has room. */
    method QueueExits(terminals: seq<TerminalRef>, entries: seq<Entry>) returns (stillTracked: seq<TerminalRef>)
      modifies this`exited, this`metrics
      ensures var sweep := Swept(terminals, entries, |old(exited)|);
              && stillTracked == sweep.still && exited == old(exited) + sweep.queued
              && metrics == old(metrics).(queueDrops := old(metrics).queueDrops + sweep.drops,
                                          exitsObserved := old(metrics).exitsObserved + |sweep.queued|)
    {
      stillTracked := [];
      for i := 0 to |terminals|
        invariant var sweep := Swept(terminals[..i], entries, |old(exited)|);
                  && stillTracked == sweep.still && exited == old(exited) + sweep.queued
                  && metrics == old(metrics).(queueDrops := old(metrics).queueDrops + sweep.drops,
                                              exitsObserved := old(metrics).exitsObserved + |sweep.queued|)
      {
        assert terminals[..i + 1][..i] == terminals[..i];
        var terminal := terminals[i];
        if !Dead(entries, terminal) {
          stillTracked := stillTracked + [terminal];
          continue;
        }
        if |exited| >= MAX_QUEUED_EXITS {
          metrics := metrics.(queueDrops := metrics.queueDrops + 1);
          stillTracked := stillTracked + [terminal];
          continue;
        }
        metrics := metrics.(exitsObserved := metrics.exitsObserved + 1);
        exited := exited + [terminal];
      }
      assert terminals[..|terminals|] == terminals;
    }

    /** `take_exited`: a bounded drain, oldest first. */
    method TakeExited(limit: nat) returns (taken: seq<TerminalRef>)
      modifies this`exited
      ensures View() == Inventory.TakeExited(old(View()), limit)
      ensures taken + exited == old(exited) && |taken| <= limit && (|taken| < limit ==> exited == [])
    {
      var count := if |exited| < limit then |exited| else limit;
      taken := exited[..count];
      exited := exited[count..];
    }

    /** `next_wait`: the least time until a free scope is due. */
    method NextWait(now: nat) returns (wait: nat)
      requires Valid()
      ensures Inventory.NextWait(View(), now, wait)
    {
      hide TableOf, Distinct, WaitSoFar;
      var least: Option<nat> := None;
      WaitStart(View(), now);
      for i := 0 to |scopes|
        invariant WaitSoFar(State(TableOf(scopes[..i]), epoch, nextGeneration, exited, metrics), now, least)
      {
        assert scopes[..i + 1] == scopes[..i] + [scopes[i]];
        DistinctPrefix(scopes, i + 1);
        TableSnoc(scopes[..i], scopes[i]);
        WaitSnoc(State(TableOf(scopes[..i]), epoch, nextGeneration, exited, metrics), scopes[i], now, least);
        if !scopes[i].inFlight {
          var until := Until(scopes[i].due, now);
          if least.None? || until < least.value {
            least := Some(until);
          }
        }
      }
      assert scopes[..|scopes|] == scopes;
      wait := if least.Some? then least.value else UNWATCHED_INTERVAL;
      WaitEnd(View(), now, least);
    }
  }

  lemma {:induction false} DistinctPrefix(scopes: seq<Watched>, n: nat)
    requires Distinct(scopes) && n <= |scopes|
    ensures Distinct(scopes[..n])
  {
    if n < |scopes| {
      DistinctPrefix(scopes[..|scopes| - 1], n);
      assert scopes[..|scopes| - 1][..n] == scopes[..n];
    } else {
      assert scopes[..n] == scopes;
    }
  }

  lemma WaitStart(state: State, now: nat)
    ensures WaitSoFar(state.(scopes := TableOf([])), now, None)
  {
  }

  lemma WaitEnd(state: State, now: nat, least: Option<nat>)
    requires WaitSoFar(state, now, least)
    ensures Inventory.NextWait(state, now, if least.Some? then least.value else UNWATCHED_INTERVAL)
  {
  }

  lemma WaitSnoc(state: State, last: Watched, now: nat, least: Option<nat>)
    requires last.scope !in state.scopes && WaitSoFar(state, now, least)
    ensures var until := Until(last.due, now);
            WaitSoFar(state.(scopes := state.scopes[last.scope := last]), now,
                      if !last.inFlight && (least.None? || until < least.value) then Some(until) else least)
  {
    var after := state.(scopes := state.scopes[last.scope := last]);
    if last.inFlight {
      assert forall scope :: scope in state.scopes ==> after.scopes[scope] == state.scopes[scope];
      if least.Some? {
        var scope :| scope in state.scopes && !state.scopes[scope].inFlight && least.value == Until(state.scopes[scope].due, now);
        assert !after.scopes[scope].inFlight;
      }
    } else {
      assert !after.scopes[last.scope].inFlight;
      if least.Some? && least.value <= Until(last.due, now) {
        var scope :| scope in state.scopes && !state.scopes[scope].inFlight && least.value == Until(state.scopes[scope].due, now);
        assert !after.scopes[scope].inFlight && least.value == Until(after.scopes[scope].due, now);
      }
    }
  }

  /** The minimum over the scopes looked at so far, none if all of them are in flight. */
  ghost predicate WaitSoFar(state: State, now: nat, least: Option<nat>) {
    if forall scope :: scope in state.scopes ==> state.scopes[scope].inFlight then least.None?
    else least.Some? && Inventory.NextWait(state, now, least.value)
  }
}
