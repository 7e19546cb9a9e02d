/**
The table of children a daemon process observed itself (src/runtime/daemon.rs), and the release
tokens that empty it, while the kernel hands out pids again.
*/
module SpawnedChildren {
  import opened Wrappers

  /** `start` and `group` tell processes apart that share a pid. */
  datatype ChildIdentity = ChildIdentity(pid: nat, group: nat, source: nat, start: nat)

  predicate IsSameChild(recorded: ChildIdentity, start: nat, group: nat) {
    recorded.start == start && recorded.group == group
  }

  function Released(table: map<nat, ChildIdentity>, identity: ChildIdentity): map<nat, ChildIdentity> {
    if identity.pid in table && IsSameChild(table[identity.pid], identity.start, identity.group)
    then table - {identity.pid}
    else table
  }

  class Children {
    var table: map<nat, ChildIdentity>
    /** A panic while the table was locked: every later lock fails. */
    var poisoned: bool

    constructor ()
      ensures table == map[] && !poisoned
    {
      table, poisoned := map[], false;
    }

    /** `observe`: the token is handed out exactly when the proof was recorded. */
    method Observe(probed: Option<ChildIdentity>) returns (token: Option<ChildIdentity>)
      modifies this`table
      ensures token == if poisoned then None else probed
      ensures table == if token.Some? then old(table)[token.value.pid := token.value] else old(table)
    {
      if probed.None? {
        return None;
      }
      var identity := probed.value;
      if poisoned {
        return None;
      }
      table := table[identity.pid := identity];
      return Some(identity);
    }

    /** `release`, which dropping a token runs. */
    method Release(identity: ChildIdentity)
      modifies this`table
      ensures table == if poisoned then old(table) else Released(old(table), identity)
      ensures table == if !poisoned && identity.pid in old(table) && old(table)[identity.pid].start == identity.start
                          && old(table)[identity.pid].group == identity.group
                       then old(table) - {identity.pid} else old(table)
    {
      if !poisoned && identity.pid in table && IsSameChild(table[identity.pid], identity.start, identity.group) {
        table := table - {identity.pid};
      }
    }
  }

  // ---------------------------------------------------------------- runs

  /** Tokens are numbered as they are handed out; `newest` is the last one per pid. */
  datatype System = System(table: map<nat, ChildIdentity>, live: map<nat, ChildIdentity>, newest: map<nat, nat>, next: nat)

  datatype Action = Observe(identity: ChildIdentity) | Drop(token: nat)

  /** A process observed under a pid is not one whose token is still held. */
  ghost predicate Enabled(system: System, action: Action) {
    match action
    case Observe(identity) =>
      forall token :: token in system.live && system.live[token].pid == identity.pid ==>
        system.live[token].start != identity.start || system.live[token].group != identity.group
    case Drop(token) => token in system.live
  }

  function Step(system: System, action: Action): System
    requires action.Drop? ==> action.token in system.live
  {
    match action
    case Observe(identity) =>
      System(system.table[identity.pid := identity], system.live[system.next := identity],
             system.newest[identity.pid := system.next], system.next + 1)
    case Drop(token) =>
      system.(table := Released(system.table, system.live[token]), live := system.live - {token})
  }

  const START := System(map[], map[], map[], 0)

  /** The table is exactly the newest observation of each pid whose token is still held. */
  ghost predicate TableIsNewest(system: System) {
    && (forall pid :: pid in system.table ==>
          && pid in system.newest && system.newest[pid] in system.live
          && system.table[pid] == system.live[system.newest[pid]])
    && (forall pid :: pid in system.newest && system.newest[pid] in system.live ==> pid in system.table)
  }

  /** Tokens are numbered in order, and each pid knows its newest. */
  ghost predicate TokensOk(system: System) {
    && (forall pid :: pid in system.newest ==>
          system.newest[pid] < system.next
          && (system.newest[pid] in system.live ==> system.live[system.newest[pid]].pid == pid))
    && (forall token :: token in system.live ==> token < system.next && system.live[token].pid in system.newest)
  }

  ghost predicate IdentitiesApart(system: System) {
    forall a, b :: a in system.live && b in system.live && a != b && system.live[a].pid == system.live[b].pid ==>
      !IsSameChild(system.live[a], system.live[b].start, system.live[b].group)
  }

  ghost predicate Invariant(system: System) {
    TableIsNewest(system) && TokensOk(system) && IdentitiesApart(system)
  }

  lemma ObserveKeeps(system: System, identity: ChildIdentity)
    requires Invariant(system) && Enabled(system, Observe(identity))
    ensures Invariant(Step(system, Observe(identity)))
  {
    ObserveKeepsTable(system, identity);
    ObserveKeepsTokens(system, identity);
    ObserveKeepsApart(system, identity);
  }

  lemma ObserveKeepsTable(system: System, identity: ChildIdentity)
    requires TableIsNewest(system) && TokensOk(system)
    ensures TableIsNewest(Step(system, Observe(identity)))
  {
    assert forall token :: token in system.live ==> token != system.next;
  }

  lemma ObserveKeepsTokens(system: System, identity: ChildIdentity)
    requires TokensOk(system)
    ensures TokensOk(Step(system, Observe(identity)))
  {
  }

  lemma ObserveKeepsApart(system: System, identity: ChildIdentity)
    requires TokensOk(system) && IdentitiesApart(system) && Enabled(system, Observe(identity))
    ensures IdentitiesApart(Step(system, Observe(identity)))
  {
  }

  lemma DropKeeps(system: System, token: nat)
    requires Invariant(system) && token in system.live
    ensures Invariant(Step(system, Drop(token)))
  {
    DropIsExact(system, token);
    hide IsSameChild, Released;
    var next := Step(system, Drop(token));
    assert forall other :: other in next.live ==> next.live[other] == system.live[other];
  }

  lemma StepKeeps(system: System, action: Action)
    requires Invariant(system) && Enabled(system, action)
    ensures Invariant(Step(system, action))
  {
    hide Invariant, Step;
    match action
    case Observe(identity) => ObserveKeeps(system, identity);
    case Drop(token) => DropKeeps(system, token);
  }

  /**
  Dropping a token removes its own proof and no other: an older token leaves a later process's
  proof under the same pid alone, and the newest proof goes with its own token.
  */
  lemma DropIsExact(system: System, token: nat)
    requires Invariant(system) && token in system.live
    ensures var pid := system.live[token].pid;
            Step(system, Drop(token)).table
            == if system.newest[pid] == token then system.table - {pid} else system.table
  {
    var identity := system.live[token];
    if system.newest[identity.pid] != token && identity.pid in system.table {
      assert !IsSameChild(system.live[system.newest[identity.pid]], identity.start, identity.group);
    }
  }

  ghost predicate IsRun(systems: seq<System>, actions: seq<Action>) {
    && |systems| == |actions| + 1 && systems[0] == START
    && forall i :: 0 <= i < |actions| ==> Enabled(systems[i], actions[i]) && systems[i + 1] == Step(systems[i], actions[i])
  }

  lemma {:induction false} EveryRunKeeps(systems: seq<System>, actions: seq<Action>, n: nat)
    requires IsRun(systems, actions) && n < |systems|
    ensures Invariant(systems[n])
  {
    hide Invariant, Step, Enabled;
    if n == 0 {
      StartOk();
    } else {
      EveryRunKeeps(systems, actions, n - 1);
      StepKeeps(systems[n - 1], actions[n - 1]);
    }
  }

  lemma StartOk()
    ensures Invariant(START)
  {
  }

  /** No proof outlives its token: with every token dropped the table is empty. */
  lemma NothingLeaks(systems: seq<System>, actions: seq<Action>, n: nat)
    requires IsRun(systems, actions) && n < |systems|
    ensures forall pid :: pid in systems[n].table ==>
              exists token :: token in systems[n].live && systems[n].live[token] == systems[n].table[pid]
    ensures systems[n].live == map[] ==> systems[n].table == map[]
  {
    EveryRunKeeps(systems, actions, n);
  }

  // ---------------------------------------------------------------- without distinct identities

  /** A run in which the kernel may hand out an identity again while a token for it is held. */
  ghost predicate IsLooseRun(systems: seq<System>, actions: seq<Action>) {
    && |systems| == |actions| + 1 && systems[0] == START
    && forall i :: 0 <= i < |actions| ==>
         (actions[i].Drop? ==> actions[i].token in systems[i].live) && systems[i + 1] == Step(systems[i], actions[i])
  }

  /** This step drops a token of the same pid, start and process group. */
  ghost predicate DropsSame(system: System, action: Action, identity: ChildIdentity) {
    && action.Drop? && action.token in system.live
    && system.live[action.token].pid == identity.pid
    && system.live[action.token].start == identity.start && system.live[action.token].group == identity.group
  }

  /** From the step after `i` up to `n`, nobody observes this pid again. */
  ghost predicate Newest(systems: seq<System>, actions: seq<Action>, i: nat, n: nat, pid: nat) {
    n <= |actions| && forall k :: i < k < n && actions[k].Observe? ==> actions[k].identity.pid != pid
  }

  /**
  Distinct identities are what the guarantee rests on, exactly. In any run a recorded proof stays,
  for as long as its pid is not observed again, if and only if no token has been dropped since
  whose identity answers as the same child: its own, or an older one of a process that the kernel
  gave the same identity.
  */
  lemma {:induction false} ProofStaysIff(systems: seq<System>, actions: seq<Action>, i: nat, n: nat)
    requires IsLooseRun(systems, actions) && i < n < |systems| && actions[i].Observe?
    requires Newest(systems, actions, i, n, actions[i].identity.pid)
    ensures var identity := actions[i].identity;
            && (identity.pid in systems[n].table ==> systems[n].table[identity.pid] == identity)
            && (identity.pid in systems[n].table <==> forall k :: i < k < n ==> !DropsSame(systems[k], actions[k], identity))
  {
    var identity := actions[i].identity;
    if n > i + 1 {
      ProofStaysIff(systems, actions, i, n - 1);
      var before, action := systems[n - 1], actions[n - 1];
      assert systems[n] == Step(before, action);
      assert (forall k :: i < k < n ==> !DropsSame(systems[k], actions[k], identity)) <==>
             (forall k :: i < k < n - 1 ==> !DropsSame(systems[k], actions[k], identity)) && !DropsSame(before, action, identity);
    }
  }

  /** It happens: two processes with one identity, and the older token takes the later proof along. */
  lemma OlderTokenCanTakeProof(identity: ChildIdentity) returns (systems: seq<System>, actions: seq<Action>)
    ensures IsLooseRun(systems, actions)
    ensures actions == [Observe(identity), Observe(identity), Drop(0)]
    ensures 1 in systems[3].live && systems[3].live[1] == identity && identity.pid !in systems[3].table
  {
    actions := [Observe(identity), Observe(identity), Drop(0)];
    var s1 := Step(START, Observe(identity));
    var s2 := Step(s1, Observe(identity));
    systems := [START, s1, s2, Step(s2, Drop(0))];
  }
}
