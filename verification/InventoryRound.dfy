/**
One round of the observation thread (`run_round` in src/runtime/inventory_pump.rs) with nobody
else at the lock: what it takes it gives back.
*/
module InventoryRound {
  import opened Inventory
  import opened InventoryPump
  import InventoryRuns

  /** Dispatches every due observation, asks for each, and completes each with the round's time. */
  method RunRound(state: InventoryState, now: nat, fetch: Job -> Reply) returns (ghost jobs: seq<Job>)
    requires state.Valid()
    requires InventoryRuns.TableOk(state.View().scopes, state.nextGeneration) && |state.exited| <= MAX_QUEUED_EXITS
    modifies state
    ensures state.Valid() && InventoryRuns.TableOk(state.View().scopes, state.nextGeneration)
    ensures state.View().scopes.Keys == old(state.View()).scopes.Keys
    // One request per due scope, each completed with its own reply.
    ensures JobsOf(old(state.View()), now, jobs)
    ensures state.View() == InventoryRuns.Completed(Inventory.BeginRound(old(state.View()), now), jobs, now, fetch)
    // Every scope that was due was observed once: its slot is free again and it rests from now.
    ensures forall scope :: scope in DueScopes(old(state.View()), now) ==>
              InventoryRuns.JobDone(old(state.View()), state.View(), scope, now)
    // No other scope was touched.
    ensures forall scope :: scope in old(state.View()).scopes && scope !in DueScopes(old(state.View()), now) ==>
              state.View().scopes[scope] == old(state.View()).scopes[scope]
  {
    hide TableOf, Distinct, Rest, InventoryRuns.TableOk, Inventory.Apply, Inventory.BeginRound, InventoryRuns.Completed;
    ghost var before := state.View();
    var due := state.BeginRound(now);
    jobs := due;
    RoundStarts(state.View(), jobs, now, fetch);
    InventoryRuns.RoundFrame(before, now, jobs);
    InventoryRuns.RoundTableOk(before, now);
    for i := 0 to |due|
      invariant state.Valid()
      invariant state.View() == InventoryRuns.Completed(Inventory.BeginRound(before, now), jobs[..i], now, fetch)
      invariant InventoryRuns.InRound(before, state.View(), now, jobs, i)
    {
      var reply := fetch(due[i]);
      InventoryRuns.RoundStep(before, state.View(), now, jobs, i, reply);
      InventoryRuns.CompletedSnoc(Inventory.BeginRound(before, now), jobs, i, now, fetch);
      state.Apply(due[i], reply, now);
    }
    assert jobs[..|jobs|] == jobs;
    InventoryRuns.RoundEnds(before, state.View(), now, jobs);
  }

  lemma RoundStarts(state: State, jobs: seq<Job>, now: nat, fetch: Job -> Reply)
    ensures InventoryRuns.Completed(state, jobs[..0], now, fetch) == state
  {
  }
}
