/**
The bounded copy behind a native artifact view (src/runtime/file_preview.rs): each file is
checked, created anew and copied under one budget that the whole snapshot shares. A file may
grow between its size check and its copy.
*/
module BudgetCopy {

  const MAX_ARTIFACT_OPEN_BYTES := 64 * 1024 * 1024

  type Path = string
  type Bytes = seq<bv8>

  datatype Failure = NotRegular | TooLarge | Unavailable

  /**
  One input: what its metadata said, what reading it to the end gives when it is copied, and
  whether opening or reading it fails.
  */
  datatype Source = Source(path: Path, regular: bool, checkedSize: nat, content: Bytes, opens: bool, readable: bool)

  datatype Outcome = Copied | Failed(failure: Failure)

  function Total(sources: seq<Source>): nat {
    if sources == [] then 0 else Total(sources[..|sources| - 1]) + |sources[|sources| - 1].content|
  }

  /** The copy of one file goes through with this much left. */
  predicate Fits(source: Source, remaining: nat, files: map<Path, Bytes>) {
    && source.regular && source.opens && source.readable && source.path !in files
    && source.checkedSize <= remaining && |source.content| <= remaining
  }

  /** Why it does not; the first reason in the order of the checks is the one reported. */
  function Reason(source: Source, remaining: nat, files: map<Path, Bytes>): Failure
    requires !Fits(source, remaining, files)
  {
    if !source.opens then Unavailable
    else if !source.regular then NotRegular
    else if source.checkedSize > remaining then TooLarge
    else if source.path in files || !source.readable then Unavailable
    else TooLarge
  }

  class Snapshot {
    var remaining: nat
    var files: map<Path, Bytes>

    constructor ()
      ensures remaining == MAX_ARTIFACT_OPEN_BYTES && files == map[]
    {
      remaining, files := MAX_ARTIFACT_OPEN_BYTES, map[];
    }

    /** `copy_with_budget`: read one byte past the budget, so that a file too large is noticed. */
    method CopyWithBudget(source: Source) returns (outcome: Outcome)
      modifies this
      ensures outcome.Copied? <==> source.readable && |source.content| <= old(remaining)
      ensures outcome.Copied? ==> files == old(files)[source.path := source.content]
                                  && remaining + |source.content| == old(remaining)
      ensures outcome.Failed? ==> remaining == old(remaining) && files.Keys <= old(files).Keys + {source.path}
                                  && outcome.failure == if source.readable then TooLarge else Unavailable
    {
      var limit := remaining + 1;
      if !source.readable {
        // Some of it may have been written before reading failed.
        var written: nat :| written <= |source.content| && written <= limit;
        files := files[source.path := source.content[..written]];
        return Failed(Unavailable);
      }
      var copied := if |source.content| < limit then |source.content| else limit;
      files := files[source.path := source.content[..copied]];
      if copied > remaining {
        return Failed(TooLarge);
      }
      remaining := remaining - copied;
      assert source.content[..copied] == source.content;
      return Copied;
    }

    /** `copy_artifact_file`: checks, then an output that must not exist yet, then the copy. */
    method CopyArtifactFile(source: Source) returns (outcome: Outcome)
      requires source.opens
      modifies this
      ensures outcome.Copied? <==> Fits(source, old(remaining), old(files))
      ensures outcome.Copied? <==> source.regular && source.checkedSize <= old(remaining) && source.path !in old(files)
                                   && source.readable && |source.content| <= old(remaining)
      ensures outcome.Failed? ==> outcome.failure == Reason(source, old(remaining), old(files))
      ensures outcome == Failed(NotRegular) <==> !source.regular
      ensures outcome == Failed(TooLarge) <==>
                source.regular && (source.checkedSize > old(remaining)
                                   || (source.path !in old(files) && source.readable && |source.content| > old(remaining)))
      ensures outcome.Failed? ==> remaining == old(remaining)
      ensures outcome.Copied? ==> files == old(files)[source.path := source.content]
                                  && remaining + |source.content| == old(remaining)
    {
      if !source.regular {
        return Failed(NotRegular);
      }
      if source.checkedSize > remaining {
        return Failed(TooLarge);
      }
      if source.path in files {
        return Failed(Unavailable);
      }
      outcome := CopyWithBudget(source);
    }

    /**
    The copy loop of `artifact_open_view_with`: the selected file, then the other entries of its
    tree. It succeeds if and only if every file fits what the files before it left, and then every
    copy is its source to the last byte.
    */
    method CopyAll(selected: Source, entries: seq<Source>) returns (outcome: Outcome, ghost copied: seq<Source>)
      requires selected.opens && files == map[] && remaining == MAX_ARTIFACT_OPEN_BYTES
      modifies this
      ensures copied <= Planned(selected, entries)
      ensures outcome.Copied? <==> AllFit(Planned(selected, entries))
      ensures outcome.Copied? ==> copied == Planned(selected, entries) && files == Copies(copied)
      // Bytes copied and bytes left are the budget, also where the copy stopped.
      ensures remaining + Total(copied) == 67_108_864
      // The first file that does not fit gives the reason.
      ensures outcome.Failed? ==> StoppedAt(Planned(selected, entries), |copied|, outcome.failure)
    {
      hide AllFit, Total, Copies, Planned, Fits, Reason, StoppedAt;
      ghost var plan := Planned(selected, entries);
      copied := [];
      PlanStarts(selected, entries);
      FitStep(plan, 0);
      outcome := CopyArtifactFile(selected);
      if outcome.Failed? {
        Refused(plan, 0, outcome.failure);
        return;
      }
      copied := [selected];
      for i := 0 to |entries|
        invariant copied == Planned(selected, entries[..i]) && copied <= plan
        invariant AllFit(copied) && files == Copies(copied)
        invariant remaining + Total(copied) == MAX_ARTIFACT_OPEN_BYTES
      {
        PlanStep(selected, entries, i);
        if entries[i].path != selected.path {
          ghost var k := |copied|;
          FitStep(plan, k);
          assert plan[..k] == copied;
          if !entries[i].opens {
            NotOpen(entries[i], remaining, files);
            Refused(plan, k, Unavailable);
            return Failed(Unavailable), copied;
          }
          outcome := CopyArtifactFile(entries[i]);
          if outcome.Failed? {
            Refused(plan, k, outcome.failure);
            return;
          }
          copied := copied + [entries[i]];
          assert copied == plan[..k + 1];
        }
      }
      assert entries[..|entries|] == entries;
      outcome := Copied;
    }
  }

  /** The files to copy, in order: the selected one is not copied again with its tree. */
  function Planned(selected: Source, entries: seq<Source>): (plan: seq<Source>)
    ensures plan != [] && plan[0] == selected
  {
    if entries == [] then [selected]
    else
      var before, last := Planned(selected, entries[..|entries| - 1]), entries[|entries| - 1];
      if last.path == selected.path then before else before + [last]
  }

  /** The selected file first, then each entry of another name, in order and each as often as it is listed. */
  lemma {:induction false} PlannedIsAll(selected: Source, entries: seq<Source>, source: Source)
    ensures Planned(selected, entries)[0] == selected
    ensures source in Planned(selected, entries)[1..] <==> source in entries && source.path != selected.path
    ensures source.path != selected.path ==> multiset(Planned(selected, entries))[source] == multiset(entries)[source]
  {
    if entries != [] {
      var init, last := entries[..|entries| - 1], entries[|entries| - 1];
      assert entries == init + [last];
      PlannedIsAll(selected, init, source);
      var before := Planned(selected, init);
      if last.path != selected.path {
        assert Planned(selected, entries)[1..] == before[1..] + [last];
      }
    }
  }

  function Copies(sources: seq<Source>): map<Path, Bytes> {
    if sources == [] then map[]
    else
      var last := sources[|sources| - 1];
      Copies(sources[..|sources| - 1])[last.path := last.content]
  }

  /** Each file fits what the files before it left of the budget, and no two share a name. */
  predicate AllFit(sources: seq<Source>) {
    sources == [] ||
    var before, last := sources[..|sources| - 1], sources[|sources| - 1];
    && AllFit(before) && Total(before) <= MAX_ARTIFACT_OPEN_BYTES
    && Fits(last, MAX_ARTIFACT_OPEN_BYTES - Total(before), Copies(before))
  }

  /** Everything before this place was copied, and the file in it was refused for this reason. */
  predicate StoppedAt(plan: seq<Source>, k: nat, failure: Failure) {
    && k < |plan| && AllFit(plan[..k]) && Total(plan[..k]) <= MAX_ARTIFACT_OPEN_BYTES
    && var remaining := MAX_ARTIFACT_OPEN_BYTES - Total(plan[..k]);
       !Fits(plan[k], remaining, Copies(plan[..k])) && failure == Reason(plan[k], remaining, Copies(plan[..k]))
  }

  lemma PlanStarts(selected: Source, entries: seq<Source>)
    ensures var plan := Planned(selected, entries);
            && [selected] <= plan && plan[..0] == [] && plan[..1] == [selected] && Planned(selected, entries[..0]) == [selected]
    ensures AllFit([]) && Total([]) == 0 && Copies([]) == map[]
  {
  }

  lemma NotOpen(source: Source, remaining: nat, files: map<Path, Bytes>)
    requires !source.opens
    ensures !Fits(source, remaining, files) && Reason(source, remaining, files) == Unavailable
  {
  }

  lemma Refused(plan: seq<Source>, k: nat, failure: Failure)
    requires k < |plan| && AllFit(plan[..k]) && Total(plan[..k]) <= MAX_ARTIFACT_OPEN_BYTES
    requires !Fits(plan[k], MAX_ARTIFACT_OPEN_BYTES - Total(plan[..k]), Copies(plan[..k]))
    requires failure == Reason(plan[k], MAX_ARTIFACT_OPEN_BYTES - Total(plan[..k]), Copies(plan[..k]))
    ensures StoppedAt(plan, k, failure) && !AllFit(plan)
  {
    FitStep(plan, k);
    FitPrefix(plan, k + 1);
  }

  lemma {:induction false} PlanStep(selected: Source, entries: seq<Source>, i: nat)
    requires i < |entries|
    ensures Planned(selected, entries[..i + 1])
            == Planned(selected, entries[..i]) + (if entries[i].path == selected.path then [] else [entries[i]])
    ensures Planned(selected, entries[..i + 1]) <= Planned(selected, entries)
    decreases |entries| - i
  {
    assert entries[..i + 1][..i] == entries[..i];
    if i + 1 < |entries| {
      PlanStep(selected, entries, i + 1);
    } else {
      assert entries[..i + 1] == entries;
    }
  }

  lemma FitStep(plan: seq<Source>, k: nat)
    requires k < |plan|
    ensures AllFit(plan[..k + 1]) <==>
              AllFit(plan[..k]) && Total(plan[..k]) <= MAX_ARTIFACT_OPEN_BYTES
              && Fits(plan[k], MAX_ARTIFACT_OPEN_BYTES - Total(plan[..k]), Copies(plan[..k]))
    ensures Total(plan[..k + 1]) == Total(plan[..k]) + |plan[k].content|
    ensures Copies(plan[..k + 1]) == Copies(plan[..k])[plan[k].path := plan[k].content]
  {
    assert plan[..k + 1][..k] == plan[..k];
  }

  lemma {:induction false} FitPrefix(plan: seq<Source>, k: nat)
    requires k <= |plan|
    ensures AllFit(plan) ==> AllFit(plan[..k])
    decreases |plan| - k
  {
    if k == |plan| {
      assert plan[..k] == plan;
    } else {
      FitPrefix(plan, k + 1);
      FitStep(plan, k);
    }
  }

  /** A snapshot that succeeded holds every planned file whole, and no more than the budget. */
  lemma {:induction false} SnapshotIsWhole(sources: seq<Source>)
    requires AllFit(sources)
    ensures Total(sources) <= 67_108_864
    ensures forall i :: 0 <= i < |sources| ==>
              sources[i].path in Copies(sources) && Copies(sources)[sources[i].path] == sources[i].content
    ensures forall i, j :: 0 <= i < j < |sources| ==> sources[i].path != sources[j].path
  {
    if sources != [] {
      SnapshotIsWhole(sources[..|sources| - 1]);
    }
  }
}
