/**
What the machine of TerminalScan.dfy recovers, against a reference that knows nothing of polls:
go over the raw stream once, left to right, and put a mouse event in place of every Escape that
is followed by an accepted report.
*/
module MouseRecovery {
  import opened SgrMouse
  import opened TerminalScan

  /** Position 0 of the stream is an Escape and the next `k` events spell an accepted report. */
  predicate ReportAt(stream: seq<Event>, k: nat) {
    && 1 <= k < |stream| && stream[0] == ESCAPE
    && AllTail(stream[1..k + 1]) && Classify(Spell(stream[1..k + 1])).Complete?
  }

  ghost function Rewrite(stream: seq<Event>): seq<Item> {
    if stream == [] then []
    else if k: nat :| ReportAt(stream, k) then
      var tail := stream[1..k + 1];
      [Recovered(Classify(Spell(tail)).mouse, [ESCAPE], tail)] + Rewrite(stream[k + 1..])
    else [Raw(stream[0])] + Rewrite(stream[1..])
  }

  function AllReady(stream: seq<Event>): seq<Answer> {
    seq(|stream|, i requires 0 <= i < |stream| => Ready(stream[i]))
  }

  lemma SpellCut(tail: seq<Event>, k: nat)
    requires AllTail(tail) && k <= |tail|
    ensures AllTail(tail[..k]) && Spell(tail[..k]) == Spell(tail)[..k]
  {
  }

  /** No accepted report is a proper prefix of another, so the reference has no choice to make. */
  lemma OneReportAt(stream: seq<Event>, k: nat, n: nat)
    requires ReportAt(stream, k) && ReportAt(stream, n)
    ensures k == n
  {
    hide Classify;
    if k < n {
      Cut1(stream, k, n);
    } else if n < k {
      Cut1(stream, n, k);
    }
  }

  lemma Cut1(stream: seq<Event>, k: nat, n: nat)
    requires ReportAt(stream, n) && 1 <= k < n
    ensures AllTail(stream[1..k + 1]) && Classify(Spell(stream[1..k + 1])) == Unfinished
  {
    hide Classify;
    var tail := stream[1..n + 1];
    SpellCut(tail, k);
    assert tail[..k] == stream[1..k + 1];
    PrefixesWait(Spell(tail), k);
  }

  /** A candidate that fails holds no report that started at its Escape. */
  lemma NoReport(tail: seq<Event>, rest: seq<Event>)
    requires Candidate([ESCAPE], tail).Valid() && Candidate([ESCAPE], tail).Waiting()
    requires rest == [] || TailChar(rest[0]).None? || Classify(Spell(tail + [rest[0]])) == Rejected
    ensures forall k: nat :: !ReportAt([ESCAPE] + tail + rest, k)
  {
    hide Classify;
    var stream := [ESCAPE] + tail + rest;
    forall k: nat
      ensures !ReportAt(stream, k)
    {
      if 1 <= k <= |tail| {
        assert stream[1..k + 1] == tail[..k];
      } else if |tail| < k < |stream| {
        assert stream[|tail| + 1] == rest[0];
        assert stream[1..k + 1][|tail|] == rest[0];
        assert stream[1..|tail| + 2] == tail + [rest[0]];
        if ReportAt(stream, k) && k > |tail| + 1 {
          Cut1(stream, |tail| + 1, k);
        }
      }
    }
  }

  lemma RewriteRaw(stream: seq<Event>)
    requires stream != [] && forall k: nat :: !ReportAt(stream, k)
    ensures Rewrite(stream) == [Raw(stream[0])] + Rewrite(stream[1..])
  {
    hide ReportAt;
  }

  lemma {:induction false} PlainEvents(plain: seq<Event>, rest: seq<Event>)
    requires ESCAPE !in plain
    ensures Rewrite(plain + rest) == Raws(plain) + Rewrite(rest)
  {
    hide Rewrite, Classify;
    if plain == [] {
      assert plain + rest == rest;
      assert Raws(plain) + Rewrite(rest) == Rewrite(rest);
    } else {
      PlainEvents(plain[1..], rest);
      var stream := plain + rest;
      assert stream[1..] == plain[1..] + rest;
      assert stream[0] != ESCAPE;
      RewriteRaw(stream);
      assert Raws(plain) == [Raw(plain[0])] + Raws(plain[1..]);
      assert [Raw(plain[0])] + (Raws(plain[1..]) + Rewrite(rest)) == Raws(plain) + Rewrite(rest);
    }
  }

  lemma CandidateFails(tail: seq<Event>, rest: seq<Event>)
    requires Candidate([ESCAPE], tail).Valid() && Candidate([ESCAPE], tail).Waiting()
    requires rest == [] || TailChar(rest[0]).None? || Classify(Spell(tail + [rest[0]])) == Rejected
    ensures Rewrite([ESCAPE] + tail + rest) == Raws([ESCAPE] + tail) + Rewrite(rest)
  {
    hide Classify, Rewrite, ReportAt;
    var stream := [ESCAPE] + tail + rest;
    NoReport(tail, rest);
    RewriteRaw(stream);
    assert stream[1..] == tail + rest;
    PlainEvents(tail, rest);
    assert Raws([ESCAPE] + tail) == [Raw(ESCAPE)] + Raws(tail);
    assert [Raw(ESCAPE)] + (Raws(tail) + Rewrite(rest)) == Raws([ESCAPE] + tail) + Rewrite(rest);
  }

  lemma ReportFound(tail: seq<Event>, rest: seq<Event>)
    requires tail != [] && AllTail(tail) && Classify(Spell(tail)).Complete?
    ensures Rewrite([ESCAPE] + tail + rest)
            == [Recovered(Classify(Spell(tail)).mouse, [ESCAPE], tail)] + Rewrite(rest)
  {
    hide Classify;
    var stream := [ESCAPE] + tail + rest;
    assert stream[1..|tail| + 1] == tail;
    assert ReportAt(stream, |tail|);
    forall k: nat | ReportAt(stream, k)
      ensures k == |tail|
    {
      OneReportAt(stream, k, |tail|);
    }
    assert stream[|tail| + 1..] == rest;
  }

  /**
  On a source that is ready until it runs out, the machine's output followed by what it still
  holds is the reference rewrite of the stream: every report at every Escape is found, also one
  behind a failed candidate, and nothing else is touched.
  */
  lemma {:induction false} ScannerIsRewrite(hold: Hold, stream: seq<Event>)
    requires hold.Valid() && hold.Waiting() && (hold.Candidate? ==> hold.escape == [ESCAPE])
    ensures var scan := RunFrom(hold, AllReady(stream));
            scan.items + Raws(scan.hold.Held()) == Rewrite(hold.Held() + stream)
    decreases |stream|
  {
    hide Classify, Step, Rewrite;
    var held := hold.Held();
    if stream == [] {
      assert held + stream == held;
      EndOfStream(hold);
    } else {
      var event, rest := stream[0], stream[1..];
      assert AllReady(stream)[1..] == AllReady(rest);
      var first := Step(hold, Ready(event));
      StepWaits(hold, Ready(event));
      StepIsRewrite(hold, event, rest);
      ScannerIsRewrite(first.hold, rest);
      var later := RunFrom(first.hold, AllReady(rest));
      assert held + [event] + rest == held + stream;
      assert (first.items + later.items) + Raws(later.hold.Held())
             == first.items + (later.items + Raws(later.hold.Held()));
    }
  }

  lemma EndOfStream(hold: Hold)
    requires hold.Valid() && hold.Waiting() && (hold.Candidate? ==> hold.escape == [ESCAPE])
    ensures [] + Raws(hold.Held()) == Rewrite(hold.Held())
  {
    hide Classify;
    if hold.Candidate? {
      CandidateFails(hold.tail, []);
      assert [ESCAPE] + hold.tail + [] == hold.Held();
      assert Rewrite([]) == [];
    }
  }

  lemma StepIsRewrite(hold: Hold, event: Event, rest: seq<Event>)
    requires hold.Valid() && hold.Waiting() && (hold.Candidate? ==> hold.escape == [ESCAPE])
    ensures var first := Step(hold, Ready(event));
            && (first.hold.Candidate? ==> first.hold.escape == [ESCAPE])
            && Rewrite(hold.Held() + [event] + rest) == first.items + Rewrite(first.hold.Held() + rest)
  {
    hide Classify, Rewrite, Hold.Waiting, AllTail, Spell;
    if hold.Idle? {
      IdleStepIsRewrite(event, rest);
    } else {
      CandidateStepIsRewrite(hold.tail, event, rest);
    }
  }

  lemma IdleStepIsRewrite(event: Event, rest: seq<Event>)
    ensures var first := Step(Idle, Ready(event));
            && (first.hold.Candidate? ==> first.hold.escape == [ESCAPE])
            && Rewrite(Idle.Held() + [event] + rest) == first.items + Rewrite(first.hold.Held() + rest)
  {
    hide Classify, Rewrite;
    var first := Step(Idle, Ready(event));
    var stream := Idle.Held() + [event] + rest;
    assert stream == [event] + rest;
    if event == ESCAPE {
      assert first.hold.Held() + rest == stream;
      assert first.items + Rewrite(stream) == Rewrite(stream);
    } else {
      PlainEvents([event], rest);
      assert Raws([event]) == [Raw(event)];
      assert first.hold.Held() + rest == rest;
    }
  }

  lemma CandidateStepIsRewrite(tail: seq<Event>, event: Event, rest: seq<Event>)
    requires Candidate([ESCAPE], tail).Valid() && Candidate([ESCAPE], tail).Waiting()
    ensures var hold := Candidate([ESCAPE], tail);
            var first := Step(hold, Ready(event));
            && (first.hold.Candidate? ==> first.hold.escape == [ESCAPE])
            && Rewrite(hold.Held() + [event] + rest) == first.items + Rewrite(first.hold.Held() + rest)
  {
    hide Classify, Rewrite, Hold.Waiting, Spell;
    var hold := Candidate([ESCAPE], tail);
    var first := Step(hold, Ready(event));
    var stream := hold.Held() + [event] + rest;
    assert stream == [ESCAPE] + tail + ([event] + rest);
    if event == ESCAPE {
      CandidateFails(tail, [event] + rest);
      assert first.hold.Held() + rest == [event] + rest;
    } else if TailChar(event).Some? && Classify(Spell(tail + [event])) != Rejected {
      assert stream == [ESCAPE] + (tail + [event]) + rest;
      assert first.hold.Candidate? ==> first.hold.Held() + rest == stream;
      if first.hold.Idle? {
        ReportFound(tail + [event], rest);
        assert first.hold.Held() + rest == rest;
      } else {
        assert first.items + Rewrite(stream) == Rewrite(stream);
      }
    } else {
      FailedByEvent(tail, event, rest);
      assert [ESCAPE] + tail + [event] == hold.Held() + [event];
      assert first.hold.Held() + rest == rest;
    }
  }

  lemma FailedByEvent(tail: seq<Event>, event: Event, rest: seq<Event>)
    requires Candidate([ESCAPE], tail).Valid() && Candidate([ESCAPE], tail).Waiting()
    requires event != ESCAPE
    requires TailChar(event).None? || Classify(Spell(tail + [event])) == Rejected
    ensures Rewrite([ESCAPE] + tail + ([event] + rest)) == Raws([ESCAPE] + tail + [event]) + Rewrite(rest)
  {
    hide Classify, Rewrite;
    CandidateFails(tail, [event] + rest);
    PlainEvents([event], rest);
    assert Raws([ESCAPE] + tail + [event]) == Raws([ESCAPE] + tail) + Raws([event]);
    assert Raws([ESCAPE] + tail) + (Raws([event]) + Rewrite(rest)) == Raws([ESCAPE] + tail + [event]) + Rewrite(rest);
  }

  // ---------------------------------------------------------------- timing

  function ReportOf(item: Item): seq<(MouseEvent, seq<Event>)> {
    if item.Recovered? then [(item.mouse, item.tail)] else []
  }

  /** The reports recovered, in order, with the characters that spelled them. */
  function Reports(items: seq<Item>): seq<(MouseEvent, seq<Event>)> {
    if items == [] then [] else ReportOf(items[0]) + Reports(items[1..])
  }

  lemma ReportsCons(item: Item, rest: seq<Item>)
    ensures Reports([item] + rest) == ReportOf(item) + Reports(rest)
  {
    hide ReportOf;
    assert ([item] + rest)[1..] == rest;
  }

  lemma {:induction false} ReportsAppend(a: seq<Item>, b: seq<Item>)
    ensures Reports(a + b) == Reports(a) + Reports(b)
  {
    hide ReportOf, Reports;
    if a == [] {
      assert a + b == b;
      NoReports();
    } else {
      ReportsAppend(a[1..], b);
      ReportsCons(a[0], a[1..]);
      ReportsCons(a[0], a[1..] + b);
      assert a == [a[0]] + a[1..] && a + b == [a[0]] + (a[1..] + b);
    }
  }

  lemma NoReports()
    ensures Reports([]) == []
  {
  }

  lemma {:induction false} RawsHaveNoReports(events: seq<Event>)
    ensures Reports(Raws(events)) == []
  {
    if events != [] {
      RawsHaveNoReports(events[1..]);
      assert Raws(events)[1..] == Raws(events[1..]);
    }
  }

  /** The same tail is being collected; only whether its Escape went out already may differ. */
  predicate SameTail(a: Hold, b: Hold) {
    a.Candidate? == b.Candidate? && (a.Candidate? ==> a.tail == b.tail)
  }

  lemma StepSameTail(a: Hold, b: Hold, event: Event)
    requires a.Valid() && b.Valid() && SameTail(a, b)
    ensures SameTail(Step(a, Ready(event)).hold, Step(b, Ready(event)).hold)
    ensures Reports(Step(a, Ready(event)).items) == Reports(Step(b, Ready(event)).items)
  {
    hide Classify, Reports;
    RawsHaveNoReports(a.Held());
    RawsHaveNoReports(b.Held());
    RawsHaveNoReports(a.Held() + [event]);
    RawsHaveNoReports(b.Held() + [event]);
    if a.Candidate? && TailChar(event).Some? {
      OneReport(Step(a, Ready(event)).items, Step(b, Ready(event)).items);
    }
  }

  lemma OneReport(a: seq<Item>, b: seq<Item>)
    ensures |a| == |b| == 1 && a[0].Recovered? && b[0].Recovered? && a[0].mouse == b[0].mouse && a[0].tail == b[0].tail
            ==> Reports(a) == Reports(b)
  {
    if |a| == |b| == 1 {
      assert a[1..] == [] && b[1..] == [];
    }
  }

  /** Quiet polls anywhere in a run change neither which reports are recovered nor their order. */
  lemma {:induction false} TimingIsInvisible(a: Hold, b: Hold, log: seq<Answer>)
    requires a.Valid() && b.Valid() && SameTail(a, b) && Failed !in log
    ensures Reports(RunFrom(a, log).items) == Reports(RunFrom(b, AllReady(Reads(log))).items)
    decreases |log|
  {
    hide Classify, Step, Reports;
    if log == [] {
      assert AllReady(Reads(log)) == [];
    } else {
      var first := Step(a, log[0]);
      ReportsAppend(first.items, RunFrom(first.hold, log[1..]).items);
      if log[0].Ready? {
        var event := log[0].event;
        var second := Step(b, log[0]);
        StepSameTail(a, b, event);
        TimingIsInvisible(first.hold, second.hold, log[1..]);
        var ready := AllReady(Reads(log));
        assert Reads(log) == [event] + Reads(log[1..]);
        assert ready[0] == log[0] && ready[1..] == AllReady(Reads(log[1..]));
        ReportsAppend(second.items, RunFrom(second.hold, ready[1..]).items);
      } else {
        QuietStep(a);
        TimingIsInvisible(first.hold, b, log[1..]);
        assert Reads(log) == Reads(log[1..]);
        assert [] + Reports(RunFrom(first.hold, log[1..]).items) == Reports(RunFrom(first.hold, log[1..]).items);
      }
    }
  }

  lemma QuietStep(hold: Hold)
    requires hold.Valid()
    ensures SameTail(Step(hold, Empty).hold, hold) && Reports(Step(hold, Empty).items) == []
  {
    if hold.Candidate? {
      RawsHaveNoReports(hold.escape);
    }
  }

  /** A stretch without a failing poll, whatever mixture of ready and empty polls delivered it. */
  lemma UnbrokenStretch(log: seq<Answer>)
    requires Failed !in log
    ensures Reports(Run(log).items) == Reports(Rewrite(Reads(log)))
  {
    hide Classify, Step, Reports, Rewrite;
    var stream := Reads(log);
    TimingIsInvisible(Idle, Idle, log);
    ScannerIsRewrite(Idle, stream);
    var scan := RunFrom(Idle, AllReady(stream));
    ReportsAppend(scan.items, Raws(scan.hold.Held()));
    RawsHaveNoReports(scan.hold.Held());
    assert Idle.Held() + stream == stream;
    assert Reports(scan.items) + [] == Reports(scan.items);
  }

  /** The first failing poll, or the length of the log. */
  function FirstFailure(log: seq<Answer>): (k: nat)
    ensures k <= |log| && Failed !in log[..k] && (k < |log| ==> log[k] == Failed)
  {
    if log == [] || log[0] == Failed then 0 else 1 + FirstFailure(log[1..])
  }

  /** The reports that stand in the raw stream; a failing poll cuts the stream in two. */
  ghost function StandingReports(log: seq<Answer>): seq<(MouseEvent, seq<Event>)>
    decreases |log|
  {
    var k := FirstFailure(log);
    Reports(Rewrite(Reads(log[..k]))) + (if k < |log| then StandingReports(log[k + 1..]) else [])
  }

  /** A failing poll gives back all that is held, so what comes after starts afresh. */
  lemma AfterFailure(log: seq<Answer>, more: seq<Answer>)
    ensures Reports(Run(log + [Failed] + more).items) == Reports(Run(log).items) + Reports(Run(more).items)
  {
    hide Classify, Reports, RunFrom;
    var hold := Run(log).hold;
    RunAppend(Idle, log, [Failed]);
    RunAppend(Idle, log + [Failed], more);
    RunOne(hold, Failed);
    ReportsAppend(Run(log).items, Raws(hold.Held()));
    ReportsAppend(Run(log + [Failed]).items, Run(more).items);
    RawsHaveNoReports(hold.Held());
    assert Reports(Run(log).items) + [] == Reports(Run(log).items);
  }

  /**
  For every run, ready, empty and failing polls in any order: the reports recovered are exactly
  those that stand in the raw stream between failing polls, once each and in order.
  */
  lemma {:induction false} EveryReportIsRecovered(log: seq<Answer>)
    ensures Reports(Run(log).items) == StandingReports(log)
    decreases |log|
  {
    hide Classify, Step, Reports, Rewrite, Run, Reads;
    var k := FirstFailure(log);
    UnbrokenStretch(log[..k]);
    if k < |log| {
      EveryReportIsRecovered(log[k + 1..]);
      AfterFailure(log[..k], log[k + 1..]);
      assert log == log[..k] + [Failed] + log[k + 1..];
    } else {
      assert log[..k] == log;
    }
  }

  // ---------------------------------------------------------------- one report, split anyhow

  /**
  The tail of one accepted report, arriving after its Escape in any number of pieces with any
  number of quiet polls between them.
  */
  ghost predicate Arrives(rest: seq<Answer>, before: seq<Event>, whole: seq<Event>) {
    && rest != [] && Failed !in rest && rest[|rest| - 1].Ready?
    && before + Reads(rest) == whole && AllTail(whole) && Classify(Spell(whole)).Complete?
  }

  lemma ReadsOfReady(rest: seq<Answer>)
    requires rest != [] && rest[|rest| - 1].Ready?
    ensures Reads(rest) != []
    decreases |rest|
  {
    if |rest| > 1 && !rest[0].Ready? {
      ReadsOfReady(rest[1..]);
    }
  }

  /** One more character of an accepted tail is kept, or completes the report. */
  lemma TailStep(escape: seq<Event>, before: seq<Event>, event: Event, whole: seq<Event>)
    requires escape == [ESCAPE] || escape == []
    requires AllTail(whole) && Classify(Spell(whole)).Complete? && before + [event] <= whole
    ensures AllTail(before)
    ensures Step(Candidate(escape, before), Ready(event))
            == if before + [event] == whole then Scan([Recovered(Classify(Spell(whole)).mouse, escape, whole)], Idle)
               else Scan([], Candidate(escape, before + [event]))
  {
    hide Classify;
    var longer := before + [event];
    assert longer == whole[..|longer|];
    assert before == whole[..|before|];
    SpellCut(whole, |before|);
    SpellCut(whole, |longer|);
    assert TailChar(whole[|before|]).Some?;
    if |longer| < |whole| {
      PrefixesWait(Spell(whole), |longer|);
    } else {
      assert longer == whole;
    }
  }

  function Arrived(escape: seq<Event>, before: seq<Event>, quiet: bool, whole: seq<Event>): Scan
    requires AllTail(whole) && Classify(Spell(whole)).Complete?
  {
    var mouse := Classify(Spell(whole)).mouse;
    if before == [] && quiet then Scan(Raws(escape) + [Recovered(mouse, [], whole)], Idle)
    else Scan([Recovered(mouse, escape, whole)], Idle)
  }

  lemma ReadsCons(log: seq<Answer>)
    requires log != []
    ensures Reads(log) == (if log[0].Ready? then [log[0].event] + Reads(log[1..]) else Reads(log[1..]))
    ensures Reads([]) == []
  {
  }

  lemma ArrivesOnwards(rest: seq<Answer>, before: seq<Event>, whole: seq<Event>)
    requires Arrives(rest, before, whole)
    ensures AllTail(before) && rest[0] != Failed
    ensures rest[0].Empty? ==> Arrives(rest[1..], before, whole)
    ensures rest[0].Ready? ==>
              var longer := before + [rest[0].event];
              && longer <= whole
              && (|rest| == 1 ==> longer == whole)
              && (|rest| > 1 ==> longer != whole && Arrives(rest[1..], longer, whole))
  {
    hide Classify, Spell, Reads;
    assert before == whole[..|before|];
    SpellCut(whole, |before|);
    ReadsCons(rest);
    assert Failed !in rest[1..];
    if |rest| > 1 {
      assert rest[1..][|rest| - 2] == rest[|rest| - 1];
      ReadsOfReady(rest[1..]);
    } else {
      assert rest[1..] == [];
    }
    if rest[0].Ready? {
      assert (before + [rest[0].event]) + Reads(rest[1..]) == whole;
    }
  }

  lemma {:induction false} TailArrives(escape: seq<Event>, before: seq<Event>, rest: seq<Answer>, whole: seq<Event>)
    requires escape == [ESCAPE] || escape == []
    requires Arrives(rest, before, whole)
    ensures AllTail(before)
    ensures RunFrom(Candidate(escape, before), rest) == Arrived(escape, before, rest[0] == Empty, whole)
    decreases |rest|
  {
    hide Classify, Step, RunFrom, Spell, AllTail, Reads;
    ArrivesOnwards(rest, before, whole);
    RunCons(Candidate(escape, before), rest);
    if rest[0].Empty? {
      var released := if before == [] then [] else escape;
      ReleaseStep(escape, before);
      TailArrives(released, before, rest[1..], whole);
      assert Raws([]) == [];
      NothingFirst(RunFrom(Candidate(released, before), rest[1..]).items);
    } else {
      var longer := before + [rest[0].event];
      TailStep(escape, before, rest[0].event, whole);
      if |rest| == 1 {
        LastCharacter(escape, before, rest, whole);
      } else {
        TailArrives(escape, longer, rest[1..], whole);
        NothingFirst(RunFrom(Candidate(escape, longer), rest[1..]).items);
      }
    }
  }

  lemma ReleaseStep(escape: seq<Event>, before: seq<Event>)
    requires (escape == [ESCAPE] || escape == []) && AllTail(before)
    ensures Step(Candidate(escape, before), Empty)
            == Scan(if before == [] then Raws(escape) else [], Candidate(if before == [] then [] else escape, before))
  {
  }

  lemma LastCharacter(escape: seq<Event>, before: seq<Event>, rest: seq<Answer>, whole: seq<Event>)
    requires escape == [ESCAPE] || escape == []
    requires |rest| == 1 && Arrives(rest, before, whole) && AllTail(before)
    ensures RunFrom(Candidate(escape, before), rest) == Arrived(escape, before, false, whole)
  {
    hide Classify, Step;
    assert rest[1..] == [] && rest == [rest[0]];
    ReadsOne(rest[0]);
    TailStep(escape, before, rest[0].event, whole);
    RunOne(Candidate(escape, before), rest[0]);
  }

  /**
  Split invariance: one accepted report, cut at any of its characters by any number of quiet
  polls, comes out as exactly one mouse event. The Escape key goes out before it, once, if and
  only if a poll was quiet before the first character of the tail. No character of the tail ever
  goes out.
  */
  lemma SplitInvariance(rest: seq<Answer>, tail: seq<Event>)
    requires Arrives(rest, [], tail)
    ensures var out := Run([Ready(ESCAPE)] + rest);
            && out.hold == Idle
            && Delivered(out.items)
               == (if rest[0] == Empty then [ESCAPE] else []) + [Mouse(Classify(Spell(tail)).mouse)]
  {
    hide Classify, RunFrom;
    var log := [Ready(ESCAPE)] + rest;
    RunCons(Idle, log);
    TailArrives([ESCAPE], [], rest, tail);
    assert log[1..] == rest;
    var later := RunFrom(Candidate([ESCAPE], []), rest).items;
    assert [] + later == later;
  }
}
