/**
`EventPump` of src/tui_input.rs: terminal polling with mouse recovery, folding of wheel bursts
and passive motion, and the tick schedule.

The event source is a script of answers with a clock that may jump at any reading. Ghost fields
record every answer the source gave and every event the pump handed on, and `Valid` ties them to
the machine of TerminalScan.dfy: what was handed on, followed by what is queued, is what the
machine makes of the log, and what is withheld is what the machine withholds.
*/
module EventPump {
  import opened Numbers
  import opened Wrappers
  import opened SgrMouse
  import opened TerminalScan

  const WHEEL_COALESCE_LIMIT := 32
  const MOUSE_REPORT_GRACE := 32
  const MOUSE_REPORT_MAX_CHARS := 20

  function SaturatingSub(a: nat, b: nat): nat {
    if a < b then 0 else a - b
  }

  function ToSeq<T>(option: Option<T>): seq<T> {
    match option
    case None => []
    case Some(value) => [value]
  }

  function Head(answers: seq<Answer>): Answer {
    if answers == [] then Empty else answers[0]
  }

  function Tail(answers: seq<Answer>): seq<Answer> {
    if answers == [] then [] else answers[1..]
  }

  // ---------------------------------------------------------------- the source

  function Rest(delays: seq<nat>): seq<nat> {
    if delays == [] then [] else delays[1..]
  }

  /** How long a poll with this timeout takes on an exact source. */
  function PollTime(answers: seq<Answer>, delays: seq<nat>, timeout: nat): (time: nat)
    ensures time <= timeout
  {
    if Head(answers).Empty? || delays == [] then timeout else Min(delays[0], timeout)
  }

  /** `poll` and `read` of the source, answered from a script; times are milliseconds. */
  class EventSource {
    var answers: seq<Answer>
    /** How long after its poll an answer other than an empty one comes, on an exact source. */
    var delays: seq<nat>
    var clock: nat
    ghost var log: seq<Answer>
    /** The clock moves only while the source is polled: by the delay of an answer, or, if none
        comes in time, by the whole timeout. */
    const exact: bool

    constructor (answers: seq<Answer>, delays: seq<nat>, clock: nat, exact: bool)
      ensures this.answers == answers && this.delays == delays && this.clock == clock && this.exact == exact && log == []
    {
      this.answers, this.delays, this.clock, this.exact := answers, delays, clock, exact;
      log := [];
    }

    method Now() returns (instant: nat)
      modifies this`clock
      ensures instant == clock >= old(clock)
      ensures exact ==> clock == old(clock)
    {
      var lag: nat :| lag >= 0;
      if !exact {
        clock := clock + lag;
      }
      return clock;
    }

    /** `poll_source`: one poll, and the read that follows a ready one. */
    method PollSource(timeout: nat) returns (answer: Answer)
      modifies this
      ensures answer == Head(old(answers)) && answers == Tail(old(answers))
      ensures delays == Rest(old(delays))
      ensures log == old(log) + [answer]
      ensures clock >= old(clock)
      ensures exact ==> clock == old(clock) + PollTime(old(answers), old(delays), timeout)
    {
      var elapsed := PollTime(answers, delays, timeout);
      if !exact {
        elapsed :| elapsed >= 0;
      }
      answer := Head(answers);
      answers := Tail(answers);
      delays := Rest(delays);
      clock := clock + elapsed;
      log := log + [answer];
    }
  }

  // ---------------------------------------------------------------- one call, as a function

  datatype Polled = Got(event: Event) | Nothing | SourceError

  /** What one answer of a plain script gives; a script that ran out gives nothing. */
  function PolledOf(answer: Answer): Polled {
    match answer
    case Ready(event) => Got(event)
    case Empty => Nothing
    case Failed => SourceError
  }

  /** What one call that reaches the source brings out of the machine. */
  function Fresh(hold: Hold, answers: seq<Answer>): seq<Event>
    requires hold.Valid()
  {
    Delivered(RunFrom(hold, PollLog(hold, answers)).items)
  }

  function Last(log: seq<Answer>): Answer
    requires log != []
  {
    log[|log| - 1]
  }

  function PollResult(hold: Hold, answers: seq<Answer>): Polled
    requires hold.Valid()
  {
    if Last(PollLog(hold, answers)).Failed? then SourceError
    else if Fresh(hold, answers) == [] then Nothing
    else Got(Fresh(hold, answers)[0])
  }

  /** Only the answer that ends a call makes the machine put anything out. */
  lemma {:induction false} OnlyTheLastAnswerSpeaks(hold: Hold, answers: seq<Answer>)
    requires hold.Valid()
    ensures var log := PollLog(hold, answers);
            var quiet := RunFrom(hold, log[..|log| - 1]);
            && quiet.items == []
            && RunFrom(hold, log) == Step(quiet.hold, Last(log))
            && Stops(quiet.hold, Last(log))
    decreases |answers|
  {
    hide Step, Stops, RunFrom;
    var log := PollLog(hold, answers);
    if answers == [] || Stops(hold, answers[0]) {
      RunOne(hold, log[0]);
      assert log == [log[0]] && log[..0] == [];
      RunNone(hold);
      EmptyStops(hold);
    } else {
      var next := Step(hold, answers[0]);
      OnlyTheLastAnswerSpeaks(next.hold, answers[1..]);
      var rest := PollLog(next.hold, answers[1..]);
      assert log[1..] == rest;
      assert log[..|log| - 1][0] == answers[0] && log[..|log| - 1][1..] == rest[..|rest| - 1];
      SilentUnlessStopping(hold, answers[0]);
      RunCons(hold, log);
      RunCons(hold, log[..|log| - 1]);
      NothingFirst(RunFrom(next.hold, rest).items);
    }
  }

  lemma RunNone(hold: Hold)
    requires hold.Valid()
    ensures RunFrom(hold, []) == Scan([], hold)
  {
  }

  lemma EmptyStops(hold: Hold)
    requires hold.Valid()
    ensures Stops(hold, Empty)
  {
  }

  lemma SilentUnlessStopping(hold: Hold, answer: Answer)
    requires hold.Valid() && !Stops(hold, answer)
    ensures Step(hold, answer).items == []
  {
  }

  /** A call that ends on its first answer. */
  lemma EndsAtOnce(hold: Hold, answers: seq<Answer>)
    requires hold.Valid() && (answers == [] || Stops(hold, answers[0]))
    ensures var answer := Head(answers);
            && PollLog(hold, answers) == [answer]
            && PollResult(hold, answers)
               == if answer.Failed? then SourceError
                  else if Delivered(Step(hold, answer).items) == [] then Nothing
                  else Got(Delivered(Step(hold, answer).items)[0])
  {
    hide Step, Stops, Delivered;
    RunOne(hold, Head(answers));
  }

  /** A call that goes on after its first answer. */
  lemma EndsLater(hold: Hold, answers: seq<Answer>)
    requires hold.Valid() && answers != [] && !Stops(hold, answers[0])
    ensures var next := Step(hold, answers[0]).hold;
            && PollResult(hold, answers) == PollResult(next, answers[1..])
            && Last(PollLog(hold, answers)) == Last(PollLog(next, answers[1..]))
  {
    hide Step, Stops, Delivered, RunFrom;
    var next := Step(hold, answers[0]);
    SilentUnlessStopping(hold, answers[0]);
    var rest := PollLog(next.hold, answers[1..]);
    var log := PollLog(hold, answers);
    assert log == [answers[0]] + rest && log[1..] == rest;
    RunCons(hold, log);
    NothingFirst(RunFrom(next.hold, rest).items);
  }

  lemma StopsSilently(hold: Hold, answer: Answer)
    requires hold.Valid() && Stops(hold, answer)
    ensures answer.Ready? && Delivered(Step(hold, answer).items) == []
            <==> hold == Candidate([], []) && answer == Ready(ESCAPE)
  {
    hide Classify, Spell;
  }

  lemma GoesOnWithATail(hold: Hold, answer: Answer)
    requires hold.Valid() && !Stops(hold, answer)
    ensures Step(hold, answer).hold != Candidate([], [])
    ensures !(hold == Candidate([], []) && answer == Ready(ESCAPE))
  {
    hide Classify, Spell;
  }

  /**
  A call comes back empty-handed before its time exactly when it starts on a released Escape
  with no tail and meets a second Escape. Then a tick can be early.
  */
  lemma {:induction false} EmptyHandedEarly(hold: Hold, answers: seq<Answer>)
    requires hold.Valid()
    ensures PollResult(hold, answers) == Nothing && !Last(PollLog(hold, answers)).Empty?
            <==> hold == Candidate([], []) && answers != [] && answers[0] == Ready(ESCAPE)
    ensures hold == Candidate([], []) && answers != [] && answers[0] == Ready(ESCAPE) ==> PollLog(hold, answers) == [Ready(ESCAPE)]
    decreases |answers|
  {
    hide Step, Stops, Delivered, PollResult, PollLog;
    if answers == [] {
      EndsAtOnce(hold, answers);
    } else if Stops(hold, answers[0]) {
      EndsAtOnce(hold, answers);
      StopsSilently(hold, answers[0]);
    } else {
      EndsLater(hold, answers);
      GoesOnWithATail(hold, answers[0]);
      EmptyHandedEarly(Step(hold, answers[0]).hold, answers[1..]);
    }
  }

  /** That state is reached: an Escape, a quiet poll that releases it, and then a second Escape. */
  lemma EmptyHandedEarlyHappens()
    ensures Run([Ready(ESCAPE), Empty]).hold == Candidate([], [])
    ensures PollResult(Run([Ready(ESCAPE), Empty]).hold, [Ready(ESCAPE)]) == Nothing
    ensures PollLog(Run([Ready(ESCAPE), Empty]).hold, [Ready(ESCAPE)]) == [Ready(ESCAPE)]
  {
    assert [Ready(ESCAPE), Empty] == [Ready(ESCAPE)] + [Empty];
    RunAppend(Idle, [Ready(ESCAPE)], [Empty]);
    RunOne(Idle, Ready(ESCAPE));
    RunOne(Candidate([ESCAPE], []), Empty);
    EmptyHandedEarly(Candidate([], []), [Ready(ESCAPE)]);
  }

  lemma StepMass(hold: Hold, answer: Answer)
    requires hold.Valid()
    ensures var next := Step(hold, answer);
            |next.items| + |next.hold.Held()| <= |hold.Held()| + (if answer.Ready? then 1 else 0)
  {
    hide Classify, Spell;
  }

  /** A call never leaves more to deliver than it found and read. */
  lemma {:induction false} PollMass(hold: Hold, answers: seq<Answer>)
    requires hold.Valid()
    ensures var scan := RunFrom(hold, PollLog(hold, answers));
            && |PollRest(hold, answers)| + |scan.items| + |scan.hold.Held()| <= |answers| + |hold.Held()|
            && |Fresh(hold, answers)| == |scan.items|
    decreases |answers|
  {
    hide Step, Stops;
    if answers == [] {
      RunOne(hold, Empty);
      StepMass(hold, Empty);
    } else {
      StepMass(hold, answers[0]);
      if Stops(hold, answers[0]) {
        RunOne(hold, answers[0]);
      } else {
        var next := Step(hold, answers[0]);
        PollMass(next.hold, answers[1..]);
        SilentUnlessStopping(hold, answers[0]);
        var rest := PollLog(next.hold, answers[1..]);
        assert PollLog(hold, answers)[1..] == rest;
        var later := RunFrom(next.hold, rest).items;
        assert [] + later == later;
      }
    }
  }

  lemma DeliveredAppend(a: seq<Item>, b: seq<Item>)
    ensures Delivered(a + b) == Delivered(a) + Delivered(b)
  {
  }

  lemma DeliveredRaws(events: seq<Event>)
    ensures Delivered(Raws(events)) == events
  {
  }

  // ---------------------------------------------------------------- what is ahead

  /** What lies ahead of a poll: queued events, what is withheld, and the answers still to come. */
  datatype Feed = Feed(queue: seq<Event>, hold: Hold, answers: seq<Answer>) {

    ghost predicate Valid() {
      hold.Valid()
    }

    ghost function Weight(): nat {
      |queue| + |hold.Held()| + |answers|
    }
  }

  /** One poll: its result, and what lies ahead of the next. */
  ghost function Poll(feed: Feed): (next: (Polled, Feed))
    requires feed.Valid()
    ensures next.1.Valid()
  {
    if feed.queue != [] then (Got(feed.queue[0]), feed.(queue := feed.queue[1..]))
    else
      var polled := PollResult(feed.hold, feed.answers);
      var out := Fresh(feed.hold, feed.answers);
      (polled, Feed(if polled.Got? then out[1..] else out,
                    RunFrom(feed.hold, PollLog(feed.hold, feed.answers)).hold,
                    PollRest(feed.hold, feed.answers)))
  }

  lemma PollShrinks(feed: Feed)
    requires feed.Valid()
    ensures Poll(feed).0.Got? ==> Poll(feed).1.Weight() < feed.Weight()
  {
    hide PollLog, PollRest, RunFrom, Delivered;
    PollMass(feed.hold, feed.answers);
  }

  /** The first poll that does not give an ignored event. */
  ghost function FirstEvent(feed: Feed): (first: (Polled, Feed))
    requires feed.Valid()
    ensures first.1.Valid()
    ensures first.0.Got? ==> Adapt(first.0.event).Some?
    decreases feed.Weight()
  {
    PollShrinks(feed);
    var next := Poll(feed);
    if next.0.Got? && Adapt(next.0.event).None? then FirstEvent(next.1) else next
  }

  lemma FirstEventStep(feed: Feed)
    requires feed.Valid()
    ensures var next := Poll(feed);
            FirstEvent(feed) == if next.0.Got? && Adapt(next.0.event).None? then FirstEvent(next.1) else next
  {
  }

  /**
  A fold that may still poll this often: its result, and what lies ahead then. It takes in events
  of its kind, skips ignored ones, and puts back the first event of another kind.
  */
  ghost function FoldAll(event: RuntimeEvent, feed: Feed, left: nat): (folded: (Result, Feed))
    requires feed.Valid()
    ensures folded.1.Valid()
    decreases left
  {
    if left == 0 then (Ok(event), feed)
    else
      var next := Poll(feed);
      match next.0
      case SourceError => (Err, next.1)
      case Nothing => (Ok(event), next.1)
      case Got(raw) =>
        if Adapt(raw).None? then FoldAll(event, next.1, left - 1)
        else if SameFold(event, Adapt(raw).value) then FoldAll(Fold(event, Adapt(raw).value), next.1, left - 1)
        else (Ok(event), next.1.(queue := [raw] + next.1.queue))
  }

  /** Whether a fold that may still poll this often runs into a failing poll. */
  ghost predicate FoldFails(event: RuntimeEvent, feed: Feed, left: nat)
    requires feed.Valid()
  {
    FoldAll(event, feed, left).0.Err?
  }

  /** One step of a fold, for proofs that must not unfold it further. */
  lemma FoldAllStep(event: RuntimeEvent, feed: Feed, left: nat)
    requires feed.Valid()
    ensures FoldAll(event, feed, 0) == (Ok(event), feed)
    ensures left > 0 ==>
              var next := Poll(feed);
              FoldAll(event, feed, left)
              == match next.0
                 case SourceError => (Err, next.1)
                 case Nothing => (Ok(event), next.1)
                 case Got(raw) =>
                   if Adapt(raw).None? then FoldAll(event, next.1, left - 1)
                   else if SameFold(event, Adapt(raw).value) then FoldAll(Fold(event, Adapt(raw).value), next.1, left - 1)
                   else (Ok(event), next.1.(queue := [raw] + next.1.queue))
  {
    hide Poll, Adapt, SameFold;
  }

  /** Whether a fold fails depends on its kind, not on its cell or its notches. */
  lemma {:induction false} SameKindSameFate(a: RuntimeEvent, b: RuntimeEvent, feed: Feed, left: nat)
    requires feed.Valid() && SameFold(a, b)
    ensures FoldFails(a, feed, left) <==> FoldFails(b, feed, left)
    decreases left
  {
    hide Poll, Adapt, SameFold, Fold, FoldAll;
    FoldAllStep(a, feed, left);
    FoldAllStep(b, feed, left);
    if left > 0 && Poll(feed).0.Got? {
      var next, adapted := Poll(feed).1, Adapt(Poll(feed).0.event);
      if adapted.None? {
        SameKindSameFate(a, b, next, left - 1);
      } else {
        FoldKinds(a, b, adapted.value);
        if SameFold(a, adapted.value) {
          SameKindSameFate(Fold(a, adapted.value), Fold(b, adapted.value), next, left - 1);
        }
      }
    }
  }

  lemma FoldKinds(a: RuntimeEvent, b: RuntimeEvent, next: RuntimeEvent)
    requires SameFold(a, b)
    ensures SameFold(a, next) <==> SameFold(b, next)
    ensures SameFold(a, next) ==> SameFold(Fold(a, next), Fold(b, next)) && SameFold(a, Fold(a, next))
  {
  }

  lemma FoldStep(event: RuntimeEvent, feed: Feed, left: nat)
    requires feed.Valid()
    ensures var next := Poll(feed);
            FoldFails(event, feed, left) <==>
              left > 0 && (next.0.SourceError? || (Absorbed(event, next.0) && FoldFails(event, next.1, left - 1)))
    ensures !FoldFails(event, feed, 0)
  {
    hide Poll, Adapt, SameFold, Fold, FoldAll;
    FoldAllStep(event, feed, left);
    var next := Poll(feed);
    if left > 0 && next.0.Got? && Adapt(next.0.event).Some? && SameFold(event, Adapt(next.0.event).value) {
      SameFoldIsReflexive(event, Adapt(next.0.event).value);
      SameKindSameFate(event, Fold(event, Adapt(next.0.event).value), next.1, left - 1);
    }
  }

  lemma SameFoldIsReflexive(event: RuntimeEvent, next: RuntimeEvent)
    requires SameFold(event, next)
    ensures SameFold(event, event) && SameFold(event, Fold(event, next))
  {
  }

  /** A fold goes on over this: an ignored event, or one of its own kind. */
  predicate Absorbed(event: RuntimeEvent, polled: Polled) {
    polled.Got? && (Adapt(polled.event).None? || SameFold(event, Adapt(polled.event).value))
  }

  /** The event that begins a turn is one of a burst, and the burst runs into a failing poll. */
  ghost predicate LosesBurst(first: (Polled, Feed))
    requires first.1.Valid()
    requires first.0.Got? ==> Adapt(first.0.event).Some?
  {
    && first.0.Got? && Foldable(Adapt(first.0.event).value)
    && FoldFails(Adapt(first.0.event).value, first.1, WHEEL_COALESCE_LIMIT - 1)
  }

  /** Over a whole call of `next`, which may poll a second time to wait for the tick. */
  ghost predicate LosesBurstIn(feed: Feed, waits: bool)
    requires feed.Valid()
  {
    var first := FirstEvent(feed);
    LosesBurst(first) || (waits && first.0.Nothing? && LosesBurst(FirstEvent(first.1)))
  }

  /** The result of a turn that begins with something else than quiet. */
  ghost function EventTurn(first: (Polled, Feed)): Result
    requires first.1.Valid() && !first.0.Nothing?
    requires first.0.Got? ==> Adapt(first.0.event).Some?
  {
    if first.0.SourceError? then Err
    else
      var event := Adapt(first.0.event).value;
      if Foldable(event) then FoldAll(event, first.1, WHEEL_COALESCE_LIMIT - 1).0 else Ok(event)
  }

  /** The result of a whole call of `next`, from what lies ahead of it. */
  ghost function TurnOf(feed: Feed, backend: seq<nat>, waits: bool): Result
    requires feed.Valid()
  {
    var first := FirstEvent(feed);
    if !first.0.Nothing? then EventTurn(first)
    else if backend != [] then Ok(Backend(backend[0]))
    else if !waits then Ok(Tick)
    else
      var second := FirstEvent(first.1);
      if second.0.Nothing? then Ok(Tick) else EventTurn(second)
  }

  /** Over a whole call of `next`: nothing that means anything comes, and a tick is due or waited out. */
  ghost predicate Ticks(feed: Feed, backendEmpty: bool, waits: bool)
    requires feed.Valid()
  {
    var first := FirstEvent(feed);
    first.0.Nothing? && backendEmpty && (!waits || FirstEvent(first.1).0.Nothing?)
  }

  // ---------------------------------------------------------------- failing polls

  function Failures(log: seq<Answer>): nat {
    if log == [] then 0 else Failures(log[..|log| - 1]) + (if log[|log| - 1].Failed? then 1 else 0)
  }

  lemma {:induction false} FailuresAppend(a: seq<Answer>, b: seq<Answer>)
    ensures Failures(a + b) == Failures(a) + Failures(b)
  {
    if b == [] {
      assert a + b == a;
    } else {
      FailuresAppend(a, b[..|b| - 1]);
      assert (a + b)[..|a + b| - 1] == a + b[..|b| - 1];
    }
  }

  lemma OneFailure(answer: Answer)
    ensures Failures([answer]) == if answer.Failed? then 1 else 0
  {
    assert [answer][..0] == [];
  }

  /** A call ends at the first failing poll, so it has at most one, its last. */
  lemma {:induction false} FailureIsLast(hold: Hold, answers: seq<Answer>)
    requires hold.Valid()
    ensures Failures(PollLog(hold, answers)) == if Last(PollLog(hold, answers)).Failed? then 1 else 0
    decreases |answers|
  {
    hide Step, Failures;
    if answers == [] {
      OneFailure(Empty);
    } else {
      OneFailure(answers[0]);
      if !Stops(hold, answers[0]) {
        var next := Step(hold, answers[0]).hold;
        FailureIsLast(next, answers[1..]);
        FailuresAppend([answers[0]], PollLog(next, answers[1..]));
      }
    }
  }

  /** The state of a call in the middle: what it consumed was silent and led to `hold`. */
  ghost predicate MidCall(start: Hold, script: seq<Answer>, done: seq<Answer>, hold: Hold, answers: seq<Answer>) {
    && start.Valid() && hold.Valid()
    && PollLog(start, script) == done + PollLog(hold, answers)
    && PollRest(start, script) == PollRest(hold, answers)
    && RunFrom(start, done) == Scan([], hold)
  }

  lemma CallStarts(start: Hold, script: seq<Answer>)
    requires start.Valid()
    ensures MidCall(start, script, [], start, script)
  {
    hide Step;
    assert [] + PollLog(start, script) == PollLog(start, script);
  }

  lemma CallGoesOn(start: Hold, script: seq<Answer>, done: seq<Answer>, hold: Hold, answers: seq<Answer>)
    requires MidCall(start, script, done, hold, answers)
    requires !Stops(hold, Head(answers))
    ensures MidCall(start, script, done + [Head(answers)], Step(hold, Head(answers)).hold, Tail(answers))
  {
    hide Step, Stops, RunFrom;
    var answer := Head(answers);
    EmptyStops(hold);
    SilentUnlessStopping(hold, answer);
    RunAppend(start, done, [answer]);
    RunOne(hold, answer);
    assert done + [answer] + PollLog(Step(hold, answer).hold, Tail(answers)) == done + PollLog(hold, answers);
  }

  lemma CallEnds(start: Hold, script: seq<Answer>, done: seq<Answer>, hold: Hold, answers: seq<Answer>)
    requires MidCall(start, script, done, hold, answers)
    requires Stops(hold, Head(answers))
    ensures PollLog(start, script) == done + [Head(answers)]
    ensures PollRest(start, script) == Tail(answers)
    ensures RunFrom(start, PollLog(start, script)) == Step(hold, Head(answers))
    ensures Last(PollLog(start, script)) == Head(answers)
  {
    hide Step, Stops, RunFrom;
    RunAppend(start, done, [Head(answers)]);
    RunOne(hold, Head(answers));
    NothingFirst(Step(hold, Head(answers)).items);
  }

  /** What one answer puts out while a candidate is held, case by case. */
  lemma OnQuiet(escape: seq<Event>, tail: seq<Event>)
    requires Candidate(escape, tail).Valid()
    ensures var next := Step(Candidate(escape, tail), Empty);
            && Delivered(next.items) == (if tail == [] then escape else [])
            && next.hold == Candidate(if tail == [] then [] else escape, tail)
  {
    DeliveredRaws(escape);
    assert Delivered([]) == [];
  }

  lemma OnFailure(escape: seq<Event>, tail: seq<Event>)
    requires Candidate(escape, tail).Valid()
    ensures var next := Step(Candidate(escape, tail), Failed);
            Delivered(next.items) == escape + tail && next.hold == Idle
  {
    DeliveredRaws(escape + tail);
  }

  lemma OnEscape(escape: seq<Event>, tail: seq<Event>)
    requires Candidate(escape, tail).Valid()
    ensures var next := Step(Candidate(escape, tail), Ready(ESCAPE));
            Delivered(next.items) == escape + tail && next.hold == Candidate([ESCAPE], [])
    ensures Stops(Candidate(escape, tail), Ready(ESCAPE))
  {
    DeliveredRaws(escape + tail);
  }

  lemma OnOther(escape: seq<Event>, tail: seq<Event>, event: Event)
    requires Candidate(escape, tail).Valid() && event != ESCAPE
    requires TailChar(event).None? || Classify(Spell(tail + [event])) == Rejected
    ensures var next := Step(Candidate(escape, tail), Ready(event));
            Delivered(next.items) == escape + (tail + [event]) && next.hold == Idle
    ensures Stops(Candidate(escape, tail), Ready(event))
  {
    hide Classify;
    DeliveredRaws(escape + tail + [event]);
    assert escape + (tail + [event]) == escape + tail + [event];
  }

  lemma OnCharacter(escape: seq<Event>, tail: seq<Event>, event: Event)
    requires Candidate(escape, tail).Valid() && TailChar(event).Some?
    requires Classify(Spell(tail + [event])) != Rejected
    ensures var next := Step(Candidate(escape, tail), Ready(event));
            var verdict := Classify(Spell(tail + [event]));
            && Stops(Candidate(escape, tail), Ready(event)) == verdict.Complete?
            && Delivered(next.items) == (if verdict.Complete? then [Mouse(verdict.mouse)] else [])
            && next.hold == if verdict.Complete? then Idle else Candidate(escape, tail + [event])
  {
    hide Classify;
  }

  // ---------------------------------------------------------------- the lookahead loop

  /** An Escape, unless it went out already, and what may spell the tail behind it. */
  datatype MouseReport = MouseReport(escape: Option<Event>, deadline: nat, buffered: seq<Event>, report: string) {

    function Hold(): Hold {
      Candidate(ToSeq(escape), buffered)
    }

    function Events(): seq<Event> {
      ToSeq(escape) + buffered
    }

    ghost predicate Good() {
      Hold().Valid() && Hold().Waiting() && report == Spell(buffered) && |report| < MOUSE_REPORT_MAX_CHARS
    }
  }

  /** How one event, or a whole lookahead, leaves the candidate. */
  datatype Lookahead =
    | Extended(candidate: MouseReport)
    | Kept(candidate: MouseReport, released: Option<Event>)
    | Replayed(candidate: MouseReport, second: Option<Event>)
    | Broken(candidate: MouseReport)
    | Found(mouse: MouseEvent)
  {
    function Out(): seq<Event> {
      match this
      case Extended(_) => []
      case Kept(_, released) => ToSeq(released)
      case Replayed(candidate, _) => candidate.Events()
      case Broken(candidate) => candidate.Events()
      case Found(mouse) => [Mouse(mouse)]
    }

    function After(): Hold {
      match this
      case Extended(candidate) => candidate.Hold()
      case Kept(candidate, _) => candidate.Hold()
      case Replayed(_, second) => if second.Some? then Candidate([ESCAPE], []) else Idle
      case Broken(_) => Idle
      case Found(_) => Idle
    }

    /** This is what the machine does with the answer. */
    ghost predicate Matches(hold: Hold, answer: Answer)
      requires hold.Valid()
    {
      && After() == Step(hold, answer).hold
      && Out() == Delivered(Step(hold, answer).items)
      && Stops(hold, answer) == !Extended?
    }
  }

  /** The body of the lookahead loop for an event that was read. */
  method JudgeEvent(candidate: MouseReport, event: Event) returns (judged: Lookahead)
    requires candidate.Good()
    ensures judged.Matches(candidate.Hold(), Ready(event))
    ensures judged.Extended? || judged.Replayed? || judged.Found?
    ensures judged.Replayed? && judged.second.Some? ==> judged.second.value == ESCAPE
    ensures judged.Extended? ==>
              && judged.candidate.Good()
              && judged.candidate.escape == candidate.escape && judged.candidate.deadline == candidate.deadline
              && |judged.candidate.report| == |candidate.report| + 1
  {
    hide Classify, Step, Stops, Delivered;
    var hold := candidate.Hold();
    if event == ESCAPE {
      // What is held goes out; the new Escape is left to the next call.
      OnEscape(hold.escape, hold.tail);
      return Replayed(candidate, Some(event));
    }
    var longer := candidate.(buffered := candidate.buffered + [event]);
    var character := TailChar(event);
    if character.None? {
      OnOther(hold.escape, hold.tail, event);
      return Replayed(longer, None);
    }
    longer := longer.(report := longer.report + [character.value]);
    SpellSnoc(hold.tail, event);
    var verdict := ParseReport(longer.report);
    if verdict.Rejected? {
      OnOther(hold.escape, hold.tail, event);
      return Replayed(longer, None);
    }
    OnCharacter(hold.escape, hold.tail, event);
    if verdict.Complete? {
      return Found(verdict.mouse);
    }
    UnfinishedIsShort(longer.report);
    StepWaits(hold, Ready(event));
    return Extended(longer);
  }

  /** One poll of the lookahead: a lone Escape waits for its grace period only. */
  method PollForTail(source: EventSource, candidate: MouseReport, pollDeadline: nat) returns (answer: Answer)
    modifies source
    ensures answer == Head(old(source.answers)) && source.answers == Tail(old(source.answers))
    ensures source.log == old(source.log) + [answer]
    ensures source.clock >= old(source.clock)
    ensures source.exact ==> source.clock <= Max(old(source.clock), Max(pollDeadline, candidate.deadline))
    ensures source.exact && answer.Empty? ==>
              if candidate.report == [] && old(source.clock) < candidate.deadline then source.clock == candidate.deadline
              else source.clock >= pollDeadline
    ensures candidate.report == [] && candidate.deadline <= old(source.clock) && source.exact ==> source.clock <= Max(old(source.clock), pollDeadline)
  {
    var now := source.Now();
    var grace := SaturatingSub(candidate.deadline, now);
    // Behind the first character the call goes on waiting up to its own deadline.
    var wait := SaturatingSub(pollDeadline, now);
    var patience := if candidate.report == [] && grace != 0 then grace else Max(wait, grace);
    answer := source.PollSource(patience);
  }

  /** What one answer makes of the candidate. */
  method TakeAnswer(source: EventSource, candidate: MouseReport, answer: Answer) returns (found: Lookahead)
    requires candidate.Good()
    modifies source`clock
    ensures found.Matches(candidate.Hold(), answer)
    ensures source.clock >= old(source.clock) && (source.exact ==> source.clock == old(source.clock))
    ensures found.Kept? <==> answer.Empty?
    ensures found.Broken? <==> answer.Failed?
    ensures found.Kept? ==>
              && found.candidate.Hold().Valid() && found.candidate.report == Spell(found.candidate.buffered)
              && found.candidate.deadline <= source.clock && (found.candidate.report == [] ==> found.candidate.escape.None?)
              && found.released == if candidate.report == [] then candidate.escape else None
    ensures found.Replayed? && found.second.Some? ==> found.second.value == ESCAPE
    ensures found.Extended? ==>
              && found.candidate.Good() && found.candidate.Hold().Valid()
              && found.candidate.escape == candidate.escape && found.candidate.deadline == candidate.deadline
              && |found.candidate.report| == |candidate.report| + 1
  {
    hide Step, Stops, Classify, Delivered, Spell, MouseReport.Good, Lookahead.Matches;
    match answer {
      case Empty =>
        // Only a lone Escape goes out; a begun tail is held across calls.
        var released := if candidate.report == [] then candidate.escape else None;
        var settled := source.Now();
        found := Kept(candidate.(escape := if candidate.report == [] then None else candidate.escape,
                                 deadline := settled), released);
        QuietMatches(candidate, found);
      case Failed =>
        found := Broken(candidate);
        FailureMatches(candidate);
      case Ready(event) =>
        found := JudgeEvent(candidate, event);
        if found.Extended? {
          GoodIsValid(found.candidate);
        }
    }
  }

  /** The loop of `recover_mouse_report`. */
  method LookAhead(source: EventSource, initial: MouseReport, timeout: nat) returns (found: Lookahead)
    requires initial.Good()
    requires initial.report == [] && initial.escape.None? ==> initial.deadline <= source.clock
    requires initial.report == [] && initial.escape.Some? && source.exact ==> source.clock < initial.deadline
    modifies source
    ensures !found.Extended?
    ensures source.log == old(source.log) + PollLog(initial.Hold(), old(source.answers))
    ensures source.answers == PollRest(initial.Hold(), old(source.answers))
    ensures found.After() == RunFrom(initial.Hold(), PollLog(initial.Hold(), old(source.answers))).hold
    ensures found.Out() == Fresh(initial.Hold(), old(source.answers))
    ensures found.Broken? <==> Last(PollLog(initial.Hold(), old(source.answers))).Failed?
    ensures found.Kept? <==> Last(PollLog(initial.Hold(), old(source.answers))).Empty?
    ensures found.Kept? ==> found.candidate.Hold().Valid() && found.candidate.report == Spell(found.candidate.buffered)
                            && found.candidate.deadline <= source.clock && (found.candidate.report == [] ==> found.candidate.escape.None?)
    ensures found.Replayed? && found.second.Some? ==> found.second.value == ESCAPE
    ensures source.clock >= old(source.clock)
    ensures source.exact ==> source.clock <= Max(old(source.clock) + timeout, initial.deadline)
    ensures source.exact && found.Kept? && found.released.None? ==> source.clock >= old(source.clock) + timeout
    // A lone Escape is released when its grace period ends, whatever the timeout.
    ensures found.Kept? && found.released.Some? ==> initial.report == [] && initial.escape.Some?
    ensures source.exact && found.Kept? && found.released.Some? ==> source.clock == initial.deadline
  {
    hide Step, Stops, RunFrom, PollLog, PollRest, Classify, Delivered, Spell, MidCall, MouseReport.Good;
    hide Lookahead.Matches, Lookahead.After, Lookahead.Out;
    ghost var start, script, before := initial.Hold(), source.answers, source.log;
    var candidate := initial;
    var entered := source.Now();
    var pollDeadline := entered + timeout;
    ghost var done: seq<Answer> := [];
    GoodIsValid(initial);
    CallStarts(start, script);
    while |candidate.report| < MOUSE_REPORT_MAX_CHARS
      invariant candidate.Good() && candidate.Hold().Valid()
      invariant MidCall(start, script, done, candidate.Hold(), source.answers)
      invariant source.log == before + done
      invariant source.clock >= old(source.clock)
      invariant candidate.report == [] && candidate.escape.None? ==> candidate.deadline <= source.clock
      invariant candidate.deadline == initial.deadline
      invariant candidate.report == [] ==> candidate == initial && (source.exact ==> source.clock == old(source.clock))
      invariant source.exact ==> pollDeadline == old(source.clock) + timeout
      invariant source.exact ==> source.clock <= Max(pollDeadline, initial.deadline)
      decreases MOUSE_REPORT_MAX_CHARS - |candidate.report|
    {
      ghost var hold, answers := candidate.Hold(), source.answers;
      var answer := PollForTail(source, candidate, pollDeadline);
      found := TakeAnswer(source, candidate, answer);
      if !found.Extended? {
        CallCloses(start, script, done, hold, answers, found);
        return;
      }
      CallContinues(start, script, done, hold, answers, found);
      done := done + [answer];
      candidate := found.candidate;
    }
    GoodIsShort(candidate);
  }

  lemma GoodIsValid(candidate: MouseReport)
    requires candidate.Good()
    ensures candidate.Hold().Valid()
  {
  }

  lemma GoodIsShort(candidate: MouseReport)
    requires candidate.Good()
    ensures |candidate.report| < MOUSE_REPORT_MAX_CHARS
  {
  }

  lemma QuietMatches(candidate: MouseReport, found: Lookahead)
    requires candidate.Good() && found.Kept?
    requires found.released == if candidate.report == [] then candidate.escape else None
    requires found.candidate.escape == if candidate.report == [] then None else candidate.escape
    requires found.candidate.buffered == candidate.buffered && found.candidate.report == candidate.report
    ensures candidate.Hold().Valid() && found.Matches(candidate.Hold(), Empty)
    ensures found.candidate.Hold().Valid() && found.candidate.report == Spell(found.candidate.buffered)
  {
    hide Classify, Step;
    OnQuiet(candidate.Hold().escape, candidate.buffered);
    StepWaits(candidate.Hold(), Empty);
  }

  lemma FailureMatches(candidate: MouseReport)
    requires candidate.Good()
    ensures candidate.Hold().Valid() && Broken(candidate).Matches(candidate.Hold(), Failed)
  {
    OnFailure(candidate.Hold().escape, candidate.buffered);
  }

  lemma KeptOut(found: Lookahead)
    ensures found.Kept? ==> (found.Out() == [] <==> found.released.None?)
  {
  }

  lemma CallCloses(start: Hold, script: seq<Answer>, done: seq<Answer>, hold: Hold, answers: seq<Answer>, found: Lookahead)
    requires MidCall(start, script, done, hold, answers)
    requires hold.Valid() && found.Matches(hold, Head(answers)) && !found.Extended?
    ensures start.Valid() && PollLog(start, script) == done + [Head(answers)]
    ensures PollRest(start, script) == Tail(answers)
    ensures Last(PollLog(start, script)) == Head(answers)
    ensures found.After() == RunFrom(start, PollLog(start, script)).hold
    ensures found.Out() == Fresh(start, script)
  {
    hide Step, Stops, RunFrom, PollLog, PollRest;
    CallEnds(start, script, done, hold, answers);
  }

  lemma CallContinues(start: Hold, script: seq<Answer>, done: seq<Answer>, hold: Hold, answers: seq<Answer>, found: Lookahead)
    requires MidCall(start, script, done, hold, answers)
    requires hold.Valid() && found.Matches(hold, Head(answers)) && found.Extended?
    ensures MidCall(start, script, done + [Head(answers)], found.candidate.Hold(), Tail(answers))
  {
    hide Step, Stops, RunFrom, PollLog, PollRest;
    CallGoesOn(start, script, done, hold, answers);
  }

  // ---------------------------------------------------------------- runtime events

  /**
  What the adapter makes of an event. Keys, pastes, resizes and the other pointer phases pass
  through one to one; which code the adapter gives them is not part of this model.
  */
  datatype RuntimeEvent =
    | WheelUp(column: nat, row: nat, notches: nat)
    | WheelDown(column: nat, row: nat, notches: nat)
    | Move(column: nat, row: nat)
    | Input(raw: Event)
    | Backend(id: nat)
    | Tick

  /** Motion and the vertical wheel. */
  predicate Scrolls(event: Event) {
    event.Mouse? && (event.mouse.kind.Moved? || event.mouse.kind.ScrollUp? || event.mouse.kind.ScrollDown?)
  }

  predicate LeftButton(kind: MouseKind) {
    (kind.Down? || kind.Up? || kind.Drag?) && kind.button == Left
  }

  function Adapt(event: Event): (adapted: Option<RuntimeEvent>)
    ensures adapted.Some? ==> !adapted.value.Backend? && !adapted.value.Tick?
    // Ignored are changes of focus, the horizontal wheel and every button but the left one.
    ensures adapted.None? <==>
              event.FocusGained? || event.FocusLost? || (event.Mouse? && !Scrolls(event) && !LeftButton(event.mouse.kind))
    // What folds is what scrolls, where it happened; anything else passes through whole.
    ensures adapted.Some? ==> (Foldable(adapted.value) <==> Scrolls(event))
    ensures Scrolls(event) ==> adapted.value.column == event.mouse.column && adapted.value.row == event.mouse.row
    ensures adapted.Some? && !Scrolls(event) ==> adapted.value == Input(event)
    ensures event.Mouse? && event.mouse.kind.ScrollUp? ==> adapted.value.WheelUp? && adapted.value.notches == 1
    ensures event.Mouse? && event.mouse.kind.ScrollDown? ==> adapted.value.WheelDown? && adapted.value.notches == 1
    ensures event.Mouse? && event.mouse.kind.Moved? ==> adapted.value.Move?
  {
    match event
    case Key(_, _, _, _) => Some(Input(event))
    case Paste(_) => Some(Input(event))
    case Resize(_, _) => Some(Input(event))
    case FocusGained => None
    case FocusLost => None
    case Mouse(mouse) =>
      match mouse.kind
      case Moved => Some(Move(mouse.column, mouse.row))
      case ScrollUp => Some(WheelUp(mouse.column, mouse.row, 1))
      case ScrollDown => Some(WheelDown(mouse.column, mouse.row, 1))
      case Down(button) => if button == Left then Some(Input(event)) else None
      case Drag(button) => if button == Left then Some(Input(event)) else None
      case Up(button) => if button == Left then Some(Input(event)) else None
      case _ => None
  }

  /** The events of a stretch of input that mean something to the runtime. */
  function Adapted(events: seq<Event>): seq<RuntimeEvent> {
    if events == [] then []
    else Adapted(events[..|events| - 1]) + ToSeq(Adapt(events[|events| - 1]))
  }

  lemma AdaptedSnoc(events: seq<Event>, event: Event)
    ensures Adapted(events + [event]) == Adapted(events) + ToSeq(Adapt(event))
  {
    assert (events + [event])[..|events|] == events;
  }

  predicate Foldable(event: RuntimeEvent) {
    event.WheelUp? || event.WheelDown? || event.Move?
  }

  /** The two go into one: the same wheel direction, or both passive motion. */
  predicate SameFold(event: RuntimeEvent, next: RuntimeEvent) {
    (event.WheelUp? && next.WheelUp?) || (event.WheelDown? && next.WheelDown?) || (event.Move? && next.Move?)
  }

  /** The event as it was read is one more of what is folded: a notch the same way, or motion. */
  predicate Continues(event: RuntimeEvent, raw: Event) {
    raw.Mouse? &&
    match event
    case WheelUp(_, _, _) => raw.mouse.kind.ScrollUp?
    case WheelDown(_, _, _) => raw.mouse.kind.ScrollDown?
    case Move(_, _) => raw.mouse.kind.Moved?
    case _ => false
  }

  /** A fold takes in exactly what continues it: a notch, or the next cell of the motion. */
  lemma FoldsWhatContinues(event: RuntimeEvent, raw: Event)
    ensures Adapt(raw).Some? && SameFold(event, Adapt(raw).value) <==> Continues(event, raw)
    ensures Continues(event, raw) ==>
              var cell := raw.mouse;
              Fold(event, Adapt(raw).value)
              == match event
                 case WheelUp(_, _, notches) => WheelUp(cell.column, cell.row, notches + 1)
                 case WheelDown(_, _, notches) => WheelDown(cell.column, cell.row, notches + 1)
                 case _ => Move(cell.column, cell.row)
  {
  }

  function Fold(event: RuntimeEvent, next: RuntimeEvent): RuntimeEvent
    requires SameFold(event, next)
  {
    match event
    case WheelUp(_, _, notches) => WheelUp(next.column, next.row, notches + next.notches)
    case WheelDown(_, _, notches) => WheelDown(next.column, next.row, notches + next.notches)
    case Move(_, _) => next
  }

  /**
  The event stands for exactly this stretch of adapted input: one notch per wheel event of its
  direction, or a run of motion, at the cell of the last; anything else stands for itself.
  */
  ghost predicate Stands(event: RuntimeEvent, input: seq<RuntimeEvent>) {
    match event
    case WheelUp(column, row, notches) =>
      && 1 <= notches == |input| <= WHEEL_COALESCE_LIMIT
      && (forall i :: 0 <= i < |input| ==> input[i].WheelUp? && input[i].notches == 1)
      && input[|input| - 1] == WheelUp(column, row, 1)
    case WheelDown(column, row, notches) =>
      && 1 <= notches == |input| <= WHEEL_COALESCE_LIMIT
      && (forall i :: 0 <= i < |input| ==> input[i].WheelDown? && input[i].notches == 1)
      && input[|input| - 1] == WheelDown(column, row, 1)
    case Move(column, row) =>
      && 1 <= |input| <= WHEEL_COALESCE_LIMIT
      && (forall i :: 0 <= i < |input| ==> input[i].Move?)
      && input[|input| - 1] == event
    case Input(_) => input == [event]
    case _ => input == []
  }

  lemma AdaptStands(event: Event)
    requires Adapt(event).Some?
    ensures Stands(Adapt(event).value, [Adapt(event).value])
  {
  }

  lemma FoldStaysFoldable(event: RuntimeEvent, next: RuntimeEvent)
    requires SameFold(event, next)
    ensures Foldable(Fold(event, next))
  {
  }

  lemma FoldStands(event: RuntimeEvent, input: seq<RuntimeEvent>, raw: Event)
    requires Stands(event, input) && |input| < WHEEL_COALESCE_LIMIT
    requires Adapt(raw).Some? && SameFold(event, Adapt(raw).value)
    ensures Stands(Fold(event, Adapt(raw).value), input + [Adapt(raw).value])
  {
  }

  // ---------------------------------------------------------------- how long ignored events last

  predicate Ignored(answer: Answer) {
    answer.Ready? && Adapt(answer.event).None?
  }

  /** How long a plain script keeps a waiting turn, and what is left of it then. */
  datatype Pause = Pause(time: nat, answers: seq<Answer>, delays: seq<nat>)

  /** Every ignored event starts the wait again with the whole timeout. */
  function PlainPause(answers: seq<Answer>, delays: seq<nat>, timeout: nat): Pause {
    var time := PollTime(answers, delays, timeout);
    if answers != [] && Ignored(answers[0]) then
      var later := PlainPause(answers[1..], Rest(delays), timeout);
      later.(time := time + later.time)
    else Pause(time, Tail(answers), Rest(delays))
  }

  /** The time to a tick: what is ready is looked at first, and a due tick does not wait. */
  function TickPause(answers: seq<Answer>, delays: seq<nat>, timeout: nat): nat {
    var ready := PlainPause(answers, delays, 0);
    ready.time + (if timeout == 0 then 0 else PlainPause(ready.answers, ready.delays, timeout).time)
  }

  /** The most that this many polls can take. */
  function PollsTake(polls: nat, timeout: nat): nat {
    polls * (timeout + MOUSE_REPORT_GRACE)
  }

  lemma OneMorePoll(polls: nat, timeout: nat)
    ensures PollsTake(polls + 1, timeout) == PollsTake(polls, timeout) + timeout + MOUSE_REPORT_GRACE
    ensures PollsTake(0, timeout) == 0
  {
  }

  lemma FewerPolls(polls: nat, more: nat, timeout: nat)
    requires polls <= more
    ensures PollsTake(polls, timeout) <= PollsTake(more, timeout)
  {
  }

  // ---------------------------------------------------------------- ticks

  function TickAfter(at: nat, interval: nat, now: nat): (next: nat)
    requires interval > 0
    decreases if at <= now then now - at + 1 else 0
  {
    if at <= now then TickAfter(at + interval, interval, now) else at
  }

  /** The schedule keeps its phase and moves to the first slot after `now`, no further. */
  lemma {:induction false} TickKeepsPhase(at: nat, interval: nat, now: nat) returns (steps: nat)
    requires interval > 0
    ensures TickAfter(at, interval, now) == at + steps * interval
    ensures TickAfter(at, interval, now) > now
    ensures steps > 0 ==> at + (steps - 1) * interval <= now
    decreases if at <= now then now - at + 1 else 0
  {
    steps := 0;
    if at <= now {
      var more := TickKeepsPhase(at + interval, interval, now);
      steps := more + 1;
      assert (more + 1) * interval == more * interval + interval;
      if more > 0 {
        assert (more - 1) * interval + interval == more * interval;
      }
    }
  }

  method AdvanceTick(nextTickAt: nat, interval: nat, now: nat) returns (next: nat)
    requires interval > 0
    ensures next == TickAfter(nextTickAt, interval, now)
  {
    next := nextTickAt;
    while next <= now
      invariant TickAfter(next, interval, now) == TickAfter(nextTickAt, interval, now)
      decreases if next <= now then now - next + 1 else 0
    {
      next := next + interval;
    }
  }

  // ---------------------------------------------------------------- the pump

  datatype Result = Ok(event: RuntimeEvent) | Err

  /** One call of `Next`: its result, a burst it dropped, and the input it used up. */
  datatype Turn = Turn(result: Result, dropped: Option<RuntimeEvent>, consumed: seq<Event>) {

    ghost predicate Accounted() {
      match result
      case Ok(event) => dropped.None? && Stands(event, Adapted(consumed))
      case Err =>
        if dropped.Some? then Foldable(dropped.value) && Stands(dropped.value, Adapted(consumed))
        else Adapted(consumed) == []
    }
  }

  function Consumed(turns: seq<Turn>): seq<Event> {
    if turns == [] then [] else Consumed(turns[..|turns| - 1]) + turns[|turns| - 1].consumed
  }

  function Errors(turns: seq<Turn>): nat {
    if turns == [] then 0 else Errors(turns[..|turns| - 1]) + (if turns[|turns| - 1].result.Err? then 1 else 0)
  }

  class EventPump {
    const source: EventSource
    var backend: seq<nat>
    const tickInterval: nat
    var nextTickAt: nat
    var pendingTerminal: seq<Event>
    /** The Escape that ended a lookahead; the next call decodes it. */
    var pendingEscape: Option<Event>
    var pendingMouse: Option<MouseReport>
    /** Events handed on to the runtime side. */
    ghost var taken: seq<Event>
    ghost var turns: seq<Turn>

    constructor (source: EventSource, backend: seq<nat>, tickInterval: nat, now: nat)
      requires tickInterval > 0 && source.log == []
      ensures Valid() && Settled() && this.source == source && this.backend == backend
      ensures turns == [] && taken == [] && pendingTerminal == []
      ensures this.tickInterval == tickInterval && nextTickAt == now + tickInterval
    {
      this.source, this.backend, this.tickInterval := source, backend, tickInterval;
      nextTickAt := now + tickInterval;
      pendingTerminal, pendingEscape, pendingMouse := [], None, None;
      taken, turns := [], [];
    }

    ghost function Withheld(): Hold
      reads this`pendingEscape, this`pendingMouse
    {
      if pendingMouse.Some? then Candidate(ToSeq(pendingMouse.value.escape), pendingMouse.value.buffered)
      else if pendingEscape.Some? then Candidate([ESCAPE], [])
      else Idle
    }

    /** The pump is where the machine is. */
    ghost predicate Follows()
      reads this`pendingTerminal, this`pendingEscape, this`pendingMouse, this`taken, source
    {
      && tickInterval > 0
      && Withheld().Valid()
      && Withheld() == Run(source.log).hold
      && (pendingMouse.Some? ==> pendingEscape.None? && pendingMouse.value.report == Spell(pendingMouse.value.buffered))
      && (pendingEscape.Some? ==> pendingEscape.value == ESCAPE)
      && Delivered(Run(source.log).items) == taken + pendingTerminal
    }

    /** Between calls a candidate that lost its Escape, or has a tail, is past its grace period. */
    ghost predicate Valid()
      reads this`pendingTerminal, this`pendingEscape, this`pendingMouse, this`taken, source
    {
      && Follows()
      && (pendingMouse.Some? ==>
            && pendingMouse.value.deadline <= source.clock
            && (pendingMouse.value.report == [] ==> pendingMouse.value.escape.None?))
    }

    /**
    Every turn accounts for the input it used, together they used all that was taken, and each
    error among them is one failing poll of the source.
    */
    ghost predicate Settled()
      reads this`taken, this`turns, source
    {
      && taken == Consumed(turns)
      && Errors(turns) == Failures(source.log)
      && forall turn :: turn in turns ==> turn.Accounted()
    }

    ghost function Mass(): nat
      reads this`pendingTerminal, this`pendingEscape, this`pendingMouse, source
    {
      |source.answers| + |pendingTerminal| + |Withheld().Held()|
    }

    /**
    Between any two calls, after any answers of the source: the events handed on and queued are
    the machine's output, and with each recovered report standing for the events that spelled it
    they are, followed by what is withheld, exactly the events read.
    */
    lemma InputIsConserved()
      requires Valid()
      ensures var items := Run(source.log).items;
              && Delivered(items) == taken + pendingTerminal
              && Sources(items) + Withheld().Held() == Reads(source.log)
              && (forall item :: item in items ==> item.Valid())
              && EscapesInPlace(items)
    {
      Conservation(Idle, source.log);
      ItemsAreValid(Idle, source.log);
      ReleasedEscapePrecedesItsReport([], Idle, source.log);
      assert [] + Run(source.log).items == Run(source.log).items;
    }

    /** `recover_mouse_report`: carry on with the candidate until the call can answer. */
    method RecoverMouseReport(timeout: nat) returns (polled: Polled)
      requires Follows() && pendingMouse.Some? && pendingTerminal == []
      requires pendingMouse.value.report == [] && pendingMouse.value.escape.None?
               ==> pendingMouse.value.deadline <= source.clock
      requires pendingMouse.value.report == [] && pendingMouse.value.escape.Some? && source.exact
               ==> source.clock < pendingMouse.value.deadline
      modifies this`pendingTerminal, this`pendingEscape, this`pendingMouse, this`taken, source
      ensures Valid()
      ensures source.log == old(source.log) + PollLog(old(Withheld()), old(source.answers))
      ensures source.answers == PollRest(old(Withheld()), old(source.answers))
      ensures polled == PollResult(old(Withheld()), old(source.answers))
      ensures Handed(polled, Fresh(old(Withheld()), old(source.answers)), old(taken))
      ensures source.clock >= old(source.clock)
      ensures source.exact ==> source.clock <= Max(old(source.clock) + timeout, old(pendingMouse.value.deadline))
      ensures source.exact && polled.Nothing? && Last(source.log).Empty? ==> source.clock >= old(source.clock) + timeout
      ensures polled.Got? && Last(source.log).Empty? ==>
                old(pendingMouse.value.report) == [] && old(pendingMouse.value.escape).Some?
      ensures source.exact && polled.Got? && Last(source.log).Empty? ==> source.clock == old(pendingMouse.value.deadline)
    {
      hide Step, Stops, RunFrom, PollLog, PollRest, Classify, Delivered, Spell, AllTail, MouseReport.Good,
           Lookahead.After, Lookahead.Out, EventPump.Valid, EventPump.Follows, EventPump.Withheld, Run;
      ghost var start, script, before := Withheld(), source.answers, source.log;
      WithheldIsGood();
      var found := LookAhead(source, pendingMouse.value, timeout);
      CallAdds(before, PollLog(start, script));
      assert taken + [] == taken;
      KeptOut(found);
      polled := Settle(found);
    }

    lemma WithheldIsGood()
      requires Follows() && pendingMouse.Some?
      ensures pendingMouse.value.Good() && pendingEscape.None? && tickInterval > 0
      ensures Withheld() == pendingMouse.value.Hold() == Run(source.log).hold
      ensures Delivered(Run(source.log).items) == taken + pendingTerminal
    {
      RunWaits(Idle, source.log);
      CandidateIsGood(pendingMouse.value);
    }

    /** Puts everything a lookahead found where the next call will look for it. */
    method Settle(found: Lookahead) returns (polled: Polled)
      requires tickInterval > 0 && pendingTerminal == [] && pendingEscape.None? && !found.Extended?
      requires Run(source.log).hold == found.After()
      requires Delivered(Run(source.log).items) == taken + found.Out()
      requires found.Kept? ==> found.candidate.Hold().Valid() && found.candidate.report == Spell(found.candidate.buffered)
                               && found.candidate.deadline <= source.clock
                               && (found.candidate.report == [] ==> found.candidate.escape.None?)
      requires found.Replayed? && found.second.Some? ==> found.second.value == ESCAPE
      modifies this`pendingTerminal, this`pendingEscape, this`pendingMouse, this`taken
      ensures Valid()
      ensures Handed(polled, found.Out(), old(taken))
      ensures polled == if found.Broken? then SourceError else if found.Out() == [] then Nothing else Got(found.Out()[0])
    {
      hide Run, Delivered, Spell, AllTail;
      pendingMouse := None;
      match found {
        case Kept(candidate, released) =>
          pendingMouse := Some(candidate);
          taken := taken + ToSeq(released);
          polled := if released.Some? then Got(released.value) else Nothing;
          assert taken + [] == taken;
        case Broken(candidate) =>
          pendingTerminal := candidate.Events();
          polled := SourceError;
        case Replayed(candidate, second) =>
          pendingEscape := second;
          pendingTerminal := candidate.Events();
          polled := Nothing;
          if pendingTerminal != [] {
            FirstThenRest(taken, pendingTerminal);
            polled := Got(pendingTerminal[0]);
            taken := taken + [pendingTerminal[0]];
            pendingTerminal := pendingTerminal[1..];
          }
        case Found(mouse) =>
          taken := taken + [Mouse(mouse)];
          polled := Got(Mouse(mouse));
          assert taken + [] == taken;
      }
    }

    /** When an Escape that this call decodes is there: at once if it was held, else when it arrives. */
    ghost function EscapeAt(timeout: nat): nat
      reads this`pendingEscape, source
    {
      if pendingEscape.Some? then source.clock
      else source.clock + PollTime(source.answers, source.delays, timeout)
    }

    /**
    When a call that starts now must have ended: at its own deadline, or, if it opens a candidate,
    at the end of the grace period that starts where its Escape is read.
    */
    ghost function Deadline(timeout: nat): (instant: nat)
      reads this`pendingTerminal, this`pendingEscape, this`pendingMouse, source
      ensures source.clock <= instant <= source.clock + timeout + 32
    {
      var own := source.clock + timeout;
      if pendingTerminal != [] || pendingMouse.Some? then own
      else if pendingEscape.Some? || Head(source.answers) == Ready(ESCAPE) then Max(own, EscapeAt(timeout) + MOUSE_REPORT_GRACE)
      else own
    }

    /** Nothing is queued or held, and no Escape lies ahead: each poll is one answer of the script. */
    ghost predicate Plain()
      reads this`pendingTerminal, this`pendingEscape, this`pendingMouse, source
    {
      pendingTerminal == [] && pendingEscape.None? && pendingMouse.None? && Ready(ESCAPE) !in source.answers
    }

    /** What the next poll has before it. */
    ghost function Ahead(): (feed: Feed)
      requires Valid()
      reads this`pendingTerminal, this`pendingEscape, this`pendingMouse, this`taken, source
      ensures feed.Valid()
    {
      Feed(pendingTerminal, Withheld(), source.answers)
    }

    /** What a call put out was handed on as its first event and queued as the rest. */
    ghost predicate Handed(polled: Polled, out: seq<Event>, before: seq<Event>)
      reads this
    {
      match polled
      case Got(event) => out != [] && event == out[0] && taken == before + [event] && pendingTerminal == out[1..]
      case _ => taken == before && pendingTerminal == out
    }

    /** `poll_terminal`: a queued event, or what one call of the machine gives. */
    method PollTerminal(timeout: nat) returns (polled: Polled)
      requires Valid()
      modifies this`pendingTerminal, this`pendingEscape, this`pendingMouse, this`taken, source
      ensures Valid()
      ensures (polled, Ahead()) == Poll(old(Ahead()))
      ensures taken == if polled.Got? then old(taken) + [polled.event] else old(taken)
      ensures source.log == old(source.log) + (if old(pendingTerminal) == [] then PollLog(old(Withheld()), old(source.answers)) else [])
      // Time: the call ends by its own deadline, or by the grace of a candidate it opened itself;
      // it does not give up earlier than asked unless a second Escape ended it; and an Escape that
      // stays alone goes out when its grace period ends.
      ensures source.clock >= old(source.clock)
      ensures old(pendingTerminal) != [] ==> source.clock == old(source.clock)
      ensures source.exact ==> source.clock <= old(Deadline(timeout))
      ensures source.exact && polled.Nothing? && Last(source.log).Empty? ==> source.clock >= old(source.clock) + timeout
      ensures source.exact && polled.Got? && |source.log| > |old(source.log)| && Last(source.log).Empty? ==>
                source.clock == old(EscapeAt(timeout)) + 32
      ensures old(Plain()) ==> OneAnswer(polled, old(source.answers), old(source.delays))
      ensures source.exact && old(Plain()) ==> source.clock == old(source.clock) + PollTime(old(source.answers), old(source.delays), timeout)
      ensures polled.Nothing? ==> RanDry()
      ensures old(source.log) <= source.log && (polled.Nothing? ==> |source.log| > |old(source.log)|)
      // An error is a failing poll of this call, and the other way round.
      ensures polled.SourceError? <==> |source.log| > |old(source.log)| && Last(source.log).Failed?
      ensures Failures(source.log) == old(Failures(source.log)) + (if polled.SourceError? then 1 else 0)
      // Progress: a delivered event is used up.
      ensures Mass() + (if polled.Got? then 1 else 0) <= old(Mass())
    {
      hide Step, Stops, RunFrom, PollLog, PollRest, PollResult, Fresh, Poll, Classify, Delivered, Spell, Failures, Run,
           EventPump.Valid, EventPump.Withheld, EventPump.Deadline, EventPump.EscapeAt;
      ghost var hold, script, before := Withheld(), source.answers, source.log;
      WhereItIs();
      if pendingTerminal != [] {
        polled := PopQueue();
        assert before + [] == before;
        return;
      }
      CallSays(hold, script, before);
      if pendingMouse.Some? {
        polled := ContinueCandidate(timeout);
      } else {
        polled := PollAfresh(timeout);
      }
      WhereItIs();
    }

    /** `pending_terminal.pop_front()`. */
    method PopQueue() returns (polled: Polled)
      requires Valid() && pendingTerminal != []
      modifies this`pendingTerminal, this`taken
      ensures Valid() && polled.Got? && (polled, Ahead()) == Poll(old(Ahead())) && Mass() + 1 <= old(Mass())
      ensures taken == old(taken) + [polled.event] && Withheld() == old(Withheld())
    {
      hide Run, Delivered, Spell, PollResult, Fresh;
      FirstThenRest(taken, pendingTerminal);
      polled := Got(pendingTerminal[0]);
      taken := taken + [pendingTerminal[0]];
      pendingTerminal := pendingTerminal[1..];
    }

    lemma WhereItIs()
      requires Valid()
      ensures tickInterval > 0 && Withheld().Valid() && Withheld() == Run(source.log).hold && Ahead() == Feed(pendingTerminal, Withheld(), source.answers)
    {
      hide Run;
    }

    /** What is held after one answer of a plain script. */
    ghost predicate OneAnswer(polled: Polled, answers: seq<Answer>, delays: seq<nat>)
      reads this`pendingTerminal, this`pendingEscape, this`pendingMouse, source
    {
      && Plain() && polled == PolledOf(Head(answers)) && source.answers == Tail(answers) && source.delays == Rest(delays)
    }

    /** A call that finds a candidate left by an earlier one. */
    method ContinueCandidate(timeout: nat) returns (polled: Polled)
      requires Valid() && pendingTerminal == [] && pendingMouse.Some?
      modifies this`pendingTerminal, this`pendingEscape, this`pendingMouse, this`taken, source
      ensures Valid()
      ensures source.log == old(source.log) + PollLog(old(Withheld()), old(source.answers))
      ensures source.answers == PollRest(old(Withheld()), old(source.answers))
      ensures polled == PollResult(old(Withheld()), old(source.answers))
      ensures Handed(polled, Fresh(old(Withheld()), old(source.answers)), old(taken))
      ensures source.clock >= old(source.clock)
      ensures source.exact ==> source.clock <= old(Deadline(timeout))
      ensures source.exact && polled.Nothing? && Last(source.log).Empty? ==> source.clock >= old(source.clock) + timeout
      ensures polled.Got? ==> !Last(source.log).Empty?
    {
      hide Run, Step, Stops, RunFrom, PollLog, PollRest, PollResult, Fresh, Classify, Delivered, Spell;
      polled := RecoverMouseReport(timeout);
    }

    /** The rest of `poll_terminal`: nothing queued and no candidate under way. */
    method PollAfresh(timeout: nat) returns (polled: Polled)
      requires Valid() && pendingTerminal == [] && pendingMouse.None?
      modifies this`pendingTerminal, this`pendingEscape, this`pendingMouse, this`taken, source
      ensures Valid()
      ensures source.log == old(source.log) + PollLog(old(Withheld()), old(source.answers))
      ensures source.answers == PollRest(old(Withheld()), old(source.answers))
      ensures polled == PollResult(old(Withheld()), old(source.answers))
      ensures Handed(polled, Fresh(old(Withheld()), old(source.answers)), old(taken))
      ensures source.clock >= old(source.clock)
      ensures source.exact ==> source.clock <= old(Deadline(timeout))
      ensures source.exact && polled.Nothing? && Last(source.log).Empty? ==> source.clock >= old(source.clock) + timeout
      ensures source.exact && polled.Got? && Last(source.log).Empty? ==> source.clock == old(EscapeAt(timeout)) + 32
      ensures old(Plain()) ==> OneAnswer(polled, old(source.answers), old(source.delays))
      ensures source.exact && old(Plain()) ==> source.clock == old(source.clock) + PollTime(old(source.answers), old(source.delays), timeout)
    {
      hide Step, Stops, RunFrom, PollLog, PollRest, Classify, Delivered, Spell;
      ghost var script, before := source.answers, source.log;
      var entered := source.Now();
      var pollDeadline := entered + timeout;
      if pendingEscape.Some? {
        var escape := pendingEscape.value;
        pendingEscape := None;
        polled := OpenCandidate(escape, pollDeadline);
        return;
      }
      var answer := source.PollSource(timeout);
      FromIdle(script);
      if answer != Ready(ESCAPE) {
        CallAdds(before, PollLog(Idle, script));
        assert taken + [] == taken;
        if !answer.Ready? {
          return if answer.Empty? then Nothing else SourceError;
        }
        taken := taken + [answer.event];
        assert taken + [] == taken;
        return Got(answer.event);
      }
      CallAdds(before, [answer]);
      assert Delivered(Run(before).items) + [] == Delivered(Run(before).items);
      polled := OpenCandidate(answer.event, pollDeadline);
      assert before + [answer] + PollLog(Candidate([ESCAPE], []), Tail(script)) == before + PollLog(Idle, script);
    }

    /** A plain Escape was read, or was waiting to be decoded: it opens a candidate. */
    method OpenCandidate(escape: Event, pollDeadline: nat) returns (polled: Polled)
      requires escape == ESCAPE && tickInterval > 0
      requires pendingTerminal == [] && pendingMouse.None? && pendingEscape.None?
      requires Run(source.log).hold == Candidate([ESCAPE], [])
      requires Delivered(Run(source.log).items) == taken
      modifies this`pendingTerminal, this`pendingEscape, this`pendingMouse, this`taken, source
      ensures Valid()
      ensures source.log == old(source.log) + PollLog(Candidate([ESCAPE], []), old(source.answers))
      ensures source.answers == PollRest(Candidate([ESCAPE], []), old(source.answers))
      ensures polled == PollResult(Candidate([ESCAPE], []), old(source.answers))
      ensures Handed(polled, Fresh(Candidate([ESCAPE], []), old(source.answers)), old(taken))
      ensures source.clock >= old(source.clock)
      ensures source.exact ==> source.clock <= Max(pollDeadline, old(source.clock) + MOUSE_REPORT_GRACE)
      ensures source.exact && polled.Nothing? && Last(source.log).Empty? ==> source.clock >= pollDeadline
      ensures source.exact && polled.Got? && Last(source.log).Empty? ==> source.clock == old(source.clock) + MOUSE_REPORT_GRACE
    {
      hide Run, Step, Stops, RunFrom, PollLog, PollRest, Classify, Delivered, Spell;
      NothingSpelled();
      var opening := source.Now();
      pendingMouse := Some(MouseReport(Some(escape), opening + MOUSE_REPORT_GRACE, [], ""));
      assert taken + [] == taken;
      assert Withheld() == Candidate([ESCAPE], []);
      var now := source.Now();
      var remaining := SaturatingSub(pollDeadline, now);
      polled := RecoverMouseReport(remaining);
    }

    /** Whether a fold could still take in what is ready: it could not, so it stopped. */
    ghost predicate RanDry()
      reads this`pendingTerminal, source
    {
      pendingTerminal == [] && source.log != [] && (Last(source.log).Empty? || Last(source.log) == Ready(ESCAPE))
    }

    /** `coalesce_pointer`: fold what is ready now into a wheel or motion event. */
    method CoalescePointer(first: RuntimeEvent, ghost base: seq<Event>) returns (result: Result, ghost dropped: Option<RuntimeEvent>)
      requires Valid() && base <= taken && Adapted(taken[|base|..]) == [first] && Stands(first, [first])
      requires !first.Backend? && !first.Tick?
      modifies this`pendingTerminal, this`pendingEscape, this`pendingMouse, this`taken, source
      ensures Valid() && base <= taken && source.clock >= old(source.clock) && old(source.log) <= source.log
      ensures old(taken) <= taken
      ensures result.Ok? ==> dropped.None? && Stands(result.event, Adapted(taken[|base|..]))
      ensures result.Ok? ==> !result.event.Backend? && !result.event.Tick?
      ensures result.Err? ==> dropped.Some? && Foldable(dropped.value) && Stands(dropped.value, Adapted(taken[|base|..]))
      // It fails exactly when its burst runs into a failing poll, and then nothing of it is kept.
      ensures result.Err? <==> |source.log| > |old(source.log)| && Last(source.log).Failed?
      ensures Failures(source.log) == old(Failures(source.log)) + (if result.Err? then 1 else 0)
      ensures dropped.Some? <==> Foldable(first) && FoldFails(first, old(Ahead()), WHEEL_COALESCE_LIMIT - 1)
      ensures Foldable(first) ==> (result, Ahead()) == FoldAll(first, old(Ahead()), WHEEL_COALESCE_LIMIT - 1)
      ensures !Foldable(first) ==>
                result == Ok(first) && taken == old(taken) && pendingTerminal == old(pendingTerminal)
                && source.log == old(source.log) && Withheld() == old(Withheld())
      // A fold ends at its limit, at the first ready event of another kind, or when nothing is ready.
      ensures Foldable(first) && result.Ok? ==>
                || |taken| == |old(taken)| + WHEEL_COALESCE_LIMIT - 1
                || RanDry()
                || (pendingTerminal != [] && Adapt(pendingTerminal[0]).Some? && !Continues(result.event, pendingTerminal[0]))
    {
      hide Run, PollLog, Classify, Adapted, Stands, Failures, Poll, FoldAll, Adapt, Continues, Fold, SameFold,
           EventPump.Mass, EventPump.Valid, EventPump.Withheld, EventPump.RanDry;
      if !Foldable(first) {
        return Ok(first), None;
      }
      var event := first;
      for i := 1 to WHEEL_COALESCE_LIMIT
        invariant Valid() && base <= taken && old(taken) <= taken
        invariant source.clock >= old(source.clock) && old(source.log) <= source.log
        invariant Foldable(event) && Stands(event, Adapted(taken[|base|..])) && |Adapted(taken[|base|..])| <= i
        invariant |taken| == |old(taken)| + i - 1
        invariant Failures(source.log) == old(Failures(source.log))
        invariant |source.log| > |old(source.log)| ==> !Last(source.log).Failed?
        invariant FoldAll(first, old(Ahead()), WHEEL_COALESCE_LIMIT - 1) == FoldAll(event, Ahead(), WHEEL_COALESCE_LIMIT - i)
      {
        var more;
        more, result := FoldNext(event, base, WHEEL_COALESCE_LIMIT - i);
        if !more {
          return result, if result.Err? then Some(event) else None;
        }
        event := result.event;
      }
      FoldAllStep(event, Ahead(), 0);
      return Ok(event), None;
    }

    /** The body of the fold's loop: one poll, and what it makes of the event so far. */
    method FoldNext(event: RuntimeEvent, ghost base: seq<Event>, ghost left: nat) returns (more: bool, result: Result)
      requires Valid() && base <= taken && left > 0
      requires Foldable(event) && Stands(event, Adapted(taken[|base|..])) && |Adapted(taken[|base|..])| < WHEEL_COALESCE_LIMIT
      modifies this`pendingTerminal, this`pendingEscape, this`pendingMouse, this`taken, source
      ensures Valid() && base <= taken && source.clock >= old(source.clock) && old(source.log) <= source.log
      ensures Failures(source.log) == old(Failures(source.log)) + (if result.Err? then 1 else 0)
      ensures result.Err? <==> |source.log| > |old(source.log)| && Last(source.log).Failed?
      ensures more ==> result.Ok? && old(taken) <= taken && |taken| == |old(taken)| + 1
      ensures more ==> Foldable(result.event) && Stands(result.event, Adapted(taken[|base|..]))
                       && |Adapted(taken[|base|..])| <= |old(Adapted(taken[|base|..]))| + 1
      ensures more ==> FoldAll(event, old(Ahead()), left) == FoldAll(result.event, Ahead(), left - 1)
      ensures !more ==> taken == old(taken) && (result.Ok? ==> result == Ok(event))
      ensures !more ==> FoldAll(event, old(Ahead()), left) == (result, Ahead())
      ensures !more && result.Ok? ==>
                || RanDry()
                || (pendingTerminal != [] && Adapt(pendingTerminal[0]).Some? && !Continues(event, pendingTerminal[0]))
    {
      hide Run, PollLog, Classify, Adapted, Stands, Failures, Poll, FoldAll, Adapt, Continues, Fold, SameFold, PollTime,
           EventPump.Mass, EventPump.Valid, EventPump.Withheld, EventPump.Deadline, EventPump.EscapeAt, EventPump.Plain,
           EventPump.OneAnswer, EventPump.RanDry;
      ghost var before := taken;
      FoldAllStep(event, Ahead(), left);
      var polled := PollTerminal(0);
      if polled.SourceError? {
        return false, Err;
      }
      if polled.Nothing? {
        return false, Ok(event);
      }
      var raw := polled.event;
      SinceSnoc(base, before, raw);
      AdaptedSnoc(before[|base|..], raw);
      var next := Adapt(raw);
      if next.None? {
        assert Adapted(before[|base|..]) + [] == Adapted(before[|base|..]);
        return true, Ok(event);
      }
      FoldsWhatContinues(event, raw);
      if SameFold(event, next.value) {
        FoldStands(event, Adapted(before[|base|..]), raw);
        FoldStaysFoldable(event, next.value);
        return true, Ok(Fold(event, next.value));
      }
      PutBack(raw, before);
      return false, Ok(event);
    }

    /** `push_front`: an event that was read too far is next in line again. */
    method PutBack(raw: Event, ghost before: seq<Event>)
      requires Valid() && taken == before + [raw]
      modifies this`pendingTerminal, this`taken
      ensures Valid() && taken == before && pendingTerminal == [raw] + old(pendingTerminal)
      ensures Ahead() == old(Ahead()).(queue := [raw] + old(Ahead()).queue)
    {
      hide Run, Delivered, Spell;
      FirstThenRest(before, [raw] + pendingTerminal);
      pendingTerminal := [raw] + pendingTerminal;
      taken := before;
    }

    /** The latest turn, added to the history. */
    ghost predicate Turned(result: Result, drops: bool, base: seq<Event>, history: seq<Turn>)
      reads this`taken, this`turns
    {
      && base <= taken
      && |turns| == |history| + 1 && turns[..|history|] == history
      && turns[|history|].result == result && turns[|history|].consumed == taken[|base|..]
      && (turns[|history|].dropped.Some? <==> drops)
    }

    ghost method Record(result: Result, dropped: Option<RuntimeEvent>, base: seq<Event>)
      requires base <= taken && base == Consumed(turns)
      requires forall turn :: turn in turns ==> turn.Accounted()
      requires Turn(result, dropped, taken[|base|..]).Accounted()
      requires Failures(source.log) == Errors(turns) + (if result.Err? then 1 else 0)
      modifies this`turns
      ensures Settled() && Turned(result, dropped.Some?, base, old(turns))
    {
      var turn := Turn(result, dropped, taken[|base|..]);
      turns := turns + [turn];
      assert turns[..|old(turns)|] == old(turns);
      assert base + taken[|base|..] == taken;
    }

    /** `next`: ready terminal input first, then backend, then a due tick, else wait for the tick. */
    method Next(now: nat) returns (result: Result)
      requires Valid() && Settled()
      modifies this`backend, this`nextTickAt, this`turns
      modifies this`pendingTerminal, this`pendingEscape, this`pendingMouse, this`taken, source
      ensures Valid() && Settled()
      // What lies ahead decides the result.
      ensures result == TurnOf(old(Ahead()), old(backend), now < old(nextTickAt))
      // The turn drops a burst if and only if the first event ahead, or, where the call waits for
      // the tick, the first that comes meanwhile, begins a burst that runs into a failing poll.
      ensures Turned(result, LosesBurstIn(old(Ahead()), old(backend) == [] && now < old(nextTickAt)), old(taken), old(turns))
      // An error is a failing poll of this call, and the other way round.
      ensures result.Err? <==> |source.log| > |old(source.log)| && Last(source.log).Failed?
      // The terminal is polled in this very call before anything else is looked at.
      ensures result.Ok? && (result.event.Backend? || result.event.Tick?) ==> |source.log| > |old(source.log)|
      // A backend event is taken in order, and only while no terminal event is ready.
      ensures result.Ok? && result.event.Backend? ==>
                && RanDry() && old(backend) != [] && result.event.id == old(backend)[0] && backend == old(backend)[1..]
      ensures !(result.Ok? && result.event.Backend?) ==> backend == old(backend)
      // A tick comes only behind both, and moves the schedule past the instant it was waited to.
      ensures result == Ok(Tick) ==>
                && RanDry() && backend == [] && nextTickAt == TickAfter(old(nextTickAt), tickInterval, Max(now, old(nextTickAt)))
      ensures result != Ok(Tick) ==> nextTickAt == old(nextTickAt)
      // On an exact source a tick is early only behind a second Escape that ended the wait.
      ensures source.exact && result == Ok(Tick) && now < old(nextTickAt) && source.clock < old(source.clock) + (old(nextTickAt) - now)
              ==> Last(source.log) == Ready(ESCAPE)
      // The result is a tick exactly when nothing ready means anything, no backend event waits, and
      // the tick is due or nothing that means anything comes before the wait for it ends.
      ensures result == Ok(Tick) <==> Ticks(old(Ahead()), old(backend) == [], now < old(nextTickAt))
      // On an exact source a tick is late by the ignored events of this call alone, each of which
      // starts the wait again; on a plain script by exactly the time they take.
      ensures source.exact && result == Ok(Tick) ==>
                source.clock <= old(source.clock) + PollsTake(|taken| - |old(taken)| + 1, 0)
                                + (if now < old(nextTickAt) then PollsTake(|taken| - |old(taken)| + 1, old(nextTickAt) - now) else 0)
      ensures source.exact && old(Plain()) && result == Ok(Tick) ==>
                source.clock == old(source.clock) + TickPause(old(source.answers), old(source.delays), SaturatingSub(old(nextTickAt), now))
    {
      hide Run, Adapted, Stands, Consumed, Failures, Errors, Poll, FirstEvent, FoldAll, PollsTake, PlainPause, EventPump.Mass,
           EventPump.Withheld, EventPump.Plain, EventPump.Valid, PollLog, Turn.Accounted;
      WhereItIs();
      ghost var base := taken;
      NothingAdapted(base);
      NoInput();
      var quiet;
      quiet, result := TerminalEvent(0, base);
      if !quiet {
        return;
      }
      ghost var ready := |taken| - |old(taken)|;
      if backend != [] {
        result := Ok(Backend(backend[0]));
        backend := backend[1..];
        Record(result, None, base);
        return;
      }
      if now >= nextTickAt {
        nextTickAt := AdvanceTick(nextTickAt, tickInterval, now);
        Record(Ok(Tick), None, base);
        return Ok(Tick);
      }
      var timeout := SaturatingSub(nextTickAt, now);
      quiet, result := TerminalEvent(timeout, base);
      if !quiet {
        return;
      }
      ghost var all := |taken| - |old(taken)|;
      FewerPolls(ready + 1, all + 1, 0);
      FewerPolls(all - ready + 1, all + 1, timeout);
      nextTickAt := AdvanceTick(nextTickAt, tickInterval, now + timeout);
      Record(Ok(Tick), None, base);
      return Ok(Tick);
    }

    /**
    The polling half of `next`, which runs it once without waiting and once up to the tick:
    ignored events are skipped, anything else ends the turn.
    */
    method TerminalEvent(timeout: nat, ghost base: seq<Event>) returns (quiet: bool, result: Result)
      requires Valid() && base == Consumed(turns) && Errors(turns) == Failures(source.log)
      requires forall turn :: turn in turns ==> turn.Accounted()
      requires base <= taken && Adapted(taken[|base|..]) == []
      modifies this`turns
      modifies this`pendingTerminal, this`pendingEscape, this`pendingMouse, this`taken, source
      ensures Valid() && base <= taken && old(taken) <= taken && source.clock >= old(source.clock)
      ensures quiet ==> turns == old(turns) && RanDry() && Adapted(taken[|base|..]) == []
      ensures old(source.log) <= source.log && (quiet ==> |source.log| > |old(source.log)|)
      ensures quiet && source.exact && Last(source.log).Empty? ==> source.clock >= old(source.clock) + timeout
      ensures quiet ==> FirstEvent(old(Ahead())) == (Nothing, Ahead()) && Failures(source.log) == old(Failures(source.log))
      ensures !quiet ==> Settled() && Turned(result, LosesBurst(FirstEvent(old(Ahead()))), base, old(turns))
      ensures !quiet ==> !FirstEvent(old(Ahead())).0.Nothing? && result == EventTurn(FirstEvent(old(Ahead())))
      ensures !quiet ==> (result.Err? <==> |source.log| > |old(source.log)| && Last(source.log).Failed?)
      ensures !quiet && result.Ok? ==> !result.event.Backend? && !result.event.Tick?
      ensures |source.log| > |old(source.log)| && Last(source.log).Failed? ==> !quiet
      ensures quiet && source.exact ==> source.clock <= old(source.clock) + PollsTake(|taken| - |old(taken)| + 1, timeout)
      ensures quiet && old(Plain()) ==> Paused(source.clock - old(source.clock), old(source.answers), old(source.delays), timeout)
    {
      hide Run, PollLog, Classify, Delivered, Spell, Adapted, Stands, Consumed, Failures, Errors, Poll, FoldAll, FirstEvent,
           PollsTake, PlainPause, EventPump.Valid, EventPump.Withheld, EventPump.Mass, EventPump.Plain;
      var polled := SkipIgnored(timeout, base);
      match polled {
        case SourceError =>
          Record(Err, None, base);
          return false, Err;
        case Nothing =>
          return true, Err;
        case Got(raw) =>
          ghost var dropped;
          result, dropped := CoalescePointer(Adapt(raw).value, base);
          Record(result, dropped, base);
          return false, result;
      }
    }

    /** Polls until something else than an ignored event comes; each poll has the whole timeout. */
    method SkipIgnored(timeout: nat, ghost base: seq<Event>) returns (polled: Polled)
      requires Valid() && base <= taken && Adapted(taken[|base|..]) == []
      modifies this`pendingTerminal, this`pendingEscape, this`pendingMouse, this`taken, source
      ensures Valid() && base <= taken && old(taken) <= taken && old(source.log) <= source.log
      ensures (polled, Ahead()) == FirstEvent(old(Ahead()))
      ensures polled.Got? ==> Adapt(polled.event).Some? && Stands(Adapt(polled.event).value, [Adapt(polled.event).value])
      ensures Adapted(taken[|base|..]) == if polled.Got? then [Adapt(polled.event).value] else []
      ensures polled.Nothing? ==> RanDry() && |source.log| > |old(source.log)|
      ensures polled.SourceError? <==> |source.log| > |old(source.log)| && Last(source.log).Failed?
      ensures Failures(source.log) == old(Failures(source.log)) + (if polled.SourceError? then 1 else 0)
      // Time: each ignored event starts the wait again.
      ensures source.clock >= old(source.clock)
      ensures source.exact && polled.Nothing? && Last(source.log).Empty? ==> source.clock >= old(source.clock) + timeout
      ensures source.exact && polled.Nothing? ==>
                source.clock <= old(source.clock) + PollsTake(|taken| - |old(taken)| + 1, timeout)
      ensures old(Plain()) && polled.Nothing? ==>
                Paused(source.clock - old(source.clock), old(source.answers), old(source.delays), timeout)
    {
      hide Run, PollLog, Classify, Delivered, Spell, Adapted, Stands, Failures, Poll, FirstEvent, PollsTake, PlainPause,
           OneAnswer, PollTime, Adapt,
           EventPump.Valid, EventPump.Withheld, EventPump.Mass, EventPump.Deadline, EventPump.EscapeAt, EventPump.Plain;
      polled := Nothing;
      OneMorePoll(0, timeout);
      while true
        invariant Valid() && base <= taken && Adapted(taken[|base|..]) == [] && old(taken) <= taken
        invariant FirstEvent(Ahead()) == FirstEvent(old(Ahead()))
        invariant Failures(source.log) == old(Failures(source.log)) && old(source.log) <= source.log
        invariant |source.log| > |old(source.log)| ==> !Last(source.log).Failed?
        invariant source.clock >= old(source.clock)
        invariant source.exact ==> source.clock <= old(source.clock) + PollsTake(|taken| - |old(taken)|, timeout)
        invariant old(Plain()) ==> StillPausing(source.clock - old(source.clock), old(source.answers), old(source.delays), timeout)
        decreases Mass()
      {
        ghost var before := taken;
        ghost var answers, delays, clock := source.answers, source.delays, source.clock;
        FirstEventStep(Ahead());
        OneMorePoll(|taken| - |old(taken)|, timeout);
        polled := PollTerminal(timeout);
        if old(Plain()) {
          PauseGoesOn(polled, clock - old(source.clock), old(source.answers), old(source.delays), answers, delays, clock, timeout);
        }
        if !polled.Got? {
          return;
        }
        IgnoredOrFirst(base, before, polled.event);
        if Adapt(polled.event).Some? {
          return;
        }
      }
    }

    /** Part of a plain pause is over; the rest lies ahead. */
    ghost predicate StillPausing(time: int, answers: seq<Answer>, delays: seq<nat>, timeout: nat)
      reads this`pendingTerminal, this`pendingEscape, this`pendingMouse, source
    {
      var whole, rest := PlainPause(answers, delays, timeout), PlainPause(source.answers, source.delays, timeout);
      && Plain() && rest.answers == whole.answers && rest.delays == whole.delays
      && (source.exact ==> time + rest.time == whole.time)
    }

    /** A plain pause is over. */
    ghost predicate Paused(time: int, answers: seq<Answer>, delays: seq<nat>, timeout: nat)
      reads this`pendingTerminal, this`pendingEscape, this`pendingMouse, source
    {
      var whole := PlainPause(answers, delays, timeout);
      && Plain() && source.answers == whole.answers && source.delays == whole.delays
      && (source.exact ==> time == whole.time)
    }

    /** One poll of a plain pause, from what lay ahead before it to what lies ahead now. */
    lemma PauseGoesOn(polled: Polled, time: int, answers: seq<Answer>, delays: seq<nat>,
                      before: seq<Answer>, left: seq<nat>, clock: nat, timeout: nat)
      requires OneAnswer(polled, before, left)
      requires var whole, rest := PlainPause(answers, delays, timeout), PlainPause(before, left, timeout);
               && rest.answers == whole.answers && rest.delays == whole.delays
               && (source.exact ==> time + rest.time == whole.time)
      requires source.exact ==> source.clock == clock + PollTime(before, left, timeout)
      ensures polled.Got? && Adapt(polled.event).None? ==> StillPausing(time + source.clock - clock, answers, delays, timeout)
      ensures polled.Nothing? ==> Paused(time + source.clock - clock, answers, delays, timeout)
    {
    }
  }

  lemma NothingAdapted(base: seq<Event>)
    ensures base[|base|..] == [] && Adapted([]) == []
  {
  }

  lemma NoInput()
    ensures Stands(Tick, []) && forall id: nat :: Stands(Backend(id), [])
  {
  }

  lemma IgnoredOrFirst(base: seq<Event>, before: seq<Event>, event: Event)
    requires base <= before && Adapted(before[|base|..]) == []
    ensures base <= before + [event]
    ensures Adapted((before + [event])[|base|..]) == if Adapt(event).Some? then [Adapt(event).value] else []
    ensures Adapt(event).Some? ==> Stands(Adapt(event).value, [Adapt(event).value])
  {
    hide Adapted, Adapt;
    SinceSnoc(base, before, event);
    AdaptedSnoc(before[|base|..], event);
    assert [] + ToSeq(Adapt(event)) == ToSeq(Adapt(event));
    if Adapt(event).Some? {
      AdaptStands(event);
    }
  }

  lemma SinceSnoc(base: seq<Event>, before: seq<Event>, event: Event)
    requires base <= before
    ensures base <= before + [event]
    ensures (before + [event])[|base|..] == before[|base|..] + [event]
  {
  }

  lemma FirstThenRest<T>(before: seq<T>, queue: seq<T>)
    requires queue != []
    ensures before + queue == (before + [queue[0]]) + queue[1..]
  {
  }

  lemma NothingSpelled()
    ensures AllTail([]) && Spell([]) == ""
  {
  }

  lemma CandidateIsGood(candidate: MouseReport)
    requires candidate.Hold().Valid() && candidate.Hold().Waiting() && candidate.report == Spell(candidate.buffered)
    ensures candidate.Good()
  {
    hide Classify;
    if candidate.buffered != [] {
      assert candidate.buffered[..|candidate.buffered|] == candidate.buffered;
      UnfinishedIsShort(candidate.report);
    }
  }

  lemma CallAdds(before: seq<Answer>, log: seq<Answer>)
    ensures var start := Run(before).hold;
            && Run(before + log).hold == RunFrom(start, log).hold
            && Delivered(Run(before + log).items) == Delivered(Run(before).items) + Delivered(RunFrom(start, log).items)
  {
    hide Step, RunFrom;
    RunAppend(Idle, before, log);
    DeliveredAppend(Run(before).items, RunFrom(Run(before).hold, log).items);
  }

  /** What one call that reaches the source says, from what it consumed and put out. */
  lemma CallSays(hold: Hold, answers: seq<Answer>, before: seq<Answer>)
    requires hold.Valid() && Run(before).hold == hold
    ensures var log := PollLog(hold, answers);
            var polled, out, held := PollResult(hold, answers), Fresh(hold, answers), RunFrom(hold, log).hold;
            && Run(before + log).hold == held && Last(before + log) == Last(log)
            && (polled.SourceError? <==> Last(log).Failed?)
            && (polled.Nothing? ==> out == [] && (Last(log).Empty? || Last(log) == Ready(ESCAPE)))
            && Failures(before + log) == Failures(before) + (if polled.SourceError? then 1 else 0)
            && |PollRest(hold, answers)| + |out| + |held.Held()| <= |answers| + |hold.Held()|
            && Poll(Feed([], hold, answers)) == (polled, Feed(if polled.Got? then out[1..] else out, held, PollRest(hold, answers)))
  {
    hide Run, Step, Stops, RunFrom, PollLog, PollRest, Failures, Delivered;
    CallAdds(before, PollLog(hold, answers));
    PollMass(hold, answers);
    EmptyHandedEarly(hold, answers);
    FailureIsLast(hold, answers);
    FailuresAppend(before, PollLog(hold, answers));
  }

  /** A call that starts with nothing withheld. */
  lemma FromIdle(script: seq<Answer>)
    ensures var answer := Head(script);
            if answer == Ready(ESCAPE) then
              && RunFrom(Idle, [answer]) == Scan([], Candidate([ESCAPE], [])) && Delivered([]) == []
              && PollLog(Idle, script) == [answer] + PollLog(Candidate([ESCAPE], []), Tail(script))
              && PollRest(Idle, script) == PollRest(Candidate([ESCAPE], []), Tail(script))
              && Fresh(Idle, script) == Fresh(Candidate([ESCAPE], []), Tail(script))
            else
              && PollLog(Idle, script) == [answer] && PollRest(Idle, script) == Tail(script)
              && RunFrom(Idle, [answer]).hold == Idle
              && Fresh(Idle, script) == (if answer.Ready? then [answer.event] else [])
  {
    hide Classify;
    var answer := Head(script);
    RunOne(Idle, answer);
    if answer == Ready(ESCAPE) {
      var rest := PollLog(Candidate([ESCAPE], []), Tail(script));
      RunCons(Idle, [answer] + rest);
      assert ([answer] + rest)[1..] == rest;
      NothingFirst(RunFrom(Candidate([ESCAPE], []), rest).items);
    }
  }
}
