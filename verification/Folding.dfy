/**
Folding keeps the input. A history of turns of `EventPump.Next` (EventPump.dfy), each accounting
for the events it consumed, gives back the adapted input stream when every wheel result is
expanded to its notches and runs of passive motion are counted once.
*/
module Folding {
  import opened SgrMouse
  import opened TerminalScan
  import opened EventPump

  /** What is left of an input event when positions of merged ones are set aside. */
  datatype Kind = Notch(up: bool) | Motion | Whole(raw: Event)

  function KindsOf(event: RuntimeEvent): seq<Kind> {
    match event
    case WheelUp(_, _, notches) => seq(notches, _ => Notch(true))
    case WheelDown(_, _, notches) => seq(notches, _ => Notch(false))
    case Move(_, _) => [Motion]
    case Input(raw) => [Whole(raw)]
    case _ => []
  }

  function Kinds(events: seq<RuntimeEvent>): seq<Kind> {
    if events == [] then [] else KindsOf(events[0]) + Kinds(events[1..])
  }

  /** Appends kinds to a stream in which a run of motion counts once. */
  function Squash(stream: seq<Kind>, kinds: seq<Kind>): seq<Kind>
    decreases |kinds|
  {
    if kinds == [] then stream
    else if kinds[0] == Motion && stream != [] && stream[|stream| - 1] == Motion then Squash(stream, kinds[1..])
    else Squash(stream + [kinds[0]], kinds[1..])
  }

  /** What a history gave to the runtime, and what it dropped, in order. */
  function Given(turns: seq<Turn>): seq<RuntimeEvent> {
    if turns == [] then []
    else
      var turn := turns[|turns| - 1];
      Given(turns[..|turns| - 1]) + (if turn.result.Ok? then [turn.result.event] else ToSeq(turn.dropped))
  }

  /** The results alone. */
  function Results(turns: seq<Turn>): seq<RuntimeEvent> {
    if turns == [] then []
    else
      var turn := turns[|turns| - 1];
      Results(turns[..|turns| - 1]) + (if turn.result.Ok? then [turn.result.event] else [])
  }

  lemma Concat3<T>(a: seq<T>, b: seq<T>, c: seq<T>)
    ensures a + (b + c) == (a + b) + c
  {
  }

  lemma {:induction false} KindsAppend(a: seq<RuntimeEvent>, b: seq<RuntimeEvent>)
    ensures Kinds(a + b) == Kinds(a) + Kinds(b)
  {
    hide KindsOf;
    if a == [] {
      assert a + b == b;
    } else {
      KindsAppend(a[1..], b);
      assert (a + b)[0] == a[0] && (a + b)[1..] == a[1..] + b;
      Concat3(KindsOf(a[0]), Kinds(a[1..]), Kinds(b));
    }
  }

  lemma {:induction false} SquashAppend(stream: seq<Kind>, a: seq<Kind>, b: seq<Kind>)
    ensures Squash(stream, a + b) == Squash(Squash(stream, a), b)
    decreases |a|
  {
    if a == [] {
      assert a + b == b;
    } else {
      assert (a + b)[1..] == a[1..] + b;
      if a[0] == Motion && stream != [] && stream[|stream| - 1] == Motion {
        SquashAppend(stream, a[1..], b);
      } else {
        SquashAppend(stream + [a[0]], a[1..], b);
      }
    }
  }

  lemma {:induction false} AdaptedAppend(a: seq<Event>, b: seq<Event>)
    ensures Adapted(a + b) == Adapted(a) + Adapted(b)
  {
    hide Adapted, Adapt, ToSeq;
    NothingAdapted(a);
    if b == [] {
      assert a + b == a;
      assert Adapted(a) + [] == Adapted(a);
    } else {
      var init, last := b[..|b| - 1], b[|b| - 1];
      AdaptedAppend(a, init);
      AdaptedSnoc(init, last);
      AdaptedSnoc(a + init, last);
      assert b == init + [last] && a + b == (a + init) + [last];
      Concat3(Adapted(a), Adapted(init), ToSeq(Adapt(last)));
    }
  }

  /** A run of wheel events of one direction is that many notches. */
  lemma {:induction false} WheelKinds(input: seq<RuntimeEvent>, up: bool)
    requires forall i :: 0 <= i < |input| ==>
               if up then input[i].WheelUp? && input[i].notches == 1 else input[i].WheelDown? && input[i].notches == 1
    ensures Kinds(input) == seq(|input|, _ => Notch(up))
  {
    if input != [] {
      WheelKinds(input[1..], up);
      assert KindsOf(input[0]) == [Notch(up)];
    }
  }

  lemma {:induction false} MotionKinds(stream: seq<Kind>, input: seq<RuntimeEvent>)
    requires stream != [] && stream[|stream| - 1] == Motion
    requires forall i :: 0 <= i < |input| ==> input[i].Move?
    ensures Squash(stream, Kinds(input)) == stream
  {
    if input != [] {
      MotionKinds(stream, input[1..]);
      assert Kinds(input) == [Motion] + Kinds(input[1..]);
      assert Kinds(input)[1..] == Kinds(input[1..]);
    }
  }

  lemma OneKind(event: RuntimeEvent)
    ensures Kinds([event]) == KindsOf(event)
  {
    assert [event][1..] == [];
    assert KindsOf(event) + [] == KindsOf(event);
  }

  lemma StandsKeepsKinds(stream: seq<Kind>, event: RuntimeEvent, input: seq<RuntimeEvent>)
    requires Stands(event, input)
    ensures Squash(stream, KindsOf(event)) == Squash(stream, Kinds(input))
  {
    match event
    case WheelUp(_, _, _) => WheelKinds(input, true);
    case WheelDown(_, _, _) => WheelKinds(input, false);
    case Move(_, _) =>
      var rest := input[1..];
      assert Kinds(input) == [Motion] + Kinds(rest);
      SquashAppend(stream, [Motion], Kinds(rest));
      MotionKinds(Squash(stream, [Motion]), rest);
    case Input(_) => OneKind(event);
    case _ =>
  }

  /**
  Over any history, with source errors anywhere: the results, with a dropped burst in the place
  of the error that dropped it, expand to exactly the adapted input that was taken.
  */
  lemma {:induction false} FoldingConserves(turns: seq<Turn>)
    requires forall turn :: turn in turns ==> turn.Accounted()
    ensures Squash([], Kinds(Given(turns))) == Squash([], Kinds(Adapted(Consumed(turns))))
  {
    hide Adapted, Kinds, Squash, Stands;
    if turns == [] {
      EmptyHistory();
    } else {
      var init, turn := turns[..|turns| - 1], turns[|turns| - 1];
      FoldingConserves(init);
      assert turn in turns;
      var gave := if turn.result.Ok? then [turn.result.event] else ToSeq(turn.dropped);
      AdaptedAppend(Consumed(init), turn.consumed);
      KindsAppend(Adapted(Consumed(init)), Adapted(turn.consumed));
      KindsAppend(Given(init), gave);
      var stream := Squash([], Kinds(Given(init)));
      SquashAppend([], Kinds(Given(init)), Kinds(gave));
      SquashAppend([], Kinds(Adapted(Consumed(init))), Kinds(Adapted(turn.consumed)));
      if gave == [] {
        assert Adapted(turn.consumed) == [];
      } else {
        OneKind(gave[0]);
        StandsKeepsKinds(stream, gave[0], Adapted(turn.consumed));
        assert gave == [gave[0]];
      }
    }
  }

  lemma EmptyHistory()
    ensures Squash([], Kinds(Given([]))) == Squash([], Kinds(Adapted(Consumed([]))))
  {
  }

  /** Turns that dropped nothing conserve the input by their results alone. */
  lemma UndroppedFoldingConserves(turns: seq<Turn>)
    requires forall turn :: turn in turns ==> turn.Accounted() && turn.dropped.None?
    ensures Squash([], Kinds(Results(turns))) == Squash([], Kinds(Adapted(Consumed(turns))))
  {
    FoldingConserves(turns);
    ResultsAreGiven(turns);
  }

  lemma {:induction false} ResultsAreGiven(turns: seq<Turn>)
    requires forall turn :: turn in turns ==> turn.dropped.None?
    ensures Results(turns) == Given(turns)
  {
    if turns != [] {
      ResultsAreGiven(turns[..|turns| - 1]);
    }
  }

  /** Wheel notches in a stretch of events. */
  function Notches(events: seq<RuntimeEvent>): nat {
    if events == [] then 0
    else
      var last := events[|events| - 1];
      Notches(events[..|events| - 1]) + (if last.WheelUp? || last.WheelDown? then last.notches else 0)
  }

  function Dropped(turns: seq<Turn>): seq<RuntimeEvent> {
    if turns == [] then []
    else Dropped(turns[..|turns| - 1]) + ToSeq(turns[|turns| - 1].dropped)
  }

  lemma NotchesSnoc(events: seq<RuntimeEvent>, event: RuntimeEvent)
    ensures Notches(events + [event]) == Notches(events) + (if event.WheelUp? || event.WheelDown? then event.notches else 0)
  {
    assert (events + [event])[..|events|] == events;
  }

  lemma {:induction false} NotchesAppend(a: seq<RuntimeEvent>, b: seq<RuntimeEvent>)
    ensures Notches(a + b) == Notches(a) + Notches(b)
  {
    if b == [] {
      assert a + b == a;
    } else {
      var init, last := b[..|b| - 1], b[|b| - 1];
      NotchesAppend(a, init);
      assert a + b == (a + init) + [last];
      NotchesSnoc(a + init, last);
    }
  }

  lemma {:induction false} NotchesCounted(input: seq<RuntimeEvent>, each: nat)
    requires each == 0 || each == 1
    requires forall i :: 0 <= i < |input| ==>
               if each == 1 then (input[i].WheelUp? || input[i].WheelDown?) && input[i].notches == 1
               else !input[i].WheelUp? && !input[i].WheelDown?
    ensures Notches(input) == each * |input|
  {
    if input != [] {
      NotchesCounted(input[..|input| - 1], each);
    }
  }

  lemma StandsKeepsNotches(event: RuntimeEvent, input: seq<RuntimeEvent>)
    requires Stands(event, input)
    ensures Notches([event]) == Notches(input)
  {
    assert [event] == [] + [event];
    NotchesSnoc([], event);
    NotchesCounted(input, if event.WheelUp? || event.WheelDown? then 1 else 0);
  }

  /**
  What errors cost, to the notch: the wheel input taken is the notches delivered plus those of
  the bursts that errors dropped, so results alone conserve it if and only if no burst was lost.
  */
  lemma {:induction false} ExactlyDroppedNotchesAreLost(turns: seq<Turn>)
    requires forall turn :: turn in turns ==> turn.Accounted()
    ensures Notches(Results(turns)) + Notches(Dropped(turns)) == Notches(Adapted(Consumed(turns)))
  {
    hide Adapted, Notches, Stands;
    if turns == [] {
      NoNotches();
    } else {
      var init, turn := turns[..|turns| - 1], turns[|turns| - 1];
      ExactlyDroppedNotchesAreLost(init);
      assert turn in turns;
      AdaptedAppend(Consumed(init), turn.consumed);
      NotchesAppend(Adapted(Consumed(init)), Adapted(turn.consumed));
      NotchesAppend(Dropped(init), ToSeq(turn.dropped));
      NotchesAppend(Results(init), if turn.result.Ok? then [turn.result.event] else []);
      NoNotches();
      if turn.result.Ok? {
        StandsKeepsNotches(turn.result.event, Adapted(turn.consumed));
      } else if turn.dropped.Some? {
        StandsKeepsNotches(turn.dropped.value, Adapted(turn.consumed));
      }
    }
  }

  lemma NoNotches()
    ensures Notches([]) == 0 && Adapted([]) == []
  {
  }

  // ---------------------------------------------------------------- errors

  lemma {:induction false} NoFailures(log: seq<Answer>)
    requires Failed !in log
    ensures Failures(log) == 0
  {
    if log != [] {
      NoFailures(log[..|log| - 1]);
    }
  }

  lemma {:induction false} NoErrors(turns: seq<Turn>)
    requires Errors(turns) == 0 && forall turn :: turn in turns ==> turn.Accounted()
    ensures forall turn :: turn in turns ==> turn.dropped.None?
  {
    hide Stands, Adapted;
    if turns != [] {
      NoErrors(turns[..|turns| - 1]);
      assert turns[|turns| - 1] in turns;
      assert turns == turns[..|turns| - 1] + [turns[|turns| - 1]];
    }
  }

  /**
  As long as no poll of the source failed, the results of any pump, with every wheel result
  expanded to its notches and runs of motion counted once, are the adapted input in order.
  */
  lemma ErrorFreeFoldingConserves(pump: EventPump)
    requires pump.Valid() && pump.Settled() && Failed !in pump.source.log
    ensures Squash([], Kinds(Results(pump.turns))) == Squash([], Kinds(Adapted(pump.taken)))
  {
    hide Run, Adapted, Kinds, Squash, Turn.Accounted;
    NoFailures(pump.source.log);
    NoErrors(pump.turns);
    UndroppedFoldingConserves(pump.turns);
  }

  /** What lies ahead after this many polls, and what the next one gives. */
  ghost function FeedAt(feed: Feed, k: nat): (later: Feed)
    requires feed.Valid()
    ensures later.Valid()
    decreases k
  {
    if k == 0 then feed else FeedAt(Poll(feed).1, k - 1)
  }

  ghost function PollAt(feed: Feed, k: nat): Polled
    requires feed.Valid()
  {
    Poll(FeedAt(feed, k)).0
  }

  /** The poll with this number fails, and all before it go into the fold. */
  ghost predicate FailsAt(event: RuntimeEvent, feed: Feed, j: nat)
    requires feed.Valid()
  {
    PollAt(feed, j).SourceError? && forall k :: 0 <= k < j ==> Absorbed(event, PollAt(feed, k))
  }

  lemma FailsLater(event: RuntimeEvent, feed: Feed, j: nat)
    requires feed.Valid() && j > 0
    ensures FailsAt(event, feed, j) <==> Absorbed(event, Poll(feed).0) && FailsAt(event, Poll(feed).1, j - 1)
  {
    hide Poll, Absorbed;
    var next := Poll(feed).1;
    assert PollAt(feed, 0) == Poll(feed).0;
    assert forall k :: 0 <= k < j ==> FeedAt(feed, k + 1) == FeedAt(next, k);
    assert forall k :: 0 <= k < j ==> PollAt(feed, k + 1) == PollAt(next, k);
    if FailsAt(event, feed, j) {
      assert Absorbed(event, PollAt(feed, 0));
      forall k | 0 <= k < j - 1
        ensures Absorbed(event, PollAt(next, k))
      {
        assert Absorbed(event, PollAt(feed, k + 1));
      }
    }
    if Absorbed(event, Poll(feed).0) && FailsAt(event, next, j - 1) {
      forall k | 0 <= k < j
        ensures Absorbed(event, PollAt(feed, k))
      {
        if k > 0 {
          assert Absorbed(event, PollAt(next, k - 1));
        }
      }
    }
  }

  /**
  A fold drops its burst if and only if one of the polls it may still make fails and each poll
  before that gives an ignored event or one more of its kind.
  */
  lemma {:induction false} DroppedExactlyWhenFolding(event: RuntimeEvent, feed: Feed, left: nat)
    requires feed.Valid()
    ensures FoldFails(event, feed, left) <==> exists j: nat :: j < left && FailsAt(event, feed, j)
    decreases left
  {
    hide Poll, Absorbed, FailsAt;
    if left > 0 {
      var next := Poll(feed);
      DroppedExactlyWhenFolding(event, next.1, left - 1);
      FailsNow(event, feed);
      FoldStep(event, feed, left);
      if j: nat :| j < left && FailsAt(event, feed, j) && j > 0 {
        FailsLater(event, feed, j);
      }
      if j: nat :| j < left - 1 && FailsAt(event, next.1, j) {
        FailsLater(event, feed, j + 1);
      }
    }
  }

  lemma FailsNow(event: RuntimeEvent, feed: Feed)
    requires feed.Valid()
    ensures FailsAt(event, feed, 0) <==> Poll(feed).0.SourceError?
  {
  }

  /** The event that begins a turn is what the first poll gives that is not an ignored event. */
  lemma {:induction false} FirstEventIsFirst(feed: Feed) returns (k: nat)
    requires feed.Valid()
    ensures FirstEvent(feed) == (PollAt(feed, k), FeedAt(feed, k + 1))
    ensures forall i :: 0 <= i < k ==> PollAt(feed, i).Got? && Adapt(PollAt(feed, i).event).None?
    ensures PollAt(feed, k).Got? ==> Adapt(PollAt(feed, k).event).Some?
    decreases feed.Weight()
  {
    hide Poll, Adapt;
    var next := Poll(feed);
    assert PollAt(feed, 0) == next.0 && FeedAt(feed, 1) == FeedAt(next.1, 0);
    FirstEventStep(feed);
    if next.0.Got? && Adapt(next.0.event).None? {
      PollShrinks(feed);
      var later := FirstEventIsFirst(next.1);
      k := later + 1;
      assert forall i :: 0 <= i <= k ==> FeedAt(feed, i + 1) == FeedAt(next.1, i);
      assert forall i :: 0 <= i <= later ==> PollAt(feed, i + 1) == PollAt(next.1, i);
      forall i | 0 <= i < k
        ensures PollAt(feed, i).Got? && Adapt(PollAt(feed, i).event).None?
      {
        if i > 0 {
          assert PollAt(feed, i) == PollAt(next.1, i - 1);
        }
      }
    } else {
      k := 0;
    }
  }

  /** Without an Escape ahead, a poll is one answer of the script. */
  lemma PlainPoll(answers: seq<Answer>)
    requires Head(answers) != Ready(ESCAPE)
    ensures Poll(Feed([], Idle, answers))
            == (match Head(answers) case Ready(event) => Got(event) case Empty => Nothing case Failed => SourceError,
                Feed([], Idle, Tail(answers)))
  {
    FromIdle(answers);
  }

  lemma {:induction false} PlainFeed(answers: seq<Answer>, k: nat)
    requires Ready(ESCAPE) !in answers && k <= |answers|
    ensures FeedAt(Feed([], Idle, answers), k) == Feed([], Idle, answers[k..])
  {
    hide Poll;
    if k > 0 {
      PlainPoll(answers);
      PlainFeed(answers[1..], k - 1);
      assert answers[1..][k - 1..] == answers[k..];
    } else {
      assert answers[0..] == answers;
    }
  }

  lemma PlainPollAt(answers: seq<Answer>, k: nat)
    requires Ready(ESCAPE) !in answers && k <= |answers|
    ensures PollAt(Feed([], Idle, answers), k) == PolledOf(Head(answers[k..]))
  {
    hide Poll;
    PlainFeed(answers, k);
    PlainPoll(answers[k..]);
  }

  /** A burst on such a script: which answer ends it by failing. */
  lemma LostBurstOfScript(event: RuntimeEvent, answers: seq<Answer>, j: nat)
    requires Ready(ESCAPE) !in answers
    ensures FailsAt(event, Feed([], Idle, answers), j) <==>
              && j < |answers| && answers[j].Failed?
              && forall k :: 0 <= k < j ==> answers[k].Ready? && Absorbed(event, Got(answers[k].event))
  {
    hide PollAt, Absorbed;
    var feed := Feed([], Idle, answers);
    OnlyGotIsAbsorbed(event);
    forall k | 0 <= k <= j && k < |answers|
      ensures PollAt(feed, k) == PolledOf(answers[k])
    {
      PlainPollAt(answers, k);
    }
    if j >= |answers| {
      PlainPollAt(answers, |answers|);
      assert PollAt(feed, |answers|) == Nothing;
    }
  }

  /** Answer `i` begins a burst, which absorbs what follows until answer `j` fails. */
  ghost predicate LostAt(answers: seq<Answer>, i: nat, j: nat) {
    && i < j < |answers| && j - i < WHEEL_COALESCE_LIMIT && answers[j].Failed?
    && (forall k :: 0 <= k < i ==> answers[k].Ready? && Adapt(answers[k].event).None?)
    && answers[i].Ready? && Scrolls(answers[i].event)
    && (forall k :: i < k < j ==> answers[k].Ready? && Absorbed(Adapt(answers[i].event).value, Got(answers[k].event)))
  }

  /** The event that begins a turn on such a script. */
  lemma FirstOfScript(answers: seq<Answer>) returns (i: nat)
    requires Ready(ESCAPE) !in answers
    ensures i <= |answers| && forall k :: 0 <= k < i ==> answers[k].Ready? && Adapt(answers[k].event).None?
    ensures FirstEvent(Feed([], Idle, answers)) == (PolledOf(Head(answers[i..])), Feed([], Idle, Tail(answers[i..])))
    ensures i < |answers| && answers[i].Ready? ==> Adapt(answers[i].event).Some?
    decreases |answers|
  {
    hide Poll, FirstEvent, Adapt;
    PlainPoll(answers);
    FirstEventStep(Feed([], Idle, answers));
    assert answers[0..] == answers;
    if answers != [] && answers[0].Ready? && Adapt(answers[0].event).None? {
      var later := FirstOfScript(answers[1..]);
      i := later + 1;
      assert answers[i..] == answers[1..][later..];
      assert forall k :: 0 < k < i ==> answers[k] == answers[1..][k - 1];
    } else {
      i := 0;
    }
  }

  /**
  When a turn loses its burst, read off the script before the call: with no Escape in it and
  nothing held, exactly when it begins with ignored events, then motion or a wheel notch, then at
  most thirty more ignored events and events of that kind, and then a failing answer.
  */
  lemma BurstIsLostIff(answers: seq<Answer>)
    requires Ready(ESCAPE) !in answers
    ensures LosesBurst(FirstEvent(Feed([], Idle, answers))) <==> exists i: nat, j: nat :: LostAt(answers, i, j)
  {
    hide Poll, FirstEvent, FoldFails, FoldAll, FailsAt, Absorbed, Adapt;
    var i := FirstOfScript(answers);
    if i < |answers| && answers[i].Ready? && Scrolls(answers[i].event) {
      var event, rest := Adapt(answers[i].event).value, answers[i + 1..];
      assert Tail(answers[i..]) == rest && Head(answers[i..]) == answers[i];
      DroppedExactlyWhenFolding(event, Feed([], Idle, rest), WHEEL_COALESCE_LIMIT - 1);
      if j: nat :| j < WHEEL_COALESCE_LIMIT - 1 && FailsAt(event, Feed([], Idle, rest), j) {
        LostBurstOfScript(event, rest, j);
        LostFromRest(answers, i, j);
      }
      if a: nat, b: nat :| LostAt(answers, a, b) {
        SameFirst(answers, i, a, b);
        LostToRest(answers, i, b);
        LostBurstOfScript(event, rest, b - i - 1);
      }
    } else if a: nat, b: nat :| LostAt(answers, a, b) {
      SameFirst(answers, i, a, b);
    }
  }

  /** The shortest such script: one notch, and then a failing poll. */
  lemma LostNotch(mouse: MouseEvent)
    requires mouse.kind.ScrollUp?
    ensures LosesBurst(FirstEvent(Feed([], Idle, [Ready(Mouse(mouse)), Failed])))
  {
    hide FirstEvent, LosesBurst;
    var answers := [Ready(Mouse(mouse)), Failed];
    BurstIsLostIff(answers);
    assert LostAt(answers, 0, 1);
  }

  lemma SameFirst(answers: seq<Answer>, i: nat, a: nat, b: nat)
    requires LostAt(answers, a, b) && i <= |answers|
    requires forall k :: 0 <= k < i ==> answers[k].Ready? && Adapt(answers[k].event).None?
    requires i < |answers| && answers[i].Ready? ==> Adapt(answers[i].event).Some?
    ensures a == i
  {
    hide Absorbed;
  }

  lemma LostFromRest(answers: seq<Answer>, i: nat, j: nat)
    requires i < |answers| && answers[i].Ready? && Scrolls(answers[i].event) && j < WHEEL_COALESCE_LIMIT - 1
    requires forall k :: 0 <= k < i ==> answers[k].Ready? && Adapt(answers[k].event).None?
    requires var rest := answers[i + 1..];
             && j < |rest| && rest[j].Failed?
             && forall k :: 0 <= k < j ==> rest[k].Ready? && Absorbed(Adapt(answers[i].event).value, Got(rest[k].event))
    ensures LostAt(answers, i, i + 1 + j)
  {
    hide Absorbed, Adapt;
    var rest := answers[i + 1..];
    assert forall k :: i < k < i + 1 + j ==> answers[k] == rest[k - i - 1];
  }

  lemma LostToRest(answers: seq<Answer>, i: nat, b: nat)
    requires LostAt(answers, i, b)
    ensures var rest, j := answers[i + 1..], b - i - 1;
            && 0 <= j < |rest| && j < WHEEL_COALESCE_LIMIT - 1 && rest[j].Failed?
            && forall k :: 0 <= k < j ==> rest[k].Ready? && Absorbed(Adapt(answers[i].event).value, Got(rest[k].event))
  {
    hide Absorbed, Adapt;
    var rest := answers[i + 1..];
    assert forall k :: 0 <= k < |rest| ==> rest[k] == answers[k + i + 1];
  }

  // ---------------------------------------------------------------- a whole burst

  function Readies(mice: seq<MouseEvent>): (answers: seq<Answer>)
    ensures |answers| == |mice| && forall i :: 0 <= i < |mice| ==> answers[i] == Ready(Mouse(mice[i]))
  {
    seq(|mice|, i requires 0 <= i < |mice| => Ready(Mouse(mice[i])))
  }

  /** What a burst of this many events is to the runtime: one event at the cell of the last. */
  function BurstAs(kind: MouseKind, last: MouseEvent, count: nat): RuntimeEvent {
    match kind
    case ScrollUp => WheelUp(last.column, last.row, count)
    case ScrollDown => WheelDown(last.column, last.row, count)
    case _ => Move(last.column, last.row)
  }

  predicate Scrolling(kind: MouseKind) {
    kind.ScrollUp? || kind.ScrollDown? || kind.Moved?
  }

  /** This answer ends a burst: nothing is ready, or an event that means something else. */
  predicate Interrupts(kind: MouseKind, answer: Answer) {
    match answer
    case Empty => true
    case Failed => false
    case Ready(event) =>
      match event
      case Key(_, _, _, _) => event != ESCAPE
      case Paste(_) => true
      case Resize(_, _) => true
      case Mouse(mouse) => mouse.kind != kind && (Scrolling(mouse.kind) || LeftButton(mouse.kind))
      case _ => false
  }

  lemma InterruptionEndsFold(kind: MouseKind, last: MouseEvent, count: nat, answers: seq<Answer>, left: nat)
    requires Scrolling(kind) && Interrupts(kind, Head(answers))
    ensures FoldAll(BurstAs(kind, last, count), Feed([], Idle, answers), left).0 == Ok(BurstAs(kind, last, count))
  {
    hide Poll, Adapt, SameFold;
    var event := BurstAs(kind, last, count);
    FoldAllStep(event, Feed([], Idle, answers), left);
    PlainPoll(answers);
    if left > 0 && Head(answers).Ready? {
      InterruptsIsOther(kind, last, count, Head(answers).event);
    }
  }

  lemma InterruptsIsOther(kind: MouseKind, last: MouseEvent, count: nat, event: Event)
    requires Scrolling(kind) && Interrupts(kind, Ready(event))
    ensures Adapt(event).Some? && !SameFold(BurstAs(kind, last, count), Adapt(event).value)
  {
  }

  lemma {:induction false} FoldTakesBurst(kind: MouseKind, last: MouseEvent, count: nat, more: seq<MouseEvent>, rest: seq<Answer>, left: nat)
    requires Scrolling(kind) && (forall i :: 0 <= i < |more| ==> more[i].kind == kind)
    requires |more| <= left && (|more| == left || Interrupts(kind, Head(rest)))
    ensures FoldAll(BurstAs(kind, last, count), Feed([], Idle, Readies(more) + rest), left).0
            == Ok(BurstAs(kind, if more == [] then last else more[|more| - 1], count + |more|))
    decreases left
  {
    hide Poll, Adapt, SameFold, Fold, FoldAll;
    var event, answers := BurstAs(kind, last, count), Readies(more) + rest;
    FoldAllStep(event, Feed([], Idle, answers), left);
    if more == [] {
      assert answers == rest;
      if left > 0 {
        InterruptionEndsFold(kind, last, count, rest, left);
      }
    } else {
      assert answers[0] == Ready(Mouse(more[0])) && answers[1..] == Readies(more[1..]) + rest;
      PlainPoll(answers);
      FoldsWhatContinues(event, Mouse(more[0]));
      FoldTakesBurst(kind, more[0], count + 1, more[1..], rest, left - 1);
    }
  }

  /**
  A burst is one event. A wheel notch or a motion event, followed by up to thirty-one more of its
  kind at any cells, comes out of one turn as one event at the cell of the last, with one notch
  for each; a longer burst is cut behind the thirty-second.
  */
  lemma BurstIsOneEvent(first: MouseEvent, more: seq<MouseEvent>, rest: seq<Answer>, backend: seq<nat>, waits: bool)
    requires Scrolling(first.kind) && (forall i :: 0 <= i < |more| ==> more[i].kind == first.kind)
    requires |more| <= 31 && (|more| == 31 || Interrupts(first.kind, Head(rest)))
    ensures TurnOf(Feed([], Idle, [Ready(Mouse(first))] + (Readies(more) + rest)), backend, waits)
            == Ok(BurstAs(first.kind, if more == [] then first else more[|more| - 1], 1 + |more|))
  {
    hide Poll, FoldAll, FirstEvent;
    var answers := [Ready(Mouse(first))] + (Readies(more) + rest);
    assert answers[0] == Ready(Mouse(first)) && answers[1..] == Readies(more) + rest;
    PlainPoll(answers);
    FirstEventStep(Feed([], Idle, answers));
    FoldTakesBurst(first.kind, first, 1, more, rest, 31);
  }

  lemma OnlyGotIsAbsorbed(event: RuntimeEvent)
    ensures !Absorbed(event, Nothing) && !Absorbed(event, SourceError)
  {
  }

  /**
  End to end, between any two calls of any pump: the events read are those the scanner handed on,
  queued or withholds, with every report in place of what spelled it; and the events handed on
  are, to the runtime, exactly what the results and the dropped bursts stand for.
  */
  lemma PipelineConserves(pump: EventPump)
    requires pump.Valid() && pump.Settled()
    ensures var items := Run(pump.source.log).items;
            && Sources(items) + pump.Withheld().Held() == Reads(pump.source.log)
            && Delivered(items) == pump.taken + pump.pendingTerminal
            && Squash([], Kinds(Given(pump.turns))) == Squash([], Kinds(Adapted(pump.taken)))
            && Notches(Results(pump.turns)) + Notches(Dropped(pump.turns)) == Notches(Adapted(pump.taken))
  {
    hide Run, Adapted, Kinds, Squash, Notches, Turn.Accounted;
    pump.InputIsConserved();
    FoldingConserves(pump.turns);
    ExactlyDroppedNotchesAreLost(pump.turns);
  }
}
