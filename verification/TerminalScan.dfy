/**
What the terminal half of `EventPump` (src/tui_input.rs) means, as a machine that reads one
answer of the event source at a time.

An answer is what one poll-and-read of the source gives: an event, nothing yet, or an error. The
machine holds at most an Escape and the characters that may spell the tail of a split mouse
report. `EventPump` (EventPump.dfy) is proved to follow this machine; here the machine is proved
to lose, repeat and reorder nothing, to recover exactly the reports that stand in the raw
stream, and to do so whatever the timing of the polls.
*/
module TerminalScan {
  import opened Wrappers
  import opened SgrMouse

  datatype KeyCode = Esc | Char(c: char) | OtherKey(id: nat)

  datatype KeyKind = Press | Repeat | Release

  /** A crossterm event; `state` is the key event's flag set, which only equality looks at. */
  datatype Event =
    | Key(code: KeyCode, modifiers: set<Modifier>, kind: KeyKind, state: nat)
    | Mouse(mouse: MouseEvent)
    | Paste(text: string)
    | Resize(width: nat, height: nat)
    | FocusGained
    | FocusLost

  /** The plain press that opens a candidate. An Escape with a modifier or another kind does not. */
  const ESCAPE := Key(Esc, {}, Press, 0)

  /** One poll-and-read of the source. */
  datatype Answer = Ready(event: Event) | Empty | Failed

  /**
  The character an event can contribute to a report: a plain press, or an upper-case `M` that a
  legacy parser marked with Shift.
  */
  function TailChar(event: Event): Option<char> {
    if && event.Key? && event.code.Char? && event.kind == Press
       && (event.modifiers == {} || (event.code.c == 'M' && event.modifiers == {Shift}))
    then Some(event.code.c)
    else None
  }

  predicate AllTail(events: seq<Event>) {
    forall i :: 0 <= i < |events| ==> TailChar(events[i]).Some?
  }

  function Spell(tail: seq<Event>): string
    requires AllTail(tail)
  {
    seq(|tail|, i requires 0 <= i < |tail| => TailChar(tail[i]).value)
  }

  lemma SpellSnoc(tail: seq<Event>, event: Event)
    requires AllTail(tail) && TailChar(event).Some?
    ensures AllTail(tail + [event]) && Spell(tail + [event]) == Spell(tail) + [TailChar(event).value]
  {
  }

  /** What leaves the machine: an event as read, or a report in place of the events that spelled it. */
  datatype Item = Raw(event: Event) | Recovered(mouse: MouseEvent, escape: seq<Event>, tail: seq<Event>) {

    function Delivered(): Event {
      match this
      case Raw(event) => event
      case Recovered(mouse, _, _) => Mouse(mouse)
    }

    function Source(): seq<Event> {
      match this
      case Raw(event) => [event]
      case Recovered(_, escape, tail) => escape + tail
    }

    /** A recovered report is spelled by what it replaces. */
    predicate Valid() {
      Recovered? ==> (escape == [ESCAPE] || escape == []) && AllTail(tail) && Classify(Spell(tail)) == Complete(mouse)
    }
  }

  function Raws(events: seq<Event>): seq<Item> {
    seq(|events|, i requires 0 <= i < |events| => Raw(events[i]))
  }

  function Delivered(items: seq<Item>): seq<Event> {
    seq(|items|, i requires 0 <= i < |items| => items[i].Delivered())
  }

  function Sources(items: seq<Item>): seq<Event> {
    if items == [] then [] else items[0].Source() + Sources(items[1..])
  }

  /**
  What is withheld: nothing, or an Escape (unless a quiet poll released it already) and the tail
  read after it.
  */
  datatype Hold = Idle | Candidate(escape: seq<Event>, tail: seq<Event>) {

    function Held(): seq<Event> {
      match this
      case Idle => []
      case Candidate(escape, tail) => escape + tail
    }

    predicate Valid() {
      Candidate? ==> (escape == [ESCAPE] || escape == []) && AllTail(tail)
    }

    /** Every cut of the tail was worth waiting for. */
    ghost predicate Waiting()
      requires Valid()
    {
      Candidate? ==> forall k :: 1 <= k <= |tail| ==> Classify(Spell(tail[..k])) == Unfinished
    }
  }

  datatype Scan = Scan(items: seq<Item>, hold: Hold)

  /** One answer, as the source's loop treats it. */
  function Step(hold: Hold, answer: Answer): (next: Scan)
    requires hold.Valid()
    ensures next.hold.Valid()
  {
    match answer
    case Failed => Scan(Raws(hold.Held()), Idle)
    case Empty =>
      // Only a lone Escape is released; a begun tail is kept for as long as it takes.
      if hold.Candidate? && hold.tail == [] then Scan(Raws(hold.escape), Candidate([], []))
      else Scan([], hold)
    case Ready(event) =>
      if hold.Idle? then
        if event == ESCAPE then Scan([], Candidate([ESCAPE], [])) else Scan([Raw(event)], Idle)
      else if event == ESCAPE then
        Scan(Raws(hold.Held()), Candidate([ESCAPE], []))
      else if TailChar(event).None? then
        Scan(Raws(hold.Held() + [event]), Idle)
      else
        match Classify(Spell(hold.tail + [event]))
        case Complete(mouse) => Scan([Recovered(mouse, hold.escape, hold.tail + [event])], Idle)
        case Unfinished => Scan([], Candidate(hold.escape, hold.tail + [event]))
        case Rejected => Scan(Raws(hold.Held() + [event]), Idle)
  }

  /** The machine over a whole log of answers. */
  function RunFrom(hold: Hold, log: seq<Answer>): (scan: Scan)
    requires hold.Valid()
    ensures scan.hold.Valid()
    decreases |log|
  {
    if log == [] then Scan([], hold)
    else
      var first := Step(hold, log[0]);
      var rest := RunFrom(first.hold, log[1..]);
      Scan(first.items + rest.items, rest.hold)
  }

  function Run(log: seq<Answer>): (scan: Scan)
    ensures scan.hold.Valid()
  {
    RunFrom(Idle, log)
  }

  function Reads(log: seq<Answer>): seq<Event> {
    if log == [] then []
    else (if log[0].Ready? then [log[0].event] else []) + Reads(log[1..])
  }

  lemma {:induction false} RunAppend(hold: Hold, log: seq<Answer>, more: seq<Answer>)
    requires hold.Valid()
    ensures var mid := RunFrom(hold, log);
            var end := RunFrom(mid.hold, more);
            RunFrom(hold, log + more) == Scan(mid.items + end.items, end.hold)
    decreases |log|
  {
    hide Step;
    if log == [] {
      assert log + more == more;
    } else {
      var first := Step(hold, log[0]);
      RunAppend(first.hold, log[1..], more);
      assert (log + more)[1..] == log[1..] + more;
      var rest := RunFrom(first.hold, log[1..]);
      var end := RunFrom(rest.hold, more);
      assert first.items + (rest.items + end.items) == (first.items + rest.items) + end.items;
    }
  }

  lemma NothingFirst(items: seq<Item>)
    ensures [] + items == items
  {
  }

  lemma RunCons(hold: Hold, log: seq<Answer>)
    requires hold.Valid() && log != []
    ensures var first := Step(hold, log[0]);
            var rest := RunFrom(first.hold, log[1..]);
            RunFrom(hold, log) == Scan(first.items + rest.items, rest.hold)
  {
    hide Step;
  }

  lemma RunOne(hold: Hold, answer: Answer)
    requires hold.Valid()
    ensures RunFrom(hold, [answer]) == Step(hold, answer)
  {
    hide Step;
    var first := Step(hold, answer);
    assert RunFrom(first.hold, [answer][1..]) == Scan([], first.hold);
    assert first.items + [] == first.items;
  }

  /** Every report the machine recovers is spelled by the events it replaced. */
  lemma {:induction false} ItemsAreValid(hold: Hold, log: seq<Answer>)
    requires hold.Valid()
    ensures forall item :: item in RunFrom(hold, log).items ==> item.Valid()
    decreases |log|
  {
    hide Classify;
    if log != [] {
      ItemsAreValid(Step(hold, log[0]).hold, log[1..]);
    }
  }

  lemma StepWaits(hold: Hold, answer: Answer)
    requires hold.Valid() && hold.Waiting()
    ensures Step(hold, answer).hold.Waiting()
  {
    hide Classify;
    var next := Step(hold, answer).hold;
    if next.Candidate? && |next.tail| > 0 && answer.Ready? {
      assert next.tail == hold.tail + [answer.event];
      forall k | 1 <= k <= |next.tail|
        ensures Classify(Spell(next.tail[..k])) == Unfinished
      {
        if k == |next.tail| {
          assert next.tail[..k] == next.tail;
        } else {
          assert next.tail[..k] == hold.tail[..k];
        }
      }
    }
  }

  /** What is withheld never grows past something that could still have become a report. */
  lemma {:induction false} RunWaits(hold: Hold, log: seq<Answer>)
    requires hold.Valid() && hold.Waiting()
    ensures RunFrom(hold, log).hold.Waiting()
    decreases |log|
  {
    hide Step;
    if log != [] {
      StepWaits(hold, log[0]);
      RunWaits(Step(hold, log[0]).hold, log[1..]);
    }
  }

  // ---------------------------------------------------------------- conservation

  lemma SourcesCons(item: Item, rest: seq<Item>)
    ensures Sources([item] + rest) == item.Source() + Sources(rest)
    ensures Sources([]) == []
  {
    hide Item.Source;
    assert ([item] + rest)[1..] == rest;
  }

  lemma {:induction false} SourcesAppend(a: seq<Item>, b: seq<Item>)
    ensures Sources(a + b) == Sources(a) + Sources(b)
  {
    hide Sources, Item.Source;
    if a == [] {
      SourcesCons(Raw(ESCAPE), []);
      assert a + b == b;
    } else {
      SourcesAppend(a[1..], b);
      SourcesCons(a[0], a[1..]);
      SourcesCons(a[0], a[1..] + b);
      assert a == [a[0]] + a[1..] && a + b == [a[0]] + (a[1..] + b);
    }
  }

  lemma {:induction false} SourcesOfRaws(events: seq<Event>)
    ensures Sources(Raws(events)) == events
  {
    if events != [] {
      SourcesOfRaws(events[1..]);
      assert Raws(events)[1..] == Raws(events[1..]);
      assert Sources(Raws(events)) == [events[0]] + events[1..];
    }
  }

  lemma SourcesOfOne(item: Item)
    ensures Sources([item]) == item.Source()
  {
    assert [item][1..] == [];
    assert item.Source() + [] == item.Source();
  }

  lemma ReadsOne(answer: Answer)
    ensures Reads([answer]) == if answer.Ready? then [answer.event] else []
  {
    assert [answer][1..] == [];
  }

  lemma ReadyConserves(hold: Hold, event: Event)
    requires hold.Valid()
    ensures var next := Step(hold, Ready(event));
            Sources(next.items) + next.hold.Held() == hold.Held() + [event]
  {
    hide Classify, Spell, Sources, AllTail, Raws;
    NoSources();
    if hold.Idle? {
      SourcesOfOne(Raw(event));
    } else if event == ESCAPE {
      SourcesOfRaws(hold.Held());
    } else {
      SourcesOfRaws(hold.Held() + [event]);
      if TailChar(event).Some? {
        CharacterConserves(hold.escape, hold.tail, event);
      }
    }
  }

  lemma NoSources()
    ensures Sources([]) == []
  {
  }

  lemma CharacterConserves(escape: seq<Event>, tail: seq<Event>, event: Event)
    requires Candidate(escape, tail).Valid() && TailChar(event).Some? && event != ESCAPE
    ensures var next := Step(Candidate(escape, tail), Ready(event));
            Sources(next.items) + next.hold.Held() == escape + tail + [event]
  {
    hide Classify, Spell, Sources, Raws;
    NoSources();
    var longer := tail + [event];
    SourcesOfRaws(escape + tail + [event]);
    assert escape + longer == escape + tail + [event];
    if Classify(Spell(longer)).Complete? {
      SourcesOfOne(Recovered(Classify(Spell(longer)).mouse, escape, longer));
    }
  }

  lemma StepConserves(hold: Hold, answer: Answer)
    requires hold.Valid()
    ensures var next := Step(hold, answer);
            Sources(next.items) + next.hold.Held() == hold.Held() + Reads([answer])
  {
    hide Classify, Spell, Sources, Reads;
    ReadsOne(answer);
    SourcesOfRaws(hold.Held());
    SourcesOfRaws([]);
    assert Raws([]) == [];
    match answer
    case Failed =>
    case Empty =>
      if hold.Candidate? {
        SourcesOfRaws(hold.escape);
      }
    case Ready(event) =>
      ReadyConserves(hold, event);
  }

  lemma Regroup<T>(out: seq<T>, later: seq<T>, end: seq<T>, mid: seq<T>, start: seq<T>, read: seq<T>, more: seq<T>)
    requires out + mid == start + read
    requires later + end == mid + more
    ensures (out + later) + end == start + (read + more)
  {
    calc {
      (out + later) + end;
      out + (later + end);
      out + (mid + more);
      (out + mid) + more;
      (start + read) + more;
      start + (read + more);
    }
  }

  /**
  No event is lost, repeated or reordered: what came out, each report standing for the events it
  replaced, followed by what is withheld, is what was read. For every run: ready, empty and
  failing polls in any order.
  */
  lemma {:induction false} Conservation(hold: Hold, log: seq<Answer>)
    requires hold.Valid()
    ensures var scan := RunFrom(hold, log);
            Sources(scan.items) + scan.hold.Held() == hold.Held() + Reads(log)
    decreases |log|
  {
    hide Step, Sources;
    if log == [] {
      SourcesOfRaws([]);
      assert Raws([]) == [];
    } else {
      var first := Step(hold, log[0]);
      var rest := RunFrom(first.hold, log[1..]);
      StepConserves(hold, log[0]);
      Conservation(first.hold, log[1..]);
      SourcesAppend(first.items, rest.items);
      ReadsOne(log[0]);
      Regroup(Sources(first.items), Sources(rest.items), rest.hold.Held(), first.hold.Held(),
              hold.Held(), Reads([log[0]]), Reads(log[1..]));
    }
  }

  /** A report whose Escape went out before it stands directly behind that Escape. */
  ghost predicate EscapesInPlace(items: seq<Item>) {
    forall i :: 0 <= i < |items| && items[i].Recovered? && items[i].escape == [] ==>
      i > 0 && items[i - 1] == Raw(ESCAPE)
  }

  lemma StepKeepsEscapesInPlace(before: seq<Item>, hold: Hold, answer: Answer)
    requires hold.Valid() && EscapesInPlace(before)
    requires hold.Candidate? && hold.escape == [] ==> before != [] && before[|before| - 1] == Raw(ESCAPE)
    ensures var next := Step(hold, answer);
            && EscapesInPlace(before + next.items)
            && (next.hold.Candidate? && next.hold.escape == [] ==>
                  var all := before + next.items; all != [] && all[|all| - 1] == Raw(ESCAPE))
  {
    hide Classify, Spell;
    var next := Step(hold, answer);
    var all := before + next.items;
    if next.items == [] {
      assert all == before;
    }
  }

  lemma {:induction false} ReleasedEscapePrecedesItsReport(before: seq<Item>, hold: Hold, log: seq<Answer>)
    requires hold.Valid() && EscapesInPlace(before)
    requires hold.Candidate? && hold.escape == [] ==> before != [] && before[|before| - 1] == Raw(ESCAPE)
    ensures EscapesInPlace(before + RunFrom(hold, log).items)
    decreases |log|
  {
    hide Step, EscapesInPlace;
    if log == [] {
      assert before + [] == before;
    } else {
      var first := Step(hold, log[0]);
      StepKeepsEscapesInPlace(before, hold, log[0]);
      ReleasedEscapePrecedesItsReport(before + first.items, first.hold, log[1..]);
      assert before + (first.items + RunFrom(first.hold, log[1..]).items)
             == before + first.items + RunFrom(first.hold, log[1..]).items;
    }
  }

  // ---------------------------------------------------------------- one call of `poll_terminal`

  /**
  Whether a call that polls the source returns on this answer. A released Escape with no tail
  yet is closed by a second Escape without leaving anything to deliver, and the call returns
  empty-handed there although time may be left.
  */
  predicate Stops(hold: Hold, answer: Answer)
    requires hold.Valid()
  {
    !answer.Ready? || Step(hold, answer).items != [] || (hold == Candidate([], []) && answer.event == ESCAPE)
  }

  /** The answers one call consumes; a script that ran out keeps answering `Empty`. */
  function PollLog(hold: Hold, answers: seq<Answer>): (log: seq<Answer>)
    requires hold.Valid()
    ensures log != []
    decreases |answers|
  {
    if answers == [] then [Empty]
    else if Stops(hold, answers[0]) then [answers[0]]
    else [answers[0]] + PollLog(Step(hold, answers[0]).hold, answers[1..])
  }

  function PollRest(hold: Hold, answers: seq<Answer>): (rest: seq<Answer>)
    requires hold.Valid()
    ensures |rest| <= |answers|
    decreases |answers|
  {
    if answers == [] then []
    else if Stops(hold, answers[0]) then answers[1..]
    else PollRest(Step(hold, answers[0]).hold, answers[1..])
  }

  /** How many more answers a call can need: the Escape, then at most twenty for a tail. */
  function Budget(hold: Hold): int {
    if hold.Idle? then 21 else 20 - |hold.tail|
  }

  /**
  The lookahead is bounded by the language of reports alone: after its Escape a call polls at
  most twenty times, whatever arrives.
  */
  lemma {:induction false} LookaheadIsBounded(hold: Hold, answers: seq<Answer>)
    requires hold.Valid() && hold.Waiting()
    ensures 1 <= |PollLog(hold, answers)| <= Budget(hold)
    decreases |answers|
  {
    hide Classify;
    if hold.Candidate? && hold.tail != [] {
      assert hold.tail[..|hold.tail|] == hold.tail;
      UnfinishedIsShort(Spell(hold.tail));
    }
    if answers != [] && !Stops(hold, answers[0]) {
      StepWaits(hold, answers[0]);
      LookaheadIsBounded(Step(hold, answers[0]).hold, answers[1..]);
    }
  }
}
