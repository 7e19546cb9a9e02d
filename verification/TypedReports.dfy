/**
Which key events spell a report (src/tui_input.rs): plain presses of its characters, and for the
closing `M` also a press that a legacy terminal parser marked with Shift. Everything is said here
about key events and printed texts, in both directions.
*/
module TypedReports {
  import opened SgrMouse
  import opened TerminalScan
  import opened MouseRecovery

  /** A key press that types this character into a report. */
  predicate Types(event: Event, c: char) {
    && event.Key? && event.code == Char(c) && event.kind == Press
    && (event.modifiers == {} || (c == 'M' && event.modifiers == {Shift}))
  }

  predicate TypesText(keys: seq<Event>, text: string) {
    |keys| == |text| && forall i :: 0 <= i < |keys| ==> Types(keys[i], text[i])
  }

  /** A character goes into the tail exactly for the presses that type it. */
  lemma TailCharIsTyped(event: Event)
    ensures TailChar(event).Some? ==> Types(event, TailChar(event).value)
    ensures forall c: char :: Types(event, c) ==> TailChar(event).Some? && TailChar(event).value == c
  {
  }

  lemma TypedIsSpelled(keys: seq<Event>, text: string)
    ensures TypesText(keys, text) <==> AllTail(keys) && Spell(keys) == text
  {
    hide TailChar, Types;
    forall i | 0 <= i < |keys|
      ensures TailChar(keys[i]).Some? ==> Types(keys[i], TailChar(keys[i]).value)
      ensures forall c: char :: Types(keys[i], c) ==> TailChar(keys[i]).Some? && TailChar(keys[i]).value == c
    {
      TailCharIsTyped(keys[i]);
    }
    if TypesText(keys, text) {
      assert AllTail(keys);
      assert Spell(keys) == text;
    }
    if AllTail(keys) && Spell(keys) == text {
      forall i | 0 <= i < |keys|
        ensures Types(keys[i], text[i])
      {
        assert text[i] == Spell(keys)[i];
      }
    }
  }

  /**
  A report that a terminal prints behind an Escape comes out as the one mouse event it reports,
  however its keys arrive: the Escape key goes out before it if and only if a poll was quiet
  before the first of them, and none of them ever goes out.
  */
  lemma TypedReportIsRecovered(p: Printed, keys: seq<Event>, rest: seq<Answer>)
    requires p.Valid() && TypesText(keys, p.Text())
    requires rest != [] && Failed !in rest && rest[|rest| - 1].Ready? && Reads(rest) == keys
    ensures var escape := Key(Esc, {}, Press, 0);
            var out := Run([Ready(escape)] + rest);
            && out.hold == Idle
            && Delivered(out.items) == (if rest[0] == Empty then [escape] else []) + [Mouse(p.Event())]
  {
    hide Classify, Run, Delivered, AllTail, Spell, Reads;
    TypedIsSpelled(keys, p.Text());
    PrintedParses(p);
    assert [] + Reads(rest) == keys;
    SplitInvariance(rest, keys);
  }

  /** In particular when all of it is ready at once. */
  lemma ReadyReportIsRecovered(p: Printed, keys: seq<Event>)
    requires p.Valid() && TypesText(keys, p.Text())
    ensures var out := Run([Ready(Key(Esc, {}, Press, 0))] + AllReady(keys));
            out.hold == Idle && Delivered(out.items) == [Mouse(p.Event())]
  {
    hide Run, Delivered;
    TextIsNotEmpty(p);
    ReadsAllReady(keys);
    TypedReportIsRecovered(p, keys, AllReady(keys));
    assert [] + [Mouse(p.Event())] == [Mouse(p.Event())];
  }

  lemma TextIsNotEmpty(p: Printed)
    ensures p.Text() != []
  {
  }

  lemma {:induction false} ReadsAllReady(keys: seq<Event>)
    ensures Reads(AllReady(keys)) == keys
  {
    if keys != [] {
      ReadsAllReady(keys[1..]);
      assert AllReady(keys)[1..] == AllReady(keys[1..]);
    }
  }

  /**
  Conversely, in every run every report that is recovered was printed by a valid report and typed
  key by key behind its Escape, and it reports exactly what was printed.
  */
  lemma RecoveredReportWasTyped(log: seq<Answer>, i: nat) returns (p: Printed)
    requires i < |Run(log).items| && Run(log).items[i].Recovered?
    ensures var item := Run(log).items[i];
            && p.Valid() && TypesText(item.tail, p.Text()) && item.mouse == p.Event()
            && (item.escape == [Key(Esc, {}, Press, 0)] || (item.escape == [] && i > 0 && Run(log).items[i - 1] == Raw(Key(Esc, {}, Press, 0))))
  {
    hide Classify, Spell, AllTail, RunFrom;
    ItemsAreValid(Idle, log);
    ReleasedEscapePrecedesItsReport([], Idle, log);
    assert [] + Run(log).items == Run(log).items;
    var item := Run(log).items[i];
    assert item in Run(log).items;
    p := AcceptedIsPrinted(Spell(item.tail));
    TypedIsSpelled(item.tail, p.Text());
  }

  /**
  Any other event ends the candidate: no key press that types a character, and not the Escape that
  opens the next one. All that was held goes out as it was read, the event last.
  */
  lemma OtherEventEndsCandidate(escape: seq<Event>, tail: seq<Event>, event: Event)
    requires Candidate(escape, tail).Valid()
    requires event != Key(Esc, {}, Press, 0) && forall c: char :: !Types(event, c)
    ensures Step(Candidate(escape, tail), Ready(event)) == Scan(Raws(escape + tail + [event]), Idle)
  {
    hide Classify;
    TailCharIsTyped(event);
  }

  /** Only a plain press of Escape opens a candidate; every other event goes straight through. */
  lemma OnlyPlainEscapeOpens(event: Event)
    ensures Step(Idle, Ready(event))
            == if event == Key(Esc, {}, Press, 0) then Scan([], Candidate([event], [])) else Scan([Raw(event)], Idle)
  {
  }
}
