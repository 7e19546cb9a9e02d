/**
How late ignored events can make a tick (src/tui_input.rs). A waiting turn polls again with its
whole timeout after every ignored event, so changes of focus or a horizontal wheel hold the tick
back for as long as they keep coming. The bound here is tight: a run meets it.
*/
module TickDelay {
  import opened TerminalScan
  import opened EventPump
  import Folding

  /** The ignored events a script begins with. */
  function Skipped(answers: seq<Answer>): nat {
    if answers != [] && Ignored(answers[0]) then 1 + Skipped(answers[1..]) else 0
  }

  /** A plain pause lasts one timeout, and one more for every ignored event. */
  lemma {:induction false} PauseIsBounded(answers: seq<Answer>, delays: seq<nat>, timeout: nat)
    ensures PlainPause(answers, delays, timeout).time <= (Skipped(answers) + 1) * timeout
  {
    if answers != [] && Ignored(answers[0]) {
      PauseIsBounded(answers[1..], Rest(delays), timeout);
      OneMore(Skipped(answers[1..]) + 1, timeout);
    } else {
      OneMore(0, timeout);
    }
  }

  lemma OneMore(count: nat, timeout: nat)
    ensures (count + 1) * timeout == count * timeout + timeout
  {
  }

  /** So many changes of focus, each of them as late as a poll can wait. */
  function Focusing(count: nat): (answers: seq<Answer>)
    ensures |answers| == count && forall i :: 0 <= i < count ==> answers[i] == Ready(FocusGained)
  {
    seq(count, _ => Ready(FocusGained))
  }

  function Late(count: nat, timeout: nat): (delays: seq<nat>)
    ensures |delays| == count && forall i :: 0 <= i < count ==> delays[i] == timeout
  {
    seq(count, _ => timeout)
  }

  lemma {:induction false} FocusingPause(count: nat, timeout: nat)
    ensures PlainPause(Focusing(count), Late(count, timeout), timeout) == Pause((count + 1) * timeout, [], [])
  {
    OneMore(count, timeout);
    if count > 0 {
      FocusingPause(count - 1, timeout);
      assert Focusing(count)[1..] == Focusing(count - 1);
      assert Late(count, timeout)[1..] == Late(count - 1, timeout);
    }
  }

  /** Nothing in such a script means anything to the runtime. */
  lemma FocusingIsIgnored(count: nat)
    ensures FirstEvent(Feed([], Idle, Focusing(count))).0 == Nothing
  {
    hide FirstEvent;
    var answers := Focusing(count);
    var i := Folding.FirstOfScript(answers);
    assert i == count;
    assert answers[count..] == [];
  }

  lemma NothingReady(answers: seq<Answer>, delays: seq<nat>)
    requires Ready(ESCAPE) !in answers
    ensures FirstEvent(Feed([], Idle, [Empty] + answers)) == (Nothing, Feed([], Idle, answers))
    ensures PlainPause([Empty] + answers, [0] + delays, 0) == Pause(0, answers, delays)
  {
    hide FirstEvent, Poll;
    var script := [Empty] + answers;
    Folding.PlainPoll(script);
    FirstEventStep(Feed([], Idle, script));
    assert script[1..] == answers && ([0] + delays)[1..] == delays;
  }

  /**
  A tick that is due in one interval comes after as many intervals more as events were ignored.
  Nothing is ready when the turn begins; then the focus changes at the end of each wait.
  */
  method LateTick(interval: nat, count: nat) returns (pump: EventPump, result: Result)
    requires interval > 0
    ensures pump.source.exact && pump.Valid() && pump.Settled()
    ensures result == Ok(Tick) && pump.source.clock == interval + count * interval
  {
    hide PlainPause, FirstEvent, EventPump.Valid;
    var answers, delays := [Empty] + Focusing(count), [0] + Late(count, interval);
    var source := new EventSource(answers, delays, 0, true);
    pump := new EventPump(source, [], interval, 0);
    NothingReady(Focusing(count), Late(count, interval));
    FocusingIsIgnored(count);
    FocusingPause(count, interval);
    OneMore(count, interval);
    pump.WhereItIs();
    assert pump.Plain();
    assert pump.Ahead() == Feed([], Idle, answers);
    result := pump.Next(0);
  }
}
