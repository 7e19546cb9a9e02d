/**
Which unfinished texts can still become a report, and which rejected ones would have been waited
for had they arrived whole (src/tui_input/sgr_mouse.rs). The parser calls everything it waits for
an unfinished prefix; not all of it is one. Both conditions here are exact and read off the text.
*/
module SgrCompletion {
  import opened SgrMouse

  predicate Completes(report: string, more: string) {
    Classify(report + more).Complete?
  }

  predicate Waits(report: string, more: string) {
    Classify(report + more) == Unfinished
  }

  // ---------------------------------------------------------------- the condition

  /** The button codes that name a kind. */
  predicate Names(code: nat) {
    code < 96 || (code < 128 && code % 4 <= 1)
  }

  /** A coordinate that is at least one, or has room to become so. */
  predicate CellOpen(field: string)
    requires AllDigits(field)
  {
    |field| < MAX_FIELD_CHARS || Value(field) >= 1
  }

  /**
  The button is empty or names a kind as it stands, a whole column is not zero, and the column or
  row under way is not five zeros.
  */
  predicate Open(fields: seq<string>)
    requires PartialFields(fields)
  {
    var last := fields[|fields| - 1];
    && (fields[0] == [] || Names(Value(fields[0])))
    && (|fields| == 3 ==> Value(fields[1]) >= 1)
    && (|fields| >= 2 ==> CellOpen(last))
  }

  predicate CanComplete(report: string)
    requires Classify(report) == Unfinished
  {
    report == "[" || Open(Split(report[2..]))
  }

  lemma NamesIsKind(code: nat, released: bool)
    requires code <= U8_MAX
    ensures Names(code) <==> MouseKindOf(code, released).Some?
  {
  }

  // ---------------------------------------------------------------- texts and their fields

  /** Characters other than the separator go into the last field. */
  lemma {:induction false} SplitExtend(text: string, more: string)
    requires ';' !in more
    ensures var fields := Split(text);
            Split(text + more) == fields[|fields| - 1 := fields[|fields| - 1] + more]
  {
    hide Split;
    var fields := Split(text);
    if more == [] {
      assert text + more == text && fields[|fields| - 1] + more == fields[|fields| - 1];
    } else {
      var init, c := more[..|more| - 1], more[|more| - 1];
      SplitExtend(text, init);
      SplitSnoc(text + init, c);
      assert init + [c] == more;
      assert text + more == (text + init) + [c];
      assert fields[|fields| - 1] + more == (fields[|fields| - 1] + init) + [c];
    }
  }

  /** The fields of a text are those of an extension, the last one cut short. */
  ghost predicate FieldsPrefix(fields: seq<string>, longer: seq<string>) {
    && 1 <= |fields| <= |longer|
    && (forall i :: 0 <= i < |fields| - 1 ==> fields[i] == longer[i])
    && fields[|fields| - 1] <= longer[|fields| - 1]
  }

  lemma {:induction false} SplitPrefix(text: string, more: string)
    ensures FieldsPrefix(Split(text), Split(text + more))
  {
    hide Split;
    if more == [] {
      assert text + more == text;
    } else {
      var init, c := more[..|more| - 1], more[|more| - 1];
      SplitPrefix(text, init);
      SplitSnoc(text + init, c);
      assert text + more == (text + init) + [c];
    }
  }

  lemma ValueSnoc(field: string, c: char)
    requires AllDigits(field) && IsDigit(c)
    ensures AllDigits(field + [c]) && Value(field + [c]) == Value(field) * 10 + (c as int - '0' as int)
  {
    assert (field + [c])[..|field|] == field;
  }

  /** Every further digit multiplies by ten at least. */
  lemma {:induction false} ValuePrefix(short: string, long: string)
    requires short < long && AllDigits(long)
    ensures AllDigits(short) && Value(long) >= 10 * Value(short)
    decreases |long|
  {
    hide Value;
    var init, c := long[..|long| - 1], long[|long| - 1];
    assert long == init + [c];
    assert forall i :: 0 <= i < |short| ==> short[i] == long[i];
    ValueSnoc(init, c);
    if short < init {
      ValuePrefix(short, init);
    } else {
      assert short == init;
    }
  }

  lemma PrefixNames(short: string, long: string)
    requires short != [] && short <= long && AllDigits(long) && Names(Value(long))
    ensures AllDigits(short) && Names(Value(short))
  {
    if short < long {
      ValuePrefix(short, long);
    } else {
      assert short == long;
    }
  }

  // ---------------------------------------------------------------- completing

  /** What the last field still lacks. */
  function Patch(fields: seq<string>): string
    requires PartialFields(fields)
  {
    var last := fields[|fields| - 1];
    if |fields| == 1 then (if last == [] then "0" else "")
    else if last != [] && Value(last) >= 1 then "" else "1"
  }

  function Missing(count: nat): string {
    if count == 1 then ";1;1" else if count == 2 then ";1" else ""
  }

  lemma OneIsGood()
    ensures GoodField("1") && Value("1") == 1 && GoodField("0") && Value("0") == 0
  {
    assert "1"[..0] == [] && "0"[..0] == [];
  }

  lemma PatchedField(fields: seq<string>)
    requires PartialFields(fields) && Open(fields)
    ensures var last := fields[|fields| - 1] + Patch(fields);
            && ';' !in Patch(fields) && GoodField(last)
            && (if |fields| == 1 then Names(Value(last)) else Value(last) >= 1)
  {
    hide Value, AllDigits;
    var last := fields[|fields| - 1];
    OneIsGood();
    assert last + "" == last;
    if last == [] {
      assert last + "0" == "0" && last + "1" == "1";
    } else if |fields| > 1 && Value(last) == 0 {
      ValueSnoc(last, '1');
      assert last + "1" == last + ['1'];
    }
  }

  lemma CompletedFields(fields: seq<string>, whole: seq<string>)
    requires PartialFields(fields) && Open(fields)
    requires whole == fields[|fields| - 1 := fields[|fields| - 1] + Patch(fields)]
                      + (if |fields| == 1 then ["1", "1"] else if |fields| == 2 then ["1"] else [])
    ensures CompleteFields(whole, false)
  {
    hide Value, AllDigits, MouseKindOf, Patch;
    OneIsGood();
    PatchedField(fields);
    assert |whole| == MAX_FIELDS;
    assert Names(Value(whole[0]));
    NamesIsKind(Value(whole[0]), false);
  }

  lemma SplitCompleted(body: string)
    requires PartialFields(Split(body)) && Open(Split(body))
    ensures var fields := Split(body);
            Split(body + Patch(fields) + Missing(|fields|))
            == fields[|fields| - 1 := fields[|fields| - 1] + Patch(fields)]
               + (if |fields| == 1 then ["1", "1"] else if |fields| == 2 then ["1"] else [])
  {
    hide Split, PartialFields, Open, Patch;
    var fields := Split(body);
    PatchedField(fields);
    var patched := body + Patch(fields);
    SplitExtend(body, Patch(fields));
    SplitAfterSeparator(patched, "1");
    SplitAfterSeparator(patched + ";" + "1", "1");
    assert patched + ";1" == patched + ";" + "1";
    assert patched + ";1;1" == (patched + ";" + "1") + ";" + "1";
    assert patched + "" == patched;
    AtMostThree(fields);
  }

  lemma AtMostThree(fields: seq<string>)
    requires PartialFields(fields)
    ensures 1 <= |fields| <= 3
  {
  }

  lemma BodyCompletes(body: string) returns (more: string)
    requires PartialFields(Split(body)) && Open(Split(body))
    ensures Completes("[<" + body, more)
  {
    hide Split, PartialFields, Open, Patch, Missing, Classify, CompleteFields;
    var fields := Split(body);
    var parameters := body + Patch(fields) + Missing(|fields|);
    more := Patch(fields) + Missing(|fields|) + "M";
    SplitCompleted(body);
    CompletedFields(fields, Split(parameters));
    ClosedText(parameters, false);
    assert ("[<" + body) + more == "[<" + parameters + "M";
  }

  lemma CompletionExists(report: string) returns (more: string)
    requires Classify(report) == Unfinished && CanComplete(report)
    ensures Completes(report, more)
  {
    hide Split, Open;
    if report == "[" {
      NothingIsOpen();
      var rest := BodyCompletes("");
      more := "<" + rest;
      assert "[" + more == ("[<" + "") + rest;
    } else {
      more := BodyCompletes(report[2..]);
      assert "[<" + report[2..] == report;
    }
  }

  lemma NothingIsOpen()
    ensures PartialFields(Split("")) && Open(Split(""))
  {
  }

  // ---------------------------------------------------------------- not completing

  lemma OnlyOpenComplete(fields: seq<string>, whole: seq<string>, released: bool)
    requires PartialFields(fields) && CompleteFields(whole, released) && FieldsPrefix(fields, whole)
    ensures Open(fields)
  {
    hide Value, AllDigits, MouseKindOf, Names;
    NamesIsKind(Value(whole[0]), released);
    if fields[0] != [] {
      assert fields[0] <= whole[0];
      PrefixNames(fields[0], whole[0]);
    }
    var k := |fields| - 1;
    if k >= 1 && |fields[k]| >= MAX_FIELD_CHARS {
      assert fields[k] == whole[k];
    }
    EmptyIsDigits();
  }

  lemma EmptyIsDigits()
    ensures AllDigits([])
  {
  }

  lemma CompletedWasOpen(report: string, more: string)
    requires Classify(report) == Unfinished && Completes(report, more)
    ensures CanComplete(report)
  {
    hide Split, Open, EventOf, CompleteFields, PartialFields;
    if report != "[" {
      assert report + [] == report;
      var body, cut := report[2..], more[..|more| - 1];
      assert (report + more)[2..] == body + more;
      assert (body + more)[..|body + more| - 1] == body + cut;
      SplitPrefix(body, cut);
      OnlyOpenComplete(Split(body), Split(body + cut), EndsWith(body + more, 'm'));
    }
  }

  /**
  A text that is waited for can still become a report if and only if its button is empty or names
  a kind, and neither coordinate is stuck at zero. Every other wait ends in a replay.
  */
  lemma CompletableIff(report: string)
    requires Classify(report) == Unfinished
    ensures (exists more :: Completes(report, more)) <==> CanComplete(report)
  {
    hide CanComplete, Classify;
    if CanComplete(report) {
      var more := CompletionExists(report);
      assert Completes(report, more);
    }
    if more :| Completes(report, more) {
      CompletedWasOpen(report, more);
    }
  }

  // ---------------------------------------------------------------- rejection

  /** One or two good fields with nothing behind them, and a button over eight bits. */
  predicate Overwide(report: string) {
    && "[<" <= report && !IsClosed(report[2..])
    && var fields := Split(report[2..]);
       && |fields| <= 2 && (forall i :: 0 <= i < |fields| ==> GoodField(fields[i]))
       && Value(fields[0]) > 255
  }

  lemma OverwideWaits(report: string)
    requires Overwide(report)
    ensures Waits(report, ";")
  {
    hide Split, Value, AllDigits;
    var body := report[2..];
    SplitSnoc(body, ';');
    assert report + ";" == "[<" + (body + ";");
    OpenText(body + ";");
  }

  lemma OnlyOverwideWaits(fields: seq<string>, longer: seq<string>)
    requires FieldsPrefix(fields, longer) && PartialFields(longer) && !PartialFields(fields)
    ensures |fields| <= 2 && (forall i :: 0 <= i < |fields| ==> GoodField(fields[i])) && Value(fields[0]) > U8_MAX
  {
    hide Value, AllDigits;
    var k := |fields| - 1;
    var last := fields[k];
    PrefixGood(last, longer[k]);
    if last != [] && |longer| == |fields| {
      PrefixValue(fields[0], longer[0]);
    }
  }

  lemma PrefixGood(short: string, long: string)
    requires short <= long && (long == [] || GoodField(long))
    ensures short == [] || GoodField(short)
  {
    hide Value;
    if short < long {
      ValuePrefix(short, long);
    } else {
      assert short == long;
    }
  }

  lemma PrefixValue(short: string, long: string)
    requires short <= long && AllDigits(long)
    ensures AllDigits(short) && Value(short) <= Value(long)
  {
    hide Value;
    if short < long {
      ValuePrefix(short, long);
    } else {
      assert short == long;
    }
  }

  lemma PartialIsOpen(body: string, more: string)
    requires PartialFields(Split(body + more))
    ensures !IsClosed(body)
  {
    hide Split, Value;
    SplitPrefix(body, more);
    if body != [] && body[|body| - 1] != ';' {
      var init, c := body[..|body| - 1], body[|body| - 1];
      var fields, longer := Split(body), Split(body + more);
      assert body == init + [c];
      SplitSnoc(init, c);
      var last := fields[|fields| - 1];
      assert last[|last| - 1] == c;
      assert longer[|fields| - 1][|last| - 1] == c;
    }
  }

  lemma WaitingWasOverwide(report: string, more: string)
    requires Classify(report) == Rejected && report != [] && Waits(report, more)
    ensures Overwide(report)
  {
    hide Split, Value, EventOf, CompleteFields, PartialFields;
    assert (report + more)[0] == report[0];
    assert |report| == 1 ==> report == "[";
    if |report| > 1 {
      assert "[<" <= report + more && (report + more)[..2] == report[..2];
      var body := report[2..];
      assert (report + more)[2..] == body + more;
      SplitPrefix(body, more);
      PartialIsOpen(body, more);
      OnlyOverwideWaits(Split(body), Split(body + more));
    }
  }

  /**
  A rejected text can have an extension that is waited for if and only if it is one or two good
  fields under way with a button over eight bits. No rejected text ever has an accepted extension,
  so a replay never comes too early.
  */
  lemma RejectionIsFinal(report: string)
    requires Classify(report) == Rejected && report != []
    ensures (exists more :: Waits(report, more)) <==> Overwide(report)
    ensures forall more :: !Completes(report, more)
  {
    hide Classify, Overwide;
    if Overwide(report) {
      OverwideWaits(report);
    }
    if more :| Waits(report, more) {
      WaitingWasOverwide(report, more);
    }
    forall more
      ensures !Completes(report, more)
    {
      assert (report + more)[..|report|] == report;
      assert more == [] ==> report + more == report;
      if Completes(report, more) {
        PrefixesWait(report + more, |report|);
      }
    }
  }

  // ---------------------------------------------------------------- both happen

  lemma ThreeDigits(a: char, b: char, c: char)
    requires IsDigit(a) && IsDigit(b) && IsDigit(c)
    ensures AllDigits([a, b, c])
    ensures Value([a, b, c]) == (a as int - 48) * 100 + (b as int - 48) * 10 + (c as int - 48)
  {
    hide Value;
    assert Value([]) == 0 by { EmptyValue(); }
    ValueSnoc([], a);
    ValueSnoc([a], b);
    ValueSnoc([a, b], c);
    assert [] + [a] == [a] && [a] + [b] == [a, b] && [a, b] + [c] == [a, b, c];
  }

  lemma EmptyValue()
    ensures Value([]) == 0
  {
  }

  /** A wait that nothing can end, and a rejection that more text turns into a wait. */
  lemma RejectionIsNotFinal()
    ensures Classify("[<128") == Unfinished && !CanComplete("[<128")
    ensures Classify("[<300") == Rejected && Classify("[<300;") == Unfinished
  {
    hide Split, Value;
    ThreeDigits('1', '2', '8');
    ThreeDigits('3', '0', '0');
    SplitOne("128");
    SplitOne("300");
    SplitAfterSeparator("300", "");
    assert "300;" == "300" + ";" + "";
    OpenText("128");
    OpenText("300");
    OpenText("300;");
    assert "[<" + "128" == "[<128" && "[<" + "300" == "[<300" && "[<" + "300;" == "[<300;";
    assert "[<128"[2..] == "128";
  }
}
