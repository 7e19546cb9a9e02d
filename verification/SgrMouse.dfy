/**
The incremental parser for the tail of an SGR mouse report (xterm Control Sequences,
"Extended coordinates", SGR mode 1006), as src/tui_input/sgr_mouse.rs writes it.

`ParseReport` is the parser; `Classify` says, without a loop, what each text means. The lemmas
show that the accepted texts are exactly the printed reports, that printing and parsing undo
each other, that every cut of an accepted report is still waited for, and that nothing which is
waited for outgrows the caller's lookahead bound.

The source measures lengths in bytes. A text that holds a character outside ASCII is rejected
at whatever length, so counting characters here gives the same answers.
*/
module SgrMouse {
  import opened Wrappers

  /** The six flags of a key or mouse event; a report's button code carries the first three. */
  datatype Modifier = Shift | Alt | Control | Super | Hyper | Meta

  datatype MouseButton = Left | Middle | Right

  datatype MouseKind =
    | Down(button: MouseButton)
    | Up(button: MouseButton)
    | Drag(button: MouseButton)
    | Moved
    | ScrollUp
    | ScrollDown
    | ScrollLeft
    | ScrollRight

  /** A decoded report; cells are zero-based. */
  datatype MouseEvent = MouseEvent(kind: MouseKind, column: nat, row: nat, modifiers: set<Modifier>)

  /** `Rejected` tells the caller to replay what it buffered. */
  datatype Verdict = Complete(mouse: MouseEvent) | Unfinished | Rejected

  const MAX_FIELDS := 3
  const MAX_FIELD_CHARS := 5
  const U16_MAX := 65535
  const U8_MAX := 255

  // ---------------------------------------------------------------- button codes

  /**
  Bit masks on the button byte, written as the arithmetic they are: `code & 3`,
  `code & 0b1110_0011`, and a single bit.
  */
  function LowBits(code: nat): nat {
    code % 4
  }

  function WithoutModifiers(code: nat): nat {
    code / 32 * 32 + code % 4
  }

  /** The bit a modifier is reported by: 4, 8 or 16. */
  predicate HasModifier(code: nat, modifier: Modifier) {
    match modifier
    case Shift => code / 4 % 2 == 1
    case Alt => code / 8 % 2 == 1
    case Control => code / 16 % 2 == 1
    case _ => false
  }

  lemma MasksAreArithmetic(code: bv8)
    ensures code & 3 == code % 4
    ensures code & 0xE3 == code / 32 * 32 + code % 4
    ensures (code & 4 != 0) == (code / 4 % 2 == 1)
    ensures (code & 8 != 0) == (code / 8 % 2 == 1)
    ensures (code & 16 != 0) == (code / 16 % 2 == 1)
  {
  }

  function MouseKindOf(code: nat, released: bool): (kind: Option<MouseKind>)
  {
    var button := if LowBits(code) == 0 then Left else if LowBits(code) == 1 then Middle else Right;
    var base := WithoutModifiers(code);
    if base <= 2 then Some(if released then Up(button) else Down(button))
    else if base == 3 then Some(Up(Left))
    else if 32 <= base <= 34 then Some(Drag(button))
    else if base == 35 || base == 96 || base == 97 then Some(Moved)
    else if base == 64 then Some(ScrollUp)
    else if base == 65 then Some(ScrollDown)
    else if base == 66 then Some(ScrollLeft)
    else if base == 67 then Some(ScrollRight)
    else None
  }

  function ModifiersOf(code: nat): set<Modifier> {
    set modifier: Modifier | HasModifier(code, modifier)
  }

  /** The source's accumulation over its table of three bits. */
  method MouseModifiers(code: nat) returns (modifiers: set<Modifier>)
    ensures modifiers == ModifiersOf(code)
  {
    var table := [Shift, Alt, Control];
    modifiers := {};
    for i := 0 to |table|
      invariant modifiers == set m: Modifier | m in table[..i] && HasModifier(code, m)
    {
      if HasModifier(code, table[i]) {
        modifiers := modifiers + {table[i]};
      }
    }
    assert table[..|table|] == table;
    assert Shift == table[0] && Alt == table[1] && Control == table[2];
  }

  lemma DivMod2(q: nat, r: nat)
    requires r < 2
    ensures (2 * q + r) / 2 == q && (2 * q + r) % 2 == r
  {
  }

  lemma DivMod4(q: nat, r: nat)
    requires r < 4
    ensures (4 * q + r) / 4 == q && (4 * q + r) % 4 == r
  {
  }

  lemma DivMod8(q: nat, r: nat)
    requires r < 8
    ensures (8 * q + r) / 8 == q && (8 * q + r) % 8 == r
  {
  }

  lemma DivMod16(q: nat, r: nat)
    requires r < 16
    ensures (16 * q + r) / 16 == q && (16 * q + r) % 16 == r
  {
  }

  lemma DivMod32(q: nat, r: nat)
    requires r < 32
    ensures (32 * q + r) / 32 == q && (32 * q + r) % 32 == r
  {
  }

  /** A byte is its motion bits, its three modifier bits and its button bits. */
  lemma ByteParts(high: nat, control: nat, alt: nat, shift: nat, low: nat)
    requires control <= 1 && alt <= 1 && shift <= 1 && low <= 3
    ensures var code := 32 * high + 16 * control + 8 * alt + 4 * shift + low;
            && code / 32 == high && code % 4 == low
            && code / 16 % 2 == control && code / 8 % 2 == alt && code / 4 % 2 == shift
  {
    var code := 32 * high + 16 * control + 8 * alt + 4 * shift + low;
    DivMod4(8 * high + 4 * control + 2 * alt + shift, low);
    DivMod8(4 * high + 2 * control + alt, 4 * shift + low);
    DivMod16(2 * high + control, 8 * alt + 4 * shift + low);
    DivMod32(high, 16 * control + 8 * alt + 4 * shift + low);
    DivMod2(4 * high + 2 * control + alt, shift);
    DivMod2(2 * high + control, alt);
    DivMod2(high, control);
  }

  /**
  The modifier bits never decide the kind, the kind's bits never decide the modifiers, and the
  two together are the whole byte.
  */
  lemma ModifiersAreIndependent(high: nat, control: bool, alt: bool, shift: bool, low: nat, released: bool)
    requires low <= 3
    ensures var code := 32 * high + (if control then 16 else 0) + (if alt then 8 else 0) + (if shift then 4 else 0) + low;
            && WithoutModifiers(code) == 32 * high + low
            && MouseKindOf(code, released) == MouseKindOf(32 * high + low, released)
            && (forall m: Modifier :: m in ModifiersOf(code) <==>
                  match m case Shift => shift case Alt => alt case Control => control case _ => false)
  {
    hide MouseKindOf;
    ByteParts(high, if control then 1 else 0, if alt then 1 else 0, if shift then 1 else 0, low);
    ByteParts(high, 0, 0, 0, low);
    SameKind(32 * high + (if control then 16 else 0) + (if alt then 8 else 0) + (if shift then 4 else 0) + low,
             32 * high + low, released);
  }

  lemma SameKind(a: nat, b: nat, released: bool)
    requires LowBits(a) == LowBits(b) && WithoutModifiers(a) == WithoutModifiers(b)
    ensures MouseKindOf(a, released) == MouseKindOf(b, released)
  {
    hide LowBits, WithoutModifiers;
  }

  // ---------------------------------------------------------------- fields

  predicate IsDigit(c: char) {
    '0' <= c <= '9'
  }

  predicate AllDigits(field: string) {
    forall i :: 0 <= i < |field| ==> IsDigit(field[i])
  }

  function Value(field: string): nat
    requires AllDigits(field)
  {
    if field == [] then 0
    else Value(field[..|field| - 1]) * 10 + (field[|field| - 1] as int - '0' as int)
  }

  /** A field that is whole as it stands: one to five digits that fit sixteen bits. */
  predicate GoodField(field: string) {
    1 <= |field| <= MAX_FIELD_CHARS && AllDigits(field) && Value(field) <= U16_MAX
  }

  predicate EndsWith(text: string, c: char) {
    text != [] && text[|text| - 1] == c
  }

  /** `str::split(';')`: never empty, and a trailing separator leaves an empty last field. */
  function Split(text: string): (fields: seq<string>)
    ensures fields != []
    ensures text == [] ==> fields == [[]]
    ensures fields[|fields| - 1] == [] <==> text == [] || EndsWith(text, ';')
  {
    if text == [] then [[]]
    else
      var rest := Split(text[..|text| - 1]);
      var c := text[|text| - 1];
      if c == ';' then rest + [[]]
      else rest[|rest| - 1 := rest[|rest| - 1] + [c]]
  }

  /** The fields after one more character. */
  function Grown(rest: seq<string>, c: char): seq<string>
    requires rest != []
  {
    if c == ';' then rest + [[]] else rest[|rest| - 1 := rest[|rest| - 1] + [c]]
  }

  /** One step of `Split`, for proofs that must not unfold it further. */
  lemma SplitSnoc(init: string, c: char)
    ensures Split(init + [c]) == Grown(Split(init), c)
  {
    assert (init + [c])[..|init|] == init;
  }

  function Join(fields: seq<string>): string
    requires fields != []
  {
    if |fields| == 1 then fields[0]
    else Join(fields[..|fields| - 1]) + ";" + fields[|fields| - 1]
  }

  lemma {:induction false} JoinSplit(text: string)
    ensures Join(Split(text)) == text
  {
    if text != [] {
      var init, c := text[..|text| - 1], text[|text| - 1];
      JoinSplit(init);
      JoinGrown(Split(init), c);
      assert init + [c] == text;
      SplitSnoc(init, c);
    }
  }

  lemma JoinGrown(rest: seq<string>, c: char)
    requires rest != []
    ensures Join(Grown(rest, c)) == Join(rest) + [c]
  {
    var grown := Grown(rest, c);
    if c == ';' {
      assert grown[..|grown| - 1] == rest;
    } else {
      assert grown[..|grown| - 1] == rest[..|rest| - 1];
    }
  }

  lemma {:induction false} SplitOne(field: string)
    requires ';' !in field
    ensures Split(field) == [field]
  {
    hide Split;
    if field != [] {
      var init, c := field[..|field| - 1], field[|field| - 1];
      SplitOne(init);
      assert init + [c] == field;
      SplitSnoc(init, c);
    }
  }

  lemma {:induction false} SplitAfterSeparator(text: string, field: string)
    requires ';' !in field
    ensures Split(text + ";" + field) == Split(text) + [field]
  {
    hide Split;
    if field == [] {
      SplitSnoc(text, ';');
      assert text + ";" + field == text + [';'];
    } else {
      var init, c := field[..|field| - 1], field[|field| - 1];
      SplitAfterSeparator(text, init);
      SplitSnoc(text + ";" + init, c);
      assert init + [c] == field;
      assert text + ";" + field == (text + ";" + init) + [c];
    }
  }

  lemma {:induction false} JoinLength(fields: seq<string>)
    requires fields != []
    requires forall i :: 0 <= i < |fields| ==> |fields[i]| <= MAX_FIELD_CHARS
    ensures |Join(fields)| <= (MAX_FIELD_CHARS + 1) * |fields| - 1
  {
    if |fields| > 1 {
      JoinLength(fields[..|fields| - 1]);
    }
  }

  // ---------------------------------------------------------------- what a text means

  /** Three whole fields that name an event at a cell which exists. */
  predicate CompleteFields(fields: seq<string>, released: bool) {
    && |fields| == MAX_FIELDS
    && GoodField(fields[0]) && GoodField(fields[1]) && GoodField(fields[2])
    && Value(fields[0]) <= U8_MAX
    && MouseKindOf(Value(fields[0]), released).Some?
    && Value(fields[1]) >= 1 && Value(fields[2]) >= 1
  }

  function EventOf(fields: seq<string>, released: bool): MouseEvent
    requires CompleteFields(fields, released)
  {
    var code := Value(fields[0]);
    MouseEvent(MouseKindOf(code, released).value, Value(fields[1]) - 1, Value(fields[2]) - 1, ModifiersOf(code))
  }

  /**
  What the source keeps waiting on. The button's eight-bit range is looked at only while the
  last field is not empty, so `[<300;` is waited for although `[<300` is rejected.
  */
  predicate PartialFields(fields: seq<string>) {
    && 1 <= |fields| <= MAX_FIELDS
    && (forall i :: 0 <= i < |fields| - 1 ==> GoodField(fields[i]))
    && var last := fields[|fields| - 1];
       last == [] || (GoodField(last) && Value(fields[0]) <= U8_MAX)
  }

  predicate IsClosed(body: string) {
    EndsWith(body, 'M') || EndsWith(body, 'm')
  }

  function Classify(report: string): Verdict {
    if report == "[" then Unfinished
    else if !("[<" <= report) then Rejected
    else
      var body := report[2..];
      if IsClosed(body) then
        var fields, released := Split(body[..|body| - 1]), EndsWith(body, 'm');
        if CompleteFields(fields, released) then Complete(EventOf(fields, released)) else Rejected
      else if PartialFields(Split(body)) then Unfinished
      else Rejected
  }

  /** A closed text, from its parameters. */
  lemma ClosedText(parameters: string, released: bool)
    ensures var fields := Split(parameters);
            Classify("[<" + parameters + (if released then "m" else "M"))
            == if CompleteFields(fields, released) then Complete(EventOf(fields, released)) else Rejected
  {
    hide Split, CompleteFields, EventOf, PartialFields;
    var report := "[<" + parameters + (if released then "m" else "M");
    var body := report[2..];
    assert body == parameters + (if released then "m" else "M");
    assert body[..|body| - 1] == parameters;
  }

  lemma OpenText(body: string)
    requires !IsClosed(body)
    ensures Classify("[<" + body) == if PartialFields(Split(body)) then Unfinished else Rejected
  {
    hide Split, CompleteFields, EventOf, PartialFields;
    assert ("[<" + body)[2..] == body;
  }

  method ParseReport(report: string) returns (verdict: Verdict)
    ensures verdict == Classify(report)
  {
    hide Split, Value, MouseKindOf, ModifiersOf, AllDigits;
    if report == "[" {
      return Unfinished;
    }
    if !("[<" <= report) {
      return Rejected;
    }
    var body := report[2..];
    var complete := IsClosed(body);
    var parameters := if complete then body[..|body| - 1] else body;
    var fields := Split(parameters);
    var values := new nat[MAX_FIELDS](_ => 0);
    var count := 0;
    for index := 0 to |fields|
      invariant count == index <= MAX_FIELDS
      invariant forall i :: 0 <= i < index ==> GoodField(fields[i]) && values[i] == Value(fields[i])
    {
      var field := fields[index];
      if index >= values.Length || |field| > MAX_FIELD_CHARS {
        return Rejected;
      }
      count := count + 1;
      if field == [] && !complete && EndsWith(parameters, ';') {
        // A separator at the end leaves the next field still to come.
        if index + 1 == |fields| {
          return Unfinished;
        }
      }
      if field == [] && !complete && parameters == [] {
        return Unfinished;
      }
      if !AllDigits(field) || field == [] {
        return Rejected;
      }
      if Value(field) > U16_MAX {
        return Rejected;
      }
      values[index] := Value(field);
    }
    if values[0] > U8_MAX {
      return Rejected;
    }
    if !complete {
      return Unfinished;
    }
    if count != MAX_FIELDS {
      return Rejected;
    }
    var code := values[0];
    var kind := MouseKindOf(code, EndsWith(body, 'm'));
    if kind.None? || values[1] < 1 || values[2] < 1 {
      return Rejected;
    }
    var modifiers := MouseModifiers(code);
    return Complete(MouseEvent(kind.value, values[1] - 1, values[2] - 1, modifiers));
  }

  // ---------------------------------------------------------------- printing

  function Pow10(n: nat): nat {
    if n == 0 then 1 else 10 * Pow10(n - 1)
  }

  /** `value` in exactly `width` decimal digits, zero-padded. */
  function Digits(value: nat, width: nat): string {
    if width == 0 then []
    else Digits(value / 10, width - 1) + [(value % 10 + '0' as int) as char]
  }

  lemma {:induction false} DigitsValue(value: nat, width: nat)
    requires value < Pow10(width)
    ensures |Digits(value, width)| == width && AllDigits(Digits(value, width))
    ensures Value(Digits(value, width)) == value
  {
    if width > 0 {
      DigitsValue(value / 10, width - 1);
      var text := Digits(value, width);
      assert text[..|text| - 1] == Digits(value / 10, width - 1);
    }
  }

  lemma {:induction false} ValueDigits(field: string)
    requires AllDigits(field)
    ensures Value(field) < Pow10(|field|) && Digits(Value(field), |field|) == field
  {
    if field != [] {
      var init := field[..|field| - 1];
      ValueDigits(init);
      assert init + [field[|field| - 1]] == field;
    }
  }

  function ButtonBits(button: MouseButton): nat {
    match button
    case Left => 0
    case Middle => 1
    case Right => 2
  }

  /**
  The button codes, without modifier bits, that a terminal reports a kind by. Presses and releases
  share their codes and differ in the suffix; the legacy code 3 is a release of the left button
  under either.
  */
  predicate Encodes(base: nat, released: bool, kind: MouseKind) {
    match kind
    case Down(button) => !released && base == ButtonBits(button)
    case Up(button) => (released && base == ButtonBits(button)) || (button == Left && base == 3)
    case Drag(button) => base == 32 + ButtonBits(button)
    case Moved => base == 35 || base == 96 || base == 97
    case ScrollUp => base == 64
    case ScrollDown => base == 65
    case ScrollLeft => base == 66
    case ScrollRight => base == 67
  }

  const REPORTED := {Shift, Alt, Control}

  function ModifierBits(modifiers: set<Modifier>): nat {
    (if Shift in modifiers then 4 else 0) + (if Alt in modifiers then 8 else 0) + (if Control in modifiers then 16 else 0)
  }

  /**
  One report as a terminal prints it: what it reports, the base code it chose for that, and the
  width each number is padded to.
  */
  datatype Printed = Printed(kind: MouseKind, modifiers: set<Modifier>, base: nat, column: nat, row: nat,
                             widths: (nat, nat, nat), released: bool)
  {
    function Code(): nat {
      base + ModifierBits(modifiers)
    }

    /** The code says what is reported, and the numbers fit their fields and their widths. */
    predicate Valid() {
      && Encodes(base, released, kind) && modifiers <= REPORTED
      && 1 <= column <= 65535 && 1 <= row <= 65535
      && 1 <= widths.0 <= 5 && Code() < Pow10(widths.0)
      && 1 <= widths.1 <= 5 && column < Pow10(widths.1)
      && 1 <= widths.2 <= 5 && row < Pow10(widths.2)
    }

    function Parameters(): string {
      Digits(Code(), widths.0) + ";" + Digits(column, widths.1) + ";" + Digits(row, widths.2)
    }

    function Text(): string {
      "[<" + Parameters() + (if released then "m" else "M")
    }

    function Event(): MouseEvent
      requires Valid()
    {
      MouseEvent(kind, column - 1, row - 1, modifiers)
    }
  }

  /** The parser's masks and table find what the code was chosen for. */
  lemma CodeDecodes(base: nat, modifiers: set<Modifier>, released: bool, kind: MouseKind)
    requires Encodes(base, released, kind) && modifiers <= REPORTED
    ensures var code := base + ModifierBits(modifiers);
            && code <= U8_MAX && MouseKindOf(code, released) == Some(kind) && ModifiersOf(code) == modifiers
  {
    hide Encodes, MouseKindOf, ModifiersOf, WithoutModifiers;
    var high, low := BaseParts(base, released, kind);
    ModifiersAreIndependent(high, Control in modifiers, Alt in modifiers, Shift in modifiers, low, released);
    BaseDecodes(base, released, kind);
    assert forall m: Modifier :: m in modifiers ==> m in REPORTED;
  }

  lemma BaseParts(base: nat, released: bool, kind: MouseKind) returns (high: nat, low: nat)
    requires Encodes(base, released, kind)
    ensures base == 32 * high + low && low <= 3 && high <= 3
  {
    high := if base < 32 then 0 else if base < 64 then 1 else if base < 96 then 2 else 3;
    low := base - 32 * high;
  }

  lemma BaseDecodes(base: nat, released: bool, kind: MouseKind)
    requires Encodes(base, released, kind)
    ensures MouseKindOf(base, released) == Some(kind)
  {
    hide LowBits, WithoutModifiers;
    var high, low := BaseParts(base, released, kind);
    BareCode(high, low);
  }

  lemma BareCode(high: nat, low: nat)
    requires low <= 3
    ensures LowBits(32 * high + low) == low && WithoutModifiers(32 * high + low) == 32 * high + low
  {
    ByteParts(high, 0, 0, 0, low);
  }

  /** Conversely, what they find is what the code says. */
  lemma DecodedIsEncoded(code: nat, released: bool)
    requires code <= U8_MAX && MouseKindOf(code, released).Some?
    ensures Encodes(WithoutModifiers(code), released, MouseKindOf(code, released).value)
    ensures ModifiersOf(code) <= REPORTED && WithoutModifiers(code) + ModifierBits(ModifiersOf(code)) == code
  {
    CodeParts(code);
    KindIsEncoded(code, released);
  }

  lemma KindIsEncoded(code: nat, released: bool)
    requires MouseKindOf(code, released).Some?
    ensures Encodes(WithoutModifiers(code), released, MouseKindOf(code, released).value)
  {
    hide LowBits, WithoutModifiers;
    assert LowBits(code) == WithoutModifiers(code) % 4 by { SameLowBits(code); }
  }

  lemma SameLowBits(code: nat)
    ensures LowBits(code) == WithoutModifiers(code) % 4
  {
    DivMod4(8 * (code / 32), code % 4);
  }

  lemma Halve4(code: nat)
    ensures code / 4 == 2 * (code / 8) + code / 4 % 2
  {
  }

  lemma Halve8(code: nat)
    ensures code / 8 == 2 * (code / 16) + code / 8 % 2
  {
  }

  lemma Halve16(code: nat)
    ensures code / 16 == 2 * (code / 32) + code / 16 % 2
  {
  }

  lemma CodeParts(code: nat)
    ensures code == code / 32 * 32 + code / 16 % 2 * 16 + code / 8 % 2 * 8 + code / 4 % 2 * 4 + code % 4
  {
    Halve4(code);
    Halve8(code);
    Halve16(code);
    assert code == 4 * (code / 4) + code % 4;
  }

  lemma PrintedFields(p: Printed)
    requires p.Valid()
    ensures Split(p.Parameters()) == [Digits(p.Code(), p.widths.0), Digits(p.column, p.widths.1), Digits(p.row, p.widths.2)]
  {
    hide Split, Digits, Value;
    DigitsValue(p.Code(), p.widths.0);
    DigitsValue(p.column, p.widths.1);
    DigitsValue(p.row, p.widths.2);
    var a, b, c := Digits(p.Code(), p.widths.0), Digits(p.column, p.widths.1), Digits(p.row, p.widths.2);
    SplitOne(a);
    SplitAfterSeparator(a, b);
    SplitAfterSeparator(a + ";" + b, c);
    assert p.Parameters() == (a + ";" + b) + ";" + c;
  }

  /** Parsing undoes printing, for every button code, cell, padding and suffix. */
  lemma PrintedParses(p: Printed)
    requires p.Valid()
    ensures Classify(p.Text()) == Complete(p.Event())
  {
    hide Classify, Split, Digits, Value, MouseKindOf, ModifiersOf, AllDigits, Encodes, ModifierBits;
    PrintedFields(p);
    CodeDecodes(p.base, p.modifiers, p.released, p.kind);
    DigitsValue(p.Code(), p.widths.0);
    DigitsValue(p.column, p.widths.1);
    DigitsValue(p.row, p.widths.2);
    ClosedText(p.Parameters(), p.released);
  }

  /** Printing undoes parsing: every accepted text is the print of exactly what it decodes to. */
  lemma AcceptedIsPrinted(report: string) returns (p: Printed)
    requires Classify(report).Complete?
    ensures p.Valid() && report == p.Text() && Classify(report).mouse == p.Event()
  {
    hide Split, Digits, Value, MouseKindOf, ModifiersOf, AllDigits, Join;
    var body := report[2..];
    var parameters := body[..|body| - 1];
    var fields, released := Split(parameters), EndsWith(body, 'm');
    FieldsArePrinted(fields, released);
    p := PrintOf(fields, released);
    JoinSplit(parameters);
    assert body == parameters + [body[|body| - 1]];
    assert report == "[<" + body;
  }

  function PrintOf(fields: seq<string>, released: bool): Printed
    requires CompleteFields(fields, released)
  {
    var code := Value(fields[0]);
    Printed(MouseKindOf(code, released).value, ModifiersOf(code), WithoutModifiers(code), Value(fields[1]), Value(fields[2]),
            (|fields[0]|, |fields[1]|, |fields[2]|), released)
  }

  lemma FieldsArePrinted(fields: seq<string>, released: bool)
    requires CompleteFields(fields, released)
    ensures PrintOf(fields, released).Valid() && PrintOf(fields, released).Parameters() == Join(fields)
  {
    hide Digits, Value, MouseKindOf, AllDigits, Pow10, Encodes, ModifierBits, ModifiersOf, WithoutModifiers;
    DecodedIsEncoded(Value(fields[0]), released);
    ValueDigits(fields[0]);
    ValueDigits(fields[1]);
    ValueDigits(fields[2]);
    assert fields[..2][..1] == [fields[0]];
    assert Join(fields) == Join(fields[..2]) + ";" + fields[2];
    assert Join(fields[..2]) == fields[0] + ";" + fields[1];
  }

  /** The accepted language, stated with no reference to the parser's structure. */
  lemma AcceptedIffPrinted(report: string)
    ensures Classify(report).Complete? <==> exists p: Printed :: p.Valid() && p.Text() == report
  {
    if Classify(report).Complete? {
      var p := AcceptedIsPrinted(report);
      assert p.Valid() && p.Text() == report;
    }
    if p: Printed :| p.Valid() && p.Text() == report {
      PrintedParses(p);
    }
  }

  // ---------------------------------------------------------------- prefixes

  /** Waited for, and with a button that fits even when a later field is still empty. */
  predicate Completable(fields: seq<string>) {
    PartialFields(fields) && (fields[0] == [] || (GoodField(fields[0]) && Value(fields[0]) <= U8_MAX))
  }

  /** A field that grew from a shorter one is good only if the shorter one is empty or good too. */
  lemma FieldCut(last: string, c: char)
    requires GoodField(last + [c])
    ensures last == [] || GoodField(last)
    ensures AllDigits(last) && Value(last) <= Value(last + [c])
  {
    var grown := last + [c];
    assert grown[..|grown| - 1] == last;
    assert forall i :: 0 <= i < |last| ==> last[i] == grown[i];
  }

  lemma CutSeparator(rest: seq<string>)
    requires rest != [] && Completable(rest + [[]])
    ensures Completable(rest)
  {
    var fields := rest + [[]];
    assert forall i :: 0 <= i < |rest| ==> fields[i] == rest[i];
  }

  lemma CutDigit(rest: seq<string>, c: char)
    requires rest != [] && Completable(rest[|rest| - 1 := rest[|rest| - 1] + [c]])
    ensures Completable(rest)
  {
    hide Value, AllDigits;
    var fields := rest[|rest| - 1 := rest[|rest| - 1] + [c]];
    assert fields[|rest| - 1] == rest[|rest| - 1] + [c];
    FieldCut(rest[|rest| - 1], c);
    assert forall i :: 0 <= i < |rest| - 1 ==> fields[i] == rest[i];
  }

  lemma CutOnce(rest: seq<string>, c: char)
    requires rest != [] && Completable(Grown(rest, c))
    ensures Completable(rest)
  {
    hide Completable;
    if c == ';' {
      CutSeparator(rest);
    } else {
      CutDigit(rest, c);
    }
  }

  lemma {:induction false} Cut(text: string, length: nat)
    requires Completable(Split(text)) && length <= |text|
    ensures Completable(Split(text[..length]))
    decreases |text| - length
  {
    hide Split, Completable;
    if length == |text| {
      assert text[..length] == text;
    } else {
      Cut(text, length + 1);
      assert text[..length + 1] == text[..length] + [text[length]];
      SplitSnoc(text[..length], text[length]);
      CutOnce(Split(text[..length]), text[length]);
    }
  }

  /** A report cut anywhere after its first character is waited for, never replayed. */
  lemma PrefixesWait(report: string, length: nat)
    requires Classify(report).Complete? && 1 <= length < |report|
    ensures Classify(report[..length]) == Unfinished
  {
    hide Split, Digits, Value, MouseKindOf, ModifiersOf;
    var p := AcceptedIsPrinted(report);
    var parameters := p.Parameters();
    var body := report[2..];
    assert body[..|body| - 1] == parameters;
    if length == 1 {
      assert report[..1] == "[";
    } else {
      var cut := report[..length];
      var k := length - 2;
      assert cut[2..] == parameters[..k];
      assert "[<" <= cut;
      Cut(parameters, k);
      assert !IsClosed(parameters[..k]) by {
        DigitsValue(p.Code(), p.widths.0);
        DigitsValue(p.column, p.widths.1);
        DigitsValue(p.row, p.widths.2);
        assert forall i :: 0 <= i < |parameters| ==> IsDigit(parameters[i]) || parameters[i] == ';';
      }
    }
  }

  /** Nothing waited for is longer than nineteen characters: the lookahead bound cuts no report. */
  lemma UnfinishedIsShort(report: string)
    requires Classify(report) == Unfinished
    ensures 1 <= |report| <= 19
  {
    if report != "[" {
      var body := report[2..];
      JoinSplit(body);
      JoinLength(Split(body));
    }
  }
}
