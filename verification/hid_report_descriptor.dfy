/** The joystick's HID report descriptor `desc_hid_report`, kept as the list of
    short items the `HID_*` macros emit, and an interpreter that turns items
    into the input fields a host parser sees (section 6.2.2 of the Device Class
    Definition for HID 1.11). */
module HidReportDescriptor {
  import opened CTypes

  /** bSize of a short item: 0, 1, 2 or 4 data bytes. */
  datatype DataSize = Size0 | Size1 | Size2 | Size4

  /** The number of values `size` data bytes can hold. */
  function Modulus(size: DataSize): (m: nat)
    ensures m >= 1
  {
    match size
    case Size0 => 1
    case Size1 => 0x100
    case Size2 => 0x1_0000
    case Size4 => 0x1_0000_0000
  }

  /** Logical Minimum and Maximum data is a two's-complement number of the
      item's data size (section 6.2.2.7). */
  function SignedValue(data: nat, size: DataSize): (v: int)
    requires data < Modulus(size)
    ensures size == Size0 || -(Modulus(size) as int) / 2 <= v < (Modulus(size) as int) / 2
    ensures (v - data) % Modulus(size) == 0
  {
    if size != Size0 && data >= Modulus(size) / 2 then data - Modulus(size) else data
  }

  /** Short items: main (Input, Collection, End Collection), global (Usage
      Page, Logical Minimum/Maximum, Report Size/ID/Count) and local (Usage,
      Usage Minimum/Maximum). */
  datatype Item =
    | Input(flags: nat)
    | Collection(kind: nat)
    | EndCollection
    | UsagePage(page: nat)
    | LogicalMinimum(data: nat, size: DataSize)
    | LogicalMaximum(data: nat, size: DataSize)
    | ReportSize(bits: nat)
    | ReportId(id: nat)
    | ReportCount(count: nat)
    | Usage(id: nat)
    | UsageMinimum(id: nat)
    | UsageMaximum(id: nat)

  /** An extended usage: usage page and usage ID. */
  datatype UsageRef = UsageRef(page: nat, id: nat)

  /** The global item state table (section 6.2.2.7). */
  datatype Globals = Globals(usagePage: nat, logicalMin: int, logicalMax: int,
                             reportSize: nat, reportId: nat, reportCount: nat)

  /** The local item state table (section 6.2.2.8); cleared by every main item. */
  datatype Locals = Locals(usages: seq<UsageRef>, usageMin: Option<UsageRef>, usageMax: Option<UsageRef>)

  /** One field of an input report, as an Input item declares it. */
  datatype InputField = InputField(reportId: nat, usages: seq<UsageRef>, count: nat, size: nat,
                                   logicalMin: int, logicalMax: int, flags: nat)

  datatype ParserState = ParserState(globals: Globals, locals: Locals, depth: nat, fields: seq<InputField>)

  datatype ParseError = UnbalancedEnd | UnclosedCollection | BadUsageRange | DataTooWide

  const NO_LOCALS: Locals := Locals([], None, None)

  const INITIAL: ParserState := ParserState(Globals(0, 0, 0, 0, 0, 0), NO_LOCALS, 0, [])

  /** Usages `lo` to `hi` of one page, as Usage Minimum/Maximum declare them. */
  function UsageRange(page: nat, lo: nat, hi: nat): (us: seq<UsageRef>)
    requires lo <= hi
    ensures |us| == hi - lo + 1
    ensures forall k :: 0 <= k < |us| ==> us[k] == UsageRef(page, lo + k)
  {
    seq(hi - lo + 1, i requires 0 <= i => UsageRef(page, lo + i))
  }

  /** The usages a main item consumes: the listed ones, then the range. */
  function LocalUsages(l: Locals): Result<seq<UsageRef>, ParseError> {
    match (l.usageMin, l.usageMax)
    case (None, None) => Ok(l.usages)
    case (Some(lo), Some(hi)) =>
      if lo.page != hi.page || hi.id < lo.id then Err(BadUsageRange)
      else Ok(l.usages + UsageRange(lo.page, lo.id, hi.id))
    case _ => Err(BadUsageRange)
  }

  /** The effect of one item on the parser state. */
  function Step(st: ParserState, item: Item): (r: Result<ParserState, ParseError>)
    ensures r.Ok? && item.Input? ==>
              |r.value.fields| == |st.fields| + 1 && r.value.fields[..|st.fields|] == st.fields
              && r.value.fields[|st.fields|].count == st.globals.reportCount
              && r.value.fields[|st.fields|].size == st.globals.reportSize
              && r.value.fields[|st.fields|].reportId == st.globals.reportId
    ensures r.Ok? && !item.Input? ==> r.value.fields == st.fields
    ensures r.Ok? && (item.Input? || item.Collection? || item.EndCollection?) ==> r.value.locals == NO_LOCALS
  {
    var g := st.globals;
    var l := st.locals;
    match item
    case Input(flags) =>
      (match LocalUsages(l)
       case Err(e) => Err(e)
       case Ok(us) =>
         var f := InputField(g.reportId, us, g.reportCount, g.reportSize, g.logicalMin, g.logicalMax, flags);
         Ok(st.(locals := NO_LOCALS, fields := st.fields + [f])))
    case Collection(_) => Ok(st.(locals := NO_LOCALS, depth := st.depth + 1))
    case EndCollection =>
      if st.depth == 0 then Err(UnbalancedEnd) else Ok(st.(locals := NO_LOCALS, depth := st.depth - 1))
    case UsagePage(p) => Ok(st.(globals := g.(usagePage := p)))
    case LogicalMinimum(d, sz) =>
      if d >= Modulus(sz) then Err(DataTooWide) else Ok(st.(globals := g.(logicalMin := SignedValue(d, sz))))
    case LogicalMaximum(d, sz) =>
      if d >= Modulus(sz) then Err(DataTooWide) else Ok(st.(globals := g.(logicalMax := SignedValue(d, sz))))
    case ReportSize(b) => Ok(st.(globals := g.(reportSize := b)))
    case ReportId(id) => Ok(st.(globals := g.(reportId := id)))
    case ReportCount(c) => Ok(st.(globals := g.(reportCount := c)))
    case Usage(u) => Ok(st.(locals := l.(usages := l.usages + [UsageRef(g.usagePage, u)])))
    case UsageMinimum(u) => Ok(st.(locals := l.(usageMin := Some(UsageRef(g.usagePage, u)))))
    case UsageMaximum(u) => Ok(st.(locals := l.(usageMax := Some(UsageRef(g.usagePage, u)))))
  }

  /** The number of Input main items in a list. */
  function CountInputs(items: seq<Item>): nat {
    if |items| == 0 then 0 else (if items[0].Input? then 1 else 0) + CountInputs(items[1..])
  }

  /** Runs the items in order, stopping at the first error. Fields are only
      ever appended, one per Input item. */
  function Run(items: seq<Item>, st: ParserState): (r: Result<ParserState, ParseError>)
    ensures r.Ok? ==> |r.value.fields| == |st.fields| + CountInputs(items)
    ensures r.Ok? ==> r.value.fields[..|st.fields|] == st.fields
    decreases |items|
  {
    if |items| == 0 then Ok(st)
    else if Step(st, items[0]).Err? then Step(st, items[0])
    else Run(items[1..], Step(st, items[0]).value)
  }

  /** Running a concatenation is running its parts in turn. */
  lemma {:induction false} RunAppend(a: seq<Item>, b: seq<Item>, st: ParserState)
    ensures Run(a + b, st) == (match Run(a, st) case Err(e) => Err(e) case Ok(mid) => Run(b, mid))
    decreases |a|
  {
    if |a| == 0 {
      assert a + b == b;
    } else {
      assert (a + b)[0] == a[0];
      assert (a + b)[1..] == a[1..] + b;
      match Step(st, a[0])
      case Err(e) =>
      case Ok(next) => RunAppend(a[1..], b, next);
    }
  }

  /** The input fields of a whole report descriptor; every collection must be
      closed. */
  function Parse(items: seq<Item>): (r: Result<seq<InputField>, ParseError>)
    ensures r.Ok? ==> |r.value| == CountInputs(items)
  {
    match Run(items, INITIAL)
    case Err(e) => Err(e)
    case Ok(st) => if st.depth != 0 then Err(UnclosedCollection) else Ok(st.fields)
  }

  // Usage pages and usages of the HID Usage Tables, and main item data bits.
  const PAGE_GENERIC_DESKTOP: nat := 0x01
  const PAGE_BUTTON: nat := 0x09
  const USAGE_JOYSTICK: nat := 0x04
  const USAGE_X: nat := 0x30
  const USAGE_Y: nat := 0x31
  const USAGE_Z: nat := 0x32
  const USAGE_SLIDER: nat := 0x36
  const COLLECTION_APPLICATION: nat := 0x01
  /** `HID_DATA | HID_VARIABLE | HID_ABSOLUTE`: only bit 1 (Variable) is set. */
  const DATA_VARIABLE_ABSOLUTE: nat := 0x02

  const JOYSTICK_REPORT_ID: nat := 1

  const HEADER_ITEMS: seq<Item> :=
    [UsagePage(PAGE_GENERIC_DESKTOP), Usage(USAGE_JOYSTICK), Collection(COLLECTION_APPLICATION),
     ReportId(JOYSTICK_REPORT_ID)]

  const BUTTON_ITEMS: seq<Item> :=
    [UsagePage(PAGE_BUTTON), UsageMinimum(1), UsageMaximum(32),
     LogicalMinimum(0, Size1), LogicalMaximum(1, Size1),
     ReportCount(32), ReportSize(1), Input(DATA_VARIABLE_ABSOLUTE)]

  const AXIS_ITEMS: seq<Item> :=
    [UsagePage(PAGE_GENERIC_DESKTOP), LogicalMinimum(0x8001, Size2), LogicalMaximum(0x7fff, Size2),
     Usage(USAGE_X), Usage(USAGE_Y), Usage(USAGE_Z), Usage(USAGE_SLIDER),
     ReportCount(4), ReportSize(16), Input(DATA_VARIABLE_ABSOLUTE)]

  /** `desc_hid_report`. */
  const DESC_HID_REPORT: seq<Item> := HEADER_ITEMS + BUTTON_ITEMS + AXIS_ITEMS + [EndCollection]

  /** 32 one-bit buttons, Button usages 1 to 32, logical range 0..1. */
  const BUTTON_FIELD: InputField :=
    InputField(JOYSTICK_REPORT_ID, UsageRange(PAGE_BUTTON, 1, 32), 32, 1, 0, 1, DATA_VARIABLE_ABSOLUTE)

  /** Four 16-bit axes X, Y, Z and Slider, logical range -32767..32767. */
  const AXIS_FIELD: InputField :=
    InputField(JOYSTICK_REPORT_ID,
               [UsageRef(PAGE_GENERIC_DESKTOP, USAGE_X), UsageRef(PAGE_GENERIC_DESKTOP, USAGE_Y),
                UsageRef(PAGE_GENERIC_DESKTOP, USAGE_Z), UsageRef(PAGE_GENERIC_DESKTOP, USAGE_SLIDER)],
               4, 16, -32767, 32767, DATA_VARIABLE_ABSOLUTE)

  /** `sts[i + 1]` is the state after item `i`, started from `sts[0]`. */
  predicate StepsTo(items: seq<Item>, sts: seq<ParserState>) {
    |sts| == |items| + 1 && forall i :: 0 <= i < |items| ==> Step(sts[i], items[i]) == Ok(sts[i + 1])
  }

  /** A chain of successful steps is a successful run. */
  lemma {:induction false} RunSteps(items: seq<Item>, sts: seq<ParserState>)
    requires StepsTo(items, sts)
    ensures Run(items, sts[0]) == Ok(sts[|items|])
    decreases |items|
  {
    if |items| > 0 {
      assert StepsTo(items[1..], sts[1..]) by {
        forall i | 0 <= i < |items| - 1
          ensures Step(sts[1..][i], items[1..][i]) == Ok(sts[1..][i + 1])
        {
          assert Step(sts[i + 1], items[i + 1]) == Ok(sts[i + 2]);
        }
      }
      RunSteps(items[1..], sts[1..]);
    }
  }

  /** The parser states the header items pass through. */
  function HeaderStates(): seq<ParserState> {
    var g := Globals(PAGE_GENERIC_DESKTOP, 0, 0, 0, 0, 0);
    [INITIAL,
     ParserState(g, NO_LOCALS, 0, []),
     ParserState(g, Locals([UsageRef(PAGE_GENERIC_DESKTOP, USAGE_JOYSTICK)], None, None), 0, []),
     ParserState(g, NO_LOCALS, 1, []),
     ParserState(g.(reportId := JOYSTICK_REPORT_ID), NO_LOCALS, 1, [])]
  }

  lemma HeaderStep(i: nat)
    requires i < |HEADER_ITEMS|
    ensures Step(HeaderStates()[i], HEADER_ITEMS[i]) == Ok(HeaderStates()[i + 1])
  {
    if i == 1 {
      assert [] + [UsageRef(PAGE_GENERIC_DESKTOP, USAGE_JOYSTICK)] == [UsageRef(PAGE_GENERIC_DESKTOP, USAGE_JOYSTICK)];
    }
  }

  /** The collection header opens one application collection and selects
      report ID 1. */
  lemma HeaderBlock()
    ensures Run(HEADER_ITEMS, INITIAL) ==
            Ok(ParserState(Globals(PAGE_GENERIC_DESKTOP, 0, 0, 0, JOYSTICK_REPORT_ID, 0), NO_LOCALS, 1, []))
  {
    forall i | 0 <= i < |HEADER_ITEMS| {
      HeaderStep(i);
    }
    RunSteps(HEADER_ITEMS, HeaderStates());
    assert HeaderStates()[0] == INITIAL;
    assert |HEADER_ITEMS| == 4;
    assert Run(HEADER_ITEMS, INITIAL) == Ok(HeaderStates()[4]);
  }

  /** The parser states the button items pass through from `st`. */
  function ButtonStates(st: ParserState): seq<ParserState> {
    var lo := Some(UsageRef(PAGE_BUTTON, 1));
    var hi := Some(UsageRef(PAGE_BUTTON, 32));
    var g1 := st.globals.(usagePage := PAGE_BUTTON);
    var g4 := g1.(logicalMin := 0);
    var g5 := g4.(logicalMax := 1);
    var g6 := g5.(reportCount := 32);
    var g7 := g6.(reportSize := 1);
    var ranged := st.(locals := Locals([], lo, hi));
    [st,
     st.(globals := g1),
     st.(globals := g1, locals := Locals([], lo, None)),
     ranged.(globals := g1),
     ranged.(globals := g4),
     ranged.(globals := g5),
     ranged.(globals := g6),
     ranged.(globals := g7),
     st.(globals := g7, fields := st.fields + [BUTTON_FIELD.(reportId := st.globals.reportId)])]
  }

  lemma ButtonStep(st: ParserState, i: nat)
    requires st.locals == NO_LOCALS && i < |BUTTON_ITEMS|
    ensures Step(ButtonStates(st)[i], BUTTON_ITEMS[i]) == Ok(ButtonStates(st)[i + 1])
  {
    if i == 7 {
      assert [] + UsageRange(PAGE_BUTTON, 1, 32) == BUTTON_FIELD.usages;
    }
  }

  /** The button items append the button field. */
  lemma ButtonBlock(st: ParserState)
    requires st.locals == NO_LOCALS
    ensures Run(BUTTON_ITEMS, st) ==
            Ok(st.(globals := st.globals.(usagePage := PAGE_BUTTON, logicalMin := 0, logicalMax := 1,
                                          reportCount := 32, reportSize := 1),
                   fields := st.fields + [BUTTON_FIELD.(reportId := st.globals.reportId)]))
  {
    forall i | 0 <= i < |BUTTON_ITEMS| {
      ButtonStep(st, i);
    }
    RunSteps(BUTTON_ITEMS, ButtonStates(st));
  }

  /** The parser states the axis items pass through from `st`. */
  function AxisStates(st: ParserState): seq<ParserState> {
    var x := UsageRef(PAGE_GENERIC_DESKTOP, USAGE_X);
    var y := UsageRef(PAGE_GENERIC_DESKTOP, USAGE_Y);
    var z := UsageRef(PAGE_GENERIC_DESKTOP, USAGE_Z);
    var g1 := st.globals.(usagePage := PAGE_GENERIC_DESKTOP);
    var g2 := g1.(logicalMin := -32767);
    var g3 := g2.(logicalMax := 32767);
    var g8 := g3.(reportCount := 4);
    var g9 := g8.(reportSize := 16);
    var listed := st.(locals := Locals(AXIS_FIELD.usages, None, None));
    [st,
     st.(globals := g1),
     st.(globals := g2),
     st.(globals := g3),
     st.(globals := g3, locals := Locals([x], None, None)),
     st.(globals := g3, locals := Locals([x, y], None, None)),
     st.(globals := g3, locals := Locals([x, y, z], None, None)),
     listed.(globals := g3),
     listed.(globals := g8),
     listed.(globals := g9),
     st.(globals := g9, fields := st.fields + [AXIS_FIELD.(reportId := st.globals.reportId)])]
  }

  lemma AxisStep(st: ParserState, i: nat)
    requires st.locals == NO_LOCALS && i < |AXIS_ITEMS|
    ensures Step(AxisStates(st)[i], AXIS_ITEMS[i]) == Ok(AxisStates(st)[i + 1])
  {
    if i < 3 {
    } else if i < 7 {
      var us := AXIS_FIELD.usages;
      if i == 3 {
        assert st.locals.usages + [us[0]] == [us[0]];
      } else if i == 4 {
        assert [us[0]] + [us[1]] == [us[0], us[1]];
      } else if i == 5 {
        assert [us[0], us[1]] + [us[2]] == [us[0], us[1], us[2]];
      } else {
        assert [us[0], us[1], us[2]] + [us[3]] == us;
      }
    } else if i < 9 {
    } else {
      var g := AxisStates(st)[9].globals;
      assert InputField(g.reportId, AXIS_FIELD.usages, g.reportCount, g.reportSize, g.logicalMin, g.logicalMax,
                        DATA_VARIABLE_ABSOLUTE) == AXIS_FIELD.(reportId := st.globals.reportId);
    }
  }

  /** The axis items append the axis field. */
  lemma AxisBlock(st: ParserState)
    requires st.locals == NO_LOCALS
    ensures Run(AXIS_ITEMS, st) ==
            Ok(st.(globals := st.globals.(usagePage := PAGE_GENERIC_DESKTOP, logicalMin := -32767,
                                          logicalMax := 32767, reportCount := 4, reportSize := 16),
                   fields := st.fields + [AXIS_FIELD.(reportId := st.globals.reportId)]))
  {
    forall i | 0 <= i < |AXIS_ITEMS| {
      AxisStep(st, i);
    }
    RunSteps(AXIS_ITEMS, AxisStates(st));
    assert AxisStates(st)[0] == st;
    assert |AXIS_ITEMS| == 10;
    assert Run(AXIS_ITEMS, st) == Ok(AxisStates(st)[10]);
  }

  /** The descriptor declares exactly the button field and the axis field, in
      that order, inside one closed application collection. */
  lemma ReportDescriptorFields()
    ensures Parse(DESC_HID_REPORT) == Ok([BUTTON_FIELD, AXIS_FIELD])
  {
    HeaderBlock();
    var s1 := ParserState(Globals(PAGE_GENERIC_DESKTOP, 0, 0, 0, JOYSTICK_REPORT_ID, 0), NO_LOCALS, 1, []);
    ButtonBlock(s1);
    var s2 := Run(BUTTON_ITEMS, s1).value;
    AxisBlock(s2);
    var s3 := Run(AXIS_ITEMS, s2).value;
    assert s3.fields == [BUTTON_FIELD, AXIS_FIELD];
    var s4 := s3.(depth := 0);
    assert Step(s3, EndCollection) == Ok(s4);
    RunSteps([EndCollection], [s3, s4]);
    RunAppend(HEADER_ITEMS, BUTTON_ITEMS, INITIAL);
    RunAppend(HEADER_ITEMS + BUTTON_ITEMS, AXIS_ITEMS, INITIAL);
    RunAppend(HEADER_ITEMS + BUTTON_ITEMS + AXIS_ITEMS, [EndCollection], INITIAL);
  }
}
