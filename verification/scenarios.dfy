/** Worked examples of the engine: one stated on the outcomes of the orders,
    and the same example worked through the whole engine with a date parser
    that knows the example's few timestamps. */
module Scenarios {
  import opened Optional
  import opened Strings
  import opened Records
  import opened TimeNormalizer
  import opened DateTimeParser
  import opened OrderFilter
  import opened ShiftHours
  import opened ShiftMatching
  import opened StringOrder
  import opened Ledger
  import opened ResultAggregator
  import opened TipDistributor

  /** The detail of a ten-unit order shared by Alice and Bob. */
  function TenForAliceAndBob(round2: Rounder): TipDetail {
    TipDetail("N/A", 10.0, round2(5.0), [Some("Alice"), Some("Bob")])
  }

  /** One ten-unit order on duty for Alice and Bob: each is owed five, Alice
      sorts before Bob, and each carries the one shared detail. */
  lemma AliceAndBobSplitTen(round2: Rounder, hours: map<string, real>)
    ensures var d := TenForAliceAndBob(round2);
      var ps := Aggregate(round2, hours, Run([Allocated(d, 0)]).accounts);
      && |ps| == 2
      && ps[0].employeeName == "Alice" && ps[1].employeeName == "Bob"
      && ps[0].totalAmount == round2(5.0) && ps[1].totalAmount == round2(5.0)
      && ps[0].tips == [d] && ps[1].tips == [d]
  {
    var d := TenForAliceAndBob(round2);
    AliceAndBobLedger(round2);
    assert Less("Alice", "Bob") by {
      assert "Alice"[0] < "Bob"[0];
    }
    AggregateTwo(round2, hours, Account("Alice", 0.0 + 5.0, [d]), Account("Bob", 0.0 + 5.0, [d]));
  }

  /** The ledger after that order: Alice then Bob, five each. */
  lemma AliceAndBobLedger(round2: Rounder)
    ensures var d := TenForAliceAndBob(round2);
      Run([Allocated(d, 0)]).accounts == [Account("Alice", 0.0 + 5.0, [d]), Account("Bob", 0.0 + 5.0, [d])]
  {
    var d := TenForAliceAndBob(round2);
    var os := [Allocated(d, 0)];
    assert Share(d) == 5.0;
    assert os[..0] == [];
    assert Run(os) == Step(os[0], Tally([], 0, 0));
    CreditTwoNewcomers("Alice", "Bob", 5.0, d);
  }

  /** Crediting two distinct names into an empty ledger opens their accounts
      in slot order, one share each. */
  lemma CreditTwoNewcomers(a: string, b: string, share: real, d: TipDetail)
    requires a != "" && b != "" && a != b
    ensures CreditAll([], [Some(a), Some(b)], share, d)
         == [Account(a, 0.0 + share, [d]), Account(b, 0.0 + share, [d])]
  {
    var names := [Some(a), Some(b)];
    CreditOneNewcomer(a, share, d);
    assert names[..|names| - 1] == [Some(a)];
    assert CreditAll([], names, share, d) == Credit([Account(a, 0.0 + share, [d])], b, share, d);
    CreditNewcomer([Account(a, 0.0 + share, [d])], b, share, d);
  }

  /** Crediting one name into an empty ledger opens its account. */
  lemma CreditOneNewcomer(a: string, share: real, d: TipDetail)
    requires a != ""
    ensures CreditAll([], [Some(a)], share, d) == [Account(a, 0.0 + share, [d])]
  {
    var names := [Some(a)];
    assert names[..0] == [];
    assert CreditAll([], names, share, d) == Credit([], a, share, d);
    CreditNewcomer([], a, share, d);
  }

  /** A name without an account gets a new one at the end. */
  lemma CreditNewcomer(l: Accounts, name: string, share: real, d: TipDetail)
    requires DistinctNames(l) && name !in Names(l)
    ensures Credit(l, name, share, d) == l + [Account(name, 0.0 + share, [d])]
  {
  }

  /** Two accounts already in name order come out in that order. */
  lemma AggregateTwo(round2: Rounder, hours: map<string, real>, a: Account, b: Account)
    requires a.name != b.name && Less(a.name, b.name)
    ensures var ps := Aggregate(round2, hours, [a, b]);
      ps == [ToPayout(round2, hours, a), ToPayout(round2, hours, b)]
  {
    var ps := Aggregate(round2, hours, [a, b]);
    var pa := ToPayout(round2, hours, a);
    var pb := ToPayout(round2, hours, b);
    assert [a, b][0] == a && [a, b][1] == b;
    assert ps[0] in ps && ps[1] in ps;
    assert ps[0] == pa || ps[0] == pb;
    assert ps[1] == pa || ps[1] == pb;
    assert Less(ps[0].employeeName, ps[1].employeeName);
    LessIrreflexive(a.name);
    LessIrreflexive(b.name);
    LessAsymmetric(a.name, b.name);
  }

  /** A clock reading on the example's day, in milliseconds since midnight. */
  function At(h: nat, m: nat): Instant {
    (h * 60 + m) * MillisPerMinute
  }

  /** The one pattern under which the example's timestamps parse. */
  const ExampleFormat: string := "MM/dd/yyyy h:mm a"

  /** A date parser that agrees with date-fns on the example's day: it reads
      `01/01/2024 hh:mm AM` and `01/01/2024 hh:mm PM` under
      `MM/dd/yyyy h:mm a` only (the `yy` and `HH:mm` patterns leave input
      unconsumed), and nothing else. */
  function ExampleParse(format: string, input: string): Option<Instant> {
    if format == ExampleFormat && |input| == 19 && input[..11] == Day + " " then ClockReading(input[11..])
    else None
  }

  predicate IsDigit(c: char) {
    '0' <= c <= '9'
  }

  /** The value of two decimal digits. */
  function TwoDigits(tens: char, units: char): nat
    requires IsDigit(tens) && IsDigit(units)
  {
    (tens as int - '0' as int) * 10 + (units as int - '0' as int)
  }

  /** `hh:mm AM` or `hh:mm PM` on the twelve-hour clock, as `h:mm a` reads
      it: 12 AM is midnight and 12 PM is noon. */
  function ClockReading(t: string): Option<Instant> {
    if |t| != 8 || t[2] != ':' || t[5] != ' ' || t[7] != 'M' || !(t[6] == 'A' || t[6] == 'P') then None
    else if !(IsDigit(t[0]) && IsDigit(t[1]) && IsDigit(t[3]) && IsDigit(t[4])) then None
    else
      var h := TwoDigits(t[0], t[1]);
      var m := TwoDigits(t[3], t[4]);
      if h < 1 || 12 < h || 59 < m then None
      else Some(At(h % 12 + (if t[6] == 'P' then 12 else 0), m))
  }

  /** The runtime of the example: `parseFloat` knows the one tip cell. */
  function ExampleEnv(round2: Rounder): Env {
    Env(ExampleParse, s => if s == "10.00" then Some(10.0) else None, round2)
  }

  const ExampleMappings: Mappings := Mappings(
    OrderColumns("id", "date", "time", "tipAmount"),
    TimesheetColumns("employee", "clockInDate", "clockInTime", "clockOutTime"))

  const Day: string := "01/01/2024"

  /** The order: 10.00 at noon, without an id. */
  const NoonOrder: Record := map["date" := Day, "time" := "12:00 PM", "tipAmount" := "10.00"]

  function ExampleShift(name: string, clockIn: string, clockOut: string): Record {
    map["employee" := name, "clockInDate" := Day, "clockInTime" := clockIn, "clockOutTime" := clockOut]
  }

  const AliceShift: Record := ExampleShift("Alice", "11:00 AM", "01:00 PM")
  const BobShift: Record := ExampleShift("Bob", "11:30 AM", "12:30 PM")

  /** A clock time of the example, which the parser reads as `v`. */
  predicate ExampleTime(time: string, v: Instant) {
    ClockShape(time) && ClockReading(time) == Some(v)
  }

  /** Eight characters, a digit first and `M` last. */
  predicate ClockShape(time: string) {
    |time| == 8 && IsDigit(time[0]) && time[7] == 'M'
  }

  /** The five clock times of the example. */
  lemma ExampleTimes()
    ensures ExampleTime("11:00 AM", At(11, 0))
    ensures ExampleTime("11:30 AM", At(11, 30))
    ensures ExampleTime("12:00 PM", At(12, 0))
    ensures ExampleTime("12:30 PM", At(12, 30))
    ensures ExampleTime("01:00 PM", At(13, 0))
  {
  }

  /** Each example time, joined to the day, parses to its instant. */
  lemma DatedExampleTime(time: string, v: Instant)
    requires ExampleTime(time, v)
    ensures ParseDateTime(ExampleParse, Some(Day), Some(time)) == Some(v)
  {
    JoinedExampleTime(time);
    OnlyExampleFormatParses(Day + " " + time);
    var input := Day + " " + time;
    assert input[..11] == Day + " " && input[11..] == time;
    EarliestFormatWins(ExampleParse, Day, Some(time), 3);
  }

  /** The join of the day and an example time needs no trimming. */
  lemma JoinedExampleTime(time: string)
    requires ClockShape(time)
    ensures Combine(Day, Some(time)) == Day + " " + time
  {
    var input := Day + " " + time;
    assert input[0] == '0' && input[|input| - 1] == 'M';
    TrimOfTrimmed(input);
  }

  /** The patterns before `MM/dd/yyyy h:mm a` read nothing. */
  lemma OnlyExampleFormatParses(input: string)
    ensures forall j :: 0 <= j < 3 ==> ExampleParse(Formats[j], input).None?
    ensures Formats[3] == ExampleFormat
  {
  }

  /** An example time on its own, without the day, parses under no pattern. */
  lemma BareExampleTime(time: string, v: Instant)
    requires ExampleTime(time, v)
    ensures ParseDateTime(ExampleParse, Some(time), None) == None
  {
    BareExampleTimeNeedsNoTrim(time);
    forall i | 0 <= i < |Formats|
      ensures ExampleParse(Formats[i], time).None?
    {
    }
  }

  /** `${time} `.trim() gives the time back. */
  lemma BareExampleTimeNeedsNoTrim(time: string)
    requires ClockShape(time)
    ensures Combine(time, None) == time
  {
    TrimIgnoresTrailingSpace(time);
    assert time + " " + "" == time + " ";
    TrimOfTrimmed(time);
  }

  /** The example times are already in long form. */
  lemma ExampleTimeNormal(time: string, v: Instant)
    requires ExampleTime(time, v)
    ensures NormalizeTimeStr(Some(time)) == Some(time)
  {
    ExampleTimeEndsInM(time);
    MeridiemUnchanged(time);
  }

  /** Trimmed and lower-cased, an example time ends in `m`. */
  lemma ExampleTimeEndsInM(time: string)
    requires ClockShape(time)
    ensures EndsWith(Canonical(time), 'm')
  {
    TrimOfTrimmed(time);
    var t := Trim(time);
    var c := Lower(t);
    assert t[|t| - 1] == 'M';
    assert c[|c| - 1] == LowerChar(t[|t| - 1]);
  }

  /** The matching loop resolves each example time against the day. */
  lemma ResolveExampleTime(time: string, v: Instant)
    requires ExampleTime(time, v)
    ensures ResolveClock(ExampleParse, Some(Day), Some(time)) == Some(v)
    ensures DatedClockOf(time) == Some(v)
  {
    ExampleTimeNormal(time, v);
    BareExampleTime(time, v);
    DatedExampleTime(time, v);
  }

  /** What the hours pass reads for a clock time of the day. */
  function DatedClockOf(time: string): Option<Instant> {
    ParseDateTime(ExampleParse, Some(Day), NormalizeTimeStr(Some(time)))
  }

  /** The cells of an example shift. */
  lemma ExampleShiftCells(name: string, clockIn: string, clockOut: string)
    ensures var tm := ExampleMappings.timesheet;
      var shift := ExampleShift(name, clockIn, clockOut);
      && Get(shift, tm.employeeName) == Some(name)
      && Get(shift, tm.clockInDate) == Some(Day)
      && Get(shift, tm.clockInTime) == Some(clockIn)
      && Get(shift, tm.clockOutTime) == Some(clockOut)
  {
  }

  /** An example shift resolves to the window of its two clock times. */
  lemma ExampleShiftWindow(name: string, clockIn: string, vIn: Instant, clockOut: string, vOut: Instant)
    requires ExampleTime(clockIn, vIn) && ExampleTime(clockOut, vOut)
    ensures ShiftWindow(ExampleParse, ExampleMappings.timesheet, ExampleShift(name, clockIn, clockOut))
         == Some(Window(vIn, vOut))
  {
    ExampleShiftCells(name, clockIn, clockOut);
    ResolveExampleTime(clockIn, vIn);
    ResolveExampleTime(clockOut, vOut);
  }

  /** The hours pass measures an example shift in whole minutes. */
  lemma ExampleShiftHours(name: string, clockIn: string, vIn: Instant, clockOut: string, vOut: Instant)
    requires name != "" && ExampleTime(clockIn, vIn) && ExampleTime(clockOut, vOut) && vIn < vOut
    ensures var c := ShiftContribution(ExampleParse, ExampleMappings.timesheet, ExampleShift(name, clockIn, clockOut));
      c.Some? && c.value == Contribution(name, ((vOut - vIn) / MillisPerMinute) as real / 60.0)
  {
    ExampleShiftMinutes(name, clockIn, vIn, clockOut, vOut);
    MinutesToHours(ExampleShift(name, clockIn, clockOut), name, (vOut - vIn) / MillisPerMinute);
  }

  /** A shift of `minutes` measured minutes contributes `minutes / 60` hours. */
  lemma MinutesToHours(shift: Record, name: string, minutes: nat)
    requires ShiftMinutes(ExampleParse, ExampleMappings.timesheet, shift) == Some(minutes)
    requires Get(shift, ExampleMappings.timesheet.employeeName) == Some(name)
    ensures var c := ShiftContribution(ExampleParse, ExampleMappings.timesheet, shift);
      c.Some? && c.value == Contribution(name, minutes as real / 60.0)
  {
  }

  /** The whole minutes between an example shift's clock times. */
  lemma ExampleShiftMinutes(name: string, clockIn: string, vIn: Instant, clockOut: string, vOut: Instant)
    requires name != "" && ExampleTime(clockIn, vIn) && ExampleTime(clockOut, vOut) && vIn < vOut
    ensures ShiftMinutes(ExampleParse, ExampleMappings.timesheet, ExampleShift(name, clockIn, clockOut))
         == Some((vOut - vIn) / MillisPerMinute)
    ensures Get(ExampleShift(name, clockIn, clockOut), ExampleMappings.timesheet.employeeName) == Some(name)
  {
    ExampleShiftClock(name, clockIn, vIn, clockOut, true);
    ExampleShiftClock(name, clockOut, vOut, clockIn, false);
    ExampleShiftCells(name, clockIn, clockOut);
  }

  /** The hours pass reads each clock time of an example shift as the
      matching loop does. */
  lemma ExampleShiftClock(name: string, time: string, v: Instant, other: string, isClockIn: bool)
    requires ExampleTime(time, v)
    ensures var tm := ExampleMappings.timesheet;
      var shift := if isClockIn then ExampleShift(name, time, other) else ExampleShift(name, other, time);
      DatedClock(ExampleParse, tm, shift, if isClockIn then tm.clockInTime else tm.clockOutTime) == Some(v)
  {
    if isClockIn {
      ExampleShiftCells(name, time, other);
    } else {
      ExampleShiftCells(name, other, time);
    }
    ResolveExampleTime(time, v);
  }

  /** The arithmetic of the example: the two windows contain noon, and last
      two hours and one hour. */
  lemma ExampleArithmetic()
    ensures At(11, 0) <= At(12, 0) <= At(13, 0) && At(11, 30) <= At(12, 0) <= At(12, 30)
    ensures ((At(13, 0) - At(11, 0)) / MillisPerMinute) as real / 60.0 == 2.0
    ensures ((At(12, 30) - At(11, 30)) / MillisPerMinute) as real / 60.0 == 1.0
  {
  }

  /** Alice is on duty 11:00 to 13:00 and Bob 11:30 to 12:30. */
  lemma ExampleWindows()
    ensures var ws := Windows(ExampleParse, ExampleMappings.timesheet, [AliceShift, BobShift]);
      && |ws| == 2
      && ws[0].Some? && ws[0].value == Window(At(11, 0), At(13, 0))
      && ws[1].Some? && ws[1].value == Window(At(11, 30), At(12, 30))
  {
    ExampleTimes();
    ExampleShiftWindow("Alice", "11:00 AM", At(11, 0), "01:00 PM", At(13, 0));
    ExampleShiftWindow("Bob", "11:30 AM", At(11, 30), "12:30 PM", At(12, 30));
  }

  /** Both shifts are on duty at noon, in shift order, and both resolved. */
  lemma NoonMatchesBoth(ws: seq<Option<Window>>)
    requires |ws| == 2
    requires ws[0].Some? && ws[0].value == Window(At(11, 0), At(13, 0))
    requires ws[1].Some? && ws[1].value == Window(At(11, 30), At(12, 30))
    ensures MatchedShifts(ws, At(12, 0)) == [0, 1] && UnresolvedCount(ws) == 0
  {
    ExampleArithmetic();
    BothOnDuty(ws, At(12, 0));
  }

  /** Two windows that both cover `t` match in shift order. */
  lemma BothOnDuty(ws: seq<Option<Window>>, t: Instant)
    requires |ws| == 2 && OnDuty(ws, 0, t) && OnDuty(ws, 1, t)
    ensures MatchedShifts(ws, t) == [0, 1]
  {
    var first := ws[..1];
    assert first[..0] == [] && OnDuty(first, 0, t);
    assert MatchedShifts(first, t) == [0];
  }

  /** The noon order passes the (empty) filter, its tip parses to ten, its
      timestamp to noon, and it has no id. */
  lemma NoonOrderCells(round2: Rounder)
    ensures var env := ExampleEnv(round2);
      var oc := ExampleMappings.orders;
      && !IsOrderFilteredOut(NoonOrder, [])
      && TipAmount(env, oc, NoonOrder) == Some(10.0)
      && OrderInstant(env, oc, NoonOrder) == Some(At(12, 0))
      && OrderId(oc, NoonOrder) == "N/A"
  {
    var oc := ExampleMappings.orders;
    NoRulesKeepEveryOrder(NoonOrder);
    assert Get(NoonOrder, oc.tipAmount) == Some("10.00");
    assert OrderTime(oc, NoonOrder) == Some("12:00 PM");
    assert Get(NoonOrder, oc.date) == Some(Day);
    assert oc.orderId !in NoonOrder;
    ExampleTimes();
    DatedExampleTime("12:00 PM", At(12, 0));
  }

  /** The noon order is allocated to Alice and Bob, ten units shared. */
  lemma NoonOrderAllocated(round2: Rounder)
    ensures var o := Classify(ExampleEnv(round2), ExampleMappings, [], [AliceShift, BobShift], NoonOrder);
      o.Allocated? && o.detail == TenForAliceAndBob(round2) && o.unresolved == 0
  {
    var env := ExampleEnv(round2);
    var m := ExampleMappings;
    var shifts := [AliceShift, BobShift];
    var ws := Windows(env.parse, m.timesheet, shifts);
    NoonOrderCells(round2);
    ExampleWindows();
    NoonMatchesBoth(ws);
    var working := WorkingEmployees(m.timesheet, shifts, [0, 1]);
    ExampleWorking();
    ClassifyAllocates(env, m, shifts, NoonOrder, 10.0, At(12, 0));
    HalfOfTen(round2, working);
  }

  /** An order that passes the filters, with a positive tip and a timestamp
      at which some shift is on duty, is allocated over the on-duty shifts. */
  lemma ClassifyAllocates(env: Env, m: Mappings, shifts: seq<Record>, order: Record, tip: real, t: Instant)
    requires !IsOrderFilteredOut(order, [])
    requires TipAmount(env, m.orders, order) == Some(tip) && tip > 0.0
    requires OrderInstant(env, m.orders, order) == Some(t)
    requires |MatchedShifts(Windows(env.parse, m.timesheet, shifts), t)| > 0
    ensures var ws := Windows(env.parse, m.timesheet, shifts);
      Classify(env, m, [], shifts, order)
        == Allocate(env, OrderId(m.orders, order), tip,
                    WorkingEmployees(m.timesheet, shifts, MatchedShifts(ws, t)), UnresolvedCount(ws))
  {
  }

  /** The name cells of the two shifts, in order. */
  lemma ExampleWorking()
    ensures WorkingEmployees(ExampleMappings.timesheet, [AliceShift, BobShift], [0, 1]) == [Some("Alice"), Some("Bob")]
  {
    var w := WorkingEmployees(ExampleMappings.timesheet, [AliceShift, BobShift], [0, 1]);
    ExampleShiftCells("Alice", "11:00 AM", "01:00 PM");
    ExampleShiftCells("Bob", "11:30 AM", "12:30 PM");
    assert w[0] == Some("Alice") && w[1] == Some("Bob");
  }

  /** Ten split two ways is the detail of the example. */
  lemma HalfOfTen(round2: Rounder, working: seq<Option<string>>)
    requires working == [Some("Alice"), Some("Bob")]
    ensures var o := Allocate(ExampleEnv(round2), "N/A", 10.0, working, 0);
      o.Allocated? && o.detail == TenForAliceAndBob(round2) && o.unresolved == 0
  {
    assert 10.0 / (|working| as real) == 5.0;
  }

  /** The hours pass sees Alice's shift as two hours and Bob's as one. */
  lemma ExampleContributions()
    ensures var cs := Contributions(ExampleParse, ExampleMappings.timesheet, [AliceShift, BobShift]);
      && |cs| == 2
      && cs[0].Some? && cs[0].value == Contribution("Alice", 2.0)
      && cs[1].Some? && cs[1].value == Contribution("Bob", 1.0)
  {
    ExampleArithmetic();
    ExampleTimes();
    ExampleShiftHours("Alice", "11:00 AM", At(11, 0), "01:00 PM", At(13, 0));
    ExampleShiftHours("Bob", "11:30 AM", At(11, 30), "12:30 PM", At(12, 30));
  }

  /** The hours two contributions credit to `name`. */
  lemma HoursOfPair(cs: seq<Option<Contribution>>, name: string)
    requires |cs| == 2
    ensures HoursOf(cs, name)
         == (if Credits(cs, 0, name) then cs[0].value.hours else 0.0)
          + (if Credits(cs, 1, name) then cs[1].value.hours else 0.0)
  {
    var first := cs[..1];
    assert first[..0] == [] && first[0] == cs[0];
    assert HoursOf(first, name) == 0.0 + (if Credits(first, 0, name) then first[0].value.hours else 0.0);
    assert cs[..|cs| - 1] == first;
  }

  /** The hours pass credits Alice with two hours and Bob with one. */
  lemma ExampleHours()
    ensures var hours := HoursPass(ExampleParse, ExampleMappings.timesheet, [AliceShift, BobShift]);
      "Alice" in hours && hours["Alice"] == 2.0 && "Bob" in hours && hours["Bob"] == 1.0
  {
    var tm := ExampleMappings.timesheet;
    var shifts := [AliceShift, BobShift];
    var cs := Contributions(ExampleParse, tm, shifts);
    var hours := HoursPass(ExampleParse, tm, shifts);
    ExampleContributions();
    assert Measured(ExampleParse, tm, shifts[0], "Alice");
    assert Measured(ExampleParse, tm, shifts[1], "Bob");
    PairHours(cs, "Alice", 2.0, "Bob", 1.0);
  }

  /** Two contributions for two different names credit each its own hours. */
  lemma PairHours(cs: seq<Option<Contribution>>, a: string, ha: real, b: string, hb: real)
    requires a != b && |cs| == 2
    requires cs[0].Some? && cs[0].value == Contribution(a, ha)
    requires cs[1].Some? && cs[1].value == Contribution(b, hb)
    ensures HoursOf(cs, a) == ha && HoursOf(cs, b) == hb
  {
    HoursOfPair(cs, a);
    HoursOfPair(cs, b);
  }

  /** A worked example through the whole engine: one 10.00
      order at noon, Alice on duty 11:00 to 13:00 and Bob 11:30 to 12:30. Two
      payouts come out, Alice before Bob, each owed 5 and carrying the one
      shared detail, with two and one worked hours; nothing is counted as
      unparsed. */
  lemma NoonOrderEndToEnd(round2: Rounder)
    ensures var r := CalculateTipDistribution(ExampleEnv(round2), [NoonOrder], [AliceShift, BobShift], ExampleMappings, []);
      var d := TipDetail("N/A", 10.0, round2(5.0), [Some("Alice"), Some("Bob")]);
      && |r.payouts| == 2
      && r.payouts[0] == Payout("Alice", round2(5.0), round2(2.0), [d])
      && r.payouts[1] == Payout("Bob", round2(5.0), round2(1.0), [d])
      && r.unparsedOrderCount == 0 && r.unparsedShiftCount == 0
  {
    var env := ExampleEnv(round2);
    var shifts := [AliceShift, BobShift];
    var os := Outcomes(env, ExampleMappings, [], shifts, [NoonOrder]);
    NoonOrderAllocated(round2);
    NoonTally(round2, os);
    ExampleHours();
    ExamplePayouts(round2, HoursPass(env.parse, ExampleMappings.timesheet, shifts));
  }

  /** The order loop over the one allocated outcome. */
  lemma NoonTally(round2: Rounder, os: seq<Outcome>)
    requires |os| == 1 && os[0].Allocated? && os[0].detail == TenForAliceAndBob(round2) && os[0].unresolved == 0
    ensures var d := TenForAliceAndBob(round2);
      var t := Run(os);
      && t.accounts == [Account("Alice", 0.0 + 5.0, [d]), Account("Bob", 0.0 + 5.0, [d])]
      && t.unparsedOrders == 0 && t.unparsedShiftChecks == 0
  {
    assert os == [Allocated(TenForAliceAndBob(round2), 0)];
    AliceAndBobLedger(round2);
    assert os[..0] == [];
  }

  /** The payouts of the two accounts, given Alice's two hours and Bob's one. */
  lemma ExamplePayouts(round2: Rounder, hours: map<string, real>)
    requires "Alice" in hours && hours["Alice"] == 2.0 && "Bob" in hours && hours["Bob"] == 1.0
    ensures var d := TenForAliceAndBob(round2);
      var ps := Aggregate(round2, hours, [Account("Alice", 0.0 + 5.0, [d]), Account("Bob", 0.0 + 5.0, [d])]);
      && |ps| == 2
      && ps[0] == Payout("Alice", round2(5.0), round2(2.0), [d])
      && ps[1] == Payout("Bob", round2(5.0), round2(1.0), [d])
  {
    var d := TenForAliceAndBob(round2);
    assert Less("Alice", "Bob") by {
      assert "Alice"[0] < "Bob"[0];
    }
    AggregateTwo(round2, hours, Account("Alice", 0.0 + 5.0, [d]), Account("Bob", 0.0 + 5.0, [d]));
  }
}
