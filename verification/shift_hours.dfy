/** The hours pre-pass of `calculateTipDistribution`: worked hours per
    employee, summed over the shifts that can be measured. */
module ShiftHours {
  import opened Optional
  import opened Records
  import opened TimeNormalizer
  import opened DateTimeParser

  const MillisPerMinute: int := 60000

  /** date-fns `differenceInMinutes(later, earlier)` for `later > earlier`:
      the elapsed whole minutes, the fraction truncated. */
  function WholeMinutesBetween(earlier: Instant, later: Instant): (m: nat)
    requires earlier < later
    ensures m * MillisPerMinute <= later - earlier < (m + 1) * MillisPerMinute
  {
    (later - earlier) / MillisPerMinute
  }

  /** A clock time as the hours pass reads it: the shift's date column joined
      with the normalised time from `timeColumn`. */
  function DatedClock(parse: FormatParser, tm: TimesheetColumns, shift: Record, timeColumn: string): Option<Instant> {
    ParseDateTime(parse, Get(shift, tm.clockInDate), NormalizeTimeStr(Get(shift, timeColumn)))
  }

  /** The whole minutes a shift adds to its employee, or `None` when the pass
      skips it (see `ShiftMinutesSpec`). */
  function ShiftMinutes(parse: FormatParser, tm: TimesheetColumns, shift: Record): (r: Option<nat>)
    ensures r.Some? ==> Truthy(Get(shift, tm.employeeName))
    ensures r.Some? ==>
      var clockIn := DatedClock(parse, tm, shift, tm.clockInTime);
      var clockOut := DatedClock(parse, tm, shift, tm.clockOutTime);
      clockIn.Some? && clockOut.Some? && clockIn.value < clockOut.value
  {
    if !Truthy(Get(shift, tm.employeeName)) then None
    else
      var clockIn := DatedClock(parse, tm, shift, tm.clockInTime);
      var clockOut := DatedClock(parse, tm, shift, tm.clockOutTime);
      if clockIn.Some? && clockOut.Some? && clockOut.value > clockIn.value then
        Some(WholeMinutesBetween(clockIn.value, clockOut.value))
      else None
  }

  /** A shift is measured iff it names an employee, both clock times parse
      with the date column, and clock-out is strictly after clock-in; it then
      counts the elapsed whole minutes, the fraction dropped. */
  lemma ShiftMinutesSpec(parse: FormatParser, tm: TimesheetColumns, shift: Record)
    ensures var r := ShiftMinutes(parse, tm, shift);
      var clockIn := DatedClock(parse, tm, shift, tm.clockInTime);
      var clockOut := DatedClock(parse, tm, shift, tm.clockOutTime);
      && (r.Some? <==>
          Truthy(Get(shift, tm.employeeName)) && clockIn.Some? && clockOut.Some? && clockIn.value < clockOut.value)
      && (r.Some? ==>
          r.value * MillisPerMinute <= clockOut.value - clockIn.value < (r.value + 1) * MillisPerMinute)
  {
  }

  /** What a measured shift adds to the pass: its employee and its hours. */
  datatype Contribution = Contribution(name: string, hours: real)

  /** The shift's contribution, `durationMinutes / 60` hours for its named
      employee, or `None` when the pass skips it. */
  function ShiftContribution(parse: FormatParser, tm: TimesheetColumns, shift: Record): (r: Option<Contribution>)
    ensures r.Some? <==> ShiftMinutes(parse, tm, shift).Some?
    ensures r.Some? ==> Get(shift, tm.employeeName) == Some(r.value.name) && r.value.name != ""
    ensures r.Some? ==> r.value.hours * 60.0 == ShiftMinutes(parse, tm, shift).value as real && r.value.hours >= 0.0
  {
    match ShiftMinutes(parse, tm, shift)
    case None => None
    case Some(minutes) => Some(Contribution(Get(shift, tm.employeeName).value, minutes as real / 60.0))
  }

  /** Entry `i` credits employee `name`. */
  predicate Credits(cs: seq<Option<Contribution>>, i: int, name: string)
    requires 0 <= i < |cs|
  {
    cs[i].Some? && cs[i].value.name == name
  }

  /** Reference definition: the hours credited to `name` by `cs`. */
  function HoursOf(cs: seq<Option<Contribution>>, name: string): real {
    if |cs| == 0 then 0.0
    else
      HoursOf(cs[..|cs| - 1], name)
        + (if Credits(cs, |cs| - 1, name) then cs[|cs| - 1].value.hours else 0.0)
  }

  /** `employeeHours[name] += hours`, starting from 0 when the entry is new. */
  function AddHours(acc: map<string, real>, name: string, hours: real): map<string, real> {
    acc[name := (if name in acc then acc[name] else 0.0) + hours]
  }

  /** The accumulation loop of the pass over the shifts' contributions, in
      order. An employee has an entry iff some contribution credits them, and
      the entry is the sum of their credited hours. */
  function Accumulate(cs: seq<Option<Contribution>>): (r: map<string, real>)
    requires forall i :: 0 <= i < |cs| && cs[i].Some? ==> cs[i].value.hours >= 0.0
    ensures forall name :: name in r <==> exists i :: 0 <= i < |cs| && Credits(cs, i, name)
    ensures forall name :: name in r ==> r[name] == HoursOf(cs, name) && r[name] >= 0.0
  {
    if |cs| == 0 then map[]
    else
      var prefix := cs[..|cs| - 1];
      assert forall i :: 0 <= i < |prefix| ==> prefix[i] == cs[i];
      assert forall i, name :: 0 <= i < |prefix| ==> (Credits(prefix, i, name) <==> Credits(cs, i, name));
      var acc := Accumulate(prefix);
      var last := cs[|cs| - 1];
      if last.None? then acc
      else
        var r := AddHours(acc, last.value.name, last.value.hours);
        assert Credits(cs, |cs| - 1, last.value.name);
        forall name | name in r && name !in acc
          ensures HoursOf(prefix, name) == 0.0
        {
          forall i | 0 <= i < |prefix|
            ensures !Credits(prefix, i, name)
          {
            assert Credits(prefix, i, name) ==> name in acc;
          }
          HoursOfNone(prefix, name);
        }
        r
  }

  /** An employee credited nowhere has zero hours. */
  lemma {:induction false} HoursOfNone(cs: seq<Option<Contribution>>, name: string)
    requires forall i :: 0 <= i < |cs| ==> !Credits(cs, i, name)
    ensures HoursOf(cs, name) == 0.0
  {
    if |cs| > 0 {
      var prefix := cs[..|cs| - 1];
      assert forall i :: 0 <= i < |prefix| ==> prefix[i] == cs[i];
      assert forall i :: 0 <= i < |prefix| ==> (Credits(prefix, i, name) <==> Credits(cs, i, name));
      HoursOfNone(prefix, name);
    }
  }

  /** The pass measures `shift` and credits it to `name`. */
  predicate Measured(parse: FormatParser, tm: TimesheetColumns, shift: Record, name: string) {
    var c := ShiftContribution(parse, tm, shift);
    c.Some? && c.value.name == name
  }

  /** The contributions of `shifts`, one per shift, in order. */
  function Contributions(parse: FormatParser, tm: TimesheetColumns, shifts: seq<Record>): (cs: seq<Option<Contribution>>)
    ensures |cs| == |shifts|
    ensures forall i :: 0 <= i < |shifts| ==> cs[i] == ShiftContribution(parse, tm, shifts[i])
  {
    seq(|shifts|, i requires 0 <= i < |shifts| => ShiftContribution(parse, tm, shifts[i]))
  }

  /** The hours pre-pass: an employee has an entry iff at least one of their
      shifts is measured, the entry is the sum of those shifts' hours, and
      nobody without a name appears. */
  function HoursPass(parse: FormatParser, tm: TimesheetColumns, shifts: seq<Record>): (r: map<string, real>)
    ensures forall name :: name in r <==> exists i :: 0 <= i < |shifts| && Measured(parse, tm, shifts[i], name)
    ensures forall name :: name in r ==> r[name] == HoursOf(Contributions(parse, tm, shifts), name) && r[name] >= 0.0
    ensures "" !in r
  {
    var cs := Contributions(parse, tm, shifts);
    assert forall i, name :: 0 <= i < |shifts| ==> (Credits(cs, i, name) <==> Measured(parse, tm, shifts[i], name));
    Accumulate(cs)
  }

  /** One measured shift of a minute or more makes its employee's total
      strictly positive. */
  lemma {:induction false} HoursPositive(cs: seq<Option<Contribution>>, name: string, i: nat)
    requires forall k :: 0 <= k < |cs| && cs[k].Some? ==> cs[k].value.hours >= 0.0
    requires i < |cs| && Credits(cs, i, name) && cs[i].value.hours > 0.0
    ensures HoursOf(cs, name) > 0.0
  {
    var prefix := cs[..|cs| - 1];
    assert forall k :: 0 <= k < |prefix| ==> prefix[k] == cs[k];
    if i == |cs| - 1 {
      HoursOfNonNegative(prefix, name);
    } else {
      HoursPositive(prefix, name, i);
    }
  }

  lemma {:induction false} HoursOfNonNegative(cs: seq<Option<Contribution>>, name: string)
    requires forall k :: 0 <= k < |cs| && cs[k].Some? ==> cs[k].value.hours >= 0.0
    ensures HoursOf(cs, name) >= 0.0
  {
    if |cs| > 0 {
      var prefix := cs[..|cs| - 1];
      assert forall k :: 0 <= k < |prefix| ==> prefix[k] == cs[k];
      HoursOfNonNegative(prefix, name);
    }
  }
}
