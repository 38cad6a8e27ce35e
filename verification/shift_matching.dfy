/** The inner loop of `calculateTipDistribution`: which shifts are on duty at
    an order's timestamp, and how many shift checks fail to parse. */
module ShiftMatching {
  import opened Optional
  import opened Records
  import opened TimeNormalizer
  import opened DateTimeParser

  /** A clock time as the matching loop resolves it: the normalised time
      string parsed on its own first, and only if that fails, parsed
      together with the shift's date column. */
  function ResolveClock(parse: FormatParser, date: Option<string>, time: Option<string>): (r: Option<Instant>)
    ensures var alone := ParseDateTime(parse, NormalizeTimeStr(time), None);
      var dated := ParseDateTime(parse, date, NormalizeTimeStr(time));
      && (r.Some? <==> alone.Some? || dated.Some?)
      && (alone.Some? ==> r == alone)
      && (alone.None? ==> r == dated)
  {
    var t := NormalizeTimeStr(time);
    ParseDateTime(parse, t, None).OrElse(ParseDateTime(parse, date, t))
  }

  /** The resolved on-duty interval of a shift. */
  datatype Window = Window(clockIn: Instant, clockOut: Instant) {
    /** Both ends are inclusive. */
    predicate Covers(t: Instant) {
      clockIn <= t <= clockOut
    }
  }

  /** The shift's window, or `None` when either clock time fails to resolve. */
  function ShiftWindow(parse: FormatParser, tm: TimesheetColumns, shift: Record): (r: Option<Window>)
    ensures r.Some? <==>
      && ResolveClock(parse, Get(shift, tm.clockInDate), Get(shift, tm.clockInTime)).Some?
      && ResolveClock(parse, Get(shift, tm.clockInDate), Get(shift, tm.clockOutTime)).Some?
    ensures r.Some? ==>
      && Some(r.value.clockIn) == ResolveClock(parse, Get(shift, tm.clockInDate), Get(shift, tm.clockInTime))
      && Some(r.value.clockOut) == ResolveClock(parse, Get(shift, tm.clockInDate), Get(shift, tm.clockOutTime))
  {
    var clockIn := ResolveClock(parse, Get(shift, tm.clockInDate), Get(shift, tm.clockInTime));
    var clockOut := ResolveClock(parse, Get(shift, tm.clockInDate), Get(shift, tm.clockOutTime));
    if clockIn.Some? && clockOut.Some? then Some(Window(clockIn.value, clockOut.value)) else None
  }

  /** The windows of `shifts`, one per shift, in order. */
  function Windows(parse: FormatParser, tm: TimesheetColumns, shifts: seq<Record>): (ws: seq<Option<Window>>)
    ensures |ws| == |shifts|
    ensures forall i :: 0 <= i < |shifts| ==> ws[i] == ShiftWindow(parse, tm, shifts[i])
  {
    seq(|shifts|, i requires 0 <= i < |shifts| => ShiftWindow(parse, tm, shifts[i]))
  }

  /** Window `i` resolved and covers `t`. */
  predicate OnDuty(ws: seq<Option<Window>>, i: int, t: Instant)
    requires 0 <= i < |ws|
  {
    ws[i].Some? && ws[i].value.Covers(t)
  }

  /** The indices of the shifts on duty at `t`, in shift order: exactly those
      whose window resolved and covers `t`, each once. */
  function MatchedShifts(ws: seq<Option<Window>>, t: Instant): (r: seq<nat>)
    ensures forall j :: 0 <= j < |r| ==> r[j] < |ws|
    ensures forall j, k :: 0 <= j < k < |r| ==> r[j] < r[k]
    ensures forall i :: 0 <= i < |ws| ==> (i in r <==> OnDuty(ws, i, t))
  {
    if |ws| == 0 then []
    else
      var prefix := ws[..|ws| - 1];
      assert forall i :: 0 <= i < |prefix| ==> (OnDuty(prefix, i, t) <==> OnDuty(ws, i, t));
      MatchedShifts(prefix, t) + (if OnDuty(ws, |ws| - 1, t) then [|ws| - 1] else [])
  }

  /** The positions of the windows that failed to resolve. */
  function Unresolved(ws: seq<Option<Window>>): set<nat> {
    set i: nat | i < |ws| && ws[i].None?
  }

  /** The unresolved positions of `ws`: those of all but its last window,
      and the last one when it failed. */
  lemma UnresolvedSnoc(ws: seq<Option<Window>>)
    requires |ws| > 0
    ensures |Unresolved(ws)| == |Unresolved(ws[..|ws| - 1])| + (if ws[|ws| - 1].None? then 1 else 0)
  {
    var prefix := ws[..|ws| - 1];
    assert |ws| - 1 !in Unresolved(prefix);
    assert Unresolved(ws) == Unresolved(prefix) + (if ws[|ws| - 1].None? then {|ws| - 1} else {});
  }

  /** How many windows failed to resolve: what one order adds to
      `unparsedShiftCount`. */
  function UnresolvedCount(ws: seq<Option<Window>>): (n: nat)
    ensures n <= |ws|
    ensures n == 0 <==> forall i :: 0 <= i < |ws| ==> ws[i].Some?
    ensures n == |ws| <==> forall i :: 0 <= i < |ws| ==> ws[i].None?
    ensures n == |Unresolved(ws)|
  {
    if |ws| == 0 then
      assert Unresolved(ws) == {};
      0
    else
      var prefix := ws[..|ws| - 1];
      assert forall i :: 0 <= i < |prefix| ==> prefix[i] == ws[i];
      UnresolvedSnoc(ws);
      UnresolvedCount(prefix) + (if ws[|ws| - 1].None? then 1 else 0)
  }

  /** `workingEmployees`: the name cell of every on-duty shift, in shift
      order, absent or empty names included. */
  function WorkingEmployees(tm: TimesheetColumns, shifts: seq<Record>, matched: seq<nat>): (r: seq<Option<string>>)
    requires forall j :: 0 <= j < |matched| ==> matched[j] < |shifts|
    ensures |r| == |matched|
    ensures forall j :: 0 <= j < |matched| ==> r[j] == Get(shifts[matched[j]], tm.employeeName)
  {
    seq(|matched|, j requires 0 <= j < |matched| => Get(shifts[matched[j]], tm.employeeName))
  }

  /** An order stamped exactly at a shift's clock-in or clock-out is on that
      shift. */
  lemma EndpointsMatch(ws: seq<Option<Window>>, i: nat)
    requires i < |ws| && ws[i].Some? && ws[i].value.clockIn <= ws[i].value.clockOut
    ensures i in MatchedShifts(ws, ws[i].value.clockIn)
    ensures i in MatchedShifts(ws, ws[i].value.clockOut)
  {
  }

  /** A shift whose clock-out resolves before its clock-in (an overnight shift
      written against one date, say) is never on duty. */
  lemma ReversedWindowNeverMatches(ws: seq<Option<Window>>, i: nat, t: Instant)
    requires i < |ws| && ws[i].Some? && ws[i].value.clockOut < ws[i].value.clockIn
    ensures i !in MatchedShifts(ws, t)
  {
  }
}
