/** `calculateTipDistribution`: the allocation engine. Every order that
    survives the filter rules, carries a positive tip and a parseable
    timestamp is split evenly among the shifts on duty at that instant; the
    running totals become one rounded, name-sorted payout per employee. */
module TipDistributor {
  import opened Optional
  import opened Strings
  import opened Records
  import opened DateTimeParser
  import opened OrderFilter
  import opened ShiftHours
  import opened ShiftMatching
  import opened Ledger
  import opened ResultAggregator

  /** What the engine borrows from its runtime: date-fns parsing, JavaScript's
      `parseFloat` (`None` standing for NaN) and rounding to cents. */
  datatype Env = Env(parse: FormatParser, parseNumber: string -> Option<real>, round2: Rounder)

  /** `parseFloat(order[tipAmount])`; an absent cell parses to NaN. */
  function TipAmount(env: Env, oc: OrderColumns, order: Record): (tip: Option<real>)
    ensures Get(order, oc.tipAmount).None? ==> tip.None?
    ensures Get(order, oc.tipAmount).Some? ==> tip == env.parseNumber(order[oc.tipAmount])
  {
    match Get(order, oc.tipAmount)
    case None => None
    case Some(cell) => env.parseNumber(cell)
  }

  /** The time cell joined to the date: empty when the date and time mappings
      name the same column, which then carries the whole timestamp. */
  function OrderTime(oc: OrderColumns, order: Record): Option<string> {
    if oc.date == oc.time then Some("") else Get(order, oc.time)
  }

  /** The order's timestamp. */
  function OrderInstant(env: Env, oc: OrderColumns, order: Record): Option<Instant> {
    ParseDateTime(env.parse, Get(order, oc.date), OrderTime(oc, order))
  }

  /** `order[orderId] || "N/A"`. */
  function OrderId(oc: OrderColumns, order: Record): (id: string)
    ensures Truthy(Get(order, oc.orderId)) ==> id == order[oc.orderId]
    ensures !Truthy(Get(order, oc.orderId)) ==> id == "N/A"
    ensures id != ""
  {
    if Truthy(Get(order, oc.orderId)) then order[oc.orderId] else "N/A"
  }

  /** What happens to one order. `unresolved` is how many shift checks of this
      order failed to parse. */
  datatype Outcome =
    | Filtered
    | NoTip
    | UnparsedTimestamp
    | Unmatched(unresolved: nat)
    | Allocated(detail: TipDetail, unresolved: nat)
  {
    /** The order reached the shift-matching loop. */
    predicate Reached() {
      Unmatched? || Allocated?
    }
  }

  /** A detail as the allocation creates it: at least one slot, a positive
      tip, and a display share that is the rounded even share. */
  predicate ValidDetail(env: Env, d: TipDetail) {
    |d.sharedWith| >= 1 && d.orderTotalTip > 0.0 && d.tipShare == env.round2(Share(d))
  }

  /** The body of the order loop, up to the credits. */
  function Classify(env: Env, m: Mappings, filters: seq<FilterRule>, shifts: seq<Record>, order: Record): (o: Outcome)
    ensures o.Allocated? ==> ValidDetail(env, o.detail)
  {
    if IsOrderFilteredOut(order, filters) then Filtered
    else
      match TipAmount(env, m.orders, order)
      case None => NoTip
      case Some(tip) =>
        if tip <= 0.0 then NoTip
        else
          match OrderInstant(env, m.orders, order)
          case None => UnparsedTimestamp
          case Some(t) =>
            var ws := Windows(env.parse, m.timesheet, shifts);
            var matched := MatchedShifts(ws, t);
            if |matched| == 0 then Unmatched(UnresolvedCount(ws))
            else Allocate(env, OrderId(m.orders, order), tip, WorkingEmployees(m.timesheet, shifts, matched), UnresolvedCount(ws))
  }

  /** The allocation of a positive tip over at least one on-duty slot: the
      detail records the whole tip and its display share. */
  function Allocate(env: Env, id: string, tip: real, working: seq<Option<string>>, unresolved: nat): (o: Outcome)
    requires tip > 0.0 && |working| >= 1
    ensures o.Allocated? && ValidDetail(env, o.detail)
    ensures o.detail.orderId == id && o.detail.orderTotalTip == tip && o.detail.sharedWith == working
    ensures Share(o.detail) * (|working| as real) == tip
    ensures o.unresolved == unresolved
  {
    var share := tip / (|working| as real);
    Allocated(TipDetail(id, tip, env.round2(share), working), unresolved)
  }

  /** The order is allocated iff it passes the filters, its tip parses to a
      positive number, its timestamp parses, and some shift is on duty then.
      The detail then records the whole tip, one slot per on-duty shift in
      shift order (names that are absent or empty included), and the order
      id or `N/A`. */
  lemma ClassifySpec(env: Env, m: Mappings, filters: seq<FilterRule>, shifts: seq<Record>, order: Record)
    ensures var o := Classify(env, m, filters, shifts, order);
      var tip := TipAmount(env, m.orders, order);
      var t := OrderInstant(env, m.orders, order);
      var ws := Windows(env.parse, m.timesheet, shifts);
      && (o.Filtered? <==> IsOrderFilteredOut(order, filters))
      && (o.NoTip? <==> !IsOrderFilteredOut(order, filters) && (tip.None? || tip.value <= 0.0))
      && (o.UnparsedTimestamp? <==>
            !IsOrderFilteredOut(order, filters) && tip.Some? && tip.value > 0.0 && t.None?)
      && (o.Allocated? <==>
            && !IsOrderFilteredOut(order, filters) && tip.Some? && tip.value > 0.0 && t.Some?
            && exists i :: 0 <= i < |shifts| && OnDuty(ws, i, t.value))
      && (o.Reached() ==> o.unresolved == UnresolvedCount(ws))
      && (o.Allocated? ==>
            && o.detail.orderTotalTip == tip.value
            && o.detail.orderId == OrderId(m.orders, order)
            && o.detail.sharedWith == WorkingEmployees(m.timesheet, shifts, MatchedShifts(ws, t.value)))
  {
    var o := Classify(env, m, filters, shifts, order);
    var tip := TipAmount(env, m.orders, order);
    var t := OrderInstant(env, m.orders, order);
    var ws := Windows(env.parse, m.timesheet, shifts);
    if IsOrderFilteredOut(order, filters) {
      assert o == Filtered;
    } else if tip.None? || tip.value <= 0.0 {
      assert o == NoTip;
    } else if t.None? {
      assert o == UnparsedTimestamp;
    } else {
      var matched := MatchedShifts(ws, t.value);
      if |matched| == 0 {
        assert o == Unmatched(UnresolvedCount(ws));
        forall i | 0 <= i < |shifts|
          ensures !OnDuty(ws, i, t.value)
        {
          assert i !in matched;
        }
      } else {
        assert o == Allocate(env, OrderId(m.orders, order), tip.value,
          WorkingEmployees(m.timesheet, shifts, matched), UnresolvedCount(ws));
        assert OnDuty(ws, matched[0], t.value);
      }
    }
  }

  /** Same-column mappings read the timestamp from the date cell alone: the
      string handed to the patterns is the trimmed date cell. */
  lemma SameColumnUsesDateOnly(env: Env, oc: OrderColumns, order: Record)
    requires oc.date == oc.time
    ensures OrderInstant(env, oc, order) == ParseDateTime(env.parse, Get(order, oc.date), None)
    ensures Truthy(Get(order, oc.date)) ==>
      var input := Trim(order[oc.date]);
      var r := OrderInstant(env, oc, order);
      && (r.Some? <==> exists i :: 0 <= i < |Formats| && env.parse(Formats[i], input).Some?)
      && (r.Some? ==> exists i :: 0 <= i < |Formats| && FirstParseAt(env.parse, input, i, r.value))
  {
    EmptyTimeIsNoTime(env.parse, Get(order, oc.date));
  }

  /** The running state of the order loop. */
  datatype Tally = Tally(accounts: Accounts, unparsedOrders: nat, unparsedShiftChecks: nat)

  /** The effect of one order on the running state. */
  function Step(o: Outcome, t: Tally): (r: Tally)
    requires DistinctNames(t.accounts)
    ensures DistinctNames(r.accounts)
    ensures !o.Allocated? ==> r.accounts == t.accounts
  {
    match o
    case Allocated(d, u) =>
      Tally(CreditAll(t.accounts, d.sharedWith, Share(d), d), t.unparsedOrders, t.unparsedShiftChecks + u)
    case Unmatched(u) => Tally(t.accounts, t.unparsedOrders, t.unparsedShiftChecks + u)
    case UnparsedTimestamp => Tally(t.accounts, t.unparsedOrders + 1, t.unparsedShiftChecks)
    case _ => t
  }

  /** The outcome of every order, in order. */
  function Outcomes(env: Env, m: Mappings, filters: seq<FilterRule>, shifts: seq<Record>, orders: seq<Record>): (os: seq<Outcome>)
    ensures |os| == |orders|
    ensures forall j :: 0 <= j < |orders| ==> os[j] == Classify(env, m, filters, shifts, orders[j])
  {
    seq(|orders|, j requires 0 <= j < |orders| => Classify(env, m, filters, shifts, orders[j]))
  }

  /** The order loop over the outcomes, in order, from the empty state. */
  function Run(os: seq<Outcome>): (r: Tally)
    ensures DistinctNames(r.accounts)
    ensures r.unparsedOrders <= |os|
  {
    if |os| == 0 then Tally([], 0, 0) else Step(os[|os| - 1], Run(os[..|os| - 1]))
  }

  /** The engine's result: the payouts, and the two diagnostic counters the
      source logs instead of returning. */
  datatype Distribution = Distribution(payouts: seq<Payout>, unparsedOrderCount: nat, unparsedShiftCount: nat)

  /** `calculateTipDistribution(ordersData, timesheetData, mappings, filters)`. */
  function CalculateTipDistribution(
    env: Env, orders: seq<Record>, shifts: seq<Record>, m: Mappings, filters: seq<FilterRule>): (r: Distribution)
    ensures SortedByName(r.payouts)
  {
    var hours := HoursPass(env.parse, m.timesheet, shifts);
    var tally := Run(Outcomes(env, m, filters, shifts, orders));
    Distribution(Aggregate(env.round2, hours, tally.accounts), tally.unparsedOrders, tally.unparsedShiftChecks)
  }
}
