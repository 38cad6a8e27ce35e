/** What the engine promises about its result, proved of the model: the
    running totals stay consistent with the tip details, payouts exist
    exactly for the employees who were paid, skipped orders leave no trace,
    and the diagnostic counters count what they claim to. */
module DistributionProperties {
  import opened Optional
  import opened Records
  import opened DateTimeParser
  import opened OrderFilter
  import opened ShiftHours
  import opened ShiftMatching
  import opened Ledger
  import opened ResultAggregator
  import opened TipDistributor

  /** The sum of the unrounded shares recorded by `tips`. */
  function SumShares(tips: seq<TipDetail>): real {
    if |tips| == 0 then 0.0 else SumShares(tips[..|tips| - 1]) + Share(tips[|tips| - 1])
  }

  /** An account as the allocation keeps it: at least one tip, a running total
      equal to the sum of the unrounded shares of its tips (never of the
      rounded `tipShare`s), and every tip a valid detail naming the employee. */
  predicate AccountOk(env: Env, name: string, amount: real, tips: seq<TipDetail>) {
    && |tips| >= 1
    && amount == SumShares(tips)
    && forall j :: 0 <= j < |tips| ==> ValidDetail(env, tips[j]) && Some(name) in tips[j].sharedWith
  }

  predicate Consistent(env: Env, l: Accounts) {
    && DistinctNames(l)
    && "" !in Names(l)
    && forall n :: n in Names(l) ==> AccountOk(env, n, Amount(l, n), Tips(l, n))
  }

  lemma {:induction false} SumSharesRepeat(tips: seq<TipDetail>, d: TipDetail, c: nat)
    ensures SumShares(tips + Repeat(d, c)) == SumShares(tips) + Times(c, Share(d))
  {
    if c == 0 {
      assert tips + Repeat(d, c) == tips;
    } else {
      SumSharesRepeat(tips, d, c - 1);
      assert tips + Repeat(d, c) == (tips + Repeat(d, c - 1)) + [d];
      assert (tips + Repeat(d, c))[..|tips + Repeat(d, c)| - 1] == tips + Repeat(d, c - 1);
    }
  }

  /** A name occurs in `names` iff it is truthy and some slot holds it. */
  lemma {:induction false} OccurrencesPositive(names: seq<Option<string>>, n: string)
    ensures Occurrences(names, n) > 0 <==> n != "" && Some(n) in names
  {
    if |names| > 0 {
      var prefix := names[..|names| - 1];
      OccurrencesPositive(prefix, n);
      assert names == prefix + [names[|names| - 1]];
    }
  }

  lemma TruthyNamesAreTheNamed(names: seq<Option<string>>, n: string)
    ensures n in TruthyNames(names) <==> n != "" && Some(n) in names
  {
    if n != "" && Some(n) in names {
      var j :| 0 <= j < |names| && names[j] == Some(n);
      assert Truthy(names[j]);
    }
  }

  /** After a credit, an account's tips are its old tips followed by `c`
      copies of the detail, `c` the employee's slots in it, and its total grew
      by `c` shares. */
  lemma CreditShape(l: Accounts, d: TipDetail, n: string)
    requires DistinctNames(l)
    ensures var r := CreditAll(l, d.sharedWith, Share(d), d);
      var c := Occurrences(d.sharedWith, n);
      && Tips(r, n) == Tips(l, n) + Repeat(d, c)
      && Amount(r, n) == Amount(l, n) + Times(c, Share(d))
      && (n in Names(r) <==> n in Names(l) || c > 0)
  {
    CreditAllSpec(l, d.sharedWith, Share(d), d);
    OccurrencesPositive(d.sharedWith, n);
    TruthyNamesAreTheNamed(d.sharedWith, n);
  }

  /** The tips of an account after a credit satisfy the detail conditions. */
  lemma AppendedDetailsOk(env: Env, n: string, old_tips: seq<TipDetail>, d: TipDetail, c: nat)
    requires ValidDetail(env, d)
    requires c > 0 ==> Some(n) in d.sharedWith
    requires forall j :: 0 <= j < |old_tips| ==> ValidDetail(env, old_tips[j]) && Some(n) in old_tips[j].sharedWith
    ensures var tips := old_tips + Repeat(d, c);
      forall j :: 0 <= j < |tips| ==> ValidDetail(env, tips[j]) && Some(n) in tips[j].sharedWith
  {
    var tips := old_tips + Repeat(d, c);
    forall j | 0 <= j < |tips|
      ensures ValidDetail(env, tips[j]) && Some(n) in tips[j].sharedWith
    {
      if j >= |old_tips| {
        assert tips[j] == Repeat(d, c)[j - |old_tips|];
      } else {
        assert tips[j] == old_tips[j];
      }
    }
  }

  /** An account, possibly new, that receives `c` more slots of a valid
      detail stays consistent. */
  lemma AccountAfterCredit(env: Env, n: string, amount: real, tips: seq<TipDetail>, d: TipDetail, c: nat)
    requires ValidDetail(env, d)
    requires c > 0 ==> Some(n) in d.sharedWith
    requires (tips == [] && amount == 0.0 && c > 0) || AccountOk(env, n, amount, tips)
    ensures AccountOk(env, n, amount + Times(c, Share(d)), tips + Repeat(d, c))
  {
    SumSharesRepeat(tips, d, c);
    AppendedDetailsOk(env, n, tips, d, c);
  }

  /** Crediting a valid detail keeps the accounts consistent. */
  lemma CreditKeepsConsistent(env: Env, l: Accounts, d: TipDetail)
    requires Consistent(env, l) && ValidDetail(env, d)
    ensures Consistent(env, CreditAll(l, d.sharedWith, Share(d), d))
  {
    var r := CreditAll(l, d.sharedWith, Share(d), d);
    forall n | n in Names(r)
      ensures AccountOk(env, n, Amount(r, n), Tips(r, n))
    {
      CreditShape(l, d, n);
      OccurrencesPositive(d.sharedWith, n);
      if n !in Names(l) {
        assert Find(l, n).None?;
      }
      AccountAfterCredit(env, n, Amount(l, n), Tips(l, n), d, Occurrences(d.sharedWith, n));
    }
    forall n | n in TruthyNames(d.sharedWith)
      ensures n != ""
    {
      TruthyNamesAreTheNamed(d.sharedWith, n);
    }
  }

  /** Every allocated outcome in `os` carries a valid detail. */
  predicate ValidOutcomes(env: Env, os: seq<Outcome>) {
    forall j :: 0 <= j < |os| && os[j].Allocated? ==> ValidDetail(env, os[j].detail)
  }

  /** The order loop keeps the accounts consistent. */
  lemma {:induction false} RunConsistent(env: Env, os: seq<Outcome>)
    requires ValidOutcomes(env, os)
    ensures Consistent(env, Run(os).accounts)
  {
    if |os| > 0 {
      var prefix := os[..|os| - 1];
      assert ValidOutcomes(env, prefix) by {
        forall j | 0 <= j < |prefix| && prefix[j].Allocated?
          ensures ValidDetail(env, prefix[j].detail)
        {
          assert prefix[j] == os[j];
        }
      }
      RunConsistent(env, prefix);
      var o := os[|os| - 1];
      assert Run(os) == Step(o, Run(prefix));
      StepKeepsConsistent(env, o, Run(prefix));
    }
  }

  /** One order keeps the accounts consistent. */
  lemma StepKeepsConsistent(env: Env, o: Outcome, t: Tally)
    requires Consistent(env, t.accounts)
    requires o.Allocated? ==> ValidDetail(env, o.detail)
    ensures Consistent(env, Step(o, t).accounts)
  {
    if o.Allocated? {
      CreditKeepsConsistent(env, t.accounts, o.detail);
    }
  }

  /** Outcome `o` pays employee `name`. */
  predicate PaysIn(o: Outcome, name: string) {
    o.Allocated? && name != "" && Some(name) in o.detail.sharedWith
  }

  /** Order `order` pays employee `name`. */
  predicate Pays(env: Env, m: Mappings, filters: seq<FilterRule>, shifts: seq<Record>, order: Record, name: string) {
    PaysIn(Classify(env, m, filters, shifts, order), name)
  }

  /** An employee has an account iff some outcome paid them. */
  lemma {:induction false} RunNames(os: seq<Outcome>, name: string)
    ensures name in Names(Run(os).accounts) <==> exists j :: 0 <= j < |os| && PaysIn(os[j], name)
  {
    if |os| > 0 {
      var prefix := os[..|os| - 1];
      var o := os[|os| - 1];
      RunNames(prefix, name);
      assert Run(os) == Step(o, Run(prefix));
      StepNames(o, Run(prefix), name);
      PaidSnoc(os, name);
    }
  }

  /** Some outcome of `os` pays `name`. */
  predicate PaidBy(os: seq<Outcome>, name: string) {
    exists j :: 0 <= j < |os| && PaysIn(os[j], name)
  }

  lemma PaidSnoc(os: seq<Outcome>, name: string)
    requires |os| > 0
    ensures PaidBy(os, name) <==> PaidBy(os[..|os| - 1], name) || PaysIn(os[|os| - 1], name)
  {
    var prefix := os[..|os| - 1];
    if PaidBy(prefix, name) {
      var j :| 0 <= j < |prefix| && PaysIn(prefix[j], name);
      assert prefix[j] == os[j];
    }
    if PaidBy(os, name) {
      var j :| 0 <= j < |os| && PaysIn(os[j], name);
      if j < |prefix| {
        assert PaysIn(prefix[j], name);
      }
    }
  }

  /** One order opens an account for exactly the employees it pays. */
  lemma StepNames(o: Outcome, t: Tally, name: string)
    requires DistinctNames(t.accounts)
    ensures name in Names(Step(o, t).accounts) <==> name in Names(t.accounts) || PaysIn(o, name)
  {
    if o.Allocated? {
      TruthyNamesAreTheNamed(o.detail.sharedWith, name);
    }
  }

  /** Every payout is built from a consistent account: at least one tip, the
      total the rounded sum of the unrounded shares of its tips, the hours
      those of the hours pass (0 when the employee has none), and every tip a
      valid detail that lists the employee. */
  lemma PayoutsAreConsistent(env: Env, orders: seq<Record>, shifts: seq<Record>, m: Mappings, filters: seq<FilterRule>)
    ensures var r := CalculateTipDistribution(env, orders, shifts, m, filters);
      var hours := HoursPass(env.parse, m.timesheet, shifts);
      forall p :: p in r.payouts ==>
        && p.employeeName != ""
        && |p.tips| >= 1
        && p.totalAmount == env.round2(SumShares(p.tips))
        && p.totalHours == env.round2(if p.employeeName in hours then hours[p.employeeName] else 0.0)
        && forall d :: d in p.tips ==> ValidDetail(env, d) && Some(p.employeeName) in d.sharedWith
  {
    var os := Outcomes(env, m, filters, shifts, orders);
    var l := Run(os).accounts;
    var hours := HoursPass(env.parse, m.timesheet, shifts);
    var r := CalculateTipDistribution(env, orders, shifts, m, filters);
    RunConsistent(env, os);
    forall p | p in r.payouts
      ensures p.employeeName != "" && |p.tips| >= 1 && p.totalAmount == env.round2(SumShares(p.tips))
      ensures forall d :: d in p.tips ==> ValidDetail(env, d) && Some(p.employeeName) in d.sharedWith
    {
      var i :| 0 <= i < |l| && p == ToPayout(env.round2, hours, l[i]);
      assert l[i].name in Names(l);
      FindUnique(l, l[i].name, i);
      assert AccountOk(env, l[i].name, l[i].totalAmount, l[i].tips);
    }
  }

  /** A payout exists for `name` iff some order paid `name`; there is at most
      one, and the payouts are sorted by name. */
  lemma PayoutsExactlyForPaidEmployees(
    env: Env, orders: seq<Record>, shifts: seq<Record>, m: Mappings, filters: seq<FilterRule>, name: string)
    ensures var r := CalculateTipDistribution(env, orders, shifts, m, filters);
      && SortedByName(r.payouts)
      && DistinctPayoutNames(r.payouts)
      && ((exists p :: p in r.payouts && p.employeeName == name) <==>
          exists j :: 0 <= j < |orders| && Pays(env, m, filters, shifts, orders[j], name))
  {
    var os := Outcomes(env, m, filters, shifts, orders);
    var l := Run(os).accounts;
    var hours := HoursPass(env.parse, m.timesheet, shifts);
    var r := CalculateTipDistribution(env, orders, shifts, m, filters);
    RunNames(os, name);
    SortedNamesDistinct(r.payouts);
    assert forall j :: 0 <= j < |orders| ==> (PaysIn(os[j], name) <==> Pays(env, m, filters, shifts, orders[j], name));
    if name in Names(l) {
      var i :| 0 <= i < |l| && l[i].name == name;
      assert ToPayout(env.round2, hours, l[i]) in r.payouts;
    }
    if exists p :: p in r.payouts && p.employeeName == name {
      var p :| p in r.payouts && p.employeeName == name;
      var i :| 0 <= i < |l| && p == ToPayout(env.round2, hours, l[i]);
      assert l[i].name in Names(l);
    }
  }

  /** An employee who only has hours, and was never paid, gets no payout. */
  lemma HoursAloneEarnNoPayout(
    env: Env, orders: seq<Record>, shifts: seq<Record>, m: Mappings, filters: seq<FilterRule>, name: string)
    requires forall j :: 0 <= j < |orders| ==> !Pays(env, m, filters, shifts, orders[j], name)
    ensures forall p :: p in CalculateTipDistribution(env, orders, shifts, m, filters).payouts ==> p.employeeName != name
  {
    PayoutsExactlyForPaidEmployees(env, orders, shifts, m, filters, name);
  }

  /** The outcomes that allocate, in order. */
  function Allocating(os: seq<Outcome>): (r: seq<Outcome>)
    ensures forall o :: o in r ==> o.Allocated?
  {
    if |os| == 0 then []
    else Allocating(os[..|os| - 1]) + (if os[|os| - 1].Allocated? then [os[|os| - 1]] else [])
  }

  /** The accounts depend only on the allocating outcomes. */
  lemma {:induction false} SkippedOutcomesLeaveNoTrace(os: seq<Outcome>)
    ensures Run(os).accounts == Run(Allocating(os)).accounts
  {
    if |os| > 0 {
      var prefix := os[..|os| - 1];
      var o := os[|os| - 1];
      SkippedOutcomesLeaveNoTrace(prefix);
      var kept := Allocating(os);
      if o.Allocated? {
        assert kept == Allocating(prefix) + [o];
        assert kept[..|kept| - 1] == Allocating(prefix) && kept[|kept| - 1] == o;
        assert Run(kept) == Step(o, Run(Allocating(prefix)));
      } else {
        assert kept == Allocating(prefix);
      }
    }
  }

  lemma {:induction false} AllocatingAppend(a: seq<Outcome>, b: seq<Outcome>)
    ensures Allocating(a + b) == Allocating(a) + Allocating(b)
  {
    if |b| == 0 {
      assert a + b == a;
    } else {
      AllocatingAppend(a, b[..|b| - 1]);
      assert (a + b)[..|a + b| - 1] == a + b[..|b| - 1];
    }
  }

  /** Dropping an order that is filtered out, has no positive tip, has no
      parseable timestamp or matches no shift changes no payout. */
  lemma DroppingSkippedOrderKeepsPayouts(
    env: Env, orders: seq<Record>, shifts: seq<Record>, m: Mappings, filters: seq<FilterRule>, i: nat)
    requires i < |orders|
    requires !Classify(env, m, filters, shifts, orders[i]).Allocated?
    ensures CalculateTipDistribution(env, orders, shifts, m, filters).payouts
         == CalculateTipDistribution(env, orders[..i] + orders[i + 1..], shifts, m, filters).payouts
  {
    var os := Outcomes(env, m, filters, shifts, orders);
    var rest := orders[..i] + orders[i + 1..];
    OutcomesDrop(env, m, filters, shifts, orders, i);
    DroppingSkippedOutcome(os, i);
    var hours := HoursPass(env.parse, m.timesheet, shifts);
    assert CalculateTipDistribution(env, orders, shifts, m, filters).payouts
        == Aggregate(env.round2, hours, Run(os).accounts);
    assert CalculateTipDistribution(env, rest, shifts, m, filters).payouts
        == Aggregate(env.round2, hours, Run(os[..i] + os[i + 1..]).accounts);
  }

  /** Dropping an order drops its outcome. */
  lemma OutcomesDrop(env: Env, m: Mappings, filters: seq<FilterRule>, shifts: seq<Record>, orders: seq<Record>, i: nat)
    requires i < |orders|
    ensures var os := Outcomes(env, m, filters, shifts, orders);
      Outcomes(env, m, filters, shifts, orders[..i] + orders[i + 1..]) == os[..i] + os[i + 1..]
  {
    var os := Outcomes(env, m, filters, shifts, orders);
    var rest := orders[..i] + orders[i + 1..];
    var os' := Outcomes(env, m, filters, shifts, rest);
    var dropped := os[..i] + os[i + 1..];
    assert |os'| == |dropped|;
    forall j | 0 <= j < |os'|
      ensures os'[j] == dropped[j]
    {
      var k := if j < i then j else j + 1;
      assert rest[j] == orders[k];
      assert dropped[j] == os[k];
      assert os'[j] == Classify(env, m, filters, shifts, rest[j]);
      assert os[k] == Classify(env, m, filters, shifts, orders[k]);
    }
  }

  /** The same on outcomes: removing a non-allocating outcome leaves the
      accounts as they were. */
  lemma DroppingSkippedOutcome(os: seq<Outcome>, i: nat)
    requires i < |os| && !os[i].Allocated?
    ensures Run(os).accounts == Run(os[..i] + os[i + 1..]).accounts
  {
    AllocatingDrop(os, i);
    SkippedOutcomesLeaveNoTrace(os);
    SkippedOutcomesLeaveNoTrace(os[..i] + os[i + 1..]);
  }

  lemma {:induction false} AllocatingDrop(os: seq<Outcome>, i: nat)
    requires i < |os| && !os[i].Allocated?
    ensures Allocating(os) == Allocating(os[..i] + os[i + 1..])
  {
    var a, b := os[..i], os[i + 1..];
    var ax := a + [os[i]];
    assert ax[..|ax| - 1] == a;
    assert Allocating(ax) == Allocating(a);
    assert os == ax + b;
    AllocatingAppend(ax, b);
    AllocatingAppend(a, b);
  }

  /** The number of outcomes with an unparseable timestamp. */
  function CountUnparsed(os: seq<Outcome>): nat {
    if |os| == 0 then 0 else CountUnparsed(os[..|os| - 1]) + (if os[|os| - 1].UnparsedTimestamp? then 1 else 0)
  }

  /** The number of outcomes that reached the shift-matching loop. */
  function CountReached(os: seq<Outcome>): nat {
    if |os| == 0 then 0 else CountReached(os[..|os| - 1]) + (if os[|os| - 1].Reached() then 1 else 0)
  }

  /** `unparsedOrderCount` counts exactly the orders dropped for an
      unparseable timestamp, and `unparsedShiftCount` charges every
      unresolvable shift once per order that reached the matching loop. */
  lemma CountersCount(os: seq<Outcome>, unresolved: nat)
    requires forall j :: 0 <= j < |os| && os[j].Reached() ==> os[j].unresolved == unresolved
    ensures Run(os).unparsedOrders == CountUnparsed(os)
    ensures Run(os).unparsedShiftChecks == CountReached(os) * unresolved
  {
    UnparsedOrdersCount(os);
    ShiftChecksCount(os, unresolved);
  }

  lemma {:induction false} UnparsedOrdersCount(os: seq<Outcome>)
    ensures Run(os).unparsedOrders == CountUnparsed(os)
  {
    if |os| > 0 {
      var prefix := os[..|os| - 1];
      UnparsedOrdersCount(prefix);
      assert Run(os) == Step(os[|os| - 1], Run(prefix));
      StepCounters(os[|os| - 1], Run(prefix));
    }
  }

  lemma {:induction false} ShiftChecksCount(os: seq<Outcome>, unresolved: nat)
    requires forall j :: 0 <= j < |os| && os[j].Reached() ==> os[j].unresolved == unresolved
    ensures Run(os).unparsedShiftChecks == CountReached(os) * unresolved
  {
    if |os| > 0 {
      var prefix := os[..|os| - 1];
      var o := os[|os| - 1];
      assert forall j :: 0 <= j < |prefix| ==> prefix[j] == os[j];
      ShiftChecksCount(prefix, unresolved);
      assert Run(os) == Step(o, Run(prefix));
      StepCounters(o, Run(prefix));
      if o.Reached() {
        MulSucc(CountReached(prefix), unresolved);
      }
    }
  }

  lemma MulSucc(k: nat, u: nat)
    ensures (k + 1) * u == k * u + u
  {
  }

  /** One order moves the counters by its own outcome only. */
  lemma StepCounters(o: Outcome, t: Tally)
    requires DistinctNames(t.accounts)
    ensures Step(o, t).unparsedOrders == t.unparsedOrders + (if o.UnparsedTimestamp? then 1 else 0)
    ensures Step(o, t).unparsedShiftChecks == t.unparsedShiftChecks + (if o.Reached() then o.unresolved else 0)
  {
  }

  /** The engine's counters, in terms of the orders and shifts. */
  lemma EngineCounters(env: Env, orders: seq<Record>, shifts: seq<Record>, m: Mappings, filters: seq<FilterRule>)
    ensures var r := CalculateTipDistribution(env, orders, shifts, m, filters);
      var os := Outcomes(env, m, filters, shifts, orders);
      && r.unparsedOrderCount == CountUnparsed(os)
      && r.unparsedShiftCount == CountReached(os) * UnresolvedCount(Windows(env.parse, m.timesheet, shifts))
  {
    var os := Outcomes(env, m, filters, shifts, orders);
    forall j | 0 <= j < |os| && os[j].Reached()
      ensures os[j].unresolved == UnresolvedCount(Windows(env.parse, m.timesheet, shifts))
    {
      ClassifySpec(env, m, filters, shifts, orders[j]);
    }
    CountersCount(os, UnresolvedCount(Windows(env.parse, m.timesheet, shifts)));
  }

  /** The `k` unrounded shares of an allocated order add up to its tip. */
  lemma EvenSplitSumsToTip(d: TipDetail)
    requires |d.sharedWith| >= 1
    ensures Times(|d.sharedWith|, Share(d)) == d.orderTotalTip
  {
    TimesIsProduct(|d.sharedWith|, Share(d));
  }

  /** When every on-duty shift names its employee, an allocated order raises
      the sum of all running totals by exactly its tip; a skipped order
      leaves it unchanged. */
  lemma AllocationConservesTip(o: Outcome, t: Tally)
    requires DistinctNames(t.accounts)
    requires o.Allocated? ==> |o.detail.sharedWith| >= 1 && forall j :: 0 <= j < |o.detail.sharedWith| ==> Truthy(o.detail.sharedWith[j])
    ensures Total(Step(o, t).accounts) == Total(t.accounts) + (if o.Allocated? then o.detail.orderTotalTip else 0.0)
  {
    if o.Allocated? {
      CreditAllSpec(t.accounts, o.detail.sharedWith, Share(o.detail), o.detail);
      AllTruthyCount(o.detail.sharedWith);
      EvenSplitSumsToTip(o.detail);
    }
  }

  lemma {:induction false} AllTruthyCount(names: seq<Option<string>>)
    requires forall j :: 0 <= j < |names| ==> Truthy(names[j])
    ensures TruthyCount(names) == |names|
  {
    if |names| > 0 {
      AllTruthyCount(names[..|names| - 1]);
    }
  }

  /** An order stamped exactly at a shift's clock-in or clock-out is paid to
      that shift's employee, provided it passes the filters and has a
      positive tip. */
  lemma OrderAtShiftBoundaryIsPaid(
    env: Env, m: Mappings, filters: seq<FilterRule>, shifts: seq<Record>, order: Record, i: nat, boundary: Instant)
    requires i < |shifts|
    requires !IsOrderFilteredOut(order, filters)
    requires TipAmount(env, m.orders, order).Some? && TipAmount(env, m.orders, order).value > 0.0
    requires ShiftWindow(env.parse, m.timesheet, shifts[i]).Some?
    requires var w := ShiftWindow(env.parse, m.timesheet, shifts[i]).value;
      w.clockIn <= w.clockOut && (boundary == w.clockIn || boundary == w.clockOut)
    requires OrderInstant(env, m.orders, order) == Some(boundary)
    requires Truthy(Get(shifts[i], m.timesheet.employeeName))
    ensures Pays(env, m, filters, shifts, order, shifts[i][m.timesheet.employeeName])
  {
    var ws := Windows(env.parse, m.timesheet, shifts);
    assert ws[i] == ShiftWindow(env.parse, m.timesheet, shifts[i]);
    EndpointsMatch(ws, i);
    var matched := MatchedShifts(ws, boundary);
    assert i in matched;
    assert OnDuty(ws, i, boundary);
    var j :| 0 <= j < |matched| && matched[j] == i;
    ClassifySpec(env, m, filters, shifts, order);
    var o := Classify(env, m, filters, shifts, order);
    assert o.Allocated?;
    var working := WorkingEmployees(m.timesheet, shifts, matched);
    assert o.detail.sharedWith == working;
    assert working[j] == Get(shifts[i], m.timesheet.employeeName);
    assert Some(shifts[i][m.timesheet.employeeName]) in o.detail.sharedWith;
  }
}
