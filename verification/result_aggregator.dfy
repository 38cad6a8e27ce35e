/** The final map-and-sort of `calculateTipDistribution`: one payout per
    account, rounded once, sorted by employee name. */
module ResultAggregator {
  import opened Ledger
  import opened StringOrder

  /** One entry of the engine's result. */
  datatype Payout = Payout(employeeName: string, totalAmount: real, totalHours: real, tips: seq<TipDetail>)

  /** `parseFloat(x.toFixed(2))`: rounding to cents, left to the JavaScript
      runtime and taken as a parameter. */
  type Rounder = real -> real

  /** The payout built from one account: total and hours rounded, the hours
      defaulting to 0 for an employee without an entry in the hours pass. */
  function ToPayout(round2: Rounder, hours: map<string, real>, a: Account): (p: Payout)
    ensures p.employeeName == a.name && p.tips == a.tips
    ensures p.totalAmount == round2(a.totalAmount)
    ensures a.name in hours ==> p.totalHours == round2(hours[a.name])
    ensures a.name !in hours ==> p.totalHours == round2(0.0)
  {
    Payout(a.name, round2(a.totalAmount), round2(if a.name in hours then hours[a.name] else 0.0), a.tips)
  }

  predicate SortedByName(ps: seq<Payout>) {
    forall i, j :: 0 <= i < j < |ps| ==> Less(ps[i].employeeName, ps[j].employeeName)
  }

  predicate DistinctPayoutNames(ps: seq<Payout>) {
    forall i, j :: 0 <= i < j < |ps| ==> ps[i].employeeName != ps[j].employeeName
  }

  /** Insert `p` into a list sorted by name that does not hold its name. */
  function InsertByName(p: Payout, ps: seq<Payout>): (r: seq<Payout>)
    requires SortedByName(ps)
    requires forall q :: q in ps ==> q.employeeName != p.employeeName
    ensures SortedByName(r)
    ensures multiset(r) == multiset(ps) + multiset{p}
  {
    if |ps| == 0 then [p]
    else if Less(p.employeeName, ps[0].employeeName) then
      forall j | 0 <= j < |ps|
        ensures Less(p.employeeName, ps[j].employeeName)
      {
        if j > 0 {
          LessTransitive(p.employeeName, ps[0].employeeName, ps[j].employeeName);
        }
      }
      ConsSorted(p, ps);
      [p] + ps
    else
      assert ps == [ps[0]] + ps[1..];
      var rest := InsertByName(p, ps[1..]);
      LessTotal(p.employeeName, ps[0].employeeName);
      forall q | q in rest
        ensures Less(ps[0].employeeName, q.employeeName)
      {
        assert q in multiset(rest);
      }
      ConsSorted(ps[0], rest);
      assert multiset([ps[0]] + rest) == multiset{ps[0]} + multiset(rest);
      [ps[0]] + rest
  }

  /** A payout whose name precedes every name of a sorted list can lead it. */
  lemma ConsSorted(p: Payout, ps: seq<Payout>)
    requires SortedByName(ps)
    requires forall j :: 0 <= j < |ps| ==> Less(p.employeeName, ps[j].employeeName)
    ensures SortedByName([p] + ps)
  {
    var r := [p] + ps;
    forall i, j | 0 <= i < j < |r|
      ensures Less(r[i].employeeName, r[j].employeeName)
    {
      if i > 0 {
        assert r[i] == ps[i - 1] && r[j] == ps[j - 1];
      }
    }
  }

  /** Insertion sort by name: a sorted permutation of `ps`. */
  function SortByName(ps: seq<Payout>): (r: seq<Payout>)
    requires DistinctPayoutNames(ps)
    ensures SortedByName(r)
    ensures multiset(r) == multiset(ps)
  {
    if |ps| == 0 then []
    else
      assert ps == [ps[0]] + ps[1..];
      var rest := SortByName(ps[1..]);
      forall q | q in rest
        ensures q.employeeName != ps[0].employeeName
      {
        assert q in multiset(rest);
      }
      InsertByName(ps[0], rest)
  }

  /** The payouts of every account in `l`, in the account order. */
  function PayoutsOf(round2: Rounder, hours: map<string, real>, l: Accounts): (ps: seq<Payout>)
    ensures |ps| == |l|
    ensures forall i :: 0 <= i < |l| ==> ps[i] == ToPayout(round2, hours, l[i])
  {
    seq(|l|, i requires 0 <= i < |l| => ToPayout(round2, hours, l[i]))
  }

  /** `Object.entries(employeeTotals).map(...).sort(...)`: exactly one payout
      per account, strictly ascending by name, each carrying the account's
      rounded total, its rounded hours and its tips. */
  function Aggregate(round2: Rounder, hours: map<string, real>, l: Accounts): (r: seq<Payout>)
    requires DistinctNames(l)
    ensures SortedByName(r)
    ensures |r| == |l|
    ensures forall i :: 0 <= i < |l| ==> ToPayout(round2, hours, l[i]) in r
    ensures forall p :: p in r ==> exists i :: 0 <= i < |l| && p == ToPayout(round2, hours, l[i])
  {
    var ps := PayoutsOf(round2, hours, l);
    var r := SortByName(ps);
    assert |r| == |multiset(r)| == |multiset(ps)| == |ps|;
    forall i | 0 <= i < |l|
      ensures ToPayout(round2, hours, l[i]) in r
    {
      assert ps[i] in multiset(ps);
    }
    forall p | p in r
      ensures exists i :: 0 <= i < |l| && p == ToPayout(round2, hours, l[i])
    {
      assert p in multiset(ps);
      var i :| 0 <= i < |ps| && ps[i] == p;
    }
    r
  }

  /** Sorted by a strict order, the names in the result are distinct. */
  lemma SortedNamesDistinct(ps: seq<Payout>)
    requires SortedByName(ps)
    ensures DistinctPayoutNames(ps)
  {
    forall i, j | 0 <= i < j < |ps|
      ensures ps[i].employeeName != ps[j].employeeName
    {
      if ps[i].employeeName == ps[j].employeeName {
        LessIrreflexive(ps[i].employeeName);
      }
    }
  }
}
