/** `employeeTotals`: the running per-employee totals of the allocation loop,
    kept as a list of accounts in insertion order. (A JavaScript object lists
    array-index-like keys first; the final sort by name hides the
    difference.) */
module Ledger {
  import opened Optional
  import opened Records

  /** The record of one allocated order, shared by every employee it pays. */
  datatype TipDetail = TipDetail(orderId: string, orderTotalTip: real, tipShare: real, sharedWith: seq<Option<string>>)

  /** The unrounded share each slot of `sharedWith` is owed: `tip / k`. */
  function Share(d: TipDetail): real {
    if |d.sharedWith| == 0 then 0.0 else d.orderTotalTip / (|d.sharedWith| as real)
  }

  /** One entry of `employeeTotals`. */
  datatype Account = Account(name: string, totalAmount: real, tips: seq<TipDetail>)

  type Accounts = seq<Account>

  predicate DistinctNames(l: Accounts) {
    forall i, j :: 0 <= i < j < |l| ==> l[i].name != l[j].name
  }

  function Names(l: Accounts): set<string> {
    set i | 0 <= i < |l| :: l[i].name
  }

  /** The index of `name`'s account, if it has one. */
  function Find(l: Accounts, name: string): (r: Option<nat>)
    ensures r.Some? ==> r.value < |l| && l[r.value].name == name
    ensures r.None? <==> name !in Names(l)
  {
    if |l| == 0 then None
    else if l[|l| - 1].name == name then Some(|l| - 1)
    else
      var prefix := l[..|l| - 1];
      assert forall i :: 0 <= i < |prefix| ==> prefix[i] == l[i];
      assert Names(l) == Names(prefix) + {l[|l| - 1].name};
      Find(prefix, name)
  }

  /** `employeeTotals[name].totalAmount`, 0 for an employee with no entry. */
  function Amount(l: Accounts, name: string): real {
    match Find(l, name)
    case Some(i) => l[i].totalAmount
    case None => 0.0
  }

  /** `employeeTotals[name].tips`, empty for an employee with no entry. */
  function Tips(l: Accounts, name: string): seq<TipDetail> {
    match Find(l, name)
    case Some(i) => l[i].tips
    case None => []
  }

  /** With distinct names, the account found is the only one of that name. */
  lemma FindUnique(l: Accounts, name: string, i: nat)
    requires DistinctNames(l)
    requires i < |l| && l[i].name == name
    ensures Find(l, name) == Some(i)
  {
  }

  /** One credit: create the entry if missing, then add `share` to its total
      and append `detail` to its tips. Only `name`'s entry changes. */
  function Credit(l: Accounts, name: string, share: real, detail: TipDetail): (r: Accounts)
    requires DistinctNames(l)
    ensures DistinctNames(r)
    ensures Names(r) == Names(l) + {name}
    ensures Amount(r, name) == Amount(l, name) + share
    ensures Tips(r, name) == Tips(l, name) + [detail]
    ensures forall n :: n != name ==> Amount(r, n) == Amount(l, n) && Tips(r, n) == Tips(l, n)
    ensures Total(r) == Total(l) + share
  {
    match Find(l, name)
    case Some(i) =>
      var r := l[i := Account(name, l[i].totalAmount + share, l[i].tips + [detail])];
      assert Names(r) == Names(l) by {
        assert forall k :: 0 <= k < |l| ==> r[k].name == l[k].name;
      }
      FindUnique(r, name, i);
      forall n | n != name
        ensures Amount(r, n) == Amount(l, n) && Tips(r, n) == Tips(l, n)
      {
        if Find(l, n).Some? {
          FindUnique(r, n, Find(l, n).value);
        }
      }
      TotalUpdate(l, i, r[i]);
      r
    case None =>
      var r := l + [Account(name, 0.0 + share, [detail])];
      assert r[..|r| - 1] == l;
      assert Names(r) == Names(l) + {name} by {
        assert forall k :: 0 <= k < |l| ==> r[k] == l[k];
        assert r[|l|].name == name;
        forall x | x in Names(r)
          ensures x in Names(l) + {name}
        {
          var k :| 0 <= k < |r| && r[k].name == x;
          if k < |l| {
            assert x in Names(l);
          }
        }
      }
      FindUnique(r, name, |l|);
      forall n | n != name
        ensures Amount(r, n) == Amount(l, n) && Tips(r, n) == Tips(l, n)
      {
        if Find(l, n).Some? {
          FindUnique(r, n, Find(l, n).value);
        }
      }
      r
  }

  /** The sum of every account's running total. */
  function Total(l: Accounts): real {
    if |l| == 0 then 0.0 else Total(l[..|l| - 1]) + l[|l| - 1].totalAmount
  }

  lemma {:induction false} TotalUpdate(l: Accounts, i: nat, a: Account)
    requires i < |l|
    ensures Total(l[i := a]) == Total(l) - l[i].totalAmount + a.totalAmount
  {
    var r := l[i := a];
    if i < |l| - 1 {
      assert r[..|r| - 1] == l[..|l| - 1][i := a];
      TotalUpdate(l[..|l| - 1], i, a);
    } else {
      assert r[..|r| - 1] == l[..|l| - 1];
    }
  }

  /** How many slots of `names` credit `name`: present, non-empty, equal. */
  function Occurrences(names: seq<Option<string>>, name: string): nat {
    if |names| == 0 then 0
    else Occurrences(names[..|names| - 1], name) + (if name != "" && names[|names| - 1] == Some(name) then 1 else 0)
  }

  /** How many slots of `names` hold a truthy name. */
  function TruthyCount(names: seq<Option<string>>): nat {
    if |names| == 0 then 0
    else TruthyCount(names[..|names| - 1]) + (if Truthy(names[|names| - 1]) then 1 else 0)
  }

  /** The truthy names among `names`. */
  function TruthyNames(names: seq<Option<string>>): set<string> {
    set j | 0 <= j < |names| && Truthy(names[j]) :: names[j].value
  }

  /** `x` added to itself `k` times, as the loop does it. */
  function Times(k: nat, x: real): real {
    if k == 0 then 0.0 else Times(k - 1, x) + x
  }

  /** Repeated addition is multiplication. */
  lemma {:induction false} TimesIsProduct(k: nat, x: real)
    ensures Times(k, x) == (k as real) * x
  {
    if k > 0 {
      TimesIsProduct(k - 1, x);
    }
  }

  /** `detail` repeated `n` times. */
  function Repeat(detail: TipDetail, n: nat): (r: seq<TipDetail>)
    ensures |r| == n
    ensures forall j :: 0 <= j < n ==> r[j] == detail
  {
    if n == 0 then [] else Repeat(detail, n - 1) + [detail]
  }

  /** The inner loop `for (const employeeName of workingEmployees)`: every
      truthy slot of `names` is credited in turn, falsy slots are skipped.
      Names stay distinct and the truthy names gain accounts; what each is
      paid is stated by `CreditAllSpec`. */
  function CreditAll(l: Accounts, names: seq<Option<string>>, share: real, detail: TipDetail): (r: Accounts)
    requires DistinctNames(l)
    ensures DistinctNames(r)
    ensures Names(r) == Names(l) + TruthyNames(names)
  {
    if |names| == 0 then l
    else
      var acc := CreditAll(l, names[..|names| - 1], share, detail);
      CreditLastNames(l, acc, names, share, detail);
      CreditLast(acc, names, share, detail)
  }

  /** What `CreditAll` pays: every name gets one share and one copy of the
      detail per slot holding it, and the grand total grows by one share per
      truthy slot. */
  lemma {:induction false} CreditAllSpec(l: Accounts, names: seq<Option<string>>, share: real, detail: TipDetail)
    requires DistinctNames(l)
    ensures var r := CreditAll(l, names, share, detail);
      && (forall n :: Amount(r, n) == Amount(l, n) + Times(Occurrences(names, n), share))
      && (forall n :: Tips(r, n) == Tips(l, n) + Repeat(detail, Occurrences(names, n)))
      && Total(r) == Total(l) + Times(TruthyCount(names), share)
  {
    if |names| > 0 {
      var acc := CreditAll(l, names[..|names| - 1], share, detail);
      CreditAllSpec(l, names[..|names| - 1], share, detail);
      var r := CreditLast(acc, names, share, detail);
      assert CreditAll(l, names, share, detail) == r;
      forall n
        ensures Amount(r, n) == Amount(l, n) + Times(Occurrences(names, n), share)
        ensures Tips(r, n) == Tips(l, n) + Repeat(detail, Occurrences(names, n))
      {
        CreditLastPerName(l, acc, names, share, detail, n);
      }
      CreditLastTotal(l, acc, names, share, detail);
    }
  }

  /** The last iteration of the credit loop. */
  function CreditLast(acc: Accounts, names: seq<Option<string>>, share: real, detail: TipDetail): Accounts
    requires DistinctNames(acc) && |names| > 0
  {
    var last := names[|names| - 1];
    if Truthy(last) then Credit(acc, last.value, share, detail) else acc
  }

  /** The last iteration keeps names distinct and adds the last slot's name
      when it is truthy. */
  lemma CreditLastNames(l: Accounts, acc: Accounts, names: seq<Option<string>>, share: real, detail: TipDetail)
    requires |names| > 0 && DistinctNames(acc)
    requires Names(acc) == Names(l) + TruthyNames(names[..|names| - 1])
    ensures DistinctNames(CreditLast(acc, names, share, detail))
    ensures Names(CreditLast(acc, names, share, detail)) == Names(l) + TruthyNames(names)
  {
    TruthyNamesSnoc(names);
  }

  /** The last iteration extends the per-employee promise from all slots but
      the last to all slots. */
  lemma CreditLastPerName(l: Accounts, acc: Accounts, names: seq<Option<string>>, share: real, detail: TipDetail, n: string)
    requires |names| > 0 && DistinctNames(acc)
    requires Amount(acc, n) == Amount(l, n) + Times(Occurrences(names[..|names| - 1], n), share)
    requires Tips(acc, n) == Tips(l, n) + Repeat(detail, Occurrences(names[..|names| - 1], n))
    ensures Amount(CreditLast(acc, names, share, detail), n) == Amount(l, n) + Times(Occurrences(names, n), share)
    ensures Tips(CreditLast(acc, names, share, detail), n) == Tips(l, n) + Repeat(detail, Occurrences(names, n))
  {
    OccurrencesSnoc(names, n);
  }

  /** The last iteration adds one share to the grand total per truthy slot. */
  lemma CreditLastTotal(l: Accounts, acc: Accounts, names: seq<Option<string>>, share: real, detail: TipDetail)
    requires |names| > 0 && DistinctNames(acc)
    requires Total(acc) == Total(l) + Times(TruthyCount(names[..|names| - 1]), share)
    ensures Total(CreditLast(acc, names, share, detail)) == Total(l) + Times(TruthyCount(names), share)
  {
    var last := names[|names| - 1];
    var k := TruthyCount(names[..|names| - 1]);
    if Truthy(last) {
      assert TruthyCount(names) == k + 1;
      assert Times(k + 1, share) == Times(k, share) + share;
      assert Total(CreditLast(acc, names, share, detail)) == Total(acc) + share;
    } else {
      assert TruthyCount(names) == k;
    }
  }

  lemma TruthyNamesSnoc(names: seq<Option<string>>)
    requires |names| > 0
    ensures var last := names[|names| - 1];
      TruthyNames(names) == TruthyNames(names[..|names| - 1]) + (if Truthy(last) then {last.value} else {})
  {
    var prefix := names[..|names| - 1];
    assert forall j :: 0 <= j < |prefix| ==> prefix[j] == names[j];
  }

  lemma OccurrencesSnoc(names: seq<Option<string>>, n: string)
    requires |names| > 0
    ensures var last := names[|names| - 1];
      Occurrences(names, n) == Occurrences(names[..|names| - 1], n) + (if Truthy(last) && last.value == n then 1 else 0)
  {
  }
}
