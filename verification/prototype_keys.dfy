/** `employeeTotals` is a plain object literal, so reading
    `employeeTotals[name]` for a name the object does not own falls back to
    `Object.prototype`. For a name such as `toString` the read yields an
    inherited function, which is truthy, so the account is never created, and
    `employeeTotals[name].tips.push(...)` reads `push` of `undefined` and
    throws a TypeError that aborts the whole computation. This module models
    that behaviour as written and relates it to the map semantics the rest of
    the model uses. */
module PrototypeKeys {
  import opened Optional
  import opened Records
  import opened Ledger
  import opened TipDistributor
  import opened DistributionProperties

  /** The property names every plain object inherits from `Object.prototype`. */
  const InheritedKeys: set<string> := {
    "constructor", "hasOwnProperty", "isPrototypeOf", "propertyIsEnumerable",
    "toLocaleString", "toString", "valueOf", "__proto__",
    "__defineGetter__", "__defineSetter__", "__lookupGetter__", "__lookupSetter__"
  }

  /** A computation that either finishes or throws `TypeError` while
      crediting `name`. */
  datatype Attempt<T> = Done(value: T) | Threw(name: string)

  /** The credit loop as written: a truthy name that the object does not own
      but inherits throws; any other name is credited as usual. When it
      finishes, it agrees with the map semantics of `CreditAll`. */
  function CreditAllAsWritten(l: Accounts, names: seq<Option<string>>, share: real, detail: TipDetail): (r: Attempt<Accounts>)
    requires DistinctNames(l)
    ensures r.Done? ==> r.value == CreditAll(l, names, share, detail)
  {
    if |names| == 0 then Done(l)
    else
      match CreditAllAsWritten(l, names[..|names| - 1], share, detail)
      case Threw(n) => Threw(n)
      case Done(acc) =>
        var last := names[|names| - 1];
        if !Truthy(last) then Done(acc)
        else if last.value !in Names(acc) && last.value in InheritedKeys then Threw(last.value)
        else Done(Credit(acc, last.value, share, detail))
  }

  /** From accounts that own no inherited key, the credit loop as written
      throws iff some slot holds an inherited key. */
  lemma {:induction false} CreditAllAsWrittenThrows(l: Accounts, names: seq<Option<string>>, share: real, detail: TipDetail)
    requires DistinctNames(l)
    requires Names(l) !! InheritedKeys
    ensures CreditAllAsWritten(l, names, share, detail).Threw? <==> !(TruthyNames(names) !! InheritedKeys)
  {
    if |names| > 0 {
      var prefix := names[..|names| - 1];
      var last := names[|names| - 1];
      CreditAllAsWrittenThrows(l, prefix, share, detail);
      var before := CreditAllAsWritten(l, prefix, share, detail);
      if before.Done? {
        var acc := before.value;
        assert Names(acc) == Names(l) + TruthyNames(prefix);
      }
    }
  }

  /** The order loop as written. When it finishes, it agrees with `Run`. */
  function RunAsWritten(os: seq<Outcome>): (r: Attempt<Tally>)
    ensures r.Done? ==> r.value == Run(os)
  {
    if |os| == 0 then Done(Tally([], 0, 0))
    else
      match RunAsWritten(os[..|os| - 1])
      case Threw(n) => Threw(n)
      case Done(t) =>
        var o := os[|os| - 1];
        if !o.Allocated? then Done(Step(o, t))
        else
          match CreditAllAsWritten(t.accounts, o.detail.sharedWith, Share(o.detail), o.detail)
          case Threw(n) => Threw(n)
          case Done(l) => Done(Tally(l, t.unparsedOrders, t.unparsedShiftChecks + o.unresolved))
  }

  /** The engine as written throws iff the ledger the model builds holds an
      account whose name is an inherited key. */
  lemma {:induction false} RunAsWrittenThrowsOnInheritedAccount(os: seq<Outcome>)
    ensures RunAsWritten(os).Threw? <==> !(Names(Run(os).accounts) !! InheritedKeys)
  {
    if |os| > 0 {
      var prefix := os[..|os| - 1];
      var o := os[|os| - 1];
      RunAsWrittenThrowsOnInheritedAccount(prefix);
      var t := Run(prefix);
      if o.Allocated? {
        assert Names(Run(os).accounts) == Names(t.accounts) + TruthyNames(o.detail.sharedWith);
        if Names(t.accounts) !! InheritedKeys {
          CreditAllAsWrittenThrows(t.accounts, o.detail.sharedWith, Share(o.detail), o.detail);
        }
      }
    }
  }

  /** The same in the source's terms: the engine as written throws iff some
      order pays an employee whose name is an inherited key. */
  lemma EngineThrowsIffInheritedNameIsPaid(os: seq<Outcome>)
    ensures RunAsWritten(os).Threw? <==>
      exists j, n :: 0 <= j < |os| && n in InheritedKeys && PaysIn(os[j], n)
  {
    RunAsWrittenThrowsOnInheritedAccount(os);
    if RunAsWritten(os).Threw? {
      var n :| n in Names(Run(os).accounts) && n in InheritedKeys;
      RunNames(os, n);
    }
    if exists j, n :: 0 <= j < |os| && n in InheritedKeys && PaysIn(os[j], n) {
      var j, n :| 0 <= j < |os| && n in InheritedKeys && PaysIn(os[j], n);
      RunNames(os, n);
    }
  }

  /** A concrete witness: one ten-unit order on a shift worked by an employee
      named `toString`. As written, crediting the slot throws; with map
      semantics the employee is owed the whole tip. */
  lemma ToStringEmployeeCrashesAsWritten()
    ensures var d := TipDetail("1", 10.0, 10.0, [Some("toString")]);
      && CreditAllAsWritten([], d.sharedWith, Share(d), d) == Threw("toString")
      && Amount(CreditAll([], d.sharedWith, Share(d), d), "toString") == 10.0
  {
    var d := TipDetail("1", 10.0, 10.0, [Some("toString")]);
    assert d.sharedWith[..0] == [];
    assert Occurrences(d.sharedWith, "toString") == 1;
    assert Find([], "toString").None?;
    CreditAllSpec([], d.sharedWith, Share(d), d);
  }
}
