# Tip distributor, modelled in Dafny

This project models the allocation engine of the easy-tip-distributor
repository, `calculateTipDistribution` in `tip-distributor.js`, with its three
helpers, and proves what the engine promises about them.

- `normalizeTimeStr` expands the shorthand clock times `9:30p` and `11a` into
  ` PM`/` AM` form. Its model is the `TimeNormalizer` module.
- `parseDateTime` joins a date and a time and tries seven date-fns patterns
  in a fixed order. Its model is `DateTimeParser`.
- `isOrderFilteredOut` applies the caller's exclusion rules. Its model is
  `OrderFilter`.

`calculateTipDistribution` works in three stages:

1. A pre-pass sums each employee's worked hours. This is `ShiftHours`.
2. A loop over the orders does the rest. `ShiftMatching` finds the shifts on
   duty at an order's timestamp. `TipDistributor.Classify` decides what
   happens to the order. `Ledger` splits its tip evenly over the on-duty
   slots and credits the employees.
3. A final step builds one payout per credited employee and sorts the
   payouts by name. This is `ResultAggregator`.

`TipDistributor.CalculateTipDistribution` puts the stages together. It
returns the two diagnostic counters next to the payouts, because the source
only logs them.

`DistributionProperties` proves the engine-wide properties:

- accounts stay consistent with their tip details;
- payouts exist exactly for the employees who were paid;
- skipped orders leave no trace;
- the counters count what they claim to;
- each even split adds up to the tip;
- the shift window is inclusive at both ends.

`Scenarios` works one concrete example through the ledger and the final
sort. It then works the same example through the whole engine, using a small
date parser for the example's day in place of date-fns. `PrototypeKeys` models the one defect found in the source; see
"Findings".

Modelling choices:

- A row is a `map<string, string>` keyed by column name. A missing column is
  `None`, which stands for JavaScript `undefined`.
- Timestamps are integers: milliseconds since the epoch, like a JavaScript
  `Date`.
- Tips and hours are `real`, so the even split is exact.
- Anything the engine borrows from a library or the runtime is a parameter
  (`Env`, `FormatParser`):
  - date-fns `parse` followed by `isValid`, one pattern at a time;
  - `parseFloat` on the tip cell;
  - rounding to cents.
- `differenceInMinutes` is written out: the elapsed milliseconds divided by
  60000, truncated.
- `localeCompare` is code-point lexicographic order (`StringOrder.Less`),
  proved to be a strict total order.
- The running totals (`employeeTotals`) form an association list in
  insertion order with distinct names. A JavaScript object enumerates its
  string keys in insertion order too, except that keys that look like array
  indices (`"7"`, `"42"`) come first, in ascending numeric order. The final
  sort by name makes the output independent of either order.

Behaviour of the code worth noting:

- The hours of a shift are whole elapsed minutes divided by 60. A measured
  shift shorter than one minute therefore adds 0 hours, so an hour total
  can be 0.
- The hours pre-pass parses clock times only together with the shift's
  date column (`tip-distributor.js:85-92`). The matching loop first tries
  the time string alone (`tip-distributor.js:132-137`). The two can
  disagree on the same shift.
- `parseFloat` accepts `Infinity`, which is positive, so an infinite tip
  passes the tip check. Tips here are `real`, so an infinite tip cannot be
  expressed; see "Left out".
- Every operator names the condition under which an order is excluded:
  an `is` rule removes the orders whose cell equals the value, and an
  `is_not` rule removes the others.

## Model

| member | source | states |
|---|---|---|
| `TimeNormalizer.NormalizeTimeStr` | tip-distributor.js:3-15 | An absent or empty time is returned as given. A time whose trimmed, lower-cased form ends in `p` or `a` becomes that form without its last letter, followed by ` PM` or ` AM`. Any other time is returned unchanged, with its case and spacing. The result differs from the input exactly when the shorthand applies. |
| `TimeNormalizer.NormalizeIdempotent` | tip-distributor.js:3-15 | Normalising an already normalised time changes nothing. |
| `TimeNormalizer.MeridiemUnchanged` | tip-distributor.js:7-14 | A time whose trimmed, lower-cased form ends in `m` (`AM`/`PM` in any case) is returned untouched. |
| `Strings.Trim` | tip-distributor.js:7 | `trim()` leaves no ECMAScript whitespace or line terminator at either end. |
| `Strings.TrimKeepsMiddle` | tip-distributor.js:7 | `trim()` returns one contiguous slice of its input, and everything cut from either side is whitespace or a line terminator. |
| `Strings.StripsIsTrim` | tip-distributor.js:7 | Conversely, any slice with only whitespace cut from its sides and none left at its ends is the trim, so the slice characterisation determines `trim()`. |
| `Strings.TrimIdempotent` | tip-distributor.js:7 | Trimming twice is trimming once. |
| `Strings.TrimIgnoresTrailingSpace` | tip-distributor.js:21 | A trailing space added before trimming, as `${date} ${time}` leaves when the time is empty, makes no difference. |
| `Strings.Lower` | tip-distributor.js:7 | `toLowerCase()` keeps the length and maps each ASCII capital to its small letter, leaving every other character alone. |
| `DateTimeParser.FirstSuccess` | tip-distributor.js:31-37 | Finds the index of the first pattern under which the input parses, with no earlier pattern parsing it. It returns none when no pattern parses the input. |
| `DateTimeParser.ParseDateTime` | tip-distributor.js:17-38 | An absent or empty date gives no timestamp. Otherwise the result exists iff some of the seven patterns parses `${date} ${time}` trimmed. The result is the parse under the earliest such pattern. |
| `DateTimeParser.EarliestFormatWins` | tip-distributor.js:22-36 | When pattern `i` parses the joined string and no earlier pattern does, that parse is the result, whatever later patterns would give. |
| `DateTimeParser.EmptyTimeIsNoTime` | tip-distributor.js:17-21 | The join `${date} ${time}` with an empty or absent time trims to the trimmed date alone, so such a time adds nothing to what the patterns see. |
| `OrderFilter.IsOrderFilteredOut` | tip-distributor.js:40-62 | An order is excluded iff some rule fires. A rule fires when its field is present in the order and its operator's condition holds between the lower-cased cell and the lower-cased rule value. |
| `OrderFilter.Fires` | tip-distributor.js:42-59 | A single rule fires only when its field is present in the order and its operator is one of `contains`, `does_not_contain`, `is`, `is_not`. The other words fall through the `switch` with no effect. |
| `OrderFilter.AbsentFieldNeverFires` | tip-distributor.js:42-43 | A rule on a column the order lacks never fires. |
| `OrderFilter.UnknownOperatorNeverFires` | tip-distributor.js:46-59 | A rule whose operator is not one of the four recognised words never fires. |
| `OrderFilter.IsIgnoresCase` | tip-distributor.js:44-55 | An `is` rule excludes an order whose cell equals the rule value up to ASCII case (`Relay` against `relay`). |
| `OrderFilter.IsAndIsNotExcludeAll` | tip-distributor.js:53-58 | Rules `is v` and `is_not v` on the same present field together exclude every order. |
| `OrderFilter.EmptyValueRules` | tip-distributor.js:46-52 | Every cell includes the empty string: a `contains ""` rule excludes exactly the orders that have the field, and a `does_not_contain ""` rule excludes none. |
| `OrderFilter.NoRulesKeepEveryOrder` | tip-distributor.js:41-61 | With no rules, no order is excluded. |
| `OrderFilter.FilterIgnoresRuleOrder` | tip-distributor.js:41-61 | The verdict depends only on which rules are present, not on their order or repetition. |
| `OrderFilter.MoreRulesExcludeMore` | tip-distributor.js:41-61 | Adding rules never brings back an excluded order. |
| `ShiftHours.WholeMinutesBetween` | tip-distributor.js:99-102 | The minute difference is the number of whole minutes that fit between the two instants. |
| `ShiftHours.ShiftMinutes` | tip-distributor.js:77-102 | A shift the pass measures has a non-empty name cell and both clock times parse with the date column, clock-out strictly after clock-in. `ShiftMinutesSpec` gives the converse and the whole-minute count. |
| `ShiftHours.ShiftMinutesSpec` | tip-distributor.js:77-102 | A shift is measured iff all of these hold: its employee name is non-empty; both clock times parse with the date column after normalisation; clock-out is strictly after clock-in. It then counts the elapsed whole minutes. |
| `ShiftHours.ShiftContribution` | tip-distributor.js:99-106 | A shift contributes iff it is measured. It then adds its whole minutes divided by 60, a non-negative amount, to the employee named in its own name cell, which is non-empty. |
| `ShiftHours.Accumulate` | tip-distributor.js:103-106 | The accumulation over the contributions has an entry for a name iff some contribution credits that name. The entry equals the sum of that name's credited hours. |
| `ShiftHours.HoursPass` | tip-distributor.js:77-108 | The pre-pass has an entry for an employee iff at least one of their shifts is measured. The entry is the sum of those shifts' hours and is non-negative. No empty name gets an entry. |
| `ShiftHours.HoursPositive` | tip-distributor.js:99-106 | One measured shift of at least a minute makes its employee's total strictly positive. |
| `ShiftMatching.ResolveClock` | tip-distributor.js:130-137 | A clock time resolves iff the normalised time parses on its own or together with the date. The standalone parse takes precedence. |
| `ShiftMatching.ShiftWindow` | tip-distributor.js:127-141 | A shift has a window iff both its clock-in and its clock-out resolve. The window's ends are then the resolved clock-in and clock-out instants. |
| `ShiftMatching.MatchedShifts` | tip-distributor.js:126-147 | The matched shifts are, in shift order and each once, exactly the shifts whose window resolved and satisfies `clockIn <= t <= clockOut`. |
| `ShiftMatching.UnresolvedCount` | tip-distributor.js:138-141 | What one order adds to `unparsedShiftCount` is exactly the number of shifts whose window fails to resolve. It is 0 iff every shift resolves, and equals the number of shifts iff none does. |
| `ShiftMatching.WorkingEmployees` | tip-distributor.js:125-146 | `workingEmployees` holds the name cell of every matched shift, in order, including names that are absent or empty. |
| `ShiftMatching.EndpointsMatch` | tip-distributor.js:142-145 | An order stamped exactly at a shift's clock-in or clock-out is matched to that shift. |
| `ShiftMatching.ReversedWindowNeverMatches` | tip-distributor.js:142-145 | A shift whose clock-out resolves before its clock-in matches no order. |
| `TipDistributor.OrderId` | tip-distributor.js:153 | The recorded order id is the id cell when that cell is truthy, and `N/A` otherwise. It is never empty. |
| `TipDistributor.TipAmount` | tip-distributor.js:113-114 | An absent tip cell reads as NaN. A present one reads as `parseFloat` of the cell. Together with `ClassifySpec`, a NaN or non-positive tip makes the order `NoTip`. |
| `TipDistributor.Classify` | tip-distributor.js:111-157 | An allocated order's detail has at least one slot and a positive tip. Its display share is the rounded even share. |
| `TipDistributor.Allocate` | tip-distributor.js:149-157 | The allocation always produces a detail. It holds the order id, the whole tip and the on-duty slots exactly as given, and its display share is the rounded even share. The unrounded share times the slot count is the tip. |
| `TipDistributor.ClassifySpec` | tip-distributor.js:111-157 | Each outcome is characterised by an iff. An order is filtered out iff a rule fires. It is skipped for its tip iff the tip is NaN or not positive. It is unparsed iff its timestamp does not parse. It is allocated iff some shift is on duty. An allocated detail records the whole tip, the order id or `N/A`, and one slot per on-duty shift in shift order. Every order that reaches the matching loop is charged the same count of unresolved shifts. |
| `TipDistributor.SameColumnUsesDateOnly` | tip-distributor.js:115-120 | When the date and time mappings name the same column, the patterns see the trimmed date cell: the timestamp exists iff some pattern parses it, and is the parse under the earliest such pattern. |
| `TipDistributor.Step` | tip-distributor.js:121-171 | Only an allocated order changes the accounts. Names stay distinct. |
| `TipDistributor.Run` | tip-distributor.js:111-172 | The order loop keeps one account per name and counts at most one unparsed timestamp per order. `RunConsistent`, `RunNames` and `CountersCount` give the accounts' contents and both counters. |
| `TipDistributor.CalculateTipDistribution` | tip-distributor.js:64-191 | The payouts are strictly ascending by name. |
| `Ledger.Credit` | tip-distributor.js:161-168 | Crediting a name opens its account if needed. The account gains the share and the detail. Every other account is unchanged, and the grand total grows by the share. |
| `Ledger.CreditAll` | tip-distributor.js:159-170 | After the credit loop, names are still distinct. The accounts are the old ones plus every truthy name of `sharedWith`. |
| `Ledger.CreditAllSpec` | tip-distributor.js:159-170 | Every name gains `tip/k` and one copy of the detail per slot holding it. Falsy slots pay nobody. The grand total grows by one share per truthy slot. |
| `StringOrder.LessTransitive` | tip-distributor.js:190 | The name order used by the sort is transitive. |
| `StringOrder.LessTotal` | tip-distributor.js:190 | Any two different names are ordered one way or the other. |
| `ResultAggregator.SortByName` | tip-distributor.js:190 | The sort returns a permutation of its input, strictly ascending by name. |
| `ResultAggregator.ToPayout` | tip-distributor.js:184-189 | A payout keeps the account's name and tip details, and rounds its total. Its hours are the rounded hours-pass entry, or rounded 0 for an employee with no entry. |
| `ResultAggregator.Aggregate` | tip-distributor.js:183-190 | There is exactly one payout per account, and each is built from its account: rounded total, rounded hours (0 when absent) and the tips. The payouts are strictly ascending by name. |
| `ResultAggregator.SortedNamesDistinct` | tip-distributor.js:190 | The sorted payouts carry distinct names. |
| `DistributionProperties.CreditKeepsConsistent` | tip-distributor.js:159-170 | Crediting a valid detail keeps every account consistent. Each total is the sum of the unrounded shares of its tips, and each tip names its employee. |
| `DistributionProperties.RunConsistent` | tip-distributor.js:111-172 | The order loop keeps every account consistent and leaves no account under an empty name. |
| `DistributionProperties.RunNames` | tip-distributor.js:159-170 | An employee has an account after the loop iff some order paid them. |
| `DistributionProperties.PayoutsAreConsistent` | tip-distributor.js:167-190 | Every payout has a non-empty name and at least one tip. Its total is the rounded sum of its tips' unrounded shares, not of the rounded `tipShare`s. Its hours are the rounded hours from the pre-pass, or 0. Each of its tips is a valid detail naming the employee. |
| `DistributionProperties.PayoutsExactlyForPaidEmployees` | tip-distributor.js:183-190 | The payouts are sorted with distinct names. A payout exists for a name iff some order paid that name. |
| `DistributionProperties.HoursAloneEarnNoPayout` | tip-distributor.js:183-187 | An employee with hours but no allocated share gets no payout. |
| `DistributionProperties.SkippedOutcomesLeaveNoTrace` | tip-distributor.js:111-149 | The accounts depend only on the allocated orders. |
| `DistributionProperties.DroppingSkippedOrderKeepsPayouts` | tip-distributor.js:111-149 | Removing an order that is filtered out, has no positive tip, has no parseable timestamp or matches no shift leaves the payouts unchanged. |
| `DistributionProperties.CountersCount` | tip-distributor.js:121-141 | The first counter counts exactly the unparseable timestamps. The second charges the unresolved shifts once per order that reached the matching loop. |
| `DistributionProperties.EngineCounters` | tip-distributor.js:121-141 | The engine's `unparsedOrderCount` is the number of orders with an unparseable timestamp. Its `unparsedShiftCount` is the number of orders that reached matching times the number of unresolvable shifts. |
| `DistributionProperties.EvenSplitSumsToTip` | tip-distributor.js:150 | The `k` unrounded shares of a split add up to the tip exactly. |
| `DistributionProperties.AllocationConservesTip` | tip-distributor.js:149-170 | When every on-duty shift names its employee, an allocated order raises the sum of all totals by exactly its tip. A skipped order leaves the sum unchanged. |
| `DistributionProperties.OrderAtShiftBoundaryIsPaid` | tip-distributor.js:142-146 | An order that passes the filters, has a positive tip and is stamped at a named shift's clock-in or clock-out pays that shift's employee. |
| `Scenarios.AliceAndBobSplitTen` | tip-distributor.js:149-190 | A 10.00 tip on duty for Alice and Bob gives two payouts, Alice then Bob. Each has the rounded total of 5 and the one shared detail. |
| `Scenarios.NoonOrderEndToEnd` | tip-distributor.js:64-191 | The whole engine on one 10.00 order at 12:00 PM, with Alice on duty 11:00 AM to 01:00 PM and Bob 11:30 AM to 12:30 PM, under a date parser that reads the example's day. The output is Alice then Bob, each owed `round2(5)` with the one shared detail, with `round2(2)` and `round2(1)` hours. Both counters are 0. |
| `PrototypeKeys.CreditAllAsWritten` | tip-distributor.js:159-168 | Models the credit loop as written, where a lookup falls back to `Object.prototype`. When it does not throw, it agrees with `Ledger.CreditAll`. |
| `PrototypeKeys.CreditAllAsWrittenThrows` | tip-distributor.js:161-168 | Starting from accounts that own no inherited key, the credit loop as written throws iff some slot holds an inherited property name. |
| `PrototypeKeys.RunAsWritten` | tip-distributor.js:111-172 | When the order loop as written finishes, it computes what the model computes. |
| `PrototypeKeys.EngineThrowsIffInheritedNameIsPaid` | tip-distributor.js:70-168 | The engine as written throws iff some order pays an employee named like an `Object.prototype` property. |
| `PrototypeKeys.ToStringEmployeeCrashesAsWritten` | tip-distributor.js:161-168 | Take one 10.00 order on a shift worked by `toString`. As written, the credit throws. With map semantics, `toString` is owed 10. |

## Left out

- date-fns internals are outside the model: calendar validity, the reference date `new Date()`, and how each pattern reads its input. Each pattern parse is the parameter `FormatParser`.
- `parseFloat` on the tip cell is the parameter `parseNumber`; `None` stands for NaN. An `Infinity` tip, which the code would accept, cannot be expressed with `real` tips.
- `parseFloat(x.toFixed(2))` is the parameter `round2`, applied once per payout field and to the display share. Floating-point rounding of the running sums is not modelled: sums are exact reals.
- `Strings.Lower`: lower-cases ASCII letters only, not the full Unicode mapping of `toLowerCase`. The filter and the shorthand test see the same reduction.
- `StringOrder.Less`: code-point lexicographic order stands in for the locale-aware `localeCompare`. Only its being a strict total order is used.
- `console.warn` is left out. The two counters are returned in `Distribution` instead.
- Order cells, rule fields and mapping names that coincide with `Object.prototype` properties are left out. In that case `order[name]` reads an inherited value instead of `undefined`. Rows are maps, so such a lookup is absent. Only employee names in the credit loop are modelled this way (see `PrototypeKeys`).
- Non-string cells and `typeof` checks are left out: every cell is a string, as the CSV reader produces.
- api/index.js is not part of this model: the upload handling, CSV parsing, required-column row filter and HTTP error mapping.
- public/js/ui.js, public/js/main.js, public/js/state.js and public/js/api.js are not part of this model: the browser UI, local storage and network client.

## Findings

| source | as written | input that shows it | evidently intended | confidence | as-written member | corrected member |
|---|---|---|---|---|---|---|
| tip-distributor.js:161-168 | `employeeTotals` is a plain `{}`. `!employeeTotals[name]` is false for an inherited property such as `toString`, so no account is created, and `.tips.push` then reads `push` of `undefined` and throws a TypeError that aborts the whole computation. | One order with a positive tip on duty for a shift whose employee name is `toString` (or `constructor`, `valueOf`, `__proto__`, …) | Every employee name is its own key: the employee is credited like any other, and the engine does not raise | not executed | `PrototypeKeys.CreditAllAsWritten` | `Ledger.CreditAll` |
