/** The red and yellow warnings of the inventory view: four name lists taken
    from the current-state table by expiry and by remaining percentage, the
    yellow ones then purged of the names already red for the same criterion. */
module Alerts {
  import opened Tables
  import opened Rounding
  import opened Aggregation

  /** Thresholds of the four filters. */
  const RedExpiryDays: int := 90
  const YellowExpiryDays: int := 180
  const RedPercent: real := 30.0
  const YellowPercent: real := 50.0

  /** The expiry date parsed back into an instant: midnight of that day. */
  function ExpiryInstant(item: Item): int
  {
    item.expiryDay * NanosPerDay
  }

  /** `p < t` on floats: NaN compares false, minus infinity is below everything. */
  predicate Below(p: Percent, t: real)
  {
    match p
    case Finite(v) => v < t
    case NegInf => true
    case PosInf => false
    case NaN => false
  }

  /** `p >= t` on floats. */
  predicate AtLeast(p: Percent, t: real)
  {
    match p
    case Finite(v) => v >= t
    case PosInf => true
    case NegInf => false
    case NaN => false
  }

  /** The four filters of the inventory view. */
  datatype Criterion = RedExpiry | RedRemaining | YellowExpiry | YellowRemaining

  /** Whether one current-state row passes a filter at instant `now`. */
  predicate Flagged(c: Criterion, s: ItemState, now: int)
  {
    match c
    case RedExpiry => ExpiryInstant(s.item) < now + RedExpiryDays * NanosPerDay
    case RedRemaining => Below(s.percent, RedPercent)
    case YellowExpiry =>
      ExpiryInstant(s.item) < now + YellowExpiryDays * NanosPerDay &&
      ExpiryInstant(s.item) >= now + RedExpiryDays * NanosPerDay
    case YellowRemaining => Below(s.percent, YellowPercent) && AtLeast(s.percent, RedPercent)
  }

  /** The "Chemical Name" column of the current-state table. */
  function StateNames(states: seq<ItemState>): seq<string>
  {
    seq(|states|, i requires 0 <= i < |states| => states[i].item.name)
  }

  /** No name occurs on two rows of the current-state table. */
  predicate UniqueNames(states: seq<ItemState>)
  {
    forall i, j :: 0 <= i < j < |states| ==> states[i].item.name != states[j].item.name
  }

  /** `a` is `b` with some elements left out, order kept. */
  predicate IsSubsequence(a: seq<string>, b: seq<string>)
    decreases |b|
  {
    a == [] ||
    (b != [] && ((a[0] == b[0] && IsSubsequence(a[1..], b[1..])) || IsSubsequence(a, b[1..])))
  }

  lemma {:induction false} SubsequenceTransitive(a: seq<string>, b: seq<string>, c: seq<string>)
    requires IsSubsequence(a, b) && IsSubsequence(b, c)
    ensures IsSubsequence(a, c)
    decreases |c|
  {
    if a != [] {
      if b[0] == c[0] && IsSubsequence(b[1..], c[1..]) {
        if a[0] == b[0] && IsSubsequence(a[1..], b[1..]) {
          SubsequenceTransitive(a[1..], b[1..], c[1..]);
        } else {
          SubsequenceTransitive(a, b[1..], c[1..]);
        }
      } else {
        SubsequenceTransitive(a, b, c[1..]);
      }
    }
  }

  /** A boolean-mask filter followed by `["Chemical Name"].tolist()`: the
      names of the rows that pass, in table order. */
  function NamesWhere(states: seq<ItemState>, c: Criterion, now: int): (r: seq<string>)
    ensures forall n :: n in r <==>
      exists i :: 0 <= i < |states| && states[i].item.name == n && Flagged(c, states[i], now)
  {
    if states == [] then []
    else
      (if Flagged(c, states[0], now) then [states[0].item.name] else [])
      + NamesWhere(states[1..], c, now)
  }

  /** `[chem for chem in names if chem not in excluded]`. */
  function Without(names: seq<string>, excluded: seq<string>): (r: seq<string>)
    ensures forall n :: n in r <==> n in names && n !in excluded
  {
    if names == [] then []
    else (if names[0] in excluded then [] else [names[0]]) + Without(names[1..], excluded)
  }

  lemma {:induction false} NamesWhereIsSubsequence(states: seq<ItemState>, c: Criterion, now: int)
    ensures IsSubsequence(NamesWhere(states, c, now), StateNames(states))
  {
    if states != [] {
      var rest := NamesWhere(states[1..], c, now);
      NamesWhereIsSubsequence(states[1..], c, now);
      assert StateNames(states)[1..] == StateNames(states[1..]);
      assert StateNames(states)[0] == states[0].item.name;
      SubsequenceOfTail(rest, StateNames(states));
      if Flagged(c, states[0], now) {
        assert NamesWhere(states, c, now) == [states[0].item.name] + rest;
      } else {
        assert NamesWhere(states, c, now) == rest;
      }
    }
  }

  /** Dropping the head of `b` keeps a subsequence of its tail a subsequence. */
  lemma SubsequenceOfTail(a: seq<string>, b: seq<string>)
    requires b != [] && IsSubsequence(a, b[1..])
    ensures IsSubsequence(a, b)
    ensures IsSubsequence([b[0]] + a, b)
  {
    assert ([b[0]] + a)[1..] == a;
  }

  lemma {:induction false} WithoutIsSubsequence(names: seq<string>, excluded: seq<string>)
    ensures IsSubsequence(Without(names, excluded), names)
  {
    if names != [] {
      var rest := Without(names[1..], excluded);
      WithoutIsSubsequence(names[1..], excluded);
      SubsequenceOfTail(rest, names);
      if names[0] in excluded {
        assert Without(names, excluded) == rest;
      } else {
        assert Without(names, excluded) == [names[0]] + rest;
      }
    }
  }

  /** The four warning lists of the inventory view. */
  datatype WarningLists = WarningLists(
    redExpiry: seq<string>,
    redRemaining: seq<string>,
    yellowExpiry: seq<string>,
    yellowRemaining: seq<string>)

  /** Red lists by the strict thresholds, yellow lists by the windows above
      them, each yellow list purged only of the red names of its own criterion. */
  function Classify(states: seq<ItemState>, now: int): (w: WarningLists)
    ensures forall n :: n in w.redExpiry <==>
      exists i :: 0 <= i < |states| && states[i].item.name == n && Flagged(RedExpiry, states[i], now)
    ensures forall n :: n in w.redRemaining <==>
      exists i :: 0 <= i < |states| && states[i].item.name == n && Flagged(RedRemaining, states[i], now)
    ensures forall n :: n in w.yellowExpiry <==>
      n !in w.redExpiry &&
      exists i :: 0 <= i < |states| && states[i].item.name == n && Flagged(YellowExpiry, states[i], now)
    ensures forall n :: n in w.yellowRemaining <==>
      n !in w.redRemaining &&
      exists i :: 0 <= i < |states| && states[i].item.name == n && Flagged(YellowRemaining, states[i], now)
  {
    var redExpiry := NamesWhere(states, RedExpiry, now);
    var redRemaining := NamesWhere(states, RedRemaining, now);
    WarningLists(
      redExpiry,
      redRemaining,
      Without(NamesWhere(states, YellowExpiry, now), redExpiry),
      Without(NamesWhere(states, YellowRemaining, now), redRemaining))
  }

  /** The warnings computed for the current inventory. */
  function InventoryWarnings(inventory: seq<Item>, usage: seq<UsageEntry>, now: int): WarningLists
  {
    Classify(CurrentState(inventory, usage), now)
  }

  // ---------------------------------------------------------------------------
  // Properties
  // ---------------------------------------------------------------------------

  /** Every warning list is the name column with some names left out, in
      table order. */
  lemma WarningsKeepTableOrder(states: seq<ItemState>, now: int)
    ensures IsSubsequence(Classify(states, now).redExpiry, StateNames(states))
    ensures IsSubsequence(Classify(states, now).redRemaining, StateNames(states))
    ensures IsSubsequence(Classify(states, now).yellowExpiry, StateNames(states))
    ensures IsSubsequence(Classify(states, now).yellowRemaining, StateNames(states))
  {
    NamesWhereIsSubsequence(states, RedExpiry, now);
    NamesWhereIsSubsequence(states, RedRemaining, now);
    NamesWhereIsSubsequence(states, YellowExpiry, now);
    NamesWhereIsSubsequence(states, YellowRemaining, now);
    var redExpiry := NamesWhere(states, RedExpiry, now);
    var redRemaining := NamesWhere(states, RedRemaining, now);
    WithoutIsSubsequence(NamesWhere(states, YellowExpiry, now), redExpiry);
    WithoutIsSubsequence(NamesWhere(states, YellowRemaining, now), redRemaining);
    SubsequenceTransitive(Classify(states, now).yellowExpiry, NamesWhere(states, YellowExpiry, now), StateNames(states));
    SubsequenceTransitive(Classify(states, now).yellowRemaining, NamesWhere(states, YellowRemaining, now), StateNames(states));
  }

  lemma {:induction false} WithoutNothing(names: seq<string>, excluded: seq<string>)
    requires forall k :: 0 <= k < |names| ==> names[k] !in excluded
    ensures Without(names, excluded) == names
  {
    if names != [] {
      WithoutNothing(names[1..], excluded);
    }
  }

  /** With unique names the purges of the yellow lists remove nothing: a yellow
      list is exactly the rows in its window. */
  lemma PurgeIsNoOpForUniqueNames(states: seq<ItemState>, now: int)
    requires UniqueNames(states)
    ensures Classify(states, now).yellowExpiry == NamesWhere(states, YellowExpiry, now)
    ensures Classify(states, now).yellowRemaining == NamesWhere(states, YellowRemaining, now)
  {
    var yellowExpiry := NamesWhere(states, YellowExpiry, now);
    var redExpiry := NamesWhere(states, RedExpiry, now);
    forall k | 0 <= k < |yellowExpiry| ensures yellowExpiry[k] !in redExpiry {
      var n := yellowExpiry[k];
      assert n in yellowExpiry;
      var i :| 0 <= i < |states| && states[i].item.name == n && Flagged(YellowExpiry, states[i], now);
    }
    WithoutNothing(yellowExpiry, redExpiry);
    var yellowRemaining := NamesWhere(states, YellowRemaining, now);
    var redRemaining := NamesWhere(states, RedRemaining, now);
    forall k | 0 <= k < |yellowRemaining| ensures yellowRemaining[k] !in redRemaining {
      var n := yellowRemaining[k];
      assert n in yellowRemaining;
      var i :| 0 <= i < |states| && states[i].item.name == n && Flagged(YellowRemaining, states[i], now);
    }
    WithoutNothing(yellowRemaining, redRemaining);
  }

  /** The current state lists the inventory's names in inventory order, so
      distinct names in the Inventory table give distinct names in it. */
  lemma CurrentStateNames(inventory: seq<Item>, usage: seq<UsageEntry>)
    ensures StateNames(CurrentState(inventory, usage)) == Names(inventory)
    ensures DistinctNames(inventory) ==> UniqueNames(CurrentState(inventory, usage))
  {
    var states := CurrentState(inventory, usage);
    forall i | 0 <= i < |inventory| ensures states[i].item == inventory[i] {
      CurrentStateRow(inventory, usage, i);
    }
  }

  /** With distinct names in the Inventory table, removing the red names from
      the yellow lists removes nothing. */
  lemma InventoryPurgeIsNoOp(inventory: seq<Item>, usage: seq<UsageEntry>, now: int)
    requires DistinctNames(inventory)
    ensures InventoryWarnings(inventory, usage, now).yellowExpiry == NamesWhere(CurrentState(inventory, usage), YellowExpiry, now)
    ensures InventoryWarnings(inventory, usage, now).yellowRemaining == NamesWhere(CurrentState(inventory, usage), YellowRemaining, now)
  {
    CurrentStateNames(inventory, usage);
    PurgeIsNoOpForUniqueNames(CurrentState(inventory, usage), now);
  }

  /** Exclusion never crosses criteria: a row red by remaining percentage and
      inside the yellow expiry window is on both lists. */
  lemma RedByRemainingAndYellowByExpiry(states: seq<ItemState>, now: int, i: nat)
    requires UniqueNames(states) && i < |states|
    requires Flagged(RedRemaining, states[i], now) && Flagged(YellowExpiry, states[i], now)
    ensures states[i].item.name in Classify(states, now).redRemaining
    ensures states[i].item.name in Classify(states, now).yellowExpiry
  {
    PurgeIsNoOpForUniqueNames(states, now);
  }

  /** In days: an expiry date is red exactly when it is less than 90 days
      after today's date, or exactly 90 days after it once the clock is past
      midnight; the yellow window is the same with 90 and 180. */
  lemma ExpiryInDays(item: Item, now: int, days: int)
    ensures item.expiryDay * NanosPerDay < now + days * NanosPerDay <==>
      item.expiryDay < DayOf(now) + days ||
      (item.expiryDay == DayOf(now) + days && now != DayOf(now) * NanosPerDay)
  {
    var today := DayOf(now);
    var e := item.expiryDay - days;
    assert item.expiryDay * NanosPerDay - days * NanosPerDay == e * NanosPerDay;
    if e < today {
      assert e * NanosPerDay <= (today - 1) * NanosPerDay;
    } else if e > today {
      assert e * NanosPerDay >= (today + 1) * NanosPerDay;
    }
  }

  /** Today is day `t`. Expiring on day `t + 89` is red; on day `t + 90` it is
      yellow at midnight and red one nanosecond later. */
  lemma NinetyDayBoundary(item: Item, t: int)
    ensures item.expiryDay == t + 89 ==> Flagged(RedExpiry, StateOf(item, 0.0), t * NanosPerDay)
    ensures item.expiryDay == t + 90 ==>
      !Flagged(RedExpiry, StateOf(item, 0.0), t * NanosPerDay) &&
      Flagged(YellowExpiry, StateOf(item, 0.0), t * NanosPerDay) &&
      Flagged(RedExpiry, StateOf(item, 0.0), t * NanosPerDay + 1)
  {
  }

  /** For a positive or negative initial quantity the remaining filters act on
      the unrounded ratio with the thresholds moved down by half a hundredth:
      ratios rounding to exactly 30.00 or 50.00 fall on the milder side. */
  lemma RemainingThresholds(item: Item, totalUsed: real, now: int)
    requires item.initial != 0.0
    ensures var ratio := 100.0 * (item.initial - totalUsed) / item.initial;
      (Flagged(RedRemaining, StateOf(item, totalUsed), now) <==> ratio < 29.995) &&
      (Flagged(YellowRemaining, StateOf(item, totalUsed), now) <==> 29.995 <= ratio < 49.995)
  {
    var ratio := 100.0 * (item.initial - totalUsed) / item.initial;
    Round2BelowThreshold(ratio, 3000);
    Round2BelowThreshold(ratio, 5000);
  }

  /** Exactly 30 percent is yellow and not red; exactly 50 percent is neither. */
  lemma PercentBoundaries(s: ItemState, now: int)
    ensures s.percent == Finite(30.0) ==> !Flagged(RedRemaining, s, now) && Flagged(YellowRemaining, s, now)
    ensures s.percent == Finite(50.0) ==> !Flagged(RedRemaining, s, now) && !Flagged(YellowRemaining, s, now)
  {
  }

  /** A chemical with initial quantity 0: with usage logged it is red by
      remaining (minus infinity), without it on no remaining list (NaN). */
  lemma ZeroInitialWarnings(item: Item, totalUsed: real, now: int)
    requires item.initial == 0.0
    ensures totalUsed > 0.0 ==> Flagged(RedRemaining, StateOf(item, totalUsed), now)
    ensures totalUsed == 0.0 ==>
      !Flagged(RedRemaining, StateOf(item, totalUsed), now) &&
      !Flagged(YellowRemaining, StateOf(item, totalUsed), now)
  {
  }

  /** 50 g of ethanol, nothing used, expiring 85 days from today: 100 percent
      remaining and still red by expiry. */
  lemma EthanolExample(t: int, now: int)
    requires DayOf(now) == t
    ensures var ethanol := Item("Ethanol", "64-17-5", 50.0, t + 85, "");
            var w := InventoryWarnings([ethanol], [], now);
            CurrentState([ethanol], [])[0].percent == Finite(100.0) &&
            w.redExpiry == ["Ethanol"] && w.redRemaining == [] && w.yellowExpiry == [] && w.yellowRemaining == []
  {
    var ethanol := Item("Ethanol", "64-17-5", 50.0, t + 85, "");
    EmptyLedger([ethanol], 0);
    var states := CurrentState([ethanol], []);
    assert states[0].item == ethanol;
    assert states[0].percent == Finite(100.0);
    assert states[1..] == [];
    assert Flagged(RedExpiry, states[0], now);
    assert NamesWhere(states, RedExpiry, now) == ["Ethanol"];
    assert NamesWhere(states, RedRemaining, now) == [];
    assert NamesWhere(states, YellowExpiry, now) == [];
    assert NamesWhere(states, YellowRemaining, now) == [];
  }

  /** 100 g of acetone with 40 g and 35 g used and a year to go: 25 % left puts
      it on the red remaining list and, being below the yellow window, on no
      other list. */
  lemma AcetoneWarnings(t: int, now: int)
    requires DayOf(now) == t
    ensures var acetone := Item("Acetone", "67-64-1", 100.0, t + 365, "");
            var log := [UsageEntry(0, "Acetone", 40.0, ""), UsageEntry(1, "Acetone", 35.0, "")];
            var w := InventoryWarnings([acetone], log, now);
            w.redRemaining == ["Acetone"] && w.yellowRemaining == [] && w.redExpiry == [] && w.yellowExpiry == []
  {
    var acetone := Item("Acetone", "67-64-1", 100.0, t + 365, "");
    var log := [UsageEntry(0, "Acetone", 40.0, ""), UsageEntry(1, "Acetone", 35.0, "")];
    AcetoneExample(t + 365);
    var states := CurrentState([acetone], log);
    assert states[0].item == acetone;
    assert states[1..] == [];
    assert Flagged(RedRemaining, states[0], now);
    assert NamesWhere(states, RedExpiry, now) == [];
    assert NamesWhere(states, RedRemaining, now) == ["Acetone"];
    assert NamesWhere(states, YellowExpiry, now) == [];
    assert NamesWhere(states, YellowRemaining, now) == [];
  }
}
