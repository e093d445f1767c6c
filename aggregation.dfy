/** The current-state table of the inventory view: the Usage table is
    left-joined onto the Inventory table by exact chemical name, the amounts
    are summed per name, and each inventory row gets its total used, its
    remaining amount and its remaining percentage. */
module Aggregation {
  import opened Tables
  import opened Rounding

  // ---------------------------------------------------------------------------
  // Reference sum over the Usage table
  // ---------------------------------------------------------------------------

  /** Sum of "Amount Used (g)" over the usage rows whose name is exactly `name`. */
  function UsedBy(usage: seq<UsageEntry>, name: string): real
  {
    if usage == [] then 0.0
    else (if usage[0].name == name then usage[0].amount else 0.0) + UsedBy(usage[1..], name)
  }

  lemma {:induction false} UsedByAppend(a: seq<UsageEntry>, b: seq<UsageEntry>, name: string)
    ensures UsedBy(a + b, name) == UsedBy(a, name) + UsedBy(b, name)
  {
    if a == [] {
      assert a + b == b;
    } else {
      assert (a + b)[1..] == a[1..] + b;
      UsedByAppend(a[1..], b, name);
    }
  }

  /** Rows of other chemicals contribute nothing to a chemical's sum. */
  lemma {:induction false} UsedByOtherNames(usage: seq<UsageEntry>, name: string)
    requires forall k :: 0 <= k < |usage| ==> usage[k].name != name
    ensures UsedBy(usage, name) == 0.0
  {
    if usage != [] {
      UsedByOtherNames(usage[1..], name);
    }
  }

  lemma UsedBySplitAt(b: seq<UsageEntry>, k: nat, name: string)
    requires k < |b|
    ensures UsedBy(b, name) == (if b[k].name == name then b[k].amount else 0.0) + UsedBy(b[..k] + b[k + 1..], name)
  {
    assert b == b[..k] + ([b[k]] + b[k + 1..]);
    assert ([b[k]] + b[k + 1..])[1..] == b[k + 1..];
    UsedByAppend(b[..k], [b[k]] + b[k + 1..], name);
    UsedByAppend(b[..k], b[k + 1..], name);
  }

  lemma RemoveFromBothSides<T>(a: seq<T>, b: seq<T>, k: nat)
    requires multiset(a) == multiset(b) && a != [] && k < |b| && b[k] == a[0]
    ensures multiset(a[1..]) == multiset(b[..k] + b[k + 1..])
  {
    assert a == [a[0]] + a[1..];
    assert b == b[..k] + [b[k]] + b[k + 1..];
    assert multiset(b) == multiset(b[..k]) + multiset{b[k]} + multiset(b[k + 1..]);
    assert multiset(a) == multiset{a[0]} + multiset(a[1..]);
    calc {
      multiset(a[1..]);
      multiset(a) - multiset{a[0]};
      multiset(b) - multiset{b[k]};
      multiset(b[..k]) + multiset(b[k + 1..]);
      multiset(b[..k] + b[k + 1..]);
    }
  }

  /** The sum does not depend on the order of the Usage table. */
  lemma {:induction false} UsedByPermutation(a: seq<UsageEntry>, b: seq<UsageEntry>, name: string)
    requires multiset(a) == multiset(b)
    ensures UsedBy(a, name) == UsedBy(b, name)
    decreases |a|
  {
    if a == [] {
      assert |b| == |multiset(b)| == 0;
    } else {
      assert a[0] in multiset(b);
      var k :| 0 <= k < |b| && b[k] == a[0];
      RemoveFromBothSides(a, b, k);
      UsedByPermutation(a[1..], b[..k] + b[k + 1..], name);
      UsedBySplitAt(b, k, name);
    }
  }

  /** `k` copies of `x` added up: the usage of a name counted once per
      inventory row carrying it, which ScaledIsProduct shows is `k * x`. */
  function Scaled(k: nat, x: real): real
  {
    if k == 0 then 0.0 else x + Scaled(k - 1, x)
  }

  /** The repeated sum is the product: `k` copies of `x` make `k * x`. */
  lemma {:induction false} ScaledIsProduct(k: nat, x: real)
    ensures Scaled(k, x) == k as real * x
  {
    if k > 0 {
      ScaledIsProduct(k - 1, x);
      assert k as real * x == x + (k - 1) as real * x;
    }
  }

  // ---------------------------------------------------------------------------
  // The left join and the group sum (streamlit_app.py:88-101)
  // ---------------------------------------------------------------------------

  /** A row of the merged frame: an inventory row with one matching usage row,
      or with NaN usage columns when it has no match. */
  datatype Joined = Joined(item: Item, use: Option<UsageEntry>)

  /** The usage rows matching `item`, in Usage-table order. */
  function Matches(item: Item, usage: seq<UsageEntry>): seq<Joined>
  {
    if usage == [] then []
    else
      (if usage[0].name == item.name then [Joined(item, Some(usage[0]))] else [])
      + Matches(item, usage[1..])
  }

  /** What the left merge produces for one inventory row. */
  function JoinRows(item: Item, usage: seq<UsageEntry>): seq<Joined>
  {
    var m := Matches(item, usage);
    if m == [] then [Joined(item, None)] else m
  }

  /** `pd.merge(inventory, usage, on="Chemical Name", how="left")`: inventory
      order, and within one inventory row the matching usage rows in order. */
  function LeftJoin(inventory: seq<Item>, usage: seq<UsageEntry>): (r: seq<Joined>)
    ensures |r| >= |inventory|
  {
    if inventory == [] then []
    else JoinRows(inventory[0], usage) + LeftJoin(inventory[1..], usage)
  }

  /** Each matching row pairs `item` with a usage row of exactly its name. */
  lemma {:induction false} MatchesOrigin(item: Item, usage: seq<UsageEntry>, k: nat)
    requires k < |Matches(item, usage)|
    ensures var row := Matches(item, usage)[k];
      row.item == item && row.use.Some? && row.use.value in usage && row.use.value.name == item.name
  {
    var head := if usage[0].name == item.name then [Joined(item, Some(usage[0]))] else [];
    if k >= |head| {
      MatchesOrigin(item, usage[1..], k - |head|);
    }
  }

  /** An inventory row has no matches exactly when no usage row carries its
      name, and then the usage sum of its name is 0. */
  lemma {:induction false} NoMatchesNoUsage(item: Item, usage: seq<UsageEntry>)
    ensures Matches(item, usage) == [] <==> forall k :: 0 <= k < |usage| ==> usage[k].name != item.name
    ensures Matches(item, usage) == [] ==> UsedBy(usage, item.name) == 0.0
  {
    if usage != [] {
      var rest := usage[1..];
      NoMatchesNoUsage(item, rest);
      if usage[0].name != item.name {
        assert Matches(item, usage) == Matches(item, rest);
        assert (forall k :: 0 <= k < |usage| ==> usage[k].name != item.name)
           <==> (forall k :: 0 <= k < |rest| ==> rest[k].name != item.name) by {
          forall k | 0 <= k < |rest| ensures rest[k] == usage[k + 1] { }
        }
      }
    }
  }

  /** Every usage row of the item's name is matched, and as often as it occurs
      in the Usage table: no usage row is lost or duplicated by the match. */
  lemma {:induction false} MatchesCount(item: Item, usage: seq<UsageEntry>, u: UsageEntry)
    requires u.name == item.name
    ensures multiset(Matches(item, usage))[Joined(item, Some(u))] == multiset(usage)[u]
  {
    if usage != [] {
      var rest := usage[1..];
      MatchesCount(item, rest, u);
      var head := if usage[0].name == item.name then [Joined(item, Some(usage[0]))] else [];
      assert usage == [usage[0]] + rest;
      assert multiset(Matches(item, usage)) == multiset(head) + multiset(Matches(item, rest));
      assert multiset(usage) == multiset{usage[0]} + multiset(rest);
    }
  }

  /** The merged rows of one inventory row carry that row, and the NaN row
      appears only when nothing matches. */
  lemma JoinRowsItems(item: Item, usage: seq<UsageEntry>, x: Joined)
    ensures x in JoinRows(item, usage) ==> x.item == item && (x.use.None? ==> Matches(item, usage) == [])
  {
    if x in Matches(item, usage) {
      var k :| 0 <= k < |Matches(item, usage)| && Matches(item, usage)[k] == x;
      MatchesOrigin(item, usage, k);
    }
  }

  /** The merged rows of one inventory row hold each of its usage rows exactly
      as often as the Usage table does. */
  lemma JoinRowsCount(item: Item, usage: seq<UsageEntry>, u: UsageEntry)
    requires u.name == item.name
    ensures multiset(JoinRows(item, usage))[Joined(item, Some(u))] == multiset(usage)[u]
  {
    MatchesCount(item, usage, u);
  }

  /** A row is in the merged frame exactly when it is among the merged rows of
      some inventory row. */
  lemma {:induction false} LeftJoinMember(inventory: seq<Item>, usage: seq<UsageEntry>, x: Joined)
    ensures x in LeftJoin(inventory, usage) <==>
      exists j :: 0 <= j < |inventory| && x in JoinRows(inventory[j], usage)
  {
    if inventory != [] {
      var rest := inventory[1..];
      LeftJoinMember(rest, usage, x);
      assert x in LeftJoin(inventory, usage) <==> x in JoinRows(inventory[0], usage) || x in LeftJoin(rest, usage);
      if exists j :: 0 <= j < |inventory| && x in JoinRows(inventory[j], usage) {
        var j :| 0 <= j < |inventory| && x in JoinRows(inventory[j], usage);
        if j > 0 {
          assert rest[j - 1] == inventory[j];
        }
      }
      if exists j :: 0 <= j < |rest| && x in JoinRows(rest[j], usage) {
        var j :| 0 <= j < |rest| && x in JoinRows(rest[j], usage);
        assert inventory[j + 1] == rest[j];
      }
    }
  }

  /** Every merged row carries an inventory name. */
  lemma LeftJoinItemNames(inventory: seq<Item>, usage: seq<UsageEntry>, x: Joined)
    ensures x in LeftJoin(inventory, usage) ==> x.item.name in Names(inventory)
  {
    LeftJoinMember(inventory, usage, x);
    if x in LeftJoin(inventory, usage) {
      var j :| 0 <= j < |inventory| && x in JoinRows(inventory[j], usage);
      JoinRowsItems(inventory[j], usage, x);
      assert Names(inventory)[j] == x.item.name;
    }
  }

  /** Completeness of the merge: every usage row carrying the name of an
      inventory row is paired with that row. */
  lemma LeftJoinComplete(inventory: seq<Item>, usage: seq<UsageEntry>, i: nat, k: nat)
    requires i < |inventory| && k < |usage| && usage[k].name == inventory[i].name
    ensures Joined(inventory[i], Some(usage[k])) in LeftJoin(inventory, usage)
  {
    var x := Joined(inventory[i], Some(usage[k]));
    JoinRowsCount(inventory[i], usage, usage[k]);
    assert usage[k] in multiset(usage);
    assert x in multiset(JoinRows(inventory[i], usage));
    LeftJoinMember(inventory, usage, x);
  }

  /** An inventory row is paired with NaN exactly when no usage row carries
      its name. */
  lemma LeftJoinNaNRow(inventory: seq<Item>, usage: seq<UsageEntry>, i: nat)
    requires i < |inventory|
    ensures Joined(inventory[i], None) in LeftJoin(inventory, usage) <==>
      forall k :: 0 <= k < |usage| ==> usage[k].name != inventory[i].name
  {
    var x := Joined(inventory[i], None);
    LeftJoinMember(inventory, usage, x);
    NoMatchesNoUsage(inventory[i], usage);
    if x in LeftJoin(inventory, usage) {
      var j :| 0 <= j < |inventory| && x in JoinRows(inventory[j], usage);
      JoinRowsItems(inventory[j], usage, x);
      NoMatchesNoUsage(inventory[j], usage);
    }
    if Matches(inventory[i], usage) == [] {
      assert x in JoinRows(inventory[i], usage);
    }
  }

  /** Dropping the first row keeps names distinct. */
  lemma DistinctNamesTail(inventory: seq<Item>)
    requires inventory != [] && DistinctNames(inventory)
    ensures DistinctNames(inventory[1..])
  {
    var rest := inventory[1..];
    forall a, b | 0 <= a < b < |rest| ensures rest[a].name != rest[b].name {
      assert rest[a] == inventory[a + 1] && rest[b] == inventory[b + 1];
    }
  }

  /** With distinct names the first name does not occur again. */
  lemma HeadNameNotInTail(inventory: seq<Item>)
    requires inventory != [] && DistinctNames(inventory)
    ensures inventory[0].name !in Names(inventory[1..])
  {
    var rest := inventory[1..];
    forall j | 0 <= j < |rest| ensures Names(rest)[j] != inventory[0].name {
      assert rest[j] == inventory[j + 1];
    }
  }

  /** With distinct names the merged frame holds each pairing of an inventory
      row with a usage row of its name exactly as often as the Usage table
      holds that usage row: one merged row per logged use. */
  lemma {:induction false} LeftJoinCount(inventory: seq<Item>, usage: seq<UsageEntry>, i: nat, u: UsageEntry)
    requires DistinctNames(inventory) && i < |inventory| && u.name == inventory[i].name
    ensures multiset(LeftJoin(inventory, usage))[Joined(inventory[i], Some(u))] == multiset(usage)[u]
  {
    var x := Joined(inventory[i], Some(u));
    var rest := inventory[1..];
    var head := JoinRows(inventory[0], usage);
    var tail := LeftJoin(rest, usage);
    assert LeftJoin(inventory, usage) == head + tail;
    assert multiset(LeftJoin(inventory, usage))[x] == multiset(head)[x] + multiset(tail)[x];
    if i == 0 {
      JoinRowsCount(inventory[0], usage, u);
      HeadNameNotInTail(inventory);
      LeftJoinItemNames(rest, usage, x);
      assert multiset(tail)[x] == 0;
    } else {
      DistinctNamesTail(inventory);
      assert rest[i - 1] == inventory[i];
      LeftJoinCount(rest, usage, i - 1, u);
      assert inventory[0].name != inventory[i].name;
      JoinRowsItems(inventory[0], usage, x);
      assert multiset(head)[x] == 0;
    }
  }

  /** Every merged row pairs an inventory row with nothing or with a usage row
      of exactly its name: usage rows of unknown names never appear. */
  lemma {:induction false} LeftJoinOrigin(inventory: seq<Item>, usage: seq<UsageEntry>, k: nat)
    requires k < |LeftJoin(inventory, usage)|
    ensures var row := LeftJoin(inventory, usage)[k];
      row.item in inventory && (row.use.Some? ==> row.use.value in usage && row.use.value.name == row.item.name)
  {
    var first := JoinRows(inventory[0], usage);
    if k < |first| {
      if Matches(inventory[0], usage) != [] {
        MatchesOrigin(inventory[0], usage, k);
      }
    } else {
      LeftJoinOrigin(inventory[1..], usage, k - |first|);
    }
  }

  /** The amount a merged row adds to its group: NaN is skipped by `sum`. */
  function Contribution(row: Joined): real
  {
    match row.use
    case None => 0.0
    case Some(u) => u.amount
  }

  /** `groupby("Chemical Name")["Amount Used (g)"].sum()` read at `name`. */
  function GroupSum(rows: seq<Joined>, name: string): real
  {
    if rows == [] then 0.0
    else (if rows[0].item.name == name then Contribution(rows[0]) else 0.0) + GroupSum(rows[1..], name)
  }

  lemma {:induction false} GroupSumAppend(a: seq<Joined>, b: seq<Joined>, name: string)
    ensures GroupSum(a + b, name) == GroupSum(a, name) + GroupSum(b, name)
  {
    if a == [] {
      assert a + b == b;
    } else {
      assert (a + b)[1..] == a[1..] + b;
      GroupSumAppend(a[1..], b, name);
    }
  }

  /** Rows of other chemicals contribute nothing to a group. */
  lemma {:induction false} GroupSumOtherNames(rows: seq<Joined>, name: string)
    requires forall k :: 0 <= k < |rows| ==> rows[k].item.name != name
    ensures GroupSum(rows, name) == 0.0
  {
    if rows != [] {
      GroupSumOtherNames(rows[1..], name);
    }
  }

  lemma GroupSumSplitAt(b: seq<Joined>, k: nat, name: string)
    requires k < |b|
    ensures GroupSum(b, name) == (if b[k].item.name == name then Contribution(b[k]) else 0.0) + GroupSum(b[..k] + b[k + 1..], name)
  {
    assert b == b[..k] + ([b[k]] + b[k + 1..]);
    assert ([b[k]] + b[k + 1..])[1..] == b[k + 1..];
    GroupSumAppend(b[..k], [b[k]] + b[k + 1..], name);
    GroupSumAppend(b[..k], b[k + 1..], name);
  }

  /** The group sum does not depend on the order of the rows. */
  lemma {:induction false} GroupSumPermutation(a: seq<Joined>, b: seq<Joined>, name: string)
    requires multiset(a) == multiset(b)
    ensures GroupSum(a, name) == GroupSum(b, name)
    decreases |a|
  {
    if a == [] {
      assert |b| == |multiset(b)| == 0;
    } else {
      assert a[0] in multiset(b);
      var k :| 0 <= k < |b| && b[k] == a[0];
      RemoveFromBothSides(a, b, k);
      GroupSumPermutation(a[1..], b[..k] + b[k + 1..], name);
      GroupSumSplitAt(b, k, name);
    }
  }

  lemma {:induction false} GroupSumOfMatches(item: Item, usage: seq<UsageEntry>, name: string)
    ensures GroupSum(Matches(item, usage), name) == if item.name == name then UsedBy(usage, name) else 0.0
  {
    if usage != [] {
      var head := if usage[0].name == item.name then [Joined(item, Some(usage[0]))] else [];
      GroupSumAppend(head, Matches(item, usage[1..]), name);
      GroupSumOfMatches(item, usage[1..], name);
    }
  }

  /** One inventory row's merged rows add up to its usage sum. */
  lemma JoinRowsSum(item: Item, usage: seq<UsageEntry>, name: string)
    ensures GroupSum(JoinRows(item, usage), name) == if item.name == name then UsedBy(usage, name) else 0.0
  {
    GroupSumOfMatches(item, usage, name);
    NoMatchesNoUsage(item, usage);
  }

  /** The group sum of the merged frame counts each usage row once per
      inventory row carrying its name: with a duplicated name the usage of
      that name is counted several times. */
  lemma {:induction false} JoinedGroupSum(inventory: seq<Item>, usage: seq<UsageEntry>)
    ensures forall name :: GroupSum(LeftJoin(inventory, usage), name)
                           == Scaled(Occurrences(inventory, name), UsedBy(usage, name))
  {
    if inventory != [] {
      JoinedGroupSum(inventory[1..], usage);
      forall name
        ensures GroupSum(LeftJoin(inventory, usage), name)
                == Scaled(Occurrences(inventory, name), UsedBy(usage, name))
      {
        GroupSumAppend(JoinRows(inventory[0], usage), LeftJoin(inventory[1..], usage), name);
        JoinRowsSum(inventory[0], usage, name);
      }
    }
  }

  // ---------------------------------------------------------------------------
  // The derived columns (streamlit_app.py:94-108)
  // ---------------------------------------------------------------------------

  /** A float percentage: a number, or what float division by zero gives. */
  datatype Percent = Finite(value: real) | NaN | PosInf | NegInf

  /** `round(100 * remaining / initial, 2)` under float semantics. */
  function RemainingPercent(remaining: real, initial: real): (p: Percent)
    ensures p.Finite? <==> initial != 0.0
    ensures p.Finite? ==> 100.0 * remaining / initial - 0.005 <= p.value <= 100.0 * remaining / initial + 0.005
    ensures p == NaN <==> initial == 0.0 && remaining == 0.0
    ensures p == NegInf <==> initial == 0.0 && remaining < 0.0
  {
    if initial != 0.0 then Finite(Round2(100.0 * remaining / initial))
    else if remaining == 0.0 then NaN
    else if remaining < 0.0 then NegInf
    else PosInf
  }

  /** One row of the current-state table. */
  datatype ItemState = ItemState(item: Item, totalUsed: real, remaining: real, percent: Percent)

  function StateOf(item: Item, totalUsed: real): ItemState
  {
    var remaining := item.initial - totalUsed;
    ItemState(item, totalUsed, remaining, RemainingPercent(remaining, item.initial))
  }

  /** The current-state table: one row per inventory row, in inventory order;
      the total of a row is the usage sum of its name times the number of
      inventory rows carrying that name (the left join duplicates usage rows). */
  function CurrentState(inventory: seq<Item>, usage: seq<UsageEntry>): (r: seq<ItemState>)
    ensures |r| == |inventory|
  {
    var joined := LeftJoin(inventory, usage);
    seq(|inventory|, i requires 0 <= i < |inventory| => StateOf(inventory[i], GroupSum(joined, inventory[i].name)))
  }

  /** Row `i` of the current state is inventory row `i` with its name's usage
      sum counted once per inventory row carrying that name. */
  lemma CurrentStateRow(inventory: seq<Item>, usage: seq<UsageEntry>, i: nat)
    requires i < |inventory|
    ensures CurrentState(inventory, usage)[i]
            == StateOf(inventory[i], Scaled(Occurrences(inventory, inventory[i].name), UsedBy(usage, inventory[i].name)))
  {
    JoinedGroupSum(inventory, usage);
  }

  // ---------------------------------------------------------------------------
  // Properties of the current state
  // ---------------------------------------------------------------------------

  /** With distinct names, a chemical's total is the sum of the usage rows with
      exactly its name (0.0 without any), and the remaining amount is the
      initial quantity minus that total, unclamped. */
  lemma TotalUsedIsMatchingSum(inventory: seq<Item>, usage: seq<UsageEntry>, i: nat)
    requires DistinctNames(inventory) && i < |inventory|
    ensures CurrentState(inventory, usage)[i] == StateOf(inventory[i], UsedBy(usage, inventory[i].name))
    ensures CurrentState(inventory, usage)[i].totalUsed == UsedBy(usage, inventory[i].name)
    ensures CurrentState(inventory, usage)[i].remaining == inventory[i].initial - UsedBy(usage, inventory[i].name)
  {
    OccurrencesOfDistinct(inventory, i);
    CurrentStateRow(inventory, usage, i);
    assert Scaled(1, UsedBy(usage, inventory[i].name)) == UsedBy(usage, inventory[i].name);
  }

  /** With an empty Usage table nothing is used, everything remains, and a
      chemical with a positive initial quantity is at 100 percent. */
  lemma EmptyLedger(inventory: seq<Item>, i: nat)
    requires i < |inventory|
    ensures CurrentState(inventory, [])[i].totalUsed == 0.0
    ensures CurrentState(inventory, [])[i].remaining == inventory[i].initial
    ensures inventory[i].initial > 0.0 ==> CurrentState(inventory, [])[i].percent == Finite(100.0)
  {
    var k := Occurrences(inventory, inventory[i].name);
    ScaledIsProduct(k, 0.0);
    CurrentStateRow(inventory, [], i);
    if inventory[i].initial > 0.0 {
      WholeIsHundredPercent(inventory[i].initial);
    }
  }

  /** Removing a row of another name leaves a name's usage sum unchanged. */
  lemma UsedByWithout(before: seq<UsageEntry>, other: UsageEntry, after: seq<UsageEntry>, name: string)
    requires other.name != name
    ensures UsedBy(before + [other] + after, name) == UsedBy(before + after, name)
  {
    UsedByAppend(before + [other], after, name);
    UsedByAppend(before, [other], name);
    UsedByAppend(before, after, name);
  }

  /** A usage row whose name is not in the inventory is dropped by the join:
      removing it anywhere from the Usage table changes no row. */
  lemma OrphanIgnored(inventory: seq<Item>, before: seq<UsageEntry>, orphan: UsageEntry, after: seq<UsageEntry>)
    requires orphan.name !in Names(inventory)
    ensures CurrentState(inventory, before + [orphan] + after) == CurrentState(inventory, before + after)
  {
    var withOrphan := CurrentState(inventory, before + [orphan] + after);
    var without := CurrentState(inventory, before + after);
    forall i | 0 <= i < |inventory| ensures withOrphan[i] == without[i] {
      var name := inventory[i].name;
      assert Names(inventory)[i] == name;
      UsedByWithout(before, orphan, after, name);
      CurrentStateRow(inventory, before + [orphan] + after, i);
      CurrentStateRow(inventory, before + after, i);
    }
  }

  /** Reordering the Usage table changes no row of the current state. */
  lemma UsageOrderIrrelevant(inventory: seq<Item>, a: seq<UsageEntry>, b: seq<UsageEntry>)
    requires multiset(a) == multiset(b)
    ensures CurrentState(inventory, a) == CurrentState(inventory, b)
  {
    forall i | 0 <= i < |inventory|
      ensures CurrentState(inventory, a)[i] == CurrentState(inventory, b)[i]
    {
      var name := inventory[i].name;
      UsedByPermutation(a, b, name);
      CurrentStateRow(inventory, a, i);
      CurrentStateRow(inventory, b, i);
    }
  }

  /** Logging one usage row raises the total of exactly the chemical it names
      by its amount and leaves every other row as it was. */
  lemma LogUsageEffect(inventory: seq<Item>, usage: seq<UsageEntry>, entry: UsageEntry, i: nat)
    requires DistinctNames(inventory) && i < |inventory|
    ensures CurrentState(inventory, usage + [entry])[i].totalUsed
            == CurrentState(inventory, usage)[i].totalUsed + (if inventory[i].name == entry.name then entry.amount else 0.0)
    ensures inventory[i].name != entry.name ==> CurrentState(inventory, usage + [entry])[i] == CurrentState(inventory, usage)[i]
  {
    TotalUsedIsMatchingSum(inventory, usage, i);
    TotalUsedIsMatchingSum(inventory, usage + [entry], i);
    UsedByAppend(usage, [entry], inventory[i].name);
  }

  lemma AddChemicalKeepsRow(inventory: seq<Item>, usage: seq<UsageEntry>, item: Item, i: nat)
    requires item.name !in Names(inventory) && i < |inventory|
    ensures CurrentState(inventory + [item], usage)[i] == CurrentState(inventory, usage)[i]
  {
    var name := inventory[i].name;
    assert Names(inventory)[i] == name;
    OccurrencesAppend(inventory, item, name);
    CurrentStateRow(inventory, usage, i);
    CurrentStateRow(inventory + [item], usage, i);
    assert (inventory + [item])[i] == inventory[i];
  }

  lemma AddChemicalNewRow(inventory: seq<Item>, usage: seq<UsageEntry>, item: Item)
    requires item.name !in Names(inventory)
    ensures CurrentState(inventory + [item], usage)[|inventory|] == StateOf(item, UsedBy(usage, item.name))
  {
    var grown := inventory + [item];
    OccurrencesAppend(inventory, item, item.name);
    assert grown[|inventory|] == item;
    assert Occurrences(grown, item.name) == 1;
    assert Scaled(1, UsedBy(usage, item.name)) == UsedBy(usage, item.name);
    CurrentStateRow(grown, usage, |inventory|);
  }

  /** Adding a chemical with a new name keeps the existing rows and appends
      one row, whose total picks up any usage already logged under that name. */
  lemma AddChemicalEffect(inventory: seq<Item>, usage: seq<UsageEntry>, item: Item)
    requires item.name !in Names(inventory)
    ensures CurrentState(inventory + [item], usage)
            == CurrentState(inventory, usage) + [StateOf(item, UsedBy(usage, item.name))]
  {
    var before := CurrentState(inventory, usage);
    var after := CurrentState(inventory + [item], usage);
    var added := StateOf(item, UsedBy(usage, item.name));
    forall i | 0 <= i < |inventory| ensures after[i] == before[i] {
      AddChemicalKeepsRow(inventory, usage, item, i);
    }
    AddChemicalNewRow(inventory, usage, item);
    assert after == before + [added];
  }

  // ---------------------------------------------------------------------------
  // Every logged gram is accounted for exactly once
  // ---------------------------------------------------------------------------

  /** Sum of the totals of a current-state table. */
  function SumOfTotals(states: seq<ItemState>): real
  {
    if states == [] then 0.0 else states[0].totalUsed + SumOfTotals(states[1..])
  }

  /** Sum of all amounts in the Usage table. */
  function SumOfAmounts(usage: seq<UsageEntry>): real
  {
    if usage == [] then 0.0 else usage[0].amount + SumOfAmounts(usage[1..])
  }

  /** Sum of the usage sums of every inventory row's name. */
  function UsedByAll(inventory: seq<Item>, usage: seq<UsageEntry>): real
  {
    if inventory == [] then 0.0 else UsedBy(usage, inventory[0].name) + UsedByAll(inventory[1..], usage)
  }

  lemma {:induction false} SumOfAmountsAppend(usage: seq<UsageEntry>, entry: UsageEntry)
    ensures SumOfAmounts(usage + [entry]) == SumOfAmounts(usage) + entry.amount
  {
    if usage == [] {
      assert usage + [entry] == [entry];
    } else {
      assert (usage + [entry])[1..] == usage[1..] + [entry];
      SumOfAmountsAppend(usage[1..], entry);
    }
  }

  /** Appending one usage row adds its amount once per inventory row
      carrying its name. */
  lemma {:induction false} UsedByAllAppend(inventory: seq<Item>, usage: seq<UsageEntry>, entry: UsageEntry)
    ensures UsedByAll(inventory, usage + [entry])
            == UsedByAll(inventory, usage) + Scaled(Occurrences(inventory, entry.name), entry.amount)
  {
    if inventory != [] {
      UsedByAppend(usage, [entry], inventory[0].name);
      UsedByAllAppend(inventory[1..], usage, entry);
    }
  }

  lemma {:induction false} UsedByAllOfEmpty(inventory: seq<Item>)
    ensures UsedByAll(inventory, []) == 0.0
  {
    if inventory != [] {
      UsedByAllOfEmpty(inventory[1..]);
    }
  }

  lemma {:induction false} SumOfTotalsIsUsedByAll(inventory: seq<Item>, usage: seq<UsageEntry>)
    requires DistinctNames(inventory)
    ensures SumOfTotals(CurrentState(inventory, usage)) == UsedByAll(inventory, usage)
  {
    if inventory != [] {
      var states := CurrentState(inventory, usage);
      var rest := inventory[1..];
      assert DistinctNames(rest) by {
        forall i, j | 0 <= i < j < |rest| ensures rest[i].name != rest[j].name {
          assert rest[i] == inventory[i + 1] && rest[j] == inventory[j + 1];
        }
      }
      SumOfTotalsIsUsedByAll(rest, usage);
      forall i | 0 <= i < |rest| ensures states[1..][i] == CurrentState(rest, usage)[i] {
        TotalUsedIsMatchingSum(inventory, usage, i + 1);
        TotalUsedIsMatchingSum(rest, usage, i);
      }
      assert states[1..] == CurrentState(rest, usage);
      TotalUsedIsMatchingSum(inventory, usage, 0);
    }
  }

  /** Under the same conditions the usage sums over the inventory names add up
      to every amount in the Usage table. */
  lemma {:induction false} UsedByAllIsSumOfAmounts(inventory: seq<Item>, usage: seq<UsageEntry>)
    requires DistinctNames(inventory)
    requires forall k :: 0 <= k < |usage| ==> usage[k].name in Names(inventory)
    ensures UsedByAll(inventory, usage) == SumOfAmounts(usage)
    decreases |usage|
  {
    if usage == [] {
      UsedByAllOfEmpty(inventory);
    } else {
      var prefix, last := usage[..|usage| - 1], usage[|usage| - 1];
      assert usage == prefix + [last];
      UsedByAllIsSumOfAmounts(inventory, prefix);
      UsedByAllAppend(inventory, prefix, last);
      var i :| 0 <= i < |inventory| && Names(inventory)[i] == last.name;
      OccurrencesOfDistinct(inventory, i);
      SumOfAmountsAppend(prefix, last);
    }
  }

  /** When every usage row names an inventory chemical and names are distinct,
      the totals of the current state add up to everything logged. */
  lemma AllUsageAccounted(inventory: seq<Item>, usage: seq<UsageEntry>)
    requires DistinctNames(inventory)
    requires forall k :: 0 <= k < |usage| ==> usage[k].name in Names(inventory)
    ensures SumOfTotals(CurrentState(inventory, usage)) == SumOfAmounts(usage)
  {
    SumOfTotalsIsUsedByAll(inventory, usage);
    UsedByAllIsSumOfAmounts(inventory, usage);
  }

  // ---------------------------------------------------------------------------
  // Worked examples
  // ---------------------------------------------------------------------------

  /** 100 g of acetone with 40 g and 35 g logged: 75 g used, 25 g and 25 %
      remaining. */
  lemma AcetoneExample(expiryDay: int)
    ensures var acetone := Item("Acetone", "67-64-1", 100.0, expiryDay, "");
            var log := [UsageEntry(0, "Acetone", 40.0, ""), UsageEntry(1, "Acetone", 35.0, "")];
            var row := CurrentState([acetone], log)[0];
            row.totalUsed == 75.0 && row.remaining == 25.0 && row.percent == Finite(25.0)
  {
    Round2Exact(2500);
    var acetone := Item("Acetone", "67-64-1", 100.0, expiryDay, "");
    var log := [UsageEntry(0, "Acetone", 40.0, ""), UsageEntry(1, "Acetone", 35.0, "")];
    assert Occurrences([acetone], "Acetone") == 1;
    CurrentStateRow([acetone], log, 0);
  }

  /** At least one copy of a non-negative amount adds up to at least that
      amount. */
  lemma {:induction false} ScaledAtLeast(k: nat, x: real)
    requires k >= 1 && x >= 0.0
    ensures Scaled(k, x) >= x
  {
    if k > 1 {
      ScaledAtLeast(k - 1, x);
    }
  }

  /** A chemical with initial quantity 0 stays in the table; with nothing used
      its percentage is NaN, and once anything is used it is minus infinity. */
  lemma ZeroInitialQuantity(inventory: seq<Item>, usage: seq<UsageEntry>, i: nat)
    requires i < |inventory| && inventory[i].initial == 0.0
    ensures CurrentState(inventory, usage)[i].item == inventory[i]
    ensures UsedBy(usage, inventory[i].name) == 0.0 ==> CurrentState(inventory, usage)[i].percent == NaN
    ensures UsedBy(usage, inventory[i].name) > 0.0 ==> CurrentState(inventory, usage)[i].percent == NegInf
  {
    var name := inventory[i].name;
    var used := UsedBy(usage, name);
    var k := Occurrences(inventory, name);
    assert Names(inventory)[i] == name;
    CurrentStateRow(inventory, usage, i);
    if used == 0.0 {
      ScaledIsProduct(k, 0.0);
    } else if used > 0.0 {
      ScaledAtLeast(k, used);
    }
  }

  /** Over-consumption is kept: using more than a positive initial quantity
      leaves a negative remaining amount and a percentage of at most zero. */
  lemma OverConsumptionNotClamped(inventory: seq<Item>, usage: seq<UsageEntry>, i: nat)
    requires i < |inventory| && inventory[i].initial > 0.0 && UsedBy(usage, inventory[i].name) > inventory[i].initial
    ensures CurrentState(inventory, usage)[i].remaining < 0.0
    ensures CurrentState(inventory, usage)[i].percent.Finite? && CurrentState(inventory, usage)[i].percent.value <= 0.0
  {
    var item := inventory[i];
    var used := UsedBy(usage, item.name);
    var k := Occurrences(inventory, item.name);
    assert Names(inventory)[i] == item.name;
    ScaledAtLeast(k, used);
    var total := Scaled(k, used);
    var remaining := item.initial - total;
    CurrentStateRow(inventory, usage, i);
    assert CurrentState(inventory, usage)[i] == StateOf(item, total);
    assert StateOf(item, total).percent == Finite(Round2(100.0 * remaining / item.initial));
    NegativeRatioRoundsToAtMostZero(remaining, item.initial);
  }
}
