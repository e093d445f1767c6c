/** The usage-history view: the Usage table left-joined onto the Inventory
    table, sorted by chemical name and date, with the running total used per
    chemical and the quantity remaining after each logged use. */
module History {
  import opened Tables
  import opened Aggregation

  // ---------------------------------------------------------------------------
  // The sort order: name, then date, missing dates last
  // ---------------------------------------------------------------------------

  /** Lexicographic order on names, character by character (string comparison). */
  predicate NameLeq(a: string, b: string)
  {
    a == [] || (b != [] && (a[0] < b[0] || (a[0] == b[0] && NameLeq(a[1..], b[1..]))))
  }

  lemma {:induction false} NameLeqTotal(a: string, b: string)
    ensures NameLeq(a, b) || NameLeq(b, a)
  {
    if a != [] && b != [] && a[0] == b[0] {
      NameLeqTotal(a[1..], b[1..]);
    }
  }

  lemma {:induction false} NameLeqTransitive(a: string, b: string, c: string)
    requires NameLeq(a, b) && NameLeq(b, c)
    ensures NameLeq(a, c)
  {
    if a != [] && a[0] == b[0] && b[0] == c[0] {
      NameLeqTransitive(a[1..], b[1..], c[1..]);
    }
  }

  lemma {:induction false} NameLeqAntisymmetric(a: string, b: string)
    requires NameLeq(a, b) && NameLeq(b, a)
    ensures a == b
  {
    if a != [] {
      NameLeqAntisymmetric(a[1..], b[1..]);
      assert a == [a[0]] + a[1..] && b == [b[0]] + b[1..];
    }
  }

  /** The date of a merged row; NaT for an inventory row without usage. */
  function DateOf(row: Joined): Option<int>
  {
    match row.use
    case None => None
    case Some(u) => Some(u.day)
  }

  /** Ascending dates with NaT placed last. */
  predicate DateLeq(x: Option<int>, y: Option<int>)
  {
    match (x, y)
    case (Some(a), Some(b)) => a <= b
    case (Some(_), None) => true
    case (None, None) => true
    case (None, Some(_)) => false
  }

  /** `sort_values(by=["Chemical Name", "Date"])` compares rows this way. */
  predicate RowLeq(x: Joined, y: Joined)
  {
    if x.item.name == y.item.name then DateLeq(DateOf(x), DateOf(y))
    else NameLeq(x.item.name, y.item.name)
  }

  lemma RowLeqTotal(x: Joined, y: Joined)
    ensures RowLeq(x, y) || RowLeq(y, x)
  {
    NameLeqTotal(x.item.name, y.item.name);
  }

  lemma RowLeqTransitive(x: Joined, y: Joined, z: Joined)
    requires RowLeq(x, y) && RowLeq(y, z)
    ensures RowLeq(x, z)
  {
    var a, b, c := x.item.name, y.item.name, z.item.name;
    if a != b && b != c {
      NameLeqTransitive(a, b, c);
      if a == c {
        NameLeqAntisymmetric(a, b);
      }
    }
  }

  /** Each row sorts no later than the next one. */
  predicate Sorted(rows: seq<Joined>)
  {
    forall i :: 0 <= i < |rows| - 1 ==> RowLeq(rows[i], rows[i + 1])
  }

  /** In a sorted table any earlier row sorts no later than any later one. */
  lemma {:induction false} SortedPairwise(rows: seq<Joined>, i: nat, j: nat)
    requires Sorted(rows) && i < j < |rows|
    ensures RowLeq(rows[i], rows[j])
    decreases j - i
  {
    if i + 1 < j {
      SortedPairwise(rows, i + 1, j);
      RowLeqTransitive(rows[i], rows[i + 1], rows[j]);
    }
  }

  /** Put `x` in front of the first row it does not sort after. */
  function Insert(x: Joined, rows: seq<Joined>): (r: seq<Joined>)
    ensures |r| == |rows| + 1
    ensures r[0] == x || (rows != [] && r[0] == rows[0])
  {
    if rows == [] then [x]
    else if RowLeq(x, rows[0]) then [x] + rows
    else [rows[0]] + Insert(x, rows[1..])
  }

  lemma {:induction false} InsertPermutation(x: Joined, rows: seq<Joined>)
    ensures multiset(Insert(x, rows)) == multiset(rows) + multiset{x}
  {
    if rows != [] && !RowLeq(x, rows[0]) {
      InsertPermutation(x, rows[1..]);
      assert rows == [rows[0]] + rows[1..];
    }
  }

  /** Inserting into a sorted table keeps it sorted. */
  lemma {:induction false} InsertSorted(x: Joined, rows: seq<Joined>)
    requires Sorted(rows)
    ensures Sorted(Insert(x, rows))
  {
    if rows != [] && !RowLeq(x, rows[0]) {
      var rest := Insert(x, rows[1..]);
      InsertSorted(x, rows[1..]);
      RowLeqTotal(x, rows[0]);
      var r := [rows[0]] + rest;
      forall i | 0 <= i < |r| - 1 ensures RowLeq(r[i], r[i + 1]) {
        if i > 0 {
          assert r[i] == rest[i - 1] && r[i + 1] == rest[i];
        } else {
          assert rows[1..] != [] ==> rows[1..][0] == rows[1];
        }
      }
    }
  }

  /** `sort_values(by=["Chemical Name", "Date"])`: insertion sort of the
      merged frame. */
  function SortRows(rows: seq<Joined>): (r: seq<Joined>)
    ensures |r| == |rows|
  {
    if rows == [] then []
    else Insert(rows[0], SortRows(rows[1..]))
  }

  /** The sorted frame holds the same rows, ordered by name then date. */
  lemma {:induction false} SortRowsSortedPermutation(rows: seq<Joined>)
    ensures multiset(SortRows(rows)) == multiset(rows)
    ensures Sorted(SortRows(rows))
  {
    if rows != [] {
      SortRowsSortedPermutation(rows[1..]);
      InsertPermutation(rows[0], SortRows(rows[1..]));
      InsertSorted(rows[0], SortRows(rows[1..]));
      assert rows == [rows[0]] + rows[1..];
    }
  }

  // ---------------------------------------------------------------------------
  // Running totals (streamlit_app.py:254-259)
  // ---------------------------------------------------------------------------

  /** A row of the history: a merged row, its cumulative amount used and the
      quantity remaining after it (both NaN when the row has no usage). */
  datatype HistoryRow = HistoryRow(row: Joined, cumulative: Option<real>, remaining: Option<real>)

  function Running(acc: map<string, real>, name: string): real
  {
    if name in acc then acc[name] else 0.0
  }

  /** `groupby("Chemical Name").cumsum()` and `initial - cumulative` in one
      pass, keeping one running total per name; NaN rows are skipped. */
  function RunningTotals(rows: seq<Joined>, acc: map<string, real>): (r: seq<HistoryRow>)
    ensures |r| == |rows|
  {
    if rows == [] then []
    else
      var x := rows[0];
      match x.use
      case None => [HistoryRow(x, None, None)] + RunningTotals(rows[1..], acc)
      case Some(u) =>
        var c := Running(acc, x.item.name) + u.amount;
        [HistoryRow(x, Some(c), Some(x.item.initial - c))] + RunningTotals(rows[1..], acc[x.item.name := c])
  }

  /** The one-pass totals are the prefix sums of each name's group, on top of
      the totals carried in. */
  lemma {:induction false} RunningTotalsAt(rows: seq<Joined>, acc: map<string, real>, k: nat)
    requires k < |rows|
    ensures RunningTotals(rows, acc)[k].row == rows[k]
    ensures rows[k].use.None? ==> RunningTotals(rows, acc)[k].cumulative == None && RunningTotals(rows, acc)[k].remaining == None
    ensures rows[k].use.Some? ==>
      RunningTotals(rows, acc)[k].cumulative == Some(Running(acc, rows[k].item.name) + GroupSum(rows[..k + 1], rows[k].item.name))
    ensures rows[k].use.Some? ==>
      RunningTotals(rows, acc)[k].remaining == Some(rows[k].item.initial - RunningTotals(rows, acc)[k].cumulative.value)
  {
    var x := rows[0];
    var name := rows[k].item.name;
    assert rows[..1][1..] == [];
    if k > 0 {
      var acc' := if x.use.Some? then acc[x.item.name := Running(acc, x.item.name) + x.use.value.amount] else acc;
      RunningTotalsAt(rows[1..], acc', k - 1);
      assert rows[1..][..k] == rows[..k + 1][1..];
      assert RunningTotals(rows, acc)[k] == RunningTotals(rows[1..], acc')[k - 1];
    }
  }

  /** The usage history: merged, sorted, annotated. */
  function UsageHistory(inventory: seq<Item>, usage: seq<UsageEntry>): seq<HistoryRow>
  {
    RunningTotals(SortRows(LeftJoin(inventory, usage)), map[])
  }

  /** The merged rows of a history, in order. */
  function RowsOf(history: seq<HistoryRow>): seq<Joined>
  {
    seq(|history|, i requires 0 <= i < |history| => history[i].row)
  }

  // ---------------------------------------------------------------------------
  // Properties
  // ---------------------------------------------------------------------------

  lemma HistoryRowsAreSortedJoin(inventory: seq<Item>, usage: seq<UsageEntry>)
    ensures RowsOf(UsageHistory(inventory, usage)) == SortRows(LeftJoin(inventory, usage))
  {
    RowsOfRunningTotals(SortRows(LeftJoin(inventory, usage)));
  }

  /** The history holds exactly the merged rows, sorted by name and then
      date. */
  lemma HistoryIsSortedJoin(inventory: seq<Item>, usage: seq<UsageEntry>)
    ensures multiset(RowsOf(UsageHistory(inventory, usage))) == multiset(LeftJoin(inventory, usage))
    ensures Sorted(RowsOf(UsageHistory(inventory, usage)))
  {
    HistoryRowsAreSortedJoin(inventory, usage);
    SortRowsSortedPermutation(LeftJoin(inventory, usage));
  }

  /** Every logged use of a chemical of the table has its merged row in the
      history. */
  lemma HistoryHasEveryUse(inventory: seq<Item>, usage: seq<UsageEntry>, i: nat, k: nat)
    requires i < |inventory| && k < |usage| && usage[k].name == inventory[i].name
    ensures Joined(inventory[i], Some(usage[k])) in RowsOf(UsageHistory(inventory, usage))
  {
    LeftJoinComplete(inventory, usage, i, k);
    HistoryIsSortedJoin(inventory, usage);
    assert Joined(inventory[i], Some(usage[k])) in multiset(LeftJoin(inventory, usage));
  }

  /** With distinct names, a logged use appears in the history as often as it
      was logged. */
  lemma HistoryUseCount(inventory: seq<Item>, usage: seq<UsageEntry>, i: nat, u: UsageEntry)
    requires DistinctNames(inventory) && i < |inventory| && u.name == inventory[i].name
    ensures multiset(RowsOf(UsageHistory(inventory, usage)))[Joined(inventory[i], Some(u))] == multiset(usage)[u]
  {
    LeftJoinCount(inventory, usage, i, u);
    HistoryIsSortedJoin(inventory, usage);
  }

  /** A chemical has a row with no usage in the history exactly when nothing
      was logged under its name. */
  lemma HistoryNaNRow(inventory: seq<Item>, usage: seq<UsageEntry>, i: nat)
    requires i < |inventory|
    ensures Joined(inventory[i], None) in RowsOf(UsageHistory(inventory, usage))
      <==> forall k :: 0 <= k < |usage| ==> usage[k].name != inventory[i].name
  {
    LeftJoinNaNRow(inventory, usage, i);
    HistoryIsSortedJoin(inventory, usage);
    var x := Joined(inventory[i], None);
    assert x in RowsOf(UsageHistory(inventory, usage)) <==> x in multiset(LeftJoin(inventory, usage));
  }

  /** The rows of the one-pass totals started from nothing are the rows it
      was given. */
  lemma RowsOfRunningTotals(rows: seq<Joined>)
    ensures RowsOf(RunningTotals(rows, map[])) == rows
  {
    forall k | 0 <= k < |rows| ensures RowsOf(RunningTotals(rows, map[]))[k] == rows[k] {
      RunningTotalsAt(rows, map[], k);
    }
  }

  /** Started from nothing, the one-pass total of a row with usage is the
      prefix sum of its name's group over the rows up to and including it. */
  lemma RunningTotalsFromNothing(rows: seq<Joined>, k: nat)
    requires k < |rows|
    ensures var h := RunningTotals(rows, map[]);
      h[k].row.use.Some? ==> h[k].cumulative == Some(GroupSum(RowsOf(h)[..k + 1], h[k].row.item.name))
  {
    var h := RunningTotals(rows, map[]);
    var name := rows[k].item.name;
    RunningTotalsAt(rows, map[], k);
    RowsOfRunningTotals(rows);
    assert RowsOf(h)[..k + 1] == rows[..k + 1];
    assert Running(map[], name) == 0.0;
    assert rows[k].use.Some? ==> h[k].cumulative == Some(0.0 + GroupSum(rows[..k + 1], name));
  }

  /** A history row with usage carries the prefix sum of its chemical's
      amounts up to and including itself. */
  lemma HistoryPrefixSum(inventory: seq<Item>, usage: seq<UsageEntry>, k: nat)
    requires k < |UsageHistory(inventory, usage)|
    ensures var h := UsageHistory(inventory, usage);
      h[k].row.use.Some? ==> h[k].cumulative == Some(GroupSum(RowsOf(h)[..k + 1], h[k].row.item.name))
  {
    RunningTotalsFromNothing(SortRows(LeftJoin(inventory, usage)), k);
  }

  /** A history row with usage carries the initial quantity minus its
      cumulative amount; a row without usage carries NaN in both columns. */
  lemma HistoryRemaining(inventory: seq<Item>, usage: seq<UsageEntry>, k: nat)
    requires k < |UsageHistory(inventory, usage)|
    ensures var h := UsageHistory(inventory, usage);
      h[k].row.use.Some? ==> h[k].cumulative.Some? && h[k].remaining == Some(h[k].row.item.initial - h[k].cumulative.value)
    ensures var h := UsageHistory(inventory, usage);
      h[k].row.use.None? ==> h[k].cumulative == None && h[k].remaining == None
  {
    RunningTotalsAt(SortRows(LeftJoin(inventory, usage)), map[], k);
  }

  /** A group sum over rows drawn from amounts that are all non-negative is
      non-negative. */
  lemma {:induction false} GroupSumNonNegative(rows: seq<Joined>, name: string)
    requires forall k :: 0 <= k < |rows| ==> Contribution(rows[k]) >= 0.0
    ensures GroupSum(rows, name) >= 0.0
  {
    if rows != [] {
      GroupSumNonNegative(rows[1..], name);
    }
  }

  /** Every history row is a row of the merged frame: its inventory row is in
      the Inventory table and its usage row, if any, is in the Usage table
      under the same name. */
  lemma HistoryRowOrigin(inventory: seq<Item>, usage: seq<UsageEntry>, k: nat)
    requires k < |UsageHistory(inventory, usage)|
    ensures var row := UsageHistory(inventory, usage)[k].row;
      row.item in inventory &&
      (row.use.Some? ==> row.use.value in usage && row.use.value.name == row.item.name)
  {
    var h := UsageHistory(inventory, usage);
    var joined := LeftJoin(inventory, usage);
    HistoryIsSortedJoin(inventory, usage);
    assert RowsOf(h)[k] == h[k].row;
    assert h[k].row in multiset(joined);
    var m :| 0 <= m < |joined| && joined[m] == h[k].row;
    LeftJoinOrigin(inventory, usage, m);
  }

  /** With no negative amount logged, along one chemical's rows the cumulative
      amount never decreases; with distinct names the remaining quantity never
      increases. */
  lemma CumulativeMonotone(inventory: seq<Item>, usage: seq<UsageEntry>, i: nat, j: nat)
    requires forall k :: 0 <= k < |usage| ==> usage[k].amount >= 0.0
    requires i < j < |UsageHistory(inventory, usage)|
    requires var h := UsageHistory(inventory, usage);
      h[i].row.item.name == h[j].row.item.name && h[i].row.use.Some? && h[j].row.use.Some?
    ensures var h := UsageHistory(inventory, usage);
      h[i].cumulative.Some? && h[j].cumulative.Some? && h[i].cumulative.value <= h[j].cumulative.value
    ensures var h := UsageHistory(inventory, usage);
      DistinctNames(inventory) ==>
        h[i].remaining.Some? && h[j].remaining.Some? && h[i].remaining.value >= h[j].remaining.value
  {
    var h := UsageHistory(inventory, usage);
    var rows := RowsOf(h);
    var name := h[i].row.item.name;
    HistoryPrefixSum(inventory, usage, i);
    HistoryPrefixSum(inventory, usage, j);
    HistoryRemaining(inventory, usage, i);
    HistoryRemaining(inventory, usage, j);
    assert rows[i] == h[i].row && rows[j] == h[j].row;
    assert rows[..j + 1] == rows[..i + 1] + rows[i + 1..j + 1];
    GroupSumAppend(rows[..i + 1], rows[i + 1..j + 1], name);
    var between := rows[i + 1..j + 1];
    forall k | 0 <= k < |between| ensures Contribution(between[k]) >= 0.0 {
      HistoryRowOrigin(inventory, usage, i + 1 + k);
      assert between[k] == h[i + 1 + k].row;
    }
    GroupSumNonNegative(between, name);
    if DistinctNames(inventory) {
      HistoryRowOrigin(inventory, usage, i);
      HistoryRowOrigin(inventory, usage, j);
      assert h[i].row.item == h[j].row.item;
    }
  }

  /** Past the last row of a name, the prefix sum of that name is its whole
      group sum. */
  lemma PrefixThroughLastRow(rows: seq<Joined>, k: nat, name: string)
    requires k < |rows|
    requires forall m :: k < m < |rows| ==> rows[m].item.name != name
    ensures GroupSum(rows[..k + 1], name) == GroupSum(rows, name)
  {
    assert rows == rows[..k + 1] + rows[k + 1..];
    GroupSumAppend(rows[..k + 1], rows[k + 1..], name);
    var after := rows[k + 1..];
    forall m | 0 <= m < |after| ensures after[m].item.name != name {
      assert after[m] == rows[k + 1 + m];
    }
    GroupSumOtherNames(after, name);
  }

  /** Sorting does not change a group sum: over the whole history a name's
      group adds up as in the inventory view. */
  lemma HistoryGroupSum(inventory: seq<Item>, usage: seq<UsageEntry>, name: string)
    ensures GroupSum(RowsOf(UsageHistory(inventory, usage)), name)
            == Scaled(Occurrences(inventory, name), UsedBy(usage, name))
  {
    HistoryIsSortedJoin(inventory, usage);
    GroupSumPermutation(RowsOf(UsageHistory(inventory, usage)), LeftJoin(inventory, usage), name);
    JoinedGroupSum(inventory, usage);
  }

  /** The last history row of a chemical carries its whole group sum: the
      usage logged under its name, once per inventory row carrying it. */
  lemma LastRowCumulative(inventory: seq<Item>, usage: seq<UsageEntry>, k: nat)
    requires k < |UsageHistory(inventory, usage)|
    requires var h := UsageHistory(inventory, usage);
      h[k].row.use.Some? && forall m :: k < m < |h| ==> h[m].row.item.name != h[k].row.item.name
    ensures var h := UsageHistory(inventory, usage);
      var name := h[k].row.item.name;
      h[k].cumulative == Some(Scaled(Occurrences(inventory, name), UsedBy(usage, name)))
  {
    var h := UsageHistory(inventory, usage);
    var rows := RowsOf(h);
    var name := h[k].row.item.name;
    HistoryPrefixSum(inventory, usage, k);
    forall m | k < m < |rows| ensures rows[m].item.name != name {
      assert rows[m] == h[m].row;
    }
    PrefixThroughLastRow(rows, k, name);
    HistoryGroupSum(inventory, usage, name);
  }

  /** With distinct names a history row belongs to the one inventory row
      carrying its name. */
  lemma HistoryRowItem(inventory: seq<Item>, usage: seq<UsageEntry>, k: nat, i: nat)
    requires DistinctNames(inventory) && i < |inventory|
    requires k < |UsageHistory(inventory, usage)|
    requires UsageHistory(inventory, usage)[k].row.item.name == inventory[i].name
    ensures UsageHistory(inventory, usage)[k].row.item == inventory[i]
  {
    HistoryRowOrigin(inventory, usage, k);
    var j :| 0 <= j < |inventory| && inventory[j] == UsageHistory(inventory, usage)[k].row.item;
    assert j == i;
  }

  /** With distinct names, the last history row of a chemical carries the
      usage sum of its name. */
  lemma LastRowUsedBy(inventory: seq<Item>, usage: seq<UsageEntry>, k: nat, i: nat)
    requires DistinctNames(inventory) && i < |inventory|
    requires k < |UsageHistory(inventory, usage)|
    requires var h := UsageHistory(inventory, usage);
      h[k].row.use.Some? && h[k].row.item.name == inventory[i].name &&
      forall m :: k < m < |h| ==> h[m].row.item.name != inventory[i].name
    ensures UsageHistory(inventory, usage)[k].cumulative == Some(UsedBy(usage, inventory[i].name))
  {
    var used := UsedBy(usage, inventory[i].name);
    LastRowCumulative(inventory, usage, k);
    OccurrencesOfDistinct(inventory, i);
    assert Scaled(1, used) == used;
  }

  /** With distinct names, the last history row of a chemical agrees with the
      inventory view: its cumulative amount is the total used and its
      remaining quantity is the remaining amount there. */
  lemma LastRowMatchesCurrentState(inventory: seq<Item>, usage: seq<UsageEntry>, k: nat, i: nat)
    requires DistinctNames(inventory) && i < |inventory|
    requires k < |UsageHistory(inventory, usage)|
    requires var h := UsageHistory(inventory, usage);
      h[k].row.use.Some? && h[k].row.item.name == inventory[i].name &&
      forall m :: k < m < |h| ==> h[m].row.item.name != inventory[i].name
    ensures var h := UsageHistory(inventory, usage);
      h[k].cumulative == Some(CurrentState(inventory, usage)[i].totalUsed) &&
      h[k].remaining == Some(CurrentState(inventory, usage)[i].remaining)
  {
    LastRowUsedBy(inventory, usage, k, i);
    HistoryRemaining(inventory, usage, k);
    HistoryRowItem(inventory, usage, k, i);
    TotalUsedIsMatchingSum(inventory, usage, i);
  }
}
