/** The two write paths of the inventory manager. Each form submission reads
    a worksheet, appends one row and writes the whole worksheet back; the
    store holds both worksheets and appends in place. */
module Store {
  import opened Tables
  import opened Aggregation

  /** What the two forms let through: quantities and amounts are at least
      zero, and every usage row names a chemical of the Inventory table. */
  predicate WellFormed(inventory: seq<Item>, usage: seq<UsageEntry>)
  {
    (forall i :: 0 <= i < |inventory| ==> inventory[i].initial >= 0.0) &&
    (forall k :: 0 <= k < |usage| ==> usage[k].amount >= 0.0 && usage[k].name in Names(inventory))
  }

  /** Names already in the table stay there when a row is appended. */
  lemma NamesGrow(inventory: seq<Item>, item: Item)
    ensures Names(inventory + [item]) == Names(inventory) + [item.name]
  {
  }

  /** With no negative amount logged, no usage sum is negative. */
  lemma {:induction false} UsedByNonNegative(usage: seq<UsageEntry>, name: string)
    requires forall k :: 0 <= k < |usage| ==> usage[k].amount >= 0.0
    ensures UsedBy(usage, name) >= 0.0
  {
    if usage != [] {
      UsedByNonNegative(usage[1..], name);
    }
  }

  /** Tables the forms produced, with distinct names: every logged gram shows
      up in exactly one row, no total is negative and no row has more left
      than it started with. */
  lemma WellFormedAccounted(inventory: seq<Item>, usage: seq<UsageEntry>)
    requires WellFormed(inventory, usage) && DistinctNames(inventory)
    ensures SumOfTotals(CurrentState(inventory, usage)) == SumOfAmounts(usage)
    ensures forall i :: 0 <= i < |inventory| ==>
      CurrentState(inventory, usage)[i].totalUsed >= 0.0 &&
      CurrentState(inventory, usage)[i].remaining <= inventory[i].initial
  {
    AllUsageAccounted(inventory, usage);
    forall i | 0 <= i < |inventory|
      ensures CurrentState(inventory, usage)[i].totalUsed >= 0.0
      ensures CurrentState(inventory, usage)[i].remaining <= inventory[i].initial
    {
      TotalUsedIsMatchingSum(inventory, usage, i);
      UsedByNonNegative(usage, inventory[i].name);
    }
  }

  /** The Inventory and Usage worksheets. */
  class InventoryStore {
    var inventory: seq<Item>
    var usage: seq<UsageEntry>

    ghost predicate Valid()
      reads this
    {
      WellFormed(inventory, usage)
    }

    /** The worksheets as last written. */
    constructor (inventory0: seq<Item>, usage0: seq<UsageEntry>)
      ensures inventory == inventory0 && usage == usage0
      ensures WellFormed(inventory0, usage0) ==> Valid()
    {
      inventory := inventory0;
      usage := usage0;
    }

    /** The "Add New Chemical" form: any name (empty or already present is
        accepted), a quantity of at least zero, the expiry date written as a
        day. The new row goes at the end and the Usage table is untouched. */
    method AddChemical(name: string, cas: string, initial: real, expiryDay: int, notes: string)
      requires initial >= 0.0
      modifies this
      ensures inventory == old(inventory) + [Item(name, cas, initial, expiryDay, notes)]
      ensures usage == old(usage)
      ensures old(Valid()) ==> Valid()
      ensures name !in Names(old(inventory)) ==>
        CurrentState(inventory, usage) == CurrentState(old(inventory), usage) + [StateOf(Item(name, cas, initial, expiryDay, notes), UsedBy(usage, name))]
    {
      var item := Item(name, cas, initial, expiryDay, notes);
      NamesGrow(inventory, item);
      if name !in Names(inventory) {
        AddChemicalEffect(inventory, usage, item);
      }
      inventory := inventory + [item];
    }

    /** The "Log Chemical Usage" form: a chemical picked from the Inventory
        table, an amount of at least zero, and today's date taken from the
        clock at `now`. The entry goes at the end and the Inventory table is
        untouched. With distinct names the chosen chemical's total rises by
        the amount and no other row changes. */
    method LogUsage(now: int, name: string, amount: real, notes: string)
      requires name in Names(inventory) && amount >= 0.0
      modifies this
      ensures usage == old(usage) + [UsageEntry(DayOf(now), name, amount, notes)]
      ensures inventory == old(inventory)
      ensures old(Valid()) ==> Valid()
      ensures DistinctNames(inventory) ==> forall i :: 0 <= i < |inventory| ==>
        CurrentState(inventory, usage)[i].totalUsed
          == CurrentState(inventory, old(usage))[i].totalUsed + (if inventory[i].name == name then amount else 0.0)
      ensures DistinctNames(inventory) ==> forall i :: 0 <= i < |inventory| && inventory[i].name != name ==>
        CurrentState(inventory, usage)[i] == CurrentState(inventory, old(usage))[i]
    {
      var entry := UsageEntry(DayOf(now), name, amount, notes);
      if DistinctNames(inventory) {
        forall i | 0 <= i < |inventory|
          ensures CurrentState(inventory, usage + [entry])[i].totalUsed
                  == CurrentState(inventory, usage)[i].totalUsed + (if inventory[i].name == name then amount else 0.0)
          ensures inventory[i].name != name ==> CurrentState(inventory, usage + [entry])[i] == CurrentState(inventory, usage)[i]
        {
          LogUsageEffect(inventory, usage, entry, i);
        }
      }
      usage := usage + [entry];
    }
  }
}
