/** The two persistent tables of the chemical inventory (the "Inventory" and
    "Usage" worksheets), their rows, and the clock conventions shared by the
    other modules. */
module Tables {

  datatype Option<T> = None | Some(value: T)

  /** Nanoseconds in one calendar day: instants are counted in nanoseconds,
      the resolution of a pandas timestamp. */
  const NanosPerDay: int := 86_400_000_000_000

  /** One row of the Inventory worksheet. `expiryDay` is the expiry date as a
      day number (days since the epoch); parsed back into an instant it is
      midnight of that day. */
  datatype Item = Item(name: string, cas: string, initial: real, expiryDay: int, notes: string)

  /** One row of the Usage worksheet; `day` is the logging date as a day number. */
  datatype UsageEntry = UsageEntry(day: int, name: string, amount: real, notes: string)

  /** The "Chemical Name" column of the Inventory table. */
  function Names(inventory: seq<Item>): seq<string>
  {
    seq(|inventory|, i requires 0 <= i < |inventory| => inventory[i].name)
  }

  /** No chemical name occurs twice in the Inventory table. */
  predicate DistinctNames(inventory: seq<Item>)
  {
    forall i, j :: 0 <= i < j < |inventory| ==> inventory[i].name != inventory[j].name
  }

  /** Number of Inventory rows carrying `name`. */
  function Occurrences(inventory: seq<Item>, name: string): (k: nat)
    ensures k <= |inventory|
    ensures k == 0 <==> name !in Names(inventory)
  {
    if inventory == [] then 0
    else
      assert Names(inventory) == [inventory[0].name] + Names(inventory[1..]);
      (if inventory[0].name == name then 1 else 0) + Occurrences(inventory[1..], name)
  }

  lemma {:induction false} OccurrencesOfDistinct(inventory: seq<Item>, i: nat)
    requires DistinctNames(inventory) && i < |inventory|
    ensures Occurrences(inventory, inventory[i].name) == 1
  {
    if i == 0 {
      assert inventory[0].name !in Names(inventory[1..]);
    } else {
      OccurrencesOfDistinct(inventory[1..], i - 1);
    }
  }

  lemma {:induction false} OccurrencesAppend(inventory: seq<Item>, item: Item, name: string)
    ensures Occurrences(inventory + [item], name)
            == Occurrences(inventory, name) + (if item.name == name then 1 else 0)
  {
    if inventory == [] {
      assert inventory + [item] == [item];
    } else {
      assert (inventory + [item])[1..] == inventory[1..] + [item];
      OccurrencesAppend(inventory[1..], item, name);
    }
  }

  /** The calendar day of an instant, as `strftime("%Y-%m-%d")` renders it. */
  function DayOf(now: int): (d: int)
    ensures d * NanosPerDay <= now < (d + 1) * NanosPerDay
  {
    now / NanosPerDay
  }
}
