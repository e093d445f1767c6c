# Chemical inventory manager — verified model of the depletion logic

The chemical inventory manager is a small web app. It keeps two worksheets:

- **Inventory**: chemical name, CAS number, initial quantity in grams, expiry date, notes.
- **Usage**: an append-only log with date, chemical name, grams used and notes.

Every view derives the stock situation from these two tables. This project models that derivation and the two forms that append to the tables:

- **Current state** (`Aggregation`). The Usage table is left-joined onto the Inventory table by exact chemical name. The grams are summed per name. Each inventory row gets:
  - its total used;
  - its remaining amount, which is not clamped;
  - its remaining percentage, rounded to two decimals as numpy does it (half to even).
- **Warnings** (`Alerts`). Four order-preserving name lists:
  - red by expiry (less than 90 days away);
  - red by remaining (below 30 %);
  - yellow by expiry (90 to 180 days);
  - yellow by remaining (30 % to 50 %).

  Each yellow list is purged only of the red names of its own criterion.
- **Usage history** (`History`). The same join, sorted by name and then date, with missing dates last. Each row gets the running total per name and the initial quantity minus that total.
- **Write paths** (`Store`). A class holding both worksheets. Its two methods each append exactly one row. The form widgets' constraints are their preconditions.

`Tables` holds the rows and the clock conventions:

- Instants are integers in nanoseconds.
- An expiry date is a day number. Parsed back, it is midnight of that day.
- "Now" is a parameter.

`Rounding` holds the two-decimal rounding.

Grams and percentages are exact reals. Division by zero follows float semantics: a percentage is a finite value, NaN, or plus or minus infinity.

Three points where the code behaves differently from what a reader might expect are modelled as the code behaves:

- An initial quantity of 0 with a positive amount used gives a percentage of minus infinity. That value is below 30, so the chemical is red. With nothing used, or only 0 g logged, the percentage is NaN and the chemical is on no remaining list.
- A yellow list loses only the names that are red for the same criterion. A chemical can be red by remaining and yellow by expiry at once.
- A chemical name that appears on several Inventory rows has its usage counted once per such row. The join duplicates the usage rows and the sum is then taken per name. The distinct-name case is stated as lemmas.

## Model

| member | source | states |
|---|---|---|
| Tables.DayOf | streamlit_app.py:67 | the logged date is the calendar day containing the instant `now` |
| Tables.OccurrencesOfDistinct | streamlit_app.py:88-101 | with distinct names, every inventory name occurs on exactly one row, so the join does not duplicate its usage |
| Rounding.RoundHalfEven | streamlit_app.py:106-108 | the result is within one half of its argument, and a tie goes to the even integer |
| Rounding.Round2 | streamlit_app.py:106-108 | the two-decimal rounding moves a value by at most 0.005 |
| Rounding.Round2Exact | streamlit_app.py:106-108 | a whole number of hundredths is left unchanged |
| Rounding.WholeIsHundredPercent | streamlit_app.py:106-108 | the ratio of a non-zero quantity to itself rounds to exactly 100 |
| Rounding.NegativeRatioRoundsToAtMostZero | streamlit_app.py:106-108 | the rounded percentage of a negative amount over a positive quantity is at most 0 |
| Rounding.Round2BelowThreshold | streamlit_app.py:106-108 | for an even number of hundredths k, the rounded value is below k/100 exactly when the raw value is below (k - 0.5)/100 |
| Aggregation.UsedByAppend | streamlit_app.py:94 | the per-name sum of a concatenation is the sum of the per-name sums of its parts |
| Aggregation.UsedByOtherNames | streamlit_app.py:88-94 | usage rows of other names contribute nothing to a name's sum |
| Aggregation.UsedByPermutation | streamlit_app.py:94 | the per-name sum does not depend on the order of the Usage rows |
| Aggregation.LeftJoinOrigin | streamlit_app.py:88-93 | every merged row pairs an inventory row with nothing, or with a Usage row of exactly that name |
| Aggregation.Matches | streamlit_app.py:88-93 | definition, no contract: the usage rows matched to one inventory row, in Usage order; MatchesOrigin, NoMatchesNoUsage and MatchesCount state what it holds |
| Aggregation.JoinRows | streamlit_app.py:88-93 | definition, no contract: what the merge yields for one inventory row, its matches or else one NaN-filled row; JoinRowsItems, JoinRowsCount and JoinRowsSum state what it holds |
| Aggregation.LeftJoin | streamlit_app.py:88-93 | the left merge has at least as many rows as the Inventory table; that every inventory row is in it follows from LeftJoinNaNRow with LeftJoinComplete |
| Aggregation.MatchesOrigin | streamlit_app.py:88-93 | every row matched to an inventory row pairs it with a usage row of the Usage table that carries exactly its name |
| Aggregation.NoMatchesNoUsage | streamlit_app.py:88-93 | an inventory row has no matching usage row exactly when no usage row carries its name, and then its name's usage sum is 0 |
| Aggregation.MatchesCount | streamlit_app.py:88-93 | the rows matched to one inventory row hold each usage row of its name exactly as often as the Usage table does |
| Aggregation.JoinRowsItems | streamlit_app.py:88-93 | every merged row of one inventory row carries that inventory row, and the NaN-filled row appears only when nothing matched |
| Aggregation.JoinRowsCount | streamlit_app.py:88-93 | one inventory row's merged rows hold each usage row of its name exactly as often as the Usage table does |
| Aggregation.LeftJoinMember | streamlit_app.py:88-93 | a row is in the merged frame exactly when it is among the merged rows of some inventory row |
| Aggregation.LeftJoinItemNames | streamlit_app.py:88-93 | every merged row's name is a name of the Inventory table |
| Aggregation.LeftJoinComplete | streamlit_app.py:88-93 | every usage row whose name matches an inventory row is paired with that row in the merged frame |
| Aggregation.LeftJoinNaNRow | streamlit_app.py:88-93 | an inventory row appears with NaN usage columns exactly when no usage row carries its name |
| Aggregation.LeftJoinCount | streamlit_app.py:88-93 | with distinct names, the merged frame pairs an inventory row with a usage row of its name exactly as often as that usage row is in the Usage table |
| Aggregation.GroupSum | streamlit_app.py:94 | definition, no contract: the per-name sum over the merged rows, a NaN amount adding nothing; its properties are the GroupSum lemmas below |
| Aggregation.GroupSumOtherNames | streamlit_app.py:94 | merged rows of other names contribute nothing to a name's group |
| Aggregation.GroupSumPermutation | streamlit_app.py:94 | the group sum does not depend on the order of the merged rows |
| Aggregation.JoinRowsSum | streamlit_app.py:88-94 | one inventory row's merged rows add up to the usage sum of its name, and to 0 for any other name |
| Aggregation.ScaledIsProduct | streamlit_app.py:88-94 | adding up k copies of an amount, as the join does for a name on k inventory rows, gives k times the amount |
| Aggregation.JoinedGroupSum | streamlit_app.py:88-94 | the group sum of the merged frame is the usage sum of the name, times the number of inventory rows carrying that name |
| Aggregation.RemainingPercent | streamlit_app.py:106-108 | the percentage is finite exactly when the initial quantity is non-zero, and then within 0.005 of 100 * remaining / initial; NaN exactly when initial and remaining are both 0; minus infinity exactly when initial is 0 and remaining is negative |
| Aggregation.StateOf | streamlit_app.py:102-108 | definition, no contract: one current-state row from an inventory row and its total, with remaining = initial - total and the percentage of RemainingPercent |
| Aggregation.CurrentState | streamlit_app.py:96-101 | the left merge back onto the Inventory table gives exactly one row per inventory row |
| Aggregation.CurrentStateRow | streamlit_app.py:88-108 | row i carries inventory row i, in inventory order. Its total is the name's usage sum added once per inventory row carrying the name, that is the sum times that count (ScaledIsProduct); remaining is initial minus total; percent is the rounded ratio |
| Aggregation.TotalUsedIsMatchingSum | streamlit_app.py:88-103 | with distinct names, total used is the sum over exactly matching usage rows, and remaining is initial minus that, unclamped |
| Aggregation.EmptyLedger | streamlit_app.py:102-108 | with no usage logged, total is 0.0, remaining is the initial quantity, and a positive quantity shows 100 percent |
| Aggregation.UsedByWithout | streamlit_app.py:88-94 | removing a usage row of another name leaves a name's sum unchanged |
| Aggregation.OrphanIgnored | streamlit_app.py:88-101 | a usage row naming no inventory chemical, wherever it sits, changes no row of the current state |
| Aggregation.UsageOrderIrrelevant | streamlit_app.py:88-101 | permuting the Usage table leaves the current state unchanged |
| Aggregation.LogUsageEffect | streamlit_app.py:88-103 | with distinct names, appending a usage row raises exactly the named chemical's total by its amount; every other row is unchanged |
| Aggregation.AddChemicalEffect | streamlit_app.py:88-108 | adding a chemical with a new name keeps every existing row and appends one row, which picks up usage already logged under that name |
| Aggregation.AllUsageAccounted | streamlit_app.py:88-102 | with distinct names and every usage row naming an inventory chemical, the totals add up to every amount logged |
| Aggregation.AcetoneExample | streamlit_app.py:88-108 | 100 g with 40 g and 35 g logged gives 75 g used, 25 g left and 25.0 percent |
| Aggregation.ZeroInitialQuantity | streamlit_app.py:88-108 | in any inventory, a row with initial quantity 0 is kept in place; its percent is NaN when its name's usage sum is 0 and minus infinity when it is positive |
| Aggregation.OverConsumptionNotClamped | streamlit_app.py:88-108 | in any inventory, a row whose name's usage sum exceeds its positive initial quantity has a negative remaining amount and a finite percent of at most 0 |
| Alerts.ExpiryInstant | streamlit_app.py:111 | definition, no contract: the expiry date as the instant of its midnight; ExpiryInDays and NinetyDayBoundary state its effect on the filters |
| Alerts.Below | streamlit_app.py:122 | definition, no contract: the float comparison `< t`, false for NaN and true for minus infinity |
| Alerts.AtLeast | streamlit_app.py:133 | definition, no contract: the float comparison `>= t`, false for NaN and true for plus infinity |
| Alerts.Flagged | streamlit_app.py:117-134 | definition, no contract: the four row filters, on expiry instants and on the rounded percentage |
| Alerts.NamesWhere | streamlit_app.py:117-134 | a name is in a filtered list exactly when some row with that name passes the filter |
| Alerts.Without | streamlit_app.py:136-137 | a name survives the comprehension exactly when it is in the list and not among the excluded names |
| Alerts.Classify | streamlit_app.py:114-137 | red expiry: exactly the names with expiry before now + 90 days. Red remaining: exactly those below 30 percent. Yellow expiry: the 90-to-180-day window minus red-expiry names. Yellow remaining: the 30-to-50 window minus red-remaining names. So each yellow list is disjoint from its own red list |
| Alerts.InventoryWarnings | streamlit_app.py:114-137 | definition, no contract: the four lists classify the current state; Classify states what they hold |
| Alerts.WarningsKeepTableOrder | streamlit_app.py:117-137 | all four lists are subsequences of the name column, in table order |
| Alerts.PurgeIsNoOpForUniqueNames | streamlit_app.py:136-137 | with unique names, the purges remove nothing: each yellow list is exactly its window |
| Alerts.CurrentStateNames | streamlit_app.py:96-101 | the current state's name column is the inventory's, so distinct inventory names give unique names there |
| Alerts.InventoryPurgeIsNoOp | streamlit_app.py:126-137 | with distinct inventory names, the yellow lists of the inventory view are exactly the window filters |
| Alerts.RedByRemainingAndYellowByExpiry | streamlit_app.py:121-136 | with unique names, a row red by remaining and inside the yellow expiry window is on both lists |
| Alerts.ExpiryInDays | streamlit_app.py:111-118 | measured in days, an expiry is before now plus n days exactly when it is fewer than n days after today's date, or exactly n days after it once the clock is past midnight |
| Alerts.NinetyDayBoundary | streamlit_app.py:117-129 | expiring 89 days from today is red; 90 days from today is yellow at midnight and red one nanosecond later |
| Alerts.RemainingThresholds | streamlit_app.py:121-134 | for a non-zero initial quantity: red exactly when the unrounded ratio is below 29.995; yellow exactly when it is in [29.995, 49.995) |
| Alerts.PercentBoundaries | streamlit_app.py:121-134 | exactly 30 percent is yellow and not red; exactly 50 percent is neither |
| Alerts.ZeroInitialWarnings | streamlit_app.py:106-134 | initial quantity 0 is red by remaining once anything is used, and on no remaining list otherwise |
| Alerts.EthanolExample | streamlit_app.py:102-137 | an untouched 50 g bottle expiring in 85 days shows 100 percent and is only on the red expiry list |
| Alerts.AcetoneWarnings | streamlit_app.py:88-137 | 100 g of acetone with 75 g used and a year to expiry is on the red remaining list and on no other list |
| History.NameLeqTotal | streamlit_app.py:251 | any two names are comparable in the string order |
| History.NameLeqTransitive | streamlit_app.py:251 | the string order is transitive |
| History.NameLeqAntisymmetric | streamlit_app.py:251 | two names ordered both ways are equal |
| History.DateOf | streamlit_app.py:248 | definition, no contract: a merged row's usage date, missing (NaT) on the NaN-filled row of a chemical with no usage |
| History.DateLeq | streamlit_app.py:248-251 | definition, no contract: dates in ascending order, a missing date after every date |
| History.RowLeq | streamlit_app.py:251 | definition, no contract: the order by name and then by date |
| History.RowLeqTotal | streamlit_app.py:251 | the (name, date, missing dates last) order relates any two rows |
| History.RowLeqTransitive | streamlit_app.py:251 | the (name, date) order is transitive |
| History.SortedPairwise | streamlit_app.py:251 | in the sorted frame, any earlier row sorts no later than any later row |
| History.InsertPermutation | streamlit_app.py:251 | inserting a row adds exactly that row |
| History.InsertSorted | streamlit_app.py:251 | inserting a row into a sorted table keeps it sorted |
| History.SortRows | streamlit_app.py:251 | sorting keeps the number of rows |
| History.SortRowsSortedPermutation | streamlit_app.py:251 | the result is a permutation of the merged rows, ordered by name then date |
| History.Running | streamlit_app.py:254 | definition, no contract: the running total of one name so far, 0 before its first row; RunningTotalsAt states what it carries |
| History.RunningTotals | streamlit_app.py:254-259 | the cumulative and remaining columns add exactly one annotated row per merged row |
| History.RunningTotalsAt | streamlit_app.py:254-259 | the one-pass totals keep each row. A row with usage gets the carried total plus the prefix group sum, and initial minus that; a row without gets NaN in both |
| History.RowsOfRunningTotals | streamlit_app.py:254-259 | adding the two columns keeps the rows and their order |
| History.RunningTotalsFromNothing | streamlit_app.py:254 | starting from no totals, a row with usage gets the prefix group sum of its name |
| History.UsageHistory | streamlit_app.py:240-259 | definition, no contract: the merged frame, sorted, with the running columns added; HistoryIsSortedJoin, HistoryHasEveryUse, HistoryNaNRow, HistoryPrefixSum and HistoryRemaining state what it holds |
| History.HistoryIsSortedJoin | streamlit_app.py:240-251 | the history's rows are a permutation of the merged frame, sorted by name and date |
| History.HistoryHasEveryUse | streamlit_app.py:240-251 | every usage row whose name matches an inventory row appears, paired with that row, in the history |
| History.HistoryUseCount | streamlit_app.py:240-251 | with distinct names, the history pairs an inventory row with a usage row of its name exactly as often as that usage row is logged |
| History.HistoryNaNRow | streamlit_app.py:240-251 | a chemical has a history row with no usage exactly when no usage row carries its name |
| History.HistoryPrefixSum | streamlit_app.py:254 | a history row with usage carries the sum of its chemical's amounts on rows up to and including itself |
| History.HistoryRemaining | streamlit_app.py:254-259 | a history row with usage carries initial minus cumulative; a row without usage has NaN in both columns |
| History.HistoryRowOrigin | streamlit_app.py:240-245 | every history row's inventory row is in the Inventory table, and its usage row, if any, is in the Usage table under the same name |
| History.CumulativeMonotone | streamlit_app.py:251-259 | with non-negative amounts, along one chemical the cumulative amount never decreases; with distinct names the remaining quantity never increases |
| History.PrefixThroughLastRow | streamlit_app.py:254 | past the last row of a name, the prefix group sum is the whole group sum |
| History.HistoryGroupSum | streamlit_app.py:240-254 | over the whole history, a name's group adds up to its usage sum times its inventory count, as in the inventory view |
| History.LastRowCumulative | streamlit_app.py:251-254 | the last history row of a chemical with usage logged carries the whole group sum of its name |
| History.LastRowUsedBy | streamlit_app.py:240-254 | with distinct names, the last history row of a chemical with usage logged carries exactly the usage sum of its name |
| History.HistoryRowItem | streamlit_app.py:240-245 | with distinct names, a history row belongs to the one inventory row carrying its name |
| History.LastRowMatchesCurrentState | streamlit_app.py:88-103 | with distinct names, the last history row of a chemical with usage logged shows the inventory view's total used and remaining amount |
| Store.WellFormedAccounted | streamlit_app.py:30 | for tables the forms can produce, with distinct names: all logged grams are accounted for, no total is negative, and no chemical has more left than its initial quantity |
| Store.InventoryStore.constructor | streamlit_app.py:54-55 | the store holds the two worksheets as read, and is valid when they are well formed |
| Store.InventoryStore.AddChemical | streamlit_app.py:27-49 | needs a quantity of at least 0; appends exactly the new row to Inventory, leaves Usage unchanged, keeps the tables well formed; for a new name, the current state gains exactly one row |
| Store.InventoryStore.LogUsage | streamlit_app.py:54-73 | needs a name from the inventory and an amount of at least 0; appends exactly the new entry dated today, leaves Inventory unchanged, keeps the tables well formed; with distinct names, only the chosen chemical's total moves, by the amount |

## Left out

- Streamlit pages, forms, messages, expanders and the sidebar: presentation only.
- The Google Sheets connection:
  - reading and writing whole worksheets;
  - the one-second cache;
  - concurrent writers overwriting each other.

  The store holds both tables in memory, and each method is one read-append-write.
- Plotly charts and the "name (date)" labels, including the descending expiry sort used only for the chart. These are rendering.
- Binary floating point. Grams and percentages are exact reals; only the rounding rule and division by zero follow float semantics.
- The wall clock. "Now" is a parameter of the warnings and of `LogUsage`.
- CAS numbers and notes are carried on the rows but never influence a result.
- Missing chemical names. The model has no NaN name, so these are left out:
  - pandas matching NaN keys to each other in the merge;
  - the group-by dropping them;
  - the `fillna(0.0)` that a NaN name would reach.
- Blank or unparsable expiry dates. Every expiry is a day number here, so the model does not cover:
  - a blank expiry cell, which the conversion at line 111 turns into NaT; NaT compares false everywhere, so the chemical is on no expiry list;
  - expiry text that is not a date, on which the conversion at line 111 raises and the page fails.
- Missing or malformed cells in the worksheets. Every amount, quantity and usage date is a number here, so the model does not cover:
  - a non-numeric amount, on which the float conversion at line 87 raises;
  - a blank amount, which becomes NaN: the sum at line 94 skips it, while the history row at line 254 shows NaN;
  - a blank usage date, which the conversion at line 248 turns into NaT and the sort at line 251 puts last;
  - usage date text that is not a date, on which the conversion at line 248 raises and the history page fails;
  - a blank initial quantity, which makes the remaining amount and percentage NaN.
- Store.InventoryStore.LogUsage: requires a name from the inventory. The model does not cover the selectbox returning nothing when the Inventory table is empty.
- History.SortRowsSortedPermutation: the order among rows with the same name and the same date is left unconstrained by its contract. The cumulative column at such tied rows therefore depends on an order that only the permutation and sortedness constrain.
- Aggregation.TotalUsedIsMatchingSum: assumes distinct names. With a duplicated name the join counts that name's usage once per duplicate row; Aggregation.CurrentStateRow states that general case.
