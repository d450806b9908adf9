# Expense Tracker groups controller, in Dafny

This project models the group-expense backend of the Expense Tracker app:
the controller that creates groups with a random six-symbol join code, lets
users join by code, records shared expenses with their per-user splits,
answers the plain reads, and computes a user's balance in a group.

The four tables the controller works on (`groups`, `group_members`,
`group_expenses`, `expense_splits`) are the fields of the class
`Groups.Ledger`. Each table is a `seq` of rows in insertion order, and each
SERIAL key is a counter field starting at 1. `Groups.Consistent` states the
schema's primary keys, UNIQUE constraints and foreign keys over those
table values. Every handler that writes is a method that keeps this
invariant (`Valid()`). Each such method states its full new state and its
response: HTTP status plus payload, with the exact message texts.

Modules:

- `Wrappers` holds `Option`.
- `Records` holds the row types, the column limits (VARCHAR widths, the
  DECIMAL(10,2) range) and JavaScript truthiness of request fields.
- `Seqs` holds the order-preserving filter and the reversal that model
  WHERE and ORDER BY.
- `GroupCode` covers code generation and the bounded retry loop of
  createGroup.
- `Aggregates` covers the arithmetic of the balance query: the join of
  splits with expenses, the totals, and the GROUP BY breakdowns.
- `Groups` covers the tables, the read handlers and the handlers that
  change state.

Modelling choices:

- Money is an integer number of cents, since the columns are DECIMAL(10,2).
- `Math.random()` is a parameter. It is a sequence of draws, each already
  reduced to an index below 32.
- Each SQL statement is a function over the table values.

getGroupBalance's `totalPaid` sums every expense the user paid in the
group, whatever the state of its splits, and the model does the same.

VARCHAR columns behave as in PostgreSQL. A value longer than its column is
refused, and the handler answers 500, unless every character past the limit
is a blank; then the value is stored cut to the column's width
(`Records.Stored`). Lookups made before an INSERT compare the request's
value as sent, blanks included.

## Model

Each SQL query of the read and balance handlers is a function:
`Seqs.Filter` and `Seqs.Reverse` for WHERE and ORDER BY, `Aggregates.Join`
for the join of splits with expenses, `Aggregates.TotalPaid` and
`Aggregates.TotalOwed` for the two SUMs, `Aggregates.GroupBy`,
`Aggregates.OwesMe` and `Aggregates.IOwe` for the two GROUP BY queries, and
`GroupCode.FreshCode` for the outcome of the code retry loop. The rows
below name the lemmas and methods whose contracts state what those
functions compute. `GroupCode.IndexIn` and `GroupCode.DrawsFor` have no
counterpart in the source: they are the inverse of the alphabet lookup,
used only to prove that a code determines its draws.

| member | source | states |
|---|---|---|
| GroupCode.CodeFrom | backend/src/controllers/groupsController.js:4-11 | the code is six symbols, every one from the 32-symbol alphabet, symbol i being the alphabet entry picked by draw i |
| GroupCode.GenerateGroupCode | backend/src/controllers/groupsController.js:4-11 | the loop that appends one symbol per draw builds exactly the code CodeFrom gives for those draws |
| GroupCode.NoLookalikes | backend/src/controllers/groupsController.js:5 | no generated code contains I, O, 0 or 1 |
| GroupCode.AlphabetDistinct | backend/src/controllers/groupsController.js:5 | the 32 symbols are pairwise different, so each code comes from exactly one draw sequence |
| GroupCode.AlphabetUnambiguous | backend/src/controllers/groupsController.js:5 | every symbol is an upper-case letter other than I and O, or a digit from 2 to 9 |
| GroupCode.DrawsRoundTrip | backend/src/controllers/groupsController.js:4-11 | decoding a generated code gives back the six draws that produced it |
| GroupCode.CodeRoundTrip | backend/src/controllers/groupsController.js:4-11 | every valid code is generated by some draws: encoding the draws recovered from it returns it |
| GroupCode.FirstAbsentSpec | backend/src/controllers/groupsController.js:27-35 | the scan fails exactly when all remaining looked-up candidates collide; otherwise it yields the first that does not |
| GroupCode.FreshCodeSpec | backend/src/controllers/groupsController.js:23-39 | createGroup gives up exactly when all ten looked-up codes are taken; otherwise its code is valid, unused, and the first candidate not taken |
| GroupCode.FindUniqueCode | backend/src/controllers/groupsController.js:23-39 | the while loop returns FreshCode; at most ten lookups are made, all ten when it fails; on success the code is the candidate of the last lookup, unused, and every earlier lookup collided |
| Groups.Ledger.constructor | backend/src/config/db.js:21-59 | the tables start empty and every SERIAL counter starts at 1 |
| Groups.AddGroupConsistent | backend/src/config/db.js:21-28 | inserting a group with the next id and an unused code keeps the keys and constraints; no membership refers to the new id |
| Groups.AddMemberConsistent | backend/src/config/db.js:31-37 | inserting a new membership of an existing group keeps UNIQUE(group_id, user_id) and the foreign key |
| Groups.AddExpenseConsistent | backend/src/config/db.js:40-48 | inserting an expense with the next id into an existing group keeps the keys; no split refers to the new id |
| Groups.AddSplitConsistent | backend/src/config/db.js:51-59 | inserting a split on an existing expense for a user without one keeps UNIQUE(expense_id, user_id) and the keys |
| Groups.Ledger.InsertGroup | backend/src/controllers/groupsController.js:42-46 | appends the group row with the next id; other tables unchanged |
| Groups.Ledger.InsertMember | backend/src/controllers/groupsController.js:49-52 | appends the membership row; other tables unchanged |
| Groups.Ledger.InsertExpense | backend/src/controllers/groupsController.js:181-185 | appends the expense row with the next id; no stored split refers to it |
| Groups.Ledger.InsertSplit | backend/src/controllers/groupsController.js:189-192 | appends one unsettled split row with the next id |
| Groups.Ledger.InsertSplits | backend/src/controllers/groupsController.js:188-193 | the loop appends, in order and numbered consecutively, one unsettled split per entry up to the first entry whose INSERT fails, keeps the rows already written, and reports how many entries were stored |
| Groups.CleanRunAt | backend/src/controllers/groupsController.js:188-193 | the number of split rows written is w exactly when the first w entries insert cleanly and entry w, if any, does not |
| Records.StoredDropsBlanks | backend/src/config/db.js:23 | a value the column accepts is what the column keeps followed only by blanks |
| Groups.NoSplitClash | backend/src/config/db.js:58 | with distinct users in the request and a fresh expense, the next split never repeats an (expense, user) pair |
| Groups.Ledger.CreateGroup | backend/src/controllers/groupsController.js:14-59 | 400 when name or userId is falsy; 500 when no unused code is found or a value is refused by its column; otherwise 201 with the new group, its name, creator and currency as the columns keep them; 201 happens exactly when all checks pass; currency defaults to USD only when absent; the creator becomes its only member; nothing changes on an error |
| Groups.CreatorSoleMember | backend/src/controllers/groupsController.js:48-52 | a group with no memberships yet has exactly its creator as member once the creator's row is added |
| Groups.FindByCode | backend/src/controllers/groupsController.js:71 | finds a stored group with that code, and finds none exactly when no group has it |
| Groups.Ledger.JoinGroup | backend/src/controllers/groupsController.js:62-98 | 400 when code or userId is falsy; 404 for an unknown code; 400 when already a member; 500 when the user id is refused by its column, or when the id as stored repeats a membership of the group; otherwise 200 with the group; 200 happens exactly when all checks pass; on 200 exactly one membership, with the stored id, is added, and nothing changes otherwise |
| Groups.MembersOf | backend/src/controllers/groupsController.js:121-137 | lists exactly the users with a membership of the group |
| Groups.MembersInJoinOrder | backend/src/controllers/groupsController.js:125-130 | earlier in the members list means joined earlier |
| Groups.UserGroups | backend/src/controllers/groupsController.js:101-118 | lists exactly the stored groups the user belongs to |
| Groups.UserGroupsNewestFirst | backend/src/controllers/groupsController.js:105-111 | earlier in the list means created later |
| Groups.GroupById | backend/src/controllers/groupsController.js:140-155 | 404 with "Group not found" exactly when no group has the id; otherwise 200 with the stored group of that id |
| Groups.Ledger.AddGroupExpense | backend/src/controllers/groupsController.js:158-200 | 400 when a field is falsy; 400 when splits is not a non-empty array; 500 with nothing changed when the group id is outside INTEGER's range, since the membership query cannot cast it; 403 when the payer is not a member of the group, a negative id included; 500 with nothing changed when a value of the expense row is refused; otherwise the expense row is appended with the stored values, followed by one split row per entry up to the first entry whose INSERT fails; the answer is 201 with the expense row when every entry was stored and 500 otherwise, with the rows already written kept; 201 happens exactly when all checks pass and every entry inserts |
| Groups.RecordedExpenseBalance | backend/src/controllers/groupsController.js:180-193 | after an expense and its splits are recorded, the payer's totalPaid grows by the amount; each user named in the splits owes their split's amount more; every other total is unchanged |
| Groups.GroupExpenses | backend/src/controllers/groupsController.js:203-218 | lists exactly the group's expenses |
| Groups.ExpensesNewestFirst | backend/src/controllers/groupsController.js:207-211 | earlier in the list means recorded later |
| Groups.ExpenseSplits | backend/src/controllers/groupsController.js:221-236 | lists exactly the splits of that expense |
| Groups.Ledger.GetGroupBalance | backend/src/controllers/groupsController.js:239-312 | the two summing loops give totalPaid and totalOwed as their reference sums; net is paid minus owed; the breakdowns are the two GROUP BY results |
| Aggregates.JoinOrigin | backend/src/controllers/groupsController.js:251-256 | every joined row comes from a stored split and the stored expense it references |
| Aggregates.PaidExpenses | backend/src/controllers/groupsController.js:244-248 | keeps exactly the expenses of the group paid by the user |
| Aggregates.OwedSplits | backend/src/controllers/groupsController.js:251-256 | keeps exactly the joined rows of the group owed by the user |
| Aggregates.TotalPaidAfterExpense | backend/src/controllers/groupsController.js:259-264 | one more expense adds its amount to its payer's total in its group and changes no other total |
| Aggregates.JoinAfterExpense | backend/src/controllers/groupsController.js:251-256 | with a fresh expense id, the join after recording is the old join followed by one row per new split |
| Aggregates.TotalOwedAppend | backend/src/controllers/groupsController.js:266-270 | totalOwed over two runs of rows is the sum of their totals |
| Aggregates.ChargeOwed | backend/src/controllers/groupsController.js:266-270 | fresh unsettled splits with distinct users charge a user exactly their own split's amount, and nothing otherwise |
| Aggregates.GroupByAmount | backend/src/controllers/groupsController.js:273-282 | GROUP BY has a line for a user exactly when the user occurs, holding the sum of that user's amounts |
| Aggregates.GroupByDistinct | backend/src/controllers/groupsController.js:281 | a GROUP BY result names no user twice |
| Aggregates.GroupBySum | backend/src/controllers/groupsController.js:273-282 | grouping keeps the grand total |
| Aggregates.OwesMeAt | backend/src/controllers/groupsController.js:273-282 | owesMe has a line for v exactly when v is another user with unsettled debt to the user in the group, holding that debt's sum |
| Aggregates.IOweAt | backend/src/controllers/groupsController.js:284-293 | iOwe has a line for p exactly when p is another payer the user has unsettled debt to, holding that debt's sum |
| Aggregates.OwesMeIOweDual | backend/src/controllers/groupsController.js:273-293 | what a sees for b in owesMe is what b sees for a in iOwe |
| Aggregates.OwesMeLines | backend/src/controllers/groupsController.js:273-282 | owesMe lines have distinct users, each another user with open debt and its sum, and no such user is missing |
| Aggregates.IOweLines | backend/src/controllers/groupsController.js:284-293 | iOwe lines have distinct payers, each another payer the user owes and its sum, and no such payer is missing |
| Aggregates.TotalOwedItemised | backend/src/controllers/groupsController.js:266-270 | totalOwed is the user's unsettled share on their own expenses plus the sum of their iOwe lines |
| Aggregates.ZeroBalance | backend/src/controllers/groupsController.js:243-307 | a user who paid nothing and owes no split in the group gets zero totals and empty breakdowns |
| Seqs.Filter | backend/src/controllers/groupsController.js:125-130 | a WHERE clause keeps exactly the rows that satisfy it, never more rows than it read |
| Seqs.FilterPreservesOrder | backend/src/controllers/groupsController.js:125-130 | a WHERE clause keeps the table's order |

## Left out

- Storage failures other than constraint violations are not modelled (a lost connection, a database that is down). The failures modelled are values refused by their VARCHAR column, amounts outside the DECIMAL(10,2) range, and UNIQUE violations; each answers 500 as the catch branches do.
- SERIAL counters: an INSERT that fails still consumes a sequence value in PostgreSQL. The model advances a counter only when its row is written, so ids after a failed INSERT may be lower than the database's.
- Groups.Ledger.AddGroupExpense: split entries are given as already-parsed user ids and cent amounts. Splits naming users outside the group, or amounts that do not add up to the expense, are accepted, as in the source. Malformed entries (missing fields, non-numeric strings) are not modelled.
- Groups.Ledger.GetGroupBalance: works in exact cents. The source adds up `parseFloat` results in binary floating point, and cents do not model its rounding.
- Groups.GroupById, Groups.MembersOf, Groups.GroupExpenses, Groups.ExpenseSplits and Groups.Ledger.GetGroupBalance: take their id route parameters as already-typed natural numbers. The source passes strings that the database casts to INTEGER, and a string that is not an integer (GET /groups/abc), or one outside INTEGER's range, makes the query fail with 500; that coercion is outside the model. Groups.UserGroups compares its parameter with a VARCHAR column, so nothing is cast there.
- Groups.Ledger.AddGroupExpense: the request's groupId is an integer, checked against INTEGER's range. A fractional JSON number (1.5), which the cast also refuses with 500 in the source, cannot be passed.
- The order of GROUP BY lines is unspecified in SQL. The model lists them in order of first appearance, and the lemmas state the contents, not the order.
- Groups.ExpenseSplits: keeps insertion order. The source's `ORDER BY user_id` sorting under the database collation is not modelled.
- `created_at` and `joined_at` timestamps are not stored. ORDER BY on them is modelled as insertion order, newest first where the source sorts DESC. This assumes timestamps increase with insertion. The `joined_at` column added to getUserGroups rows and the `group_members.id` key are left out.
- The random source: `Math.random()` becomes a parameter, a sequence of draws already reduced to indices below 32. The model does not state how uniform the codes are.
- Concurrency: two requests racing between the code lookup and the INSERT, or between the membership check and the INSERT, are not modelled. Each handler runs alone.
- settleUp and leaveGroup are routed to this controller, but their bodies are not part of this model.
- Notifications, the users controller, the personal transactions table, server wiring, table creation and the mobile app are not part of this model.
- Request fields of unexpected JavaScript types: only absent, empty and present values are distinguished. A `splits` field is distinguished as falsy, not an array, or an array.
