/**
 * The groups controller over an in-memory copy of its four tables. Each
 * request handler is a method (or, for the plain reads, a function) that
 * answers with an HTTP status and a payload.
 */
module Groups {
  import opened Wrappers
  import opened Records
  import opened Seqs
  import opened GroupCode
  import opened Aggregates

  datatype Body =
    | GroupRow(group: Group)
    | ExpenseRow(expense: Expense)
    | Report(balance: BalanceReport)
    | Message(text: string)

  datatype Response = Response(status: nat, body: Body)

  /** One entry of the request's `splits` array. */
  datatype SplitRequest = SplitRequest(userId: UserId, amount: Cents)

  /** The request's `splits` field: falsy, a truthy value that is not an array, or an array. */
  datatype SplitsField = Missing | NotAnArray | Items(items: seq<SplitRequest>)

  const DefaultCurrency: string := "USD"

  const NameAndUserRequired: string := "Name and userId are required"
  const CodeUnavailable: string := "Failed to generate unique code"
  const InternalError: string := "Internal server error"
  const CodeAndUserRequired: string := "Code and userId are required"
  const GroupNotFound: string := "Group not found"
  const AlreadyMember: string := "Already a member of this group"
  const AllFieldsRequired: string := "All fields are required"
  const SplitsNotArray: string := "Splits must be a non-empty array"
  const PayerNotMember: string := "User not a member of this group"

  /** The fields addGroupExpense requires are all truthy. */
  predicate ExpenseFieldsPresent(groupId: Option<int>, description: Option<string>, amount: Option<Cents>,
                                 paidBy: Option<UserId>, category: Option<string>, splitsField: SplitsField)
  {
    PresentNumber(groupId) && Present(description) && PresentNumber(amount) && Present(paidBy) &&
    Present(category) && !splitsField.Missing?
  }

  /** The request's splits field is a non-empty array. */
  predicate SplitsNonEmpty(splitsField: SplitsField) {
    splitsField.Items? && splitsField.items != []
  }

  /** The column limits a new groups row must meet (db.js, table groups). */
  predicate GroupRowFits(name: string, createdBy: UserId, currency: string) {
    FitsVarchar(name, TextWidth) && FitsVarchar(createdBy, TextWidth) && FitsVarchar(currency, CurrencyWidth)
  }

  /** The column limits a new group_expenses row must meet. */
  predicate ExpenseRowFits(description: string, amount: Cents, paidBy: UserId, category: string) {
    FitsVarchar(description, TextWidth) && FitsDecimal(amount) &&
    FitsVarchar(paidBy, TextWidth) && FitsVarchar(category, TextWidth)
  }

  /**
   * Entry k of a request's splits inserts cleanly once the entries before it
   * are stored: its values fit their columns, and no earlier entry stored the
   * same user id (UNIQUE(expense_id, user_id) on a fresh expense).
   */
  predicate SplitFits(items: seq<SplitRequest>, k: nat)
    requires k < |items|
  {
    && FitsVarchar(items[k].userId, TextWidth) && FitsDecimal(items[k].amount)
    && forall j :: 0 <= j < k ==> Stored(items[j].userId, TextWidth) != Stored(items[k].userId, TextWidth)
  }

  /** The entries from k on that insert before the first one that fails: the end of the clean run. */
  function CleanRun(items: seq<SplitRequest>, k: nat): (r: nat)
    requires k <= |items|
    ensures k <= r <= |items|
    ensures forall j :: k <= j < r ==> SplitFits(items, j)
    ensures r < |items| ==> !SplitFits(items, r)
    decreases |items| - k
  {
    if k == |items| || !SplitFits(items, k) then k else CleanRun(items, k + 1)
  }

  /** How many split rows the insert loop writes before its first failing INSERT (all of them if none fails). */
  function SplitsWritten(items: seq<SplitRequest>): nat
  {
    CleanRun(items, 0)
  }

  /** A clean run of entries followed by the end or a failing entry is the one CleanRun finds. */
  lemma {:induction false} CleanRunAt(items: seq<SplitRequest>, k: nat, w: nat)
    requires k <= w <= |items|
    requires forall j :: k <= j < w ==> SplitFits(items, j)
    requires w < |items| ==> !SplitFits(items, w)
    ensures CleanRun(items, k) == w
    decreases w - k
  {
    if k < w {
      CleanRunAt(items, k + 1, w);
    }
  }

  /**
   * The split rows recorded for `items`, numbered from `firstId`, none of them settled.
   * The ensures only unfold the comprehension for the solver.
   */
  function SplitRows(firstId: nat, expenseId: nat, items: seq<SplitRequest>): (r: seq<Split>)
    ensures |r| == |items|
    ensures forall k :: 0 <= k < |items| ==>
      r[k] == Split(firstId + k, expenseId, Stored(items[k].userId, TextWidth), items[k].amount, false)
  {
    seq(|items|, k requires 0 <= k < |items| =>
      Split(firstId + k, expenseId, Stored(items[k].userId, TextWidth), items[k].amount, false))
  }

  /**
   * The effect on getGroupBalance of an expense recorded by addGroupExpense
   * with all its splits: the payer's totalPaid grows by the amount, each user
   * named in the splits owes their split's amount more, and every other total
   * stays as it was.
   */
  lemma {:induction false} RecordedExpenseBalance(expenses: seq<Expense>, splits: seq<Split>, e: Expense,
                               items: seq<SplitRequest>, firstId: nat, g: nat, u: UserId)
    requires forall x :: x in expenses ==> x.id != e.id
    requires forall t :: t in splits ==> t.expenseId != e.id
    requires SplitsWritten(items) == |items|
    ensures TotalPaid(expenses + [e], g, u) ==
            TotalPaid(expenses, g, u) + (if e.groupId == g && e.paidBy == u then e.amount else 0)
    ensures var before := Join(splits, expenses);
            var after := Join(splits + SplitRows(firstId, e.id, items), expenses + [e]);
      && (e.groupId == g ==>
            forall k :: 0 <= k < |items| && Stored(items[k].userId, TextWidth) == u ==>
              TotalOwed(after, g, u) == TotalOwed(before, g, u) + items[k].amount)
      && ((e.groupId != g || forall k :: 0 <= k < |items| ==> Stored(items[k].userId, TextWidth) != u) ==>
            TotalOwed(after, g, u) == TotalOwed(before, g, u))
  {
    TotalPaidAfterExpense(expenses, e, g, u);
    var ss := SplitRows(firstId, e.id, items);
    JoinAfterExpense(splits, expenses, e, ss);
    forall i, j | 0 <= i < j < |ss| ensures ss[i].userId != ss[j].userId {
      assert SplitFits(items, j);
      assert ss[i].userId == Stored(items[i].userId, TextWidth) && ss[j].userId == Stored(items[j].userId, TextWidth);
    }
    OwedAfterCharge(Join(splits, expenses), ss, e, g, u);
  }

  /** A split entry that fits never repeats an (expense, user) pair already stored for a fresh expense. */
  lemma NoSplitClash(stored: seq<Split>, firstId: nat, expenseId: nat, items: seq<SplitRequest>, k: nat)
    requires forall t :: t in stored ==> t.expenseId != expenseId
    requires k < |items| && SplitFits(items, k)
    ensures forall t :: t in stored + SplitRows(firstId, expenseId, items[..k]) ==>
      t.expenseId != expenseId || t.userId != Stored(items[k].userId, TextWidth)
  {
    var made := SplitRows(firstId, expenseId, items[..k]);
    forall t | t in stored + made ensures t.expenseId != expenseId || t.userId != Stored(items[k].userId, TextWidth) {
      if t !in stored {
        var i :| 0 <= i < |made| && made[i] == t;
        assert t.userId == Stored(items[i].userId, TextWidth);
      }
    }
  }

  function IdsOf(groups: seq<Group>): set<nat> {
    set g | g in groups :: g.id
  }

  function ExpenseIdsOf(expenses: seq<Expense>): set<nat> {
    set e | e in expenses :: e.id
  }

  function CodesOf(groups: seq<Group>): set<string> {
    set g | g in groups :: g.code
  }

  /** The primary keys, the UNIQUE constraints and the foreign keys of the schema, on table values. */
  ghost predicate Consistent(groups: seq<Group>, members: seq<Member>, expenses: seq<Expense>, splits: seq<Split>,
                             nextGroupId: nat, nextExpenseId: nat, nextSplitId: nat)
  {
    && 1 <= nextGroupId && 1 <= nextExpenseId && 1 <= nextSplitId
    && (forall g :: g in groups ==> 1 <= g.id < nextGroupId)
    && (forall i, j :: 0 <= i < j < |groups| ==> groups[i].id != groups[j].id && groups[i].code != groups[j].code)
    && (forall m :: m in members ==> m.groupId in IdsOf(groups))
    && (forall i, j :: 0 <= i < j < |members| ==> members[i] != members[j])
    && (forall e :: e in expenses ==> 1 <= e.id < nextExpenseId && e.groupId in IdsOf(groups))
    && (forall i, j :: 0 <= i < j < |expenses| ==> expenses[i].id != expenses[j].id)
    && (forall s :: s in splits ==> 1 <= s.id < nextSplitId && s.expenseId in ExpenseIdsOf(expenses))
    && (forall i, j :: 0 <= i < j < |splits| ==>
          splits[i].id != splits[j].id &&
          (splits[i].expenseId != splits[j].expenseId || splits[i].userId != splits[j].userId))
  }

  /** Inserting a group with the next id and an unused code keeps the schema; no membership refers to it yet. */
  lemma AddGroupConsistent(groups: seq<Group>, members: seq<Member>, expenses: seq<Expense>, splits: seq<Split>,
                           nextGroupId: nat, nextExpenseId: nat, nextSplitId: nat, g: Group)
    requires Consistent(groups, members, expenses, splits, nextGroupId, nextExpenseId, nextSplitId)
    requires g.id == nextGroupId && g.code !in CodesOf(groups)
    ensures Consistent(groups + [g], members, expenses, splits, nextGroupId + 1, nextExpenseId, nextSplitId)
    ensures forall m :: m in members ==> m.groupId != g.id
  {
    var gs := groups + [g];
    assert IdsOf(gs) == IdsOf(groups) + {g.id};
    forall i, j | 0 <= i < j < |gs| ensures gs[i].id != gs[j].id && gs[i].code != gs[j].code {
      if j == |groups| {
        assert gs[i] in groups;
      }
    }
  }

  /** Inserting a membership of an existing group that is not yet recorded keeps the schema. */
  lemma AddMemberConsistent(groups: seq<Group>, members: seq<Member>, expenses: seq<Expense>, splits: seq<Split>,
                            nextGroupId: nat, nextExpenseId: nat, nextSplitId: nat, m: Member)
    requires Consistent(groups, members, expenses, splits, nextGroupId, nextExpenseId, nextSplitId)
    requires m.groupId in IdsOf(groups) && m !in members
    ensures Consistent(groups, members + [m], expenses, splits, nextGroupId, nextExpenseId, nextSplitId)
  {
    var ms := members + [m];
    forall i, j | 0 <= i < j < |ms| ensures ms[i] != ms[j] {
      if j == |members| {
        assert ms[i] in members;
      }
    }
  }

  /** Inserting an expense with the next id into an existing group keeps the schema. */
  lemma AddExpenseConsistent(groups: seq<Group>, members: seq<Member>, expenses: seq<Expense>, splits: seq<Split>,
                             nextGroupId: nat, nextExpenseId: nat, nextSplitId: nat, e: Expense)
    requires Consistent(groups, members, expenses, splits, nextGroupId, nextExpenseId, nextSplitId)
    requires e.id == nextExpenseId && e.groupId in IdsOf(groups)
    ensures Consistent(groups, members, expenses + [e], splits, nextGroupId, nextExpenseId + 1, nextSplitId)
    ensures forall s :: s in splits ==> s.expenseId != e.id
  {
    var es := expenses + [e];
    assert ExpenseIdsOf(es) == ExpenseIdsOf(expenses) + {e.id};
    forall i, j | 0 <= i < j < |es| ensures es[i].id != es[j].id {
      if j == |expenses| {
        assert es[i] in expenses;
      }
    }
  }

  /** Inserting a split with the next id, on an existing expense, for a user without a split on it, keeps the schema. */
  lemma AddSplitConsistent(groups: seq<Group>, members: seq<Member>, expenses: seq<Expense>, splits: seq<Split>,
                           nextGroupId: nat, nextExpenseId: nat, nextSplitId: nat, s: Split)
    requires Consistent(groups, members, expenses, splits, nextGroupId, nextExpenseId, nextSplitId)
    requires s.id == nextSplitId && s.expenseId in ExpenseIdsOf(expenses)
    requires forall t :: t in splits ==> t.expenseId != s.expenseId || t.userId != s.userId
    ensures Consistent(groups, members, expenses, splits + [s], nextGroupId, nextExpenseId, nextSplitId + 1)
  {
    var ss := splits + [s];
    forall i, j | 0 <= i < j < |ss|
      ensures ss[i].id != ss[j].id && (ss[i].expenseId != ss[j].expenseId || ss[i].userId != ss[j].userId)
    {
      if j == |splits| {
        assert ss[i] in splits;
      }
    }
  }

  // ---------------------------------------------------------------------
  // SELECTs over the tables

  predicate IsMember(members: seq<Member>, groupId: nat, userId: UserId) {
    Member(groupId, userId) in members
  }

  /**
   * The payer check of addGroupExpense, on a request id that may be negative:
   * no membership refers to a negative group id.
   */
  predicate PayerIsMember(members: seq<Member>, groupId: int, userId: UserId) {
    0 <= groupId && IsMember(members, groupId, userId)
  }

  /** SELECT * FROM groups WHERE code = c: the group with that code, if any. */
  function FindByCode(groups: seq<Group>, c: string): (r: Option<Group>)
    ensures r.Some? ==> r.value in groups && r.value.code == c
    ensures r.None? <==> c !in CodesOf(groups)
  {
    var hits := Filter(groups, (g: Group) => g.code == c);
    if hits == [] then
      assert forall g :: g in groups ==> g !in hits;
      None
    else
      assert hits[0] in hits;
      Some(hits[0])
  }

  /** WHERE group_id = groupId, on group_members. */
  function OfGroup(groupId: nat): Member -> bool {
    (m: Member) => m.groupId == groupId
  }

  /** The INNER JOIN with group_members WHERE user_id = userId, on groups. */
  function JoinedBy(members: seq<Member>, userId: UserId): Group -> bool {
    (g: Group) => Member(g.id, userId) in members
  }

  /** WHERE group_id = groupId, on group_expenses. */
  function ExpenseOf(groupId: nat): Expense -> bool {
    (e: Expense) => e.groupId == groupId
  }

  /** getGroupMembers: the users of a group, in joining order. */
  function MembersOf(members: seq<Member>, groupId: nat): (r: seq<UserId>)
    ensures forall u :: u in r <==> IsMember(members, groupId, u)
  {
    var rows := Filter(members, OfGroup(groupId));
    var r := MapSeq(rows, (m: Member) => m.userId);
    assert forall u :: u in r <==> IsMember(members, groupId, u) by {
      forall u ensures u in r <==> IsMember(members, groupId, u) {
        if IsMember(members, groupId, u) {
          assert Member(groupId, u) in rows;
          var i :| 0 <= i < |rows| && rows[i] == Member(groupId, u);
          assert r[i] == u;
        }
        if u in r {
          var i :| 0 <= i < |r| && r[i] == u;
          assert rows[i] in rows;
          assert rows[i] == Member(groupId, u);
        }
      }
    }
    r
  }

  /** A group none of whose memberships exist yet has exactly its creator as member after the creator is added. */
  lemma {:induction false} CreatorSoleMember(members: seq<Member>, groupId: nat, creator: UserId)
    requires forall m :: m in members ==> m.groupId != groupId
    ensures MembersOf(members + [Member(groupId, creator)], groupId) == [creator]
  {
    FilterSnoc(members, Member(groupId, creator), OfGroup(groupId));
    FilterNone(members, OfGroup(groupId));
  }

  /** getUserGroups: the groups a user belongs to, newest first. */
  function UserGroups(groups: seq<Group>, members: seq<Member>, userId: UserId): (r: seq<Group>)
    ensures forall g :: g in r <==> g in groups && IsMember(members, g.id, userId)
  {
    var mine := Filter(groups, JoinedBy(members, userId));
    var r := Reverse(mine);
    assert forall g :: g in r <==> g in mine by {
      forall g ensures g in r <==> g in mine {
        if g in mine {
          var i :| 0 <= i < |mine| && mine[i] == g;
          assert r[|mine| - 1 - i] == g;
        }
      }
    }
    r
  }

  /** getGroupById: 404 for an unknown id, otherwise the group row. */
  function GroupById(groups: seq<Group>, groupId: nat): (r: Response)
    ensures r.status == 404 <==> groupId !in IdsOf(groups)
    ensures r.status == 404 ==> r.body == Message(GroupNotFound)
    ensures r.status != 404 ==>
      (r.status == 200 && r.body.GroupRow? && r.body.group in groups && r.body.group.id == groupId)
  {
    var hits := Filter(groups, (g: Group) => g.id == groupId);
    if hits == [] then
      assert forall g :: g in groups ==> g !in hits;
      Response(404, Message(GroupNotFound))
    else
      assert hits[0] in hits;
      Response(200, GroupRow(hits[0]))
  }

  /** getGroupExpenses: the expenses of a group, newest first. */
  function GroupExpenses(expenses: seq<Expense>, groupId: nat): (r: seq<Expense>)
    ensures forall e :: e in r <==> e in expenses && e.groupId == groupId
  {
    var mine := Filter(expenses, ExpenseOf(groupId));
    var r := Reverse(mine);
    assert forall e :: e in r <==> e in mine by {
      forall e ensures e in r <==> e in mine {
        if e in mine {
          var i :| 0 <= i < |mine| && mine[i] == e;
          assert r[|mine| - 1 - i] == e;
        }
      }
    }
    r
  }

  /** ORDER BY joined_at ASC: an earlier member of the list joined earlier. */
  lemma {:induction false} MembersInJoinOrder(members: seq<Member>, groupId: nat, i: nat, j: nat)
    requires i < j < |MembersOf(members, groupId)|
    ensures var r := MembersOf(members, groupId);
      exists a, b :: 0 <= a < b < |members| && members[a] == Member(groupId, r[i]) && members[b] == Member(groupId, r[j])
  {
    var rows := Filter(members, OfGroup(groupId));
    FilterPreservesOrder(members, OfGroup(groupId), i, j);
    assert rows[i] in rows && rows[j] in rows;
  }

  /** ORDER BY created_at DESC: an earlier group in the list was created later. */
  lemma {:induction false} UserGroupsNewestFirst(groups: seq<Group>, members: seq<Member>, userId: UserId, i: nat, j: nat)
    requires i < j < |UserGroups(groups, members, userId)|
    ensures var r := UserGroups(groups, members, userId);
      exists a, b :: 0 <= b < a < |groups| && groups[a] == r[i] && groups[b] == r[j]
  {
    assert UserGroups(groups, members, userId) == Reverse(Filter(groups, JoinedBy(members, userId)));
    ReverseFilterOrder(groups, JoinedBy(members, userId), i, j);
  }

  /** ORDER BY created_at DESC: an earlier expense in the list was recorded later. */
  lemma {:induction false} ExpensesNewestFirst(expenses: seq<Expense>, groupId: nat, i: nat, j: nat)
    requires i < j < |GroupExpenses(expenses, groupId)|
    ensures var r := GroupExpenses(expenses, groupId);
      exists a, b :: 0 <= b < a < |expenses| && expenses[a] == r[i] && expenses[b] == r[j]
  {
    assert GroupExpenses(expenses, groupId) == Reverse(Filter(expenses, ExpenseOf(groupId)));
    ReverseFilterOrder(expenses, ExpenseOf(groupId), i, j);
  }

  /** getExpenseSplits: the splits of one expense. */
  function ExpenseSplits(splits: seq<Split>, expenseId: nat): (r: seq<Split>)
    ensures forall s :: s in r <==> s in splits && s.expenseId == expenseId
  {
    Filter(splits, (s: Split) => s.expenseId == expenseId)
  }

  // ---------------------------------------------------------------------
  // The tables and the handlers that change them

  class Ledger {
    var groups: seq<Group>
    var members: seq<Member>
    var expenses: seq<Expense>
    var splits: seq<Split>
    /** The next values of the SERIAL id columns. */
    var nextGroupId: nat
    var nextExpenseId: nat
    var nextSplitId: nat

    ghost predicate Valid()
      reads this
    {
      Consistent(groups, members, expenses, splits, nextGroupId, nextExpenseId, nextSplitId)
    }

    constructor ()
      ensures Valid()
      ensures groups == [] && members == [] && expenses == [] && splits == []
      ensures nextGroupId == 1 && nextExpenseId == 1 && nextSplitId == 1
    {
      groups, members, expenses, splits := [], [], [], [];
      nextGroupId, nextExpenseId, nextSplitId := 1, 1, 1;
    }

    /** INSERT INTO groups ... RETURNING *: the row gets the next serial id. */
    method InsertGroup(name: string, code: string, createdBy: UserId, currency: string) returns (g: Group)
      requires Valid() && code !in CodesOf(groups)
      modifies this
      ensures Valid()
      ensures g == Group(old(nextGroupId), name, code, createdBy, currency)
      ensures groups == old(groups) + [g] && nextGroupId == old(nextGroupId) + 1
      ensures members == old(members) && expenses == old(expenses) && splits == old(splits)
      ensures nextExpenseId == old(nextExpenseId) && nextSplitId == old(nextSplitId)
      ensures forall m :: m in members ==> m.groupId != g.id
    {
      g := Group(nextGroupId, name, code, createdBy, currency);
      AddGroupConsistent(groups, members, expenses, splits, nextGroupId, nextExpenseId, nextSplitId, g);
      groups := groups + [g];
      nextGroupId := nextGroupId + 1;
    }

    /** INSERT INTO group_members(group_id, user_id). */
    method InsertMember(groupId: nat, userId: UserId)
      requires Valid() && groupId in IdsOf(groups) && !IsMember(members, groupId, userId)
      modifies this
      ensures Valid()
      ensures members == old(members) + [Member(groupId, userId)]
      ensures groups == old(groups) && expenses == old(expenses) && splits == old(splits)
      ensures nextGroupId == old(nextGroupId) && nextExpenseId == old(nextExpenseId) && nextSplitId == old(nextSplitId)
    {
      AddMemberConsistent(groups, members, expenses, splits, nextGroupId, nextExpenseId, nextSplitId,
                          Member(groupId, userId));
      members := members + [Member(groupId, userId)];
    }

    /** INSERT INTO group_expenses ... RETURNING *: the row gets the next serial id. */
    method InsertExpense(groupId: nat, description: string, amount: Cents, paidBy: UserId, category: string)
      returns (e: Expense)
      requires Valid() && groupId in IdsOf(groups)
      modifies this
      ensures Valid()
      ensures e == Expense(old(nextExpenseId), groupId, description, amount, paidBy, category)
      ensures expenses == old(expenses) + [e] && nextExpenseId == old(nextExpenseId) + 1
      ensures groups == old(groups) && members == old(members) && splits == old(splits)
      ensures nextGroupId == old(nextGroupId) && nextSplitId == old(nextSplitId)
      ensures forall s :: s in splits ==> s.expenseId != e.id
    {
      e := Expense(nextExpenseId, groupId, description, amount, paidBy, category);
      AddExpenseConsistent(groups, members, expenses, splits, nextGroupId, nextExpenseId, nextSplitId, e);
      expenses := expenses + [e];
      nextExpenseId := nextExpenseId + 1;
    }

    /** INSERT INTO expense_splits(expense_id, user_id, amount_owed): is_settled takes its default, false. */
    method InsertSplit(expenseId: nat, userId: UserId, amount: Cents) returns (s: Split)
      requires Valid() && expenseId in ExpenseIdsOf(expenses)
      requires forall t :: t in splits ==> t.expenseId != expenseId || t.userId != userId
      modifies this
      ensures Valid()
      ensures s == Split(old(nextSplitId), expenseId, userId, amount, false)
      ensures splits == old(splits) + [s] && nextSplitId == old(nextSplitId) + 1
      ensures groups == old(groups) && members == old(members) && expenses == old(expenses)
      ensures nextGroupId == old(nextGroupId) && nextExpenseId == old(nextExpenseId)
    {
      s := Split(nextSplitId, expenseId, userId, amount, false);
      AddSplitConsistent(groups, members, expenses, splits, nextGroupId, nextExpenseId, nextSplitId, s);
      splits := splits + [s];
      nextSplitId := nextSplitId + 1;
    }

    /**
     * The INSERT INTO expense_splits loop: one row per entry, in order, up to
     * the first entry whose INSERT fails; `written` counts the rows stored.
     */
    method InsertSplits(expenseId: nat, items: seq<SplitRequest>) returns (written: nat)
      requires Valid() && expenseId in ExpenseIdsOf(expenses)
      requires forall t :: t in splits ==> t.expenseId != expenseId
      modifies this
      ensures Valid()
      ensures written == SplitsWritten(items)
      ensures splits == old(splits) + SplitRows(old(nextSplitId), expenseId, items[..written])
      ensures nextSplitId == old(nextSplitId) + written
      ensures groups == old(groups) && members == old(members) && expenses == old(expenses)
      ensures nextGroupId == old(nextGroupId) && nextExpenseId == old(nextExpenseId)
    {
      ghost var firstId := nextSplitId;
      written := 0;
      while written < |items| && SplitFits(items, written)
        invariant written <= |items|
        invariant forall j :: 0 <= j < written ==> SplitFits(items, j)
        invariant Valid()
        invariant groups == old(groups) && members == old(members) && expenses == old(expenses)
        invariant nextExpenseId == old(nextExpenseId) && nextGroupId == old(nextGroupId)
        invariant splits == old(splits) + SplitRows(firstId, expenseId, items[..written])
        invariant nextSplitId == firstId + written
        decreases |items| - written
      {
        NoSplitClash(old(splits), firstId, expenseId, items, written);
        var s := InsertSplit(expenseId, Stored(items[written].userId, TextWidth), items[written].amount);
        assert SplitRows(firstId, expenseId, items[..written + 1]) ==
               SplitRows(firstId, expenseId, items[..written]) + [s];
        written := written + 1;
      }
      CleanRunAt(items, 0, written);
    }

    // -------------------------------------------------------------------
    // createGroup

    method CreateGroup(name: Option<string>, userId: Option<UserId>, currency: Option<string>, draws: seq<Draw>)
      returns (r: Response)
      requires Valid()
      requires |draws| >= DrawsPerCreate
      modifies this
      ensures Valid()
      ensures !(Present(name) && Present(userId)) ==>
        r == Response(400, Message(NameAndUserRequired)) && unchanged(this)
      ensures Present(name) && Present(userId) && FreshCode(old(CodesOf(groups)), draws).None? ==>
        r == Response(500, Message(CodeUnavailable)) && unchanged(this)
      ensures (Present(name) && Present(userId) && FreshCode(old(CodesOf(groups)), draws).Some? &&
               !GroupRowFits(name.value, userId.value, currency.GetOr(DefaultCurrency))) ==>
        r == Response(500, Message(InternalError)) && unchanged(this)
      ensures r.status == 201 <==>
        Present(name) && Present(userId) && FreshCode(old(CodesOf(groups)), draws).Some? &&
        GroupRowFits(name.value, userId.value, currency.GetOr(DefaultCurrency))
      ensures r.status == 201 ==>
        var g := Group(old(nextGroupId), Stored(name.value, TextWidth), FreshCode(old(CodesOf(groups)), draws).value,
                       Stored(userId.value, TextWidth), Stored(currency.GetOr(DefaultCurrency), CurrencyWidth));
        && r == Response(201, GroupRow(g))
        && g.code !in old(CodesOf(groups)) && ValidCode(g.code)
        && groups == old(groups) + [g]
        && members == old(members) + [Member(g.id, g.createdBy)]
        && MembersOf(members, g.id) == [g.createdBy]
        && expenses == old(expenses) && splits == old(splits)
        && nextGroupId == old(nextGroupId) + 1
        && nextExpenseId == old(nextExpenseId) && nextSplitId == old(nextSplitId)
    {
      if !(Present(name) && Present(userId)) {
        return Response(400, Message(NameAndUserRequired));
      }
      var code, lookups := FindUniqueCode(CodesOf(groups), draws);
      if code.None? {
        return Response(500, Message(CodeUnavailable));
      }
      var cur := currency.GetOr(DefaultCurrency);
      if !GroupRowFits(name.value, userId.value, cur) {
        return Response(500, Message(InternalError));
      }
      var g := InsertGroup(Stored(name.value, TextWidth), code.value, Stored(userId.value, TextWidth),
                           Stored(cur, CurrencyWidth));
      CreatorSoleMember(members, g.id, g.createdBy);
      InsertMember(g.id, g.createdBy);
      r := Response(201, GroupRow(g));
    }

    // -------------------------------------------------------------------
    // joinGroup

    method JoinGroup(code: Option<string>, userId: Option<UserId>) returns (r: Response)
      requires Valid()
      modifies this
      ensures Valid()
      ensures !(Present(code) && Present(userId)) ==>
        r == Response(400, Message(CodeAndUserRequired)) && unchanged(this)
      ensures Present(code) && Present(userId) && FindByCode(old(groups), code.value).None? ==>
        r == Response(404, Message(GroupNotFound)) && unchanged(this)
      ensures (Present(code) && Present(userId) && FindByCode(old(groups), code.value).Some? &&
               IsMember(old(members), FindByCode(old(groups), code.value).value.id, userId.value)) ==>
        r == Response(400, Message(AlreadyMember)) && unchanged(this)
      ensures (Present(code) && Present(userId) && FindByCode(old(groups), code.value).Some? &&
               !IsMember(old(members), FindByCode(old(groups), code.value).value.id, userId.value) &&
               (!FitsVarchar(userId.value, TextWidth) ||
                IsMember(old(members), FindByCode(old(groups), code.value).value.id, Stored(userId.value, TextWidth)))) ==>
        r == Response(500, Message(InternalError)) && unchanged(this)
      ensures r.status == 200 <==>
        Present(code) && Present(userId) && FindByCode(old(groups), code.value).Some? &&
        !IsMember(old(members), FindByCode(old(groups), code.value).value.id, userId.value) &&
        FitsVarchar(userId.value, TextWidth) &&
        !IsMember(old(members), FindByCode(old(groups), code.value).value.id, Stored(userId.value, TextWidth))
      ensures r.status != 200 ==> unchanged(this)
      ensures r.status == 200 ==>
        var g := FindByCode(old(groups), code.value).value;
        && r == Response(200, GroupRow(g))
        && members == old(members) + [Member(g.id, Stored(userId.value, TextWidth))]
        && groups == old(groups) && expenses == old(expenses) && splits == old(splits)
        && nextGroupId == old(nextGroupId) && nextExpenseId == old(nextExpenseId)
        && nextSplitId == old(nextSplitId)
      ensures forall gid, u :: IsMember(members, gid, u) <==>
        IsMember(old(members), gid, u) ||
        (r.status == 200 && gid == FindByCode(old(groups), code.value).value.id && u == Stored(userId.value, TextWidth))
    {
      if !(Present(code) && Present(userId)) {
        return Response(400, Message(CodeAndUserRequired));
      }
      var found := FindByCode(groups, code.value);
      if found.None? {
        return Response(404, Message(GroupNotFound));
      }
      var g := found.value;
      if IsMember(members, g.id, userId.value) {
        return Response(400, Message(AlreadyMember));
      }
      if !FitsVarchar(userId.value, TextWidth) {
        return Response(500, Message(InternalError));
      }
      var stored := Stored(userId.value, TextWidth);
      if IsMember(members, g.id, stored) {
        // the truncated value repeats a membership: UNIQUE(group_id, user_id) refuses the INSERT
        return Response(500, Message(InternalError));
      }
      InsertMember(g.id, stored);
      r := Response(200, GroupRow(g));
    }

    // -------------------------------------------------------------------
    // addGroupExpense

    method AddGroupExpense(groupId: Option<int>, description: Option<string>, amount: Option<Cents>,
                           paidBy: Option<UserId>, category: Option<string>, splitsField: SplitsField)
      returns (r: Response)
      requires Valid()
      modifies this
      ensures Valid()
      ensures groups == old(groups) && members == old(members)
      ensures !ExpenseFieldsPresent(groupId, description, amount, paidBy, category, splitsField) ==>
        r == Response(400, Message(AllFieldsRequired)) && unchanged(this)
      ensures (ExpenseFieldsPresent(groupId, description, amount, paidBy, category, splitsField) &&
               !SplitsNonEmpty(splitsField)) ==>
        r == Response(400, Message(SplitsNotArray)) && unchanged(this)
      ensures (ExpenseFieldsPresent(groupId, description, amount, paidBy, category, splitsField) &&
               SplitsNonEmpty(splitsField) && !FitsInteger(groupId.value)) ==>
        r == Response(500, Message(InternalError)) && unchanged(this)
      ensures (ExpenseFieldsPresent(groupId, description, amount, paidBy, category, splitsField) &&
               SplitsNonEmpty(splitsField) && FitsInteger(groupId.value) &&
               !PayerIsMember(old(members), groupId.value, paidBy.value)) ==>
        r == Response(403, Message(PayerNotMember)) && unchanged(this)
      ensures (ExpenseFieldsPresent(groupId, description, amount, paidBy, category, splitsField) &&
               SplitsNonEmpty(splitsField) && FitsInteger(groupId.value) &&
               PayerIsMember(old(members), groupId.value, paidBy.value) &&
               !ExpenseRowFits(description.value, amount.value, paidBy.value, category.value)) ==>
        r == Response(500, Message(InternalError)) && unchanged(this)
      ensures (ExpenseFieldsPresent(groupId, description, amount, paidBy, category, splitsField) &&
               SplitsNonEmpty(splitsField) && FitsInteger(groupId.value) &&
               PayerIsMember(old(members), groupId.value, paidBy.value) &&
               ExpenseRowFits(description.value, amount.value, paidBy.value, category.value)) ==>
        var e := Expense(old(nextExpenseId), groupId.value, Stored(description.value, TextWidth), amount.value,
                         Stored(paidBy.value, TextWidth), Stored(category.value, TextWidth));
        var items := splitsField.items;
        var w := SplitsWritten(items);
        && r == (if w == |items| then Response(201, ExpenseRow(e)) else Response(500, Message(InternalError)))
        && expenses == old(expenses) + [e]
        && splits == old(splits) + SplitRows(old(nextSplitId), e.id, items[..w])
        && nextExpenseId == old(nextExpenseId) + 1 && nextSplitId == old(nextSplitId) + w
        && nextGroupId == old(nextGroupId)
      ensures r.status == 201 <==>
        ExpenseFieldsPresent(groupId, description, amount, paidBy, category, splitsField) &&
        SplitsNonEmpty(splitsField) && FitsInteger(groupId.value) &&
        PayerIsMember(old(members), groupId.value, paidBy.value) &&
        ExpenseRowFits(description.value, amount.value, paidBy.value, category.value) &&
        SplitsWritten(splitsField.items) == |splitsField.items|
    {
      if !ExpenseFieldsPresent(groupId, description, amount, paidBy, category, splitsField) {
        return Response(400, Message(AllFieldsRequired));
      }
      if !SplitsNonEmpty(splitsField) {
        return Response(400, Message(SplitsNotArray));
      }
      if !FitsInteger(groupId.value) {
        // the membership SELECT cannot cast the id to INTEGER
        return Response(500, Message(InternalError));
      }
      if !PayerIsMember(members, groupId.value, paidBy.value) {
        return Response(403, Message(PayerNotMember));
      }
      if !ExpenseRowFits(description.value, amount.value, paidBy.value, category.value) {
        return Response(500, Message(InternalError));
      }
      var items := splitsField.items;
      assert groupId.value in IdsOf(groups) by {
        assert Member(groupId.value, paidBy.value) in members;
      }
      var e := InsertExpense(groupId.value, Stored(description.value, TextWidth), amount.value,
                             Stored(paidBy.value, TextWidth), Stored(category.value, TextWidth));
      assert e.id in ExpenseIdsOf(expenses) by {
        assert expenses[|expenses| - 1] == e;
      }
      var written := InsertSplits(e.id, items);
      if written == |items| {
        r := Response(201, ExpenseRow(e));
      } else {
        // the failing INSERT throws; the expense and the splits before it stay stored
        r := Response(500, Message(InternalError));
      }
    }

    // -------------------------------------------------------------------
    // getGroupBalance

    method GetGroupBalance(groupId: nat, userId: UserId) returns (r: Response)
      ensures r.status == 200 && r.body.Report?
      ensures var b := r.body.balance; var rows := Join(splits, expenses);
        && b.totalPaid == TotalPaid(expenses, groupId, userId)
        && b.totalOwed == TotalOwed(rows, groupId, userId)
        && b.netBalance == b.totalPaid - b.totalOwed
        && b.owesMe == OwesMe(rows, groupId, userId)
        && b.iOwe == IOwe(rows, groupId, userId)
    {
      var paidExpenses := PaidExpenses(expenses, groupId, userId);
      var rows := Join(splits, expenses);
      var owedSplits := OwedSplits(rows, groupId, userId);

      var totalPaid := 0;
      var totalOwed := 0;
      for i := 0 to |paidExpenses|
        invariant totalPaid == SumAmounts(paidExpenses[..i])
      {
        assert paidExpenses[..i + 1][..i] == paidExpenses[..i];
        totalPaid := totalPaid + paidExpenses[i].amount;
      }
      assert paidExpenses[..|paidExpenses|] == paidExpenses;
      for i := 0 to |owedSplits|
        invariant totalOwed == SumUnsettled(owedSplits[..i])
      {
        assert owedSplits[..i + 1][..i] == owedSplits[..i];
        if !owedSplits[i].settled {
          totalOwed := totalOwed + owedSplits[i].owed;
        }
      }
      assert owedSplits[..|owedSplits|] == owedSplits;

      var owesMe := OwesMe(rows, groupId, userId);
      var iOwe := IOwe(rows, groupId, userId);
      r := Response(200, Report(BalanceReport(totalPaid, totalOwed, totalPaid - totalOwed, owesMe, iOwe)));
    }
  }
}
