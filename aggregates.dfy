/**
 * The arithmetic of the balance query (getGroupBalance): which expenses and
 * splits it reads, how it totals them, and the per-counterparty GROUP BY
 * breakdowns `owesMe` and `iOwe`.
 */
module Aggregates {
  import opened Wrappers
  import opened Records

  /** A split joined with its expense: the columns the balance queries read. */
  datatype Row = Row(groupId: nat, payer: UserId, debtor: UserId, owed: Cents, settled: bool)

  /** One line of a GROUP BY result, {userId, amount}. */
  datatype Owing = Owing(userId: UserId, amount: Cents)

  /** The response payload of getGroupBalance. */
  datatype BalanceReport = BalanceReport(totalPaid: Cents, totalOwed: Cents, netBalance: Cents,
                                         owesMe: seq<Owing>, iOwe: seq<Owing>)

  function RowOf(s: Split, e: Expense): Row {
    Row(e.groupId, e.paidBy, s.userId, s.amountOwed, s.isSettled)
  }

  // ---------------------------------------------------------------------
  // expense_splits INNER JOIN group_expenses ON es.expense_id = ge.id

  /** The joined rows of one split: one per expense carrying its expense_id. */
  function MatchRows(s: Split, expenses: seq<Expense>): seq<Row> {
    if expenses == [] then []
    else
      var e := expenses[|expenses| - 1];
      MatchRows(s, expenses[..|expenses| - 1]) + (if e.id == s.expenseId then [RowOf(s, e)] else [])
  }

  function Join(splits: seq<Split>, expenses: seq<Expense>): seq<Row> {
    if splits == [] then []
    else Join(splits[..|splits| - 1], expenses) + MatchRows(splits[|splits| - 1], expenses)
  }

  lemma {:induction false} MatchRowsOrigin(s: Split, expenses: seq<Expense>, r: Row)
    requires r in MatchRows(s, expenses)
    ensures exists e :: e in expenses && e.id == s.expenseId && r == RowOf(s, e)
  {
    var n := |expenses| - 1;
    if r in MatchRows(s, expenses[..n]) {
      MatchRowsOrigin(s, expenses[..n], r);
      var e :| e in expenses[..n] && e.id == s.expenseId && r == RowOf(s, e);
      assert e in expenses;
    } else {
      assert r == RowOf(s, expenses[n]) && expenses[n] in expenses;
    }
  }

  /** Every joined row comes from a split and the expense it references. */
  lemma {:induction false} JoinOrigin(splits: seq<Split>, expenses: seq<Expense>, r: Row)
    requires r in Join(splits, expenses)
    ensures exists s, e :: s in splits && e in expenses && s.expenseId == e.id && r == RowOf(s, e)
  {
    var n := |splits| - 1;
    if r in Join(splits[..n], expenses) {
      JoinOrigin(splits[..n], expenses, r);
      var s, e :| s in splits[..n] && e in expenses && s.expenseId == e.id && r == RowOf(s, e);
      assert s in splits;
    } else {
      MatchRowsOrigin(splits[n], expenses, r);
      assert splits[n] in splits;
    }
  }

  // ---------------------------------------------------------------------
  // totalPaid: the amounts of the expenses the user paid in the group

  /** SELECT ... FROM group_expenses WHERE group_id = g AND paid_by_user_id = u */
  function PaidExpenses(expenses: seq<Expense>, g: nat, u: UserId): (r: seq<Expense>)
    ensures forall e :: e in r <==> e in expenses && e.groupId == g && e.paidBy == u
  {
    if expenses == [] then []
    else
      var e := expenses[|expenses| - 1];
      assert expenses == expenses[..|expenses| - 1] + [e];
      PaidExpenses(expenses[..|expenses| - 1], g, u) + (if e.groupId == g && e.paidBy == u then [e] else [])
  }

  function SumAmounts(es: seq<Expense>): Cents {
    if es == [] then 0 else SumAmounts(es[..|es| - 1]) + es[|es| - 1].amount
  }

  function TotalPaid(expenses: seq<Expense>, g: nat, u: UserId): Cents {
    SumAmounts(PaidExpenses(expenses, g, u))
  }

  // ---------------------------------------------------------------------
  // totalOwed: the user's unsettled splits on the group's expenses

  /** SELECT es.amount_owed, es.is_settled ... WHERE ge.group_id = g AND es.user_id = u */
  function OwedSplits(rows: seq<Row>, g: nat, u: UserId): (r: seq<Row>)
    ensures forall x :: x in r <==> x in rows && x.groupId == g && x.debtor == u
  {
    if rows == [] then []
    else
      var x := rows[|rows| - 1];
      assert rows == rows[..|rows| - 1] + [x];
      OwedSplits(rows[..|rows| - 1], g, u) + (if x.groupId == g && x.debtor == u then [x] else [])
  }

  /** The loop over owedSplits: only unsettled splits are added. */
  function SumUnsettled(rows: seq<Row>): Cents {
    if rows == [] then 0
    else SumUnsettled(rows[..|rows| - 1]) + (if rows[|rows| - 1].settled then 0 else rows[|rows| - 1].owed)
  }

  function TotalOwed(rows: seq<Row>, g: nat, u: UserId): Cents {
    SumUnsettled(OwedSplits(rows, g, u))
  }

  // ---------------------------------------------------------------------
  // Per-pair reference definitions

  /** An unsettled split in group g owed by `debtor` on an expense paid by `payer`. */
  predicate Open(x: Row, g: nat, payer: UserId, debtor: UserId) {
    x.groupId == g && x.payer == payer && x.debtor == debtor && !x.settled
  }

  /** Whether some unsettled split in g has `debtor` owing `payer`. */
  predicate HasDebt(rows: seq<Row>, g: nat, payer: UserId, debtor: UserId) {
    exists i :: 0 <= i < |rows| && Open(rows[i], g, payer, debtor)
  }

  /** The sum of all unsettled splits in g owed by `debtor` to `payer`. */
  function PairSum(rows: seq<Row>, g: nat, payer: UserId, debtor: UserId): Cents {
    if rows == [] then 0
    else
      var x := rows[|rows| - 1];
      PairSum(rows[..|rows| - 1], g, payer, debtor) + (if Open(x, g, payer, debtor) then x.owed else 0)
  }

  // ---------------------------------------------------------------------
  // GROUP BY user, SUM(amount)

  /** Add `amt` to `who`'s line, or open a new line for `who` at the end. */
  function AddTo(lines: seq<Owing>, who: UserId, amt: Cents): seq<Owing> {
    if lines == [] then [Owing(who, amt)]
    else if lines[0].userId == who then [Owing(who, lines[0].amount + amt)] + lines[1..]
    else [lines[0]] + AddTo(lines[1..], who, amt)
  }

  /** The aggregate of `pairs`, lines in order of first appearance. */
  function GroupBy(pairs: seq<Owing>): seq<Owing> {
    if pairs == [] then []
    else AddTo(GroupBy(pairs[..|pairs| - 1]), pairs[|pairs| - 1].userId, pairs[|pairs| - 1].amount)
  }

  /** The amount on `u`'s line, if the list has one. */
  function AmountOf(lines: seq<Owing>, u: UserId): Option<Cents> {
    if lines == [] then None
    else if lines[0].userId == u then Some(lines[0].amount)
    else AmountOf(lines[1..], u)
  }

  function SumOwing(lines: seq<Owing>): Cents {
    if lines == [] then 0 else lines[0].amount + SumOwing(lines[1..])
  }

  predicate DistinctUsers(lines: seq<Owing>) {
    forall i, j :: 0 <= i < j < |lines| ==> lines[i].userId != lines[j].userId
  }

  /** Whether `u` occurs in `pairs`. */
  predicate Mentions(pairs: seq<Owing>, u: UserId) {
    exists i :: 0 <= i < |pairs| && pairs[i].userId == u
  }

  /** The sum of the amounts of `u`'s pairs. */
  function UserTotal(pairs: seq<Owing>, u: UserId): Cents {
    if pairs == [] then 0
    else UserTotal(pairs[..|pairs| - 1], u) + (if pairs[|pairs| - 1].userId == u then pairs[|pairs| - 1].amount else 0)
  }

  /** owesMe: for each other user, the unsettled splits they owe on expenses `u` paid in g. */
  function CreditPairs(rows: seq<Row>, g: nat, u: UserId): seq<Owing> {
    if rows == [] then []
    else
      var x := rows[|rows| - 1];
      CreditPairs(rows[..|rows| - 1], g, u) +
        (if x.groupId == g && x.payer == u && x.debtor != u && !x.settled then [Owing(x.debtor, x.owed)] else [])
  }

  /** iOwe: for each other payer, the unsettled splits `u` owes on expenses they paid in g. */
  function DebitPairs(rows: seq<Row>, g: nat, u: UserId): seq<Owing> {
    if rows == [] then []
    else
      var x := rows[|rows| - 1];
      DebitPairs(rows[..|rows| - 1], g, u) +
        (if x.groupId == g && x.debtor == u && x.payer != u && !x.settled then [Owing(x.payer, x.owed)] else [])
  }

  function OwesMe(rows: seq<Row>, g: nat, u: UserId): seq<Owing> {
    GroupBy(CreditPairs(rows, g, u))
  }

  function IOwe(rows: seq<Row>, g: nat, u: UserId): seq<Owing> {
    GroupBy(DebitPairs(rows, g, u))
  }

  // ---------------------------------------------------------------------
  // Properties of GROUP BY

  lemma {:induction false} AddToAmount(lines: seq<Owing>, who: UserId, amt: Cents, u: UserId)
    ensures AmountOf(AddTo(lines, who, amt), u) ==
      if u == who then Some(AmountOf(lines, u).GetOr(0) + amt) else AmountOf(lines, u)
  {
    if lines == [] {
    } else if lines[0].userId == who {
      var r := AddTo(lines, who, amt);
      assert r[0] == Owing(who, lines[0].amount + amt) && r[1..] == lines[1..];
    } else {
      var r := AddTo(lines, who, amt);
      assert r[0] == lines[0] && r[1..] == AddTo(lines[1..], who, amt);
      AddToAmount(lines[1..], who, amt, u);
    }
  }

  lemma {:induction false} AddToSum(lines: seq<Owing>, who: UserId, amt: Cents)
    ensures SumOwing(AddTo(lines, who, amt)) == SumOwing(lines) + amt
  {
    if lines != [] && lines[0].userId != who {
      AddToSum(lines[1..], who, amt);
    }
  }

  lemma {:induction false} AddToUsers(lines: seq<Owing>, who: UserId, amt: Cents)
    ensures forall i :: 0 <= i < |AddTo(lines, who, amt)| ==>
      AddTo(lines, who, amt)[i].userId == who || exists j :: 0 <= j < |lines| && lines[j].userId == AddTo(lines, who, amt)[i].userId
  {
    if lines != [] && lines[0].userId != who {
      AddToUsers(lines[1..], who, amt);
      var r := AddTo(lines, who, amt);
      forall i | 0 <= i < |r| && r[i].userId != who
        ensures exists j :: 0 <= j < |lines| && lines[j].userId == r[i].userId
      {
        if i == 0 {
          assert lines[0].userId == r[i].userId;
        } else {
          assert r[i] == AddTo(lines[1..], who, amt)[i - 1];
          var j :| 0 <= j < |lines[1..]| && lines[1..][j].userId == r[i].userId;
          assert lines[j + 1].userId == r[i].userId;
        }
      }
    } else if lines != [] {
      var r := AddTo(lines, who, amt);
      forall i | 0 <= i < |r| && r[i].userId != who
        ensures exists j :: 0 <= j < |lines| && lines[j].userId == r[i].userId
      {
        assert r[i] == lines[i];
      }
    }
  }

  lemma {:induction false} AddToDistinct(lines: seq<Owing>, who: UserId, amt: Cents)
    requires DistinctUsers(lines)
    ensures DistinctUsers(AddTo(lines, who, amt))
  {
    if lines != [] && lines[0].userId != who {
      AddToDistinct(lines[1..], who, amt);
      AddToUsers(lines[1..], who, amt);
      var r := AddTo(lines, who, amt);
      forall i, j | 0 <= i < j < |r| ensures r[i].userId != r[j].userId {
        if i == 0 {
          var t := AddTo(lines[1..], who, amt);
          assert r[j] == t[j - 1];
          if t[j - 1].userId != who {
            var k :| 0 <= k < |lines[1..]| && lines[1..][k].userId == t[j - 1].userId;
            assert lines[k + 1].userId == r[j].userId;
          }
        }
      }
    }
  }

  lemma {:induction false} MentionsStep(pairs: seq<Owing>, u: UserId)
    requires pairs != []
    ensures Mentions(pairs, u) <==> Mentions(pairs[..|pairs| - 1], u) || pairs[|pairs| - 1].userId == u
  {
    var n := |pairs| - 1;
    if Mentions(pairs, u) && pairs[n].userId != u {
      var i :| 0 <= i < |pairs| && pairs[i].userId == u;
      assert pairs[..n][i].userId == u;
    }
    if Mentions(pairs[..n], u) {
      var i :| 0 <= i < n && pairs[..n][i].userId == u;
      assert pairs[i].userId == u;
    }
  }

  lemma {:induction false} UserTotalAbsent(pairs: seq<Owing>, u: UserId)
    requires !Mentions(pairs, u)
    ensures UserTotal(pairs, u) == 0
  {
    if pairs != [] {
      MentionsStep(pairs, u);
      UserTotalAbsent(pairs[..|pairs| - 1], u);
    }
  }

  /**
   * A GROUP BY line exists exactly for the users that occur, and carries
   * the sum of that user's amounts.
   */
  lemma {:induction false} GroupByAmount(pairs: seq<Owing>, u: UserId)
    ensures AmountOf(GroupBy(pairs), u) == if Mentions(pairs, u) then Some(UserTotal(pairs, u)) else None
  {
    if pairs != [] {
      var n := |pairs| - 1;
      GroupByAmount(pairs[..n], u);
      AddToAmount(GroupBy(pairs[..n]), pairs[n].userId, pairs[n].amount, u);
      MentionsStep(pairs, u);
      if !Mentions(pairs[..n], u) {
        UserTotalAbsent(pairs[..n], u);
      }
    }
  }

  /** A GROUP BY result names no user twice. */
  lemma {:induction false} GroupByDistinct(pairs: seq<Owing>)
    ensures DistinctUsers(GroupBy(pairs))
  {
    if pairs != [] {
      var n := |pairs| - 1;
      GroupByDistinct(pairs[..n]);
      AddToDistinct(GroupBy(pairs[..n]), pairs[n].userId, pairs[n].amount);
    }
  }

  lemma {:induction false} SumOwingSnoc(lines: seq<Owing>, x: Owing)
    ensures SumOwing(lines + [x]) == SumOwing(lines) + x.amount
  {
    if lines != [] {
      assert (lines + [x])[1..] == lines[1..] + [x];
      SumOwingSnoc(lines[1..], x);
    }
  }

  /** Grouping keeps the grand total. */
  lemma {:induction false} GroupBySum(pairs: seq<Owing>)
    ensures SumOwing(GroupBy(pairs)) == SumOwing(pairs)
  {
    if pairs != [] {
      var n := |pairs| - 1;
      GroupBySum(pairs[..n]);
      AddToSum(GroupBy(pairs[..n]), pairs[n].userId, pairs[n].amount);
      assert pairs == pairs[..n] + [pairs[n]];
      SumOwingSnoc(pairs[..n], pairs[n]);
    }
  }

  lemma {:induction false} AmountOfAbsent(lines: seq<Owing>, u: UserId)
    ensures AmountOf(lines, u).None? <==> forall i :: 0 <= i < |lines| ==> lines[i].userId != u
  {
    if lines != [] {
      AmountOfAbsent(lines[1..], u);
      assert forall i :: 1 <= i < |lines| ==> lines[i] == lines[1..][i - 1];
    }
  }

  lemma {:induction false} AmountOfLine(lines: seq<Owing>, i: nat)
    requires DistinctUsers(lines) && i < |lines|
    ensures AmountOf(lines, lines[i].userId) == Some(lines[i].amount)
  {
    if i > 0 {
      assert DistinctUsers(lines[1..]) by {
        assert forall a, b :: 0 <= a < b < |lines| - 1 ==> lines[1..][a] == lines[a + 1] && lines[1..][b] == lines[b + 1];
      }
      AmountOfLine(lines[1..], i - 1);
    }
  }

  // ---------------------------------------------------------------------
  // What owesMe and iOwe contain

  lemma {:induction false} HasDebtStep(rows: seq<Row>, g: nat, payer: UserId, debtor: UserId)
    requires rows != []
    ensures HasDebt(rows, g, payer, debtor) <==>
      HasDebt(rows[..|rows| - 1], g, payer, debtor) || Open(rows[|rows| - 1], g, payer, debtor)
  {
    var n := |rows| - 1;
    if HasDebt(rows, g, payer, debtor) && !Open(rows[n], g, payer, debtor) {
      var i :| 0 <= i < |rows| && Open(rows[i], g, payer, debtor);
      assert Open(rows[..n][i], g, payer, debtor);
    }
    if HasDebt(rows[..n], g, payer, debtor) {
      var i :| 0 <= i < n && Open(rows[..n][i], g, payer, debtor);
      assert Open(rows[i], g, payer, debtor);
    }
  }

  /**
   * The pairs behind owesMe: `v` occurs exactly when v is another user with
   * an unsettled split on an expense `u` paid in g, and v's pairs add up to
   * those splits.
   */
  lemma {:induction false} CreditPairsAt(rows: seq<Row>, g: nat, u: UserId, v: UserId)
    ensures Mentions(CreditPairs(rows, g, u), v) <==> v != u && HasDebt(rows, g, u, v)
    ensures UserTotal(CreditPairs(rows, g, u), v) == if v != u then PairSum(rows, g, u, v) else 0
  {
    if rows != [] {
      var n := |rows| - 1;
      var x := rows[n];
      var prev := CreditPairs(rows[..n], g, u);
      CreditPairsAt(rows[..n], g, u, v);
      HasDebtStep(rows, g, u, v);
      if x.groupId == g && x.payer == u && x.debtor != u && !x.settled {
        var p := Owing(x.debtor, x.owed);
        assert CreditPairs(rows, g, u) == prev + [p];
        assert (prev + [p])[..|prev|] == prev;
        MentionsStep(prev + [p], v);
        assert Open(x, g, u, v) <==> p.userId == v;
      } else {
        assert CreditPairs(rows, g, u) == prev;
        assert v != u ==> !Open(x, g, u, v);
      }
    }
  }

  /** The pairs behind iOwe, the mirror image of CreditPairsAt. */
  lemma {:induction false} DebitPairsAt(rows: seq<Row>, g: nat, u: UserId, p: UserId)
    ensures Mentions(DebitPairs(rows, g, u), p) <==> p != u && HasDebt(rows, g, p, u)
    ensures UserTotal(DebitPairs(rows, g, u), p) == if p != u then PairSum(rows, g, p, u) else 0
  {
    if rows != [] {
      var n := |rows| - 1;
      var x := rows[n];
      var prev := DebitPairs(rows[..n], g, u);
      DebitPairsAt(rows[..n], g, u, p);
      HasDebtStep(rows, g, p, u);
      if x.groupId == g && x.debtor == u && x.payer != u && !x.settled {
        var q := Owing(x.payer, x.owed);
        assert DebitPairs(rows, g, u) == prev + [q];
        assert (prev + [q])[..|prev|] == prev;
        MentionsStep(prev + [q], p);
        assert Open(x, g, p, u) <==> q.userId == p;
      } else {
        assert DebitPairs(rows, g, u) == prev;
        assert p != u ==> !Open(x, g, p, u);
      }
    }
  }

  /** owesMe has a line for `v` exactly when v is another user with open debt to `u`, carrying that debt's sum. */
  lemma OwesMeAt(rows: seq<Row>, g: nat, u: UserId, v: UserId)
    ensures AmountOf(OwesMe(rows, g, u), v) ==
      if v != u && HasDebt(rows, g, u, v) then Some(PairSum(rows, g, u, v)) else None
  {
    GroupByAmount(CreditPairs(rows, g, u), v);
    CreditPairsAt(rows, g, u, v);
  }

  /** iOwe has a line for `p` exactly when p is another payer `u` has open debt to, carrying that debt's sum. */
  lemma IOweAt(rows: seq<Row>, g: nat, u: UserId, p: UserId)
    ensures AmountOf(IOwe(rows, g, u), p) ==
      if p != u && HasDebt(rows, g, p, u) then Some(PairSum(rows, g, p, u)) else None
  {
    GroupByAmount(DebitPairs(rows, g, u), p);
    DebitPairsAt(rows, g, u, p);
  }

  /** What a reads in its owesMe for b is what b reads in its iOwe for a. */
  lemma OwesMeIOweDual(rows: seq<Row>, g: nat, a: UserId, b: UserId)
    ensures AmountOf(OwesMe(rows, g, a), b) == AmountOf(IOwe(rows, g, b), a)
  {
    OwesMeAt(rows, g, a, b);
    IOweAt(rows, g, b, a);
  }

  /**
   * The lines of owesMe, one per user, each for another user with open debt
   * to `u` and carrying its sum; and no such user is missing.
   */
  lemma OwesMeLines(rows: seq<Row>, g: nat, u: UserId)
    ensures DistinctUsers(OwesMe(rows, g, u))
    ensures forall i :: 0 <= i < |OwesMe(rows, g, u)| ==>
      var line := OwesMe(rows, g, u)[i];
      line.userId != u && HasDebt(rows, g, u, line.userId) && line.amount == PairSum(rows, g, u, line.userId)
    ensures forall v :: v != u && HasDebt(rows, g, u, v) ==>
      exists i :: 0 <= i < |OwesMe(rows, g, u)| && OwesMe(rows, g, u)[i].userId == v
  {
    var lines := OwesMe(rows, g, u);
    GroupByDistinct(CreditPairs(rows, g, u));
    forall i | 0 <= i < |lines|
      ensures lines[i].userId != u && HasDebt(rows, g, u, lines[i].userId) &&
        lines[i].amount == PairSum(rows, g, u, lines[i].userId)
    {
      AmountOfLine(lines, i);
      OwesMeAt(rows, g, u, lines[i].userId);
    }
    forall v | v != u && HasDebt(rows, g, u, v)
      ensures exists i :: 0 <= i < |lines| && lines[i].userId == v
    {
      OwesMeAt(rows, g, u, v);
      AmountOfAbsent(lines, v);
    }
  }

  /**
   * The lines of iOwe, one per payer, each for another user `u` has open
   * debt to and carrying its sum; and no such payer is missing.
   */
  lemma IOweLines(rows: seq<Row>, g: nat, u: UserId)
    ensures DistinctUsers(IOwe(rows, g, u))
    ensures forall i :: 0 <= i < |IOwe(rows, g, u)| ==>
      var line := IOwe(rows, g, u)[i];
      line.userId != u && HasDebt(rows, g, line.userId, u) && line.amount == PairSum(rows, g, line.userId, u)
    ensures forall p :: p != u && HasDebt(rows, g, p, u) ==>
      exists i :: 0 <= i < |IOwe(rows, g, u)| && IOwe(rows, g, u)[i].userId == p
  {
    var lines := IOwe(rows, g, u);
    GroupByDistinct(DebitPairs(rows, g, u));
    forall i | 0 <= i < |lines|
      ensures lines[i].userId != u && HasDebt(rows, g, lines[i].userId, u) &&
        lines[i].amount == PairSum(rows, g, lines[i].userId, u)
    {
      AmountOfLine(lines, i);
      IOweAt(rows, g, u, lines[i].userId);
    }
    forall p | p != u && HasDebt(rows, g, p, u)
      ensures exists i :: 0 <= i < |lines| && lines[i].userId == p
    {
      IOweAt(rows, g, u, p);
      AmountOfAbsent(lines, p);
    }
  }

  // ---------------------------------------------------------------------
  // How the totals relate to the breakdown

  lemma {:induction false} SumUnsettledSnoc(rows: seq<Row>, x: Row)
    ensures SumUnsettled(rows + [x]) == SumUnsettled(rows) + (if x.settled then 0 else x.owed)
  {
    assert (rows + [x])[..|rows|] == rows;
  }

  lemma {:induction false} TotalOwedByPayer(rows: seq<Row>, g: nat, u: UserId)
    ensures TotalOwed(rows, g, u) == PairSum(rows, g, u, u) + SumOwing(DebitPairs(rows, g, u))
  {
    if rows != [] {
      var n := |rows| - 1;
      var x := rows[n];
      TotalOwedByPayer(rows[..n], g, u);
      if x.groupId == g && x.debtor == u {
        SumUnsettledSnoc(OwedSplits(rows[..n], g, u), x);
      } else {
        assert OwedSplits(rows, g, u) == OwedSplits(rows[..n], g, u);
      }
      if x.groupId == g && x.debtor == u && x.payer != u && !x.settled {
        SumOwingSnoc(DebitPairs(rows[..n], g, u), Owing(x.payer, x.owed));
      } else {
        assert DebitPairs(rows, g, u) == DebitPairs(rows[..n], g, u);
      }
    }
  }

  /**
   * totalOwed is the user's own unsettled share on expenses they paid plus
   * the sum of their iOwe lines.
   */
  lemma TotalOwedItemised(rows: seq<Row>, g: nat, u: UserId)
    ensures TotalOwed(rows, g, u) == PairSum(rows, g, u, u) + SumOwing(IOwe(rows, g, u))
  {
    TotalOwedByPayer(rows, g, u);
    GroupBySum(DebitPairs(rows, g, u));
  }

  /**
   * A user with no expense paid and no split in group g gets zero totals
   * and empty breakdowns, whether or not the group exists.
   */
  lemma ZeroBalance(expenses: seq<Expense>, splits: seq<Split>, g: nat, u: UserId)
    requires forall e :: e in expenses && e.groupId == g ==> e.paidBy != u
    requires forall s, e :: s in splits && e in expenses && s.expenseId == e.id && e.groupId == g ==> s.userId != u
    ensures TotalPaid(expenses, g, u) == 0
    ensures TotalOwed(Join(splits, expenses), g, u) == 0
    ensures OwesMe(Join(splits, expenses), g, u) == []
    ensures IOwe(Join(splits, expenses), g, u) == []
  {
    var rows := Join(splits, expenses);
    var owed := OwedSplits(rows, g, u);
    if owed != [] {
      assert owed[0] in owed;
      JoinOrigin(splits, expenses, owed[0]);
    }
    var credits := CreditPairs(rows, g, u);
    if credits != [] {
      var v := credits[0].userId;
      assert Mentions(credits, v);
      CreditPairsAt(rows, g, u, v);
      var i :| 0 <= i < |rows| && Open(rows[i], g, u, v);
      JoinOrigin(splits, expenses, rows[i]);
    }
    var debits := DebitPairs(rows, g, u);
    if debits != [] {
      var p := debits[0].userId;
      assert Mentions(debits, p);
      DebitPairsAt(rows, g, u, p);
      var i :| 0 <= i < |rows| && Open(rows[i], g, p, u);
      JoinOrigin(splits, expenses, rows[i]);
    }
  }

  // ---------------------------------------------------------------------
  // How recording an expense changes the balance

  /** The joined rows of splits that all belong to expense e. */
  function ChargeRows(ss: seq<Split>, e: Expense): (r: seq<Row>)
    ensures |r| == |ss|
    ensures forall k :: 0 <= k < |ss| ==> r[k] == RowOf(ss[k], e)
  {
    if ss == [] then [] else ChargeRows(ss[..|ss| - 1], e) + [RowOf(ss[|ss| - 1], e)]
  }

  /** Appending the payer's new expense adds its amount to their totalPaid, and nobody else's changes. */
  lemma {:induction false} TotalPaidAfterExpense(expenses: seq<Expense>, e: Expense, g: nat, u: UserId)
    ensures TotalPaid(expenses + [e], g, u) ==
            TotalPaid(expenses, g, u) + (if e.groupId == g && e.paidBy == u then e.amount else 0)
  {
    assert (expenses + [e])[..|expenses|] == expenses;
    var before := PaidExpenses(expenses, g, u);
    if e.groupId == g && e.paidBy == u {
      assert PaidExpenses(expenses + [e], g, u) == before + [e];
      assert (before + [e])[..|before|] == before;
    } else {
      assert PaidExpenses(expenses + [e], g, u) == before;
    }
  }

  lemma {:induction false} MatchRowsNone(s: Split, expenses: seq<Expense>)
    requires forall x :: x in expenses ==> x.id != s.expenseId
    ensures MatchRows(s, expenses) == []
  {
    if expenses != [] {
      var n := |expenses| - 1;
      assert forall x :: x in expenses[..n] ==> x in expenses;
      MatchRowsNone(s, expenses[..n]);
      assert expenses[n] in expenses;
    }
  }

  /** Splits of older expenses join exactly as before once a new expense is appended. */
  lemma {:induction false} JoinSkip(splits: seq<Split>, expenses: seq<Expense>, e: Expense)
    requires forall t :: t in splits ==> t.expenseId != e.id
    ensures Join(splits, expenses + [e]) == Join(splits, expenses)
  {
    if splits != [] {
      var n := |splits| - 1;
      assert forall t :: t in splits[..n] ==> t in splits;
      JoinSkip(splits[..n], expenses, e);
      assert splits[n] in splits;
      assert (expenses + [e])[..|expenses|] == expenses;
    }
  }

  /** Splits of a new expense e, whose id no older expense carries, join with e alone. */
  lemma {:induction false} JoinNewSplits(ss: seq<Split>, expenses: seq<Expense>, e: Expense)
    requires forall x :: x in expenses ==> x.id != e.id
    requires forall k :: 0 <= k < |ss| ==> ss[k].expenseId == e.id
    ensures Join(ss, expenses + [e]) == ChargeRows(ss, e)
  {
    if ss != [] {
      var n := |ss| - 1;
      var ees := expenses + [e];
      var front := ss[..n];
      assert forall k :: 0 <= k < |front| ==> front[k].expenseId == e.id by {
        forall k | 0 <= k < |front| ensures front[k].expenseId == e.id { assert front[k] == ss[k]; }
      }
      JoinNewSplits(front, expenses, e);
      assert ees[..|expenses|] == expenses;
      MatchRowsNone(ss[n], expenses);
      assert MatchRows(ss[n], ees) == [RowOf(ss[n], e)];
      assert Join(ss, ees) == Join(front, ees) + MatchRows(ss[n], ees);
      assert ChargeRows(ss, e) == ChargeRows(front, e) + [RowOf(ss[n], e)];
    }
  }

  lemma {:induction false} JoinAppend(a: seq<Split>, b: seq<Split>, expenses: seq<Expense>)
    ensures Join(a + b, expenses) == Join(a, expenses) + Join(b, expenses)
  {
    if b != [] {
      var n := |b| - 1;
      JoinAppend(a, b[..n], expenses);
      assert (a + b)[..|a| + n] == a + b[..n];
    } else {
      assert a + b == a;
    }
  }

  /**
   * The joined rows after an expense e and its splits ss are recorded: the
   * old rows, unchanged, followed by one row per new split.
   */
  lemma JoinAfterExpense(splits: seq<Split>, expenses: seq<Expense>, e: Expense, ss: seq<Split>)
    requires forall x :: x in expenses ==> x.id != e.id
    requires forall t :: t in splits ==> t.expenseId != e.id
    requires forall k :: 0 <= k < |ss| ==> ss[k].expenseId == e.id
    ensures Join(splits + ss, expenses + [e]) == Join(splits, expenses) + ChargeRows(ss, e)
  {
    JoinAppend(splits, ss, expenses + [e]);
    JoinSkip(splits, expenses, e);
    JoinNewSplits(ss, expenses, e);
  }

  /** The last joined row adds its unsettled amount when it is the user's split in group g. */
  lemma {:induction false} TotalOwedLast(rows: seq<Row>, g: nat, u: UserId)
    requires rows != []
    ensures var x := rows[|rows| - 1];
      TotalOwed(rows, g, u) ==
      TotalOwed(rows[..|rows| - 1], g, u) + (if x.groupId == g && x.debtor == u && !x.settled then x.owed else 0)
  {
    var n := |rows| - 1;
    var x := rows[n];
    if x.groupId == g && x.debtor == u {
      SumUnsettledSnoc(OwedSplits(rows[..n], g, u), x);
    } else {
      assert OwedSplits(rows, g, u) == OwedSplits(rows[..n], g, u);
    }
  }

  /** totalOwed over appended rows is the sum over each part. */
  lemma {:induction false} TotalOwedAppend(a: seq<Row>, b: seq<Row>, g: nat, u: UserId)
    ensures TotalOwed(a + b, g, u) == TotalOwed(a, g, u) + TotalOwed(b, g, u)
  {
    if b == [] {
      assert a + b == a;
    } else {
      var n := |b| - 1;
      var ab := a + b;
      var c := a + b[..n];
      assert ab[..|ab| - 1] == c;
      assert ab[|ab| - 1] == b[n];
      TotalOwedAppend(a, b[..n], g, u);
      TotalOwedLast(ab, g, u);
      TotalOwedLast(b, g, u);
    }
  }

  /**
   * Fresh, unsettled splits with distinct users charge each user exactly the
   * amount of their own split on an expense of group g, and nothing otherwise.
   */
  lemma {:induction false} ChargeOwed(ss: seq<Split>, e: Expense, g: nat, u: UserId)
    requires forall k :: 0 <= k < |ss| ==> !ss[k].isSettled
    requires forall i, j :: 0 <= i < j < |ss| ==> ss[i].userId != ss[j].userId
    ensures e.groupId == g ==>
      forall k :: 0 <= k < |ss| && ss[k].userId == u ==> TotalOwed(ChargeRows(ss, e), g, u) == ss[k].amountOwed
    ensures (e.groupId != g || forall k :: 0 <= k < |ss| ==> ss[k].userId != u) ==>
      TotalOwed(ChargeRows(ss, e), g, u) == 0
  {
    if ss != [] {
      var n := |ss| - 1;
      var pre := ChargeRows(ss[..n], e);
      var x := RowOf(ss[n], e);
      var front := ss[..n];
      assert forall k :: 0 <= k < |front| ==> front[k] == ss[k];
      ChargeOwed(front, e, g, u);
      assert ChargeRows(ss, e) == pre + [x];
      assert ChargeRows(ss, e)[..n] == pre;
      if x.groupId == g && x.debtor == u {
        SumUnsettledSnoc(OwedSplits(pre, g, u), x);
        assert forall k :: 0 <= k < n ==> ss[..n][k].userId != u;
      } else {
        assert OwedSplits(ChargeRows(ss, e), g, u) == OwedSplits(pre, g, u);
      }
    }
  }

  /** totalOwed after the rows of fresh splits are appended to the joined rows. */
  lemma {:induction false} OwedAfterCharge(before: seq<Row>, ss: seq<Split>, e: Expense, g: nat, u: UserId)
    requires forall k :: 0 <= k < |ss| ==> !ss[k].isSettled
    requires forall i, j :: 0 <= i < j < |ss| ==> ss[i].userId != ss[j].userId
    ensures e.groupId == g ==>
      forall k :: 0 <= k < |ss| && ss[k].userId == u ==>
        TotalOwed(before + ChargeRows(ss, e), g, u) == TotalOwed(before, g, u) + ss[k].amountOwed
    ensures (e.groupId != g || forall k :: 0 <= k < |ss| ==> ss[k].userId != u) ==>
      TotalOwed(before + ChargeRows(ss, e), g, u) == TotalOwed(before, g, u)
  {
    TotalOwedAppend(before, ChargeRows(ss, e), g, u);
    ChargeOwed(ss, e, g, u);
  }
}
