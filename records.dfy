/**
 * Row shapes of the group ledger's tables (groups, group_members,
 * group_expenses, expense_splits) and the column limits that the database
 * enforces on them.
 */
module Records {
  import opened Wrappers

  type UserId = string

  /** A DECIMAL(10,2) column value, in hundredths (cents). */
  type Cents = int

  /** DECIMAL(10,2) keeps 10 significant digits, 2 after the point: |x| < 10^8 units. */
  const DecimalBound: int := 10_000_000_000

  predicate FitsDecimal(c: Cents) {
    -DecimalBound < c < DecimalBound
  }

  /**
   * Whether a VARCHAR(n) column accepts `s`: PostgreSQL refuses a longer
   * value unless every character past the n-th is a blank.
   */
  predicate FitsVarchar(s: string, n: nat) {
    forall i :: n <= i < |s| ==> s[i] == ' '
  }

  /** The value a VARCHAR(n) column keeps: an accepted longer value is cut to n characters. */
  function Stored(s: string, n: nat): (r: string)
    ensures |r| <= n && r <= s
    ensures |s| <= n ==> r == s
    ensures n < |s| ==> |r| == n
  {
    if |s| <= n then s else s[..n]
  }

  /** A run of k blanks; the ensures only unfold the comprehension for the solver. */
  function Blanks(k: nat): (r: string)
    ensures |r| == k && forall i :: 0 <= i < k ==> r[i] == ' '
  {
    seq(k, i => ' ')
  }

  /** An accepted value loses only blanks: it is what the column keeps, followed by blanks. */
  lemma StoredDropsBlanks(s: string, n: nat)
    requires FitsVarchar(s, n)
    ensures s == Stored(s, n) + Blanks(|s| - |Stored(s, n)|)
  {
    var r := Stored(s, n);
    var b := Blanks(|s| - |r|);
    forall i | 0 <= i < |s| ensures s[i] == (r + b)[i] {
      if i >= |r| {
        assert n <= i;
      }
    }
  }

  const TextWidth: nat := 255

  /** Whether a PostgreSQL INTEGER column, or a parameter cast to INTEGER, accepts `n`. */
  predicate FitsInteger(n: int) {
    -0x8000_0000 <= n < 0x8000_0000
  }
  const CurrencyWidth: nat := 10

  datatype Group = Group(id: nat, name: string, code: string, createdBy: UserId, currency: string)

  /** A row of group_members; its own serial id and joined_at are never read by the handlers. */
  datatype Member = Member(groupId: nat, userId: UserId)

  datatype Expense = Expense(id: nat, groupId: nat, description: string, amount: Cents,
                             paidBy: UserId, category: string)

  datatype Split = Split(id: nat, expenseId: nat, userId: UserId, amountOwed: Cents, isSettled: bool)

  /** JavaScript truthiness of a string field of a request body. */
  predicate Present(s: Option<string>) {
    s.Some? && s.value != ""
  }

  /** JavaScript truthiness of a numeric field of a request body (0 is falsy): ids and amounts alike. */
  predicate PresentNumber(n: Option<int>) {
    n.Some? && n.value != 0
  }
}
