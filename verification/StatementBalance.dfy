/** Statement balances: how a statement is written (src/recon/samples/entries.py) and how it is checked
    against its own opening and closing balance (src/recon/ingestion/balances.py). */
module StatementBalance {
  import opened Ledger
  import opened References
  import opened AmountText

  const SIGN: map<string, int> := map["C" := 1, "CRDT" := 1, "RD" := 1, "D" := -1, "DBIT" := -1, "RC" := -1]

  // ------------------------------------------------------------------- writing

  datatype Entry = Entry(amount: int, direction: Direction, reversal: bool)

  /** _signed: a credit adds, a debit subtracts, a reversal does the opposite. */
  function SignedAmount(e: Entry): int {
    var sign := if e.direction == CR then 1 else -1;
    if e.reversal then -sign * e.amount else sign * e.amount
  }

  function Net(entries: seq<Entry>): int {
    if entries == [] then 0 else Net(entries[..|entries| - 1]) + SignedAmount(entries[|entries| - 1])
  }

  /** The mark of an entry line. */
  function EntryMark(e: Entry): string {
    if e.reversal then (if e.direction == DR then "RD" else "RC") else (if e.direction == DR then "D" else "C")
  }

  function BalanceMark(minor: int): string {
    if minor < 0 then "D" else "C"
  }

  /** A balance as the header carries it. */
  datatype Balance = Balance(mark: string, currency: string, amount: Option<string>)

  /** An entry line as the parser hands it on. */
  datatype Row = Row(direction: string, currency: Option<string>, amount: Option<string>)

  datatype Statement = Statement(opening: Balance, closing: Balance, rows: seq<Row>)

  function EntryRow(e: Entry, separator: char): Row {
    Row(EntryMark(e), None, Some(DecimalText(e.amount, 2, separator)))
  }

  function WrittenBalance(minor: int, separator: char): Balance {
    Balance(BalanceMark(minor), "INR", Some(DecimalText(Size(minor), 2, separator)))
  }

  function EntryRows(entries: seq<Entry>, separator: char): (rows: seq<Row>)
    ensures |rows| == |entries|
  {
    seq(|entries|, k requires 0 <= k < |entries| => EntryRow(entries[k], separator))
  }

  /** write_mt940 for entries in INR: closing is opening plus the signed entries plus the deliberate
      imbalance. */
  method WriteStatement(entries: seq<Entry>, separator: char, opening: int, unbalancedBy: int) returns (st: Statement)
    ensures st == Written(entries, separator, opening, unbalancedBy)
  {
    var net, rows := 0, [];
    for k := 0 to |entries|
      invariant net == Net(entries[..k]) && rows == EntryRows(entries, separator)[..k]
    {
      assert entries[..k + 1][..k] == entries[..k];
      net := net + SignedAmount(entries[k]);
      rows := rows + [EntryRow(entries[k], separator)];
    }
    assert entries[..|entries|] == entries;
    return Statement(WrittenBalance(opening, separator), WrittenBalance(opening + net + unbalancedBy, separator), rows);
  }

  // ------------------------------------------------------------------- reading

  datatype Balances = Balances(currency: string, opening: int, closing: int)

  /** The value of a call, or an exception. */
  datatype Try<T> = Done(value: T) | Raised

  function SignOr(mark: string): int {
    if mark in SIGN then SIGN[mark] else 1
  }

  /** mt940_balances and camt_balances: both amounts are read before either is looked at. */
  function ReadBalances(opening: Option<Balance>, closing: Option<Balance>, separator: char): Try<Option<Balances>> {
    if opening == None || closing == None then Done(None)
    else
      var o := ToMinor(opening.value.amount, opening.value.currency, separator);
      var c := ToMinor(closing.value.amount, closing.value.currency, separator);
      if o == Fails || c == Fails then Raised
      else if o == Unreadable || c == Unreadable then Done(None)
      else Done(Some(Balances(opening.value.currency, o.units * SignOr(opening.value.mark),
                              c.units * SignOr(closing.value.mark))))
  }

  datatype BalanceCheck = BalanceCheck(balances: Balances, entries: nat, unparseable: nat, net: int) {
    function ComputedClosing(): int { balances.opening + net }

    /** Stated closing minus computed closing. */
    function Difference(): int { balances.closing - ComputedClosing() }

    predicate Balanced() { Difference() == 0 }
  }

  function RowCurrency(balances: Balances, row: Row): string {
    if row.currency == None || row.currency.value == "" then balances.currency else row.currency.value
  }

  function AmountOf(balances: Balances, row: Row, separator: char): Amount {
    ToMinor(row.amount, RowCurrency(balances, row), separator)
  }

  /** What one row contributes; None when its mark or amount cannot be read. */
  function RowAmount(balances: Balances, row: Row, separator: char): Option<int> {
    var mark := Clean(row.direction);
    var amount := AmountOf(balances, row, separator);
    if mark !in SIGN || !amount.Minor? then None else Some(amount.units * SIGN[mark])
  }

  /** The text of the amount names an infinity or a NaN and its currency is known. */
  predicate HoldsNonFinite(balances: Balances, row: Row, separator: char) {
    && row.amount.Some? && row.amount.value != "" && Known(RowCurrency(balances, row))
    && ParseNumber(Replace(Trim(row.amount.value), separator, '.')) == Some(NotFinite)
  }

  predicate AnyNonFinite(balances: Balances, rows: seq<Row>, separator: char) {
    exists k :: 0 <= k < |rows| && HoldsNonFinite(balances, rows[k], separator)
  }

  function Readable(balances: Balances, rows: seq<Row>, separator: char): (n: nat)
    ensures n <= |rows|
  {
    if rows == [] then 0
    else Readable(balances, rows[..|rows| - 1], separator)
         + (if RowAmount(balances, rows[|rows| - 1], separator).Some? then 1 else 0)
  }

  function NetOf(balances: Balances, rows: seq<Row>, separator: char): int {
    if rows == [] then 0
    else
      var last := RowAmount(balances, rows[|rows| - 1], separator);
      NetOf(balances, rows[..|rows| - 1], separator) + (if last == None then 0 else last.value)
  }

  function Checked(balances: Balances, rows: seq<Row>, separator: char): BalanceCheck {
    BalanceCheck(balances, Readable(balances, rows, separator), |rows| - Readable(balances, rows, separator),
                 NetOf(balances, rows, separator))
  }

  lemma FailsIff(balances: Balances, row: Row, separator: char)
    ensures AmountOf(balances, row, separator) == Fails <==> HoldsNonFinite(balances, row, separator)
  {
    hide ParseNumber, Trim, Replace, Known, Scale, ToMinorUnits, RowCurrency;
  }

  /** What a row counts for: its amount read in its own currency, or in that of the balances if it names none, with the
      sign of its mark in any case and with blanks around. */
  lemma RowCounts(balances: Balances, row: Row, separator: char, v: int)
    ensures RowAmount(balances, row, separator) == Some(v) <==>
            var currency := if row.currency.Some? && row.currency.value != "" then row.currency.value
                            else balances.currency;
            var read, mark := ToMinor(row.amount, currency, separator), Clean(row.direction);
            read.Minor? && ((mark in {"C", "CRDT", "RD"} && v == read.units)
                            || (mark in {"D", "DBIT", "RC"} && v == -read.units))
  {
    hide ToMinor, Clean, SIGN;
    MarksMean(Clean(row.direction));
  }

  /** Rows add up however they are divided; a single one counts for its value, or as unparseable and for nothing. */
  lemma {:induction false} RowsAddUp(balances: Balances, a: seq<Row>, b: seq<Row>, separator: char)
    ensures var x, y, both := Checked(balances, a, separator), Checked(balances, b, separator),
                              Checked(balances, a + b, separator);
            both.net == x.net + y.net && both.entries == x.entries + y.entries
            && both.unparseable == x.unparseable + y.unparseable
    ensures |a| == 1 ==>
              Checked(balances, a, separator)
              == match RowAmount(balances, a[0], separator)
                 case Some(v) => BalanceCheck(balances, 1, 0, v)
                 case None => BalanceCheck(balances, 0, 1, 0)
    decreases |b|
  {
    hide RowAmount;
    if |a| == 1 {
      assert a[..0] == [];
    }
    if b == [] {
      assert a + b == a;
    } else {
      var n := |b| - 1;
      RowsAddUp(balances, a, b[..n], separator);
      assert (a + b)[..|a + b| - 1] == a + b[..n];
    }
  }

  /** check_statement: it raises exactly when some row holds an infinite amount or a NaN in a known currency,
      whatever the row's mark; otherwise every row is either summed with its sign or counted as unparseable. */
  method CheckStatement(balances: Balances, rows: seq<Row>, separator: char) returns (check: Try<BalanceCheck>)
    ensures check == Raised <==> AnyNonFinite(balances, rows, separator)
    ensures check.Done? ==> check.value == Checked(balances, rows, separator)
    ensures check.Done? ==> check.value.entries + check.value.unparseable == |rows|
  {
    hide SIGN, AmountOf, Clean, HoldsNonFinite;
    var net, entries, unparseable := 0, 0, 0;
    for k := 0 to |rows|
      invariant entries == Readable(balances, rows[..k], separator) && entries + unparseable == k
      invariant net == NetOf(balances, rows[..k], separator)
      invariant forall j :: 0 <= j < k ==> !HoldsNonFinite(balances, rows[j], separator)
    {
      assert rows[..k + 1][..k] == rows[..k];
      var row := rows[k];
      FailsIff(balances, row, separator);
      var mark := Clean(row.direction);
      var amount := AmountOf(balances, row, separator);
      if amount == Fails {
        return Raised;
      }
      if mark !in SIGN || amount == Unreadable {
        unparseable := unparseable + 1;
      } else {
        entries := entries + 1;
        net := net + amount.units * SIGN[mark];
      }
    }
    assert rows[..|rows|] == rows;
    return Done(BalanceCheck(balances, entries, unparseable, net));
  }

  /** One amount of NaN or infinity, with or without a sign, ends the check of the whole statement. */
  lemma OneNonFiniteRowRaises(balances: Balances, row: Row, negative: bool, name: string)
    requires name in NON_FINITE && Known(RowCurrency(balances, row))
    requires row.amount == Some(Sign(negative) + name)
    ensures HoldsNonFinite(balances, row, '.')
  {
    hide ToMinor, Known, RowCurrency, HoldsNonFinite, NON_FINITE;
    NonFiniteFails(negative, name, RowCurrency(balances, row));
    FailsIff(balances, row, '.');
  }

  // ------------------------------------------------------------------- there and back

  /** The statement write_mt940 writes. */
  function Written(entries: seq<Entry>, separator: char, opening: int, unbalancedBy: int): Statement {
    Statement(WrittenBalance(opening, separator), WrittenBalance(opening + Net(entries) + unbalancedBy, separator),
              EntryRows(entries, separator))
  }

  lemma MarksAreClean(e: Entry)
    ensures Clean(EntryMark(e)) == EntryMark(e) && EntryMark(e) in SIGN
    ensures e.amount * SIGN[EntryMark(e)] == SignedAmount(e)
  {
    assert Upper("RD") == "RD" && Upper("RC") == "RC" && Upper("D") == "D" && Upper("C") == "C";
    NothingToTrim(EntryMark(e));
  }

  /** A written entry contributes its signed amount. */
  lemma EntryReads(balances: Balances, e: Entry, separator: char)
    requires balances.currency == "INR" && AmountText.Usable(separator, e.amount)
    ensures RowAmount(balances, EntryRow(e, separator), separator) == Some(SignedAmount(e))
  {
    hide SIGN, SignedAmount, EntryMark, Clean, ToMinor, DecimalText, Known, Scale;
    MarksAreClean(e);
    InrIsKnown();
    BalanceTextRoundTrip(e.amount, "INR", separator);
  }

  /** Both vocabularies of marks: credits and reversed debits add, debits and reversed credits subtract, and nothing
      else is a mark; a balance without one counts as a credit. */
  lemma MarksMean(mark: string)
    ensures mark in SIGN <==> mark in {"C", "CRDT", "RD", "D", "DBIT", "RC"}
    ensures mark in {"C", "CRDT", "RD"} ==> SIGN[mark] == 1
    ensures mark in {"D", "DBIT", "RC"} ==> SIGN[mark] == -1
    ensures SignOr(mark) == if mark in {"D", "DBIT", "RC"} then -1 else 1
  {
  }

  /** What an entry adds: a credit its amount, a debit takes it away, and a reversal does the opposite; its mark is C or
      D after it, with an R in front of a reversal. */
  lemma EntryMeans(e: Entry)
    ensures e.direction == CR && !e.reversal ==> SignedAmount(e) == e.amount
    ensures SignedAmount(e.(direction := if e.direction == CR then DR else CR)) == -SignedAmount(e)
    ensures SignedAmount(e.(reversal := !e.reversal)) == -SignedAmount(e)
    ensures e.reversal <==> EntryMark(e)[0] == 'R'
    ensures |EntryMark(e)| == (if e.reversal then 2 else 1)
    ensures e.direction == CR <==> EntryMark(e)[|EntryMark(e)| - 1] == 'C'
    ensures e.direction == DR <==> EntryMark(e)[|EntryMark(e)| - 1] == 'D'
  {
  }

  lemma InrIsKnown()
    ensures Known("INR") && Scale("INR") == 2
  {
    assert Upper("INR") == "INR";
  }

  lemma {:induction false} RowsRead(balances: Balances, entries: seq<Entry>, separator: char)
    requires balances.currency == "INR" && forall e :: e in entries ==> AmountText.Usable(separator, e.amount)
    ensures NetOf(balances, EntryRows(entries, separator), separator) == Net(entries)
    ensures Readable(balances, EntryRows(entries, separator), separator) == |entries|
  {
    hide RowAmount, SignedAmount, EntryRow, AmountText.Usable;
    if entries != [] {
      var n := |entries| - 1;
      var rows := EntryRows(entries, separator);
      assert entries[n] in entries && forall e :: e in entries[..n] ==> e in entries;
      RowsRead(balances, entries[..n], separator);
      assert rows[..n] == EntryRows(entries[..n], separator);
      EntryReads(balances, entries[n], separator);
    }
  }

  lemma BalanceReads(minor: int, separator: char)
    requires !IsDigit(separator)
    ensures var b := WrittenBalance(minor, separator);
            var read := ToMinor(b.amount, b.currency, separator);
            read.Minor? && read.units * SignOr(b.mark) == minor
  {
    hide ToMinor, DecimalText, Known, Scale;
    InrIsKnown();
    BalanceTextRoundTrip(Size(minor), "INR", separator);
  }

  lemma NothingFails(balances: Balances, entries: seq<Entry>, separator: char)
    requires balances.currency == "INR" && forall e :: e in entries ==> AmountText.Usable(separator, e.amount)
    ensures forall row :: row in EntryRows(entries, separator) ==> !HoldsNonFinite(balances, row, separator)
  {
    hide HoldsNonFinite, RowAmount, EntryRow, AmountText.Usable;
    forall k | 0 <= k < |entries| ensures !HoldsNonFinite(balances, EntryRows(entries, separator)[k], separator) {
      assert entries[k] in entries;
      EntryReads(balances, entries[k], separator);
      SummedIsFinite(balances, EntryRow(entries[k], separator), separator);
    }
  }

  lemma SummedIsFinite(balances: Balances, row: Row, separator: char)
    requires RowAmount(balances, row, separator).Some?
    ensures !HoldsNonFinite(balances, row, separator)
  {
    hide AmountOf, HoldsNonFinite, SIGN, Clean;
    FailsIff(balances, row, separator);
  }

  /** Reading the balances of a statement and checking its rows. */
  function Reading(st: Statement, separator: char): Try<Option<BalanceCheck>> {
    var read := ReadBalances(Some(st.opening), Some(st.closing), separator);
    if read == Raised then Raised
    else if read.value == None then Done(None)
    else if AnyNonFinite(read.value.value, st.rows, separator) then Raised
    else Done(Some(Checked(read.value.value, st.rows, separator)))
  }

  /** A statement written with an imbalance of u is found to be off by exactly u, with every entry
      read: for any entries with any mix of reversals, any opening balance and any separator that is
      not a digit (nor a minus sign when an amount is negative). */
  lemma ImbalanceIsFound(entries: seq<Entry>, separator: char, opening: int, u: int)
    requires !IsDigit(separator) && forall e :: e in entries ==> AmountText.Usable(separator, e.amount)
    ensures var check := Reading(Written(entries, separator, opening, u), separator);
            && check.Done? && check.value.Some?
            && check.value.value.balances == Balances("INR", opening, opening + Net(entries) + u)
            && check.value.value.net == Net(entries)
            && check.value.value.entries == |entries| && check.value.value.unparseable == 0
            && check.value.value.Difference() == u && (check.value.value.Balanced() <==> u == 0)
  {
    hide ToMinor, SignOr, Net, Readable, NetOf, EntryRows, WrittenBalance, HoldsNonFinite;
    var closing := opening + Net(entries) + u;
    BalanceReads(opening, separator);
    BalanceReads(closing, separator);
    InRupees(opening, separator);
    RowsRead(Balances("INR", opening, closing), entries, separator);
    NothingFails(Balances("INR", opening, closing), entries, separator);
  }

  lemma InRupees(minor: int, separator: char)
    ensures WrittenBalance(minor, separator).currency == "INR"
  {
  }
}
