/**
 Reconciling a statement: the wizard's totals (frontend/src/components/ReconcileWizard.tsx)
 against the balance the server reports afterwards (BatchReconcileSplits and
 GetReconciledBalance in backend/internal/services/transaction_service.go).
 */
module Reconcile {
  import opened Wrappers
  import opened Numeric
  import opened Ledger
  import opened Register

  // One account as the wizard fetches it.
  datatype Sheet = Sheet(kind: Kind, rows: seq<Row>)

  // The row's fields are int64s that can be negated.
  predicate Storable(r: Row) {
    r.quantityDenom != 0 && Abs(r.quantityDenom) <= INT64_MAX && Abs(r.quantityNum) <= INT64_MAX
  }

  predicate AllStorable(sheets: seq<Sheet>) {
    forall i, j :: 0 <= i < |sheets| && 0 <= j < |sheets[i].rows| ==> Storable(sheets[i].rows[j])
  }

  ghost function Quantity(r: Row): real
    requires Storable(r)
  {
    r.quantityNum as real / r.quantityDenom as real
  }

  // ------------------------------------------------------------ the server

  // SUM over the account's reconciled splits.
  ghost function ReconciledBalance(rows: seq<Row>): real
    requires forall r <- rows :: Storable(r)
  {
    if |rows| == 0 then 0.0
    else
      var r := rows[|rows| - 1];
      ReconciledBalance(rows[..|rows| - 1]) + if r.mark == Reconciled then Quantity(r) else 0.0
  }

  function Marked(r: Row, lines: set<Line>): Row {
    if r.split in lines then r.(mark := Reconciled) else r
  }

  function MarkedRows(rows: seq<Row>, lines: set<Line>): (out: seq<Row>)
    ensures |out| == |rows| && forall i :: 0 <= i < |out| ==> out[i] == Marked(rows[i], lines)
  {
    seq(|rows|, i requires 0 <= i < |rows| => Marked(rows[i], lines))
  }

  ghost function Reported(sheets: seq<Sheet>): real
    requires AllStorable(sheets)
  {
    if |sheets| == 0 then 0.0
    else
      assert forall r <- sheets[|sheets| - 1].rows :: Storable(r);
      Reported(sheets[..|sheets| - 1]) + ReconciledBalance(sheets[|sheets| - 1].rows)
  }

  function MarkedSheets(sheets: seq<Sheet>, lines: set<Line>): (out: seq<Sheet>)
    ensures |out| == |sheets|
    ensures forall i :: 0 <= i < |out| ==> out[i] == Sheet(sheets[i].kind, MarkedRows(sheets[i].rows, lines))
  {
    seq(|sheets|, i requires 0 <= i < |sheets| => Sheet(sheets[i].kind, MarkedRows(sheets[i].rows, lines)))
  }

  lemma MarkingIsStorable(sheets: seq<Sheet>, lines: set<Line>)
    requires AllStorable(sheets)
    ensures AllStorable(MarkedSheets(sheets, lines))
  {
  }

  // ------------------------------------------------------------ the wizard's columns

  // None when the wizard was opened without an account type.
  predicate IsCreditNormal(kind: Option<Kind>) {
    kind.Some? && (kind.value.Liability? || kind.value.Credit? || kind.value.Income? || kind.value.Equity?)
  }

  predicate IsLeft(credit: bool, e: Entry) {
    if credit then e.withdrawal.Some? else e.deposit.Some?
  }

  predicate IsRight(credit: bool, e: Entry) {
    if credit then e.deposit.Some? else e.withdrawal.Some?
  }

  ghost function ValueOf(v: Option<Numeric>): real {
    if v.Some? && v.value.denom != 0 then v.value.Value() else 0.0
  }

  // deposit || withdrawal || 0: a zero deposit falls through, to zero.
  ghost function Size(e: Entry): real {
    if ValueOf(e.deposit) != 0.0 then ValueOf(e.deposit) else ValueOf(e.withdrawal)
  }

  ghost function Total(entries: seq<Entry>, selected: set<Line>, left: bool, credit: bool): real {
    if |entries| == 0 then 0.0
    else
      var e := entries[|entries| - 1];
      Total(entries[..|entries| - 1], selected, left, credit)
      + if e.split in selected && (if left then IsLeft(credit, e) else IsRight(credit, e)) then Size(e) else 0.0
  }

  // Unreconciled entries up to the statement date.
  function Open(entries: seq<Entry>, cutoff: int): (out: seq<Entry>)
    ensures forall e <- out :: e in entries && e.mark != Reconciled && e.date <= cutoff
  {
    if |entries| == 0 then []
    else
      var e := entries[|entries| - 1];
      Open(entries[..|entries| - 1], cutoff) + if e.mark != Reconciled && e.date <= cutoff then [e] else []
  }

  predicate AllCompute(sheets: seq<Sheet>) {
    forall i :: 0 <= i < |sheets| ==> Computes(sheets[i].rows)
  }

  function AllOpen(sheets: seq<Sheet>, cutoff: int): seq<Entry>
    requires AllCompute(sheets)
  {
    if |sheets| == 0 then []
    else
      var a := sheets[|sheets| - 1];
      AllOpen(sheets[..|sheets| - 1], cutoff) + Open(Full(a.kind, a.rows), cutoff)
  }

  // ------------------------------------------------------------ one row

  // Server and wizard agree on what a column means for this account.
  predicate Agrees(kind: Kind, credit: bool) {
    IsDebitNormal(kind) != credit
  }

  lemma AmountIsQuantity(r: Row)
    requires Storable(r)
    ensures Amount(r).denom > 0 && Amount(r).Value() == Quantity(r)
    ensures (Amount(r).num > 0 <==> Quantity(r) > 0.0) && (Amount(r).num == 0 <==> Quantity(r) == 0.0)
  {
    var v := Amount(r);
    SignOfQuotient(v.num, v.denom);
  }

  lemma SignOfQuotient(a: int, b: int)
    requires b > 0
    ensures a as real / b as real > 0.0 <==> a > 0
    ensures a as real / b as real == 0.0 <==> a == 0
    ensures (-a) as real / b as real == -(a as real / b as real)
  {
    var x := a as real / b as real;
    assert x * b as real == a as real;
    assert (-a) as real == -(a as real);
    Divided(x, a as real, b as real);
  }

  lemma Divided(x: real, a: real, b: real)
    requires b > 0.0 && x == a / b
    ensures (-a) / b == -x
    ensures x > 0.0 <==> a > 0.0
  {
    assert x * b == a;
    assert (-x) * b == -a;
    assert (-a) / b == ((-x) * b) / b;
  }

  // A selected entry moves left - right by its quantity, with the right sign
  // exactly when the meanings of the columns agree.
  lemma EntryMoves(kind: Kind, credit: bool, r: Row, balance: Numeric)
    requires Storable(r)
    ensures var e := EntryOf(kind, r, balance);
      && (IsLeft(credit, e) != IsRight(credit, e))
      && (IsLeft(credit, e) ==> Size(e) == if Agrees(kind, credit) then Quantity(r) else -Quantity(r))
      && (IsRight(credit, e) ==> Size(e) == if Agrees(kind, credit) then -Quantity(r) else Quantity(r))
  {
    AmountIsQuantity(r);
    var v := Amount(r);
    SignOfQuotient(v.num, v.denom);
    assert Flipped(v).Value() == -v.Value();
  }

  // ------------------------------------------------------------ totals

  // Only what the wizard lists is selected.
  predicate SelectsOpen(rows: seq<Row>, cutoff: int, selected: set<Line>) {
    forall r <- rows :: r.split in selected ==> r.mark != Reconciled && r.date <= cutoff
  }

  ghost function Moved(entries: seq<Entry>, selected: set<Line>, credit: bool): real {
    Total(entries, selected, true, credit) - Total(entries, selected, false, credit)
  }

  lemma {:induction false} TotalConcat(a: seq<Entry>, b: seq<Entry>, selected: set<Line>, left: bool, credit: bool)
    ensures Total(a + b, selected, left, credit) == Total(a, selected, left, credit) + Total(b, selected, left, credit)
    decreases |b|
  {
    if |b| == 0 {
      assert a + b == a;
    } else {
      assert (a + b)[..|a + b| - 1] == a + b[..|b| - 1];
      TotalConcat(a, b[..|b| - 1], selected, left, credit);
    }
  }

  // The entries of the first n rows.
  ghost function Entries(kind: Kind, rows: seq<Row>, n: nat): (es: seq<Entry>)
    requires n <= |rows|
    ensures |es| == n
  {
    seq(n, i requires 0 <= i < n => Shown(kind, rows, i))
  }

  ghost function Signed(kind: Kind, credit: bool, x: real): real {
    if Agrees(kind, credit) then x else -x
  }

  // What one more entry adds to left - right.
  ghost function Moves(e: Entry, cutoff: int, selected: set<Line>, credit: bool): real {
    if e.mark == Reconciled || e.date > cutoff || e.split !in selected then 0.0
    else (if IsLeft(credit, e) then Size(e) else 0.0) - (if IsRight(credit, e) then Size(e) else 0.0)
  }

  lemma OneMoreEntry(es: seq<Entry>, e: Entry, cutoff: int, selected: set<Line>, credit: bool)
    ensures Moved(Open(es + [e], cutoff), selected, credit)
      == Moved(Open(es, cutoff), selected, credit) + Moves(e, cutoff, selected, credit)
  {
    hide IsLeft, IsRight, Size;
    assert (es + [e])[..|es|] == es;
    var open := Open(es, cutoff);
    assert (open + [e])[..|open|] == open && open + [] == open;
    if e.mark != Reconciled && e.date <= cutoff {
      assert Open(es + [e], cutoff) == open + [e];
    } else {
      assert Open(es + [e], cutoff) == open;
    }
  }

  lemma OneMoreRow(rows: seq<Row>, n: nat)
    requires n < |rows| && forall r <- rows :: Storable(r)
    ensures (forall r <- rows[..n] :: Storable(r)) && (forall r <- rows[..n + 1] :: Storable(r)) && Storable(rows[n])
    ensures ReconciledBalance(rows[..n + 1])
      == ReconciledBalance(rows[..n]) + if rows[n].mark == Reconciled then Quantity(rows[n]) else 0.0
  {
    assert rows[..n + 1][..n] == rows[..n];
    assert rows[n] in rows;
  }

  lemma RowMoves(kind: Kind, rows: seq<Row>, n: nat, cutoff: int, selected: set<Line>, credit: bool)
    requires n < |rows| && Storable(rows[n]) && SelectsOpen(rows, cutoff, selected)
    ensures Signed(kind, credit, Moves(Shown(kind, rows, n), cutoff, selected, credit))
      == (if Marked(rows[n], selected).mark == Reconciled then Quantity(rows[n]) else 0.0)
         - (if rows[n].mark == Reconciled then Quantity(rows[n]) else 0.0)
  {
    hide BalanceAfter, Size, Quantity;
    assert rows[n] in rows;
    EntryMoves(kind, credit, rows[n], Shown(kind, rows, n).balance);
  }

  lemma MarkedAreStorable(rows: seq<Row>, selected: set<Line>)
    requires forall r <- rows :: Storable(r)
    ensures forall r <- MarkedRows(rows, selected) :: Storable(r)
  {
    var marked := MarkedRows(rows, selected);
    forall i | 0 <= i < |marked|
      ensures Storable(marked[i])
    {
      assert marked[i] == Marked(rows[i], selected) && rows[i] in rows;
    }
  }

  lemma {:induction false} SheetMoves(
    kind: Kind, rows: seq<Row>, n: nat, cutoff: int, selected: set<Line>, credit: bool)
    requires n <= |rows| && (forall r <- rows :: Storable(r)) && SelectsOpen(rows, cutoff, selected)
    ensures forall r <- MarkedRows(rows, selected) :: Storable(r)
    ensures Signed(kind, credit, Moved(Open(Entries(kind, rows, n), cutoff), selected, credit))
      == ReconciledBalance(MarkedRows(rows, selected)[..n]) - ReconciledBalance(rows[..n])
    decreases n
  {
    hide Moved, Moves, Open, SelectsOpen, Storable, Quantity, Shown, Signed, ReconciledBalance;
    MarkedAreStorable(rows, selected);
    if n > 0 {
      var marked := MarkedRows(rows, selected);
      SheetMoves(kind, rows, n - 1, cutoff, selected, credit);
      var es, e := Entries(kind, rows, n - 1), Shown(kind, rows, n - 1);
      assert Entries(kind, rows, n) == es + [e];
      OneMoreEntry(es, e, cutoff, selected, credit);
      SignedAdds(kind, credit, Moved(Open(es, cutoff), selected, credit), Moves(e, cutoff, selected, credit));
      OneMoreRow(rows, n - 1);
      OneMoreRow(marked, n - 1);
      RowMoves(kind, rows, n - 1, cutoff, selected, credit);
      SameQuantity(rows[n - 1], selected);
    } else {
      NothingMoves(cutoff, selected, credit);
      NothingReconciled(kind, credit, rows, MarkedRows(rows, selected));
    }
  }

  lemma SignedAdds(kind: Kind, credit: bool, x: real, y: real)
    ensures Signed(kind, credit, x + y) == Signed(kind, credit, x) + Signed(kind, credit, y)
  {
  }

  lemma NothingReconciled(kind: Kind, credit: bool, rows: seq<Row>, marked: seq<Row>)
    ensures Signed(kind, credit, 0.0) == ReconciledBalance(rows[..0]) == ReconciledBalance(marked[..0]) == 0.0
  {
  }

  lemma SameQuantity(r: Row, selected: set<Line>)
    requires Storable(r)
    ensures Storable(Marked(r, selected)) && Quantity(Marked(r, selected)) == Quantity(r)
  {
  }

  lemma NothingMoves(cutoff: int, selected: set<Line>, credit: bool)
    ensures Moved(Open([], cutoff), selected, credit) == 0.0
  {
  }

  predicate AllSelectOpen(sheets: seq<Sheet>, cutoff: int, selected: set<Line>) {
    forall i :: 0 <= i < |sheets| ==> SelectsOpen(sheets[i].rows, cutoff, selected)
  }

  lemma {:induction false} SheetsMove(sheets: seq<Sheet>, cutoff: int, selected: set<Line>, kind: Kind, credit: bool)
    requires AllStorable(sheets) && AllCompute(sheets) && AllSelectOpen(sheets, cutoff, selected)
    requires forall i :: 0 <= i < |sheets| ==> (Agrees(sheets[i].kind, credit) <==> Agrees(kind, credit))
    ensures AllStorable(MarkedSheets(sheets, selected))
    ensures Signed(kind, credit, Moved(AllOpen(sheets, cutoff), selected, credit))
      == Reported(MarkedSheets(sheets, selected)) - Reported(sheets)
  {
    hide Moved, Moves, Open, SelectsOpen, Storable, ReconciledBalance, Computes, Full, Agrees;
    MarkingIsStorable(sheets, selected);
    if |sheets| != 0 {
      var init, a := sheets[..|sheets| - 1], sheets[|sheets| - 1];
      SheetsMove(init, cutoff, selected, kind, credit);
      LastSheetMoves(a, cutoff, selected, credit);
      assert MarkedSheets(sheets, selected)[..|init|] == MarkedSheets(init, selected);
      MovedConcat(AllOpen(init, cutoff), Open(Full(a.kind, a.rows), cutoff), selected, credit);
    } else {
      NothingMoves(cutoff, selected, credit);
      assert Open([], cutoff) == AllOpen(sheets, cutoff) by {
        NothingOpen(cutoff);
      }
    }
  }

  lemma NothingOpen(cutoff: int)
    ensures Open([], cutoff) == []
  {
  }

  lemma MovedConcat(a: seq<Entry>, b: seq<Entry>, selected: set<Line>, credit: bool)
    ensures Moved(a + b, selected, credit) == Moved(a, selected, credit) + Moved(b, selected, credit)
  {
    hide Total;
    TotalConcat(a, b, selected, true, credit);
    TotalConcat(a, b, selected, false, credit);
  }

  lemma LastSheetMoves(a: Sheet, cutoff: int, selected: set<Line>, credit: bool)
    requires AllStorable([a]) && Computes(a.rows) && SelectsOpen(a.rows, cutoff, selected)
    ensures (forall r <- a.rows :: Storable(r)) && (forall r <- MarkedRows(a.rows, selected) :: Storable(r))
    ensures Signed(a.kind, credit, Moved(Open(Full(a.kind, a.rows), cutoff), selected, credit))
      == ReconciledBalance(MarkedRows(a.rows, selected)) - ReconciledBalance(a.rows)
  {
    hide Computes, Moved, Open, Storable, SelectsOpen, ReconciledBalance;
    var n := |a.rows|;
    forall r <- a.rows
      ensures Storable(r)
    {
      var j :| 0 <= j < n && a.rows[j] == r;
      assert Storable([a][0].rows[j]);
    }
    SheetMoves(a.kind, a.rows, n, cutoff, selected, credit);
    assert Entries(a.kind, a.rows, n) == Full(a.kind, a.rows);
    assert a.rows[..n] == a.rows && MarkedRows(a.rows, selected)[..n] == MarkedRows(a.rows, selected);
  }

  // ------------------------------------------------------------ the wizard

  predicate AgreesWithAll(sheets: seq<Sheet>, credit: bool) {
    forall i :: 0 <= i < |sheets| ==> Agrees(sheets[i].kind, credit)
  }

  // start + left - right is the balance the server reports after the selection
  // has been reconciled, when every account reads its columns as the wizard does.
  lemma TotalsAgree(sheets: seq<Sheet>, kind: Option<Kind>, cutoff: int, selected: set<Line>)
    requires AllStorable(sheets) && AllCompute(sheets) && AllSelectOpen(sheets, cutoff, selected)
    requires AgreesWithAll(sheets, IsCreditNormal(kind))
    ensures AllStorable(MarkedSheets(sheets, selected))
    ensures var credit := IsCreditNormal(kind);
      var open := AllOpen(sheets, cutoff);
      Reported(sheets) + Total(open, selected, true, credit) - Total(open, selected, false, credit)
        == Reported(MarkedSheets(sheets, selected))
  {
    hide Total, Open, Reported;
    var credit := IsCreditNormal(kind);
    SheetsMove(sheets, cutoff, selected, if credit then Liability else Asset, credit);
  }

  // One unreconciled entry of one unit.
  function OneUnit(): Row {
    Row(Line(0, 0), 0, "", 1, 1, Unreconciled)
  }

  predicate OfKinds(sheets: seq<Sheet>, kinds: seq<Kind>) {
    |sheets| == |kinds| && forall i :: 0 <= i < |sheets| ==> sheets[i].kind == kinds[i]
  }

  ghost predicate WizardIsRight(
    kinds: seq<Kind>, shown: Option<Kind>, sheets: seq<Sheet>, cutoff: int, selected: set<Line>) {
    OfKinds(sheets, kinds) && AllStorable(sheets) && AllCompute(sheets) && AllSelectOpen(sheets, cutoff, selected)
    ==>
      var credit := IsCreditNormal(shown);
      var open := AllOpen(sheets, cutoff);
      MarkingIsStorable(sheets, selected);
      Reported(sheets) + Total(open, selected, true, credit) - Total(open, selected, false, credit)
        == Reported(MarkedSheets(sheets, selected))
  }

  // Over all registers, dates and selections, the wizard is right about a list of
  // accounts exactly when its one reading of the columns is the server's for each.
  lemma WizardIsRightIff(kinds: seq<Kind>, shown: Option<Kind>)
    ensures (forall sheets, cutoff, selected :: WizardIsRight(kinds, shown, sheets, cutoff, selected))
      <==> forall kind <- kinds :: Agrees(kind, IsCreditNormal(shown))
  {
    hide Total, AllOpen, Reported, Agrees, IsCreditNormal, AllStorable, AllCompute, AllSelectOpen;
    if forall kind <- kinds :: Agrees(kind, IsCreditNormal(shown)) {
      forall sheets, cutoff, selected
        ensures WizardIsRight(kinds, shown, sheets, cutoff, selected)
      {
        if OfKinds(sheets, kinds) && AllStorable(sheets) && AllCompute(sheets) &&
          AllSelectOpen(sheets, cutoff, selected) {
          TotalsAgree(sheets, shown, cutoff, selected);
        }
      }
    } else {
      var j :| 0 <= j < |kinds| && !Agrees(kinds[j], IsCreditNormal(shown));
      OneUnitIsWrong(kinds, j, shown);
    }
  }

  // All accounts are empty but one.
  function Lonely(kinds: seq<Kind>, j: nat, rows: seq<Row>): (sheets: seq<Sheet>)
    ensures OfKinds(sheets, kinds)
    ensures forall i :: 0 <= i < |sheets| ==> sheets[i].rows == if i == j then rows else []
  {
    seq(|kinds|, i requires 0 <= i < |kinds| => Sheet(kinds[i], if i == j then rows else []))
  }

  lemma {:induction false} LonelyIs(kinds: seq<Kind>, j: nat, rows: seq<Row>, cutoff: int, n: nat)
    requires j < |kinds| && n <= |kinds| && (forall r <- rows :: Storable(r)) && Computes(rows)
    ensures var sheets := Lonely(kinds, j, rows)[..n];
      && AllStorable(sheets) && AllCompute(sheets)
      && AllOpen(sheets, cutoff) == (if n > j then Open(Full(kinds[j], rows), cutoff) else [])
      && Reported(sheets) == if n > j then ReconciledBalance(rows) else 0.0
    decreases n
  {
    hide Open, Storable, Computes, Full, ReconciledBalance, AllStorable, AllCompute, AllOpen, Reported;
    var sheets := Lonely(kinds, j, rows);
    if n == 0 {
      NoSheets(cutoff);
      assert sheets[..0] == [];
    } else {
      LonelyIs(kinds, j, rows, cutoff, n - 1);
      assert sheets[..n] == sheets[..n - 1] + [sheets[n - 1]];
      EmptyIs(kinds[n - 1], cutoff);
      OneMoreSheet(sheets[..n - 1], sheets[n - 1], cutoff);
    }
  }

  lemma NoSheets(cutoff: int)
    ensures AllStorable([]) && AllCompute([]) && AllOpen([], cutoff) == [] && Reported([]) == 0.0
  {
  }

  // What a sheet adds to a list of sheets.
  lemma OneMoreSheet(sheets: seq<Sheet>, a: Sheet, cutoff: int)
    requires AllStorable(sheets) && AllCompute(sheets) && (forall r <- a.rows :: Storable(r)) && Computes(a.rows)
    ensures AllStorable(sheets + [a]) && AllCompute(sheets + [a])
    ensures AllOpen(sheets + [a], cutoff) == AllOpen(sheets, cutoff) + Open(Full(a.kind, a.rows), cutoff)
    ensures Reported(sheets + [a]) == Reported(sheets) + ReconciledBalance(a.rows)
  {
    hide Open, Storable, Computes, Full, ReconciledBalance;
    var all := sheets + [a];
    assert all[..|sheets|] == sheets && all[|sheets|] == a;
    assert forall j :: 0 <= j < |a.rows| ==> a.rows[j] in a.rows;
  }

  lemma EmptyIs(kind: Kind, cutoff: int)
    ensures Computes([]) && Open(Full(kind, []), cutoff) == [] && ReconciledBalance([]) == 0.0
  {
    NoBalance([]);
    assert Full(kind, []) == [];
  }

  lemma MarkedLonely(kinds: seq<Kind>, j: nat, rows: seq<Row>, selected: set<Line>)
    ensures MarkedSheets(Lonely(kinds, j, rows), selected) == Lonely(kinds, j, MarkedRows(rows, selected))
  {
  }

  lemma OneUnitIsWrong(kinds: seq<Kind>, j: nat, shown: Option<Kind>)
    requires j < |kinds| && !Agrees(kinds[j], IsCreditNormal(shown))
    ensures !WizardIsRight(kinds, shown, Lonely(kinds, j, [OneUnit()]), 0, {Line(0, 0)})
  {
    hide Total, Open, Sum, Full, Reported, AllOpen, ReconciledBalance, Agrees, IsCreditNormal, Computes;
    var rows, selected, n := [OneUnit()], {Line(0, 0)}, |kinds|;
    var sheets, marked := Lonely(kinds, j, rows), MarkedRows(rows, selected);
    OneUnitComputes();
    OneUnitReconciled();
    assert marked == [OneUnit().(mark := Reconciled)];
    LonelyIs(kinds, j, rows, 0, n);
    LonelyIs(kinds, j, marked, 0, n);
    MarkedLonely(kinds, j, rows, selected);
    assert sheets[..n] == sheets && Lonely(kinds, j, marked)[..n] == Lonely(kinds, j, marked);
    LastSheetMoves(Sheet(kinds[j], rows), 0, selected, IsCreditNormal(shown));
  }

  lemma OneUnitComputes()
    ensures Computes([OneUnit()]) && Computes([OneUnit().(mark := Reconciled)])
  {
    hide Add;
    var rows, marked := [OneUnit()], [OneUnit().(mark := Reconciled)];
    NoBalance(rows);
    BalanceStep(rows, 0);
    NoBalance(marked);
    BalanceStep(marked, 0);
  }

  lemma OneUnitReconciled()
    ensures Storable(OneUnit()) && Storable(OneUnit().(mark := Reconciled))
    ensures ReconciledBalance([OneUnit()]) == 0.0
    ensures ReconciledBalance([OneUnit().(mark := Reconciled)]) == 1.0
  {
    var a, b := [OneUnit()], [OneUnit().(mark := Reconciled)];
    assert a[..0] == [] && b[..0] == [];
  }

  // Opened with the account's type, that is every type but two; opened without
  // one, as the tree of accounts does, only the debit-normal types.
  lemma KindsThatAgree(kind: Kind)
    ensures Agrees(kind, IsCreditNormal(Some(kind))) <==> !kind.Payable? && !kind.Root?
    ensures Agrees(kind, IsCreditNormal(None)) <==> IsDebitNormal(kind)
  {
  }

  // Splits are listed once, over all the accounts.
  ghost predicate DistinctAcross(sheets: seq<Sheet>) {
    forall i, j, k, l, split ::
      HasSplit(sheets, i, j, split) && HasSplit(sheets, k, l, split) ==> i == k && j == l
  }

  predicate HasSplit(sheets: seq<Sheet>, i: int, j: int, split: Line) {
    0 <= i < |sheets| && 0 <= j < |sheets[i].rows| && sheets[i].rows[j].split == split
  }

  // An entry the wizard lists is the entry of a row that is open.
  lemma {:induction false} ListedIsOpen(sheets: seq<Sheet>, cutoff: int, e: Entry)
    requires AllCompute(sheets) && e in AllOpen(sheets, cutoff)
    ensures exists i, j ::
      0 <= i < |sheets| && 0 <= j < |sheets[i].rows| && IsOpenRow(sheets[i].rows[j], cutoff, e.split)
  {
    hide Full, Computes;
    var n := |sheets| - 1;
    if e in AllOpen(sheets[..n], cutoff) {
      ListedIsOpen(sheets[..n], cutoff, e);
      var i, j :| 0 <= i < n && 0 <= j < |sheets[..n][i].rows| && IsOpenRow(sheets[..n][i].rows[j], cutoff, e.split);
      assert IsOpenRow(sheets[i].rows[j], cutoff, e.split);
    } else {
      var a := sheets[n];
      assert e in Full(a.kind, a.rows);
      var j := FullIndex(a.kind, a.rows, e);
      assert IsOpenRow(sheets[n].rows[j], cutoff, e.split);
    }
  }

  predicate IsOpenRow(r: Row, cutoff: int, split: Line) {
    r.split == split && r.mark != Reconciled && r.date <= cutoff
  }

  lemma FullIndex(kind: Kind, rows: seq<Row>, e: Entry) returns (j: nat)
    requires Computes(rows) && e in Full(kind, rows)
    ensures j < |rows| && e.split == rows[j].split && e.mark == rows[j].mark && e.date == rows[j].date
  {
    hide Computes, BalanceAfter, Amount;
    j :| 0 <= j < |rows| && Full(kind, rows)[j] == e;
    assert e == Shown(kind, rows, j);
  }

  lemma SelectionIsOpen(sheets: seq<Sheet>, cutoff: int, selected: set<Line>)
    requires AllCompute(sheets) && DistinctAcross(sheets)
    requires forall line <- selected :: exists e <- AllOpen(sheets, cutoff) :: e.split == line
    ensures AllSelectOpen(sheets, cutoff, selected)
  {
    hide AllCompute, AllOpen;
    forall i, r: Row | 0 <= i < |sheets| && r in sheets[i].rows && r.split in selected
      ensures r.mark != Reconciled && r.date <= cutoff
    {
      var j :| 0 <= j < |sheets[i].rows| && sheets[i].rows[j] == r;
      var e :| e in AllOpen(sheets, cutoff) && e.split == r.split;
      ListedIsOpen(sheets, cutoff, e);
      var k, l :| 0 <= k < |sheets| && 0 <= l < |sheets[k].rows| && IsOpenRow(sheets[k].rows[l], cutoff, e.split);
      assert HasSplit(sheets, i, j, e.split) && HasSplit(sheets, k, l, e.split);
    }
  }

  class ReconcileWizard {
    const kind: Option<Kind>
    var entries: seq<Entry>
    var selected: set<Line>

    constructor (kind: Option<Kind>)
      ensures this.kind == kind && entries == [] && selected == {}
    {
      this.kind := kind;
      entries, selected := [], {};
    }

    // Only listed entries are ever selected.
    predicate Valid()
      reads this
    {
      forall line <- selected :: exists e <- entries :: e.split == line
    }

    // The accounts' registers, filtered; cleared entries start out selected.
    method StartReconcile(sheets: seq<Sheet>, cutoff: int)
      requires AllCompute(sheets)
      modifies this
      ensures Valid() && entries == AllOpen(sheets, cutoff)
      ensures selected == set e <- entries | e.mark == Cleared :: e.split
    {
      hide Full, Computes;
      entries := [];
      var i := 0;
      assert sheets[..0] == [];
      while i < |sheets|
        invariant 0 <= i <= |sheets|
        invariant entries == AllOpen(sheets[..i], cutoff)
      {
        assert sheets[..i + 1][..i] == sheets[..i];
        entries := entries + Open(Full(sheets[i].kind, sheets[i].rows), cutoff);
        i := i + 1;
      }
      assert sheets[..i] == sheets;
      selected := set e <- entries | e.mark == Cleared :: e.split;
    }

    // A listed row was clicked.
    method ToggleEntry(line: Line)
      requires Valid() && exists e <- entries :: e.split == line
      modifies this`selected
      ensures Valid()
      ensures selected == if line in old(selected) then old(selected) - {line} else old(selected) + {line}
    {
      selected := if line in selected then selected - {line} else selected + {line};
    }

    method SelectAll()
      modifies this`selected
      ensures Valid() && selected == set e <- entries :: e.split
    {
      selected := set e <- entries :: e.split;
    }

    method DeselectAll()
      modifies this`selected
      ensures Valid() && selected == {}
    {
      selected := {};
    }

    // startingBalance + leftTotal - rightTotal, the balances being what the
    // server reported on opening.
    ghost function InternalBalance(starting: real): real
      reads this
    {
      var credit := IsCreditNormal(kind);
      starting + Total(entries, selected, true, credit) - Total(entries, selected, false, credit)
    }
  }

  // Whatever was toggled, the wizard's balance is the one the server will report.
  lemma WizardAgreesWithServer(wizard: ReconcileWizard, sheets: seq<Sheet>, cutoff: int)
    requires AllStorable(sheets) && AllCompute(sheets) && DistinctAcross(sheets)
    requires AgreesWithAll(sheets, IsCreditNormal(wizard.kind))
    requires wizard.Valid() && wizard.entries == AllOpen(sheets, cutoff)
    ensures AllStorable(MarkedSheets(sheets, wizard.selected))
    ensures wizard.InternalBalance(Reported(sheets)) == Reported(MarkedSheets(sheets, wizard.selected))
  {
    hide AllOpen, Total, Reported;
    SelectionIsOpen(sheets, cutoff, wizard.selected);
    TotalsAgree(sheets, wizard.kind, cutoff, wizard.selected);
  }

  // ------------------------------------------------------------ the server's update

  function MarkLine(b: Books, book: Guid, line: Line): Books {
    if line.txn in b.txns && b.txns[line.txn].book == book
      && line.index < |b.txns[line.txn].splits| && b.txns[line.txn].splits[line.index].mark != Reconciled
    then
      var t := b.txns[line.txn];
      var s := t.splits[line.index].(mark := Reconciled);
      b.(txns := b.txns[line.txn := t.(splits := t.splits[line.index := s])])
    else b
  }

  function MarkLines(b: Books, book: Guid, lines: seq<Line>): Books {
    if |lines| == 0 then b
    else MarkLine(MarkLines(b, book, lines[..|lines| - 1]), book, lines[|lines| - 1])
  }

  lemma {:induction false} MarkLinesFrame(b: Books, book: Guid, lines: seq<Line>)
    ensures var b' := MarkLines(b, book, lines);
      && b' == b.(txns := b'.txns) && b'.txns.Keys == b.txns.Keys
      && (forall g <- b.txns :: b'.txns[g] == b.txns[g].(splits := b'.txns[g].splits))
  {
    if |lines| != 0 {
      MarkLinesFrame(b, book, lines[..|lines| - 1]);
    }
  }

  // Of the lines asked for, those of the book's own transactions end reconciled;
  // nothing else of any split changes, and no split of another book.
  lemma {:induction false} MarkingTouchesOnly(b: Books, book: Guid, lines: seq<Line>, g: Guid, i: nat)
    requires g in b.txns && i < |b.txns[g].splits|
    ensures var b' := MarkLines(b, book, lines);
      && g in b'.txns && |b'.txns[g].splits| == |b.txns[g].splits|
      && b'.txns[g].splits[i] == b.txns[g].splits[i].(mark :=
           if b.txns[g].book == book && Line(g, i) in lines then Reconciled else b.txns[g].splits[i].mark)
  {
    if |lines| != 0 {
      MarkLinesFrame(b, book, lines[..|lines| - 1]);
      MarkingTouchesOnly(b, book, lines[..|lines| - 1], g, i);
    }
  }

  predicate AllIn(b: Books, book: Guid, rows: seq<Row>) {
    forall r <- rows :: r.split.txn in b.txns && b.txns[r.split.txn].book == book
  }

  // The update does to the account's register what Marked says.
  lemma {:induction false} MarkedRegister(b: Books, book: Guid, account: Guid, rows: seq<Row>, lines: seq<Line>)
    requires IsJoin(b, account, rows) && AllIn(b, book, rows)
    ensures IsJoin(MarkLines(b, book, lines), account, MarkedRows(rows, set line | line in lines))
  {
    hide IsJoin, AllIn, MarkLine;
    if |lines| == 0 {
      assert MarkedRows(rows, set line | line in lines) == rows;
    } else {
      var init, line := lines[..|lines| - 1], lines[|lines| - 1];
      MarkedRegister(b, book, account, rows, init);
      var rows1 := MarkedRows(rows, set l | l in init);
      MarkLinesFrame(b, book, init);
      InSameBook(b, MarkLines(b, book, init), book, rows, rows1);
      MarkOne(MarkLines(b, book, init), book, account, rows1, line);
      assert forall l :: l in lines <==> l in init || l == line;
      assert MarkedRows(rows1, {line}) == MarkedRows(rows, set l | l in lines);
    }
  }

  lemma InSameBook(b: Books, b1: Books, book: Guid, rows: seq<Row>, rows1: seq<Row>)
    requires |rows1| == |rows| && forall i :: 0 <= i < |rows| ==> rows1[i].split == rows[i].split
    requires AllIn(b, book, rows)
    requires b1.txns.Keys == b.txns.Keys && forall g <- b.txns :: b1.txns[g].book == b.txns[g].book
    ensures AllIn(b1, book, rows1)
  {
    forall r <- rows1
      ensures r.split.txn in b1.txns && b1.txns[r.split.txn].book == book
    {
      var i :| 0 <= i < |rows1| && rows1[i] == r;
      assert rows[i] in rows;
    }
  }

  lemma RowAfterMark(b: Books, book: Guid, account: Guid, line: Line, r: Row)
    requires IsRowOf(b, account, r) && b.txns[r.split.txn].book == book
    ensures IsRowOf(MarkLine(b, book, line), account, Marked(r, {line}))
  {
  }

  lemma SameLines(b: Books, book: Guid, account: Guid, line: Line, l: Line)
    ensures OnAccount(MarkLine(b, book, line), account, l) <==> OnAccount(b, account, l)
  {
  }

  lemma MarkOne(b: Books, book: Guid, account: Guid, rows: seq<Row>, line: Line)
    requires IsJoin(b, account, rows) && AllIn(b, book, rows)
    ensures IsJoin(MarkLine(b, book, line), account, MarkedRows(rows, {line}))
  {
    hide MarkLine, OnAccount, IsRowOf;
    var b', out := MarkLine(b, book, line), MarkedRows(rows, {line});
    forall r <- out
      ensures IsRowOf(b', account, r)
    {
      var i :| 0 <= i < |out| && out[i] == r;
      assert rows[i] in rows && out[i] == Marked(rows[i], {line});
      RowAfterMark(b, book, account, line, rows[i]);
    }
    forall l
      ensures OnAccount(b', account, l) <==> exists r <- out :: r.split == l
    {
      SameLines(b, book, account, line, l);
      if OnAccount(b, account, l) {
        var r :| r in rows && r.split == l;
        var i :| 0 <= i < |rows| && rows[i] == r;
        assert out[i] in out && out[i].split == l;
      }
    }
  }
}
