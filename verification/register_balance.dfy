/**
 The register's last running balance is the account's balance in the books
 (GetAccountRegister in backend/internal/services/transaction_service.go).
 */
module RegisterBalance {
  import opened Wrappers
  import opened Numeric
  import opened Exactness
  import opened Ledger
  import opened TrialBalance
  import opened Register

  ghost function RowValue(r: Row): real {
    if r.quantityDenom == 0 then 0.0 else r.quantityNum as real / r.quantityDenom as real
  }

  ghost function RowSum(rows: seq<Row>): real {
    if |rows| == 0 then 0.0 else RowSum(rows[..|rows| - 1]) + RowValue(rows[|rows| - 1])
  }

  // The rows that are splits of one transaction.
  function RowsOf(rows: seq<Row>, txn: Guid): (r: seq<Row>)
    ensures forall x :: x in r <==> x in rows && x.split.txn == txn
  {
    if |rows| == 0 then []
    else
      var n := |rows| - 1;
      RowsOf(rows[..n], txn) + if rows[n].split.txn == txn then [rows[n]] else []
  }

  lemma RowSumSnoc(rows: seq<Row>, r: Row)
    ensures RowSum(rows + [r]) == RowSum(rows) + RowValue(r)
  {
    assert (rows + [r])[..|rows|] == rows;
  }

  lemma {:induction false} RowSumConcat(left: seq<Row>, right: seq<Row>)
    ensures RowSum(left + right) == RowSum(left) + RowSum(right)
    decreases |right|
  {
    if |right| == 0 {
      assert left + right == left;
    } else {
      var init, r := right[..|right| - 1], right[|right| - 1];
      assert left + right == (left + init) + [r];
      RowSumConcat(left, init);
      RowSumSnoc(left + init, r);
    }
  }

  lemma RowSumWithout(rows: seq<Row>, k: nat)
    requires k < |rows|
    ensures RowSum(rows) == RowSum(rows[..k] + rows[k + 1..]) + RowValue(rows[k])
  {
    hide RowSum;
    var before, r, behind := rows[..k], rows[k], rows[k + 1..];
    assert rows == before + ([r] + behind);
    RowSumConcat(before, [r] + behind);
    RowSumConcat([r], behind);
    RowSumConcat(before, behind);
    RowSumOne(r);
  }

  lemma RowSumOne(r: Row)
    ensures RowSum([r]) == RowValue(r)
  {
    assert [r][..0] == [];
  }

  lemma {:induction false} DistinctRowsOf(rows: seq<Row>, txn: Guid)
    requires Distinct(rows)
    ensures Distinct(RowsOf(rows, txn))
  {
    if |rows| != 0 {
      var n := |rows| - 1;
      DistinctRowsOf(rows[..n], txn);
      assert forall x <- RowsOf(rows[..n], txn) :: x.split != rows[n].split;
    }
  }

  // Summing by transaction is summing.
  lemma {:induction false} SumByTxn(rows: seq<Row>, txns: set<Guid>, f: Guid -> real)
    requires forall r <- rows :: r.split.txn in txns
    requires forall g <- txns :: f(g) == RowSum(RowsOf(rows, g))
    ensures SumOver(txns, f) == RowSum(rows)
  {
    if |rows| == 0 {
      SumOverZero(txns, f);
    } else {
      var init, r := rows[..|rows| - 1], rows[|rows| - 1];
      var one := (g: Guid) => if g == r.split.txn then RowValue(r) else 0.0;
      var rest := (g: Guid) => RowSum(RowsOf(init, g));
      forall g <- txns
        ensures f(g) == one(g) + rest(g)
      {
        if g == r.split.txn {
          RowSumSnoc(RowsOf(init, g), r);
        } else {
          assert RowsOf(init, g) + [] == RowsOf(init, g);
        }
      }
      SumOverPlus(txns, one, rest, f);
      SumOverSingle(txns, one, r.split.txn);
      SumByTxn(init, txns, rest);
    }
  }

  lemma {:induction false} PostedSnoc(splits: seq<Split>, s: Split, account: Guid)
    requires s.denom != 0 && forall t <- splits :: t.denom != 0
    ensures Posted(splits + [s], account)
      == Posted(splits, account) + if s.account == account then s.num as real / s.denom as real else 0.0
  {
    if |splits| == 0 {
      assert splits + [s] == [s] && [s][1..] == [];
    } else {
      assert (splits + [s])[1..] == splits[1..] + [s];
      PostedSnoc(splits[1..], s, account);
    }
  }

  // The row of a split: the same line, and its value.
  ghost predicate IsRowAt(r: Row, txn: Guid, splits: seq<Split>, i: nat) {
    i < |splits| && splits[i].denom != 0 && r.split == Line(txn, i)
    && RowValue(r) == splits[i].num as real / splits[i].denom as real
  }

  // The rows are those of the first n splits on the account.
  ghost predicate AreRows(rows: seq<Row>, txn: Guid, splits: seq<Split>, account: Guid, n: nat)
    requires n <= |splits|
  {
    && Distinct(rows)
    && (forall r <- rows :: r.split.index < n && splits[r.split.index].account == account)
    && (forall r <- rows :: IsRowAt(r, txn, splits, r.split.index))
    && (forall i: nat :: i < n && splits[i].account == account ==> exists r <- rows :: r.split.index == i)
  }

  lemma {:induction false} RowsAddUp(rows: seq<Row>, txn: Guid, splits: seq<Split>, account: Guid, n: nat)
    requires n <= |splits| && AreRows(rows, txn, splits, account, n) && forall s <- splits :: s.denom != 0
    ensures RowSum(rows) == Posted(splits[..n], account)
    decreases n
  {
    hide RowSum, RowValue;
    if n == 0 {
      NoRows(rows, splits, account);
    } else {
      var s := splits[n - 1];
      assert splits[..n] == splits[..n - 1] + [s];
      PostedSnoc(splits[..n - 1], s, account);
      if s.account == account {
        var r :| r in rows && r.split.index == n - 1;
        var k :| 0 <= k < |rows| && rows[k] == r;
        var rest := rows[..k] + rows[k + 1..];
        OneRowLess(rows, txn, splits, account, n, k);
        RowsAddUp(rest, txn, splits, account, n - 1);
        RowSumWithout(rows, k);
      } else {
        RowsAddUp(rows, txn, splits, account, n - 1);
      }
    }
  }

  lemma NoRows(rows: seq<Row>, splits: seq<Split>, account: Guid)
    requires forall r <- rows :: r.split.index < 0
    ensures RowSum(rows) == Posted(splits[..0], account)
  {
  }

  lemma OneRowLess(rows: seq<Row>, txn: Guid, splits: seq<Split>, account: Guid, n: nat, k: nat)
    requires 0 < n <= |splits| && AreRows(rows, txn, splits, account, n)
    requires k < |rows| && rows[k].split.index == n - 1
    ensures AreRows(rows[..k] + rows[k + 1..], txn, splits, account, n - 1)
  {
    hide IsRowAt, Distinct;
    var rest := rows[..k] + rows[k + 1..];
    StillDistinct(rows, k);
    forall r <- rest
      ensures r in rows && r.split.index < n - 1
    {
      OtherRow(rows, k, r);
      assert rows[k] in rows;
      SameLine(rows[k], r, txn, splits);
    }
    forall i: nat | i < n - 1 && splits[i].account == account
      ensures exists r <- rest :: r.split.index == i
    {
      var r :| r in rows && r.split.index == i;
      var j :| 0 <= j < |rows| && rows[j] == r;
      assert r == rest[if j < k then j else j - 1];
    }
  }

  lemma StillDistinct(rows: seq<Row>, k: nat)
    requires Distinct(rows) && k < |rows|
    ensures Distinct(rows[..k] + rows[k + 1..])
  {
  }

  lemma OtherRow(rows: seq<Row>, k: nat, r: Row)
    requires Distinct(rows) && k < |rows| && r in rows[..k] + rows[k + 1..]
    ensures r in rows && r.split != rows[k].split
  {
    var rest := rows[..k] + rows[k + 1..];
    var i :| 0 <= i < |rest| && rest[i] == r;
    var j := if i < k then i else i + 1;
    assert rows[j] == r;
  }

  lemma SameLine(r: Row, u: Row, txn: Guid, splits: seq<Split>)
    requires IsRowAt(r, txn, splits, r.split.index) && IsRowAt(u, txn, splits, u.split.index)
    ensures r.split == u.split <==> r.split.index == u.split.index
  {
  }

  // Splits on the account are in the currency of the books.
  predicate SameQuantities(b: Books, account: Guid) {
    forall g <- b.txns :: forall s <- b.txns[g].splits ::
      s.account == account ==> s.quantityNum == s.num && s.quantityDenom == s.denom
  }

  lemma RowsOfTxn(b: Books, account: Guid, rows: seq<Row>, g: Guid)
    requires g in b.txns && (forall s <- b.txns[g].splits :: s.denom != 0)
    requires IsJoin(b, account, rows) && SameQuantities(b, account)
    ensures RowSum(RowsOf(rows, g)) == Posted(b.txns[g].splits, account)
  {
    hide RowSum, Posted;
    var splits, mine := b.txns[g].splits, RowsOf(rows, g);
    DistinctRowsOf(rows, g);
    forall r <- mine
      ensures r.split.index < |splits| && splits[r.split.index].account == account
      ensures IsRowAt(r, g, splits, r.split.index)
    {
      assert IsRowOf(b, account, r);
      assert splits[r.split.index] in splits;
    }
    forall i: nat | i < |splits| && splits[i].account == account
      ensures exists r <- mine :: r.split.index == i
    {
      assert OnAccount(b, account, Line(g, i));
      var r :| r in rows && r.split == Line(g, i);
      assert r in mine;
    }
    RowsAddUp(mine, g, splits, account, |splits|);
    assert splits[..|splits|] == splits;
  }

  // The rows of the register add up to the balance of the account.
  lemma RegisterAddsUp(b: Books, account: Guid, rows: seq<Row>)
    requires forall g <- b.txns :: forall s <- b.txns[g].splits :: s.denom != 0
    requires IsJoin(b, account, rows) && SameQuantities(b, account)
    ensures RowSum(rows) == AccountBalance(b, account)
  {
    hide RowSum, IsJoin, Posted;
    var f := (g: Guid) => PostedBy(b, g, account);
    forall g <- b.txns.Keys
      ensures f(g) == RowSum(RowsOf(rows, g))
    {
      RowsOfTxn(b, account, rows, g);
    }
    forall r <- rows
      ensures r.split.txn in b.txns.Keys
    {
      RowIsThere(b, account, rows, r);
    }
    SumByTxn(rows, b.txns.Keys, f);
    assert AccountBalance(b, account) == SumOver(b.txns.Keys, f);
  }

  lemma RowIsThere(b: Books, account: Guid, rows: seq<Row>, r: Row)
    requires IsJoin(b, account, rows) && r in rows
    ensures r.split.txn in b.txns
  {
    assert IsRowOf(b, account, r);
  }

  // What the last line of the register shows is what the books hold.
  lemma LastBalanceIsAccountBalance(b: Books, account: Guid, kind: Kind, rows: seq<Row>, d: int)
    requires forall g <- b.txns :: forall s <- b.txns[g].splits :: s.denom != 0
    requires IsJoin(b, account, rows) && SameQuantities(b, account)
    requires |rows| > 0 && (forall r <- rows :: r.quantityDenom > 0) && PartialsFit(Amounts(rows), d)
    ensures Computes(rows) && Full(kind, rows)[|rows| - 1].balance.denom > 0
    ensures Full(kind, rows)[|rows| - 1].balance.Value() == AccountBalance(b, account)
  {
    hide RowSum, IsJoin, PartialsFit, RealSum, Computes, Full, AccountBalance;
    BalancesAreExact(kind, rows, d, |rows| - 1);
    assert Amounts(rows)[..|rows|] == Amounts(rows);
    AmountsAddUp(rows);
    RegisterAddsUp(b, account, rows);
  }

  lemma {:induction false} AmountsAddUp(rows: seq<Row>)
    requires forall r <- rows :: r.quantityDenom > 0
    ensures forall v <- Amounts(rows) :: v.denom > 0
    ensures RealSum(Amounts(rows)) == RowSum(rows)
  {
    if |rows| != 0 {
      var init, r := rows[..|rows| - 1], rows[|rows| - 1];
      AmountsAddUp(init);
      assert r in rows && Amounts(rows) == Amounts(init) + [Numeric(r.quantityNum, r.quantityDenom)];
      RealSumSnoc(Amounts(init), Numeric(r.quantityNum, r.quantityDenom));
    }
  }

  lemma {:induction false} RealSumSnoc(values: seq<Numeric>, v: Numeric)
    requires v.denom != 0 && forall w <- values :: w.denom != 0
    ensures RealSum(values + [v]) == RealSum(values) + v.Value()
  {
    if |values| == 0 {
      assert values + [v] == [v] && [v][1..] == [];
    } else {
      assert (values + [v])[1..] == values[1..] + [v];
      RealSumSnoc(values[1..], v);
    }
  }
}
