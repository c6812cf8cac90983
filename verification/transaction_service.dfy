/**
 TransactionService as the object it is: the tables are its fields, each call
 works on a copy (the database transaction) and commits by assigning them.
 */
module TransactionService {
  import opened Wrappers
  import opened Numeric
  import opened Ledger
  import Reconcile
  import Register

  lemma KeptStep(splits: seq<Split>, i: nat)
    requires i < |splits|
    ensures Kept(splits[..i + 1]) ==
      match Kept(splits[..i])
      case Err(e) => Err(e)
      case Ok(rest) =>
        if splits[i].num == 0 then Ok(rest)
        else if splits[i].denom == 0 || splits[i].quantityDenom == 0 then Err(InvalidSplit)
        else Ok(rest + [splits[i]])
  {
    assert splits[..i + 1][..i] == splits[..i];
  }

  lemma {:induction false} KeptErrorIsFinal(splits: seq<Split>, i: nat)
    requires i <= |splits| && Kept(splits[..i]).Err?
    ensures Kept(splits) == Kept(splits[..i])
    decreases |splits| - i
  {
    if i < |splits| {
      KeptStep(splits, i);
      KeptErrorIsFinal(splits, i + 1);
    } else {
      assert splits[..i] == splits;
    }
  }

  lemma CheckStep(b: Books, book: Guid, splits: seq<Split>, i: nat)
    requires i < |splits|
    ensures CheckAccounts(b, book, splits[..i + 1]) ==
      match CheckAccounts(b, book, splits[..i])
      case Some(e) => Some(e)
      case None => CheckAccount(b, book, splits[i].account)
  {
    assert splits[..i + 1][..i] == splits[..i];
  }

  lemma {:induction false} CheckErrorIsFinal(b: Books, book: Guid, splits: seq<Split>, i: nat)
    requires i <= |splits| && CheckAccounts(b, book, splits[..i]).Some?
    ensures CheckAccounts(b, book, splits) == CheckAccounts(b, book, splits[..i])
    decreases |splits| - i
  {
    if i < |splits| {
      CheckStep(b, book, splits, i);
      CheckErrorIsFinal(b, book, splits, i + 1);
    } else {
      assert splits[..i] == splits;
    }
  }

  // Dropping zero splits and collecting the values to be summed.
  method Validate(splits: seq<Split>) returns (r: Result<(seq<Split>, seq<Numeric>), Error>)
    ensures match Kept(splits)
            case Err(e) => r == Err(e)
            case Ok(kept) => r == Ok((kept, Values(kept)))
  {
    var valid: seq<Split> := [];
    var values: seq<Numeric> := [];
    var i := 0;
    while i < |splits|
      invariant 0 <= i <= |splits|
      invariant Kept(splits[..i]) == Ok(valid)
      invariant values == Values(valid)
    {
      KeptStep(splits, i);
      var sp := splits[i];
      if sp.num != 0 {
        if sp.denom == 0 || sp.quantityDenom == 0 {
          KeptErrorIsFinal(splits, i + 1);
          return Err(InvalidSplit);
        }
        valid := valid + [sp];
        values := values + [New(sp.num, sp.denom)];
      }
      i := i + 1;
    }
    assert splits[..i] == splits;
    r := Ok((valid, values));
  }

  method VerifyAccounts(b: Books, book: Guid, splits: seq<Split>) returns (r: Option<Error>)
    ensures r == CheckAccounts(b, book, splits)
  {
    var i := 0;
    while i < |splits|
      invariant 0 <= i <= |splits|
      invariant CheckAccounts(b, book, splits[..i]).None?
    {
      CheckStep(b, book, splits, i);
      var account := splits[i].account;
      if account !in b.accounts || b.accounts[account].book != book {
        CheckErrorIsFinal(b, book, splits, i + 1);
        return Some(AccountNotFound);
      }
      if b.accounts[account].placeholder {
        CheckErrorIsFinal(b, book, splits, i + 1);
        return Some(PlaceholderAccount);
      }
      i := i + 1;
    }
    assert splits[..i] == splits;
    r := None;
  }

  class TransactionService {
    var accounts: map<Guid, Account>
    var txns: map<Guid, Txn>
    var roots: map<Guid, Option<Guid>>
    var next: Guid

    function Tables(): Books
      reads this
    {
      Books(accounts, txns, roots, next)
    }

    method Commit(b: Books)
      modifies this
      ensures Tables() == b
    {
      accounts, txns, roots, next := b.accounts, b.txns, b.roots, b.next;
    }

    // pick is the row the "name = 'Imbalance' LIMIT 1" query would return.
    method CreateTransaction(book: Guid, req: Request, pick: Option<Guid>) returns (r: Result<Guid, Error>)
      requires IsImbalancePick(Tables(), book, pick)
      modifies this
      ensures match Create(old(Tables()), book, req, pick)
              case Ok(b) => r.Ok? && Tables() == b && b.next > 0 && r.value == b.next - 1
              case Err(e) => r == Err(e) && Tables() == old(Tables())
    {
      hide Sum, Kept, CheckAccounts, Values;
      var tx := Tables();
      var checked := Validate(req.splits);
      if checked.Err? {
        return Err(checked.error);
      }
      var (splits, values) := checked.value;
      var sum := SumLoop(values);
      if sum.None? {
        return Err(Panic);
      }
      if sum.value.num != 0 {
        var account;
        if pick.Some? {
          account := pick.value;
        } else {
          if book !in tx.roots || tx.roots[book].None? {
            return Err(NoRoot);
          }
          account := tx.next;
          tx := tx.(accounts := tx.accounts[account := Account(book, "Imbalance", Equity, tx.roots[book], false, None)],
                    next := tx.next + 1);
        }
        splits := splits + [BalancingSplit(account, sum.value)];
      }
      if |splits| < 2 {
        return Err(TooFewSplits);
      }
      var bad := VerifyAccounts(tx, book, splits);
      if bad.Some? {
        return Err(bad.value);
      }
      if req.plaidId.Some? && HasPlaidId(tx, book, req.plaidId.value) {
        return Err(DuplicatePlaidId);
      }
      var guid := tx.next;
      var txn := Txn(book, req.plaidId, req.date, req.description, splits);
      Commit(tx.(txns := tx.txns[guid := txn], next := guid + 1));
      r := Ok(guid);
    }

    method UpdateTransaction(book: Guid, guid: Guid, req: Request) returns (r: Option<Error>)
      modifies this
      ensures match Update(old(Tables()), book, guid, req)
              case Ok(b) => r == None && Tables() == b
              case Err(e) => r == Some(e) && Tables() == old(Tables())
    {
      hide Sum, Kept, CheckAccounts, Values;
      var tx := Tables();
      if guid !in tx.txns || tx.txns[guid].book != book {
        return Some(NotFound);
      }
      var checked := Validate(req.splits);
      if checked.Err? {
        return Some(checked.error);
      }
      var (splits, values) := checked.value;
      var sum := SumLoop(values);
      if sum.None? {
        return Some(Panic);
      }
      if sum.value.num != 0 {
        return Some(Unbalanced);
      }
      if |splits| < 2 {
        return Some(TooFewSplits);
      }
      var bad := VerifyAccounts(tx, book, splits);
      if bad.Some? {
        return bad;
      }
      var rows: seq<Split> := [];
      var i := 0;
      while i < |splits|
        invariant 0 <= i <= |splits|
        invariant rows == Unmarked(splits)[..i]
      {
        rows := rows + [splits[i].(mark := Unreconciled)];
        i := i + 1;
      }
      assert rows == Unmarked(splits);
      var txn := tx.txns[guid].(date := req.date, description := req.description, splits := rows);
      Commit(tx.(txns := tx.txns[guid := txn]));
      r := None;
    }

    method DeleteTransaction(book: Guid, guid: Guid) returns (r: Option<Error>)
      modifies this`txns
      ensures match Delete(old(Tables()), book, guid)
              case Ok(b) => r == None && Tables() == b
              case Err(e) => r == Some(e) && Tables() == old(Tables())
    {
      if guid !in txns || txns[guid].book != book {
        return Some(NotFound);
      }
      txns := txns - {guid};
      r := None;
    }

    // The update of the reconcile wizard, split by split in one transaction.
    method BatchReconcileSplits(book: Guid, lines: seq<Register.Line>)
      modifies this`txns
      ensures Tables() == Reconcile.MarkLines(old(Tables()), book, lines)
    {
      var tx := Tables();
      var i := 0;
      while i < |lines|
        invariant 0 <= i <= |lines|
        invariant tx == Reconcile.MarkLines(old(Tables()), book, lines[..i])
        invariant tx == old(Tables()).(txns := tx.txns)
      {
        assert lines[..i + 1][..i] == lines[..i];
        tx := Reconcile.MarkLine(tx, book, lines[i]);
        i := i + 1;
      }
      assert lines[..i] == lines;
      txns := tx.txns;
    }
  }
}
