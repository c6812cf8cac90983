/** The books' trial balance: money is conserved across the accounts of a book. */
module TrialBalance {
  import opened Ledger

  ghost function SumOver(s: set<Guid>, f: Guid -> real): real {
    if s == {} then 0.0
    else
      var g :| g in s;
      f(g) + SumOver(s - {g}, f)
  }

  lemma {:induction false} SumOverTake(s: set<Guid>, f: Guid -> real, g: Guid)
    requires g in s
    ensures SumOver(s, f) == f(g) + SumOver(s - {g}, f)
  {
    var h :| h in s && SumOver(s, f) == f(h) + SumOver(s - {h}, f);
    if h != g {
      SumOverTake(s - {h}, f, g);
      SumOverTake(s - {g}, f, h);
      assert s - {h} - {g} == s - {g} - {h};
    }
  }

  lemma {:induction false} SumOverZero(s: set<Guid>, f: Guid -> real)
    requires forall g <- s :: f(g) == 0.0
    ensures SumOver(s, f) == 0.0
  {
    if s != {} {
      var g :| g in s;
      SumOverTake(s, f, g);
      SumOverZero(s - {g}, f);
    }
  }

  lemma {:induction false} SumOverPlus(s: set<Guid>, f: Guid -> real, g: Guid -> real, h: Guid -> real)
    requires forall x <- s :: h(x) == f(x) + g(x)
    ensures SumOver(s, h) == SumOver(s, f) + SumOver(s, g)
  {
    if s != {} {
      var x :| x in s;
      SumOverTake(s, f, x);
      SumOverTake(s, g, x);
      SumOverTake(s, h, x);
      SumOverPlus(s - {x}, f, g, h);
    }
  }

  // Only one member contributes.
  lemma SumOverSingle(s: set<Guid>, f: Guid -> real, g: Guid)
    requires g in s && forall x <- s :: x != g ==> f(x) == 0.0
    ensures SumOver(s, f) == f(g)
  {
    SumOverTake(s, f, g);
    SumOverZero(s - {g}, f);
  }

  // What the splits in the list put on one account.
  ghost function Posted(splits: seq<Split>, account: Guid): real
    requires forall s <- splits :: s.denom != 0
  {
    if |splits| == 0 then 0.0
    else
      (if splits[0].account == account then splits[0].num as real / splits[0].denom as real else 0.0)
      + Posted(splits[1..], account)
  }

  // Spread over any set of accounts that covers them, splits add up to their sum.
  lemma {:induction false} PostedAddsUp(splits: seq<Split>, accounts: set<Guid>, f: Guid -> real)
    requires forall s <- splits :: s.denom != 0 && s.account in accounts
    requires forall a <- accounts :: f(a) == Posted(splits, a)
    ensures SumOver(accounts, f) == SplitSum(splits)
  {
    if |splits| == 0 {
      SumOverZero(accounts, f);
    } else {
      var s := splits[0];
      var one := (a: Guid) => if a == s.account then s.num as real / s.denom as real else 0.0;
      var rest := (a: Guid) => Posted(splits[1..], a);
      SumOverPlus(accounts, one, rest, f);
      SumOverSingle(accounts, one, s.account);
      PostedAddsUp(splits[1..], accounts, rest);
    }
  }

  ghost function PostedBy(b: Books, txn: Guid, account: Guid): real
    requires forall g <- b.txns :: forall s <- b.txns[g].splits :: s.denom != 0
  {
    if txn in b.txns then Posted(b.txns[txn].splits, account) else 0.0
  }

  ghost function AccountBalance(b: Books, account: Guid): real
    requires forall g <- b.txns :: forall s <- b.txns[g].splits :: s.denom != 0
  {
    SumOver(b.txns.Keys, (g: Guid) => PostedBy(b, g, account))
  }

  function BookAccounts(b: Books, book: Guid): set<Guid> {
    set g | g in b.accounts && b.accounts[g].book == book
  }

  ghost function TrialBalance(b: Books, book: Guid): real
    requires forall g <- b.txns :: forall s <- b.txns[g].splits :: s.denom != 0
  {
    SumOver(BookAccounts(b, book), (a: Guid) => AccountBalance(b, a))
  }

  lemma ValidHasDenominators(b: Books)
    requires Valid(b)
    ensures forall g <- b.txns :: forall s <- b.txns[g].splits :: s.denom != 0
  {
    forall g <- b.txns
      ensures forall s <- b.txns[g].splits :: s.denom != 0
    {
      assert WellPosted(b.accounts, b.txns[g]);
    }
  }

  // Summing by account first or by transaction first is the same.
  lemma {:induction false} SwapSums(b: Books, accounts: set<Guid>, txns: set<Guid>)
    requires forall g <- b.txns :: forall s <- b.txns[g].splits :: s.denom != 0
    ensures SumOver(accounts, (a: Guid) => SumOver(txns, (g: Guid) => PostedBy(b, g, a)))
      == SumOver(txns, (g: Guid) => SumOver(accounts, (a: Guid) => PostedBy(b, g, a)))
  {
    var byAccount := (a: Guid) => SumOver(txns, (g: Guid) => PostedBy(b, g, a));
    var byTxn := (g: Guid) => SumOver(accounts, (a: Guid) => PostedBy(b, g, a));
    if txns == {} {
      SumOverZero(accounts, byAccount);
    } else {
      var t :| t in txns;
      var rest := txns - {t};
      var one := (a: Guid) => PostedBy(b, t, a);
      var others := (a: Guid) => SumOver(rest, (g: Guid) => PostedBy(b, g, a));
      forall a <- accounts
        ensures byAccount(a) == one(a) + others(a)
      {
        SumOverTake(txns, (g: Guid) => PostedBy(b, g, a), t);
      }
      SumOverPlus(accounts, one, others, byAccount);
      SwapSums(b, accounts, rest);
      SumOverTake(txns, byTxn, t);
    }
  }

  // In valid books each book's accounts balance to zero, exactly.
  lemma TrialBalanceIsZero(b: Books, book: Guid)
    requires Valid(b)
    ensures forall g <- b.txns :: forall s <- b.txns[g].splits :: s.denom != 0
    ensures TrialBalance(b, book) == 0.0
  {
    ValidHasDenominators(b);
    var accounts := BookAccounts(b, book);
    var byTxn := (g: Guid) => SumOver(accounts, (a: Guid) => PostedBy(b, g, a));
    SwapSums(b, accounts, b.txns.Keys);
    forall g <- b.txns
      ensures byTxn(g) == 0.0
    {
      assert WellPosted(b.accounts, b.txns[g]);
      var splits := b.txns[g].splits;
      var f := (a: Guid) => PostedBy(b, g, a);
      if b.txns[g].book == book {
        PostedAddsUp(splits, accounts, f);
      } else {
        forall a <- accounts
          ensures f(a) == 0.0
        {
          NothingPosted(splits, a);
        }
        SumOverZero(accounts, f);
      }
    }
    SumOverZero(b.txns.Keys, byTxn);
    assert TrialBalance(b, book) == SumOver(accounts, (a: Guid) => AccountBalance(b, a));
    SumOverPlus(
      accounts, (a: Guid) => SumOver(b.txns.Keys, (g: Guid) => PostedBy(b, g, a)), (a: Guid) => 0.0,
      (a: Guid) => AccountBalance(b, a));
    SumOverZero(accounts, (a: Guid) => 0.0);
  }

  lemma {:induction false} NothingPosted(splits: seq<Split>, account: Guid)
    requires forall s <- splits :: s.denom != 0 && s.account != account
    ensures Posted(splits, account) == 0.0
  {
    if |splits| != 0 {
      NothingPosted(splits[1..], account);
    }
  }
}
