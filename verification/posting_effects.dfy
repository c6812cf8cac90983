/**
 What the calls of transaction_service.go write, and what they refuse, in terms
 of the tables (backend/internal/services/transaction_service.go).
 */
module PostingEffects {
  import opened Wrappers
  import opened Numeric
  import opened Ledger

  // ------------------------------------------------------------ which splits are kept

  // Zero splits count for nothing, wherever they stand.
  lemma {:induction false} ZeroIsDropped(a: seq<Split>, z: Split, c: seq<Split>)
    requires z.num == 0
    ensures Kept(a + [z] + c) == Kept(a + c)
    decreases |c|
  {
    if |c| == 0 {
      assert a + [z] + c == a + [z] && a + c == a;
      assert (a + [z])[..|a|] == a;
      KeptIsPlain(a);
    } else {
      var init, s := c[..|c| - 1], c[|c| - 1];
      assert (a + [z] + c)[..|a + [z] + c| - 1] == a + [z] + init && (a + [z] + c)[|a + [z] + c| - 1] == s;
      assert (a + c)[..|a + c| - 1] == a + init && (a + c)[|a + c| - 1] == s;
      ZeroIsDropped(a, z, init);
    }
  }

  lemma KeptIsPlain(a: seq<Split>)
    ensures Kept(a).Err? ==> Kept(a) == Err(InvalidSplit)
  {
  }

  // A request is invalid exactly when a split that counts has a zero denominator.
  lemma {:induction false} InvalidIff(splits: seq<Split>)
    ensures Kept(splits) == Err(InvalidSplit)
      <==> exists s <- splits :: s.num != 0 && (s.denom == 0 || s.quantityDenom == 0)
  {
    if |splits| != 0 {
      var init, s := splits[..|splits| - 1], splits[|splits| - 1];
      InvalidIff(init);
      KeptIsPlain(init);
      assert splits == init + [s];
    }
  }

  lemma {:induction false} KeptHas(splits: seq<Split>, s: Split)
    requires Kept(splits).Ok?
    ensures s in Kept(splits).value <==> s in splits && s.num != 0
  {
    if |splits| != 0 {
      var init, last := splits[..|splits| - 1], splits[|splits| - 1];
      KeptHas(init, s);
      assert splits == init + [last];
    }
  }

  // ------------------------------------------------------------ what is written

  // One more transaction, the newest row, is the request: its date, its text, its
  // id at the bank, the splits that count as they were sent; then, where their
  // sum is not zero, one more split, whose quantity is its value.
  lemma CreateWrites(b: Books, book: Guid, req: Request, pick: Option<Guid>)
    requires Create(b, book, req, pick).Ok?
    ensures var b' := Create(b, book, req, pick).value;
      && b'.next > 0 && b'.next - 1 in b'.txns && Kept(req.splits).Ok?
      && var t := b'.txns[b'.next - 1];
      && t.book == book && t.plaidId == req.plaidId && t.date == req.date && t.description == req.description
      && IsBalanced(Kept(req.splits).value, t.splits, if pick.Some? then pick.value else b.next)
  {
    hide Sum, Kept, CheckAccounts, Values, Balance, IsBalanced;
    PostedSplits(b, book, req, pick);
    BalanceAdds(b, book, pick, Kept(req.splits).value);
  }

  // The splits, and one on account where their int64 sum is not zero.
  ghost predicate IsBalanced(kept: seq<Split>, splits: seq<Split>, account: Guid) {
    && (forall s <- kept :: s.denom != 0) && Sum(Values(kept)).Some?
    && var sum := Sum(Values(kept)).value;
       if sum.num == 0 then splits == kept
       else |splits| == |kept| + 1 && splits[..|kept|] == kept && IsBalancing(splits[|kept|], account, sum)
  }

  lemma BalanceAdds(b: Books, book: Guid, pick: Option<Guid>, kept: seq<Split>)
    requires (forall s <- kept :: s.denom != 0) && Balance(b, book, pick, kept).Ok?
    ensures IsBalanced(kept, Balance(b, book, pick, kept).value.1, if pick.Some? then pick.value else b.next)
  {
    hide Sum, Values;
  }

  predicate IsBalancing(s: Split, account: Guid, sum: Numeric) {
    && s.account == account && s.num == Wrap(-sum.num) && s.denom == sum.denom
    && s.quantityNum == s.num && s.quantityDenom == s.denom && s.mark.Unreconciled?
  }

  // Every split of t is on an account of its book that is no placeholder.
  predicate OnUsableAccounts(b: Books, t: Txn) {
    forall s <- t.splits ::
      s.account in b.accounts && b.accounts[s.account].book == t.book && !b.accounts[s.account].placeholder
  }

  lemma CheckedAreUsable(b: Books, book: Guid, splits: seq<Split>)
    requires CheckAccounts(b, book, splits).None?
    ensures forall s <- splits ::
      s.account in b.accounts && b.accounts[s.account].book == book && !b.accounts[s.account].placeholder
  {
    forall s <- splits
      ensures s.account in b.accounts && b.accounts[s.account].book == book && !b.accounts[s.account].placeholder
    {
      assert CheckAccount(b, book, s.account).None?;
    }
  }

  lemma CreateUsesUsableAccounts(b: Books, book: Guid, req: Request, pick: Option<Guid>)
    requires Create(b, book, req, pick).Ok?
    ensures var b' := Create(b, book, req, pick).value;
      b'.next > 0 && b'.next - 1 in b'.txns && OnUsableAccounts(b', b'.txns[b'.next - 1])
  {
    hide Sum, Kept, CheckAccounts, Values, CheckAccount;
    var (b1, splits) := Balance(b, book, pick, Kept(req.splits).value).value;
    CheckedAreUsable(b1, book, splits);
  }

  lemma UpdateUsesUsableAccounts(b: Books, book: Guid, g: Guid, req: Request)
    requires Update(b, book, g, req).Ok?
    ensures var b' := Update(b, book, g, req).value;
      g in b'.txns && OnUsableAccounts(b', b'.txns[g])
  {
    hide Sum, Kept, CheckAccounts, Values, CheckAccount, Update;
    UpdatedSplits(b, book, g, req);
    var kept := Kept(req.splits).value;
    CheckedAreUsable(b, book, kept);
    forall s <- Unmarked(kept)
      ensures s.account in b.accounts && b.accounts[s.account].book == book && !b.accounts[s.account].placeholder
    {
      var i :| 0 <= i < |kept| && Unmarked(kept)[i] == s;
      assert kept[i] in kept;
    }
  }

  // ------------------------------------------------------------ what is refused

  // The account is there, in the book, and a placeholder.
  predicate OnPlaceholder(b: Books, book: Guid, s: Split) {
    s.account in b.accounts && b.accounts[s.account].book == book && b.accounts[s.account].placeholder
  }

  // All accounts are there, some are placeholders: that is the error.
  lemma {:induction false} PlaceholderIsTheError(b: Books, book: Guid, splits: seq<Split>)
    requires forall s <- splits :: s.account in b.accounts && b.accounts[s.account].book == book
    requires exists s <- splits :: OnPlaceholder(b, book, s)
    ensures CheckAccounts(b, book, splits) == Some(PlaceholderAccount)
  {
    var init, last := splits[..|splits| - 1], splits[|splits| - 1];
    assert splits == init + [last];
    if exists s <- init :: OnPlaceholder(b, book, s) {
      PlaceholderIsTheError(b, book, init);
    } else {
      forall s <- init
        ensures CheckAccount(b, book, s.account).None?
      {
        assert s in splits;
      }
    }
  }

  // A request that is in order but for a split on a placeholder account is refused
  // for that, whether it has to be balanced or not.
  lemma CreateRefusesPlaceholders(b: Books, book: Guid, req: Request, pick: Option<Guid>)
    requires Kept(req.splits).Ok? && |Kept(req.splits).value| >= 2
    requires Balance(b, book, pick, Kept(req.splits).value).Ok?
    requires pick.Some? ==> pick.value in b.accounts && b.accounts[pick.value].book == book
    requires forall s <- req.splits :: s.num != 0 ==> s.account in b.accounts && b.accounts[s.account].book == book
    requires exists s <- req.splits :: s.num != 0 && OnPlaceholder(b, book, s)
    requires forall a <- b.accounts :: a < b.next
    ensures Create(b, book, req, pick) == Err(PlaceholderAccount)
  {
    hide Sum, Kept, CheckAccounts, Values, CheckAccount;
    var kept := Kept(req.splits).value;
    var (b1, splits) := Balance(b, book, pick, kept).value;
    var s :| s in req.splits && s.num != 0 && OnPlaceholder(b, book, s);
    KeptHas(req.splits, s);
    assert s in splits && OnPlaceholder(b1, book, s);
    forall t <- splits
      ensures t.account in b1.accounts && b1.accounts[t.account].book == book
    {
      KeptHas(req.splits, t);
    }
    PlaceholderIsTheError(b1, book, splits);
  }

  lemma UpdateRefusesPlaceholders(b: Books, book: Guid, g: Guid, req: Request)
    requires g in b.txns && b.txns[g].book == book
    requires Kept(req.splits).Ok? && |Kept(req.splits).value| >= 2
    requires Sum(Values(Kept(req.splits).value)).Some? && Sum(Values(Kept(req.splits).value)).value.num == 0
    requires forall s <- req.splits :: s.num != 0 ==> s.account in b.accounts && b.accounts[s.account].book == book
    requires exists s <- req.splits :: s.num != 0 && OnPlaceholder(b, book, s)
    ensures Update(b, book, g, req) == Err(PlaceholderAccount)
  {
    hide Sum, Kept, CheckAccounts, Values, CheckAccount;
    var kept := Kept(req.splits).value;
    var s :| s in req.splits && s.num != 0 && OnPlaceholder(b, book, s);
    KeptHas(req.splits, s);
    forall t <- kept
      ensures t.account in b.accounts && b.accounts[t.account].book == book
    {
      KeptHas(req.splits, t);
    }
    PlaceholderIsTheError(b, book, kept);
  }

  // A split on an account that is not in the book is refused for that, if no
  // placeholder stands before it.
  lemma {:induction false} ForeignAccountIsTheError(b: Books, book: Guid, splits: seq<Split>)
    requires forall s <- splits :: !OnPlaceholder(b, book, s)
    requires exists s <- splits :: s.account !in b.accounts || b.accounts[s.account].book != book
    ensures CheckAccounts(b, book, splits) == Some(AccountNotFound)
  {
    var init, last := splits[..|splits| - 1], splits[|splits| - 1];
    assert splits == init + [last];
    if exists s <- init :: s.account !in b.accounts || b.accounts[s.account].book != book {
      ForeignAccountIsTheError(b, book, init);
    } else {
      forall s <- init
        ensures CheckAccount(b, book, s.account).None?
      {
        assert s in splits && !OnPlaceholder(b, book, s);
      }
      assert last in splits;
    }
  }

  // Nothing to post is too little, whatever else is wrong; and a create that has an
  // invalid split is refused for it.
  lemma CreateErrors(b: Books, book: Guid, req: Request, pick: Option<Guid>)
    ensures (forall s <- req.splits :: s.num == 0) ==> Create(b, book, req, pick) == Err(TooFewSplits)
    ensures (exists s <- req.splits :: s.num != 0 && (s.denom == 0 || s.quantityDenom == 0)) ==>
      Create(b, book, req, pick) == Err(InvalidSplit)
  {
    InvalidIff(req.splits);
    if forall s <- req.splits :: s.num == 0 {
      NothingKept(req.splits);
    }
  }

  lemma {:induction false} NothingKept(splits: seq<Split>)
    requires forall s <- splits :: s.num == 0
    ensures Kept(splits) == Ok([])
  {
    if |splits| != 0 {
      NothingKept(splits[..|splits| - 1]);
    }
  }

  // An update is refused for the first of: the transaction, the splits, their sum,
  // their number.
  lemma UpdateErrors(b: Books, book: Guid, g: Guid, req: Request)
    ensures g !in b.txns || b.txns[g].book != book ==> Update(b, book, g, req) == Err(NotFound)
    ensures g in b.txns && b.txns[g].book == book ==>
      && ((exists s <- req.splits :: s.num != 0 && (s.denom == 0 || s.quantityDenom == 0)) ==>
          Update(b, book, g, req) == Err(InvalidSplit))
      && (Kept(req.splits).Ok? ==>
          var kept := Kept(req.splits).value;
          && (forall s <- kept :: s.denom != 0)
          && (Sum(Values(kept)).Some? && Sum(Values(kept)).value.num != 0 ==>
              Update(b, book, g, req) == Err(Unbalanced))
          && (Sum(Values(kept)).Some? && Sum(Values(kept)).value.num == 0 && |kept| < 2 ==>
              Update(b, book, g, req) == Err(TooFewSplits)))
  {
    hide Sum, Kept, CheckAccounts, Values;
    InvalidIff(req.splits);
  }

  // Deleting works on the book's own transactions, and on no others.
  lemma DeletableIff(b: Books, book: Guid, g: Guid)
    ensures Delete(b, book, g).Ok? <==> g in b.txns && b.txns[g].book == book
    ensures Delete(b, book, g).Ok? ==>
      var b' := Delete(b, book, g).value;
      b' == b.(txns := b'.txns) && b'.txns.Keys == b.txns.Keys - {g} && forall h <- b'.txns :: b'.txns[h] == b.txns[h]
  {
  }

  // ------------------------------------------------------------ other books

  // Whatever is done to one book, the transactions and accounts of others stay.
  predicate OthersStay(b: Books, b': Books, book: Guid) {
    && (forall g :: g in b.txns && b.txns[g].book != book ==> g in b'.txns && b'.txns[g] == b.txns[g])
    && (forall g :: g in b'.txns && b'.txns[g].book != book ==> g in b.txns)
    && (forall a :: a in b.accounts ==> a in b'.accounts && b'.accounts[a] == b.accounts[a])
    && (forall a :: a in b'.accounts && b'.accounts[a].book != book ==> a in b.accounts)
    && b'.roots == b.roots
  }

  lemma BooksAreSeparate(b: Books, book: Guid, g: Guid, req: Request, pick: Option<Guid>)
    requires BelowNext(b)
    ensures Create(b, book, req, pick).Ok? ==> OthersStay(b, Create(b, book, req, pick).value, book)
    ensures Update(b, book, g, req).Ok? ==> OthersStay(b, Update(b, book, g, req).value, book)
    ensures Delete(b, book, g).Ok? ==> OthersStay(b, Delete(b, book, g).value, book)
  {
    hide Sum, Kept, CheckAccounts, Values;
  }

  // ------------------------------------------------------------ the balancing account

  // Where the book has no Imbalance account yet, balancing makes one, under the
  // book's root and open for posting, and from then on every balancing finds it.
  lemma ImbalanceIsMadeOnce(b: Books, book: Guid, req: Request)
    requires BelowNext(b) && IsImbalancePick(b, book, None)
    requires Create(b, book, req, None).Ok?
    requires var kept := Kept(req.splits).value; Sum(Values(kept)).Some? && Sum(Values(kept)).value.num != 0
    ensures var b' := Create(b, book, req, None).value;
      && b'.accounts.Keys == b.accounts.Keys + {b.next} && b.next !in b.accounts
      && var a := b'.accounts[b.next];
      && a.book == book && a.name == "Imbalance" && a.kind.Equity? && !a.placeholder && a.link.None?
      && book in b.roots && a.parent.Some? && a.parent == b.roots[book]
      && b'.next > 0 && b'.next - 1 in b'.txns
      && (exists s <- b'.txns[b'.next - 1].splits :: s.account == b.next)
      && (forall pick :: IsImbalancePick(b', book, pick) <==> pick == Some(b.next))
  {
    hide Sum, Kept, CheckAccounts, Values;
    var kept := Kept(req.splits).value;
    var b' := Create(b, book, req, None).value;
    var splits := b'.txns[b'.next - 1].splits;
    assert splits[|kept|] in splits && splits[|kept|].account == b.next;
    assert IsImbalancePick(b', book, Some(b.next));
  }

  // It needs a root to hang under.
  lemma BalancingNeedsARoot(b: Books, book: Guid, req: Request)
    requires Kept(req.splits).Ok?
    requires var kept := Kept(req.splits).value; Sum(Values(kept)).Some? && Sum(Values(kept)).value.num != 0
    requires book !in b.roots || b.roots[book].None?
    ensures Create(b, book, req, None) == Err(NoRoot)
  {
    hide Sum, Kept, CheckAccounts, Values;
  }
}
