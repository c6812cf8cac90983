/**
 Double-entry posting (CreateTransaction, UpdateTransaction and
 DeleteTransaction in backend/internal/services/transaction_service.go).
 Books is the value of the tables; the functions below are what each service
 call does to them, and the TransactionService class holds the loops that do it.
 */
module Ledger {
  import opened Wrappers
  import opened Numeric
  import opened Exactness

  type Guid = nat

  datatype Kind =
    | Root | Asset | Bank | Cash | Liability | Credit
    | Income | Expense | Equity | Receivable | Payable

  // accounts.metadata->'plaid': which item, and which account at the bank
  datatype Link = Link(item: Guid, bankAccount: nat)

  datatype Account = Account(
    book: Guid, name: string, kind: Kind, parent: Option<Guid>, placeholder: bool, link: Option<Link>)

  datatype Mark = Unreconciled | Cleared | Reconciled

  datatype Split = Split(
    account: Guid, num: int, denom: int, quantityNum: int, quantityDenom: int, mark: Mark)

  // plaidId is metadata->'plaid'->>'transaction_id'
  datatype Txn = Txn(book: Guid, plaidId: Option<nat>, date: int, description: string, splits: seq<Split>)

  datatype Books = Books(
    accounts: map<Guid, Account>, txns: map<Guid, Txn>, roots: map<Guid, Option<Guid>>, next: Guid)

  datatype Request = Request(plaidId: Option<nat>, date: int, description: string, splits: seq<Split>)

  datatype Error =
    | InvalidSplit | Unbalanced | TooFewSplits | AccountNotFound | PlaceholderAccount
    | NoRoot | DuplicatePlaidId | NotFound | Panic

  // ------------------------------------------------------------ validation

  // Zero-value splits are dropped; the first other split with a zero
  // denominator is an error.
  function Kept(splits: seq<Split>): (r: Result<seq<Split>, Error>)
    ensures r.Ok? ==> forall s <- r.value :: s in splits && s.num != 0 && s.denom != 0 && s.quantityDenom != 0
    ensures r.Err? ==> r.error == InvalidSplit
  {
    if |splits| == 0 then Ok([])
    else
      var s := splits[|splits| - 1];
      match Kept(splits[..|splits| - 1])
      case Err(e) => Err(e)
      case Ok(rest) =>
        if s.num == 0 then Ok(rest)
        else if s.denom == 0 || s.quantityDenom == 0 then Err(InvalidSplit)
        else Ok(rest + [s])
  }

  function Values(splits: seq<Split>): (r: seq<Numeric>)
    requires forall s <- splits :: s.denom != 0
    ensures |r| == |splits| && forall i :: 0 <= i < |r| ==> r[i] == New(splits[i].num, splits[i].denom)
  {
    seq(|splits|, i requires 0 <= i < |splits| => New(splits[i].num, splits[i].denom))
  }

  function CheckAccount(b: Books, book: Guid, account: Guid): Option<Error> {
    if account !in b.accounts || b.accounts[account].book != book then Some(AccountNotFound)
    else if b.accounts[account].placeholder then Some(PlaceholderAccount)
    else None
  }

  // The first split aimed at a missing, foreign or placeholder account decides.
  function CheckAccounts(b: Books, book: Guid, splits: seq<Split>): (r: Option<Error>)
    ensures r.None? <==> forall s <- splits :: CheckAccount(b, book, s.account).None?
    ensures r.Some? ==> r.value == AccountNotFound || r.value == PlaceholderAccount
  {
    if |splits| == 0 then None
    else match CheckAccounts(b, book, splits[..|splits| - 1])
      case Some(e) => Some(e)
      case None => CheckAccount(b, book, splits[|splits| - 1].account)
  }

  predicate HasPlaidId(b: Books, book: Guid, id: nat) {
    exists g :: g in b.txns && b.txns[g].book == book && b.txns[g].plaidId == Some(id)
  }

  // ------------------------------------------------------------ operations

  // Where the auto-balancing split goes: pick is the row that
  // SELECT ... name = 'Imbalance' LIMIT 1 returned, if it returned one.
  predicate IsImbalancePick(b: Books, book: Guid, pick: Option<Guid>) {
    match pick
    case Some(g) => g in b.accounts && b.accounts[g].book == book && b.accounts[g].name == "Imbalance"
    case None => forall g :: g in b.accounts && b.accounts[g].book == book ==> b.accounts[g].name != "Imbalance"
  }

  function ImbalanceAccount(b: Books, book: Guid, pick: Option<Guid>): Result<(Books, Guid), Error> {
    match pick
    case Some(g) => Ok((b, g))
    case None =>
      if book !in b.roots || b.roots[book].None? then Err(NoRoot)
      else
        var acct := Account(book, "Imbalance", Equity, b.roots[book], false, None);
        Ok((b.(accounts := b.accounts[b.next := acct], next := b.next + 1), b.next))
  }

  function BalancingSplit(account: Guid, sum: Numeric): (s: Split)
    ensures s.account == account
  {
    var neg := Neg(sum);
    Split(account, neg.num, neg.denom, neg.num, neg.denom, Unreconciled)
  }

  // Splits and (possibly enlarged) books after auto-balancing.
  function Balance(b: Books, book: Guid, pick: Option<Guid>, splits: seq<Split>): Result<(Books, seq<Split>), Error>
    requires forall s <- splits :: s.denom != 0
  {
    match Sum(Values(splits))
    case None => Err(Panic)
    case Some(sum) =>
      if sum.num == 0 then Ok((b, splits))
      else match ImbalanceAccount(b, book, pick)
        case Err(e) => Err(e)
        case Ok((b', account)) => Ok((b', splits + [BalancingSplit(account, sum)]))
  }

  // The insert itself, with the unique index on the Plaid id as its guard.
  function Post(b: Books, book: Guid, req: Request, splits: seq<Split>): Result<Books, Error> {
    if |splits| < 2 then Err(TooFewSplits)
    else match CheckAccounts(b, book, splits)
      case Some(e) => Err(e)
      case None =>
        if req.plaidId.Some? && HasPlaidId(b, book, req.plaidId.value) then Err(DuplicatePlaidId)
        else
          var txn := Txn(book, req.plaidId, req.date, req.description, splits);
          Ok(b.(txns := b.txns[b.next := txn], next := b.next + 1))
  }

  function Create(b: Books, book: Guid, req: Request, pick: Option<Guid>): Result<Books, Error> {
    match Kept(req.splits)
    case Err(e) => Err(e)
    case Ok(kept) =>
      match Balance(b, book, pick, kept)
      case Err(e) => Err(e)
      case Ok((b', splits)) => Post(b', book, req, splits)
  }

  function Unmarked(splits: seq<Split>): (r: seq<Split>)
    ensures |r| == |splits| && forall i :: 0 <= i < |r| ==> r[i] == splits[i].(mark := Unreconciled)
  {
    seq(|splits|, i requires 0 <= i < |splits| => splits[i].(mark := Unreconciled))
  }

  // Update keeps the metadata, replaces the splits and un-reconciles them.
  function Update(b: Books, book: Guid, g: Guid, req: Request): Result<Books, Error> {
    if g !in b.txns || b.txns[g].book != book then Err(NotFound)
    else match Kept(req.splits)
      case Err(e) => Err(e)
      case Ok(kept) =>
        match Sum(Values(kept))
        case None => Err(Panic)
        case Some(sum) =>
          if sum.num != 0 then Err(Unbalanced)
          else if |kept| < 2 then Err(TooFewSplits)
          else match CheckAccounts(b, book, kept)
            case Some(e) => Err(e)
            case None =>
              var txn := b.txns[g].(date := req.date, description := req.description, splits := Unmarked(kept));
              Ok(b.(txns := b.txns[g := txn]))
  }

  function Delete(b: Books, book: Guid, g: Guid): Result<Books, Error> {
    if g !in b.txns || b.txns[g].book != book then Err(NotFound)
    else Ok(b.(txns := b.txns - {g}))
  }

  // ------------------------------------------------------------ the invariant

  ghost function SplitSum(splits: seq<Split>): real
    requires forall s <- splits :: s.denom != 0
  {
    if |splits| == 0 then 0.0
    else splits[0].num as real / splits[0].denom as real + SplitSum(splits[1..])
  }

  ghost predicate WellPosted(accounts: map<Guid, Account>, t: Txn) {
    && |t.splits| >= 2
    && (forall s <- t.splits :: s.num != 0 && s.denom != 0)
    && SplitSum(t.splits) == 0.0
    && (forall s <- t.splits :: s.account in accounts && accounts[s.account].book == t.book)
  }

  ghost predicate Valid(b: Books) {
    && (forall g <- b.txns :: g < b.next && WellPosted(b.accounts, b.txns[g]))
    && (forall g <- b.accounts :: g < b.next)
  }

  // Parents and roots stay within their books.
  predicate Contained(b: Books) {
    && (forall a <- b.accounts ::
          b.accounts[a].parent.Some? ==> OfBook(b, b.accounts[a].book, b.accounts[a].parent.value))
    && (forall k <- b.roots :: b.roots[k].Some? ==> OfBook(b, k, b.roots[k].value))
  }

  predicate OfBook(b: Books, book: Guid, account: Guid) {
    account in b.accounts && b.accounts[account].book == book
  }

  // Guids below next have been given out.
  predicate BelowNext(b: Books) {
    (forall g <- b.txns :: g < b.next) && (forall a <- b.accounts :: a < b.next)
  }

  // Where a negative denominator has both fields negated, they can be.
  predicate Negatable(splits: seq<Split>) {
    forall s <- splits :: s.denom < 0 ==> Abs(s.num) <= INT64_MAX && Abs(s.denom) <= INT64_MAX
  }

  // In some common unit 1/d every running total fits, and so does the total negated.
  ghost predicate Summable(splits: seq<Split>, d: int) {
    && Negatable(splits)
    && (Kept(splits).Ok? ==>
        var values := Values(Kept(splits).value);
        PartialsFit(values, d) && FitsReduced(-UnitSum(values, d), d))
  }

  lemma {:induction false} SplitSumIsRealSum(splits: seq<Split>)
    requires (forall s <- splits :: s.denom != 0) && Negatable(splits)
    ensures forall v <- Values(splits) :: v.denom != 0
    ensures SplitSum(splits) == RealSum(Values(splits))
  {
    var vs := Values(splits);
    assert forall i :: 0 <= i < |vs| ==> vs[i].denom != 0;
    if |splits| != 0 {
      SplitSumIsRealSum(splits[1..]);
      assert Values(splits)[1..] == Values(splits[1..]);
    }
  }

  lemma {:induction false} SplitSumSnoc(splits: seq<Split>, s: Split)
    requires s.denom != 0 && forall t <- splits :: t.denom != 0
    ensures SplitSum(splits + [s]) == SplitSum(splits) + s.num as real / s.denom as real
  {
    if |splits| == 0 {
      assert splits + [s] == [s];
      assert SplitSum([s][1..]) == 0.0;
    } else {
      assert (splits + [s])[1..] == splits[1..] + [s];
      SplitSumSnoc(splits[1..], s);
    }
  }

  lemma {:induction false} UnmarkedKeepsSum(splits: seq<Split>)
    requires forall s <- splits :: s.denom != 0
    ensures forall s <- Unmarked(splits) :: s.denom != 0
    ensures SplitSum(Unmarked(splits)) == SplitSum(splits)
  {
    var u := Unmarked(splits);
    assert forall i :: 0 <= i < |u| ==> u[i].denom != 0;
    if |splits| != 0 {
      assert u[1..] == Unmarked(splits[1..]);
      UnmarkedKeepsSum(splits[1..]);
    }
  }

  lemma SameDenominator(m: int, n: int, k: int)
    requires m > 0
    ensures n as real / m as real + k as real / m as real == 0.0 <==> k == -n
  {
    assert n as real / m as real + k as real / m as real == (n + k) as real / m as real;
    ZeroQuotient(n + k, m);
  }

  lemma WrapNegated(n: int)
    ensures Wrap(-Wrap(n)) == Wrap(-n)
    ensures Wrap(n) == 0 ==> (n == 0 <==> Fits(-n))
    ensures Wrap(-n) == -n <==> Fits(-n)
    ensures Wrap(n) != 0 ==> Wrap(-n) != 0
  {
    var k := (n + 0x8000_0000_0000_0000) / 0x1_0000_0000_0000_0000;
    assert Wrap(n) == n - k * 0x1_0000_0000_0000_0000;
    var z := -n + 0x8000_0000_0000_0000;
    assert (z + k * 0x1_0000_0000_0000_0000) % 0x1_0000_0000_0000_0000 == z % 0x1_0000_0000_0000_0000;
  }

  // When the int64 sum of splits worth n/m is n cut to 64 bits over m, what is
  // posted sums to zero if and only if -n fits.
  lemma BalanceAfterSum(b: Books, book: Guid, pick: Option<Guid>, splits: seq<Split>, n: int, m: int)
    requires forall s <- splits :: s.num != 0 && s.denom != 0
    requires m > 0 && SplitSum(splits) == n as real / m as real
    requires Sum(Values(splits)) == Some(Numeric(Wrap(n), m))
    requires Balance(b, book, pick, splits).Ok?
    ensures var r := Balance(b, book, pick, splits).value;
      && (forall s <- r.1 :: s.num != 0 && s.denom != 0)
      && (SplitSum(r.1) == 0.0 <==> Fits(-n))
      && (Wrap(n) == 0 <==> r == (b, splits))
  {
    hide Sum, SplitSum, Wrap;
    WrapNegated(n);
    var r := Balance(b, book, pick, splits).value;
    if Wrap(n) == 0 {
      ZeroQuotient(n, m);
    } else {
      var s := r.1[|splits|];
      assert r.1 == splits + [s] && s == BalancingSplit(s.account, Numeric(Wrap(n), m));
      SplitSumSnoc(splits, s);
      SameDenominator(m, n, s.num);
      assert |r.1| != |splits|;
    }
  }

  // The totals before the last split fit: what auto-balancing posts is exact if
  // and only if the negated total, in lowest terms, fits.
  lemma BalanceIsExactIff(b: Books, book: Guid, pick: Option<Guid>, splits: seq<Split>, d: int)
    requires (forall s <- splits :: s.num != 0 && s.denom != 0) && Negatable(splits)
    requires EarlierPartialsFit(Values(splits), d)
    requires Balance(b, book, pick, splits).Ok?
    ensures var r := Balance(b, book, pick, splits).value;
      && (forall s <- r.1 :: s.num != 0 && s.denom != 0)
      && (SplitSum(r.1) == 0.0 <==> FitsReduced(-UnitSum(Values(splits), d), d))
  {
    hide Sum, RealSum, Balance, Lowest, SplitSum;
    var values := Values(splits);
    SplitSumIsRealSum(splits);
    SumWrapsLast(values, d);
    RealSumInUnits(values, d);
    var u := UnitSum(values, d);
    var (n, m) := Lowest(u, d);
    SameQuotient(n, m, u, d);
    BalanceAfterSum(b, book, pick, splits, n, m);
    LowestNegated(u, d);
  }

  // Auto-balancing within the bound: afterwards the splits sum to zero exactly,
  // and one is added only if they did not.
  lemma BalanceIsExact(b: Books, book: Guid, pick: Option<Guid>, splits: seq<Split>, d: int)
    requires (forall s <- splits :: s.num != 0 && s.denom != 0) && Negatable(splits)
    requires PartialsFit(Values(splits), d) && FitsReduced(-UnitSum(Values(splits), d), d)
    requires Balance(b, book, pick, splits).Ok?
    ensures var r := Balance(b, book, pick, splits).value;
            && (forall s <- r.1 :: s.num != 0 && s.denom != 0)
            && SplitSum(r.1) == 0.0
            && (SplitSum(splits) == 0.0 <==> r == (b, splits))
  {
    hide Sum, RealSum, Balance, Lowest, SplitSum;
    var values := Values(splits);
    SplitSumIsRealSum(splits);
    SumIsExact(values, d);
    RealSumInUnits(values, d);
    var u := UnitSum(values, d);
    var (n, m) := Lowest(u, d);
    SameQuotient(n, m, u, d);
    assert values[..|values|] == values;
    BalanceAfterSum(b, book, pick, splits, n, m);
    LowestNegated(u, d);
  }

  // The auto-balancing account, if one had to be made, disturbs nothing.
  lemma ImbalanceAccountKeepsValid(b: Books, book: Guid, pick: Option<Guid>)
    requires Valid(b) && ImbalanceAccount(b, book, pick).Ok?
    ensures var b' := ImbalanceAccount(b, book, pick).value.0;
            && Valid(b') && b'.txns == b.txns && b'.next >= b.next
            && (forall g <- b.accounts :: g in b'.accounts && b'.accounts[g] == b.accounts[g])
  {
    var b' := ImbalanceAccount(b, book, pick).value.0;
    forall g <- b.txns
      ensures WellPosted(b'.accounts, b'.txns[g])
    {
      assert WellPosted(b.accounts, b.txns[g]);
    }
  }

  lemma PostKeepsValid(b: Books, book: Guid, req: Request, splits: seq<Split>)
    requires Valid(b) && Post(b, book, req, splits).Ok?
    requires (forall s <- splits :: s.num != 0 && s.denom != 0) && SplitSum(splits) == 0.0
    ensures var b' := Post(b, book, req, splits).value;
            && Valid(b') && b'.accounts == b.accounts
            && b.next !in b.txns
            && b'.txns == b.txns[b.next := Txn(book, req.plaidId, req.date, req.description, splits)]
  {
    var b' := Post(b, book, req, splits).value;
    forall s <- splits
      ensures s.account in b.accounts && b.accounts[s.account].book == book
    {
      assert CheckAccount(b, book, s.account).None?;
    }
    assert WellPosted(b.accounts, b'.txns[b.next]);
  }

  // CreateTransaction keeps every transaction zero-sum, adds exactly one, and
  // leaves the others and all existing accounts as they were.
  lemma CreateKeepsValid(b: Books, book: Guid, req: Request, pick: Option<Guid>, d: int)
    requires Valid(b) && Summable(req.splits, d)
    requires Create(b, book, req, pick).Ok?
    ensures var b' := Create(b, book, req, pick).value;
            && Valid(b')
            && b'.next > 0 && b'.next - 1 !in b.txns && b'.txns.Keys == b.txns.Keys + {b'.next - 1}
            && b'.txns[b'.next - 1].book == book && b'.txns[b'.next - 1].plaidId == req.plaidId
            && (forall g <- b.txns :: b'.txns[g] == b.txns[g])
            && (forall g <- b.accounts :: g in b'.accounts && b'.accounts[g] == b.accounts[g])
  {
    hide Sum, Kept, SplitSum, CheckAccounts, WellPosted, FitsReduced, PartialsFit;
    var kept := Kept(req.splits).value;
    BalanceIsExact(b, book, pick, kept, d);
    var (b1, splits) := Balance(b, book, pick, kept).value;
    if b1 != b {
      ImbalanceAccountKeepsValid(b, book, pick);
    }
    PostKeepsValid(b1, book, req, splits);
  }

  // What an update that is accepted writes.
  lemma UpdatedSplits(b: Books, book: Guid, g: Guid, req: Request)
    requires Update(b, book, g, req).Ok?
    ensures Kept(req.splits).Ok? && g in b.txns && b.txns[g].book == book
    ensures var kept := Kept(req.splits).value;
      && Sum(Values(kept)).Some? && Sum(Values(kept)).value.num == 0
      && |kept| >= 2 && CheckAccounts(b, book, kept).None?
      && Update(b, book, g, req).value == b.(txns := b.txns[g := b.txns[g].(
           date := req.date, description := req.description, splits := Unmarked(kept))])
  {
    hide Sum, Kept, CheckAccounts, Values;
  }

  lemma UnmarkedIsWellPosted(b: Books, book: Guid, kept: seq<Split>, t: Txn)
    requires t.book == book && t.splits == Unmarked(kept) && |kept| >= 2 && CheckAccounts(b, book, kept).None?
    requires (forall s <- kept :: s.num != 0 && s.denom != 0) && SplitSum(kept) == 0.0
    ensures WellPosted(b.accounts, t)
    ensures forall s <- t.splits :: s.mark == Unreconciled
  {
    hide SplitSum, CheckAccounts;
    UnmarkedKeepsSum(kept);
    var u := Unmarked(kept);
    forall s <- u
      ensures s.num != 0 && s.denom != 0 && s.account in b.accounts && b.accounts[s.account].book == book
      ensures s.mark == Unreconciled
    {
      var i :| 0 <= i < |u| && u[i] == s;
      assert CheckAccount(b, book, kept[i].account).None?;
    }
  }

  lemma UpdateKeepsValid(b: Books, book: Guid, g: Guid, req: Request, d: int)
    requires Valid(b) && Summable(req.splits, d)
    requires Update(b, book, g, req).Ok?
    ensures var b' := Update(b, book, g, req).value;
            && Valid(b') && b'.accounts == b.accounts
            && b'.txns.Keys == b.txns.Keys
            && b'.txns[g].plaidId == b.txns[g].plaidId
            && (forall s <- b'.txns[g].splits :: s.mark == Unreconciled)
            && (forall h <- b.txns :: h != g ==> b'.txns[h] == b.txns[h])
  {
    hide Sum, Kept, SplitSum, RealSum, CheckAccounts, FitsReduced, PartialsFit, WellPosted, Update, Values, Unmarked,
      UnitSum;
    UpdatedSplits(b, book, g, req);
    var kept := Kept(req.splits).value;
    SplitSumIsRealSum(kept);
    SumIsExact(Values(kept), d);
    var b' := Update(b, book, g, req).value;
    UnmarkedIsWellPosted(b, book, kept, b'.txns[g]);
    assert b'.txns.Keys == b.txns.Keys;
  }

  lemma DeleteKeepsValid(b: Books, book: Guid, g: Guid)
    requires Valid(b) && Delete(b, book, g).Ok?
    ensures Valid(Delete(b, book, g).value)
    ensures Delete(b, book, g).value.txns == map h | h in b.txns && h != g :: b.txns[h]
  {
  }

  // ------------------------------------------------------------ a bound a caller can check

  // All splits are whole numbers of 1/d units, none of more than size.
  predicate AtMost(splits: seq<Split>, d: int, size: nat) {
    forall s <- splits :: s.denom > 0 && d % s.denom == 0 && Abs(s.num * (d / s.denom)) <= size
  }

  lemma {:induction false} KeptIsShorter(splits: seq<Split>)
    ensures Kept(splits).Ok? ==> |Kept(splits).value| <= |splits|
  {
    if |splits| != 0 {
      KeptIsShorter(splits[..|splits| - 1]);
    }
  }

  lemma {:induction false} UnitSumIsAtMost(values: seq<Numeric>, d: int, size: nat)
    requires forall v <- values :: v.denom > 0 && Abs(Units(v, d)) <= size
    ensures Abs(UnitSum(values, d)) <= |values| * size
  {
    hide Units;
    if |values| != 0 {
      UnitSumIsAtMost(values[1..], d, size);
      MulDist(size, |values[1..]|, 1);
      assert |values| * size == |values[1..]| * size + size;
    }
  }

  // As many splits as fit int64 at the largest size: any order of adding is exact.
  lemma SmallIsSummable(splits: seq<Split>, d: int, size: nat)
    requires 0 < d <= INT64_MAX && AtMost(splits, d, size) && |splits| * size <= INT64_MAX
    ensures Summable(splits, d)
  {
    hide FitsReduced, UnitSum, Kept, Values, PartialsFit;
    if Kept(splits).Ok? {
      var kept := Kept(splits).value;
      var values := Values(kept);
      KeptIsShorter(splits);
      SmallValues(kept, splits, d, size);
      SmallPartials(values, d, size, |splits|);
      SmallPartialsFit(values, d);
      assert values[..|values|] == values;
      SmallNegatedFits(UnitSum(values, d), d);
    }
  }

  lemma SmallValues(kept: seq<Split>, splits: seq<Split>, d: int, size: nat)
    requires AtMost(splits, d, size) && forall s <- kept :: s in splits
    ensures forall s <- kept :: s.denom != 0
    ensures forall v <- Values(kept) :: v.denom > 0 && d % v.denom == 0 && Abs(Units(v, d)) <= size
  {
    var values := Values(kept);
    forall v <- values
      ensures v.denom > 0 && d % v.denom == 0 && Abs(Units(v, d)) <= size
    {
      var i :| 0 <= i < |values| && values[i] == v;
      assert kept[i] in splits && v == Numeric(kept[i].num, kept[i].denom);
    }
  }

  lemma SmallPartials(values: seq<Numeric>, d: int, size: nat, n: nat)
    requires |values| <= n && n * size <= INT64_MAX
    requires forall v <- values :: v.denom > 0 && Abs(Units(v, d)) <= size
    ensures forall k :: 0 <= k <= |values| ==> Abs(UnitSum(values[..k], d)) <= INT64_MAX
  {
    hide UnitSum, Units;
    forall k | 0 <= k <= |values|
      ensures Abs(UnitSum(values[..k], d)) <= INT64_MAX
    {
      UnitSumIsAtMost(values[..k], d, size);
      MulAtMost(k, n, size);
    }
  }

  lemma MulAtMost(k: nat, n: nat, size: nat)
    requires k <= n
    ensures k * size <= n * size
  {
  }

  lemma SmallNegatedFits(u: int, d: int)
    requires 0 < d <= INT64_MAX && Abs(u) <= INT64_MAX
    ensures FitsReduced(-u, d)
  {
    var low := Lowest(-u, d);
    LowestTermsAreSmallest(low.0, low.1, -u, d);
  }

  // ------------------------------------------------------------ the bound is needed

  lemma AddWhole(a: int, b: int)
    ensures Add(Numeric(a, 1), Numeric(b, 1)) == Numeric(Wrap(a + b), 1)
  {
    var p := a * 1 + b * 1;
    assert Gcd(Abs(p), 1) == Gcd(1, Abs(p) % 1) == 1;
    assert Lowest(p, 1) == (p, 1);
  }

  lemma WrapTwice(x: int, y: int)
    ensures Wrap(Wrap(x) + y) == Wrap(x + y)
  {
    var k := (x + 0x8000_0000_0000_0000) / 0x1_0000_0000_0000_0000;
    assert Wrap(x) == x - k * 0x1_0000_0000_0000_0000;
    var z := x + y + 0x8000_0000_0000_0000;
    assert (z - k * 0x1_0000_0000_0000_0000) % 0x1_0000_0000_0000_0000 == z % 0x1_0000_0000_0000_0000;
  }

  // Of whole units, the int64 sum is the true total modulo 2^64, whatever
  // happened on the way.
  lemma {:induction false} SumOfWholeUnits(values: seq<Numeric>, acc: int)
    requires forall v <- values :: v.denom == 1
    requires Fits(acc)
    ensures SumFrom(Numeric(acc, 1), values) == Some(Numeric(Wrap(acc + UnitSum(values, 1)), 1))
    decreases |values|
  {
    hide Add, Wrap;
    if |values| != 0 {
      AddWhole(acc, values[0].num);
      assert Units(values[0], 1) == values[0].num;
      WrapTwice(acc + values[0].num, UnitSum(values[1..], 1));
      SumOfWholeUnits(values[1..], Wrap(acc + values[0].num));
    }
  }

  // So the zero test is wrong exactly when the total is a nonzero multiple of 2^64.
  lemma WholeUnitsZeroTest(values: seq<Numeric>)
    requires forall v <- values :: v.denom == 1
    ensures Sum(values).Some?
    ensures Sum(values).value.num == 0 <==> UnitSum(values, 1) % 0x1_0000_0000_0000_0000 == 0
  {
    SumOfWholeUnits(values, 0);
    WrapsToZero(UnitSum(values, 1));
  }

  lemma WrapsToZero(u: int)
    ensures Wrap(u) == 0 <==> u % 0x1_0000_0000_0000_0000 == 0
  {
  }

  lemma {:induction false} AllKept(splits: seq<Split>)
    requires forall s <- splits :: s.num != 0 && s.denom != 0 && s.quantityDenom != 0
    ensures Kept(splits) == Ok(splits)
  {
    if |splits| != 0 {
      AllKept(splits[..|splits| - 1]);
      assert splits == splits[..|splits| - 1] + [splits[|splits| - 1]];
    }
  }

  predicate WholeUnits(splits: seq<Split>) {
    forall s <- splits :: s.denom == 1
  }

  lemma ValuesAreWhole(splits: seq<Split>)
    requires WholeUnits(splits)
    ensures forall v <- Values(splits) :: v.denom == 1
    ensures InUnits(Values(splits), 1)
  {
    var values := Values(splits);
    assert forall i :: 0 <= i < |values| ==> values[i].denom == 1;
  }

  lemma StartsAtZero(values: seq<Numeric>)
    ensures Sum(values) == SumFrom(Numeric(0, 1), values)
  {
  }

  // The total of whole units; splits that are dropped add nothing to it.
  function NumTotal(splits: seq<Split>): int {
    if |splits| == 0 then 0 else NumTotal(splits[..|splits| - 1]) + splits[|splits| - 1].num
  }

  lemma {:induction false} KeptTotal(splits: seq<Split>)
    requires Kept(splits).Ok?
    ensures NumTotal(Kept(splits).value) == NumTotal(splits)
  {
    if |splits| != 0 {
      var init, s := splits[..|splits| - 1], splits[|splits| - 1];
      KeptTotal(init);
      assert (Kept(init).value + [s])[..|Kept(init).value|] == Kept(init).value;
    }
  }

  lemma {:induction false} TotalInUnits(splits: seq<Split>)
    requires WholeUnits(splits)
    ensures forall v <- Values(splits) :: v.denom == 1
    ensures UnitSum(Values(splits), 1) == NumTotal(splits)
  {
    ValuesAreWhole(splits);
    if |splits| != 0 {
      var init, s := splits[..|splits| - 1], splits[|splits| - 1];
      TotalInUnits(init);
      assert Values(splits) == Values(init) + [Numeric(s.num, 1)];
      UnitSumSnoc(Values(init), Numeric(s.num, 1), 1);
    }
  }

  lemma WholeUnitsSum(splits: seq<Split>)
    requires WholeUnits(splits)
    ensures Sum(Values(splits)) == Some(Numeric(Wrap(NumTotal(splits)), 1))
    ensures SplitSum(splits) == NumTotal(splits) as real
  {
    hide Sum, SumFrom, Wrap, RealSum, UnitSum, SplitSum, NumTotal;
    var values := Values(splits);
    ValuesAreWhole(splits);
    TotalInUnits(splits);
    SumOfWholeUnits(values, 0);
    StartsAtZero(values);
    SplitSumIsRealSum(splits);
    RealSumInUnits(values, 1);
    assert NumTotal(splits) as real / 1.0 == NumTotal(splits) as real;
  }

  // On whole units, without any bound: what auto-balancing posts sums to zero if
  // and only if the negated total fits int64.
  lemma BalanceOfWholeUnitsIff(b: Books, book: Guid, pick: Option<Guid>, splits: seq<Split>)
    requires WholeUnits(splits) && (forall s <- splits :: s.num != 0)
    requires Balance(b, book, pick, splits).Ok?
    ensures var r := Balance(b, book, pick, splits).value;
      && (forall s <- r.1 :: s.num != 0 && s.denom != 0)
      && (SplitSum(r.1) == 0.0 <==> Fits(-NumTotal(splits)))
  {
    hide Sum, Balance, SplitSum, NumTotal;
    WholeUnitsSum(splits);
    BalanceAfterSum(b, book, pick, splits, NumTotal(splits), 1);
  }

  lemma PostedSplits(b: Books, book: Guid, req: Request, pick: Option<Guid>)
    requires Create(b, book, req, pick).Ok?
    ensures var b' := Create(b, book, req, pick).value;
      && Kept(req.splits).Ok?
      && Balance(b, book, pick, Kept(req.splits).value).Ok?
      && b'.next > 0 && b'.next - 1 in b'.txns
      && b'.txns[b'.next - 1].splits == Balance(b, book, pick, Kept(req.splits).value).value.1
  {
    hide Sum, Kept, CheckAccounts, Balance;
  }

  ghost predicate Zero(splits: seq<Split>) {
    (forall s <- splits :: s.denom != 0) && SplitSum(splits) == 0.0
  }

  // CreateTransaction posts a balanced transaction exactly when the negated
  // total of the splits it keeps fits: in whole units whatever the totals on the
  // way, in any common unit if the earlier totals fit.
  lemma CreateIsBalancedIff(b: Books, book: Guid, req: Request, pick: Option<Guid>, d: int)
    requires Create(b, book, req, pick).Ok? && Negatable(req.splits)
    requires EarlierPartialsFit(Values(Kept(req.splits).value), d)
    ensures var b' := Create(b, book, req, pick).value;
      && b'.next > 0 && b'.next - 1 in b'.txns
      && (Zero(b'.txns[b'.next - 1].splits) <==> FitsReduced(-UnitSum(Values(Kept(req.splits).value), d), d))
  {
    hide Create, Balance, FitsReduced, EarlierPartialsFit, SplitSum;
    PostedSplits(b, book, req, pick);
    BalanceIsExactIff(b, book, pick, Kept(req.splits).value, d);
  }

  lemma CreateOfWholeUnitsIsBalancedIff(b: Books, book: Guid, req: Request, pick: Option<Guid>)
    requires Create(b, book, req, pick).Ok? && WholeUnits(req.splits)
    ensures var b' := Create(b, book, req, pick).value;
      && b'.next > 0 && b'.next - 1 in b'.txns
      && (Zero(b'.txns[b'.next - 1].splits) <==> Fits(-NumTotal(req.splits)))
  {
    hide Create, Balance, SplitSum, Sum, Kept, NumTotal;
    PostedSplits(b, book, req, pick);
    KeptTotal(req.splits);
    BalanceOfWholeUnitsIff(b, book, pick, Kept(req.splits).value);
  }

  // UpdateTransaction adds no split: what it accepts is balanced exactly when
  // the total itself fits.
  lemma UpdateIsBalancedIff(b: Books, book: Guid, g: Guid, req: Request, d: int)
    requires Update(b, book, g, req).Ok? && Negatable(req.splits)
    requires EarlierPartialsFit(Values(Kept(req.splits).value), d)
    ensures var b' := Update(b, book, g, req).value;
      g in b'.txns && (Zero(b'.txns[g].splits) <==> FitsReduced(UnitSum(Values(Kept(req.splits).value), d), d))
  {
    hide Update, Sum, Lowest, SplitSum, Kept, CheckAccounts, Unmarked;
    UpdatedSplits(b, book, g, req);
    var kept := Kept(req.splits).value;
    var values := Values(kept);
    SplitSumIsRealSum(kept);
    RealSumInUnits(values, d);
    SumWrapsLast(values, d);
    var u := UnitSum(values, d);
    var (n, m) := Lowest(u, d);
    SameQuotient(n, m, u, d);
    ZeroQuotient(n, m);
    UnmarkedKeepsSum(kept);
  }

  lemma UpdateOfWholeUnitsIsBalancedIff(b: Books, book: Guid, g: Guid, req: Request)
    requires Update(b, book, g, req).Ok? && WholeUnits(req.splits)
    ensures var b' := Update(b, book, g, req).value;
      g in b'.txns && (Zero(b'.txns[g].splits) <==> Fits(NumTotal(req.splits)))
  {
    hide Update, Sum, SplitSum, Kept, CheckAccounts, Unmarked, NumTotal;
    UpdatedSplits(b, book, g, req);
    var kept := Kept(req.splits).value;
    KeptTotal(req.splits);
    WholeUnitsSum(kept);
    UnmarkedKeepsSum(kept);
  }

  // ------------------------------------------------------------ in any unit, without any bound

  // The total is a whole multiple of 2^64 units of 1/d.
  ghost predicate OffByWraps(splits: seq<Split>, d: int)
    requires d > 0
  {
    (forall s <- splits :: s.denom != 0) && exists k: int :: IsWraps(SplitSum(splits), k, d)
  }

  ghost predicate IsWraps(total: real, k: int, d: int)
    requires d > 0
  {
    total == (k * TWO64) as real / d as real
  }

  lemma AddQuotients(a: int, b: int, d: int)
    requires d > 0
    ensures a as real / d as real + b as real / d as real == (a + b) as real / d as real
  {
  }

  // n/m is n * c units where d == m * c.
  lemma InFinerUnits(n: int, m: int, d: int)
    requires m > 0 && d > 0 && d % m == 0
    ensures n as real / m as real == (n * (d / m)) as real / d as real
  {
    var c := d / m;
    assert d == m * c;
    MulAssoc(n, m, c);
    SameQuotient(n, m, n * c, d);
  }

  // What auto-balancing returns sums to zero, or is off by at least 2^64 units.
  lemma BalanceIsOffByWraps(b: Books, book: Guid, pick: Option<Guid>, splits: seq<Split>, d: int)
    requires (forall s <- splits :: s.num != 0 && s.denom != 0) && Negatable(splits)
    requires 0 < d <= INT64_MAX && InUnits(Values(splits), d)
    requires Balance(b, book, pick, splits).Ok?
    ensures OffByWraps(Balance(b, book, pick, splits).value.1, d)
  {
    hide Sum, SplitSum, RealSum, UnitSum, Wrap;
    var values, r := Values(splits), Balance(b, book, pick, splits).value;
    var u := UnitSum(values, d);
    SplitSumIsRealSum(splits);
    RealSumInUnits(values, d);
    SumIsCongruent(values, d);
    var sum := Sum(values).value;
    var k: int :| OffBy(Units(sum, d), u, k);
    if sum.num == 0 {
      assert u == -k * TWO64;
      assert IsWraps(SplitSum(splits), -k, d);
    } else {
      var j := WrapIsOff(-sum.num);
      var c := d / sum.denom;
      var s := r.1[|splits|];
      assert r.1 == splits + [s] && s.num == -sum.num + j * TWO64 && s.denom == sum.denom;
      SplitSumSnoc(splits, s);
      InFinerUnits(s.num, sum.denom, d);
      AddQuotients(u, s.num * c, d);
      WrapsInUnits(sum.num, j, c);
      assert u + s.num * c == (j * c - k) * TWO64;
      assert IsWraps(SplitSum(r.1), j * c - k, d);
    }
  }

  lemma WrapsInUnits(n: int, j: int, c: int)
    ensures (-n + j * TWO64) * c == -(n * c) + (j * c) * TWO64
  {
    MulAssoc(c, j, TWO64);
  }

  // However large the totals on the way: in any common unit a created or updated
  // transaction sums to zero, or misses it by a multiple of 2^64 units.
  lemma CreateIsOffByWraps(b: Books, book: Guid, req: Request, pick: Option<Guid>, d: int)
    requires Create(b, book, req, pick).Ok? && Negatable(req.splits)
    requires 0 < d <= INT64_MAX && InUnits(Values(Kept(req.splits).value), d)
    ensures var b' := Create(b, book, req, pick).value;
      b'.next > 0 && b'.next - 1 in b'.txns && OffByWraps(b'.txns[b'.next - 1].splits, d)
  {
    hide Create, Balance, SplitSum, OffByWraps, InUnits;
    PostedSplits(b, book, req, pick);
    BalanceIsOffByWraps(b, book, pick, Kept(req.splits).value, d);
  }

  lemma UpdateIsOffByWraps(b: Books, book: Guid, g: Guid, req: Request, d: int)
    requires Update(b, book, g, req).Ok? && Negatable(req.splits)
    requires 0 < d <= INT64_MAX && InUnits(Values(Kept(req.splits).value), d)
    ensures var b' := Update(b, book, g, req).value;
      g in b'.txns && OffByWraps(b'.txns[g].splits, d)
  {
    hide Update, Sum, SplitSum, RealSum, UnitSum, Kept, CheckAccounts, Unmarked;
    UpdatedSplits(b, book, g, req);
    var kept := Kept(req.splits).value;
    var values := Values(kept);
    SplitSumIsRealSum(kept);
    RealSumInUnits(values, d);
    SumIsCongruent(values, d);
    UnmarkedKeepsSum(kept);
    var k: int :| OffBy(Units(Sum(values).value, d), UnitSum(values, d), k);
    assert UnitSum(values, d) == -k * TWO64;
    assert IsWraps(SplitSum(Unmarked(kept)), -k, d);
  }

  // Four splits of 2^62 pass the balance check and are posted as they are.
  lemma WrappedSumIsPosted(b: Books, book: Guid, account: Guid)
    requires CheckAccount(b, book, account).None?
    ensures var s := HugeSplit(account);
            var r := Create(b, book, Request(None, 0, "", [s, s, s, s]), None);
            && r.Ok?
            && b.next in r.value.txns && r.value.txns[b.next].splits == [s, s, s, s]
            && SplitSum([s, s, s, s]) != 0.0
  {
    hide Sum, Kept, CheckAccounts, Values;
    var s := HugeSplit(account);
    var ss := [s, s, s, s];
    AllKept(ss);
    assert CheckAccounts(b, book, ss).None?;
    var n := Numeric(s.num, 1);
    assert Values(ss) == [n, n, n, n];
    FourWrap(n);
    assert ss[1..] == [s, s, s] && [s, s, s][1..] == [s, s] && [s, s][1..] == [s] && [s][1..] == [];
    assert SplitSum(ss) > SplitSum([s, s, s]) > SplitSum([s, s]) > SplitSum([s]) > 0.0;
  }

  function HugeSplit(account: Guid): Split {
    Split(account, 0x4000_0000_0000_0000, 1, 0x4000_0000_0000_0000, 1, Unreconciled)
  }

  lemma FourWrap(n: Numeric)
    requires n == Numeric(0x4000_0000_0000_0000, 1)
    ensures Sum([n, n, n, n]) == Some(ZERO)
  {
    hide Add;
    AddWhole(0, n.num);
    AddWhole(n.num, n.num);
    AddWhole(INT64_MIN, n.num);
    AddWhole(-n.num, n.num);
    assert [n, n, n, n][1..] == [n, n, n] && [n, n, n][1..] == [n, n] && [n, n][1..] == [n] && [n][1..] == [];
    assert SumFrom(Numeric(-n.num, 1), [n]) == SumFrom(ZERO, []);
    assert SumFrom(Numeric(INT64_MIN, 1), [n, n]) == SumFrom(Numeric(-n.num, 1), [n]);
    assert SumFrom(n, [n, n, n]) == SumFrom(Numeric(INT64_MIN, 1), [n, n]);
  }

  // In hundredths, the denominator the clients write: three splits of 2^63 - 1
  // are balanced with the wrong amount, and posted.
  lemma WrongBalanceIsPosted(b: Books, book: Guid, account: Guid, imbalance: Guid)
    requires CheckAccount(b, book, account).None? && CheckAccount(b, book, imbalance).None?
    ensures var s := LargeSplit(account);
            var r := Create(b, book, Request(None, 0, "", [s, s, s]), Some(imbalance));
            && r.Ok? && r.value.next > 0 && r.value.next - 1 in r.value.txns
            && |r.value.txns[r.value.next - 1].splits| == 4
            && !Zero(r.value.txns[r.value.next - 1].splits)
  {
    hide Sum, Lowest, SplitSum, Zero, Create, Values, UnitSum, FitsReduced, EarlierPartialsFit, Wrap;
    var s := LargeSplit(account);
    var ss := [s, s, s];
    AllKept(ss);
    var v := Numeric(INT64_MAX, 100);
    assert Values(ss) == [v, v, v];
    ThreeLarge(v);
    SumWrapsLast([v, v, v], 100);
    assert Wrap(3 * INT64_MAX) != 0 by {
      WrapsToZero(3 * INT64_MAX);
    }
    CreateWithPick(b, book, Request(None, 0, "", ss), imbalance, Numeric(Wrap(3 * INT64_MAX), 100));
    CreateIsBalancedIff(b, book, Request(None, 0, "", ss), Some(imbalance), 100);
  }

  // The call succeeds and its transaction, the newest, has these splits.
  predicate PostsSplits(r: Result<Books, Error>, splits: seq<Split>) {
    && r.Ok? && r.value.next > 0 && r.value.next - 1 in r.value.txns
    && r.value.txns[r.value.next - 1].splits == splits
  }

  // An unbalanced request with a usable Imbalance account goes through.
  lemma CreateWithPick(b: Books, book: Guid, req: Request, imbalance: Guid, sum: Numeric)
    requires |req.splits| >= 1 && Kept(req.splits) == Ok(req.splits)
    requires req.plaidId.Some? ==> !HasPlaidId(b, book, req.plaidId.value)
    requires (forall s <- req.splits :: s.denom != 0) && Sum(Values(req.splits)) == Some(sum) && sum.num != 0
    requires CheckAccount(b, book, imbalance).None? && forall s <- req.splits :: CheckAccount(b, book, s.account).None?
    ensures PostsSplits(Create(b, book, req, Some(imbalance)), req.splits + [BalancingSplit(imbalance, sum)])
  {
    hide Sum, Values, Kept, CheckAccounts, CheckAccount, HasPlaidId, Post, Balance, BalancingSplit, Create;
    var last := BalancingSplit(imbalance, sum);
    BalanceWithPick(b, book, imbalance, req.splits, sum);
    BalancesInto(imbalance, sum);
    PostSucceeds(b, book, req, req.splits, last);
    CreateIsPost(b, book, req, Some(imbalance), req.splits, b, req.splits + [last]);
  }

  lemma BalancesInto(account: Guid, sum: Numeric)
    ensures BalancingSplit(account, sum).account == account
  {
  }

  lemma CreateIsPost(
    b: Books, book: Guid, req: Request, pick: Option<Guid>, kept: seq<Split>, b': Books, splits: seq<Split>)
    requires Kept(req.splits) == Ok(kept) && (forall s <- kept :: s.denom != 0)
    requires Balance(b, book, pick, kept) == Ok((b', splits))
    ensures Create(b, book, req, pick) == Post(b', book, req, splits)
  {
    hide Kept, Balance, Post;
  }

  lemma BalanceWithPick(b: Books, book: Guid, imbalance: Guid, splits: seq<Split>, sum: Numeric)
    requires (forall s <- splits :: s.denom != 0) && Sum(Values(splits)) == Some(sum) && sum.num != 0
    ensures Balance(b, book, Some(imbalance), splits) == Ok((b, splits + [BalancingSplit(imbalance, sum)]))
  {
    hide Sum, Values, BalancingSplit;
  }

  lemma PostSucceeds(b: Books, book: Guid, req: Request, init: seq<Split>, last: Split)
    requires |init| >= 1 && (forall s <- init :: CheckAccount(b, book, s.account).None?)
    requires CheckAccount(b, book, last.account).None?
    requires req.plaidId.Some? ==> !HasPlaidId(b, book, req.plaidId.value)
    ensures PostsSplits(Post(b, book, req, init + [last]), init + [last])
  {
    hide CheckAccount, HasPlaidId;
    assert (init + [last])[..|init|] == init;
  }

  function LargeSplit(account: Guid): Split {
    Split(account, INT64_MAX, 100, INT64_MAX, 100, Unreconciled)
  }

  lemma ThreeLarge(v: Numeric)
    requires v == Numeric(INT64_MAX, 100)
    ensures EarlierPartialsFit([v, v, v], 100)
    ensures UnitSum([v, v, v], 100) == 3 * INT64_MAX
    ensures Lowest(3 * INT64_MAX, 100) == (3 * INT64_MAX, 100)
    ensures !FitsReduced(-3 * INT64_MAX, 100)
  {
    hide Lowest, UnitSum, Gcd;
    CoprimeTo50And100();
    LargeTotals(v);
    ZeroReduced(100);
    IsLowest(INT64_MAX, 100, INT64_MAX, 100);
    IsLowest(INT64_MAX, 50, 2 * INT64_MAX, 100);
    IsLowest(3 * INT64_MAX, 100, 3 * INT64_MAX, 100);
    LowestNegated(3 * INT64_MAX, 100);
    var values := [v, v, v];
    assert values[..0] == [] && values[..1] == [v] && values[..2] == [v, v];
    forall k | 0 <= k < 3
      ensures FitsReduced(UnitSum(values[..k], 100), 100)
    {
      assert k == 0 || k == 1 || k == 2;
    }
  }

  lemma LargeTotals(v: Numeric)
    requires v == Numeric(INT64_MAX, 100)
    ensures UnitSum([], 100) == 0 && UnitSum([v], 100) == INT64_MAX
    ensures UnitSum([v, v], 100) == 2 * INT64_MAX && UnitSum([v, v, v], 100) == 3 * INT64_MAX
  {
    assert [v, v, v][1..] == [v, v] && [v, v][1..] == [v] && [v][1..] == [];
    assert Units(v, 100) == INT64_MAX;
  }

  lemma GcdStep(a: nat, b: nat, r: nat)
    requires b > 0 && a % b == r
    ensures Gcd(a, b) == Gcd(b, r)
  {
  }

  lemma CoprimeTo50And100()
    ensures Gcd(INT64_MAX, 50) == 1 && Gcd(INT64_MAX, 100) == 1 && Gcd(3 * INT64_MAX, 100) == 1
  {
    hide Gcd;
    GcdStep(INT64_MAX, 50, 7);
    GcdStep(50, 7, 1);
    GcdStep(INT64_MAX, 100, 7);
    GcdStep(100, 7, 2);
    GcdStep(7, 2, 1);
    GcdStep(3 * INT64_MAX, 100, 21);
    GcdStep(100, 21, 16);
    GcdStep(21, 16, 5);
    GcdStep(16, 5, 1);
    GcdWithOne(7);
    GcdWithOne(2);
    GcdWithOne(5);
  }

  lemma GcdWithOne(a: nat)
    ensures Gcd(a, 1) == 1
  {
    assert Gcd(a, 1) == Gcd(1, 0);
  }
}
