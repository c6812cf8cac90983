/**
 Suggestions and imports (the filter in Sync, and Import, in
 backend/internal/plaid/service.go). Each Import row is one step here; the
 statement-by-statement interleavings are in ImportRace.
 */
module Importing {
  import opened Wrappers
  import opened Numeric
  import opened Ledger
  import opened Staging

  // idx_accounts_plaid_account: a bank account is linked to one account of the book.
  ghost predicate LinksOk(b: Book) {
    forall a, a' <- b.books.accounts, bankAccount: nat ::
      LinkedTo(b, a, bankAccount) && LinkedTo(b, a', bankAccount) ==> a == a'
  }

  predicate LinkedByItem(b: Book, item: Guid, account: Guid, bankAccount: nat) {
    LinkedTo(b, account, bankAccount) && b.books.accounts[account].link.value.item == item
  }

  // The WHERE clause over staging.
  predicate Selected(b: Book, t: Table, importPending: bool, id: Id) {
    && id in t
    && !t[id].dismissed
    && (importPending || !t[id].pending)
    && !Imported(b, id)
    && !(t[id].predecessor.Some? && ValueMatches(b, t[id].predecessor.value, t[id].bankAccount, t[id].num, t[id].denom))
  }

  // What Sync shows: selected rows whose bank account this item links.
  predicate Suggested(b: Book, t: Table, item: Guid, importPending: bool, id: Id) {
    Selected(b, t, importPending, id) && exists a <- b.books.accounts :: LinkedByItem(b, item, a, t[id].bankAccount)
  }

  // Pending rows are shown exactly where pending imports are switched on.
  lemma PendingFlagShowsPending(b: Book, t: Table, item: Guid, id: Id)
    ensures Suggested(b, t, item, false, id) <==> Suggested(b, t, item, true, id) && !t[id].pending
  {
  }

  // In terms of the tables: a staged, undismissed row of a bank account this item
  // links, whose id no transaction of the book carries, nor, with this amount on
  // that account, its pending one's.
  lemma SuggestedIff(b: Book, t: Table, item: Guid, id: Id)
    ensures Suggested(b, t, item, true, id) <==>
      && id in t && !t[id].dismissed
      && (forall g <- b.books.txns ::
           b.books.txns[g].book == b.guid ==> b.books.txns[g].plaidId != Some(id))
      && (forall g <- b.books.txns :: !MovedBy(b, b.books.txns[g], EntryOf(id, t[id])) || t[id].predecessor.None?)
      && (exists a <- b.books.accounts ::
           && b.books.accounts[a].book == b.guid && b.books.accounts[a].link == Some(Link(item, t[id].bankAccount)))
  {
    if id in t {
      var row := t[id];
      MovedIsReplaced(b, EntryOf(id, row));
      assert ValueMatches(b, id, 0, 0, 0) ==> Imported(b, id);
      forall a | a in b.books.accounts
        ensures LinkedByItem(b, item, a, row.bankAccount) <==>
          && b.books.accounts[a].book == b.guid && b.books.accounts[a].link == Some(Link(item, row.bankAccount))
      {
      }
      if row.predecessor.Some? && ValueMatches(b, row.predecessor.value, row.bankAccount, row.num, row.denom) {
        assert Imported(b, row.predecessor.value);
      }
    }
  }

  function EntryOf(id: Id, row: Row): Entry {
    Entry(id, row.predecessor, row.bankAccount, row.date, row.description, row.num, row.denom, row.pending)
  }

  // ------------------------------------------------------------ importing one row

  // A row of a request; category is None when its id does not parse.
  datatype Choice = Choice(id: Id, category: Option<Guid>)

  datatype Outcome = Posted | Skipped | Failed

  datatype Imports = Imports(book: Book, staged: Table)

  // The bank split takes -amount, the category split +amount.
  function ImportRequest(id: Id, row: Row, bank: Guid, category: Guid): Request {
    var neg := Wrap(-row.num);
    Request(Some(id), row.date, row.description, [
        Split(bank, neg, row.denom, neg, row.denom, Cleared),
        Split(category, row.num, row.denom, row.num, row.denom, Cleared)])
  }

  // bank is what the account lookup by link returned.
  predicate IsBankLookup(b: Book, bankAccount: nat, bank: Option<Guid>) {
    match bank
    case Some(a) => LinkedTo(b, a, bankAccount)
    case None => forall a <- b.books.accounts :: !LinkedTo(b, a, bankAccount)
  }

  function ImportRow(
    y: Imports, id: Id, category: Option<Guid>, bank: Option<Guid>, pick: Option<Guid>): (Imports, Outcome)
  {
    var Imports(b, t) := y;
    if category.None? then (y, Failed)
    else if id !in t then (y, if Imported(b, id) then Skipped else Failed)
    else if bank.None? then (y, Failed)
    else if Imported(b, id) then (y, Skipped)
    else if t[id].predecessor.Some? && Imported(b, t[id].predecessor.value)
      && ValueMatches(b, t[id].predecessor.value, t[id].bankAccount, t[id].num, t[id].denom)
    then (y.(staged := t - {id}), Skipped)
    else match Create(b.books, b.guid, ImportRequest(id, t[id], bank.value, category.value), pick)
      case Ok(books) => (Imports(b.(books := books), t - {id}), Posted)
      case Err(DuplicatePlaidId) => (y.(staged := t - {id}), Skipped)
      case Err(_) => (y, Failed)
  }

  // What the outcomes mean for the money: posted, the id is new in the books;
  // skipped, the books stay and hold the id or the very movement under its
  // pending one; failed, nothing changes. A known id never fails.
  lemma OutcomeMeans(y: Imports, id: Id, category: Option<Guid>, bank: Option<Guid>, pick: Option<Guid>)
    requires bank.Some? ==> id in y.staged && LinkedTo(y.book, bank.value, y.staged[id].bankAccount)
    ensures var (y', outcome) := ImportRow(y, id, category, bank, pick);
      && (outcome.Posted? ==>
          && !Imported(y.book, id) && Imported(y'.book, id) && y'.staged == y.staged - {id} && id in y.staged)
      && (outcome.Skipped? ==>
          && y'.book == y.book && (y'.staged == y.staged || y'.staged == y.staged - {id})
          && (Imported(y.book, id) || (id in y.staged && MovedBefore(y.book, EntryOf(id, y.staged[id])))))
      && (outcome.Failed? ==> y' == y)
      && (Imported(y.book, id) && category.Some? && (id in y.staged ==> bank.Some?) ==> outcome.Skipped? && y' == y)
  {
    hide Kept, Sum, CheckAccounts, Values, ValueMatches;
    if id in y.staged {
      MovedIsReplaced(y.book, EntryOf(id, y.staged[id]));
    }
    if ImportRow(y, id, category, bank, pick).1.Posted? {
      var req := ImportRequest(id, y.staged[id], bank.value, category.value);
      var b' := Create(y.book.books, y.book.guid, req, pick).value;
      assert b'.txns[b'.next - 1].plaidId == Some(id);
    }
  }

  // ------------------------------------------------------------ two opposite splits

  lemma OppositesCancel(num: int, denom: int)
    requires num != 0 && Abs(num) <= INT64_MAX && 0 < denom <= INT64_MAX
    ensures Sum([New(-num, denom), New(num, denom)]).Some?
    ensures Sum([New(-num, denom), New(num, denom)]).value.num == 0
  {
    hide Add;
    var v, w := Numeric(-num, denom), Numeric(num, denom);
    assert [v, w][1..] == [w] && [w][1..] == [];
    FirstTerm(v);
    var r := Add(ZERO, v);
    assert SumFrom(ZERO, [v, w]) == SumFrom(r, [w]) == SumFrom(Add(r, w), []);
    CancellingTerm(r, w);
  }

  lemma CancellingTerm(r: Numeric, w: Numeric)
    requires r.denom > 0 && w.denom > 0 && r.num * w.denom == -w.num * r.denom
    ensures Add(r, w).num == 0
  {
    hide FromRat;
    var p, q := r.num * w.denom + w.num * r.denom, r.denom * w.denom;
    assert p == 0;
    ProductNonZero(r.denom, w.denom);
    ZeroOver(q);
  }

  // Adding to zero only reduces.
  lemma FirstTerm(v: Numeric)
    requires Abs(v.num) <= INT64_MAX && 0 < v.denom <= INT64_MAX
    ensures var r := Add(ZERO, v);
            && 0 < r.denom <= v.denom && Abs(r.num) <= Abs(v.num) && r.num * v.denom == v.num * r.denom
  {
    var p, q := ZERO.num * v.denom + v.num * ZERO.denom, ZERO.denom * v.denom;
    assert p == v.num && q == v.denom;
    var low := Lowest(p, q);
    LowestTermsAreSmallest(low.0, low.1, v.num, v.denom);
  }

  lemma ZeroOver(q: int)
    requires q != 0
    ensures FromRat(0, q).num == 0
  {
    var low := Lowest(0, q);
    if low.0 != 0 {
      assert low.0 * q == 0 * low.1;
      ProductNonZero(low.0, q);
      assert false;
    }
  }

  lemma ProductNonZero(a: int, b: int)
    requires a != 0 && b != 0
    ensures a * b != 0
  {
  }

  // ------------------------------------------------------------ filter and import agree

  // A staged row: non-zero amount, positive denominator (the CHECK constraint),
  // and not the one amount that has no int64 negation.
  predicate Importable(row: Row) {
    row.num != 0 && Abs(row.num) <= INT64_MAX && 0 < row.denom <= INT64_MAX
  }

  // Nothing is dropped or added before the insert: the two splits balance.
  lemma ImportIsPosted(b: Book, id: Id, row: Row, bank: Guid, category: Guid, pick: Option<Guid>)
    requires Importable(row)
    ensures var req := ImportRequest(id, row, bank, category);
            && Create(b.books, b.guid, req, pick) == Post(b.books, b.guid, req, req.splits) && |req.splits| == 2
            && (CheckAccounts(b.books, b.guid, req.splits).None? <==>
                CheckAccount(b.books, b.guid, bank).None? && CheckAccount(b.books, b.guid, category).None?)
  {
    hide Sum, New, Wrap, Kept, CheckAccounts, Values, Post;
    var req := ImportRequest(id, row, bank, category);
    var s0, s1 := req.splits[0], req.splits[1];
    assert req.splits == [s0, s1];
    assert s0.num == -row.num;
    AllKept(req.splits);
    OppositesCancel(row.num, row.denom);
    assert Values(req.splits) == [New(-row.num, row.denom), New(row.num, row.denom)];
    assert s0 in req.splits && s1 in req.splits;
  }

  lemma ImportCreates(b: Book, id: Id, row: Row, bank: Guid, category: Guid, pick: Option<Guid>)
    requires Importable(row) && !Imported(b, id)
    requires CheckAccount(b.books, b.guid, bank).None? && CheckAccount(b.books, b.guid, category).None?
    ensures var req := ImportRequest(id, row, bank, category);
            var txn := Txn(b.guid, Some(id), row.date, row.description, req.splits);
            Create(b.books, b.guid, req, pick)
              == Ok(b.books.(txns := b.books.txns[b.books.next := txn], next := b.books.next + 1))
  {
    hide Create, CheckAccounts;
    ImportIsPosted(b, id, row, bank, category, pick);
  }

  // Nothing but a known id or an unusable account refuses an importable row.
  lemma ImportCreatesIff(b: Book, id: Id, row: Row, bank: Guid, category: Guid, pick: Option<Guid>)
    requires Importable(row)
    ensures Create(b.books, b.guid, ImportRequest(id, row, bank, category), pick).Ok? <==>
      && !Imported(b, id)
      && CheckAccount(b.books, b.guid, bank).None? && CheckAccount(b.books, b.guid, category).None?
  {
    hide Create, CheckAccounts, ImportRequest;
    ImportIsPosted(b, id, row, bank, category, pick);
    assert ImportRequest(id, row, bank, category).plaidId == Some(id) by {
      RequestsId(id, row, bank, category);
    }
  }

  lemma RequestsId(id: Id, row: Row, bank: Guid, category: Guid)
    ensures ImportRequest(id, row, bank, category).plaidId == Some(id)
  {
  }

  // The unique index is what stops a second import of the same id.
  lemma ImportCollides(b: Book, id: Id, row: Row, bank: Guid, category: Guid, pick: Option<Guid>)
    requires Importable(row) && Imported(b, id)
    requires CheckAccount(b.books, b.guid, bank).None? && CheckAccount(b.books, b.guid, category).None?
    ensures Create(b.books, b.guid, ImportRequest(id, row, bank, category), pick) == Err(DuplicatePlaidId)
  {
    hide Create, CheckAccounts;
    ImportIsPosted(b, id, row, bank, category, pick);
  }

  // Every row Sync returns imports: exactly one transaction, two opposite
  // splits, no account and no other transaction touched - and no later Sync,
  // whatever the feed stages meanwhile, can show that id again while the
  // transaction is in the books.
  lemma SuggestionImports(
    y: Imports, item: Guid, importPending: bool, id: Id, category: Guid, bank: Option<Guid>, pick: Option<Guid>)
    requires Suggested(y.book, y.staged, item, importPending, id) && Importable(y.staged[id])
    requires LinksOk(y.book) && IsBankLookup(y.book, y.staged[id].bankAccount, bank)
    requires CheckAccount(y.book.books, y.book.guid, category).None?
    requires forall a <- y.book.books.accounts ::
      LinkedTo(y.book, a, y.staged[id].bankAccount) ==> !y.book.books.accounts[a].placeholder
    ensures var (y', outcome) := ImportRow(y, id, Some(category), bank, pick);
            var (a, d) := (y.staged[id].num, y.staged[id].denom);
            var g := y.book.books.next;
            && outcome == Posted && bank.Some? && LinkedByItem(y.book, item, bank.value, y.staged[id].bankAccount)
            && y'.staged == y.staged - {id}
            && y'.book.books.accounts == y.book.books.accounts
            && y'.book.books.txns ==
              y.book.books.txns[g := Txn(y.book.guid, Some(id), y.staged[id].date, y.staged[id].description, [
                Split(bank.value, -a, d, -a, d, Cleared), Split(category, a, d, a, d, Cleared)])]
            && forall t: Table, i: Guid, p: bool :: !Suggested(y'.book, t, i, p, id)
  {
    hide Create, ValueMatches, Wrap;
    var b, row := y.book, y.staged[id];
    assert bank.Some?;
    var linked :| linked in b.books.accounts && LinkedByItem(b, item, linked, row.bankAccount);
    assert linked == bank.value;
    ImportCreates(b, id, row, bank.value, category, pick);
    var (y', outcome) := ImportRow(y, id, Some(category), bank, pick);
    assert b.books.next in y'.book.books.txns;
    assert y'.book.books.txns[b.books.next].plaidId == Some(id);
    assert Imported(y'.book, id);
  }

  // The two opposite splits an import is to post.
  function Opposite(row: Row, bank: Guid, category: Guid): seq<Split> {
    [Split(bank, -row.num, row.denom, -row.num, row.denom, Cleared),
     Split(category, row.num, row.denom, row.num, row.denom, Cleared)]
  }

  // Of all staged amounts, one cannot be imported faithfully: -2^63.
  lemma ImportIsFaithfulIff(b: Book, id: Id, row: Row, bank: Guid, category: Guid, pick: Option<Guid>)
    requires Fits(row.num) && row.num != 0 && 0 < row.denom <= INT64_MAX && !Imported(b, id)
    requires CheckAccount(b.books, b.guid, bank).None? && CheckAccount(b.books, b.guid, category).None?
    ensures var req := ImportRequest(id, row, bank, category);
      PostsSplits(Create(b.books, b.guid, req, pick), Opposite(row, bank, category))
      <==> row.num != INT64_MIN
  {
    hide Create, HasPlaidId;
    if row.num != INT64_MIN {
      ImportCreates(b, id, row, bank, category, pick);
    } else if Create(b.books, b.guid, ImportRequest(id, row, bank, category), pick).Ok? {
      var req := ImportRequest(id, row, bank, category);
      KeepsRequestedSplits(b, req, pick);
      var b' := Create(b.books, b.guid, req, pick).value;
      assert b'.txns[b'.next - 1].splits[0] == req.splits[0];
      assert req.splits[0].num == INT64_MIN && Opposite(row, bank, category)[0].num == -INT64_MIN;
    }
  }

  lemma KeepsRequestedSplits(b: Book, req: Request, pick: Option<Guid>)
    requires |req.splits| == 2 && forall s <- req.splits :: s.num != 0 && s.denom != 0 && s.quantityDenom != 0
    requires Create(b.books, b.guid, req, pick).Ok?
    ensures var b' := Create(b.books, b.guid, req, pick).value;
      && b'.next > 0 && b'.next - 1 in b'.txns
      && req.splits <= b'.txns[b'.next - 1].splits
  {
    hide Sum, Kept, CheckAccounts, Values;
    AllKept(req.splits);
  }

  // The excluded amount in hundredths, as the feed delivers amounts: both
  // accounts lose it, and the Imbalance account gets twice the amount back.
  lemma MinAmountTakesFromBoth(b: Book, id: Id, row: Row, bank: Guid, category: Guid, imbalance: Guid)
    requires row.num == INT64_MIN && row.denom == 100 && !Imported(b, id)
    requires CheckAccount(b.books, b.guid, bank).None? && CheckAccount(b.books, b.guid, category).None?
    requires CheckAccount(b.books, b.guid, imbalance).None?
    ensures PostsSplits(
      Create(b.books, b.guid, ImportRequest(id, row, bank, category), Some(imbalance)),
      [Split(bank, INT64_MIN, 100, INT64_MIN, 100, Cleared),
       Split(category, INT64_MIN, 100, INT64_MIN, 100, Cleared),
       Split(imbalance, 0x4000_0000_0000_0000, 25, 0x4000_0000_0000_0000, 25, Unreconciled)])
  {
    hide Sum, Kept, CheckAccount, Values, Create, HasPlaidId;
    var req := ImportRequest(id, row, bank, category);
    assert req.splits == [req.splits[0], req.splits[1]];
    AllKept(req.splits);
    var v := Numeric(INT64_MIN, 100);
    assert Values(req.splits) == [v, v];
    MinTwice(v);
    CreateWithPick(b.books, b.guid, req, imbalance, Numeric(-0x4000_0000_0000_0000, 25));
  }

  lemma MinTwice(v: Numeric)
    requires v == Numeric(INT64_MIN, 100)
    ensures Sum([v, v]) == Some(Numeric(-0x4000_0000_0000_0000, 25))
  {
    hide Lowest, UnitSum, Gcd, Sum;
    MinPartialsFit(v);
    SumReduces([v, v], 100);
  }

  lemma MinPartialsFit(v: Numeric)
    requires v == Numeric(INT64_MIN, 100)
    ensures PartialsFit([v, v], 100)
    ensures Lowest(UnitSum([v, v], 100), 100) == (-0x4000_0000_0000_0000, 25)
  {
    hide Lowest, UnitSum, Gcd;
    MinTotals(v);
    CoprimeTo25();
    ZeroReduced(100);
    IsLowest(-0x2000_0000_0000_0000, 25, INT64_MIN, 100);
    IsLowest(-0x4000_0000_0000_0000, 25, 2 * INT64_MIN, 100);
    var values := [v, v];
    assert values[..0] == [] && values[..1] == [v] && values[..2] == [v, v];
    forall k | 0 <= k <= 2
      ensures FitsReduced(UnitSum(values[..k], 100), 100)
    {
      assert k == 0 || k == 1 || k == 2;
    }
  }

  // Every amount the feed stages: importable, or -2^63 hundredths.
  predicate Stageable(row: Row) {
    Importable(row) || (row.num == INT64_MIN && row.denom == 100)
  }

  // Whatever is staged, its import meets the bound of exact balancing.
  lemma ImportIsSummable(id: Id, row: Row, bank: Guid, category: Guid)
    requires Stageable(row)
    ensures Summable(ImportRequest(id, row, bank, category).splits, row.denom)
  {
    hide PartialsFit, FitsReduced, UnitSum, Kept, Values;
    var req := ImportRequest(id, row, bank, category);
    var s0, s1 := req.splits[0], req.splits[1];
    assert req.splits == [s0, s1];
    AllKept(req.splits);
    if row.num == INT64_MIN {
      var v := Numeric(INT64_MIN, 100);
      assert Values(req.splits) == [v, v];
      MinPartialsFit(v);
      MinNegatedFits(v);
    } else {
      var v, n := Numeric(row.num, row.denom), Numeric(-row.num, row.denom);
      assert Values(req.splits) == [n, v];
      OppositeTotals(row.num, row.denom);
    }
  }

  lemma MinNegatedFits(v: Numeric)
    requires v == Numeric(INT64_MIN, 100)
    ensures forall w <- [v, v] :: w.denom > 0
    ensures FitsReduced(-UnitSum([v, v], 100), 100)
  {
    hide Lowest, UnitSum;
    MinPartialsFit(v);
    LowestNegated(UnitSum([v, v], 100), 100);
  }

  // The running totals of an amount's two splits.
  lemma OppositeTotals(num: int, denom: int)
    requires Abs(num) <= INT64_MAX && 0 < denom <= INT64_MAX
    ensures var values := [Numeric(-num, denom), Numeric(num, denom)];
      PartialsFit(values, denom) && FitsReduced(-UnitSum(values, denom), denom)
  {
    hide FitsReduced;
    var n, v := Numeric(-num, denom), Numeric(num, denom);
    var values := [n, v];
    assert values[1..] == [v] && [v][1..] == [] && [n][1..] == [];
    assert values[..0] == [] && values[..1] == [n] && values[..2] == values;
    assert denom / denom == 1 && denom % denom == 0;
    assert UnitSum([], denom) == 0 && UnitSum([v], denom) == num;
    assert UnitSum([n], denom) == -num && UnitSum(values, denom) == 0;
    forall k | 0 <= k <= 2
      ensures Abs(UnitSum(values[..k], denom)) <= INT64_MAX
    {
      assert k == 0 || k == 1 || k == 2;
    }
    SmallPartialsFit(values, denom);
    SmallNegatedFits(UnitSum(values, denom), denom);
  }

  lemma MinTotals(v: Numeric)
    requires v == Numeric(INT64_MIN, 100)
    ensures UnitSum([], 100) == 0 && UnitSum([v], 100) == INT64_MIN && UnitSum([v, v], 100) == 2 * INT64_MIN
  {
    assert [v, v][1..] == [v] && [v][1..] == [];
    assert Units(v, 100) == INT64_MIN;
  }

  lemma CoprimeTo25()
    ensures Gcd(0x2000_0000_0000_0000, 25) == 1 && Gcd(0x4000_0000_0000_0000, 25) == 1
  {
    hide Gcd;
    GcdStep(0x2000_0000_0000_0000, 25, 2);
    GcdStep(0x4000_0000_0000_0000, 25, 4);
    GcdStep(25, 2, 1);
    GcdStep(25, 4, 1);
    GcdWithOne(2);
    GcdWithOne(4);
  }

  // ------------------------------------------------------------ no double posting

  // While the transaction imported under the predecessor carries the row's
  // amount on the linked bank account, importing the row posts nothing: the
  // row, if it was still importable, is dropped instead.
  lemma SuccessorIsNotPosted(y: Imports, id: Id, category: Option<Guid>, bank: Option<Guid>, pick: Option<Guid>)
    requires id in y.staged && y.staged[id].predecessor.Some?
    requires var row := y.staged[id];
      ValueMatches(y.book, row.predecessor.value, row.bankAccount, row.num, row.denom)
    ensures var (y', outcome) := ImportRow(y, id, category, bank, pick);
            && outcome != Posted && y'.book == y.book
            && (outcome == Skipped && !Imported(y.book, id) ==> y'.staged == y.staged - {id})
  {
  }

  // The converse: a row is dropped in favour of its predecessor only for that
  // reason, so an import with a category other than the bank account carries
  // -a/d and nothing else there - a reversal (+a) or any other value passes.
  lemma OnlyTheSameValueMatches(
    b: Book, predecessor: Id, g: Guid, row: Row, bank: Guid, category: Guid, num: int, denom: int)
    requires LinksOk(b) && LinkedTo(b, bank, row.bankAccount) && category != bank
    requires g in b.books.txns && b.books.txns[g].book == b.guid && b.books.txns[g].plaidId == Some(predecessor)
    requires forall h <- b.books.txns ::
      b.books.txns[h].book == b.guid && b.books.txns[h].plaidId == Some(predecessor) ==> h == g
    requires Abs(row.num) <= INT64_MAX
    requires b.books.txns[g].splits == ImportRequest(predecessor, row, bank, category).splits
    ensures ValueMatches(b, predecessor, row.bankAccount, num, denom) <==> num == row.num && denom == row.denom
  {
    var splits := b.books.txns[g].splits;
    assert splits == [splits[0], splits[1]];
    assert splits[0].account == bank && splits[1].account == category;
    assert splits[0].num == -row.num;
    if ValueMatches(b, predecessor, row.bankAccount, num, denom) {
      var h :| h in b.books.txns && b.books.txns[h].book == b.guid && b.books.txns[h].plaidId == Some(predecessor)
        && Carries(b, b.books.txns[h].splits, row.bankAccount, num, denom);
      var s :| s in splits && LinkedTo(b, s.account, row.bankAccount) && s.num == -num && s.denom == denom;
      assert s == splits[0];
    }
    if num == row.num && denom == row.denom {
      assert splits[0] in splits;
      assert Carries(b, splits, row.bankAccount, num, denom);
    }
  }
}
