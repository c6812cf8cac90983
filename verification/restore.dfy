/**
 Restoring a book from an export (performImport in
 backend/internal/handlers/import_export.go; buildExportData in
 backend/internal/services/snapshot_service.go). The payload's ids are replaced
 by fresh ones; its parents and splits are made to follow.
 */
module Restore {
  import opened Wrappers
  import opened Numeric
  import opened Ledger
  import opened TrialBalance
  import TransactionService

  datatype XAccount = XAccount(guid: Guid, name: string, kind: Kind, parent: Option<Guid>, placeholder: bool)

  datatype XTxn = XTxn(guid: Guid, date: int, description: string, splits: seq<Split>)

  datatype Payload = Payload(accounts: seq<XAccount>, txns: seq<XTxn>)

  // ------------------------------------------------------------ renaming

  predicate HasRoot(accounts: seq<XAccount>) {
    exists a <- accounts :: a.kind.Root?
  }

  function RootOf(guid: Guid): XAccount {
    XAccount(guid, "Root Account", Root, None, true)
  }

  function Under(a: XAccount, root: Guid): XAccount {
    if a.parent.None? then a.(parent := Some(root)) else a
  }

  // root is the id drawn for a root account, should one be missing.
  function Wrapped(accounts: seq<XAccount>, root: Guid): seq<XAccount> {
    if HasRoot(accounts) then accounts
    else [RootOf(root)] + AllUnder(accounts, root)
  }

  function AllUnder(accounts: seq<XAccount>, root: Guid): (xs: seq<XAccount>)
    ensures |xs| == |accounts| && forall i :: 0 <= i < |xs| ==> xs[i] == Under(accounts[i], root)
  {
    seq(|accounts|, i requires 0 <= i < |accounts| => Under(accounts[i], root))
  }

  // A later account with the same id wins.
  function NewIds(accounts: seq<XAccount>, base: Guid): map<Guid, Guid> {
    if |accounts| == 0 then map[]
    else
      var n := |accounts| - 1;
      NewIds(accounts[..n], base)[accounts[n].guid := base + n]
  }

  function Renamed(m: map<Guid, Guid>, id: Guid): Guid {
    if id in m then m[id] else id
  }

  function RenamedSplits(m: map<Guid, Guid>, splits: seq<Split>): (r: seq<Split>)
    ensures |r| == |splits|
    ensures forall i :: 0 <= i < |r| ==> r[i] == splits[i].(account := Renamed(m, splits[i].account))
  {
    seq(|splits|, i requires 0 <= i < |splits| => splits[i].(account := Renamed(m, splits[i].account)))
  }

  // The row an account becomes, links and other metadata not being exported.
  function AccountRow(book: Guid, m: map<Guid, Guid>, a: XAccount): Account {
    var parent := if a.parent.Some? then Some(Renamed(m, a.parent.value)) else None;
    Account(book, a.name, a.kind, parent, a.placeholder, None)
  }

  function TxnRow(book: Guid, m: map<Guid, Guid>, t: XTxn): Txn {
    Txn(book, None, t.date, t.description, RenamedSplits(m, t.splits))
  }

  // ------------------------------------------------------------ the replacement

  predicate InBook(b: Books, book: Guid, account: Guid) {
    account in b.accounts && b.accounts[account].book == book
  }

  // Foreign keys let the book's accounts go only if no other book's rows use them.
  predicate Deletable(b: Books, book: Guid) {
    && (forall g :: g in b.txns && b.txns[g].book != book ==>
        forall s <- b.txns[g].splits :: !InBook(b, book, s.account))
    && (forall a :: a in b.accounts && b.accounts[a].book != book && b.accounts[a].parent.Some? ==>
        !InBook(b, book, b.accounts[a].parent.value))
    && (forall k :: k in b.roots && k != book && b.roots[k].Some? ==> !InBook(b, book, b.roots[k].value))
  }

  function OtherAccounts(b: Books, book: Guid): map<Guid, Account> {
    map a | a in b.accounts && b.accounts[a].book != book :: b.accounts[a]
  }

  function OtherTxns(b: Books, book: Guid): map<Guid, Txn> {
    map g | g in b.txns && b.txns[g].book != book :: b.txns[g]
  }

  // The n ids from base on.
  function Range(base: Guid, n: nat): (ids: set<Guid>)
    ensures forall g :: g in ids <==> base <= g < base + n
  {
    if n == 0 then {} else Range(base, n - 1) + {base + n - 1}
  }

  // The first n accounts, from id base on; parents are filled in for the first k.
  function Rows(book: Guid, m: map<Guid, Guid>, accounts: seq<XAccount>, base: Guid, n: nat, k: nat): map<Guid, Account>
    requires k <= n <= |accounts|
  {
    map g | g in Range(base, n) ::
      if g < base + k then AccountRow(book, m, accounts[g - base])
      else AccountRow(book, m, accounts[g - base]).(parent := None)
  }

  function TxnRows(book: Guid, m: map<Guid, Guid>, txns: seq<XTxn>, base: Guid, n: nat): map<Guid, Txn>
    requires n <= |txns|
  {
    map g | g in Range(base, n) :: TxnRow(book, m, txns[g - base])
  }

  // The last root account of the list, by the id it gets.
  function RootId(accounts: seq<XAccount>, base: Guid): Option<Guid> {
    if |accounts| == 0 then None
    else
      var n := |accounts| - 1;
      if accounts[n].kind.Root? then Some(base + n) else RootId(accounts[..n], base)
  }

  predicate ParentsExist(accounts: map<Guid, Account>, m: map<Guid, Guid>, xs: seq<XAccount>) {
    forall x <- xs :: x.parent.Some? ==> Renamed(m, x.parent.value) in accounts
  }

  predicate SplitsExist(accounts: map<Guid, Account>, m: map<Guid, Guid>, ts: seq<XTxn>) {
    forall t <- ts :: SplitsFound(accounts, m, t.splits)
  }

  predicate SplitsFound(accounts: map<Guid, Account>, m: map<Guid, Guid>, splits: seq<Split>) {
    forall s <- splits :: Renamed(m, s.account) in accounts
  }

  // The book's root is cleared, and set to the new root account.
  function RootsAfter(b: Books, book: Guid, xs: seq<XAccount>): map<Guid, Option<Guid>> {
    var cleared := if book in b.roots then b.roots[book := None] else b.roots;
    if RootId(xs, b.next).Some? && book in b.roots then cleared[book := RootId(xs, b.next)] else cleared
  }

  // None is a rollback.
  function Restored(b: Books, book: Guid, p: Payload, root: Guid): Option<Books> {
    var xs := Wrapped(p.accounts, root);
    var m := NewIds(xs, b.next);
    var accounts := OtherAccounts(b, book) + Rows(book, m, xs, b.next, |xs|, |xs|);
    var next := b.next + |xs|;
    if !Deletable(b, book) || !ParentsExist(accounts, m, xs) || !SplitsExist(accounts, m, p.txns) then None
    else
      Some(Books(
        accounts, OtherTxns(b, book) + TxnRows(book, m, p.txns, next, |p.txns|), RootsAfter(b, book, xs),
        next + |p.txns|))
  }

  // ------------------------------------------------------------ the statements

  // The UPDATEs of the second pass over the accounts.
  function ParentCount(xs: seq<XAccount>): nat {
    if |xs| == 0 then 0
    else
      var n := |xs| - 1;
      ParentCount(xs[..n]) + if xs[n].parent.Some? then 1 else 0
  }

  function SplitCount(ts: seq<XTxn>): nat {
    if |ts| == 0 then 0
    else
      var n := |ts| - 1;
      SplitCount(ts[..n]) + |ts[n].splits|
  }

  // Begin, clear the root, three deletions, the rows and their parents, the root.
  function AccountStatements(xs: seq<XAccount>): nat {
    5 + |xs| + ParentCount(xs) + if HasRoot(xs) then 1 else 0
  }

  // Then the transactions, the splits, commit.
  function Statements(xs: seq<XAccount>, ts: seq<XTxn>): nat {
    AccountStatements(xs) + |ts| + SplitCount(ts) + 1
  }

  lemma {:induction false} ParentCountGrows(xs: seq<XAccount>, i: nat)
    requires i <= |xs|
    ensures ParentCount(xs[..i]) <= ParentCount(xs)
    decreases |xs|
  {
    if i < |xs| {
      var n := |xs| - 1;
      assert xs[..n][..i] == xs[..i];
      ParentCountGrows(xs[..n], i);
    } else {
      assert xs[..i] == xs;
    }
  }

  lemma {:induction false} SplitCountGrows(ts: seq<XTxn>, i: nat)
    requires i <= |ts|
    ensures SplitCount(ts[..i]) <= SplitCount(ts)
    decreases |ts|
  {
    if i < |ts| {
      var n := |ts| - 1;
      assert ts[..n][..i] == ts[..i];
      SplitCountGrows(ts[..n], i);
    } else {
      assert ts[..i] == ts;
    }
  }

  lemma {:induction false} RootIdIffRoot(xs: seq<XAccount>, base: Guid)
    ensures RootId(xs, base).Some? <==> HasRoot(xs)
  {
    if |xs| != 0 {
      var n := |xs| - 1;
      RootIdIffRoot(xs[..n], base);
      assert xs == xs[..n] + [xs[n]];
    }
  }

  // One database transaction. The database is lost after the given number of
  // statements; a foreign key may stop it before. Whatever fails, and wherever,
  // leaves every table as it was; it succeeds exactly when there is room for
  // every statement and none is refused.
  method PerformImport(db: TransactionService.TransactionService, book: Guid, p: Payload, root: Guid, budget: nat)
    returns (ok: bool)
    modifies db
    ensures ok <==>
      && budget >= Statements(Wrapped(p.accounts, root), p.txns)
      && Restored(old(db.Tables()), book, p, root).Some?
    ensures ok ==> Restored(old(db.Tables()), book, p, root) == Some(db.Tables())
    ensures !ok ==> db.Tables() == old(db.Tables())
  {
    hide Rows, TxnRows, Deletable, Wrapped, NewIds, ParentsExist, SplitsExist, RootId, OtherAccounts, OtherTxns,
         ParentCount, SplitCount, HasRoot, RootsAfter;
    var b := db.Tables();
    var xs := WrapAccounts(p.accounts, root);
    var m := MapIds(xs, b.next);
    var roots, txns, accounts, left, running := WriteAccounts(b, book, m, xs, budget);
    if !running {
      return false;
    }
    txns, left, running := WriteTransactions(book, m, p.txns, b.next + |xs|, accounts, txns, left);
    if !running || left == 0 {
      return false;
    }
    db.Commit(Books(accounts, txns, roots, b.next + |xs| + |p.txns|));
    ok := true;
  }

  // The first half: the book's rows go, its new accounts and its root come.
  method WriteAccounts(b: Books, book: Guid, m: map<Guid, Guid>, xs: seq<XAccount>, budget: nat)
    returns (roots: map<Guid, Option<Guid>>, txns: map<Guid, Txn>, accounts: map<Guid, Account>, left: nat, ok: bool)
    ensures var all := OtherAccounts(b, book) + Rows(book, m, xs, b.next, |xs|, |xs|);
      && (ok <==> budget >= AccountStatements(xs) && Deletable(b, book) && ParentsExist(all, m, xs))
      && (ok ==>
          && left == budget - AccountStatements(xs)
          && roots == RootsAfter(b, book, xs) && txns == OtherTxns(b, book) && accounts == all)
  {
    hide Rows, Deletable, ParentsExist, RootId, OtherAccounts, OtherTxns, ParentCount, HasRoot;
    roots, txns, accounts, left, ok := DeleteBook(b, book, budget);
    if !ok {
      return;
    }
    var rootGuid: Option<Guid>;
    accounts, rootGuid, left, ok := InsertAccounts(book, m, xs, b.next, accounts, left);
    if !ok {
      return;
    }
    accounts, left, ok := UpdateParents(book, m, xs, b.next, accounts, OtherAccounts(b, book), left);
    if !ok {
      return;
    }
    RootIdIffRoot(xs, b.next);
    if rootGuid.Some? {
      if left == 0 {
        ok := false;
        return;
      }
      left := left - 1;
      if book in roots {
        roots := roots[book := rootGuid];
      }
    }
  }

  // The second half: all transactions, then all splits.
  method WriteTransactions(
    book: Guid, m: map<Guid, Guid>, ts: seq<XTxn>, base: Guid, accounts: map<Guid, Account>, others: map<Guid, Txn>,
    budget: nat)
    returns (txns: map<Guid, Txn>, left: nat, ok: bool)
    ensures ok <==> budget >= |ts| + SplitCount(ts) && SplitsExist(accounts, m, ts)
    ensures ok ==>
      left == budget - |ts| - SplitCount(ts) && txns == others + TxnRows(book, m, ts, base, |ts|)
  {
    hide TxnRows, PartRows, SplitsExist, SplitCount;
    txns, left, ok := InsertTransactions(book, m, ts, base, others, budget);
    if !ok {
      return;
    }
    txns, left, ok := InsertSplits(book, m, ts, base, accounts, txns, others, left);
  }

  // Begin; the root first, then the rows that refer to others.
  method DeleteBook(b: Books, book: Guid, budget: nat)
    returns (roots: map<Guid, Option<Guid>>, txns: map<Guid, Txn>, accounts: map<Guid, Account>, left: nat, ok: bool)
    ensures ok <==> budget >= 5 && Deletable(b, book)
    ensures ok ==>
      && left == budget - 5
      && roots == (if book in b.roots then b.roots[book := None] else b.roots)
      && txns == OtherTxns(b, book) && accounts == OtherAccounts(b, book)
  {
    hide Deletable;
    roots, txns, accounts, left, ok := b.roots, b.txns, b.accounts, budget, false;
    if left == 0 {
      return;
    }
    left := left - 1;
    if left == 0 {
      return;
    }
    roots, left := if book in roots then roots[book := None] else roots, left - 1;
    if left == 0 {
      return;
    }
    txns, left := map g | g in txns :: if txns[g].book == book then txns[g].(splits := []) else txns[g], left - 1;
    if left == 0 {
      return;
    }
    txns, left := map g | g in txns && txns[g].book != book :: txns[g], left - 1;
    assert txns == OtherTxns(b, book);
    if left == 0 || !Deletable(b, book) {
      return;
    }
    accounts, left := map a | a in accounts && accounts[a].book != book :: accounts[a], left - 1;
    ok := true;
  }

  method WrapAccounts(accounts: seq<XAccount>, root: Guid) returns (xs: seq<XAccount>)
    ensures xs == Wrapped(accounts, root)
  {
    hide AllUnder;
    xs := accounts;
    var i := 0;
    while i < |accounts|
      invariant 0 <= i <= |accounts|
      invariant forall j :: 0 <= j < i ==> !accounts[j].kind.Root?
    {
      if accounts[i].kind.Root? {
        return;
      }
      i := i + 1;
    }
    xs := Reparent(accounts, root);
    xs := [RootOf(root)] + xs;
  }

  // Accounts without a parent go under the new root.
  method Reparent(accounts: seq<XAccount>, root: Guid) returns (xs: seq<XAccount>)
    ensures xs == AllUnder(accounts, root)
  {
    xs := accounts;
    var i := 0;
    while i < |accounts|
      invariant 0 <= i <= |accounts| == |xs|
      invariant forall j :: 0 <= j < i ==> xs[j] == Under(accounts[j], root)
      invariant forall j :: i <= j < |xs| ==> xs[j] == accounts[j]
    {
      if xs[i].parent.None? {
        xs := xs[i := xs[i].(parent := Some(root))];
      }
      i := i + 1;
    }
  }

  method MapIds(xs: seq<XAccount>, base: Guid) returns (m: map<Guid, Guid>)
    ensures m == NewIds(xs, base)
  {
    m := map[];
    var i := 0;
    while i < |xs|
      invariant 0 <= i <= |xs|
      invariant m == NewIds(xs[..i], base)
    {
      assert xs[..i + 1][..i] == xs[..i];
      m := m[xs[i].guid := base + i];
      i := i + 1;
    }
    assert xs[..i] == xs;
  }

  lemma RowInserted(book: Guid, m: map<Guid, Guid>, xs: seq<XAccount>, base: Guid, others: map<Guid, Account>, i: nat)
    requires i < |xs|
    ensures others + Rows(book, m, xs, base, i + 1, 0)
      == (others + Rows(book, m, xs, base, i, 0))[base + i := AccountRow(book, m, xs[i]).(parent := None)]
  {
    hide AccountRow;
    assert Rows(book, m, xs, base, i + 1, 0)
      == Rows(book, m, xs, base, i, 0)[base + i := AccountRow(book, m, xs[i]).(parent := None)];
  }

  lemma ParentFilledIn(
    book: Guid, m: map<Guid, Guid>, xs: seq<XAccount>, base: Guid, others: map<Guid, Account>, k: nat)
    requires k < |xs|
    ensures var before := others + Rows(book, m, xs, base, |xs|, k);
      && base + k in before && before[base + k] == AccountRow(book, m, xs[k]).(parent := None)
      && others + Rows(book, m, xs, base, |xs|, k + 1) == before[base + k := AccountRow(book, m, xs[k])]
      && (xs[k].parent.None? ==> others + Rows(book, m, xs, base, |xs|, k + 1) == before)
  {
    hide AccountRow;
    var before := Rows(book, m, xs, base, |xs|, k);
    var row := AccountRow(book, m, xs[k]);
    assert Rows(book, m, xs, base, |xs|, k + 1) == before[base + k := row];
    assert others + before[base + k := row] == (others + before)[base + k := row];
    if xs[k].parent.None? {
      WithoutParent(book, m, xs[k]);
      assert before[base + k := row] == before;
    }
  }

  lemma WithoutParent(book: Guid, m: map<Guid, Guid>, a: XAccount)
    ensures a.parent.None? ==> AccountRow(book, m, a).(parent := None) == AccountRow(book, m, a)
  {
  }

  lemma SameKeys(book: Guid, m: map<Guid, Guid>, xs: seq<XAccount>, base: Guid, others: map<Guid, Account>, k: nat)
    requires k <= |xs|
    ensures (others + Rows(book, m, xs, base, |xs|, k)).Keys == others.Keys + Range(base, |xs|)
  {
    hide AccountRow;
  }

  // All transactions; their splits are filled in for the first k.
  function PartRows(book: Guid, m: map<Guid, Guid>, ts: seq<XTxn>, base: Guid, k: nat): map<Guid, Txn>
    requires k <= |ts|
  {
    map g | g in Range(base, |ts|) ::
      if g < base + k then TxnRow(book, m, ts[g - base]) else TxnRow(book, m, ts[g - base]).(splits := [])
  }

  // Transactions without splits, the first n of them.
  function BareRows(book: Guid, m: map<Guid, Guid>, ts: seq<XTxn>, base: Guid, n: nat): map<Guid, Txn>
    requires n <= |ts|
  {
    map g | g in Range(base, n) :: TxnRow(book, m, ts[g - base]).(splits := [])
  }

  lemma TxnInserted(book: Guid, m: map<Guid, Guid>, ts: seq<XTxn>, base: Guid, others: map<Guid, Txn>, i: nat)
    requires i < |ts|
    ensures others + BareRows(book, m, ts, base, i + 1)
      == (others + BareRows(book, m, ts, base, i))[base + i := TxnRow(book, m, ts[i]).(splits := [])]
  {
    hide TxnRow;
    assert BareRows(book, m, ts, base, i + 1)
      == BareRows(book, m, ts, base, i)[base + i := TxnRow(book, m, ts[i]).(splits := [])];
  }

  lemma SplitsFilledIn(book: Guid, m: map<Guid, Guid>, ts: seq<XTxn>, base: Guid, others: map<Guid, Txn>, k: nat)
    requires k < |ts|
    ensures var before := others + PartRows(book, m, ts, base, k);
      && base + k in before && before[base + k] == TxnRow(book, m, ts[k]).(splits := [])
      && others + PartRows(book, m, ts, base, k + 1) == before[base + k := TxnRow(book, m, ts[k])]
  {
    hide TxnRow;
    assert PartRows(book, m, ts, base, k + 1) == PartRows(book, m, ts, base, k)[base + k := TxnRow(book, m, ts[k])];
  }

  lemma PartRowsAre(book: Guid, m: map<Guid, Guid>, ts: seq<XTxn>, base: Guid)
    ensures PartRows(book, m, ts, base, 0) == BareRows(book, m, ts, base, |ts|)
    ensures PartRows(book, m, ts, base, |ts|) == TxnRows(book, m, ts, base, |ts|)
  {
    hide TxnRow;
  }

  lemma NothingInserted(
    book: Guid, m: map<Guid, Guid>, p: Payload, base: Guid, accounts: map<Guid, Account>, txns: map<Guid, Txn>)
    ensures accounts + Rows(book, m, p.accounts, base, 0, 0) == accounts
    ensures txns + BareRows(book, m, p.txns, base, 0) == txns
  {
  }

  // Pass 1: accounts without parents, so that no order matters to foreign keys.
  method InsertAccounts(
    book: Guid, m: map<Guid, Guid>, xs: seq<XAccount>, base: Guid, others: map<Guid, Account>, budget: nat)
    returns (accounts: map<Guid, Account>, root: Option<Guid>, left: nat, ok: bool)
    ensures ok <==> budget >= |xs|
    ensures ok ==> left == budget - |xs|
    ensures ok ==> accounts == others + Rows(book, m, xs, base, |xs|, 0) && root == RootId(xs, base)
  {
    hide AccountRow, Rows;
    accounts, root, left, ok := others, None, budget, false;
    NothingInserted(book, m, Payload(xs, []), base, others, map[]);
    var i := 0;
    while i < |xs|
      invariant 0 <= i <= |xs|
      invariant accounts == others + Rows(book, m, xs, base, i, 0)
      invariant root == RootId(xs[..i], base)
      invariant left == budget - i
    {
      assert xs[..i + 1][..i] == xs[..i];
      if left == 0 {
        return;
      }
      if xs[i].kind.Root? {
        root := Some(base + i);
      }
      RowInserted(book, m, xs, base, others, i);
      accounts := accounts[base + i := AccountRow(book, m, xs[i]).(parent := None)];
      i, left := i + 1, left - 1;
    }
    assert xs[..i] == xs;
    ok := true;
  }

  // Pass 2: the hierarchy.
  method UpdateParents(
    book: Guid, m: map<Guid, Guid>, xs: seq<XAccount>, base: Guid, accounts0: map<Guid, Account>,
    ghost others: map<Guid, Account>, budget: nat)
    returns (accounts: map<Guid, Account>, left: nat, ok: bool)
    requires accounts0 == others + Rows(book, m, xs, base, |xs|, 0)
    ensures ok <==>
      && budget >= ParentCount(xs)
      && ParentsExist(others + Rows(book, m, xs, base, |xs|, |xs|), m, xs)
    ensures ok ==> left == budget - ParentCount(xs)
    ensures ok ==> accounts == others + Rows(book, m, xs, base, |xs|, |xs|)
  {
    hide Rows, Renamed;
    accounts, left, ok := accounts0, budget, false;
    SameKeys(book, m, xs, base, others, |xs|);
    var i := 0;
    while i < |xs|
      invariant 0 <= i <= |xs|
      invariant accounts == others + Rows(book, m, xs, base, |xs|, i)
      invariant left == budget - ParentCount(xs[..i])
      invariant forall j :: 0 <= j < i && xs[j].parent.Some? ==>
        Renamed(m, xs[j].parent.value) in others.Keys + Range(base, |xs|)
    {
      SameKeys(book, m, xs, base, others, i);
      ParentFilledIn(book, m, xs, base, others, i);
      assert xs[..i + 1][..i] == xs[..i];
      ParentCountGrows(xs, i + 1);
      if xs[i].parent.Some? {
        var parent := Renamed(m, xs[i].parent.value);
        assert xs[i] in xs;
        if left == 0 || parent !in accounts {
          return;
        }
        accounts, left := accounts[base + i := accounts[base + i].(parent := Some(parent))], left - 1;
      }
      i := i + 1;
    }
    assert xs[..i] == xs;
    ok := true;
  }

  // All transactions before any split.
  method InsertTransactions(
    book: Guid, m: map<Guid, Guid>, ts: seq<XTxn>, base: Guid, others: map<Guid, Txn>, budget: nat)
    returns (txns: map<Guid, Txn>, left: nat, ok: bool)
    ensures ok <==> budget >= |ts|
    ensures ok ==> left == budget - |ts| && txns == others + PartRows(book, m, ts, base, 0)
  {
    hide BareRows, PartRows, TxnRows;
    txns, left, ok := others, budget, false;
    NothingInserted(book, m, Payload([], ts), base, map[], others);
    var i := 0;
    while i < |ts|
      invariant 0 <= i <= |ts|
      invariant txns == others + BareRows(book, m, ts, base, i)
      invariant left == budget - i
    {
      if left == 0 {
        return;
      }
      TxnInserted(book, m, ts, base, others, i);
      txns := txns[base + i := Txn(book, None, ts[i].date, ts[i].description, [])];
      i, left := i + 1, left - 1;
    }
    PartRowsAre(book, m, ts, base);
    ok := true;
  }

  method InsertSplits(
    book: Guid, m: map<Guid, Guid>, ts: seq<XTxn>, base: Guid, accounts: map<Guid, Account>, txns0: map<Guid, Txn>,
    ghost others: map<Guid, Txn>, budget: nat)
    returns (txns: map<Guid, Txn>, left: nat, ok: bool)
    requires txns0 == others + PartRows(book, m, ts, base, 0)
    ensures ok <==> budget >= SplitCount(ts) && SplitsExist(accounts, m, ts)
    ensures ok ==> left == budget - SplitCount(ts) && txns == others + TxnRows(book, m, ts, base, |ts|)
  {
    hide Renamed, PartRows, BareRows, TxnRows, RenamedSplits, SplitsFound;
    txns, left, ok := txns0, budget, false;
    var i := 0;
    while i < |ts|
      invariant 0 <= i <= |ts|
      invariant txns == others + PartRows(book, m, ts, base, i)
      invariant left == budget - SplitCount(ts[..i])
      invariant forall j :: 0 <= j < i ==> SplitsFound(accounts, m, ts[j].splits)
    {
      assert ts[..i + 1][..i] == ts[..i];
      SplitCountGrows(ts, i + 1);
      SplitsFilledIn(book, m, ts, base, others, i);
      assert ts[i] in ts;
      var running;
      txns, left, running := InsertSplitsOf(m, ts[i].splits, base + i, accounts, txns, left);
      if !running {
        return;
      }
      i := i + 1;
    }
    assert ts[..i] == ts;
    PartRowsAre(book, m, ts, base);
    ok := true;
  }

  // One transaction's splits, row by row.
  method InsertSplitsOf(
    m: map<Guid, Guid>, splits: seq<Split>, txn: Guid, accounts: map<Guid, Account>, txns0: map<Guid, Txn>, budget: nat)
    returns (txns: map<Guid, Txn>, left: nat, ok: bool)
    requires txn in txns0 && txns0[txn].splits == []
    ensures ok <==> budget >= |splits| && SplitsFound(accounts, m, splits)
    ensures ok ==> left == budget - |splits|
    ensures ok ==> txns == txns0[txn := txns0[txn].(splits := RenamedSplits(m, splits))]
  {
    hide Renamed;
    txns, left, ok := txns0, budget, false;
    assert txns0[txn].(splits := []) == txns0[txn];
    var j := 0;
    while j < |splits|
      invariant 0 <= j <= |splits|
      invariant txn in txns && txns == txns0[txn := txns0[txn].(splits := RenamedSplits(m, splits)[..j])]
      invariant left == budget - j
      invariant forall k :: 0 <= k < j ==> Renamed(m, splits[k].account) in accounts
    {
      var account := Renamed(m, splits[j].account);
      assert RenamedSplits(m, splits)[..j + 1] == RenamedSplits(m, splits)[..j] + [splits[j].(account := account)];
      if left == 0 || account !in accounts {
        return;
      }
      txns := txns[txn := txns[txn].(splits := txns[txn].splits + [splits[j].(account := account)])];
      j, left := j + 1, left - 1;
    }
    assert RenamedSplits(m, splits)[..j] == RenamedSplits(m, splits);
    ok := true;
  }

  // ------------------------------------------------------------ the book's accounts can go

  // In valid books whose parents and roots stay within them, no foreign key holds
  // a book's accounts back: every book can be restored at any time.
  lemma ContainedIsDeletable(b: Books, book: Guid)
    requires Valid(b) && Contained(b)
    ensures Deletable(b, book) && Hierarchical(b, book)
  {
    hide SplitSum;
    forall g | g in b.txns && b.txns[g].book != book
      ensures forall s <- b.txns[g].splits :: !InBook(b, book, s.account)
    {
      assert WellPosted(b.accounts, b.txns[g]);
    }
    forall a | a in b.accounts && b.accounts[a].parent.Some?
      ensures OfBook(b, b.accounts[a].book, b.accounts[a].parent.value)
    {
    }
  }

  // A split, a parent or a root of another book that is an account of this one.
  predicate HeldBack(b: Books, book: Guid) {
    || (exists g :: g in b.txns && b.txns[g].book != book && UsesBook(b, book, b.txns[g].splits))
    || (exists a :: a in b.accounts && b.accounts[a].book != book && NamesBook(b, book, b.accounts[a].parent))
    || (exists k :: k in b.roots && k != book && NamesBook(b, book, b.roots[k]))
  }

  predicate UsesBook(b: Books, book: Guid, splits: seq<Split>) {
    exists s <- splits :: s.account in b.accounts && b.accounts[s.account].book == book
  }

  predicate NamesBook(b: Books, book: Guid, account: Option<Guid>) {
    account.Some? && account.value in b.accounts && b.accounts[account.value].book == book
  }

  // Only those hold it back.
  lemma DeletableIff(b: Books, book: Guid)
    ensures Deletable(b, book) <==> !HeldBack(b, book)
  {
    forall g | g in b.txns
      ensures UsesBook(b, book, b.txns[g].splits) <==> exists s <- b.txns[g].splits :: InBook(b, book, s.account)
    {
    }
  }

  // ------------------------------------------------------------ the renaming is an isomorphism

  predicate Distinct(xs: seq<XAccount>) {
    forall i, j :: 0 <= i < j < |xs| ==> xs[i].guid != xs[j].guid
  }

  predicate HasId(xs: seq<XAccount>, id: Guid) {
    exists x <- xs :: x.guid == id
  }

  predicate ClosedAccounts(xs: seq<XAccount>) {
    forall x <- xs :: x.parent.Some? ==> HasId(xs, x.parent.value)
  }

  predicate ClosedTxns(xs: seq<XAccount>, ts: seq<XTxn>) {
    forall t <- ts :: forall s <- t.splits :: HasId(xs, s.account)
  }

  lemma {:induction false} NewIdsAre(xs: seq<XAccount>, base: Guid)
    requires Distinct(xs)
    ensures var m := NewIds(xs, base);
      && (forall i :: 0 <= i < |xs| ==> xs[i].guid in m && m[xs[i].guid] == base + i)
      && (forall id :: id in m <==> HasId(xs, id))
  {
    if |xs| != 0 {
      NewIdsAre(xs[..|xs| - 1], base);
      assert forall id :: HasId(xs, id) <==> HasId(xs[..|xs| - 1], id) || id == xs[|xs| - 1].guid;
    }
  }

  // Should an id come twice, the later account counts for references to it.
  lemma {:induction false} LastIdWins(xs: seq<XAccount>, base: Guid, i: nat)
    requires i < |xs| && forall j :: i < j < |xs| ==> xs[j].guid != xs[i].guid
    ensures xs[i].guid in NewIds(xs, base) && NewIds(xs, base)[xs[i].guid] == base + i
  {
    if i < |xs| - 1 {
      LastIdWins(xs[..|xs| - 1], base, i);
    }
  }

  predicate Injective(m: map<Guid, Guid>) {
    forall x, y :: x in m && y in m && m[x] == m[y] ==> x == y
  }

  lemma NewIdsAreInjective(xs: seq<XAccount>, base: Guid)
    requires Distinct(xs)
    ensures Injective(NewIds(xs, base))
    ensures NewIds(xs, base).Values == Range(base, |xs|)
  {
    NewIdsAre(xs, base);
    var m := NewIds(xs, base);
    forall x, y | x in m && y in m && m[x] == m[y]
      ensures x == y
    {
      var i :| 0 <= i < |xs| && xs[i].guid == x;
      var j :| 0 <= j < |xs| && xs[j].guid == y;
    }
    forall v
      ensures v in m.Values <==> v in Range(base, |xs|)
    {
      if v in Range(base, |xs|) {
        assert m[xs[v - base].guid] == v;
      }
      if v in m.Values {
        var id :| id in m && m[id] == v;
        var i :| 0 <= i < |xs| && xs[i].guid == id;
      }
    }
  }

  lemma WrappedAt(xs: seq<XAccount>, root: Guid)
    requires !HasRoot(xs)
    ensures var ws := Wrapped(xs, root);
      && |ws| == |xs| + 1 && ws[0] == RootOf(root)
      && (forall i :: 0 < i < |ws| ==> ws[i] == Under(xs[i - 1], root) && !ws[i].kind.Root?)
  {
    var ws := Wrapped(xs, root);
    forall i | 0 < i < |ws|
      ensures ws[i] == Under(xs[i - 1], root) && !ws[i].kind.Root?
    {
      assert xs[i - 1] in xs;
    }
  }

  lemma IdsAt(xs: seq<XAccount>, i: nat)
    requires i < |xs|
    ensures HasId(xs, xs[i].guid)
  {
    assert xs[i] in xs;
  }

  // Wrapping keeps the payload's accounts, closes the hierarchy over the new
  // root, and adds a root exactly when there was none.
  lemma WrappedIsClosed(xs: seq<XAccount>, root: Guid)
    requires Distinct(xs) && ClosedAccounts(xs) && !HasId(xs, root)
    ensures var ws := Wrapped(xs, root);
      && Distinct(ws) && ClosedAccounts(ws) && HasRoot(ws)
      && (forall id :: HasId(xs, id) ==> HasId(ws, id))
      && (HasRoot(xs) ==> ws == xs)
      && (!HasRoot(xs) ==>
          && |ws| == |xs| + 1 && ws[0] == XAccount(root, "Root Account", Root, None, true)
          && (forall x <- ws :: x.kind.Root? ==> x == ws[0])
          && (forall i :: 0 <= i < |xs| ==>
               ws[i + 1] == xs[i].(parent := if xs[i].parent.None? then Some(root) else xs[i].parent)))
  {
    hide Wrapped;
    var ws := Wrapped(xs, root);
    if HasRoot(xs) {
      assert ws == xs by {
        AlreadyRooted(xs, root);
      }
    } else {
      hide HasId;
      WrappedAt(xs, root);
      assert HasRoot(ws) by {
        assert ws[0] in ws;
      }
      IdsAt(ws, 0);
      WrappedIds(xs, root);
      forall i | 0 < i < |ws|
        ensures ws[i].guid != root && HasId(ws, ws[i].guid) && HasId(ws, ws[i].parent.value)
      {
        IdsAt(xs, i - 1);
        assert xs[i - 1] in xs;
      }
    }
  }

  lemma AlreadyRooted(xs: seq<XAccount>, root: Guid)
    requires HasRoot(xs)
    ensures Wrapped(xs, root) == xs
  {
  }

  lemma WrappedIds(xs: seq<XAccount>, root: Guid)
    requires !HasRoot(xs)
    ensures forall id :: HasId(xs, id) ==> HasId(Wrapped(xs, root), id)
  {
    hide Wrapped;
    WrappedAt(xs, root);
    var ws := Wrapped(xs, root);
    forall id | HasId(xs, id)
      ensures HasId(ws, id)
    {
      var i :| 0 <= i < |xs| && xs[i].guid == id;
      IdsAt(ws, i + 1);
    }
  }

  // The book's root is the last root account of the list.
  lemma {:induction false} RootIdIsRoot(xs: seq<XAccount>, base: Guid)
    ensures HasRoot(xs) ==> RootId(xs, base).Some?
    ensures RootId(xs, base).Some? ==>
      && base <= RootId(xs, base).value < base + |xs| && xs[RootId(xs, base).value - base].kind.Root?
      && forall j :: RootId(xs, base).value - base < j < |xs| ==> !xs[j].kind.Root?
  {
    if |xs| != 0 {
      RootIdIsRoot(xs[..|xs| - 1], base);
    }
  }

  // The row of x under a renaming m.
  predicate IsRow(b: Books, book: Guid, m: map<Guid, Guid>, x: XAccount) {
    && x.guid in m && m[x.guid] in b.accounts && (x.parent.Some? ==> x.parent.value in m)
    && b.accounts[m[x.guid]] == Account(
      book, x.name, x.kind, if x.parent.Some? then Some(m[x.parent.value]) else None, x.placeholder, None)
  }

  // What the accounts of the book are after the restore.
  predicate AccountsAre(b: Books, book: Guid, xs: seq<XAccount>, m: map<Guid, Guid>) {
    BookAccounts(b, book) == m.Values && forall x <- xs :: IsRow(b, book, m, x)
  }

  function BookTxns(b: Books, book: Guid): set<Guid> {
    set g | g in b.txns && b.txns[g].book == book
  }

  predicate IsTxnRow(b: Books, book: Guid, m: map<Guid, Guid>, t: XTxn, g: Guid) {
    && g in b.txns
    && b.txns[g] == Txn(book, None, t.date, t.description, RenamedSplits(m, t.splits))
  }

  // And its transactions, which start at id base.
  predicate TxnsAre(b: Books, book: Guid, ts: seq<XTxn>, m: map<Guid, Guid>, base: Guid) {
    && BookTxns(b, book) == Range(base, |ts|)
    && (forall i :: 0 <= i < |ts| ==> IsTxnRow(b, book, m, ts[i], base + i))
    && (forall t <- ts :: forall s <- t.splits :: s.account in m)
  }

  // Restoring a closed payload with distinct ids succeeds, renames it by one
  // injective map to ids never used before, and touches no other book.
  lemma RestoreIsIsomorphic(b: Books, book: Guid, p: Payload, root: Guid)
    requires BelowNext(b) && Deletable(b, book)
    requires Distinct(p.accounts) && ClosedAccounts(p.accounts) && ClosedTxns(p.accounts, p.txns)
    requires !HasId(p.accounts, root)
    ensures Restored(b, book, p, root).Some?
    ensures var b' := Restored(b, book, p, root).value;
      var xs := Wrapped(p.accounts, root);
      var m := NewIds(xs, b.next);
      && Injective(m) && (forall id :: id in m <==> HasId(xs, id)) && (forall v <- m.Values :: v !in b.accounts)
      && AccountsAre(b', book, xs, m)
      && TxnsAre(b', book, p.txns, m, b.next + |xs|)
      && OtherAccounts(b', book) == OtherAccounts(b, book)
      && OtherTxns(b', book) == OtherTxns(b, book)
      && (forall k :: k != book ==> (k in b'.roots <==> k in b.roots) && (k in b.roots ==> b'.roots[k] == b.roots[k]))
      && (book in b.roots ==> exists x <- xs :: x.kind.Root? && x.guid in m && b'.roots[book] == Some(m[x.guid]))
      && BelowNext(b')
  {
    hide Deletable, RenamedSplits, RootId, NewIds, HasRoot, Wrapped, Distinct, ClosedAccounts, ClosedTxns, HasId,
      Restored, AccountsAre, TxnsAre, OtherAccounts, OtherTxns, BelowNext;
    var xs := Wrapped(p.accounts, root);
    var m := NewIds(xs, b.next);
    WrappedIsClosed(p.accounts, root);
    NewIdsAre(xs, b.next);
    NewIdsAreInjective(xs, b.next);
    Succeeds(b, book, p, root);
    AccountsPart(b, book, p, root);
    TxnsPart(b, book, p, root);
    OthersPart(b, book, p, root);
    RootsPart(b, book, p, root);
    NewIdsAreFresh(b, xs);
  }

  lemma NewIdsAreFresh(b: Books, xs: seq<XAccount>)
    requires BelowNext(b) && Distinct(xs)
    ensures forall v <- NewIds(xs, b.next).Values :: v !in b.accounts
  {
    hide NewIds;
    NewIdsAreInjective(xs, b.next);
  }

  lemma Succeeds(b: Books, book: Guid, p: Payload, root: Guid)
    requires Deletable(b, book)
    requires Distinct(p.accounts) && ClosedAccounts(p.accounts) && ClosedTxns(p.accounts, p.txns)
    requires !HasId(p.accounts, root)
    ensures Restored(b, book, p, root).Some?
  {
    hide Deletable, AccountRow, TxnRow, RootId, NewIds, Wrapped, OtherAccounts, OtherTxns, TxnRows, HasId;
    var xs := Wrapped(p.accounts, root);
    var m := NewIds(xs, b.next);
    WrappedIsClosed(p.accounts, root);
    NewIdsAre(xs, b.next);
    NewIdsAreInjective(xs, b.next);
    var accounts := OtherAccounts(b, book) + Rows(book, m, xs, b.next, |xs|, |xs|);
    forall id | HasId(xs, id)
      ensures Renamed(m, id) in accounts
    {
      assert m[id] in m.Values;
    }
  }

  // What a restore that succeeds leaves in each table.
  lemma RestoredTables(b: Books, book: Guid, p: Payload, root: Guid)
    requires Restored(b, book, p, root).Some?
    ensures var b' := Restored(b, book, p, root).value;
      var xs := Wrapped(p.accounts, root);
      var m := NewIds(xs, b.next);
      && b'.accounts == OtherAccounts(b, book) + Rows(book, m, xs, b.next, |xs|, |xs|)
      && b'.txns == OtherTxns(b, book) + TxnRows(book, m, p.txns, b.next + |xs|, |p.txns|)
      && b'.next == b.next + |xs| + |p.txns|
  {
    hide Rows, TxnRows, OtherAccounts, OtherTxns, Wrapped, NewIds, RootId, Deletable, ParentsExist, SplitsExist;
  }

  lemma RootsPart(b: Books, book: Guid, p: Payload, root: Guid)
    requires Distinct(p.accounts) && ClosedAccounts(p.accounts) && !HasId(p.accounts, root)
    requires Restored(b, book, p, root).Some?
    ensures var b' := Restored(b, book, p, root).value;
      var xs := Wrapped(p.accounts, root);
      var m := NewIds(xs, b.next);
      && (forall k :: k != book ==> (k in b'.roots <==> k in b.roots) && (k in b.roots ==> b'.roots[k] == b.roots[k]))
      && (book in b.roots ==> exists x <- xs :: x.kind.Root? && x.guid in m && b'.roots[book] == Some(m[x.guid]))
  {
    hide Rows, TxnRows, OtherAccounts, OtherTxns, Wrapped, NewIds, RootId, Deletable, ParentsExist, SplitsExist, HasId;
    var xs := Wrapped(p.accounts, root);
    WrappedIsClosed(p.accounts, root);
    RootIdIsRoot(xs, b.next);
    NewIdsAre(xs, b.next);
    var g := RootId(xs, b.next).value;
    assert xs[g - b.next] in xs;
  }

  lemma RowAt(b: Books, book: Guid, m: map<Guid, Guid>, xs: seq<XAccount>, b': Books, i: nat)
    requires b'.accounts == OtherAccounts(b, book) + Rows(book, m, xs, b.next, |xs|, |xs|) && i < |xs|
    ensures b.next + i in b'.accounts && b'.accounts[b.next + i] == AccountRow(book, m, xs[i])
  {
    hide AccountRow, OtherAccounts;
  }

  lemma RowsOfBook(b: Books, book: Guid, m: map<Guid, Guid>, xs: seq<XAccount>, b': Books)
    requires BelowNext(b)
    requires b'.accounts == OtherAccounts(b, book) + Rows(book, m, xs, b.next, |xs|, |xs|)
    ensures BookAccounts(b', book) == Range(b.next, |xs|)
  {
    hide Renamed, Range;
    var rows := Rows(book, m, xs, b.next, |xs|, |xs|);
    assert rows.Keys == Range(b.next, |xs|) && forall g <- rows :: rows[g].book == book;
    forall g
      ensures g in BookAccounts(b', book) <==> g in Range(b.next, |xs|)
    {
    }
  }

  lemma AccountsPart(b: Books, book: Guid, p: Payload, root: Guid)
    requires BelowNext(b) && Distinct(p.accounts) && ClosedAccounts(p.accounts) && !HasId(p.accounts, root)
    requires Restored(b, book, p, root).Some?
    ensures var xs := Wrapped(p.accounts, root);
      AccountsAre(Restored(b, book, p, root).value, book, xs, NewIds(xs, b.next))
  {
    hide Restored, NewIds, Wrapped, OtherTxns, TxnRows, HasId, Rows, OtherAccounts, BookAccounts;
    var xs := Wrapped(p.accounts, root);
    var m := NewIds(xs, b.next);
    WrappedIsClosed(p.accounts, root);
    NewIdsAre(xs, b.next);
    NewIdsAreInjective(xs, b.next);
    RestoredTables(b, book, p, root);
    var b' := Restored(b, book, p, root).value;
    RowsOfBook(b, book, m, xs, b');
    forall x <- xs
      ensures IsRow(b', book, m, x)
    {
      var i :| 0 <= i < |xs| && xs[i] == x;
      RowAt(b, book, m, xs, b', i);
    }
  }

  lemma TxnsPart(b: Books, book: Guid, p: Payload, root: Guid)
    requires BelowNext(b) && Distinct(p.accounts) && ClosedAccounts(p.accounts) && !HasId(p.accounts, root)
    requires ClosedTxns(p.accounts, p.txns)
    requires Restored(b, book, p, root).Some?
    ensures var xs := Wrapped(p.accounts, root);
      TxnsAre(Restored(b, book, p, root).value, book, p.txns, NewIds(xs, b.next), b.next + |xs|)
  {
    hide Restored, NewIds, Wrapped, Rows, OtherAccounts, RenamedSplits, HasId, TxnRows, OtherTxns, IsTxnRow, BookTxns;
    var xs := Wrapped(p.accounts, root);
    WrappedIsClosed(p.accounts, root);
    NewIdsAre(xs, b.next);
    RestoredTables(b, book, p, root);
    TxnsOfBook(b, book, NewIds(xs, b.next), p.txns, b.next + |xs|, Restored(b, book, p, root).value);
  }

  // The book's transactions afterwards are the new rows.
  lemma TxnsOfBook(b: Books, book: Guid, m: map<Guid, Guid>, ts: seq<XTxn>, base: Guid, b': Books)
    requires b'.txns == OtherTxns(b, book) + TxnRows(book, m, ts, base, |ts|)
    ensures BookTxns(b', book) == Range(base, |ts|)
    ensures forall i :: 0 <= i < |ts| ==> IsTxnRow(b', book, m, ts[i], base + i)
  {
    hide RenamedSplits;
    var rows := TxnRows(book, m, ts, base, |ts|);
    assert forall g <- rows :: rows[g].book == book;
    assert rows.Keys == Range(base, |ts|);
    forall g
      ensures g in BookTxns(b', book) <==> g in Range(base, |ts|)
    {
      assert g in OtherTxns(b, book) ==> OtherTxns(b, book)[g].book != book;
    }
  }

  lemma OthersPart(b: Books, book: Guid, p: Payload, root: Guid)
    requires BelowNext(b) && Restored(b, book, p, root).Some?
    ensures var b' := Restored(b, book, p, root).value;
      && OtherAccounts(b', book) == OtherAccounts(b, book) && OtherTxns(b', book) == OtherTxns(b, book)
      && BelowNext(b')
  {
    hide Restored, NewIds, Wrapped, Rows, TxnRows;
    RestoredTables(b, book, p, root);
    var xs := Wrapped(p.accounts, root);
    OtherAccountsStay(b, book, NewIds(xs, b.next), xs, Restored(b, book, p, root).value.accounts);
    OtherTxnsStay(b, book, NewIds(xs, b.next), p.txns, b.next + |xs|, Restored(b, book, p, root).value.txns);
  }

  lemma OtherAccountsStay(b: Books, book: Guid, m: map<Guid, Guid>, xs: seq<XAccount>, accounts: map<Guid, Account>)
    requires BelowNext(b)
    requires accounts == OtherAccounts(b, book) + Rows(book, m, xs, b.next, |xs|, |xs|)
    ensures (map a | a in accounts && accounts[a].book != book :: accounts[a]) == OtherAccounts(b, book)
    ensures forall a <- accounts :: a < b.next + |xs|
  {
    hide Renamed, Range;
    var rows := Rows(book, m, xs, b.next, |xs|, |xs|);
    assert forall g <- rows :: rows[g].book == book && b.next <= g < b.next + |xs|;
  }

  lemma OtherTxnsStay(b: Books, book: Guid, m: map<Guid, Guid>, ts: seq<XTxn>, base: Guid, txns: map<Guid, Txn>)
    requires BelowNext(b) && base >= b.next
    requires txns == OtherTxns(b, book) + TxnRows(book, m, ts, base, |ts|)
    ensures (map g | g in txns && txns[g].book != book :: txns[g]) == OtherTxns(b, book)
    ensures forall g <- txns :: g < base + |ts|
  {
    hide RenamedSplits, Range;
    var rows := TxnRows(book, m, ts, base, |ts|);
    assert forall g <- rows :: rows[g].book == book && base <= g < base + |ts|;
  }

  // Metadata is not exported: after a restore no transaction of the book carries
  // a Plaid id, and no account a bank link.
  lemma RestoreForgetsPlaid(b: Books, book: Guid, p: Payload, root: Guid, id: nat, a: Guid)
    requires Restored(b, book, p, root).Some?
    ensures !HasPlaidId(Restored(b, book, p, root).value, book, id)
    ensures var b' := Restored(b, book, p, root).value;
      InBook(b', book, a) ==> b'.accounts[a].link.None?
  {
    hide Restored, RenamedSplits, Renamed, NewIds, Wrapped, Range;
    RestoredTables(b, book, p, root);
  }

  // A parent or split that names neither an account of the payload nor one of
  // another book undoes the whole restore.
  lemma DanglingReferenceRollsBack(b: Books, book: Guid, p: Payload, root: Guid, id: Guid)
    requires Distinct(Wrapped(p.accounts, root)) && !HasId(Wrapped(p.accounts, root), id)
    requires id !in OtherAccounts(b, book) && id < b.next
    requires (exists x <- Wrapped(p.accounts, root) :: x.parent == Some(id))
      || (exists t <- p.txns :: exists s <- t.splits :: s.account == id)
    ensures Restored(b, book, p, root).None?
  {
    hide Deletable, RootId, NewIds, Wrapped, OtherAccounts, OtherTxns, TxnRows;
    var xs := Wrapped(p.accounts, root);
    NewIdsAre(xs, b.next);
    assert Renamed(NewIds(xs, b.next), id) == id;
  }

  // ------------------------------------------------------------ balances and validity follow

  lemma {:induction false} PostedRenamed(m: map<Guid, Guid>, splits: seq<Split>, id: Guid)
    requires Injective(m) && id in m && forall s <- splits :: s.denom != 0 && s.account in m
    ensures forall s <- RenamedSplits(m, splits) :: s.denom != 0
    ensures Posted(RenamedSplits(m, splits), m[id]) == Posted(splits, id)
  {
    var r := RenamedSplits(m, splits);
    assert forall i :: 0 <= i < |r| ==> r[i].denom == splits[i].denom && splits[i] in splits;
    if |splits| != 0 {
      PostedRenamed(m, splits[1..], id);
      assert r[1..] == RenamedSplits(m, splits[1..]);
    }
  }

  ghost function PayloadBalance(ts: seq<XTxn>, id: Guid): real
    requires forall t <- ts :: forall s <- t.splits :: s.denom != 0
  {
    if |ts| == 0 then 0.0
    else PayloadBalance(ts[..|ts| - 1], id) + Posted(ts[|ts| - 1].splits, id)
  }

  predicate HasDenominators(b: Books) {
    forall g <- b.txns :: forall s <- b.txns[g].splits :: s.denom != 0
  }

  // Every split is on a renamed account and has a value.
  predicate Renamable(ts: seq<XTxn>, m: map<Guid, Guid>) {
    forall t <- ts :: forall s <- t.splits :: s.denom != 0 && s.account in m
  }

  predicate AreTxnRows(b: Books, book: Guid, m: map<Guid, Guid>, ts: seq<XTxn>, base: Guid) {
    forall i :: 0 <= i < |ts| ==> IsTxnRow(b, book, m, ts[i], base + i)
  }

  lemma RangeSnoc(base: Guid, n: nat)
    requires n > 0
    ensures base + n - 1 in Range(base, n) && Range(base, n) - {base + n - 1} == Range(base, n - 1)
  {
    hide Range;
  }

  lemma {:induction false} SumOverRange(b: Books, book: Guid, ts: seq<XTxn>, m: map<Guid, Guid>, base: Guid, id: Guid)
    requires HasDenominators(b) && Injective(m) && id in m
    requires Renamable(ts, m) && AreTxnRows(b, book, m, ts, base)
    ensures SumOver(Range(base, |ts|), (g: Guid) => PostedBy(b, g, m[id])) == PayloadBalance(ts, id)
  {
    hide PostedBy, Posted, Injective, IsTxnRow;
    var f := (g: Guid) => PostedBy(b, g, m[id]);
    if |ts| > 0 {
      var init, t := ts[..|ts| - 1], ts[|ts| - 1];
      SumOverRange(b, book, init, m, base, id);
      RangeSnoc(base, |ts|);
      SumOverTake(Range(base, |ts|), f, base + |ts| - 1);
      PostedByRow(b, book, m, t, base + (|ts| - 1), id);
    }
  }

  lemma PostedByRow(b: Books, book: Guid, m: map<Guid, Guid>, t: XTxn, g: Guid, id: Guid)
    requires HasDenominators(b) && Injective(m) && id in m && IsTxnRow(b, book, m, t, g)
    requires forall s <- t.splits :: s.denom != 0 && s.account in m
    ensures PostedBy(b, g, m[id]) == Posted(t.splits, id)
  {
    PostedRenamed(m, t.splits, id);
  }

  lemma {:induction false} SumOverSplit(s: set<Guid>, t: set<Guid>, f: Guid -> real)
    requires s !! t && forall g <- t :: f(g) == 0.0
    ensures SumOver(s + t, f) == SumOver(s, f)
    decreases t
  {
    if t == {} {
      assert s + t == s;
    } else {
      var g :| g in t;
      SumOverTake(s + t, f, g);
      assert s + t - {g} == s + (t - {g});
      SumOverSplit(s, t - {g}, f);
    }
  }

  // Every account's balance is what the payload gives the account it came from.
  lemma BalancesFollow(b': Books, book: Guid, ts: seq<XTxn>, m: map<Guid, Guid>, base: Guid, id: Guid)
    requires HasDenominators(b') && Injective(m) && id in m
    requires forall t <- ts :: forall s <- t.splits :: s.denom != 0
    requires TxnsAre(b', book, ts, m, base)
    requires forall g <- b'.txns :: b'.txns[g].book != book ==> forall s <- b'.txns[g].splits :: s.account != m[id]
    ensures AccountBalance(b', m[id]) == PayloadBalance(ts, id)
  {
    hide Injective, RenamedSplits, PayloadBalance, IsTxnRow;
    var f := (g: Guid) => PostedBy(b', g, m[id]);
    var others := OtherTxns(b', book).Keys;
    assert b'.txns.Keys == Range(base, |ts|) + others by {
      assert forall g :: g in b'.txns <==> g in BookTxns(b', book) || g in others;
    }
    forall g <- others
      ensures f(g) == 0.0
    {
      NothingPosted(b'.txns[g].splits, m[id]);
    }
    SumOverSplit(Range(base, |ts|), others, f);
    SumOverRange(b', book, ts, m, base, id);
    assert AccountBalance(b', m[id]) == SumOver(b'.txns.Keys, f);
  }

  lemma {:induction false} SumRenamed(m: map<Guid, Guid>, splits: seq<Split>)
    requires forall s <- splits :: s.denom != 0
    ensures forall s <- RenamedSplits(m, splits) :: s.denom != 0
    ensures SplitSum(RenamedSplits(m, splits)) == SplitSum(splits)
  {
    var r := RenamedSplits(m, splits);
    assert forall i :: 0 <= i < |r| ==> r[i].denom == splits[i].denom && splits[i] in splits;
    if |splits| != 0 {
      assert r[1..] == RenamedSplits(m, splits[1..]);
      SumRenamed(m, splits[1..]);
    }
  }

  // A payload whose transactions balance is restored to books that do.
  ghost predicate Balanced(t: XTxn) {
    && |t.splits| >= 2
    && (forall s <- t.splits :: s.num != 0 && s.denom != 0)
    && SplitSum(t.splits) == 0.0
  }

  lemma RestoredTxnIsWellPosted(b': Books, book: Guid, m: map<Guid, Guid>, t: XTxn, g: Guid)
    requires Balanced(t) && IsTxnRow(b', book, m, t, g) && BookAccounts(b', book) == m.Values
    requires forall s <- t.splits :: s.account in m
    ensures WellPosted(b'.accounts, b'.txns[g])
  {
    hide SplitSum;
    SumRenamed(m, t.splits);
    var r := RenamedSplits(m, t.splits);
    forall s <- r
      ensures s.num != 0 && s.denom != 0 && s.account in b'.accounts && b'.accounts[s.account].book == book
    {
      var i :| 0 <= i < |r| && r[i] == s;
      assert t.splits[i] in t.splits;
      assert m[t.splits[i].account] in m.Values;
    }
  }

  lemma RestoreKeepsValid(b: Books, book: Guid, p: Payload, root: Guid)
    requires Valid(b) && Deletable(b, book)
    requires Distinct(p.accounts) && ClosedAccounts(p.accounts) && ClosedTxns(p.accounts, p.txns)
    requires !HasId(p.accounts, root)
    requires forall t <- p.txns :: Balanced(t)
    ensures Restored(b, book, p, root).Some?
    ensures Valid(Restored(b, book, p, root).value)
  {
    hide Restored, Deletable, Distinct, ClosedAccounts, ClosedTxns, HasId, Wrapped, NewIds, SplitSum, Injective,
      WellPosted, Balanced, IsRow, RenamedSplits;
    RestoreIsIsomorphic(b, book, p, root);
    var b' := Restored(b, book, p, root).value;
    var xs := Wrapped(p.accounts, root);
    var m, base := NewIds(xs, b.next), b.next + |xs|;
    forall g <- b'.txns
      ensures WellPosted(b'.accounts, b'.txns[g])
    {
      if b'.txns[g].book == book {
        assert g in BookTxns(b', book);
        var t := p.txns[g - base];
        assert IsTxnRow(b', book, m, t, base + (g - base)) && t in p.txns;
        RestoredTxnIsWellPosted(b', book, m, t, g);
      } else {
        OtherTxnStaysWellPosted(b, b', book, g);
      }
    }
  }

  // A restore keeps parents and roots within their books.
  lemma RestoreKeepsContained(b: Books, book: Guid, p: Payload, root: Guid)
    requires Valid(b) && Contained(b)
    requires Distinct(p.accounts) && ClosedAccounts(p.accounts) && ClosedTxns(p.accounts, p.txns)
    requires !HasId(p.accounts, root)
    ensures Restored(b, book, p, root).Some? && Contained(Restored(b, book, p, root).value)
  {
    hide Valid, Restored, Deletable, Distinct, ClosedAccounts, ClosedTxns, HasId, Wrapped, NewIds, TxnsAre;
    ContainedIsDeletable(b, book);
    ValidIsBelow(b);
    RestoreIsIsomorphic(b, book, p, root);
    var b' := Restored(b, book, p, root).value;
    var xs := Wrapped(p.accounts, root);
    var m := NewIds(xs, b.next);
    assert BookAccounts(b', book) == m.Values;
    forall a | a in b'.accounts && b'.accounts[a].parent.Some?
      ensures OfBook(b', b'.accounts[a].book, b'.accounts[a].parent.value)
    {
      if b'.accounts[a].book == book {
        assert a in m.Values;
        ParentInBook(b', book, xs, m, a);
      } else {
        OtherStays(b, b', book, a);
        OtherStays(b, b', book, b.accounts[a].parent.value);
      }
    }
    forall k | k in b'.roots && b'.roots[k].Some?
      ensures OfBook(b', k, b'.roots[k].value)
    {
      if k == book {
        RootInBook(b, book, p, root);
      } else {
        OtherStays(b, b', book, b.roots[k].value);
      }
    }
  }

  lemma ParentInBook(b': Books, book: Guid, xs: seq<XAccount>, m: map<Guid, Guid>, a: Guid)
    requires AccountsAre(b', book, xs, m) && (forall id :: id in m <==> HasId(xs, id))
    requires a in m.Values && a in b'.accounts && b'.accounts[a].parent.Some?
    ensures OfBook(b', book, b'.accounts[a].parent.value)
  {
    var id :| id in m && m[id] == a;
    assert HasId(xs, id);
    var x :| x in xs && x.guid == id;
    assert IsRow(b', book, m, x);
    assert m[x.parent.value] in BookAccounts(b', book);
  }

  lemma OtherStays(b: Books, b': Books, book: Guid, a: Guid)
    requires OtherAccounts(b', book) == OtherAccounts(b, book)
    ensures (a in b.accounts && b.accounts[a].book != book) <==> (a in b'.accounts && b'.accounts[a].book != book)
    ensures a in b.accounts && b.accounts[a].book != book ==> b'.accounts[a] == b.accounts[a]
  {
    assert a in OtherAccounts(b, book) <==> a in b.accounts && b.accounts[a].book != book;
    assert a in OtherAccounts(b', book) <==> a in b'.accounts && b'.accounts[a].book != book;
    if a in OtherAccounts(b, book) {
      assert OtherAccounts(b', book)[a] == OtherAccounts(b, book)[a];
    }
  }

  lemma RootInBook(b: Books, book: Guid, p: Payload, root: Guid)
    requires BelowNext(b) && Deletable(b, book)
    requires Distinct(p.accounts) && ClosedAccounts(p.accounts) && ClosedTxns(p.accounts, p.txns)
    requires !HasId(p.accounts, root)
    requires Restored(b, book, p, root).Some?
    requires var b' := Restored(b, book, p, root).value; book in b'.roots && b'.roots[book].Some?
    ensures var b' := Restored(b, book, p, root).value; OfBook(b', book, b'.roots[book].value)
  {
    hide Restored, Deletable, Distinct, ClosedAccounts, ClosedTxns, HasId, Wrapped, NewIds, BelowNext, TxnsAre, IsRow,
      OtherAccounts, OtherTxns;
    RestoreIsIsomorphic(b, book, p, root);
    RootsAreKept(b, book, p, root);
    var b' := Restored(b, book, p, root).value;
    var m := NewIds(Wrapped(p.accounts, root), b.next);
    assert b'.roots[book].value in m.Values;
    assert b'.roots[book].value in BookAccounts(b', book);
  }

  lemma RootsAreKept(b: Books, book: Guid, p: Payload, root: Guid)
    requires Restored(b, book, p, root).Some?
    ensures Restored(b, book, p, root).value.roots.Keys == b.roots.Keys
  {
    hide Rows, TxnRows, OtherAccounts, OtherTxns, Wrapped, NewIds, RootId, Deletable, ParentsExist, SplitsExist;
  }

  lemma OtherTxnStaysWellPosted(b: Books, b': Books, book: Guid, g: Guid)
    requires Valid(b) && g in b'.txns && b'.txns[g].book != book
    requires OtherAccounts(b', book) == OtherAccounts(b, book) && OtherTxns(b', book) == OtherTxns(b, book)
    ensures WellPosted(b'.accounts, b'.txns[g])
  {
    hide SplitSum;
    assert g in OtherTxns(b', book);
    assert WellPosted(b.accounts, b.txns[g]) && b'.txns[g] == b.txns[g];
    forall s <- b.txns[g].splits
      ensures s.account in b'.accounts && b'.accounts[s.account].book == b.txns[g].book
    {
      assert s.account in OtherAccounts(b, book);
      assert s.account in OtherAccounts(b', book);
    }
  }

  // ------------------------------------------------------------ snapshots round trip

  predicate ExportedAccount(b: Books, x: XAccount) {
    && x.guid in b.accounts
    && var a := b.accounts[x.guid];
       x.name == a.name && x.kind == a.kind && x.parent == a.parent && x.placeholder == a.placeholder
  }

  predicate ExportedTxn(b: Books, t: XTxn) {
    && t.guid in b.txns
    && var u := b.txns[t.guid];
       t.date == u.date && t.description == u.description && t.splits == u.splits
  }

  // buildExportData: each account and each transaction of the book, once, in
  // whatever order the database gives.
  predicate IsExport(b: Books, book: Guid, p: Payload) {
    && Distinct(p.accounts)
    && (set x <- p.accounts :: x.guid) == BookAccounts(b, book)
    && (forall x <- p.accounts :: ExportedAccount(b, x))
    && (forall i, j :: 0 <= i < j < |p.txns| ==> p.txns[i].guid != p.txns[j].guid)
    && (set t <- p.txns :: t.guid) == BookTxns(b, book)
    && (forall t <- p.txns :: ExportedTxn(b, t))
  }

  // Parents stay within the book.
  predicate Hierarchical(b: Books, book: Guid) {
    forall a <- BookAccounts(b, book) :: b.accounts[a].parent.Some? ==> InBook(b, book, b.accounts[a].parent.value)
  }

  function RenamedPayload(xs: seq<XAccount>, ts: seq<XTxn>, m: map<Guid, Guid>, base: Guid): Payload {
    Payload(
      seq(|xs|, i requires 0 <= i < |xs| => RenamedAccount(m, xs[i])),
      seq(|ts|, i requires 0 <= i < |ts| =>
        XTxn(base + i, ts[i].date, ts[i].description, RenamedSplits(m, ts[i].splits))))
  }

  function RenamedAccount(m: map<Guid, Guid>, x: XAccount): XAccount {
    x.(guid := Renamed(m, x.guid), parent := if x.parent.Some? then Some(Renamed(m, x.parent.value)) else None)
  }

  lemma ExportIsClosed(b: Books, book: Guid, p: Payload)
    requires Valid(b) && Hierarchical(b, book) && IsExport(b, book, p)
    ensures ClosedAccounts(p.accounts) && ClosedTxns(p.accounts, p.txns)
    ensures forall t <- p.txns :: Balanced(t)
  {
    hide SplitSum, HasId;
    ExportHasIds(b, book, p);
    forall x <- p.accounts | x.parent.Some?
      ensures HasId(p.accounts, x.parent.value)
    {
      assert x.guid in BookAccounts(b, book);
    }
    forall t <- p.txns
      ensures Balanced(t) && forall s <- t.splits :: HasId(p.accounts, s.account)
    {
      assert ExportedTxn(b, t) && t.guid in BookTxns(b, book);
      assert WellPosted(b.accounts, b.txns[t.guid]);
    }
  }

  lemma ExportHasIds(b: Books, book: Guid, p: Payload)
    requires IsExport(b, book, p)
    ensures forall id :: InBook(b, book, id) ==> HasId(p.accounts, id)
  {
    forall id | InBook(b, book, id)
      ensures HasId(p.accounts, id)
    {
      assert id in BookAccounts(b, book);
    }
  }

  // Restoring a book's own snapshot succeeds and keeps the books valid, and a
  // snapshot taken afterwards is the old one renamed (with the root it lacked).
  lemma SnapshotRoundTrip(b: Books, book: Guid, p: Payload, root: Guid)
    requires Valid(b) && Hierarchical(b, book) && Deletable(b, book) && IsExport(b, book, p)
    requires !HasId(p.accounts, root)
    ensures Restored(b, book, p, root).Some?
    ensures var b' := Restored(b, book, p, root).value;
      var xs := Wrapped(p.accounts, root);
      var m := NewIds(xs, b.next);
      && Valid(b') && Injective(m)
      && IsExport(b', book, RenamedPayload(xs, p.txns, m, b.next + |xs|))
  {
    hide Restored, Deletable, Hierarchical, IsExport, ClosedAccounts, ClosedTxns, HasId, Wrapped, NewIds, Valid,
      Balanced, Injective, AccountsAre, TxnsAre, OtherAccounts, OtherTxns;
    ExportIsClosed(b, book, p);
    assert Distinct(p.accounts) by {
      ExportIsDistinct(b, book, p);
    }
    RestoreKeepsValid(b, book, p, root);
    ValidIsBelow(b);
    RestoreIsIsomorphic(b, book, p, root);
    var xs := Wrapped(p.accounts, root);
    WrappedIsClosed(p.accounts, root);
    NewIdsAre(xs, b.next);
    IsomorphicIsExport(Restored(b, book, p, root).value, book, xs, p.txns, NewIds(xs, b.next), b.next + |xs|);
  }

  lemma ExportIsDistinct(b: Books, book: Guid, p: Payload)
    requires IsExport(b, book, p)
    ensures Distinct(p.accounts)
  {
  }

  lemma ValidIsBelow(b: Books)
    requires Valid(b)
    ensures BelowNext(b)
  {
    hide WellPosted;
  }

  lemma IsomorphicIsExport(b': Books, book: Guid, xs: seq<XAccount>, ts: seq<XTxn>, m: map<Guid, Guid>, base: Guid)
    requires Injective(m) && Distinct(xs) && (forall id :: id in m <==> HasId(xs, id))
    requires AccountsAre(b', book, xs, m) && TxnsAre(b', book, ts, m, base)
    ensures IsExport(b', book, RenamedPayload(xs, ts, m, base))
  {
    hide RenamedSplits;
    var p := RenamedPayload(xs, ts, m, base);
    forall i | 0 <= i < |xs|
      ensures p.accounts[i].guid == m[xs[i].guid] && xs[i].guid in m && ExportedAccount(b', p.accounts[i])
    {
      assert IsRow(b', book, m, xs[i]);
    }
    forall v
      ensures v in (set x <- p.accounts :: x.guid) <==> v in m.Values
    {
      if v in m.Values {
        var id :| id in m && m[id] == v;
        var i :| 0 <= i < |xs| && xs[i].guid == id;
        assert p.accounts[i] in p.accounts;
      }
    }
    forall i | 0 <= i < |ts|
      ensures p.txns[i].guid == base + i && ExportedTxn(b', p.txns[i])
    {
      assert IsTxnRow(b', book, m, ts[i], base + i);
    }
    forall g
      ensures g in (set t <- p.txns :: t.guid) <==> g in Range(base, |ts|)
    {
      if g in Range(base, |ts|) {
        assert p.txns[g - base] in p.txns;
      }
    }
  }

  // Field by field: restoring a snapshot brings every account back under its new
  // id, below the account it was below, or below the root the book lacked ...
  lemma RestoredAccountIs(b: Books, book: Guid, p: Payload, root: Guid, id: Guid)
    requires Valid(b) && Hierarchical(b, book) && Deletable(b, book) && IsExport(b, book, p)
    requires !HasId(p.accounts, root) && InBook(b, book, id)
    ensures Restored(b, book, p, root).Some?
    ensures var b' := Restored(b, book, p, root).value;
      var m := NewIds(Wrapped(p.accounts, root), b.next);
      && id in m && m[id] in b'.accounts
      && var a, a' := b.accounts[id], b'.accounts[m[id]];
      && a'.book == book && a'.name == a.name && a'.kind == a.kind
      && a'.placeholder == a.placeholder && a'.link.None?
      && (a.parent.Some? ==> a.parent.value in m && a'.parent == Some(m[a.parent.value]))
      && (a.parent.None? && RootedBook(b, book) ==> a'.parent == None)
      && (a.parent.None? && !RootedBook(b, book) ==> root in m && a'.parent == Some(m[root]))
  {
    hide Restored, Deletable, Hierarchical, ClosedAccounts, ClosedTxns, NewIds, Valid, Injective, TxnsAre,
      OtherAccounts, OtherTxns, Wrapped, HasRoot, Distinct;
    Restores(b, book, p, root);
    ExportHasIds(b, book, p);
    ExportHasRoot(b, book, p);
    var x :| x in p.accounts && x.guid == id;
    assert ExportedAccount(b, x);
    WrappedHas(p.accounts, root, x);
    var x' := if HasRoot(p.accounts) then x else Under(x, root);
    assert IsRow(
      Restored(b, book, p, root).value, book, NewIds(Wrapped(p.accounts, root), b.next), x');
  }

  lemma Restores(b: Books, book: Guid, p: Payload, root: Guid)
    requires Valid(b) && Hierarchical(b, book) && Deletable(b, book) && IsExport(b, book, p)
    requires !HasId(p.accounts, root)
    ensures Restored(b, book, p, root).Some?
    ensures var b' := Restored(b, book, p, root).value;
      var xs := Wrapped(p.accounts, root);
      var m := NewIds(xs, b.next);
      && AccountsAre(b', book, xs, m) && TxnsAre(b', book, p.txns, m, b.next + |xs|)
  {
    hide Restored, Deletable, Hierarchical, IsExport, ClosedAccounts, ClosedTxns, HasId, Wrapped, NewIds, Valid,
      Injective, AccountsAre, TxnsAre, OtherAccounts, OtherTxns, Distinct;
    ExportIsClosed(b, book, p);
    ExportIsDistinct(b, book, p);
    ValidIsBelow(b);
    RestoreIsIsomorphic(b, book, p, root);
  }

  predicate RootedBook(b: Books, book: Guid) {
    exists a <- b.accounts :: b.accounts[a].book == book && b.accounts[a].kind.Root?
  }

  lemma ExportHasRoot(b: Books, book: Guid, p: Payload)
    requires IsExport(b, book, p)
    ensures HasRoot(p.accounts) <==> RootedBook(b, book)
  {
    ExportHasIds(b, book, p);
    forall x <- p.accounts
      ensures x.guid in BookAccounts(b, book) && ExportedAccount(b, x)
    {
    }
    if RootedBook(b, book) {
      var a :| a in b.accounts && b.accounts[a].book == book && b.accounts[a].kind.Root?;
      assert InBook(b, book, a);
      var x :| x in p.accounts && x.guid == a;
      assert x.kind.Root?;
    }
  }

  lemma WrappedHas(accounts: seq<XAccount>, root: Guid, x: XAccount)
    requires x in accounts
    ensures (if HasRoot(accounts) then x else Under(x, root)) in Wrapped(accounts, root)
  {
    hide HasRoot;
    var i :| 0 <= i < |accounts| && accounts[i] == x;
    assert AllUnder(accounts, root)[i] == Under(x, root);
    assert ([RootOf(root)] + AllUnder(accounts, root))[i + 1] == Under(x, root);
  }

  // ... and every transaction with its date, text and splits.
  lemma RestoredTxnIs(b: Books, book: Guid, p: Payload, root: Guid, g: Guid) returns (h: Guid)
    requires Valid(b) && Hierarchical(b, book) && Deletable(b, book) && IsExport(b, book, p)
    requires !HasId(p.accounts, root) && g in b.txns && b.txns[g].book == book
    ensures Restored(b, book, p, root).Some?
    ensures var b' := Restored(b, book, p, root).value;
      var m := NewIds(Wrapped(p.accounts, root), b.next);
      && h in b'.txns
      && var t, t' := b.txns[g], b'.txns[h];
      && t'.book == book && t'.date == t.date && t'.description == t.description && t'.plaidId.None?
      && |t'.splits| == |t.splits|
      && forall i :: 0 <= i < |t.splits| ==> IsRenamed(m, t.splits[i], t'.splits[i])
  {
    hide Restored, Deletable, Hierarchical, ClosedAccounts, ClosedTxns, NewIds, Valid, Injective, AccountsAre,
      OtherAccounts, OtherTxns, Wrapped, HasId, Distinct;
    Restores(b, book, p, root);
    assert g in BookTxns(b, book);
    var t :| t in p.txns && t.guid == g;
    var i :| 0 <= i < |p.txns| && p.txns[i] == t;
    assert ExportedTxn(b, t);
    var xs := Wrapped(p.accounts, root);
    h := b.next + |xs| + i;
    assert IsTxnRow(Restored(b, book, p, root).value, book, NewIds(xs, b.next), p.txns[i], h);
    assert forall s <- t.splits :: s.account in NewIds(xs, b.next);
  }

  // The same split on the account's new id.
  predicate IsRenamed(m: map<Guid, Guid>, s: Split, s': Split) {
    && s.account in m && s'.account == m[s.account] && s'.num == s.num && s'.denom == s.denom
    && s'.quantityNum == s.quantityNum && s'.quantityDenom == s.quantityDenom && s'.mark == s.mark
  }

  function Guids(ts: seq<XTxn>): set<Guid> {
    set t <- ts :: t.guid
  }

  lemma {:induction false} SumOverExport(b: Books, ts: seq<XTxn>, id: Guid)
    requires HasDenominators(b)
    requires forall i, j :: 0 <= i < j < |ts| ==> ts[i].guid != ts[j].guid
    requires forall t <- ts :: ExportedTxn(b, t)
    ensures forall t <- ts :: forall s <- t.splits :: s.denom != 0
    ensures SumOver(Guids(ts), (g: Guid) => PostedBy(b, g, id)) == PayloadBalance(ts, id)
  {
    var f := (g: Guid) => PostedBy(b, g, id);
    if |ts| == 0 {
      assert Guids(ts) == {};
    } else {
      var init, t := ts[..|ts| - 1], ts[|ts| - 1];
      SumOverExport(b, init, id);
      assert t.guid !in Guids(init);
      assert Guids(ts) == Guids(init) + {t.guid} by {
        forall g
          ensures g in Guids(ts) <==> g in Guids(init) + {t.guid}
        {
          if g in Guids(ts) {
            var u :| u in ts && u.guid == g;
          }
        }
      }
      SumOverTake(Guids(ts), f, t.guid);
      assert Guids(ts) - {t.guid} == Guids(init);
      assert ExportedTxn(b, t);
    }
  }

  // An export carries each of the book's accounts with its balance.
  lemma ExportBalance(b: Books, book: Guid, p: Payload, id: Guid)
    requires IsExport(b, book, p) && HasDenominators(b)
    requires forall g <- b.txns :: b.txns[g].book != book ==> forall s <- b.txns[g].splits :: s.account != id
    ensures forall t <- p.txns :: forall s <- t.splits :: s.denom != 0
    ensures PayloadBalance(p.txns, id) == AccountBalance(b, id)
  {
    SumOverExport(b, p.txns, id);
    var f := (g: Guid) => PostedBy(b, g, id);
    var others := OtherTxns(b, book).Keys;
    assert b.txns.Keys == BookTxns(b, book) + others;
    forall g <- others
      ensures f(g) == 0.0
    {
      NothingPosted(b.txns[g].splits, id);
    }
    SumOverSplit(BookTxns(b, book), others, f);
    assert Guids(p.txns) == BookTxns(b, book);
    assert AccountBalance(b, id) == SumOver(b.txns.Keys, f);
  }

  lemma NoForeignSplits(b: Books, book: Guid, id: Guid)
    requires Valid(b) && (id !in b.accounts || b.accounts[id].book == book)
    ensures forall g <- b.txns :: b.txns[g].book != book ==> forall s <- b.txns[g].splits :: s.account != id
  {
    hide SplitSum;
    forall g <- b.txns | b.txns[g].book != book
      ensures forall s <- b.txns[g].splits :: s.account != id
    {
      assert WellPosted(b.accounts, b.txns[g]);
    }
  }

  // Restoring a snapshot gives every account the balance it had.
  lemma RestoreKeepsBalances(b: Books, book: Guid, p: Payload, root: Guid, id: Guid)
    requires Valid(b) && Hierarchical(b, book) && Deletable(b, book) && IsExport(b, book, p)
    requires !HasId(p.accounts, root) && InBook(b, book, id)
    ensures Restored(b, book, p, root).Some?
    ensures var b' := Restored(b, book, p, root).value;
      var m := NewIds(Wrapped(p.accounts, root), b.next);
      && HasDenominators(b) && HasDenominators(b')
      && id in m && m[id] in BookAccounts(b', book)
      && AccountBalance(b', m[id]) == AccountBalance(b, id)
  {
    hide Restored, Deletable, Hierarchical, IsExport, ClosedAccounts, ClosedTxns, HasId, Wrapped, NewIds, Valid,
      Balanced, Injective, AccountsAre, TxnsAre, OtherAccounts, OtherTxns, AccountBalance, PayloadBalance, IsTxnRow;
    SnapshotRoundTrip(b, book, p, root);
    ExportIsClosed(b, book, p);
    ExportIsDistinct(b, book, p);
    ExportHasIds(b, book, p);
    ValidIsBelow(b);
    RestoreIsIsomorphic(b, book, p, root);
    WrappedIsClosed(p.accounts, root);
    var b' := Restored(b, book, p, root).value;
    var xs := Wrapped(p.accounts, root);
    var m := NewIds(xs, b.next);
    NewIdsAre(xs, b.next);
    assert m[id] in m.Values;
    assert BookAccounts(b', book) == m.Values by {
      AccountsOfBook(b', book, xs, m);
    }
    ValidHasDenominators(b);
    ValidHasDenominators(b');
    NoForeignSplits(b, book, id);
    NoForeignSplits(b', book, m[id]);
    ExportBalance(b, book, p, id);
    BalancesFollow(b', book, p.txns, m, b.next + |xs|, id);
  }

  lemma AccountsOfBook(b: Books, book: Guid, xs: seq<XAccount>, m: map<Guid, Guid>)
    requires AccountsAre(b, book, xs, m)
    ensures BookAccounts(b, book) == m.Values
  {
  }
}
