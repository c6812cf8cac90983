/**
 The staging table (stageDelta and fetchAndStage in
 backend/internal/plaid/service.go). One page of the bank's feed is a list of
 statements that commit one by one; Exec is what one of them does to the table.
 */
module Staging {
  import opened Wrappers
  import opened Ledger

  type Id = nat

  // One entry of /transactions/sync. num > 0 is money leaving the account.
  datatype Entry = Entry(
    id: Id, predecessor: Option<Id>, bankAccount: nat, date: int, description: string,
    num: int, denom: int, pending: bool)

  datatype Delta = Delta(added: seq<Entry>, modified: seq<Entry>, removed: seq<Id>)

  // A row of plaid_staged_transactions, keyed by transaction id.
  datatype Row = Row(
    predecessor: Option<Id>, bankAccount: nat, date: int, description: string,
    num: int, denom: int, pending: bool, dismissed: bool)

  type Table = map<Id, Row>

  // The part of the database staging only reads: one book of the ledger.
  datatype Book = Book(books: Books, guid: Guid)

  predicate Imported(b: Book, id: Id) {
    HasPlaidId(b.books, b.guid, id)
  }

  predicate LinkedTo(b: Book, account: Guid, bankAccount: nat) {
    && account in b.books.accounts
    && b.books.accounts[account].book == b.guid
    && b.books.accounts[account].link.Some?
    && b.books.accounts[account].link.value.bankAccount == bankAccount
  }

  predicate Carries(b: Book, splits: seq<Split>, bankAccount: nat, num: int, denom: int) {
    exists s <- splits :: LinkedTo(b, s.account, bankAccount) && s.num == -num && s.denom == denom
  }

  // importedValueMatches: the transaction imported under id moved exactly this
  // amount on the linked bank account.
  predicate ValueMatches(b: Book, id: Id, bankAccount: nat, num: int, denom: int) {
    exists g :: g in b.books.txns
      && b.books.txns[g].book == b.guid && b.books.txns[g].plaidId == Some(id)
      && Carries(b, b.books.txns[g].splits, bankAccount, num, denom)
  }

  // The posted entry is the very movement already imported as pending.
  predicate Replaced(b: Book, e: Entry) {
    && e.predecessor.Some?
    && Imported(b, e.predecessor.value)
    && ValueMatches(b, e.predecessor.value, e.bankAccount, e.num, e.denom)
  }

  // ------------------------------------------------------------ statements

  datatype Op =
    | Stage(entry: Entry)
    | Settle(entry: Entry)
    | Remove(ids: seq<Id>)

  predicate Dismissed(t: Table, id: Id) {
    id in t && t[id].dismissed
  }

  function DeleteRows(t: Table, ids: set<Id>): Table {
    t - ids
  }

  function DeleteUndismissed(t: Table, ids: set<Id>): Table {
    map id | id in t && (id !in ids || t[id].dismissed) :: t[id]
  }

  function Both(e: Entry): set<Id> {
    if e.predecessor.Some? then {e.id, e.predecessor.value} else {e.id}
  }

  // The dismissal an entry takes over from its pending predecessor's row.
  predicate Inherits(t: Table, e: Entry) {
    e.predecessor.Some? && Dismissed(t, e.predecessor.value)
  }

  // INSERT ... ON CONFLICT: the bank account of an existing row stays, and its
  // dismissal is never taken back.
  function Upsert(t: Table, e: Entry, inherited: bool): Table {
    t[e.id := Row(
        e.predecessor,
        if e.id in t then t[e.id].bankAccount else e.bankAccount,
        e.date, e.description, e.num, e.denom, e.pending,
        Dismissed(t, e.id) || inherited)]
  }

  function Exec(b: Book, t: Table, op: Op): Table {
    match op
    case Stage(e) => if Replaced(b, e) then DeleteRows(t, Both(e)) else Upsert(t, e, Inherits(t, e))
    case Settle(e) => DeleteUndismissed(t, Both(e))
    case Remove(ids) => DeleteUndismissed(t, set id | id in ids)
  }

  // ------------------------------------------------------------ what one statement leaves

  // The row says what the entry says, but for the account it was first seen on.
  predicate Records(row: Row, e: Entry) {
    && row.predecessor == e.predecessor && row.date == e.date && row.description == e.description
    && row.num == e.num && row.denom == e.denom && row.pending == e.pending
  }

  // A split of the opposite amount on an account of the book that is linked to
  // the entry's bank account.
  predicate Moves(b: Book, s: Split, e: Entry) {
    && s.num == -e.num && s.denom == e.denom && s.account in b.books.accounts
    && var a := b.books.accounts[s.account];
       a.book == b.guid && a.link.Some? && a.link.value.bankAccount == e.bankAccount
  }

  // A transaction of the book, imported under the pending id, has such a split.
  predicate MovedBefore(b: Book, e: Entry) {
    e.predecessor.Some? && exists g :: g in b.books.txns && MovedBy(b, b.books.txns[g], e)
  }

  predicate MovedBy(b: Book, t: Txn, e: Entry) {
    t.book == b.guid && t.plaidId == e.predecessor && exists s <- t.splits :: Moves(b, s, e)
  }

  ghost predicate SameElsewhere(t: Table, t': Table, ids: set<Id>) {
    forall id :: id !in ids ==> (id in t' <==> id in t) && (id in t ==> t'[id] == t[id])
  }

  // A non-zero entry: both copies go if the movement is in the books already;
  // otherwise its row holds the entry, keeps the account of an earlier row, and is
  // dismissed if that row or the pending one's was. No other row changes.
  lemma StagedRowIs(b: Book, t: Table, e: Entry)
    ensures var t' := Exec(b, t, Stage(e));
      if MovedBefore(b, e) then
        e.id !in t' && e.predecessor.value !in t' && SameElsewhere(t, t', {e.id, e.predecessor.value})
      else
        && e.id in t' && Records(t'[e.id], e)
        && t'[e.id].bankAccount == (if e.id in t then t[e.id].bankAccount else e.bankAccount)
        && (t'[e.id].dismissed <==>
            || (e.id in t && t[e.id].dismissed)
            || (e.predecessor.Some? && e.predecessor.value in t && t[e.predecessor.value].dismissed))
        && SameElsewhere(t, t', {e.id})
  {
    assert MovedBefore(b, e) <==> Replaced(b, e) by {
      MovedIsReplaced(b, e);
    }
  }

  lemma MovedIsReplaced(b: Book, e: Entry)
    ensures MovedBefore(b, e) <==> Replaced(b, e)
  {
    forall g | g in b.books.txns && e.predecessor.Some?
      ensures MovedBy(b, b.books.txns[g], e) <==>
        && b.books.txns[g].book == b.guid && b.books.txns[g].plaidId == Some(e.predecessor.value)
        && Carries(b, b.books.txns[g].splits, e.bankAccount, e.num, e.denom)
    {
      assert forall s ::
        Moves(b, s, e) <==> LinkedTo(b, s.account, e.bankAccount) && s.num == -e.num && s.denom == e.denom;
    }
  }

  // A settlement or a removal: the undismissed rows among its ids go, and no
  // other row changes.
  lemma SettledRowsGo(b: Book, t: Table, op: Op)
    requires !op.Stage?
    ensures var t' := Exec(b, t, op);
      var ids := if op.Remove? then set id | id in op.ids
        else if op.entry.predecessor.Some? then {op.entry.id, op.entry.predecessor.value}
        else {op.entry.id};
      && (forall id <- ids :: id in t' <==> id in t && t[id].dismissed)
      && (forall id <- t' :: id in t && t'[id] == t[id])
      && SameElsewhere(t, t', ids)
  {
  }

  function ExecAll(b: Book, t: Table, ops: seq<Op>): Table {
    if |ops| == 0 then t
    else Exec(b, ExecAll(b, t, ops[..|ops| - 1]), ops[|ops| - 1])
  }

  lemma ExecAllSnoc(b: Book, t: Table, ops: seq<Op>, op: Op)
    ensures ExecAll(b, t, ops + [op]) == Exec(b, ExecAll(b, t, ops), op)
  {
    assert (ops + [op])[..|ops|] == ops;
  }

  lemma {:induction false} ExecAllConcat(b: Book, t: Table, left: seq<Op>, right: seq<Op>)
    ensures ExecAll(b, t, left + right) == ExecAll(b, ExecAll(b, t, left), right)
    decreases |right|
  {
    if |right| == 0 {
      assert left + right == left;
    } else {
      var init := right[..|right| - 1];
      assert (left + right)[..|left + right| - 1] == left + init;
      ExecAllConcat(b, t, left, init);
    }
  }

  // ------------------------------------------------------------ pages

  // First pass: every non-zero entry, in order.
  function Stages(es: seq<Entry>): (ops: seq<Op>)
    ensures |ops| <= |es|
    ensures forall op <- ops :: op.Stage? && op.entry in es && op.entry.num != 0
  {
    if |es| == 0 then []
    else
      var e := es[|es| - 1];
      Stages(es[..|es| - 1]) + if e.num != 0 then [Stage(e)] else []
  }

  // Second pass: the zero-amount entries.
  function Settles(es: seq<Entry>): (ops: seq<Op>)
    ensures |ops| <= |es|
    ensures forall op <- ops :: op.Settle? && op.entry in es && op.entry.num == 0
  {
    if |es| == 0 then []
    else
      var e := es[|es| - 1];
      Settles(es[..|es| - 1]) + if e.num == 0 then [Settle(e)] else []
  }

  function Removes(ids: seq<Id>): seq<Op> {
    if |ids| > 0 then [Remove(ids)] else []
  }

  function Entries(d: Delta): seq<Entry> {
    d.added + d.modified
  }

  function Ops(d: Delta): seq<Op> {
    Stages(Entries(d)) + Settles(Entries(d)) + Removes(d.removed)
  }

  // The statements of pages[from..end].
  function PageOps(pages: seq<Delta>, from: nat, end: nat): seq<Op>
    requires from <= end <= |pages|
  {
    if from == end then [] else PageOps(pages, from, end - 1) + Ops(pages[end - 1])
  }

  lemma {:induction false} PageOpsSplit(pages: seq<Delta>, from: nat, mid: nat, end: nat)
    requires from <= mid <= end <= |pages|
    ensures PageOps(pages, from, end) == PageOps(pages, from, mid) + PageOps(pages, mid, end)
    decreases end
  {
    hide Ops;
    if mid < end {
      PageOpsSplit(pages, from, mid, end - 1);
      var a, b, c := PageOps(pages, from, mid), PageOps(pages, mid, end - 1), Ops(pages[end - 1]);
      assert PageOps(pages, from, end) == (a + b) + c;
      assert (a + b) + c == a + (b + c);
    } else {
      assert PageOps(pages, from, mid) + [] == PageOps(pages, from, mid);
    }
  }

  const MAX_SYNC_PAGES: nat := 3

  // Where a run that starts at cursor start stops fetching.
  function Reach(pages: seq<Delta>, start: nat): (end: nat)
    requires start <= |pages|
    ensures start <= end <= |pages| && (start < |pages| ==> start < end)
  {
    if start + MAX_SYNC_PAGES <= |pages| then start + MAX_SYNC_PAGES else |pages|
  }

  function RunOps(pages: seq<Delta>, start: nat): seq<Op>
    requires start <= |pages|
  {
    PageOps(pages, start, Reach(pages, start))
  }
}
