/**
 Every run of the calls that write transactions: CreateTransaction,
 UpdateTransaction and DeleteTransaction (transaction_service.go in
 backend/internal/services), the imports of Plaid rows (service.go in
 backend/internal/plaid) and restores (import_export.go in
 backend/internal/handlers).
 */
module PostingRuns {
  import opened Wrappers
  import opened Numeric
  import opened Ledger
  import opened Staging
  import opened Importing
  import Restore

  datatype Call =
    | CreateCall(book: Guid, req: Request, pick: Option<Guid>)
    | UpdateCall(book: Guid, txn: Guid, req: Request)
    | DeleteCall(book: Guid, txn: Guid)
    | ImportCall(book: Guid, id: Id, row: Row, bank: Guid, category: Guid, pick: Option<Guid>)
    | RestoreCall(book: Guid, payload: Restore.Payload, root: Guid)

  // A call that errors leaves the tables as they were.
  function Apply(b: Books, call: Call): Books {
    var r := match call
      case CreateCall(book, req, pick) => Done(Create(b, book, req, pick))
      case UpdateCall(book, g, req) => Done(Update(b, book, g, req))
      case DeleteCall(book, g) => Done(Delete(b, book, g))
      case ImportCall(book, id, row, bank, category, pick) =>
        Done(Create(b, book, ImportRequest(id, row, bank, category), pick))
      case RestoreCall(book, payload, root) => Restore.Restored(b, book, payload, root);
    if r.Some? then r.value else b
  }

  function Done(r: Result<Books, Error>): Option<Books> {
    if r.Ok? then Some(r.value) else None
  }

  function ApplyAll(b: Books, calls: seq<Call>): Books
    decreases |calls|
  {
    if |calls| == 0 then b else ApplyAll(Apply(b, calls[0]), calls[1..])
  }

  // The number of splits times the largest, in some common unit, fits int64.
  ghost predicate Small(splits: seq<Split>) {
    exists d: int, size: nat :: 0 < d <= INT64_MAX && AtMost(splits, d, size) && |splits| * size <= INT64_MAX
  }

  // Or the running totals do, which large splits of opposite sign may also meet.
  ghost predicate InBounds(splits: seq<Split>) {
    Small(splits) || exists d :: Summable(splits, d)
  }

  // Imports need no bound: whatever is staged is within it.
  ghost predicate WithinBounds(call: Call) {
    match call
    case CreateCall(_, req, _) => InBounds(req.splits)
    case UpdateCall(_, _, req) => InBounds(req.splits)
    case DeleteCall(_, _) => true
    case ImportCall(_, _, row, _, _, _) => Stageable(row)
    case RestoreCall(_, payload, root) => InOrder(payload, root)
  }

  // What an export of valid books is: ids once, references within, balanced.
  ghost predicate InOrder(p: Restore.Payload, root: Guid) {
    && Restore.Distinct(p.accounts) && Restore.ClosedAccounts(p.accounts) && Restore.ClosedTxns(p.accounts, p.txns)
    && (forall t <- p.txns :: Restore.Balanced(t)) && !Restore.HasId(p.accounts, root)
  }

  lemma BoundIsMet(splits: seq<Split>) returns (d: int)
    requires InBounds(splits)
    ensures Summable(splits, d)
  {
    hide Summable, AtMost;
    if Small(splits) {
      var e: int, size: nat :| 0 < e <= INT64_MAX && AtMost(splits, e, size) && |splits| * size <= INT64_MAX;
      SmallIsSummable(splits, e, size);
      d := e;
    } else {
      d :| Summable(splits, d);
    }
  }

  lemma CallKeepsValid(b: Books, call: Call)
    requires Valid(b) && Contained(b) && WithinBounds(call)
    ensures Valid(Apply(b, call))
  {
    hide Valid, Contained, Create, Update, Delete, InBounds, Summable, ImportRequest, Restore.Restored;
    match call {
      case CreateCall(book, req, pick) =>
        var d := BoundIsMet(req.splits);
        if Create(b, book, req, pick).Ok? {
          CreateKeepsValid(b, book, req, pick, d);
        }
      case UpdateCall(book, g, req) =>
        var d := BoundIsMet(req.splits);
        if Update(b, book, g, req).Ok? {
          UpdateKeepsValid(b, book, g, req, d);
        }
      case DeleteCall(book, g) =>
        if Delete(b, book, g).Ok? {
          DeleteKeepsValid(b, book, g);
        }
      case ImportCall(book, id, row, bank, category, pick) =>
        var req := ImportRequest(id, row, bank, category);
        ImportIsSummable(id, row, bank, category);
        if Create(b, book, req, pick).Ok? {
          CreateKeepsValid(b, book, req, pick, row.denom);
        }
      case RestoreCall(book, p, root) =>
        hide Restore.Distinct, Restore.ClosedAccounts, Restore.ClosedTxns, Restore.Balanced, Restore.HasId;
        Restore.ContainedIsDeletable(b, book);
        Restore.RestoreKeepsValid(b, book, p, root);
    }
  }

  lemma CreateKeepsContained(b: Books, book: Guid, req: Request, pick: Option<Guid>)
    requires BelowNext(b) && Contained(b) && Create(b, book, req, pick).Ok?
    ensures Contained(Create(b, book, req, pick).value)
  {
    hide Sum, Kept, CheckAccounts, Values;
  }

  lemma CallKeepsContained(b: Books, call: Call)
    requires Valid(b) && Contained(b) && WithinBounds(call)
    ensures Contained(Apply(b, call))
  {
    hide Valid, Contained, Create, Update, Delete, InBounds, Summable, ImportRequest, Restore.Restored, BelowNext;
    Restore.ValidIsBelow(b);
    match call {
      case CreateCall(book, req, pick) =>
        if Create(b, book, req, pick).Ok? {
          CreateKeepsContained(b, book, req, pick);
        }
      case UpdateCall(book, g, req) =>
        if Update(b, book, g, req).Ok? {
          UpdatedSplits(b, book, g, req);
          SameAccounts(b, Update(b, book, g, req).value);
        }
      case DeleteCall(book, g) =>
        if Delete(b, book, g).Ok? {
          DeletedSame(b, book, g);
          SameAccounts(b, Delete(b, book, g).value);
        }
      case ImportCall(book, id, row, bank, category, pick) =>
        var req := ImportRequest(id, row, bank, category);
        if Create(b, book, req, pick).Ok? {
          CreateKeepsContained(b, book, req, pick);
        }
      case RestoreCall(book, p, root) =>
        hide Restore.Distinct, Restore.ClosedAccounts, Restore.ClosedTxns, Restore.Balanced, Restore.HasId;
        Restore.RestoreKeepsContained(b, book, p, root);
    }
  }

  lemma SameAccounts(b: Books, b': Books)
    requires Contained(b) && b'.accounts == b.accounts && b'.roots == b.roots
    ensures Contained(b')
  {
  }

  lemma DeletedSame(b: Books, book: Guid, g: Guid)
    requires Delete(b, book, g).Ok?
    ensures var b' := Delete(b, book, g).value; b'.accounts == b.accounts && b'.roots == b.roots
  {
  }

  // After any run every transaction is balanced, within its book, and intact, and
  // every book can be restored.
  lemma {:induction false} ReachableIsValid(b: Books, calls: seq<Call>)
    requires Valid(b) && Contained(b) && forall call <- calls :: WithinBounds(call)
    ensures Valid(ApplyAll(b, calls)) && Contained(ApplyAll(b, calls))
    ensures forall book :: Restore.Deletable(ApplyAll(b, calls), book)
    decreases |calls|
  {
    hide Valid, Contained, WithinBounds, Apply, Restore.Deletable;
    if |calls| == 0 {
      forall book
        ensures Restore.Deletable(b, book)
      {
        Restore.ContainedIsDeletable(b, book);
      }
    } else {
      CallKeepsValid(b, calls[0]);
      CallKeepsContained(b, calls[0]);
      ReachableIsValid(Apply(b, calls[0]), calls[1..]);
    }
  }
}
