/**
 Histories of one book, one staged entry or import row at a time: pages of the
 feed in any order and any number of times, dismissals, imports, and edits of
 the ledger made elsewhere (backend/internal/plaid/service.go).
 */
module Timeline {
  import opened Wrappers
  import opened Numeric
  import opened Ledger
  import opened Staging
  import opened Convergence
  import opened Importing

  datatype Event =
    | FeedEvent(op: Op)
    | DismissEvent(ids: set<Id>)
    | ImportEvent(id: Id, category: Option<Guid>, bank: Option<Guid>, pick: Option<Guid>)
    | EditEvent(books: Books)

  // DismissStaged hides rows; it does not create them.
  function Dismiss(t: Table, ids: set<Id>): Table {
    map id | id in t :: if id in ids then t[id].(dismissed := true) else t[id]
  }

  // A dismissal sets the flag of the rows it names, and does nothing else.
  lemma DismissalTouchesOnly(t: Table, ids: set<Id>)
    ensures var t' := Dismiss(t, ids);
      && t'.Keys == t.Keys
      && (forall id <- t :: id !in ids ==> t'[id] == t[id])
      && (forall id <- t :: id in ids ==> t'[id].dismissed && t'[id] == t[id].(dismissed := true))
  {
  }

  // What Sync shows afterwards is what it showed before, but for the rows named.
  lemma DismissalHidesOnly(b: Book, t: Table, item: Guid, importPending: bool, ids: set<Id>, id: Id)
    ensures Suggested(b, Dismiss(t, ids), item, importPending, id)
      <==> id !in ids && Suggested(b, t, item, importPending, id)
  {
    hide ValueMatches, HasPlaidId;
    if id in t {
      assert Dismiss(t, ids)[id].bankAccount == t[id].bankAccount;
    }
  }

  function Apply(y: Imports, event: Event): Imports {
    match event
    case FeedEvent(op) => y.(staged := Exec(y.book, y.staged, op))
    case DismissEvent(ids) => y.(staged := Dismiss(y.staged, ids))
    case ImportEvent(id, category, bank, pick) => ImportRow(y, id, category, bank, pick).0
    case EditEvent(books) => y.(book := y.book.(books := books))
  }

  // No other service writes a Plaid id into a transaction.
  ghost predicate EventOk(k: Feed, y: Imports, event: Event) {
    match event
    case FeedEvent(op) => OpOk(k, op)
    case EditEvent(books) => forall id :: Imported(y.book.(books := books), id) ==> Imported(y.book, id)
    case _ => true
  }

  ghost predicate EventsOk(k: Feed, y: Imports, events: seq<Event>)
    decreases |events|
  {
    |events| != 0 ==> EventOk(k, y, events[0]) && EventsOk(k, Apply(y, events[0]), events[1..])
  }

  function ApplyAll(y: Imports, events: seq<Event>): Imports
    decreases |events|
  {
    if |events| == 0 then y else ApplyAll(Apply(y, events[0]), events[1..])
  }

  // id is in the books in none of the states of the history.
  predicate NeverImported(y: Imports, events: seq<Event>, id: Id)
    decreases |events|
  {
    !Imported(y.book, id) && (|events| != 0 ==> NeverImported(Apply(y, events[0]), events[1..], id))
  }

  // ------------------------------------------------------------ dismissal

  // Staged rows name the predecessors the feed gave them.
  ghost predicate FromFeed(k: Feed, t: Table) {
    forall id <- t :: t[id].predecessor.Some? ==> id in k.predecessor && k.predecessor[id] == t[id].predecessor.value
  }

  // x is dismissed, and so is every row that names it, except rows that were
  // already staged when the dismissal happened.
  ghost predicate Buried(k: Feed, t: Table, x: Id, before: set<Id>) {
    && FromFeed(k, t)
    && Dismissed(t, x)
    && forall id <- t :: t[id].predecessor == Some(x) && id !in before ==> t[id].dismissed
  }

  lemma BuriedStep(k: Feed, y: Imports, event: Event, x: Id, before: set<Id>)
    requires PredecessorsOk(k) && EventOk(k, y, event)
    requires Buried(k, y.staged, x, before)
    requires !Imported(y.book, x) && !Imported(Apply(y, event).book, x)
    requires x in k.predecessor ==> !Imported(y.book, k.predecessor[x])
    ensures Buried(k, Apply(y, event).staged, x, before)
  {
    hide Create, HasPlaidId, ValueMatches;
    match event {
      case FeedEvent(op) =>
      case DismissEvent(ids) =>
      case ImportEvent(id, category, bank, pick) =>
        var (y', outcome) := ImportRow(y, id, category, bank, pick);
        if id == x && y'.staged != y.staged {
          ImportedOrDuplicate(y, id, category, bank, pick);
        }
      case EditEvent(books) =>
    }
  }

  // A row leaves staging by import only if its id, or its predecessor, is in
  // the books afterwards.
  lemma ImportedOrDuplicate(y: Imports, id: Id, category: Option<Guid>, bank: Option<Guid>, pick: Option<Guid>)
    requires ImportRow(y, id, category, bank, pick).0.staged != y.staged
    ensures id in y.staged
    ensures Imported(ImportRow(y, id, category, bank, pick).0.book, id)
      || (y.staged[id].predecessor.Some? && Imported(y.book, y.staged[id].predecessor.value))
  {
    hide Sum, Kept, CheckAccounts;
    var b, t := y.book, y.staged;
    var req := ImportRequest(id, t[id], bank.value, category.value);
    var r := Create(b.books, b.guid, req, pick);
    if r.Ok? && !(t[id].predecessor.Some? && Imported(b, t[id].predecessor.value)) {
      CreatePosts(b.books, b.guid, req, pick);
    } else if r == Err(DuplicatePlaidId) {
      DuplicateMeansImported(b.books, b.guid, req, pick);
    }
  }

  lemma CreatePosts(b: Books, book: Guid, req: Request, pick: Option<Guid>)
    requires Create(b, book, req, pick).Ok? && req.plaidId.Some?
    ensures HasPlaidId(Create(b, book, req, pick).value, book, req.plaidId.value)
  {
    hide Sum, Kept, CheckAccounts;
    var kept := Kept(req.splits).value;
    var (b1, splits) := Balance(b, book, pick, kept).value;
    var b' := Create(b, book, req, pick).value;
    assert b1.next in b'.txns && b'.txns[b1.next].plaidId == req.plaidId;
  }

  lemma DuplicateMeansImported(b: Books, book: Guid, req: Request, pick: Option<Guid>)
    requires Create(b, book, req, pick) == Err(DuplicatePlaidId)
    ensures req.plaidId.Some? && HasPlaidId(b, book, req.plaidId.value)
  {
    hide Sum, CheckAccounts;
    match Kept(req.splits)
    case Err(_) =>
    case Ok(kept) =>
      match Balance(b, book, pick, kept) {
        case Err(_) =>
        case Ok((b1, splits)) =>
          assert b1.txns == b.txns;
      }
  }

  // Dismissal is permanent: as long as neither x nor its predecessor is ever
  // imported, no history makes x a suggestion again, nor any successor that was
  // first staged under that name later.
  lemma {:induction false} DismissalIsPermanent(
    k: Feed, y: Imports, events: seq<Event>, x: Id, before: set<Id>)
    requires PredecessorsOk(k) && EventsOk(k, y, events)
    requires Buried(k, y.staged, x, before)
    requires NeverImported(y, events, x)
    requires x in k.predecessor ==> NeverImported(y, events, k.predecessor[x])
    ensures Buried(k, ApplyAll(y, events).staged, x, before)
    ensures forall item, importPending, id ::
      var staged := ApplyAll(y, events).staged;
      id == x || (id !in before && id in staged && staged[id].predecessor == Some(x))
      ==> !Suggested(ApplyAll(y, events).book, ApplyAll(y, events).staged, item, importPending, id)
    decreases |events|
  {
    if |events| != 0 {
      BuriedStep(k, y, events[0], x, before);
      DismissalIsPermanent(k, Apply(y, events[0]), events[1..], x, before);
    }
  }

  // The dismissal itself establishes the above, with before the ids then staged.
  lemma DismissBuries(k: Feed, y: Imports, ids: set<Id>, x: Id)
    requires FromFeed(k, y.staged) && x in ids && x in y.staged
    ensures Buried(k, Apply(y, DismissEvent(ids)).staged, x, y.staged.Keys)
  {
  }

  // Staging reads the predecessor's flag and inserts in two statements. If the
  // dismissal falls between them, the successor is staged undismissed and is
  // suggested: inheritance holds exactly when the flag read is still current.
  lemma DismissalRacesStaging(b: Book, t: Table, e: Entry, item: Guid, ids: set<Id>)
    requires e.predecessor.Some? && e.predecessor.value in t && e.predecessor.value != e.id && e.id !in t
    requires e.predecessor.value in ids && !e.pending
    requires !Imported(b, e.id) && !Imported(b, e.predecessor.value)
    requires exists a <- b.books.accounts :: LinkedByItem(b, item, a, e.bankAccount)
    ensures var flag := Inherits(t, e);
            var after := Upsert(Dismiss(t, ids), e, flag);
            && Dismissed(after, e.predecessor.value)
            && (Suggested(b, after, item, false, e.id) <==> flag != Inherits(Dismiss(t, ids), e))
  {
    var p := e.predecessor.value;
    var after := Upsert(Dismiss(t, ids), e, Inherits(t, e));
    assert !ValueMatches(b, p, e.bankAccount, e.num, e.denom);
    assert after[e.id].bankAccount == e.bankAccount;
  }

  // ------------------------------------------------------------ double posting

  // Some step of the history posts a transaction for a row with this
  // predecessor, bank account and amount.
  predicate PostsSuccessor(y: Imports, events: seq<Event>, p: Id, bankAccount: nat, num: int, denom: int)
    decreases |events|
  {
    |events| != 0 &&
      (|| PostsNow(y, events[0], p, bankAccount, num, denom)
       || PostsSuccessor(Apply(y, events[0]), events[1..], p, bankAccount, num, denom))
  }

  predicate PostsNow(y: Imports, event: Event, p: Id, bankAccount: nat, num: int, denom: int) {
    && event.ImportEvent?
    && event.id in y.staged
    && y.staged[event.id].predecessor == Some(p) && y.staged[event.id].bankAccount == bankAccount
    && y.staged[event.id].num == num && y.staged[event.id].denom == denom
    && ImportRow(y, event.id, event.category, event.bank, event.pick).1 == Posted
  }

  // Transaction g, imported under p, carries the amount on the linked account.
  predicate CarriedBy(b: Book, g: Guid, p: Id, bankAccount: nat, num: int, denom: int) {
    && g in b.books.txns && b.books.txns[g].book == b.guid && b.books.txns[g].plaidId == Some(p)
    && Carries(b, b.books.txns[g].splits, bankAccount, num, denom)
  }

  // Nobody outside edits g's bank split or its account's link away.
  predicate EditsSpare(y: Imports, events: seq<Event>, g: Guid, p: Id, bankAccount: nat, num: int, denom: int)
    decreases |events|
  {
    |events| != 0 ==>
      && (events[0].EditEvent? ==>
          BelowNext(events[0].books) && CarriedBy(y.book.(books := events[0].books), g, p, bankAccount, num, denom))
      && EditsSpare(Apply(y, events[0]), events[1..], g, p, bankAccount, num, denom)
  }

  // A create adds rows under new ids and leaves all others.
  lemma CreateKeepsOthers(b: Books, book: Guid, req: Request, pick: Option<Guid>)
    requires BelowNext(b) && Create(b, book, req, pick).Ok?
    ensures var b' := Create(b, book, req, pick).value;
      && BelowNext(b')
      && (forall g <- b.txns :: g in b'.txns && b'.txns[g] == b.txns[g])
      && (forall a <- b.accounts :: a in b'.accounts && b'.accounts[a] == b.accounts[a])
      && (forall a <- b'.accounts :: a in b.accounts || a == b.next)
      && b'.next > b.next
  {
    hide Sum, Kept, CheckAccounts, Values;
  }

  lemma CarriedInMore(b: Book, books: Books, g: Guid, p: Id, bankAccount: nat, num: int, denom: int)
    requires CarriedBy(b, g, p, bankAccount, num, denom)
    requires forall h <- b.books.txns :: h in books.txns && books.txns[h] == b.books.txns[h]
    requires forall a <- b.books.accounts :: a in books.accounts && books.accounts[a] == b.books.accounts[a]
    ensures CarriedBy(b.(books := books), g, p, bankAccount, num, denom)
  {
    var b' := b.(books := books);
    var s :| s in b.books.txns[g].splits && LinkedTo(b, s.account, bankAccount) && s.num == -num && s.denom == denom;
    assert LinkedTo(b', s.account, bankAccount);
  }

  // Feeds, dismissals and imports of whatever rows leave the match in place.
  lemma EventKeepsCarried(y: Imports, event: Event, g: Guid, p: Id, bankAccount: nat, num: int, denom: int)
    requires BelowNext(y.book.books) && CarriedBy(y.book, g, p, bankAccount, num, denom) && !event.EditEvent?
    ensures BelowNext(Apply(y, event).book.books) && CarriedBy(Apply(y, event).book, g, p, bankAccount, num, denom)
  {
    hide CarriedBy, BelowNext, Create, HasPlaidId, ValueMatches, ImportRequest;
    if event.ImportEvent? && Apply(y, event).book != y.book {
      var row := y.staged[event.id];
      var req := ImportRequest(event.id, row, event.bank.value, event.category.value);
      var books := Create(y.book.books, y.book.guid, req, event.pick).value;
      CreateKeepsOthers(y.book.books, y.book.guid, req, event.pick);
      CarriedInMore(y.book, books, g, p, bankAccount, num, denom);
    }
  }

  lemma CarriedMatches(b: Book, g: Guid, p: Id, bankAccount: nat, num: int, denom: int)
    requires CarriedBy(b, g, p, bankAccount, num, denom)
    ensures ValueMatches(b, p, bankAccount, num, denom)
  {
  }

  // Once a transaction imported under p carries the amount on the linked bank
  // account, no later feed page, dismissal, import or edit that spares it lets
  // any step post the successor with that amount.
  lemma {:induction false} NoDoublePosting(
    y: Imports, events: seq<Event>, g: Guid, p: Id, bankAccount: nat, num: int, denom: int)
    requires BelowNext(y.book.books) && CarriedBy(y.book, g, p, bankAccount, num, denom)
    requires EditsSpare(y, events, g, p, bankAccount, num, denom)
    ensures !PostsSuccessor(y, events, p, bankAccount, num, denom)
    decreases |events|
  {
    hide CarriedBy, BelowNext, ValueMatches, ImportRow;
    if |events| != 0 {
      var e := events[0];
      CarriedMatches(y.book, g, p, bankAccount, num, denom);
      if e.ImportEvent? && PostsNow(y, e, p, bankAccount, num, denom) {
        SuccessorIsNotPosted(y, e.id, e.category, e.bank, e.pick);
        assert false;
      }
      if !e.EditEvent? {
        EventKeepsCarried(y, e, g, p, bankAccount, num, denom);
      }
      NoDoublePosting(Apply(y, e), events[1..], g, p, bankAccount, num, denom);
    }
  }

  // The import of the pending row is what establishes it.
  lemma ImportedPendingCarries(y: Imports, p: Id, category: Guid, bank: Guid, pick: Option<Guid>)
    requires p in y.staged && Importable(y.staged[p]) && !Imported(y.book, p) && BelowNext(y.book.books)
    requires y.staged[p].predecessor.None? && LinkedTo(y.book, bank, y.staged[p].bankAccount)
    requires CheckAccount(y.book.books, y.book.guid, bank).None?
    requires CheckAccount(y.book.books, y.book.guid, category).None?
    ensures var (y', outcome) := ImportRow(y, p, Some(category), Some(bank), pick);
      var row := y.staged[p];
      && outcome == Posted && BelowNext(y'.book.books)
      && CarriedBy(y'.book, y.book.books.next, p, row.bankAccount, row.num, row.denom)
  {
    hide Create, HasPlaidId;
    var row := y.staged[p];
    ImportCreates(y.book, p, row, bank, category, pick);
    var (y', outcome) := ImportRow(y, p, Some(category), Some(bank), pick);
    var splits := ImportRequest(p, row, bank, category).splits;
    assert splits[0] in splits && splits[0].num == -row.num;
    assert LinkedTo(y'.book, bank, row.bankAccount);
  }

  // The protection has a direction. With both rows staged and neither imported,
  // the pending one first leaves one transaction; the posted one first leaves
  // two, for the same money.
  lemma PendingFirstPostsOnce(y: Imports, p: Id, s: Id, category: Guid, bank: Guid, pick: Option<Guid>)
    requires BothStaged(y, p, s, bank, category)
    ensures var (y1, o1) := ImportRow(y, p, Some(category), Some(bank), pick);
            var (y2, o2) := ImportRow(y1, s, Some(category), Some(bank), pick);
            o1 == Posted && o2 == Skipped && y2.book == y1.book
  {
    hide Create;
    var row := y.staged[p];
    ImportCreates(y.book, p, row, bank, category, pick);
    var (y1, o1) := ImportRow(y, p, Some(category), Some(bank), pick);
    var g := y.book.books.next;
    var splits := ImportRequest(p, row, bank, category).splits;
    assert y1.book.books.txns[g].splits == splits && y1.book.books.txns[g].plaidId == Some(p);
    assert splits[0] in splits && splits[0].num == -row.num;
    assert Carries(y1.book, splits, row.bankAccount, row.num, row.denom);
    assert ValueMatches(y1.book, p, row.bankAccount, row.num, row.denom);
    NewlyImported(y.book, y1.book, g, p, s);
  }

  lemma PostedFirstPostsTwice(y: Imports, p: Id, s: Id, category: Guid, bank: Guid, pick: Option<Guid>)
    requires BothStaged(y, p, s, bank, category)
    ensures var (y1, o1) := ImportRow(y, s, Some(category), Some(bank), pick);
            var (y2, o2) := ImportRow(y1, p, Some(category), Some(bank), pick);
            && o1 == Posted && o2 == Posted
            && y.book.books.next in y2.book.books.txns && y.book.books.next + 1 in y2.book.books.txns
            && y2.book.books.txns[y.book.books.next].splits == y2.book.books.txns[y.book.books.next + 1].splits
  {
    hide Create;
    var g := y.book.books.next;
    ImportCreates(y.book, s, y.staged[s], bank, category, pick);
    var (y1, o1) := ImportRow(y, s, Some(category), Some(bank), pick);
    NewlyImported(y.book, y1.book, g, s, p);
    assert y1.book.books.next == g + 1;
    ImportCreates(y1.book, p, y.staged[p], bank, category, pick);
  }

  // A pending row and its posted successor with the same amount, both importable.
  ghost predicate BothStaged(y: Imports, p: Id, s: Id, bank: Guid, category: Guid) {
    && p in y.staged && s in y.staged && p != s
    && y.staged[p].predecessor == None && y.staged[s].predecessor == Some(p)
    && y.staged[s].num == y.staged[p].num && y.staged[s].denom == y.staged[p].denom
    && y.staged[s].bankAccount == y.staged[p].bankAccount
    && Importable(y.staged[p])
    && LinkedTo(y.book, bank, y.staged[p].bankAccount)
    && CheckAccount(y.book.books, y.book.guid, bank).None?
    && CheckAccount(y.book.books, y.book.guid, category).None?
    && !Imported(y.book, p) && !Imported(y.book, s)
    && y.book.books.next !in y.book.books.txns
  }

  lemma NewlyImported(b: Book, b': Book, g: Guid, x: Id, other: Id)
    requires b'.guid == b.guid && g !in b.books.txns
    requires g in b'.books.txns && b'.books.txns == b.books.txns[g := b'.books.txns[g]]
    requires b'.books.txns[g].plaidId == Some(x) && b'.books.txns[g].book == b.guid && other != x
    ensures Imported(b', x) && (Imported(b', other) <==> Imported(b, other))
  {
    if Imported(b, other) {
      var h :| h in b.books.txns && b.books.txns[h].book == b.guid && b.books.txns[h].plaidId == Some(other);
      assert b'.books.txns[h] == b.books.txns[h];
    }
  }
}
