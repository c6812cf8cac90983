/**
 Imports of a pending entry and of its posted copy that overlap (Import in
 backend/internal/plaid/service.go), on the machine of ImportRace: the check of
 the pending copy and the insert are separate statements.
 */
module PendingRace {
  import opened Wrappers
  import opened Numeric
  import opened Ledger
  import opened Staging
  import opened Importing
  import opened ImportRace
  import Timeline

  // What the posted copies of one movement have in common.
  datatype Movement = Movement(pending: Id, bankAccount: nat, num: int, denom: int)

  predicate IsCopy(row: Row, mv: Movement) {
    && row.predecessor == Some(mv.pending) && row.bankAccount == mv.bankAccount
    && row.num == mv.num && row.denom == mv.denom
  }

  // A split holds int64s, so an amount that is carried can be negated.
  predicate IsAmount(mv: Movement) {
    mv.num != 0 && Abs(mv.num) <= INT64_MAX && 0 < mv.denom <= INT64_MAX
  }

  // Transaction g, imported under the pending id, moved that amount.
  predicate Carried(b: Book, g: Guid, mv: Movement) {
    Timeline.CarriedBy(b, g, mv.pending, mv.bankAccount, mv.num, mv.denom)
  }

  // Statements of requests, new requests, and what others do meanwhile: a sync or
  // a dismissal leaves any staging, an edit any books.
  datatype Event =
    | Statement(move: Move)
    | Arrive(run: Run)
    | Restage(staged: Table)
    | Edit(books: Books)

  // Edits, where there are any, leave g's bank split and its link alone.
  predicate Possible(w: World, event: Event, g: Guid, mv: Movement, edits: bool) {
    match event
    case Statement(m) => Enabled(w, m)
    case Arrive(run) => run.next == 0 && run.pc == Load
    case Restage(_) => true
    case Edit(books) => edits && BelowNext(books) && Carried(w.book.(books := books), g, mv)
  }

  function After(w: World, event: Event): World
    requires event.Statement? ==> Enabled(w, event.move)
  {
    match event
    case Statement(m) => Step(w, m)
    case Arrive(run) => w.(runs := w.runs + [run])
    case Restage(staged) => w.(staged := staged)
    case Edit(books) => w.(book := w.book.(books := books))
  }

  predicate AtInsert(run: Run, mv: Movement) {
    !Done(run) && run.pc.Insert? && IsCopy(run.pc.row, mv)
  }

  // The statement inserts a transaction for such a copy.
  predicate PostsNow(w: World, event: Event, mv: Movement) {
    && event.Statement? && Enabled(w, event.move)
    && AtInsert(w.runs[event.move.run], mv)
    && Step(w, event.move).runs[event.move.run].pc == Cleanup(true)
  }

  // Possible events one after the other, and one of them posts a copy.
  predicate PostsCopy(w: World, events: seq<Event>, g: Guid, mv: Movement, edits: bool)
    decreases |events|
  {
    && |events| != 0
    && Possible(w, events[0], g, mv, edits)
    && (PostsNow(w, events[0], mv) || PostsCopy(After(w, events[0]), events[1..], g, mv, edits))
  }

  // ------------------------------------------------------------ the condition

  // The insert would be refused: already imported, or an account that cannot be posted to.
  predicate Refused(b: Book, id: Id, bank: Guid, category: Guid) {
    || Imported(b, id)
    || CheckAccount(b.books, b.guid, bank).Some?
    || CheckAccount(b.books, b.guid, category).Some?
  }

  // The request has passed its checks for a copy and can still insert it. Where
  // others may edit the books, a refusal need not last, unless the row names itself.
  predicate Threatens(b: Book, run: Run, mv: Movement, edits: bool) {
    && AtInsert(run, mv)
    && var Choice(id, category) := run.rows[run.next];
    && category.Some?
    && if edits then id != mv.pending else !Refused(b, id, run.pc.bank, category.value)
  }

  predicate Quiet(w: World, mv: Movement, edits: bool) {
    forall r :: 0 <= r < |w.runs| ==> !Threatens(w.book, w.runs[r], mv, edits)
  }

  // Accounts a waiting insert names have been drawn before.
  predicate Known(b: Book, run: Run, mv: Movement) {
    AtInsert(run, mv) && run.rows[run.next].category.Some? ==>
      run.pc.bank < b.books.next && run.rows[run.next].category.value < b.books.next
  }

  predicate AllKnown(w: World, mv: Movement) {
    forall r :: 0 <= r < |w.runs| ==> Known(w.book, w.runs[r], mv)
  }

  predicate Safe(w: World, g: Guid, mv: Movement, edits: bool) {
    && BelowNext(w.book.books) && Carried(w.book, g, mv)
    && (edits || AllKnown(w, mv))
    && Quiet(w, mv, edits)
  }

  // ------------------------------------------------------------ one event

  lemma CarriedIsImported(b: Book, g: Guid, mv: Movement)
    requires Carried(b, g, mv)
    ensures Imported(b, mv.pending)
    ensures ValueMatches(b, mv.pending, mv.bankAccount, mv.num, mv.denom)
  {
    Timeline.CarriedMatches(b, g, mv.pending, mv.bankAccount, mv.num, mv.denom);
  }

  // An insert for a copy succeeds exactly when it is not refused.
  lemma InsertsIff(w: World, m: Move, mv: Movement)
    requires IsAmount(mv) && Enabled(w, m) && AtInsert(w.runs[m.run], mv)
    ensures var run := w.runs[m.run];
      var Choice(id, category) := run.rows[run.next];
      Step(w, m).runs[m.run].pc == Cleanup(true)
      <==> category.Some? && !Refused(w.book, id, run.pc.bank, category.value)
  {
    hide Create, Imported, CheckAccount, ImportRequest;
    var run := w.runs[m.run];
    var Choice(id, category) := run.rows[run.next];
    if category.Some? {
      ImportCreatesIff(w.book, id, run.pc.row, run.pc.bank, category.value, m.answers.pick);
    }
  }

  lemma SafeMeansNotNow(w: World, event: Event, g: Guid, mv: Movement, edits: bool)
    requires IsAmount(mv) && Safe(w, g, mv, edits) && Possible(w, event, g, mv, edits)
    ensures !PostsNow(w, event, mv)
  {
    hide Carried, Step, Refused;
    if event.Statement? && AtInsert(w.runs[event.move.run], mv) {
      var run := w.runs[event.move.run];
      InsertsIff(w, event.move, mv);
      CarriedIsImported(w.book, g, mv);
      assert !Threatens(w.book, run, mv, edits);
      if run.rows[run.next].category.Some? {
        PendingIsRefused(w.book, run.pc.bank, run.rows[run.next].category.value, mv);
      }
    }
  }

  lemma PendingIsRefused(b: Book, bank: Guid, category: Guid, mv: Movement)
    requires Imported(b, mv.pending)
    ensures Refused(b, mv.pending, bank, category)
  {
  }

  // The statement's books: the same, or with what a create adds.
  ghost predicate Grows(b: Book, b': Book) {
    && b'.guid == b.guid && b'.books.next >= b.books.next
    && (forall g <- b.books.txns :: g in b'.books.txns && b'.books.txns[g] == b.books.txns[g])
    && (forall a <- b.books.accounts :: a in b'.books.accounts && b'.books.accounts[a] == b.books.accounts[a])
    && (forall a <- b'.books.accounts :: a in b.books.accounts || a == b.books.next)
  }

  lemma StatementGrows(w: World, m: Move)
    requires Enabled(w, m) && BelowNext(w.book.books)
    ensures Grows(w.book, Step(w, m).book) && BelowNext(Step(w, m).book.books)
  {
    hide Create, Imported, ValueMatches, ImportRequest, BelowNext, IsBankLookup;
    var run := w.runs[m.run];
    if run.pc.Insert? && run.rows[run.next].category.Some? {
      var Choice(id, category) := run.rows[run.next];
      var req := ImportRequest(id, run.pc.row, run.pc.bank, category.value);
      if Create(w.book.books, w.book.guid, req, m.answers.pick).Ok? {
        Timeline.CreateKeepsOthers(w.book.books, w.book.guid, req, m.answers.pick);
      }
    }
  }

  // Where accounts and transactions are only added, a refusal lasts.
  lemma RefusalLasts(b: Book, b': Book, id: Id, bank: Guid, category: Guid)
    requires Grows(b, b') && Refused(b, id, bank, category) && bank < b.books.next && category < b.books.next
    ensures Refused(b', id, bank, category)
  {
    if Imported(b, id) {
      var g :| g in b.books.txns && b.books.txns[g].book == b.guid && b.books.txns[g].plaidId == Some(id);
      assert b'.books.txns[g] == b.books.txns[g];
    }
  }

  // Past the carried amount no request reaches the insert of a copy.
  lemma ChecksStopCopies(w: World, m: Move, g: Guid, mv: Movement)
    requires Enabled(w, m) && Carried(w.book, g, mv)
    ensures !AtInsert(Step(w, m).runs[m.run], mv)
  {
    hide Create, Imported, ValueMatches, ImportRequest, Carried, IsBankLookup;
    CarriedIsImported(w.book, g, mv);
  }

  lemma StatementRuns(w: World, m: Move)
    requires Enabled(w, m)
    ensures var w' := Step(w, m);
      |w'.runs| == |w.runs| && forall r :: 0 <= r < |w.runs| && r != m.run ==> w'.runs[r] == w.runs[r]
  {
    hide Create, Imported, ValueMatches, ImportRequest, IsBankLookup;
  }

  lemma WaitingStaysQuiet(b: Book, b': Book, run: Run, mv: Movement, edits: bool)
    requires Grows(b, b') && (edits || Known(b, run, mv)) && !Threatens(b, run, mv, edits)
    ensures !Threatens(b', run, mv, edits) && (edits || Known(b', run, mv))
  {
    hide Refused, Grows;
    if !edits && AtInsert(run, mv) && run.rows[run.next].category.Some? {
      RefusalLasts(b, b', run.rows[run.next].id, run.pc.bank, run.rows[run.next].category.value);
      NextGrows(b, b');
    } else if !edits {
      NextGrows(b, b');
    }
  }

  lemma NextGrows(b: Book, b': Book)
    requires Grows(b, b')
    ensures b'.books.next >= b.books.next
  {
  }

  lemma StatementIsSafe(w: World, m: Move, g: Guid, mv: Movement, edits: bool)
    requires Safe(w, g, mv, edits) && Enabled(w, m)
    ensures Safe(Step(w, m), g, mv, edits)
  {
    hide Step, Enabled, Carried, BelowNext, Threatens, Known, AtInsert;
    var w' := Step(w, m);
    StatementGrows(w, m);
    StatementRuns(w, m);
    ChecksStopCopies(w, m, g, mv);
    CarriedGrows(w.book, w'.book, g, mv);
    forall r | 0 <= r < |w'.runs|
      ensures !Threatens(w'.book, w'.runs[r], mv, edits) && (edits || Known(w'.book, w'.runs[r], mv))
    {
      if r == m.run {
        NotWaiting(w'.book, w'.runs[r], mv, edits);
      } else {
        WaitingStaysQuiet(w.book, w'.book, w.runs[r], mv, edits);
      }
    }
  }

  lemma CarriedGrows(b: Book, b': Book, g: Guid, mv: Movement)
    requires Grows(b, b') && Carried(b, g, mv)
    ensures Carried(b', g, mv)
  {
    Timeline.CarriedInMore(b, b'.books, g, mv.pending, mv.bankAccount, mv.num, mv.denom);
  }

  lemma NotWaiting(b: Book, run: Run, mv: Movement, edits: bool)
    requires !AtInsert(run, mv)
    ensures !Threatens(b, run, mv, edits) && Known(b, run, mv)
  {
  }

  lemma EventIsSafe(w: World, event: Event, g: Guid, mv: Movement, edits: bool)
    requires Safe(w, g, mv, edits) && Possible(w, event, g, mv, edits)
    ensures Safe(After(w, event), g, mv, edits)
  {
    hide Step, Enabled, Carried, BelowNext, Refused;
    match event {
      case Statement(m) => StatementIsSafe(w, m, g, mv, edits);
      case Arrive(run) =>
        NotWaiting(w.book, run, mv, edits);
      case Restage(_) =>
      case Edit(_) =>
    }
  }

  // ------------------------------------------------------------ every schedule

  lemma {:induction false} SafeNeverPosts(w: World, events: seq<Event>, g: Guid, mv: Movement, edits: bool)
    requires IsAmount(mv) && Safe(w, g, mv, edits)
    ensures !PostsCopy(w, events, g, mv, edits)
    decreases |events|
  {
    hide Safe, PostsNow, After, Step, Enabled, Carried, BelowNext;
    if |events| != 0 && Possible(w, events[0], g, mv, edits) {
      SafeMeansNotNow(w, events[0], g, mv, edits);
      EventIsSafe(w, events[0], g, mv, edits);
      SafeNeverPosts(After(w, events[0]), events[1..], g, mv, edits);
    }
  }

  // ------------------------------------------------------------ a waiting insert

  // Its own statement posts the copy, where it is not refused.
  lemma WaitingPosts(w: World, r: nat, g: Guid, mv: Movement, edits: bool)
    requires IsAmount(mv) && r < |w.runs| && AtInsert(w.runs[r], mv)
    requires var run := w.runs[r];
      var Choice(id, category) := run.rows[run.next];
      category.Some? && !Refused(w.book, id, run.pc.bank, category.value)
    ensures PostsCopy(w, [Statement(Move(r, Answers(None, None)))], g, mv, edits)
  {
    hide Step, Refused, PostsCopy;
    var m := Move(r, Answers(None, None));
    assert Enabled(w, m);
    InsertsIff(w, m, mv);
    OneEvent(w, Statement(m), g, mv, edits);
  }

  lemma OneEvent(w: World, event: Event, g: Guid, mv: Movement, edits: bool)
    requires Possible(w, event, g, mv, edits) && PostsNow(w, event, mv)
    ensures PostsCopy(w, [event], g, mv, edits)
  {
    hide Possible, PostsNow;
  }

  lemma TwoEvents(w: World, event: Event, more: Event, g: Guid, mv: Movement, edits: bool)
    requires Possible(w, event, g, mv, edits) && PostsCopy(After(w, event), [more], g, mv, edits)
    ensures PostsCopy(w, [event, more], g, mv, edits)
  {
    hide Possible, PostsNow;
    assert [event, more][1..] == [more];
  }

  function Usable(b: Book, account: Guid): Account {
    if account in b.books.accounts then b.books.accounts[account].(book := b.guid, placeholder := false)
    else Account(b.guid, "", Bank, None, false, None)
  }

  // An edit after which nothing refuses the insert: the row's own transaction is
  // deleted, and its two accounts can be posted to.
  function Unblocked(b: Book, id: Id, bank: Guid, category: Guid): Books {
    b.books.(
      accounts := b.books.accounts[bank := Usable(b, bank)][category := Usable(b, category)],
      txns := map h | h in b.books.txns && b.books.txns[h].plaidId != Some(id) :: b.books.txns[h],
      next := b.books.next + bank + category + 1)
  }

  lemma UnblockedIsPossible(b: Book, id: Id, bank: Guid, category: Guid, g: Guid, mv: Movement)
    requires BelowNext(b.books) && Carried(b, g, mv) && id != mv.pending
    ensures var b' := b.(books := Unblocked(b, id, bank, category));
      && BelowNext(b'.books) && Carried(b', g, mv) && !Refused(b', id, bank, category)
  {
    var b' := b.(books := Unblocked(b, id, bank, category));
    var s :| s in b.books.txns[g].splits
      && LinkedTo(b, s.account, mv.bankAccount) && s.num == -mv.num && s.denom == mv.denom;
    assert LinkedTo(b', s.account, mv.bankAccount);
    assert b'.books.txns[g] == b.books.txns[g];
  }

  lemma ThreatPosts(w: World, r: nat, g: Guid, mv: Movement, edits: bool) returns (events: seq<Event>)
    requires IsAmount(mv) && BelowNext(w.book.books) && Carried(w.book, g, mv)
    requires r < |w.runs| && Threatens(w.book, w.runs[r], mv, edits)
    ensures PostsCopy(w, events, g, mv, edits)
  {
    hide PostsCopy, Carried, BelowNext, Refused, Unblocked;
    var run := w.runs[r];
    var Choice(id, category) := run.rows[run.next];
    var insert := Statement(Move(r, Answers(None, None)));
    if edits {
      var edit := Edit(Unblocked(w.book, id, run.pc.bank, category.value));
      UnblockedIsPossible(w.book, id, run.pc.bank, category.value, g, mv);
      WaitingPosts(After(w, edit), r, g, mv, edits);
      TwoEvents(w, edit, insert, g, mv, edits);
      events := [edit, insert];
    } else {
      WaitingPosts(w, r, g, mv, edits);
      events := [insert];
    }
  }

  // Once the amount is carried by g, no schedule of requests, new ones included,
  // over whatever syncs and dismissals do to staging, posts a copy of it, if and
  // only if no request already waits at the insert of one and is not refused.
  // With edits that spare g in between the same holds, but no refusal counts.
  lemma PostedOnceIff(w: World, g: Guid, mv: Movement, edits: bool)
    requires IsAmount(mv) && BelowNext(w.book.books) && Carried(w.book, g, mv)
    requires edits || AllKnown(w, mv)
    ensures (forall events :: !PostsCopy(w, events, g, mv, edits)) <==> Quiet(w, mv, edits)
  {
    hide PostsCopy, Carried, BelowNext, AllKnown, Threatens;
    if Quiet(w, mv, edits) {
      forall events
        ensures !PostsCopy(w, events, g, mv, edits)
      {
        SafeNeverPosts(w, events, g, mv, edits);
      }
    } else {
      var r :| 0 <= r < |w.runs| && Threatens(w.book, w.runs[r], mv, edits);
      var events := ThreatPosts(w, r, g, mv, edits);
    }
  }

  // ------------------------------------------------------------ the history that posts twice

  lemma {:induction false} MoveMore(w0: World, moves: seq<Move>, w: World, m: Move)
    requires AllEnabled(w0, moves) && StepAll(w0, moves) == w && Enabled(w, m)
    ensures AllEnabled(w0, moves + [m]) && StepAll(w0, moves + [m]) == Step(w, m)
    decreases |moves|
  {
    hide Enabled, Step;
    if |moves| == 0 {
      assert moves + [m] == [m] && [m][1..] == [];
    } else {
      assert (moves + [m])[0] == moves[0] && (moves + [m])[1..] == moves[1..] + [m];
      MoveMore(Step(w0, moves[0]), moves[1..], w, m);
    }
  }

  function NewRun(id: Id, category: Guid): Run {
    Run([Choice(id, Some(category))], 0, Load, 0, [])
  }

  // Request r, for one row, goes from its start to the insert: it loads the row,
  // resolves the account, and checks the id and the pending copy.
  lemma ReachesInsert(w0: World, before: seq<Move>, w: World, r: nat, id: Id, category: Guid, bank: Guid)
    returns (moves: seq<Move>)
    requires AllEnabled(w0, before) && StepAll(w0, before) == w
    requires r < |w.runs| && w.runs[r] == NewRun(id, category)
    requires id in w.staged && LinkedTo(w.book, bank, w.staged[id].bankAccount) && !Imported(w.book, id)
    requires w.staged[id].predecessor.Some? ==> !Imported(w.book, w.staged[id].predecessor.value)
    ensures AllEnabled(w0, moves)
    ensures StepAll(w0, moves) == w.(runs := w.runs[r := w.runs[r].(pc := Insert(w.staged[id], bank))])
  {
    hide AllEnabled, StepAll, Imported, LinkedTo, ValueMatches, Create;
    var m := Move(r, Answers(Some(bank), None));
    var row := w.staged[id];
    MoveMore(w0, before, w, m);
    var w1 := With(w, r, w.runs[r].(pc := Resolve(row)));
    MoveMore(w0, before + [m], w1, m);
    var w2 := With(w, r, w.runs[r].(pc := CheckDuplicate(row, bank)));
    assert Step(w1, m) == w2;
    MoveMore(w0, before + [m] + [m], w2, m);
    moves := before + [m] + [m] + [m];
    if row.predecessor.Some? {
      var w3 := With(w, r, w.runs[r].(pc := CheckPending(row, bank)));
      assert Step(w2, m) == w3;
      MoveMore(w0, moves, w3, m);
      moves := moves + [m];
    }
  }

  // Both requests stand at their inserts.
  function BothWaiting(y: Imports, p: Id, s: Id, category: Guid, bank: Guid): World
    requires p in y.staged && s in y.staged
  {
    World(y.book, y.staged, [
      NewRun(p, category).(pc := Insert(y.staged[p], bank)), NewRun(s, category).(pc := Insert(y.staged[s], bank))])
  }

  // The pending row is inserted first, and the posted one all the same.
  lemma BothInserts(y: Imports, p: Id, s: Id, category: Guid, bank: Guid)
    requires Timeline.BothStaged(y, p, s, bank, category) && BelowNext(y.book.books)
    ensures var w, row := BothWaiting(y, p, s, category, bank), y.staged[p];
      var first, second := Move(0, Answers(None, None)), Move(1, Answers(None, None));
      && Enabled(w, first)
      && var w' := Step(w, first);
      && Carried(w'.book, y.book.books.next, Movement(p, row.bankAccount, row.num, row.denom))
      && !Imported(w'.book, s)
      && Enabled(w', second)
      && PostedBoth(Step(w', second), p, s)
  {
    hide Create, Imported, Carried, CheckAccount, ImportRequest;
    InsertedCarries(y, p, s, category, bank);
    var w := BothWaiting(y, p, s, category, bank);
    var w' := Step(w, Move(0, Answers(None, None)));
    ImportCreates(w'.book, s, y.staged[s], bank, category, None);
    var w2 := Step(w', Move(1, Answers(None, None)));
    FreshId(w'.book);
    Timeline.NewlyImported(w'.book, w2.book, w'.book.books.next, s, p);
  }

  lemma FreshId(b: Book)
    requires BelowNext(b.books)
    ensures b.books.next !in b.books.txns
  {
  }

  // Both copies are in the books, and both requests count one import.
  predicate PostedBoth(w: World, p: Id, s: Id) {
    && Imported(w.book, p) && Imported(w.book, s)
    && |w.runs| == 2 && w.runs[0].pc == Cleanup(true) && w.runs[1].pc == Cleanup(true)
  }

  // Both copies are staged and two requests begin, one for each. The posted one's
  // has made its checks when the pending one is inserted, first; then the posted
  // one is inserted as well.
  lemma OverlapPostsTwice(y: Imports, p: Id, s: Id, category: Guid, bank: Guid) returns (moves: seq<Move>, last: Move)
    requires Timeline.BothStaged(y, p, s, bank, category) && BelowNext(y.book.books)
    ensures var w0 := World(y.book, y.staged, [NewRun(p, category), NewRun(s, category)]);
      var row := y.staged[p];
      && AllEnabled(w0, moves)
      && var w := StepAll(w0, moves);
      && Carried(w.book, y.book.books.next, Movement(p, row.bankAccount, row.num, row.denom))
      && !Imported(w.book, s)
      && Enabled(w, last) && PostedBoth(Step(w, last), p, s)
  {
    hide AllEnabled, StepAll, Imported, LinkedTo, Carried, PostedBoth, Step, CheckAccount;
    var w0 := World(y.book, y.staged, [NewRun(p, category), NewRun(s, category)]);
    NoMoves(w0);
    moves := ReachesInsert(w0, [], w0, 1, s, category, bank);
    moves := ReachesInsert(w0, moves, StepAll(w0, moves), 0, p, category, bank);
    var w := BothWaiting(y, p, s, category, bank);
    assert StepAll(w0, moves).runs == w.runs;
    BothInserts(y, p, s, category, bank);
    MoveMore(w0, moves, w, Move(0, Answers(None, None)));
    moves, last := moves + [Move(0, Answers(None, None))], Move(1, Answers(None, None));
  }

  lemma NoMoves(w: World)
    ensures AllEnabled(w, []) && StepAll(w, []) == w
  {
  }

  // The books after the pending row's insert.
  lemma InsertedCarries(y: Imports, p: Id, s: Id, category: Guid, bank: Guid)
    requires Timeline.BothStaged(y, p, s, bank, category) && BelowNext(y.book.books)
    ensures var req := ImportRequest(p, y.staged[p], bank, category);
      var row := y.staged[p];
      && Create(y.book.books, y.book.guid, req, None).Ok?
      && var b' := y.book.(books := Create(y.book.books, y.book.guid, req, None).value);
      && Carried(b', y.book.books.next, Movement(p, row.bankAccount, row.num, row.denom))
      && Imported(b', p) && !Imported(b', s)
      && b'.books.next == y.book.books.next + 1 && BelowNext(b'.books)
      && CheckAccount(b'.books, b'.guid, bank).None? && CheckAccount(b'.books, b'.guid, category).None?
  {
    hide Create, Imported;
    var row, g := y.staged[p], y.book.books.next;
    ImportCreates(y.book, p, row, bank, category, None);
    var req := ImportRequest(p, row, bank, category);
    var b' := y.book.(books := Create(y.book.books, y.book.guid, req, None).value);
    Timeline.NewlyImported(y.book, b', g, p, s);
    assert req.splits[0] in req.splits && req.splits[0].num == -row.num;
    assert LinkedTo(b', bank, row.bankAccount);
  }
}
