/**
 Concurrent imports (Import in backend/internal/plaid/service.go). Any number of
 requests run at once over the same staged rows; one step is one SQL statement
 of one of them.
 */
module ImportRace {
  import opened Wrappers
  import opened Numeric
  import opened Ledger
  import opened Staging
  import opened Importing
  import Timeline

  // What the request does next with its current row.
  datatype Pc =
    | Load
    | CheckGone
    | Resolve(row: Row)
    | CheckDuplicate(row: Row, bank: Guid)
    | CheckPending(row: Row, bank: Guid)
    | CheckValue(row: Row, bank: Guid)
    | Insert(row: Row, bank: Guid)
    | Cleanup(posted: bool)

  datatype Run = Run(rows: seq<Choice>, next: nat, pc: Pc, imported: nat, failed: seq<Id>)

  datatype World = World(book: Book, staged: Table, runs: seq<Run>)

  // What the queries of one statement may return.
  datatype Answers = Answers(bank: Option<Guid>, pick: Option<Guid>)

  datatype Move = Move(run: nat, answers: Answers)

  predicate Done(run: Run) {
    run.next >= |run.rows|
  }

  function NextRow(run: Run): Run {
    run.(next := run.next + 1, pc := Load)
  }

  function Fail(run: Run): Run
    requires !Done(run)
  {
    NextRow(run).(failed := run.failed + [run.rows[run.next].id])
  }

  predicate Enabled(w: World, m: Move) {
    && m.run < |w.runs| && !Done(w.runs[m.run])
    && (w.runs[m.run].pc.Resolve? ==> IsBankLookup(w.book, w.runs[m.run].pc.row.bankAccount, m.answers.bank))
  }

  // The statement's effect: on the request itself, on the books, on staging.
  function Step(w: World, m: Move): World
    requires Enabled(w, m)
  {
    var run := w.runs[m.run];
    var Choice(id, category) := run.rows[run.next];
    match run.pc
    case Load =>
      With(w, m.run,
        if category.None? then Fail(run)
        else if id in w.staged then run.(pc := Resolve(w.staged[id]))
        else run.(pc := CheckGone))
    case CheckGone => With(w, m.run, if Imported(w.book, id) then NextRow(run) else Fail(run))
    case Resolve(row) =>
      With(w, m.run,
        if m.answers.bank.None? then Fail(run) else run.(pc := CheckDuplicate(row, m.answers.bank.value)))
    case CheckDuplicate(row, bank) =>
      With(w, m.run,
        if Imported(w.book, id) then NextRow(run)
        else if row.predecessor.Some? then run.(pc := CheckPending(row, bank))
        else run.(pc := Insert(row, bank)))
    case CheckPending(row, bank) =>
      With(w, m.run,
        if row.predecessor.Some? && Imported(w.book, row.predecessor.value) then run.(pc := CheckValue(row, bank))
        else run.(pc := Insert(row, bank)))
    case CheckValue(row, bank) =>
      With(w, m.run,
        if row.predecessor.Some? && ValueMatches(w.book, row.predecessor.value, row.bankAccount, row.num, row.denom)
        then run.(pc := Cleanup(false))
        else run.(pc := Insert(row, bank)))
    case Insert(row, bank) =>
      if category.None? then With(w, m.run, Fail(run))
      else (
        match Create(w.book.books, w.book.guid, ImportRequest(id, row, bank, category.value), m.answers.pick)
        case Ok(books) => With(w, m.run, run.(pc := Cleanup(true))).(book := w.book.(books := books))
        case Err(DuplicatePlaidId) => With(w, m.run, run.(pc := Cleanup(false)))
        case Err(_) => With(w, m.run, Fail(run)))
    case Cleanup(posted) =>
      With(w, m.run, NextRow(run).(imported := run.imported + if posted then 1 else 0))
        .(staged := w.staged - {id})
  }

  function With(w: World, r: nat, run: Run): World
    requires r < |w.runs|
  {
    w.(runs := w.runs[r := run])
  }

  // ------------------------------------------------------------ the setting

  // Rows as a client may send them: with a category of the book, and either gone
  // from staging because they were imported, or staged, importable, without a
  // pending predecessor and on a linked bank account, imported before or not.
  ghost predicate RowReady(b: Book, t: Table, c: Choice) {
    && c.category.Some? && CheckAccount(b.books, b.guid, c.category.value).None?
    && (c.id !in t ==> Imported(b, c.id))
    && (c.id in t ==> StagedReady(b, t[c.id]))
  }

  ghost predicate StagedReady(b: Book, row: Row) {
    && Importable(row) && row.predecessor.None?
    && (exists a <- b.books.accounts :: LinkedTo(b, a, row.bankAccount))
    && (forall a <- b.books.accounts :: LinkedTo(b, a, row.bankAccount) ==> !b.books.accounts[a].placeholder)
  }

  predicate Requested(runs: seq<Run>, id: Id) {
    exists r, j :: 0 <= r < |runs| && 0 <= j < |runs[r].rows| && runs[r].rows[j].id == id
  }

  ghost predicate Fresh(b: Book, t: Table, run: Run) {
    && run.next == 0 && run.pc == Load && run.imported == 0 && run.failed == []
    && (forall c <- run.rows :: RowReady(b, t, c))
  }

  // Staging may hold more than is requested.
  ghost predicate Initial(w: World) {
    && (forall run <- w.runs :: Fresh(w.book, w.staged, run))
    && Unique(w.book)
    && (forall g <- w.book.books.txns :: g < w.book.books.next)
  }

  // ------------------------------------------------------------ the invariant

  // The transaction an import of x is to leave: the bank split takes -a, the
  // split on the category somebody chose for x takes +a.
  ghost predicate PostedFor(w0: World, x: Id, txn: Txn) {
    && x in w0.staged
    && exists bank: Guid, category: Guid ::
      && LinkedTo(w0.book, bank, w0.staged[x].bankAccount)
      && IsCategory(w0, x, category)
      && var row := w0.staged[x];
         txn == Txn(w0.book.guid, Some(x), row.date, row.description, [
           Split(bank, -row.num, row.denom, -row.num, row.denom, Cleared),
           Split(category, row.num, row.denom, row.num, row.denom, Cleared)])
  }

  ghost predicate PostedByRequest(w0: World, txn: Txn) {
    txn.plaidId.Some? && PostedFor(w0, txn.plaidId.value, txn)
  }

  ghost predicate IsCategory(w0: World, x: Id, category: Guid) {
    exists r, j :: 0 <= r < |w0.runs| && 0 <= j < |w0.runs[r].rows| && w0.runs[r].rows[j] == Choice(x, Some(category))
  }

  ghost predicate BankOk(w0: World, row: Row, bank: Guid) {
    LinkedTo(w0.book, bank, row.bankAccount) && CheckAccount(w0.book.books, w0.book.guid, bank).None?
  }

  ghost predicate PcOk(w0: World, b: Book, id: Id, pc: Pc) {
    match pc
    case Load => true
    case CheckGone => Imported(b, id)
    case Resolve(row) => id in w0.staged && row == w0.staged[id]
    case CheckDuplicate(row, bank) => id in w0.staged && row == w0.staged[id] && BankOk(w0, row, bank)
    case CheckPending(_, _) => false
    case CheckValue(_, _) => false
    case Insert(row, bank) => id in w0.staged && row == w0.staged[id] && BankOk(w0, row, bank)
    case Cleanup(_) => Imported(b, id)
  }

  ghost predicate RunOk(w0: World, b: Book, start: Run, run: Run) {
    && run.rows == start.rows && run.failed == []
    && run.next <= |run.rows|
    && (forall j :: 0 <= j < run.next ==> Imported(b, run.rows[j].id))
    && (if Done(run) then run.pc == Load else PcOk(w0, b, run.rows[run.next].id, run.pc))
  }

  ghost predicate BooksOk(w0: World, b: Book) {
    && b.guid == w0.book.guid
    && b.books.accounts == w0.book.books.accounts
    && (forall g <- b.books.txns :: g < b.books.next)
    && (forall g <- w0.book.books.txns :: g in b.books.txns && b.books.txns[g] == w0.book.books.txns[g])
    && (forall g <- b.books.txns :: g in w0.book.books.txns || PostedByRequest(w0, b.books.txns[g]))
  }

  // No id is in the books twice.
  ghost predicate Unique(b: Book) {
    forall g, h, x :: IsTxnOf(b, g, x) && IsTxnOf(b, h, x) ==> g == h
  }

  predicate IsTxnOf(b: Book, g: Guid, x: Id) {
    g in b.books.txns && b.books.txns[g].book == b.guid && b.books.txns[g].plaidId == Some(x)
  }

  ghost predicate StagedOk(w0: World, t: Table, b: Book) {
    && (forall x <- t :: x in w0.staged && t[x] == w0.staged[x])
    && (forall x <- w0.staged :: x in t || Imported(b, x))
  }

  // What has been imported since the start; these ids are counted once each.
  ghost function ImportedIds(w0: World, b: Book): set<Id> {
    set x | x in w0.staged && Imported(b, x) && !Imported(w0.book, x)
  }

  ghost predicate Inv(w0: World, w: World) {
    && BooksOk(w0, w.book)
    && Unique(w.book)
    && StagedOk(w0, w.staged, w.book)
    && |w.runs| == |w0.runs|
    && (forall r :: 0 <= r < |w.runs| ==> RunOk(w0, w.book, w0.runs[r], w.runs[r]))
    && |ImportedIds(w0, w.book)| == Total(w.runs)
  }

  // ------------------------------------------------------------ counting

  function Count(run: Run): nat {
    run.imported + if run.pc == Cleanup(true) then 1 else 0
  }

  function Total(runs: seq<Run>): nat {
    if |runs| == 0 then 0 else Count(runs[0]) + Total(runs[1..])
  }

  lemma {:induction false} TotalUpdate(runs: seq<Run>, r: nat, run: Run)
    requires r < |runs|
    ensures Total(runs[r := run]) == Total(runs) - Count(runs[r]) + Count(run)
  {
    if r == 0 {
      assert runs[0 := run][1..] == runs[1..];
    } else {
      assert runs[r := run][1..] == runs[1..][r - 1 := run];
      TotalUpdate(runs[1..], r - 1, run);
    }
  }

  lemma {:induction false} TotalOfFresh(runs: seq<Run>)
    requires forall run <- runs :: Count(run) == 0
    ensures Total(runs) == 0
  {
    if |runs| != 0 {
      TotalOfFresh(runs[1..]);
    }
  }

  // ------------------------------------------------------------ every statement

  lemma InitialInv(w0: World)
    requires Initial(w0)
    ensures Inv(w0, w0)
  {
    hide HasPlaidId, RowReady;
    TotalOfFresh(w0.runs);
    assert ImportedIds(w0, w0.book) == {};
    forall r | 0 <= r < |w0.runs|
      ensures RunOk(w0, w0.book, w0.runs[r], w0.runs[r])
    {
      assert Fresh(w0.book, w0.staged, w0.runs[r]);
    }
  }

  lemma TxnMeansImported(b: Book, g: Guid, x: Id)
    requires IsTxnOf(b, g, x)
    ensures Imported(b, x)
  {
  }

  // Statements that leave the books alone.
  lemma QuietStep(w0: World, w: World, m: Move)
    requires Initial(w0) && Inv(w0, w) && Enabled(w, m)
    requires !w.runs[m.run].pc.Insert?
    ensures Inv(w0, Step(w, m))
  {
    hide Imported, Importable, BooksOk, Unique, CheckAccount, Total, RunOk, Step, ImportedIds, Initial, Enabled;
    var w' := Step(w, m);
    assert RunOk(w0, w.book, w0.runs[m.run], w.runs[m.run]) by {
      IsARun(w, m);
    }
    QuietRun(w0, w, m);
    QuietFrame(w, m);
    QuietCount(w, m);
    QuietStaged(w0, w, m);
    TotalUpdate(w.runs, m.run, w'.runs[m.run]);
  }

  lemma IsARun(w: World, m: Move)
    requires Enabled(w, m)
    ensures m.run < |w.runs|
  {
  }

  // The books and the other requests stay.
  lemma QuietFrame(w: World, m: Move)
    requires Enabled(w, m) && !w.runs[m.run].pc.Insert?
    ensures var w' := Step(w, m);
      w'.book == w.book && w'.runs == w.runs[m.run := w'.runs[m.run]]
  {
    hide Imported, ValueMatches, IsBankLookup;
  }

  lemma QuietCount(w: World, m: Move)
    requires Enabled(w, m) && !w.runs[m.run].pc.Insert?
    ensures Count(Step(w, m).runs[m.run]) == Count(w.runs[m.run])
  {
    hide Imported, ValueMatches, IsBankLookup;
  }

  lemma QuietStaged(w0: World, w: World, m: Move)
    requires Enabled(w, m) && !w.runs[m.run].pc.Insert?
    requires m.run < |w0.runs| && RunOk(w0, w.book, w0.runs[m.run], w.runs[m.run]) && StagedOk(w0, w.staged, w.book)
    ensures StagedOk(w0, Step(w, m).staged, w.book)
  {
    hide Imported, ValueMatches, IsBankLookup;
  }

  // The request itself goes on to a row that is ready.
  lemma QuietRun(w0: World, w: World, m: Move)
    requires Initial(w0) && BooksOk(w0, w.book) && StagedOk(w0, w.staged, w.book) && |w.runs| == |w0.runs|
    requires Enabled(w, m) && !w.runs[m.run].pc.Insert?
    requires RunOk(w0, w.book, w0.runs[m.run], w.runs[m.run])
    ensures RunOk(w0, w.book, w0.runs[m.run], Step(w, m).runs[m.run])
  {
    hide HasPlaidId, Importable, BooksOk, Unique, CheckAccount, ValueMatches;
    var run := w.runs[m.run];
    CurrentRowReady(w0, w, m.run);
    if Imported(w0.book, run.rows[run.next].id) {
      ImportedStays(w0, w.book, run.rows[run.next].id);
    }
    if run.pc.Resolve? {
      BankFound(w0, w, run.pc.row, m.answers.bank);
    }
  }

  lemma CurrentRowReady(w0: World, w: World, r: nat)
    requires Initial(w0) && r < |w.runs| == |w0.runs|
    requires w.runs[r].rows == w0.runs[r].rows && !Done(w.runs[r])
    ensures RowReady(w0.book, w0.staged, w.runs[r].rows[w.runs[r].next])
  {
    assert Fresh(w0.book, w0.staged, w0.runs[r]);
  }

  lemma BankFound(w0: World, w: World, row: Row, bank: Option<Guid>)
    requires BooksOk(w0, w.book) && IsBankLookup(w.book, row.bankAccount, bank)
    requires StagedReady(w0.book, row)
    ensures bank.Some? && BankOk(w0, row, bank.value)
  {
    var a :| a in w0.book.books.accounts && LinkedTo(w0.book, a, row.bankAccount);
    assert LinkedTo(w.book, a, row.bankAccount);
    assert LinkedTo(w0.book, bank.value, row.bankAccount);
  }

  lemma InsertStep(w0: World, w: World, m: Move)
    requires Initial(w0) && Inv(w0, w) && Enabled(w, m)
    requires w.runs[m.run].pc.Insert?
    ensures Inv(w0, Step(w, m))
  {
    hide Create, HasPlaidId, BooksOk, Unique, StagedOk, Total, RunOk, ImportRequest, Importable;
    var run := w.runs[m.run];
    assert RunOk(w0, w.book, w0.runs[m.run], run);
    InsertFacts(w0, w, m.run);
    var Choice(id, category) := run.rows[run.next];
    var row, bank := run.pc.row, run.pc.bank;
    var w' := Step(w, m);
    TotalUpdate(w.runs, m.run, run.(pc := Cleanup(true)));
    TotalUpdate(w.runs, m.run, run.(pc := Cleanup(false)));
    if Imported(w.book, id) {
      ImportCollides(w.book, id, row, bank, category.value, m.answers.pick);
      NoInsert(w0, w, m.run);
    } else {
      ImportCreates(w.book, id, row, bank, category.value, m.answers.pick);
      Inserted(w0, w, m.run, w'.book);
      forall r | 0 <= r < |w.runs|
        ensures RunOk(w0, w'.book, w0.runs[r], w'.runs[r])
      {
        assert RunOk(w0, w.book, w0.runs[r], w.runs[r]);
        RunStaysOk(w0, w.book, w'.book, w0.runs[r], w.runs[r]);
        if r == m.run {
          InsertingRunOk(w0, w'.book, w0.runs[r], w.runs[r], true);
        }
      }
    }
  }

  lemma InsertFacts(w0: World, w: World, r: nat)
    requires Initial(w0) && r < |w.runs| == |w0.runs| && RunOk(w0, w.book, w0.runs[r], w.runs[r])
    requires BooksOk(w0, w.book) && !Done(w.runs[r]) && w.runs[r].pc.Insert?
    ensures var Choice(id, category) := w.runs[r].rows[w.runs[r].next];
            var row, bank := w.runs[r].pc.row, w.runs[r].pc.bank;
            && id in w0.staged && row == w0.staged[id] && Importable(row) && category.Some?
            && IsCategory(w0, id, category.value)
            && LinkedTo(w0.book, bank, row.bankAccount)
            && CheckAccount(w.book.books, w.book.guid, bank).None?
            && CheckAccount(w.book.books, w.book.guid, category.value).None?
  {
    CurrentRowReady(w0, w, r);
    assert w0.runs[r].rows[w.runs[r].next] == w.runs[r].rows[w.runs[r].next];
  }

  lemma NoInsert(w0: World, w: World, r: nat)
    requires Inv(w0, w) && r < |w.runs| && !Done(w.runs[r]) && w.runs[r].pc.Insert?
    requires Imported(w.book, w.runs[r].rows[w.runs[r].next].id)
    ensures Inv(w0, With(w, r, w.runs[r].(pc := Cleanup(false))))
  {
    hide HasPlaidId, BooksOk, Unique, Total;
    assert RunOk(w0, w.book, w0.runs[r], w.runs[r]);
    InsertingRunOk(w0, w.book, w0.runs[r], w.runs[r], false);
    TotalUpdate(w.runs, r, w.runs[r].(pc := Cleanup(false)));
  }

  lemma InsertingRunOk(w0: World, b: Book, start: Run, run: Run, posted: bool)
    requires RunOk(w0, b, start, run) && !Done(run) && Imported(b, run.rows[run.next].id)
    ensures RunOk(w0, b, start, run.(pc := Cleanup(posted)))
  {
    hide HasPlaidId;
  }

  // The books after the insert hold one more id, and each still at most once.
  lemma Inserted(w0: World, w: World, r: nat, b': Book)
    requires Initial(w0) && BooksOk(w0, w.book) && Unique(w.book) && StagedOk(w0, w.staged, w.book)
    requires r < |w.runs| && !Done(w.runs[r]) && w.runs[r].pc.Insert? && w.runs[r].rows[w.runs[r].next].category.Some?
    requires var c := w.runs[r].rows[w.runs[r].next];
      var row, bank := w.runs[r].pc.row, w.runs[r].pc.bank;
      && c.id in w0.staged && row == w0.staged[c.id] && Importable(row) && !Imported(w.book, c.id)
      && IsCategory(w0, c.id, c.category.value) && LinkedTo(w0.book, bank, row.bankAccount)
      && b' == w.book.(books := w.book.books.(
           txns := w.book.books.txns[w.book.books.next := Txn(w.book.guid, Some(c.id), row.date, row.description,
             ImportRequest(c.id, row, bank, c.category.value).splits)],
           next := w.book.books.next + 1))
    ensures var x := w.runs[r].rows[w.runs[r].next].id;
      && BooksOk(w0, b') && Unique(b')
      && StagedOk(w0, w.staged, b')
      && Imported(b', x)
      && (forall y :: Imported(w.book, y) ==> Imported(b', y))
      && |ImportedIds(w0, b')| == |ImportedIds(w0, w.book)| + 1
  {
    hide Imported, LinkedTo, IsCategory, Unique, IsTxnOf, PostedFor;
    var c := w.runs[r].rows[w.runs[r].next];
    var x, g := c.id, w.book.books.next;
    var row, bank := w.runs[r].pc.row, w.runs[r].pc.bank;
    if Imported(w0.book, x) {
      ImportedStays(w0, w.book, x);
    }
    forall y
      ensures y != x ==> (Imported(b', y) <==> Imported(w.book, y))
      ensures Imported(b', x)
    {
      Timeline.NewlyImported(w.book, b', g, x, if y != x then y else x + 1);
    }
    assert ImportedIds(w0, b') == ImportedIds(w0, w.book) + {x};
    StillUnique(w.book, b', g, x);
    PostedByInsert(w0, x, row, bank, c.category.value);
    MoreBooksOk(w0, w.book, b', g);
  }

  // One more transaction, posted for a request.
  lemma MoreBooksOk(w0: World, b: Book, b': Book, g: Guid)
    requires BooksOk(w0, b) && g == b.books.next && g in b'.books.txns && PostedByRequest(w0, b'.books.txns[g])
    requires b' == b.(books := b.books.(txns := b.books.txns[g := b'.books.txns[g]], next := g + 1))
    ensures BooksOk(w0, b')
  {
    hide PostedByRequest;
  }

  // One more transaction, for an id that was not there.
  lemma StillUnique(b: Book, b': Book, g: Guid, x: Id)
    requires Unique(b) && !Imported(b, x) && b'.guid == b.guid && g in b'.books.txns
    requires b'.books.txns == b.books.txns[g := b'.books.txns[g]] && b'.books.txns[g].plaidId == Some(x)
    ensures Unique(b')
  {
    hide Imported;
    forall h, k, y | IsTxnOf(b', h, y) && IsTxnOf(b', k, y)
      ensures h == k
    {
      if y == x {
        if h != g {
          TxnMeansImported(b, h, x);
          assert false;
        }
        if k != g {
          TxnMeansImported(b, k, x);
          assert false;
        }
      } else {
        assert IsTxnOf(b, h, y) && IsTxnOf(b, k, y);
      }
    }
  }

  lemma PostedByInsert(w0: World, x: Id, row: Row, bank: Guid, category: Guid)
    requires x in w0.staged && row == w0.staged[x] && Importable(row)
    requires LinkedTo(w0.book, bank, row.bankAccount) && IsCategory(w0, x, category)
    ensures var splits := ImportRequest(x, row, bank, category).splits;
      PostedFor(w0, x, Txn(w0.book.guid, Some(x), row.date, row.description, splits))
  {
    hide LinkedTo, IsCategory;
    assert Wrap(-row.num) == -row.num;
  }

  lemma RunStaysOk(w0: World, b: Book, b': Book, start: Run, run: Run)
    requires RunOk(w0, b, start, run)
    requires forall y :: Imported(b, y) ==> Imported(b', y)
    ensures RunOk(w0, b', start, run)
  {
    hide HasPlaidId;
  }

  // ------------------------------------------------------------ every schedule

  ghost predicate AllEnabled(w: World, moves: seq<Move>)
    decreases |moves|
  {
    |moves| != 0 ==> Enabled(w, moves[0]) && AllEnabled(Step(w, moves[0]), moves[1..])
  }

  ghost function StepAll(w: World, moves: seq<Move>): World
    requires AllEnabled(w, moves)
    decreases |moves|
  {
    if |moves| == 0 then w else StepAll(Step(w, moves[0]), moves[1..])
  }

  // Statements still to come, at most.
  function RunWork(run: Run): nat {
    if Done(run) then 0
    else 8 * (|run.rows| - run.next) - match run.pc
      case Load => 0
      case CheckGone => 1
      case Resolve(_) => 1
      case CheckDuplicate(_, _) => 2
      case CheckPending(_, _) => 3
      case CheckValue(_, _) => 4
      case Insert(_, _) => 5
      case Cleanup(_) => 6
  }

  function Work(runs: seq<Run>): nat {
    if |runs| == 0 then 0 else RunWork(runs[0]) + Work(runs[1..])
  }

  lemma {:induction false} WorkUpdate(runs: seq<Run>, r: nat, run: Run)
    requires r < |runs|
    ensures Work(runs[r := run]) == Work(runs) - RunWork(runs[r]) + RunWork(run)
  {
    if r == 0 {
      assert runs[0 := run][1..] == runs[1..];
    } else {
      assert runs[r := run][1..] == runs[1..][r - 1 := run];
      WorkUpdate(runs[1..], r - 1, run);
    }
  }

  lemma StepMakesProgress(w: World, m: Move)
    requires Enabled(w, m)
    ensures Work(Step(w, m).runs) < Work(w.runs)
  {
    hide Create, Work, Imported, ValueMatches;
    WorkUpdate(w.runs, m.run, Step(w, m).runs[m.run]);
  }

  // No request is ever stuck: some answer to its next query is possible.
  lemma NeverStuck(w: World, r: nat)
    requires r < |w.runs| && !Done(w.runs[r])
    ensures exists answers :: Enabled(w, Move(r, answers))
  {
    var answers := Answers(None, None);
    if w.runs[r].pc.Resolve? {
      var row := w.runs[r].pc.row;
      if a :| a in w.book.books.accounts && LinkedTo(w.book, a, row.bankAccount) {
        answers := Answers(Some(a), None);
      }
    }
    assert Enabled(w, Move(r, answers));
  }

  lemma {:induction false} ScheduleKeepsInv(w0: World, w: World, moves: seq<Move>)
    requires Initial(w0) && Inv(w0, w) && AllEnabled(w, moves)
    ensures Inv(w0, StepAll(w, moves))
    ensures |moves| + Work(StepAll(w, moves).runs) <= Work(w.runs)
    decreases |moves|
  {
    hide Inv, Initial, Step, Work;
    if |moves| != 0 {
      if w.runs[moves[0].run].pc.Insert? {
        InsertStep(w0, w, moves[0]);
      } else {
        QuietStep(w0, w, moves[0]);
      }
      StepMakesProgress(w, moves[0]);
      ScheduleKeepsInv(w0, Step(w, moves[0]), moves[1..]);
    }
  }

  // ------------------------------------------------------------ exactly once

  function ImportedCount(runs: seq<Run>): nat {
    if |runs| == 0 then 0 else runs[0].imported + ImportedCount(runs[1..])
  }

  lemma {:induction false} FinalCount(runs: seq<Run>)
    requires forall run <- runs :: run.pc == Load
    ensures Total(runs) == ImportedCount(runs)
  {
    if |runs| != 0 {
      FinalCount(runs[1..]);
    }
  }

  // The requested rows that are not in the books yet.
  ghost function ToImport(w: World): set<Id> {
    set x | x in w.staged && Requested(w.runs, x) && !Imported(w.book, x)
  }

  // However the requests interleave: no row is ever reported failed, no id is in
  // the books twice, nothing but rows of these requests is posted; and once all
  // requests are through, each requested row is exactly one transaction - with
  // its two splits, if it was not in the books before - and the reported counts
  // add up to the number of rows that were not.
  lemma ExactlyOnce(w0: World, moves: seq<Move>)
    requires Initial(w0) && AllEnabled(w0, moves)
    ensures var w := StepAll(w0, moves);
      && |moves| <= Work(w0.runs)
      && |w.runs| == |w0.runs|
      && (forall run <- w.runs :: run.failed == [])
      && (forall x, g, h :: IsTxnOf(w.book, g, x) && IsTxnOf(w.book, h, x) ==> g == h)
      && (forall g <- w.book.books.txns :: g in w0.book.books.txns || PostedByRequest(w0, w.book.books.txns[g]))
      && ((forall run <- w.runs :: Done(run)) ==>
          && (forall x :: Requested(w0.runs, x) ==> PostedOnce(w0, w.book, x))
          && ImportedCount(w.runs) == |ToImport(w0)|)
  {
    hide Initial, AllEnabled, StepAll, Work, Total, PostedByRequest, HasPlaidId, RunOk, PostedOnce, StagedOk, Requested;
    InitialInv(w0);
    ScheduleKeepsInv(w0, w0, moves);
    var w := StepAll(w0, moves);
    NoneFailed(w0, w);
    if forall run <- w.runs :: Done(run) {
      AllPosted(w0, w);
    }
  }

  ghost predicate PostedOnce(w0: World, b: Book, x: Id) {
    && (exists g :: IsTxnOf(b, g, x) && (Imported(w0.book, x) || PostedFor(w0, x, b.books.txns[g])))
    && (forall g, h :: IsTxnOf(b, g, x) && IsTxnOf(b, h, x) ==> g == h)
  }

  lemma NoneFailed(w0: World, w: World)
    requires Inv(w0, w)
    ensures forall run <- w.runs :: run.failed == []
  {
    hide BooksOk, Unique, StagedOk, Total, PcOk, HasPlaidId;
    forall run <- w.runs
      ensures run.failed == []
    {
      var r :| 0 <= r < |w.runs| && w.runs[r] == run;
      assert RunOk(w0, w.book, w0.runs[r], w.runs[r]);
    }
  }

  lemma AllPosted(w0: World, w: World)
    requires Initial(w0) && Inv(w0, w)
    requires forall run <- w.runs :: Done(run)
    ensures forall x :: Requested(w0.runs, x) ==> PostedOnce(w0, w.book, x)
    ensures ImportedCount(w.runs) == |ToImport(w0)|
  {
    hide PostedFor, HasPlaidId, StagedOk, Total, ImportedCount, PcOk, Requested, Imported;
    forall x | Requested(w0.runs, x)
      ensures Imported(w.book, x) && PostedOnce(w0, w.book, x)
    {
      FinallyImported(w0, w, x);
      FinallyPosted(w0, w, x);
    }
    forall x <- ImportedIds(w0, w.book)
      ensures Requested(w0.runs, x)
    {
      FinallyPosted(w0, w, x);
    }
    assert ImportedIds(w0, w.book) == ToImport(w0);
    forall run <- w.runs
      ensures run.pc == Load
    {
      var r :| 0 <= r < |w.runs| && w.runs[r] == run;
      assert RunOk(w0, w.book, w0.runs[r], w.runs[r]);
    }
    FinalCount(w.runs);
  }

  lemma FinallyImported(w0: World, w: World, x: Id)
    requires Requested(w0.runs, x) && |w.runs| == |w0.runs|
    requires forall r :: 0 <= r < |w.runs| ==> RunOk(w0, w.book, w0.runs[r], w.runs[r]) && Done(w.runs[r])
    ensures Imported(w.book, x)
  {
    var r, j :| 0 <= r < |w0.runs| && 0 <= j < |w0.runs[r].rows| && w0.runs[r].rows[j].id == x;
    assert RunOk(w0, w.book, w0.runs[r], w.runs[r]);
  }

  lemma OldTxnMeansImported(w0: World, b: Book, g: Guid, x: Id)
    requires BooksOk(w0, b) && g in w0.book.books.txns
    requires b.books.txns[g].book == b.guid && b.books.txns[g].plaidId == Some(x)
    ensures Imported(w0.book, x)
  {
    TxnMeansImported(w0.book, g, x);
  }

  // New ids are those of rows somebody requested.
  lemma FinallyPosted(w0: World, w: World, x: Id)
    requires BooksOk(w0, w.book) && Imported(w.book, x)
    ensures exists g :: IsTxnOf(w.book, g, x) && (Imported(w0.book, x) || PostedFor(w0, x, w.book.books.txns[g]))
    ensures !Imported(w0.book, x) ==> Requested(w0.runs, x)
  {
    hide LinkedTo;
    var b := w.book;
    var g :| g in b.books.txns && b.books.txns[g].book == b.guid && b.books.txns[g].plaidId == Some(x);
    assert IsTxnOf(b, g, x);
    if g in w0.book.books.txns {
      OldTxnMeansImported(w0, b, g, x);
    } else {
      assert PostedByRequest(w0, b.books.txns[g]);
    }
  }

  lemma ImportedStays(w0: World, b: Book, x: Id)
    requires BooksOk(w0, b) && Imported(w0.book, x)
    ensures Imported(b, x)
  {
  }

  // ------------------------------------------------------------ one request alone

  // The statements of request r for its current row, one after the other.
  function RunRow(w: World, r: nat, answers: Answers, fuel: nat): World
    requires r < |w.runs|
    decreases fuel
  {
    if fuel == 0 || !Enabled(w, Move(r, answers)) then w
    else
      var w' := Step(w, Move(r, answers));
      StepRuns(w, Move(r, answers));
      if w'.runs[r].next != w.runs[r].next then w' else RunRow(w', r, answers, fuel - 1)
  }

  lemma StepRuns(w: World, m: Move)
    requires Enabled(w, m)
    ensures |Step(w, m).runs| == |w.runs|
  {
  }

  // The row is through: the tables are y, and the outcome is booked.
  function RowDone(w: World, r: nat, y: Imports, outcome: Outcome): World
    requires r < |w.runs| && !Done(w.runs[r])
  {
    var run := w.runs[r];
    var done := Run(
      run.rows, run.next + 1, Load,
      run.imported + if outcome.Posted? then 1 else 0,
      run.failed + if outcome.Failed? then [run.rows[run.next].id] else []);
    World(y.book, y.staged, w.runs[r := done])
  }

  lemma CleanupRow(w: World, r: nat, answers: Answers, fuel: nat)
    requires r < |w.runs| && !Done(w.runs[r]) && w.runs[r].pc.Cleanup? && fuel >= 1
    ensures var id := w.runs[r].rows[w.runs[r].next].id;
      RunRow(w, r, answers, fuel)
        == RowDone(w, r, Imports(w.book, w.staged - {id}), if w.runs[r].pc.posted then Posted else Skipped)
  {
    assert w.runs[r].failed + [] == w.runs[r].failed;
  }

  lemma InsertRow(w: World, r: nat, answers: Answers, fuel: nat)
    requires r < |w.runs| && !Done(w.runs[r]) && w.runs[r].pc.Insert? && fuel >= 2
    requires w.runs[r].rows[w.runs[r].next].category.Some?
    ensures var Choice(id, category) := w.runs[r].rows[w.runs[r].next];
      var req := ImportRequest(id, w.runs[r].pc.row, w.runs[r].pc.bank, category.value);
      RunRow(w, r, answers, fuel) == match Create(w.book.books, w.book.guid, req, answers.pick)
        case Ok(books) => RowDone(w, r, Imports(w.book.(books := books), w.staged - {id}), Posted)
        case Err(DuplicatePlaidId) => RowDone(w, r, Imports(w.book, w.staged - {id}), Skipped)
        case Err(_) => RowDone(w, r, Imports(w.book, w.staged), Failed)
  {
    hide Create, ImportRequest, RowDone;
    var w' := Step(w, Move(r, answers));
    if w'.runs[r].next == w.runs[r].next {
      CleanupRow(w', r, answers, fuel - 1);
      SameRowDone(w, w', r);
    } else {
      FailedRow(w, r);
    }
  }

  // Where the row stands does not show once it is done.
  lemma SameRowDone(w: World, w': World, r: nat)
    requires r < |w.runs| && !Done(w.runs[r]) && r < |w'.runs|
    requires w'.runs == w.runs[r := w.runs[r].(pc := w'.runs[r].pc)]
    ensures forall y, outcome :: RowDone(w', r, y, outcome) == RowDone(w, r, y, outcome)
  {
    forall y, outcome: Outcome
      ensures RowDone(w', r, y, outcome) == RowDone(w, r, y, outcome)
    {
      assert RowDone(w', r, y, outcome).runs == RowDone(w, r, y, outcome).runs;
    }
  }

  lemma FailedRow(w: World, r: nat)
    requires r < |w.runs| && !Done(w.runs[r])
    ensures With(w, r, Fail(w.runs[r])) == RowDone(w, r, Imports(w.book, w.staged), Failed)
    ensures With(w, r, NextRow(w.runs[r])) == RowDone(w, r, Imports(w.book, w.staged), Skipped)
  {
    assert w.runs[r].failed + [] == w.runs[r].failed;
  }

  // What is left of importing a row once its id is known to be new.
  function AfterChecks(w: World, id: Id, row: Row, bank: Guid, category: Guid, pick: Option<Guid>): (Imports, Outcome) {
    if row.predecessor.Some? && Imported(w.book, row.predecessor.value)
      && ValueMatches(w.book, row.predecessor.value, row.bankAccount, row.num, row.denom)
    then (Imports(w.book, w.staged - {id}), Skipped)
    else match Create(w.book.books, w.book.guid, ImportRequest(id, row, bank, category), pick)
      case Ok(books) => (Imports(w.book.(books := books), w.staged - {id}), Posted)
      case Err(DuplicatePlaidId) => (Imports(w.book, w.staged - {id}), Skipped)
      case Err(_) => (Imports(w.book, w.staged), Failed)
  }

  lemma ValueRow(w: World, r: nat, answers: Answers, fuel: nat)
    requires r < |w.runs| && !Done(w.runs[r]) && w.runs[r].pc.CheckValue? && fuel >= 3
    requires w.runs[r].rows[w.runs[r].next].category.Some?
    requires var row := w.runs[r].pc.row; row.predecessor.Some? && Imported(w.book, row.predecessor.value)
    ensures var Choice(id, category) := w.runs[r].rows[w.runs[r].next];
      var done := AfterChecks(w, id, w.runs[r].pc.row, w.runs[r].pc.bank, category.value, answers.pick);
      RunRow(w, r, answers, fuel) == RowDone(w, r, done.0, done.1)
  {
    hide Create, ImportRequest, RowDone, Imported, ValueMatches;
    var w' := Step(w, Move(r, answers));
    SameRowDone(w, w', r);
    if w'.runs[r].pc.Cleanup? {
      CleanupRow(w', r, answers, fuel - 1);
    } else {
      InsertRow(w', r, answers, fuel - 1);
    }
  }

  lemma PendingRow(w: World, r: nat, answers: Answers, fuel: nat)
    requires r < |w.runs| && !Done(w.runs[r]) && w.runs[r].pc.CheckPending? && fuel >= 4
    requires w.runs[r].rows[w.runs[r].next].category.Some?
    ensures var Choice(id, category) := w.runs[r].rows[w.runs[r].next];
      var done := AfterChecks(w, id, w.runs[r].pc.row, w.runs[r].pc.bank, category.value, answers.pick);
      RunRow(w, r, answers, fuel) == RowDone(w, r, done.0, done.1)
  {
    hide Create, ImportRequest, RowDone, Imported, ValueMatches;
    var w' := Step(w, Move(r, answers));
    SameRowDone(w, w', r);
    if w'.runs[r].pc.CheckValue? {
      ValueRow(w', r, answers, fuel - 1);
    } else {
      InsertRow(w', r, answers, fuel - 1);
    }
  }

  lemma DuplicateRow(w: World, r: nat, answers: Answers, fuel: nat)
    requires r < |w.runs| && !Done(w.runs[r]) && w.runs[r].pc.CheckDuplicate? && fuel >= 5
    requires w.runs[r].rows[w.runs[r].next].category.Some?
    ensures var Choice(id, category) := w.runs[r].rows[w.runs[r].next];
      var done := AfterChecks(w, id, w.runs[r].pc.row, w.runs[r].pc.bank, category.value, answers.pick);
      RunRow(w, r, answers, fuel) ==
        if Imported(w.book, id) then RowDone(w, r, Imports(w.book, w.staged), Skipped)
        else RowDone(w, r, done.0, done.1)
  {
    hide Create, ImportRequest, RowDone, Imported, ValueMatches;
    var w' := Step(w, Move(r, answers));
    if w'.runs[r].next != w.runs[r].next {
      FailedRow(w, r);
    } else {
      SameRowDone(w, w', r);
      if w'.runs[r].pc.CheckPending? {
        PendingRow(w', r, answers, fuel - 1);
      } else {
        InsertRow(w', r, answers, fuel - 1);
      }
    }
  }

  // Alone, a request does with a row what the one-step import does, and books the
  // outcome: the count for a row posted, the id for a row that failed.
  lemma AloneIsImportRow(w: World, r: nat, answers: Answers)
    requires r < |w.runs| && !Done(w.runs[r]) && w.runs[r].pc == Load
    requires var id := w.runs[r].rows[w.runs[r].next].id;
      id in w.staged ==> IsBankLookup(w.book, w.staged[id].bankAccount, answers.bank)
    ensures var Choice(id, category) := w.runs[r].rows[w.runs[r].next];
      var (y, outcome) := ImportRow(Imports(w.book, w.staged), id, category, answers.bank, answers.pick);
      RunRow(w, r, answers, 7) == RowDone(w, r, y, outcome)
  {
    hide Create, ImportRequest, RowDone, Imported, ValueMatches, IsBankLookup;
    var Choice(id, category) := w.runs[r].rows[w.runs[r].next];
    FailedRow(w, r);
    if category.Some? {
      var w1 := Step(w, Move(r, answers));
      SameRowDone(w, w1, r);
      if id !in w.staged {
        FailedRow(w1, r);
        assert RunRow(w, r, answers, 7) == RunRow(w1, r, answers, 6);
      } else {
        var w2 := Step(w1, Move(r, answers));
        FailedRow(w1, r);
        if answers.bank.Some? {
          SameRowDone(w, w2, r);
          DuplicateRow(w2, r, answers, 5);
        }
        assert RunRow(w, r, answers, 7) == RunRow(w1, r, answers, 6);
      }
    }
  }
}
