/**
 The statements of a sync run, or of an import of one row, with nothing in
 between, do what the models that take them as one step say: the concurrent
 protocol of Delivery refines Convergence and Importing
 (backend/internal/plaid/service.go).
 */
module DeliveryAlone {
  import opened Wrappers
  import opened Ledger
  import opened Staging
  import opened Delivery
  import Numeric
  import Convergence
  import Importing
  import Timeline

  // ------------------------------------------------------------ a sync run

  // The run's next entry or statement.
  function OneOp(pages: seq<Delta>, w: World, run: nat): (w': World)
    requires HasNext(pages, w, run)
    ensures Runs(pages, w', run) && w'.book == w.book && w'.runs[run].start == w.runs[run].start
    ensures w'.runs[run].done == w.runs[run].done + 1
    ensures w'.staged == Exec(w.book, w.staged, NextOp(pages, w, run))
  {
    UninterruptedIsExec(pages, w, run);
    var op := NextOp(pages, w, run);
    var read := if op.Stage? then Apply(pages, w, Decide(run, PlanNow(w, op.entry))) else w;
    Apply(pages, read, Write(run))
  }

  // What is left of it, the cursor write included.
  function RunOut(pages: seq<Delta>, w: World, run: nat): World
    requires Runs(pages, w, run)
    decreases |RunOps(pages, w.runs[run].start)| - w.runs[run].done
  {
    if HasNext(pages, w, run) then RunOut(pages, OneOp(pages, w, run), run) else Apply(pages, w, Persist(run))
  }

  lemma {:induction false} RestIsExecuted(pages: seq<Delta>, w: World, run: nat)
    requires Runs(pages, w, run)
    ensures var r := w.runs[run];
      && RunOut(pages, w, run).staged == ExecAll(w.book, w.staged, RunOps(pages, r.start)[r.done..])
      && RunOut(pages, w, run).cursor == Reach(pages, r.start)
      && RunOut(pages, w, run).book == w.book
    decreases |RunOps(pages, w.runs[run].start)| - w.runs[run].done
  {
    hide RunOps, Apply, Exec, ExecAll, Reach;
    var r := w.runs[run];
    var ops := RunOps(pages, r.start);
    if HasNext(pages, w, run) {
      RestIsExecuted(pages, OneOp(pages, w, run), run);
      assert ops[r.done..] == [ops[r.done]] + ops[r.done + 1..];
      ExecFirst(w.book, w.staged, ops[r.done], ops[r.done + 1..]);
    } else {
      assert ops[r.done..] == [];
      PersistOnly(pages, w, run);
    }
  }

  lemma ExecFirst(b: Book, t: Table, op: Op, ops: seq<Op>)
    ensures ExecAll(b, t, [op] + ops) == ExecAll(b, Exec(b, t, op), ops)
  {
    hide Exec;
    ExecAllConcat(b, t, [op], ops);
    assert [op][..0] == [];
    assert ExecAll(b, t, [op]) == Exec(b, t, op);
  }

  lemma PersistOnly(pages: seq<Delta>, w: World, run: nat)
    requires Runs(pages, w, run) && !HasNext(pages, w, run)
    ensures var w' := Apply(pages, w, Persist(run));
      && w'.staged == ExecAll(w.book, w.staged, []) && w'.cursor == Reach(pages, w.runs[run].start)
      && w'.book == w.book
  {
  }

  // A run that nothing interrupts takes table and cursor where one run of the
  // convergence model takes them.
  lemma RunAloneIsStep(k: Convergence.Feed, w: World, run: nat, start: nat, budget: nat)
    requires run !in w.runs && start in w.stored && start <= |k.pages|
    requires budget > |RunOps(k.pages, start)|
    ensures Enabled(k.pages, w, Begin(run, start)) && Runs(k.pages, Apply(k.pages, w, Begin(run, start)), run)
    ensures var w' := RunOut(k.pages, Apply(k.pages, w, Begin(run, start)), run);
      Convergence.System(w'.staged, w'.cursor) == Convergence.Step(
        k, w.book, Convergence.System(w.staged, w.cursor), Convergence.Run(start, budget))
  {
    hide RunOps, Reach, ExecAll;
    var w1 := Apply(k.pages, w, Begin(run, start));
    RestIsExecuted(k.pages, w1, run);
    var ops := RunOps(k.pages, start);
    assert ops[0..] == ops;
  }

  // ------------------------------------------------------------ an import

  // Importing a staged row in one step is its read, then the insert or the match,
  // then the clean-up; a row that is left where it is takes no more than the read.
  lemma ImportAloneIsImportRow(
    pages: seq<Delta>, w: World, request: nat, id: Id, category: Option<Guid>, bank: Option<Guid>, pick: Option<Guid>)
    requires request !in w.imports && id in w.staged
    ensures Enabled(pages, w, Load(request, id))
    ensures var (y', outcome) :=
      Importing.ImportRow(Importing.Imports(w.book, w.staged), id, category, bank, pick);
      var w1 := Apply(pages, w, Load(request, id));
      if outcome.Posted? then EndsAs(pages, w1, Post(request, y'.book.books), Cleanup(request), y')
      else if y'.staged != w.staged then EndsAs(pages, w1, Match(request), Cleanup(request), y')
      else y' == Importing.Imports(w1.book, w1.staged)
  {
    hide Apply, Enabled, EndsAs, Create, Imported, ValueMatches, NewIds, Importing.ImportRequest;
    LoadReads(pages, w, request, id);
    var y := Importing.Imports(w.book, w.staged);
    var (y', outcome) := Importing.ImportRow(y, id, category, bank, pick);
    if outcome.Posted? {
      var req := Importing.ImportRequest(id, w.staged[id], bank.value, category.value);
      RequestHasId(id, w.staged[id], bank.value, category.value);
      NewIdOnly(w.book, req, id, pick);
      PostEnds(pages, w, request, id, y'.book.books);
    } else if y'.staged != w.staged {
      RequestHasId(id, w.staged[id], bank.value, category.value);
      NotRefusedAsKnown(w.book, Importing.ImportRequest(id, w.staged[id], bank.value, category.value), id, pick);
      MatchEnds(pages, w, request, id);
    }
  }

  lemma RequestHasId(id: Id, row: Row, bank: Guid, category: Guid)
    ensures Importing.ImportRequest(id, row, bank, category).plaidId == Some(id)
  {
  }

  lemma LoadReads(pages: seq<Delta>, w: World, request: nat, id: Id)
    requires request !in w.imports && id in w.staged
    ensures Enabled(pages, w, Load(request, id))
    ensures var w1 := Apply(pages, w, Load(request, id));
      w1.book == w.book && w1.staged == w.staged
  {
  }

  lemma PostEnds(pages: seq<Delta>, w: World, request: nat, id: Id, books: Books)
    requires Enabled(pages, w, Load(request, id))
    requires NewIds(w.book, books, {id}) && Imported(w.book.(books := books), id)
    ensures EndsAs(
      pages, Apply(pages, w, Load(request, id)), Post(request, books), Cleanup(request),
      Importing.Imports(w.book.(books := books), w.staged - {id}))
  {
    hide NewIds, Imported;
  }

  lemma MatchEnds(pages: seq<Delta>, w: World, request: nat, id: Id)
    requires Enabled(pages, w, Load(request, id)) && MatchesNow(w.book, RowContent(w.staged[id]))
    ensures EndsAs(
      pages, Apply(pages, w, Load(request, id)), Match(request), Cleanup(request),
      Importing.Imports(w.book, w.staged - {id}))
  {
    hide MatchesNow;
  }

  lemma NotRefusedAsKnown(b: Book, req: Ledger.Request, id: Id, pick: Option<Guid>)
    requires req.plaidId == Some(id)
    ensures Create(b.books, b.guid, req, pick) == Err(DuplicatePlaidId) ==> Imported(b, id)
  {
    if Create(b.books, b.guid, req, pick) == Err(DuplicatePlaidId) {
      Timeline.DuplicateMeansImported(b.books, b.guid, req, pick);
    }
  }

  ghost predicate EndsAs(pages: seq<Delta>, w: World, event: Event, last: Event, y: Importing.Imports) {
    && Enabled(pages, w, event)
    && Enabled(pages, Apply(pages, w, event), last)
    && var w' := Apply(pages, Apply(pages, w, event), last);
    w'.book == y.book && w'.staged == y.staged
  }

  lemma NewIdOnly(b: Book, req: Ledger.Request, id: Id, pick: Option<Guid>)
    requires req.plaidId == Some(id) && Create(b.books, b.guid, req, pick).Ok?
    ensures var books := Create(b.books, b.guid, req, pick).value;
      NewIds(b, books, {id}) && Imported(b.(books := books), id)
  {
    hide Numeric.Sum, Ledger.Kept, CheckAccounts, Values;
    var b' := Create(b.books, b.guid, req, pick).value;
    assert b'.txns[b'.next - 1].plaidId == Some(id);
  }
}
