/**
 Dismissals among concurrent statements (DismissStaged against stageDelta and
 Import in backend/internal/plaid/service.go), on the machine of Delivery: the
 flag a posted row inherits is read by one statement and written by a later one.
 */
module Dismissal {
  import opened Wrappers
  import opened Staging
  import opened Delivery

  // x is dismissed, and so is every row that names it, except rows among before.
  predicate Hidden(t: Table, x: Id, before: set<Id>) {
    && Dismissed(t, x)
    && forall id <- t :: t[id].predecessor == Some(x) && id !in before ==> t[id].dismissed
  }

  // A plan that would write an undismissed successor of x, or delete x's row.
  predicate Threatens(e: Entry, plan: Plan, x: Id, before: set<Id>) {
    match plan
    case Insert(flag) => !flag && e.predecessor == Some(x) && e.id !in before
    case DropBoth => x in Both(e)
  }

  predicate RunClear(pages: seq<Delta>, w: World, run: nat, x: Id, before: set<Id>) {
    run in w.runs && NextIsStage(pages, w, run) && w.runs[run].plan.Some? ==>
      !Threatens(NextOp(pages, w, run).entry, w.runs[run].plan.value, x, before)
  }

  // Nothing in flight concerns x: no run has read its flag or its match already,
  // no import is about to delete its row.
  predicate Clear(pages: seq<Delta>, w: World, x: Id, before: set<Id>) {
    && (forall run <- w.runs :: RunClear(pages, w, run, x, before))
    && (forall request <- w.imports :: w.imports[request].Cleaning? ==> w.imports[request].id != x)
  }

  // Neither x nor a predecessor the feed names for it is in the books.
  predicate Untouched(pages: seq<Delta>, b: Book, x: Id) {
    && !Imported(b, x)
    && forall d <- pages :: forall e <- Entries(d) ::
      e.id == x && e.predecessor.Some? ==> !Imported(b, e.predecessor.value)
  }

  predicate Safe(pages: seq<Delta>, w: World, x: Id, before: set<Id>) {
    Hidden(w.staged, x, before) && Clear(pages, w, x, before)
  }

  lemma NoMatchFor(pages: seq<Delta>, b: Book, x: Id, e: Entry)
    requires Untouched(pages, b, x) && FromFeed(pages, e) && MatchesNow(b, ContentOf(e))
    ensures x !in Both(e)
  {
    hide Imported, ValueMatches;
  }

  lemma NoMatchForRow(pages: seq<Delta>, b: Book, x: Id, row: Row)
    requires Untouched(pages, b, x) && ReadFromFeed(pages, x, row)
    ensures !MatchesNow(b, RowContent(row))
  {
    hide Imported, ValueMatches;
  }

  lemma WriteIsSafe(pages: seq<Delta>, w: World, run: nat, x: Id, before: set<Id>)
    requires Safe(pages, w, x, before) && Enabled(pages, w, Write(run))
    ensures Safe(pages, Apply(pages, w, Write(run)), x, before)
  {
    hide RunOps, RunClear, NextIsStage;
    var w' := Apply(pages, w, Write(run));
    WriteKeepsHidden(pages, w, run, x, before);
    WriteFrame(w, NextOp(pages, w, run), w.runs[run].plan);
    forall r <- w'.runs
      ensures RunClear(pages, w', r, x, before)
    {
      if r == run {
        UndecidedIsClear(pages, w', r, x, before);
      } else {
        assert RunClear(pages, w, r, x, before);
        SameRunClear(pages, w, w', r, x, before);
      }
    }
  }

  lemma WriteKeepsHidden(pages: seq<Delta>, w: World, run: nat, x: Id, before: set<Id>)
    requires Safe(pages, w, x, before) && Enabled(pages, w, Write(run))
    ensures Hidden(Apply(pages, w, Write(run)).staged, x, before)
  {
    hide RunOps, Hidden, Threatens, WriteOp;
    assert RunClear(pages, w, run, x, before);
    OpKeepsHidden(w, NextOp(pages, w, run), w.runs[run].plan, x, before);
  }

  lemma OpKeepsHidden(w: World, op: Op, plan: Option<Plan>, x: Id, before: set<Id>)
    requires Hidden(w.staged, x, before)
    requires op.Stage? ==> plan.Some? && !Threatens(op.entry, plan.value, x, before)
    ensures Hidden(WriteOp(w, op, plan).staged, x, before)
  {
  }

  lemma UndecidedIsClear(pages: seq<Delta>, w: World, run: nat, x: Id, before: set<Id>)
    requires run in w.runs && w.runs[run].plan.None?
    ensures RunClear(pages, w, run, x, before)
  {
  }

  lemma SameRunClear(pages: seq<Delta>, w: World, w': World, run: nat, x: Id, before: set<Id>)
    requires RunClear(pages, w, run, x, before) && run in w.runs && run in w'.runs && w'.runs[run] == w.runs[run]
    ensures RunClear(pages, w', run, x, before)
  {
    hide RunOps;
  }

  lemma DecideIsSafe(pages: seq<Delta>, w: World, run: nat, plan: Plan, x: Id, before: set<Id>)
    requires Safe(pages, w, x, before) && Untouched(pages, w.book, x) && Enabled(pages, w, Decide(run, plan))
    ensures Safe(pages, Apply(pages, w, Decide(run, plan)), x, before)
  {
    hide RunClear, RunOps, Untouched, MatchesNow;
    var w' := Apply(pages, w, Decide(run, plan));
    forall r <- w'.runs
      ensures RunClear(pages, w', r, x, before)
    {
      if r == run {
        DecidedIsClear(pages, w, run, plan, x, before);
      } else {
        assert RunClear(pages, w, r, x, before);
        SameRunClear(pages, w, w', r, x, before);
      }
    }
  }

  lemma DecidedIsClear(pages: seq<Delta>, w: World, run: nat, plan: Plan, x: Id, before: set<Id>)
    requires Hidden(w.staged, x, before) && Untouched(pages, w.book, x) && Enabled(pages, w, Decide(run, plan))
    ensures RunClear(pages, Apply(pages, w, Decide(run, plan)), run, x, before)
  {
    hide RunOps, Untouched, MatchesNow, OpFromFeed;
    NextFromFeed(pages, w, run);
    var op := NextOp(pages, w, run);
    StageFromFeed(pages, op);
    if plan.DropBoth? {
      NoMatchFor(pages, w.book, x, op.entry);
    }
  }

  lemma StageFromFeed(pages: seq<Delta>, op: Op)
    requires OpFromFeed(pages, op) && op.Stage?
    ensures FromFeed(pages, op.entry)
  {
  }

  // Beginning, persisting, loading, editing, dismissing: no plan is decided.
  lemma QuietIsSafe(pages: seq<Delta>, w: World, event: Event, x: Id, before: set<Id>)
    requires Safe(pages, w, x, before) && Enabled(pages, w, event)
    requires event.Begin? || event.Persist? || event.Load? || event.Edit? || event.Dismiss? || event.Cleanup?
    ensures Safe(pages, Apply(pages, w, event), x, before)
  {
    hide RunClear, RunOps, NewIds;
    var w' := Apply(pages, w, event);
    forall r <- w'.runs
      ensures RunClear(pages, w', r, x, before)
    {
      if event.Begin? && r == event.run {
        UndecidedIsClear(pages, w', r, x, before);
      } else {
        assert RunClear(pages, w, r, x, before);
        SameRunClear(pages, w, w', r, x, before);
      }
    }
  }

  lemma ImportIsSafe(pages: seq<Delta>, w: World, event: Event, x: Id, before: set<Id>)
    requires Inv(pages, w) && Safe(pages, w, x, before) && Enabled(pages, w, event)
    requires event.Post? || event.Duplicate? || event.Match?
    requires Untouched(pages, w.book, x) && Untouched(pages, Apply(pages, w, event).book, x)
    ensures Safe(pages, Apply(pages, w, event), x, before)
  {
    hide RunClear, RunOps, NewIds, RunOk, PageDelivered, LastOk, RowOk, Imported, MatchesNow, ReadFromFeed;
    var w' := Apply(pages, w, event);
    forall r <- w'.runs
      ensures RunClear(pages, w', r, x, before)
    {
      assert RunClear(pages, w, r, x, before);
      SameRunClear(pages, w, w', r, x, before);
    }
    assert RequestOk(pages, w.past, w.imports[event.request]);
    if event.Match? && w.imports[event.request].id == x {
      NoMatchForRow(pages, w.book, x, w.imports[event.request].row);
      assert false;
    }
  }

  lemma StepIsSafe(pages: seq<Delta>, w: World, event: Event, x: Id, before: set<Id>)
    requires Inv(pages, w) && Safe(pages, w, x, before) && Enabled(pages, w, event)
    requires Untouched(pages, w.book, x) && Untouched(pages, Apply(pages, w, event).book, x)
    ensures Safe(pages, Apply(pages, w, event), x, before)
  {
    hide Safe, Enabled, Apply, Inv, Untouched;
    match event
    case Write(run) => WriteIsSafe(pages, w, run, x, before);
    case Decide(run, plan) => DecideIsSafe(pages, w, run, plan, x, before);
    case Post(_, _) => ImportIsSafe(pages, w, event, x, before);
    case Duplicate(_) => ImportIsSafe(pages, w, event, x, before);
    case Match(_) => ImportIsSafe(pages, w, event, x, before);
    case _ => QuietIsSafe(pages, w, event, x, before);
  }

  // At every moment of the history.
  ghost predicate AlwaysUntouched(pages: seq<Delta>, w: World, events: seq<Event>, x: Id)
    requires AllEnabled(pages, w, events)
    decreases |events|
  {
    && Untouched(pages, w.book, x)
    && (|events| != 0 ==> AlwaysUntouched(pages, Apply(pages, w, events[0]), events[1..], x))
  }

  lemma {:induction false} SafeToTheEnd(pages: seq<Delta>, w: World, events: seq<Event>, x: Id, before: set<Id>)
    requires AccountsFixed(pages) && Inv(pages, w) && Safe(pages, w, x, before)
    requires AllEnabled(pages, w, events) && AlwaysUntouched(pages, w, events, x)
    ensures Hidden(ApplyAll(pages, w, events).staged, x, before)
    decreases |events|
  {
    hide AccountsFixed, Inv, Enabled, Apply, Untouched, Hidden, Clear;
    if |events| != 0 {
      var w' := Apply(pages, w, events[0]);
      UntouchedNow(pages, w', events[1..], x);
      StepIsSafe(pages, w, events[0], x, before);
      StepKeepsInv(pages, w, events[0]);
      SafeToTheEnd(pages, w', events[1..], x, before);
    }
  }

  lemma UntouchedNow(pages: seq<Delta>, w: World, events: seq<Event>, x: Id)
    requires AllEnabled(pages, w, events) && AlwaysUntouched(pages, w, events, x)
    ensures Untouched(pages, w.book, x)
  {
  }

  ghost predicate HiddenAfter(pages: seq<Delta>, w: World, events: seq<Event>, x: Id, before: set<Id>) {
    AllEnabled(pages, w, events) && AlwaysUntouched(pages, w, events, x) ==>
      Hidden(ApplyAll(pages, w, events).staged, x, before)
  }

  ghost predicate Undoes(pages: seq<Delta>, w: World, event: Event, x: Id, before: set<Id>) {
    Enabled(pages, w, event) && Apply(pages, w, event).book == w.book
    && !Hidden(Apply(pages, w, event).staged, x, before)
  }

  // What is in flight at the dismissal undoes it with its next statement.
  lemma InFlightUndoesIt(pages: seq<Delta>, w: World, ids: set<Id>, x: Id) returns (event: Event)
    requires Inv(pages, w) && x in ids && x in w.staged && !Clear(pages, w, x, w.staged.Keys)
    ensures Undoes(pages, WithDismissed(w, ids), event, x, w.staged.Keys)
  {
    hide RunOps, RunOk, RequestOk, PageDelivered, LastOk, RowOk, RunClear, Undoes, Hidden;
    if run :| run in w.runs && !RunClear(pages, w, run, x, w.staged.Keys) {
      assert RunOk(pages, w, run);
      event := Write(run);
      PlanUndoesIt(pages, w, run, ids, x);
    } else {
      var request :| request in w.imports && w.imports[request].Cleaning? && w.imports[request].id == x;
      event := Cleanup(request);
      CleanupUndoesIt(pages, w, request, ids, x);
    }
  }

  lemma PlanUndoesIt(pages: seq<Delta>, w: World, run: nat, ids: set<Id>, x: Id)
    requires x in ids && x in w.staged && run in w.runs && !RunClear(pages, w, run, x, w.staged.Keys)
    ensures Undoes(pages, WithDismissed(w, ids), Write(run), x, w.staged.Keys)
  {
    hide RunOps;
    var w' := WithDismissed(w, ids);
    var op, plan := NextOp(pages, w', run), w.runs[run].plan;
    var e := op.entry;
    var after := Apply(pages, w', Write(run)).staged;
    assert after == WriteOp(w', op, plan).staged;
    if plan == Some(DropBoth) {
      assert x !in after;
    } else {
      assert e.id in after && after[e.id].predecessor == Some(x) && !after[e.id].dismissed;
    }
  }

  lemma CleanupUndoesIt(pages: seq<Delta>, w: World, request: nat, ids: set<Id>, x: Id)
    requires request in w.imports && w.imports[request].Cleaning? && w.imports[request].id == x
    ensures Undoes(pages, WithDismissed(w, ids), Cleanup(request), x, w.staged.Keys)
  {
    hide RunOps;
    var w' := WithDismissed(w, ids);
    assert x !in Apply(pages, w', Cleanup(request)).staged;
  }

  lemma OneEvent(pages: seq<Delta>, w: World, event: Event, x: Id, before: set<Id>)
    requires Untouched(pages, w.book, x) && Undoes(pages, w, event, x, before)
    ensures !HiddenAfter(pages, w, [event], x, before)
  {
    hide Enabled, Apply, Untouched, Hidden;
    assert [event][1..] == [];
    var w' := Apply(pages, w, event);
    assert AllEnabled(pages, w', []) && AlwaysUntouched(pages, w', [], x);
    assert AllEnabled(pages, w, [event]) && ApplyAll(pages, w, [event]) == w';
    assert AlwaysUntouched(pages, w, [event], x);
  }

  lemma DismissedIsSafe(pages: seq<Delta>, w: World, ids: set<Id>, x: Id)
    requires x in ids && x in w.staged && Clear(pages, w, x, w.staged.Keys)
    ensures Safe(pages, WithDismissed(w, ids), x, w.staged.Keys)
  {
    hide RunClear, RunOps;
    var w' := WithDismissed(w, ids);
    forall r <- w'.runs
      ensures RunClear(pages, w', r, x, w.staged.Keys)
    {
      assert RunClear(pages, w, r, x, w.staged.Keys);
      SameRunClear(pages, w, w', r, x, w.staged.Keys);
    }
  }

  lemma ClearIsPermanent(pages: seq<Delta>, w: World, ids: set<Id>, x: Id, events: seq<Event>)
    requires AccountsFixed(pages) && Inv(pages, w) && Untouched(pages, w.book, x)
    requires x in ids && x in w.staged && Clear(pages, w, x, w.staged.Keys)
    ensures HiddenAfter(pages, WithDismissed(w, ids), events, x, w.staged.Keys)
  {
    hide AccountsFixed, Inv, Untouched, Hidden, AllEnabled, ApplyAll, AlwaysUntouched, Clear, Safe;
    var w' := WithDismissed(w, ids);
    assert Enabled(pages, w, Dismiss(ids)) && Apply(pages, w, Dismiss(ids)) == w';
    DismissedIsSafe(pages, w, ids, x);
    StepKeepsInv(pages, w, Dismiss(ids));
    if AllEnabled(pages, w', events) && AlwaysUntouched(pages, w', events, x) {
      SafeToTheEnd(pages, w', events, x, w.staged.Keys);
    }
  }

  lemma UnclearIsNot(pages: seq<Delta>, w: World, ids: set<Id>, x: Id) returns (event: Event)
    requires AccountsFixed(pages) && Inv(pages, w) && Untouched(pages, w.book, x)
    requires x in ids && x in w.staged && !Clear(pages, w, x, w.staged.Keys)
    ensures !HiddenAfter(pages, WithDismissed(w, ids), [event], x, w.staged.Keys)
  {
    hide AccountsFixed, Inv, Untouched, HiddenAfter, Clear, Undoes;
    event := InFlightUndoesIt(pages, w, ids, x);
    OneEvent(pages, WithDismissed(w, ids), event, x, w.staged.Keys);
  }

  // A dismissal is permanent - over every interleaving in which neither x nor its
  // predecessor enters the books, x stays dismissed and no successor staged later
  // is shown - if and only if nothing in flight has read its state before.
  lemma DismissalIsPermanentIff(pages: seq<Delta>, w: World, ids: set<Id>, x: Id)
    requires AccountsFixed(pages) && Inv(pages, w) && Untouched(pages, w.book, x)
    requires x in ids && x in w.staged
    ensures (forall events :: HiddenAfter(pages, WithDismissed(w, ids), events, x, w.staged.Keys))
      <==> Clear(pages, w, x, w.staged.Keys)
  {
    hide AccountsFixed, Inv, Untouched, HiddenAfter, Clear, Apply;
    if Clear(pages, w, x, w.staged.Keys) {
      forall events
        ensures HiddenAfter(pages, WithDismissed(w, ids), events, x, w.staged.Keys)
      {
        ClearIsPermanent(pages, w, ids, x, events);
      }
    } else {
      var event := UnclearIsNot(pages, w, ids, x);
      assert !HiddenAfter(pages, WithDismissed(w, ids), [event], x, w.staged.Keys);
    }
  }
}
