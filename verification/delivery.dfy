/**
 Nothing delivered is lost - almost. Any number of sync runs, import requests,
 dismissals and ledger edits interleave, one SQL statement at a time; a run may
 start from any cursor that was ever stored, and may stop for good after any
 statement (backend/internal/plaid/service.go).
 */
module Delivery {
  import opened Wrappers
  import opened Ledger
  import opened Staging
  import Timeline

  // What the value checks look at in an entry or a staged row.
  datatype Content = Content(predecessor: Option<Id>, bankAccount: nat, num: int, denom: int)

  function ContentOf(e: Entry): Content {
    Content(e.predecessor, e.bankAccount, e.num, e.denom)
  }

  // The row shows the entry, all of it.
  predicate Shows(r: Row, e: Entry) {
    Records(r, e) && r.bankAccount == e.bankAccount
  }

  function RowContent(r: Row): Content {
    Content(r.predecessor, r.bankAccount, r.num, r.denom)
  }

  // Why a row left staging other than by an import of its id.
  datatype Reason =
    | RemovedByBank
    | SettledAtZero(entry: Entry)
    | SameAsPending(content: Content)

  // The entry last delivered for an id, and why its row was dropped since.
  datatype Delivered = Delivered(entry: Entry, dropped: Option<Reason>)

  // What the reads for one Stage entry decided: drop both copies, which takes a
  // match when it was read, or insert with the flag that was read last.
  datatype Plan = DropBoth | Insert(flag: bool)

  datatype SyncRun = SyncRun(start: nat, done: nat, plan: Option<Plan>)

  // An import request with the row it read, or about to delete a staged copy;
  // matched is the content that was found to be the pending one's.
  datatype Request =
    | Loaded(id: Id, row: Row)
    | Cleaning(id: Id, matched: Option<Content>)

  // past and last are history: every state the book was in, and what was
  // delivered under each id.
  datatype World = World(
    book: Book,
    staged: Table,
    cursor: nat,
    stored: set<nat>,              // every cursor that was ever persisted
    runs: map<nat, SyncRun>,
    imports: map<nat, Request>,
    past: set<Book>,
    last: map<Id, Delivered>)

  function Start(book: Book): World {
    World(book, map[], 0, {0}, map[], map[], {book}, map[])
  }

  datatype Event =
    | Begin(run: nat, start: nat)
    | Decide(run: nat, plan: Plan) // the reads for the next Stage entry
    | Write(run: nat)              // the next statement itself
    | Persist(run: nat)
    | Load(request: nat, id: Id)
    | Post(request: nat, books: Books)
    | Duplicate(request: nat)
    | Match(request: nat)
    | Cleanup(request: nat)
    | Dismiss(ids: set<Id>)
    | Edit(books: Books)           // any change that brings in no new Plaid id

  predicate Runs(pages: seq<Delta>, w: World, run: nat) {
    run in w.runs && w.runs[run].start <= |pages| && w.runs[run].done <= |RunOps(pages, w.runs[run].start)|
  }

  predicate HasNext(pages: seq<Delta>, w: World, run: nat) {
    Runs(pages, w, run) && w.runs[run].done < |RunOps(pages, w.runs[run].start)|
  }

  function NextOp(pages: seq<Delta>, w: World, run: nat): Op
    requires HasNext(pages, w, run)
  {
    RunOps(pages, w.runs[run].start)[w.runs[run].done]
  }

  predicate NextIsStage(pages: seq<Delta>, w: World, run: nat) {
    HasNext(pages, w, run) && NextOp(pages, w, run).Stage?
  }

  predicate MatchesNow(b: Book, c: Content) {
    && c.predecessor.Some? && Imported(b, c.predecessor.value)
    && ValueMatches(b, c.predecessor.value, c.bankAccount, c.num, c.denom)
  }

  ghost predicate NewIds(b: Book, books: Books, ids: set<Id>) {
    forall x :: Imported(b.(books := books), x) ==> x in ids || Imported(b, x)
  }

  ghost predicate Enabled(pages: seq<Delta>, w: World, event: Event) {
    match event
    case Begin(run, start) => run !in w.runs && start in w.stored && start <= |pages|
    case Decide(run, plan) =>
      && NextIsStage(pages, w, run)
      && var e := NextOp(pages, w, run).entry;
      if plan.DropBoth? then MatchesNow(w.book, ContentOf(e)) else plan.flag == Inherits(w.staged, e)
    case Write(run) => HasNext(pages, w, run) && (NextOp(pages, w, run).Stage? ==> w.runs[run].plan.Some?)
    case Persist(run) => Runs(pages, w, run) && !HasNext(pages, w, run)
    case Load(request, id) => request !in w.imports && id in w.staged
    case Post(request, books) =>
      && request in w.imports && w.imports[request].Loaded?
      && NewIds(w.book, books, {w.imports[request].id}) && Imported(w.book.(books := books), w.imports[request].id)
    case Duplicate(request) =>
      request in w.imports && w.imports[request].Loaded? && Imported(w.book, w.imports[request].id)
    case Match(request) =>
      request in w.imports && w.imports[request].Loaded? && MatchesNow(w.book, RowContent(w.imports[request].row))
    case Cleanup(request) => request in w.imports && w.imports[request].Cleaning?
    case Dismiss(_) => true
    case Edit(books) => NewIds(w.book, books, {})
  }

  // Rows among ids that are staged no longer have been dropped for that reason.
  function Drop(last: map<Id, Delivered>, staged: Table, ids: set<Id>, reason: Reason): map<Id, Delivered> {
    map x | x in last :: if x in ids && x !in staged then last[x].(dropped := Some(reason)) else last[x]
  }

  // Effect of the next statement, given what its reads decided.
  function WriteOp(w: World, op: Op, plan: Option<Plan>): World {
    match op
    case Stage(e) =>
      if plan == Some(DropBoth) then
        w.(staged := DeleteRows(w.staged, Both(e)),
           last := w.last[e.id := Delivered(e, Some(SameAsPending(ContentOf(e))))])
      else
        w.(staged := Upsert(w.staged, e, plan.Some? && plan.value.flag), last := w.last[e.id := Delivered(e, None)])
    case Settle(e) =>
      var staged := DeleteUndismissed(w.staged, Both(e));
      w.(staged := staged, last := Drop(w.last, staged, Both(e), SettledAtZero(e)))
    case Remove(ids) =>
      var staged := DeleteUndismissed(w.staged, set x | x in ids);
      w.(staged := staged, last := Drop(w.last, staged, (set x | x in ids), RemovedByBank))
  }

  // The import's unconditional delete by id.
  function CleanUp(w: World, id: Id, matched: Option<Content>): World {
    var staged := w.staged - {id};
    w.(staged := staged,
       last := if matched.None? || id !in w.staged then w.last
               else Drop(w.last, staged, {id}, SameAsPending(matched.value)))
  }

  function WithBooks(w: World, books: Books): World {
    var b := w.book.(books := books);
    w.(book := b, past := w.past + {b})
  }

  function WithDismissed(w: World, ids: set<Id>): World {
    w.(staged := Timeline.Dismiss(w.staged, ids))
  }

  function Apply(pages: seq<Delta>, w: World, event: Event): World
    requires Enabled(pages, w, event)
  {
    match event
    case Begin(run, start) => w.(runs := w.runs[run := SyncRun(start, 0, None)])
    case Decide(run, plan) => w.(runs := w.runs[run := w.runs[run].(plan := Some(plan))])
    case Write(run) =>
      var r := w.runs[run];
      WriteOp(w, NextOp(pages, w, run), r.plan).(runs := w.runs[run := SyncRun(r.start, r.done + 1, None)])
    case Persist(run) =>
      var c := Reach(pages, w.runs[run].start);
      w.(cursor := c, stored := w.stored + {c}, runs := w.runs - {run})
    case Load(request, id) => w.(imports := w.imports[request := Loaded(id, w.staged[id])])
    case Post(request, books) =>
      WithBooks(w, books).(imports := w.imports[request := Cleaning(w.imports[request].id, None)])
    case Duplicate(request) => w.(imports := w.imports[request := Cleaning(w.imports[request].id, None)])
    case Match(request) =>
      var Loaded(id, row) := w.imports[request];
      w.(imports := w.imports[request := Cleaning(id, Some(RowContent(row)))])
    case Cleanup(request) =>
      var Cleaning(id, matched) := w.imports[request];
      CleanUp(w, id, matched).(imports := w.imports - {request})
    case Dismiss(ids) => WithDismissed(w, ids)
    case Edit(books) => WithBooks(w, books)
  }

  // ------------------------------------------------------------ what is promised

  predicate Ever(past: set<Book>, x: Id) {
    exists b <- past :: Imported(b, x)
  }

  // The books once held this very movement under the predecessor's id.
  predicate CarriedOnce(past: set<Book>, c: Content) {
    exists b <- past :: MatchesNow(b, c)
  }

  // The reason is one for this entry: of its own id, and of its own amount.
  predicate Fits(pages: seq<Delta>, past: set<Book>, e: Entry, reason: Reason) {
    match reason
    case RemovedByBank => exists d <- pages :: e.id in d.removed
    case SettledAtZero(z) => (exists d <- pages :: z in Entries(d)) && z.num == 0 && e.id in Both(z)
    case SameAsPending(c) => c == ContentOf(e) && CarriedOnce(past, c)
  }

  // The last delivered entry of x is staged as it was delivered, or x has been in
  // the books, or its row was dropped for a reason that fits that entry.
  predicate Kept(pages: seq<Delta>, w: World, x: Id) {
    x in w.last &&
      var Delivered(e, dropped) := w.last[x];
      || (x in w.staged && Shows(w.staged[x], e))
      || Ever(w.past, x)
      || (dropped.Some? && Fits(pages, w.past, e, dropped.value))
  }

  predicate AllKept(pages: seq<Delta>, w: World) {
    forall x <- w.last :: Kept(pages, w, x)
  }

  // An import that found its row to be a copy of the pending one deletes the id's
  // row although a sync has put another amount there meanwhile.
  predicate IsStale(w: World, event: Event) {
    && event.Cleanup? && event.request in w.imports
    && match w.imports[event.request]
       case Loaded(_, _) => false
       case Cleaning(id, matched) =>
         matched.Some? && id in w.staged && !Ever(w.past, id) && RowContent(w.staged[id]) != matched.value
  }

  // ------------------------------------------------------------ the invariant

  // An id keeps its bank account.
  ghost predicate AccountsFixed(pages: seq<Delta>) {
    forall d <- pages, d' <- pages :: forall e <- Entries(d), e' <- Entries(d') ::
      e.id == e'.id ==> e.bankAccount == e'.bankAccount
  }

  predicate FromFeed(pages: seq<Delta>, e: Entry) {
    exists d <- pages :: e in Entries(d)
  }

  predicate PageDelivered(w: World, d: Delta) {
    forall e <- Entries(d) :: e.num != 0 ==> e.id in w.last
  }

  predicate OpDelivered(last: map<Id, Delivered>, op: Op) {
    op.Stage? ==> op.entry.id in last
  }

  predicate RunOk(pages: seq<Delta>, w: World, run: nat) {
    && Runs(pages, w, run)
    && w.runs[run].start in w.stored
    && (forall j :: 0 <= j < w.runs[run].done ==> OpDelivered(w.last, RunOps(pages, w.runs[run].start)[j]))
    && (w.runs[run].plan.Some? ==> NextIsStage(pages, w, run))
    && (w.runs[run].plan == Some(DropBoth) ==> CarriedOnce(w.past, ContentOf(NextOp(pages, w, run).entry)))
  }

  predicate LastOk(pages: seq<Delta>, x: Id, d: Delivered) {
    d.entry.id == x && d.entry.num != 0 && FromFeed(pages, d.entry)
  }

  predicate RowOk(w: World, x: Id)
    requires x in w.staged
  {
    x in w.last && Shows(w.staged[x], w.last[x].entry)
  }

  // The row was read as some entry of the feed had staged it.
  predicate ReadFromFeed(pages: seq<Delta>, id: Id, row: Row) {
    exists d <- pages :: exists e <- Entries(d) :: e.id == id && ContentOf(e) == RowContent(row)
  }

  predicate RequestOk(pages: seq<Delta>, past: set<Book>, r: Request) {
    match r
    case Loaded(id, row) => ReadFromFeed(pages, id, row)
    case Cleaning(id, matched) => if matched.Some? then CarriedOnce(past, matched.value) else Ever(past, id)
  }

  ghost predicate Inv(pages: seq<Delta>, w: World) {
    && w.book in w.past
    && w.cursor in w.stored
    && (forall c <- w.stored :: c <= |pages|)
    && (forall c <- w.stored, i: nat :: i < c ==> PageDelivered(w, pages[i]))
    && (forall run <- w.runs :: RunOk(pages, w, run))
    && (forall x <- w.last :: LastOk(pages, x, w.last[x]))
    && (forall x <- w.staged :: RowOk(w, x))
    && (forall request <- w.imports :: RequestOk(pages, w.past, w.imports[request]))
  }

  // w' has delivered all that w has, and its history is longer.
  ghost predicate Extends(w: World, w': World) {
    && w.past <= w'.past && w.stored <= w'.stored && w.last.Keys <= w'.last.Keys
  }

  lemma ExtendsPast(w: World, w': World)
    requires w.past <= w'.past
    ensures forall x :: Ever(w.past, x) ==> Ever(w'.past, x)
    ensures forall c :: CarriedOnce(w.past, c) ==> CarriedOnce(w'.past, c)
  {
    hide Imported, MatchesNow;
  }

  lemma RunStaysOk(pages: seq<Delta>, w: World, w': World, run: nat)
    requires Extends(w, w') && RunOk(pages, w, run) && run in w'.runs && w'.runs[run] == w.runs[run]
    ensures RunOk(pages, w', run)
  {
    hide RunOps, CarriedOnce;
    ExtendsPast(w, w');
    var ops := RunOps(pages, w.runs[run].start);
    forall j | 0 <= j < w.runs[run].done
      ensures OpDelivered(w'.last, ops[j])
    {
      assert OpDelivered(w.last, ops[j]);
    }
  }

  // The parts of the invariant that only need a longer history.
  lemma ExtendsKeeps(pages: seq<Delta>, w: World, w': World)
    requires Inv(pages, w) && Extends(w, w')
    ensures forall c <- w.stored, i: nat :: i < c ==> PageDelivered(w', pages[i])
    ensures forall run <- w.runs :: run in w'.runs && w'.runs[run] == w.runs[run] ==> RunOk(pages, w', run)
    ensures forall request <- w.imports :: RequestOk(pages, w'.past, w.imports[request])
  {
    hide RunOk, CarriedOnce, Ever;
    ExtendsPast(w, w');
    forall c <- w.stored, i: nat | i < c
      ensures PageDelivered(w', pages[i])
    {
      assert PageDelivered(w, pages[i]);
    }
    forall run <- w.runs | run in w'.runs && w'.runs[run] == w.runs[run]
      ensures RunOk(pages, w', run)
    {
      RunStaysOk(pages, w, w', run);
    }
    forall request <- w.imports
      ensures RequestOk(pages, w'.past, w.imports[request])
    {
      assert RequestOk(pages, w.past, w.imports[request]);
    }
  }

  // What is kept stays kept where neither row nor reason changes.
  lemma KeptStays(pages: seq<Delta>, w: World, w': World, x: Id)
    requires Kept(pages, w, x) && w.past <= w'.past && x in w'.last && w'.last[x] == w.last[x]
    requires x in w.staged ==> x in w'.staged && w'.staged[x] == w.staged[x].(dismissed := w'.staged[x].dismissed)
    ensures Kept(pages, w', x)
  {
    hide Ever, CarriedOnce;
    ExtendsPast(w, w');
  }

  // ------------------------------------------------------------ statements come from pages

  predicate OpFromFeed(pages: seq<Delta>, op: Op) {
    match op
    case Stage(e) => e.num != 0 && FromFeed(pages, e)
    case Settle(e) => e.num == 0 && FromFeed(pages, e)
    case Remove(ids) => forall x <- ids :: exists d <- pages :: x in d.removed
  }

  lemma OpsFromPage(pages: seq<Delta>, d: Delta, op: Op)
    requires d in pages && op in Ops(d)
    ensures OpFromFeed(pages, op)
  {
  }

  lemma {:induction false} PageOpsFromFeed(pages: seq<Delta>, start: nat, end: nat, op: Op)
    requires start <= end <= |pages| && op in PageOps(pages, start, end)
    ensures OpFromFeed(pages, op)
  {
    hide OpFromFeed, Ops;
    if op in PageOps(pages, start, end - 1) {
      PageOpsFromFeed(pages, start, end - 1, op);
    } else {
      OpsFromPage(pages, pages[end - 1], op);
    }
  }

  lemma NextFromFeed(pages: seq<Delta>, w: World, run: nat)
    requires HasNext(pages, w, run)
    ensures OpFromFeed(pages, NextOp(pages, w, run))
  {
    hide OpFromFeed, PageOps;
    var start := w.runs[run].start;
    PageOpsFromFeed(pages, start, Reach(pages, start), NextOp(pages, w, run));
  }

  lemma {:induction false} AllStaged(es: seq<Entry>, e: Entry)
    requires e in es && e.num != 0
    ensures Stage(e) in Stages(es)
  {
    if e != es[|es| - 1] {
      AllStaged(es[..|es| - 1], e);
    }
  }

  lemma PageStages(d: Delta, e: Entry)
    requires e in Entries(d) && e.num != 0
    ensures Stage(e) in Ops(d)
  {
    AllStaged(Entries(d), e);
  }

  lemma {:induction false} PageOpsContain(pages: seq<Delta>, start: nat, end: nat, i: nat, e: Entry)
    requires start <= i < end <= |pages| && e in Entries(pages[i]) && e.num != 0
    ensures Stage(e) in PageOps(pages, start, end)
  {
    hide Ops;
    if i < end - 1 {
      PageOpsContain(pages, start, end - 1, i, e);
    } else {
      PageStages(pages[i], e);
    }
  }

  lemma RunOpsContain(pages: seq<Delta>, start: nat, i: nat, e: Entry)
    requires start <= |pages| && start <= i < Reach(pages, start) && e in Entries(pages[i]) && e.num != 0
    ensures Stage(e) in RunOps(pages, start)
  {
    PageOpsContain(pages, start, Reach(pages, start), i, e);
  }

  // A run that finished has delivered every non-zero entry of every page it read.
  lemma FinishedRunDelivered(pages: seq<Delta>, w: World, run: nat, i: nat)
    requires RunOk(pages, w, run) && !HasNext(pages, w, run)
    requires w.runs[run].start <= i < Reach(pages, w.runs[run].start)
    ensures PageDelivered(w, pages[i])
  {
    hide RunOps, PageOps, Entries, CarriedOnce;
    var start := w.runs[run].start;
    var ops := RunOps(pages, start);
    forall e <- Entries(pages[i]) | e.num != 0
      ensures e.id in w.last
    {
      RunOpsContain(pages, start, i, e);
      var j :| 0 <= j < |ops| && ops[j] == Stage(e);
      assert OpDelivered(w.last, ops[j]);
    }
  }

  // ------------------------------------------------------------ every statement keeps the invariant

  lemma BeginKeepsInv(pages: seq<Delta>, w: World, run: nat, start: nat)
    requires Inv(pages, w) && Enabled(pages, w, Begin(run, start))
    ensures Inv(pages, Apply(pages, w, Begin(run, start)))
  {
    hide RunOps, CarriedOnce, Ever, PageDelivered, LastOk, RequestOk;
    var w' := Apply(pages, w, Begin(run, start));
    ExtendsKeeps(pages, w, w');
    assert RunOk(pages, w', run);
  }

  lemma DecideKeepsInv(pages: seq<Delta>, w: World, run: nat, plan: Plan)
    requires Inv(pages, w) && Enabled(pages, w, Decide(run, plan))
    ensures Inv(pages, Apply(pages, w, Decide(run, plan)))
  {
    hide RunOk, Ever, PageDelivered, LastOk, RequestOk, RunOps, MatchesNow, Inherits;
    var w' := Apply(pages, w, Decide(run, plan));
    ExtendsKeeps(pages, w, w');
    DecidedRunOk(pages, w, run, plan);
  }

  lemma DecidedRunOk(pages: seq<Delta>, w: World, run: nat, plan: Plan)
    requires RunOk(pages, w, run) && w.book in w.past && Enabled(pages, w, Decide(run, plan))
    ensures RunOk(pages, Apply(pages, w, Decide(run, plan)), run)
  {
    hide RunOps, MatchesNow, Inherits;
    var w' := Apply(pages, w, Decide(run, plan));
    var ops := RunOps(pages, w.runs[run].start);
    forall j | 0 <= j < w.runs[run].done
      ensures OpDelivered(w'.last, ops[j])
    {
      assert OpDelivered(w.last, ops[j]);
    }
    if plan.DropBoth? {
      assert MatchesNow(w.book, ContentOf(NextOp(pages, w, run).entry));
    }
  }

  lemma PersistKeepsInv(pages: seq<Delta>, w: World, run: nat)
    requires Inv(pages, w) && Enabled(pages, w, Persist(run))
    ensures Inv(pages, Apply(pages, w, Persist(run)))
  {
    hide RunOps, RunOk, PageDelivered, LastOk, RequestOk, Ever;
    var w' := Apply(pages, w, Persist(run));
    ExtendsKeeps(pages, w, w');
    var start := w.runs[run].start;
    assert RunOk(pages, w, run);
    StartIsStored(pages, w, run);
    forall i: nat | i < Reach(pages, start)
      ensures PageDelivered(w', pages[i])
    {
      if i < start {
        assert PageDelivered(w, pages[i]);
      } else {
        FinishedRunDelivered(pages, w, run, i);
      }
      SamePageDelivered(w, w', pages[i]);
    }
  }

  lemma StartIsStored(pages: seq<Delta>, w: World, run: nat)
    requires RunOk(pages, w, run)
    ensures w.runs[run].start in w.stored
  {
  }

  lemma SamePageDelivered(w: World, w': World, d: Delta)
    requires w'.last == w.last && PageDelivered(w, d)
    ensures PageDelivered(w', d)
  {
  }

  // The tables after one statement of a run.
  predicate TablesOk(pages: seq<Delta>, staged: Table, last: map<Id, Delivered>) {
    && (forall x <- last :: LastOk(pages, x, last[x]))
    && (forall x <- staged :: x in last && Shows(staged[x], last[x].entry))
  }

  lemma StageKeepsTables(pages: seq<Delta>, w: World, e: Entry, plan: Option<Plan>)
    requires AccountsFixed(pages) && TablesOk(pages, w.staged, w.last) && OpFromFeed(pages, Stage(e))
    ensures var w' := WriteOp(w, Stage(e), plan);
      TablesOk(pages, w'.staged, w'.last) && w.last.Keys <= w'.last.Keys && e.id in w'.last
  {
    hide AccountsFixed, FromFeed;
    if plan != Some(DropBoth) && e.id in w.staged {
      SameAccount(pages, e, w.last[e.id].entry);
    }
  }

  lemma DropKeepsTables(
    pages: seq<Delta>, staged: Table, staged': Table, last: map<Id, Delivered>, ids: set<Id>, reason: Reason)
    requires TablesOk(pages, staged, last)
    requires forall x <- staged' :: x in staged && staged'[x] == staged[x]
    ensures TablesOk(pages, staged', Drop(last, staged', ids, reason))
    ensures Drop(last, staged', ids, reason).Keys == last.Keys
  {
    hide FromFeed;
  }

  lemma WriteKeepsTables(pages: seq<Delta>, w: World, op: Op, plan: Option<Plan>)
    requires AccountsFixed(pages) && TablesOk(pages, w.staged, w.last) && OpFromFeed(pages, op)
    ensures var w' := WriteOp(w, op, plan);
      TablesOk(pages, w'.staged, w'.last) && w.last.Keys <= w'.last.Keys && OpDelivered(w'.last, op)
  {
    hide AccountsFixed, TablesOk, OpFromFeed, Drop, Both;
    match op
    case Stage(e) => StageKeepsTables(pages, w, e, plan);
    case Settle(e) =>
      DropKeepsTables(pages, w.staged, DeleteUndismissed(w.staged, Both(e)), w.last, Both(e), SettledAtZero(e));
    case Remove(ids) =>
      var gone := set x | x in ids;
      DropKeepsTables(pages, w.staged, DeleteUndismissed(w.staged, gone), w.last, gone, RemovedByBank);
  }

  lemma SameAccount(pages: seq<Delta>, e: Entry, f: Entry)
    requires AccountsFixed(pages) && FromFeed(pages, e) && FromFeed(pages, f) && e.id == f.id
    ensures e.bankAccount == f.bankAccount
  {
  }

  lemma InvTables(pages: seq<Delta>, w: World)
    requires Inv(pages, w)
    ensures TablesOk(pages, w.staged, w.last)
  {
    hide RunOk, PageDelivered, RequestOk, LastOk;
    forall x <- w.staged
      ensures x in w.last && Shows(w.staged[x], w.last[x].entry)
    {
      assert RowOk(w, x);
    }
  }

  lemma WriteKeepsInv(pages: seq<Delta>, w: World, run: nat)
    requires AccountsFixed(pages) && Inv(pages, w) && Enabled(pages, w, Write(run))
    ensures Inv(pages, Apply(pages, w, Write(run)))
  {
    hide RunOps, RunOk, PageDelivered, LastOk, RequestOk, Ever, AccountsFixed, OpFromFeed, OpDelivered, WriteOp;
    var w' := Apply(pages, w, Write(run));
    var op := NextOp(pages, w, run);
    NextFromFeed(pages, w, run);
    InvTables(pages, w);
    WriteKeepsTables(pages, w, op, w.runs[run].plan);
    WriteFrame(w, op, w.runs[run].plan);
    ExtendsKeeps(pages, w, w');
    assert RunOk(pages, w, run);
    WrittenRunOk(pages, w, run);
  }

  lemma WriteFrame(w: World, op: Op, plan: Option<Plan>)
    ensures var w' := WriteOp(w, op, plan);
      w' == w.(staged := w'.staged, last := w'.last)
  {
  }

  // The plan that the reads for the next Stage entry come to.
  function PlanNow(w: World, e: Entry): Plan {
    if MatchesNow(w.book, ContentOf(e)) then DropBoth else Insert(Inherits(w.staged, e))
  }

  // With nothing in between, the statements of a run do to staging what Exec does.
  lemma UninterruptedIsExec(pages: seq<Delta>, w: World, run: nat)
    requires HasNext(pages, w, run)
    ensures var op := NextOp(pages, w, run);
      if op.Stage? then
        var decide := Decide(run, PlanNow(w, op.entry));
        && Enabled(pages, w, decide)
        && var w1 := Apply(pages, w, decide);
        && Enabled(pages, w1, Write(run))
        && Apply(pages, w1, Write(run)).staged == Exec(w.book, w.staged, op)
        && Apply(pages, w1, Write(run)).runs[run].done == w.runs[run].done + 1
      else
        && Enabled(pages, w, Write(run))
        && Apply(pages, w, Write(run)).staged == Exec(w.book, w.staged, op)
        && Apply(pages, w, Write(run)).runs[run].done == w.runs[run].done + 1
  {
    hide RunOps;
    var op := NextOp(pages, w, run);
    if op.Stage? {
      assert MatchesNow(w.book, ContentOf(op.entry)) <==> Replaced(w.book, op.entry);
      var w1 := Apply(pages, w, Decide(run, PlanNow(w, op.entry)));
      assert NextOp(pages, w1, run) == op;
    }
  }

  lemma WrittenRunOk(pages: seq<Delta>, w: World, run: nat)
    requires RunOk(pages, w, run) && Enabled(pages, w, Write(run))
    requires var w' := Apply(pages, w, Write(run));
      w.last.Keys <= w'.last.Keys && OpDelivered(w'.last, NextOp(pages, w, run)) && w'.stored == w.stored
    ensures RunOk(pages, Apply(pages, w, Write(run)), run)
  {
    hide RunOps, CarriedOnce, WriteOp;
    var r, w' := w.runs[run], Apply(pages, w, Write(run));
    var ops := RunOps(pages, r.start);
    forall j | 0 <= j < r.done + 1
      ensures OpDelivered(w'.last, ops[j])
    {
      assert j < r.done ==> OpDelivered(w.last, ops[j]);
    }
  }

  lemma ImportKeepsInv(pages: seq<Delta>, w: World, event: Event)
    requires Inv(pages, w) && Enabled(pages, w, event)
    requires event.Load? || event.Post? || event.Duplicate? || event.Match? || event.Edit?
    ensures Inv(pages, Apply(pages, w, event))
  {
    hide RunOk, PageDelivered, LastOk, RowOk, MatchesNow, Imported, NewIds, ReadFromFeed;
    var w' := Apply(pages, w, event);
    ExtendsKeeps(pages, w, w');
    SameRowsOk(w, w');
    if event.Load? {
      RowsComeFromFeed(pages, w, event.id);
    }
    forall request <- w'.imports
      ensures RequestOk(pages, w'.past, w'.imports[request])
    {
      assert request in w.imports && w'.imports[request] == w.imports[request] ==>
        RequestOk(pages, w'.past, w.imports[request]);
      if event.Match? && request == event.request {
        assert MatchesNow(w.book, RowContent(w.imports[request].row));
      }
    }
  }

  lemma RowsComeFromFeed(pages: seq<Delta>, w: World, id: Id)
    requires Inv(pages, w) && id in w.staged
    ensures ReadFromFeed(pages, id, w.staged[id])
  {
    hide RunOk, PageDelivered, RequestOk;
    assert RowOk(w, id) && LastOk(pages, id, w.last[id]);
  }

  lemma SameRowsOk(w: World, w': World)
    requires w'.staged == w.staged && w'.last == w.last && forall x <- w.staged :: RowOk(w, x)
    ensures forall x <- w'.staged :: RowOk(w', x)
  {
    forall x <- w'.staged
      ensures RowOk(w', x)
    {
      assert RowOk(w, x);
    }
  }

  lemma CleanupKeepsInv(pages: seq<Delta>, w: World, request: nat)
    requires Inv(pages, w) && Enabled(pages, w, Cleanup(request))
    ensures Inv(pages, Apply(pages, w, Cleanup(request)))
  {
    hide RunOk, PageDelivered, RequestOk, MatchesNow, Imported, CleanUp, TablesOk, LastOk, RowOk;
    var Cleaning(id, matched) := w.imports[request];
    var w' := Apply(pages, w, Cleanup(request));
    InvTables(pages, w);
    CleanUpTables(pages, w, id, matched);
    ExtendsKeeps(pages, w, w');
    TablesInv(pages, w');
  }

  lemma CleanUpTables(pages: seq<Delta>, w: World, id: Id, matched: Option<Content>)
    requires TablesOk(pages, w.staged, w.last)
    ensures var w' := CleanUp(w, id, matched);
      && w' == w.(staged := w'.staged, last := w'.last)
      && TablesOk(pages, w'.staged, w'.last) && w'.last.Keys == w.last.Keys
  {
    hide LastOk, TablesOk, Drop;
    if matched.Some? && id in w.staged {
      DropKeepsTables(pages, w.staged, w.staged - {id}, w.last, {id}, SameAsPending(matched.value));
    } else {
      FewerRowsOk(pages, w.staged, w.staged - {id}, w.last);
    }
  }

  lemma FewerRowsOk(pages: seq<Delta>, staged: Table, staged': Table, last: map<Id, Delivered>)
    requires TablesOk(pages, staged, last) && forall x <- staged' :: x in staged && staged'[x] == staged[x]
    ensures TablesOk(pages, staged', last)
  {
    hide LastOk;
  }

  lemma TablesInv(pages: seq<Delta>, w: World)
    requires TablesOk(pages, w.staged, w.last)
    ensures forall x <- w.last :: LastOk(pages, x, w.last[x])
    ensures forall x <- w.staged :: RowOk(w, x)
  {
    hide LastOk;
  }

  lemma DismissKeepsInv(pages: seq<Delta>, w: World, ids: set<Id>)
    requires Inv(pages, w) && Enabled(pages, w, Dismiss(ids))
    ensures Inv(pages, Apply(pages, w, Dismiss(ids)))
  {
    hide RunOk, PageDelivered, RequestOk, MatchesNow, Imported;
    var w' := Apply(pages, w, Dismiss(ids));
    ExtendsKeeps(pages, w, w');
    InvTables(pages, w);
  }

  lemma StepKeepsInv(pages: seq<Delta>, w: World, event: Event)
    requires AccountsFixed(pages) && Inv(pages, w) && Enabled(pages, w, event)
    ensures Inv(pages, Apply(pages, w, event))
  {
    hide Inv, Apply, Enabled, AccountsFixed;
    match event
    case Begin(run, start) => BeginKeepsInv(pages, w, run, start);
    case Decide(run, plan) => DecideKeepsInv(pages, w, run, plan);
    case Write(run) => WriteKeepsInv(pages, w, run);
    case Persist(run) => PersistKeepsInv(pages, w, run);
    case Cleanup(request) => CleanupKeepsInv(pages, w, request);
    case Dismiss(ids) => DismissKeepsInv(pages, w, ids);
    case _ => ImportKeepsInv(pages, w, event);
  }

  // ------------------------------------------------------------ every statement keeps what was delivered

  lemma StageKeeps(pages: seq<Delta>, w: World, e: Entry, plan: Option<Plan>, x: Id)
    requires AccountsFixed(pages) && TablesOk(pages, w.staged, w.last)
    requires OpFromFeed(pages, Stage(e)) && w.book in w.past
    requires plan == Some(DropBoth) ==> CarriedOnce(w.past, ContentOf(e))
    requires x in w.last ==> Kept(pages, w, x)
    ensures x in WriteOp(w, Stage(e), plan).last ==> Kept(pages, WriteOp(w, Stage(e), plan), x)
  {
    hide AccountsFixed, FromFeed, CarriedOnce, Ever;
    var w' := WriteOp(w, Stage(e), plan);
    if plan == Some(DropBoth) {
      if x != e.id && x in w.last && e.predecessor == Some(x) {
        CarriedMeansEver(w.past, ContentOf(e));
      }
    } else if x == e.id && e.id in w.staged {
      SameAccount(pages, e, w.last[e.id].entry);
    }
  }

  lemma CarriedMeansEver(past: set<Book>, c: Content)
    requires CarriedOnce(past, c)
    ensures c.predecessor.Some? && Ever(past, c.predecessor.value)
  {
    hide Imported, ValueMatches;
  }

  lemma DropKeeps(pages: seq<Delta>, w: World, staged': Table, ids: set<Id>, reason: Reason, x: Id)
    requires x in w.last && Kept(pages, w, x)
    requires forall y <- w.staged :: y in staged' || y in ids
    requires forall y <- staged' :: y in w.staged && staged'[y] == w.staged[y]
    requires x in ids ==> Fits(pages, w.past, w.last[x].entry, reason)
    ensures Kept(pages, w.(staged := staged', last := Drop(w.last, staged', ids, reason)), x)
  {
    hide Ever, CarriedOnce;
  }

  lemma WriteKeeps(pages: seq<Delta>, w: World, op: Op, plan: Option<Plan>, x: Id)
    requires AccountsFixed(pages) && TablesOk(pages, w.staged, w.last) && OpFromFeed(pages, op) && w.book in w.past
    requires op.Stage? && plan == Some(DropBoth) ==> CarriedOnce(w.past, ContentOf(op.entry))
    requires x in w.last ==> Kept(pages, w, x)
    ensures x in WriteOp(w, op, plan).last ==> Kept(pages, WriteOp(w, op, plan), x)
  {
    hide AccountsFixed, CarriedOnce, Ever, ContentOf, RowContent;
    match op
    case Stage(e) => StageKeeps(pages, w, e, plan, x);
    case Settle(e) =>
      if x in w.last {
        assert LastOk(pages, x, w.last[x]);
        DropKeeps(pages, w, DeleteUndismissed(w.staged, Both(e)), Both(e), SettledAtZero(e), x);
      }
    case Remove(ids) =>
      if x in w.last {
        var gone := set y | y in ids;
        assert LastOk(pages, x, w.last[x]);
        DropKeeps(pages, w, DeleteUndismissed(w.staged, gone), gone, RemovedByBank, x);
      }
  }

  // The import's delete keeps what was delivered exactly when it is not stale.
  lemma CleanupKeepsIff(pages: seq<Delta>, w: World, request: nat)
    requires Inv(pages, w) && AllKept(pages, w) && Enabled(pages, w, Cleanup(request))
    ensures AllKept(pages, Apply(pages, w, Cleanup(request))) <==> !IsStale(w, Cleanup(request))
  {
    hide RunOk, PageDelivered, MatchesNow, Imported, Kept, AllKept, CarriedOnce, Ever;
    var Cleaning(id, matched) := w.imports[request];
    var w' := Apply(pages, w, Cleanup(request));
    InvTables(pages, w);
    assert RequestOk(pages, w.past, w.imports[request]);
    forall x <- w.last
      ensures x != id ==> Kept(pages, w', x)
    {
      KeptAt(pages, w, x);
      if x != id {
        KeptStays(pages, w, w', x);
      }
    }
    if id in w.last {
      KeptAt(pages, w, id);
      CleanedKeptIff(pages, w, id, matched);
      SameKept(pages, CleanUp(w, id, matched), w', id);
    }
    if AllKept(pages, w') && id in w.last {
      KeptAt(pages, w', id);
    }
    if !IsStale(w, Cleanup(request)) {
      AllKeptFrom(pages, w');
    }
  }

  lemma KeptAt(pages: seq<Delta>, w: World, x: Id)
    requires AllKept(pages, w) && x in w.last
    ensures Kept(pages, w, x)
  {
  }

  lemma AllKeptFrom(pages: seq<Delta>, w: World)
    requires forall x <- w.last :: Kept(pages, w, x)
    ensures AllKept(pages, w)
  {
  }

  lemma SameKept(pages: seq<Delta>, w: World, w': World, x: Id)
    requires w'.staged == w.staged && w'.last == w.last && w'.past == w.past
    ensures Kept(pages, w, x) <==> Kept(pages, w', x)
  {
  }

  lemma CleanedKeptIff(pages: seq<Delta>, w: World, id: Id, matched: Option<Content>)
    requires TablesOk(pages, w.staged, w.last) && id in w.last && Kept(pages, w, id)
    requires RequestOk(pages, w.past, Cleaning(id, matched))
    ensures Kept(pages, CleanUp(w, id, matched), id)
      <==> !(matched.Some? && id in w.staged && !Ever(w.past, id) && RowContent(w.staged[id]) != matched.value)
  {
    hide Ever, CarriedOnce;
  }

  // Every statement keeps everything delivered, but for a stale cleanup.
  lemma StepKeepsIff(pages: seq<Delta>, w: World, event: Event)
    requires AccountsFixed(pages) && Inv(pages, w) && AllKept(pages, w) && Enabled(pages, w, event)
    ensures AllKept(pages, Apply(pages, w, event)) <==> !IsStale(w, event)
  {
    hide AccountsFixed, Kept, RunOk, PageDelivered, RequestOk, RowOk, LastOk, OpFromFeed, Imported, MatchesNow,
      WriteOp, CleanUp, CarriedOnce;
    var w' := Apply(pages, w, event);
    if event.Cleanup? {
      CleanupKeepsIff(pages, w, event.request);
    } else if event.Write? {
      var op, plan := NextOp(pages, w, event.run), w.runs[event.run].plan;
      NextFromFeed(pages, w, event.run);
      InvTables(pages, w);
      assert RunOk(pages, w, event.run);
      if plan == Some(DropBoth) {
        PlanCarried(pages, w, event.run);
      }
      forall x <- w'.last
        ensures Kept(pages, w', x)
      {
        WriteKeeps(pages, w, op, plan, x);
        SameKept(pages, WriteOp(w, op, plan), w', x);
      }
    } else {
      forall x <- w'.last
        ensures Kept(pages, w', x)
      {
        KeptStays(pages, w, w', x);
      }
    }
  }

  lemma PlanCarried(pages: seq<Delta>, w: World, run: nat)
    requires RunOk(pages, w, run) && w.runs[run].plan == Some(DropBoth)
    ensures NextIsStage(pages, w, run) && CarriedOnce(w.past, ContentOf(NextOp(pages, w, run).entry))
  {
  }

  // ------------------------------------------------------------ every history

  ghost predicate AllEnabled(pages: seq<Delta>, w: World, events: seq<Event>)
    decreases |events|
  {
    |events| != 0 ==>
      Enabled(pages, w, events[0]) && AllEnabled(pages, Apply(pages, w, events[0]), events[1..])
  }

  function ApplyAll(pages: seq<Delta>, w: World, events: seq<Event>): World
    requires AllEnabled(pages, w, events)
    decreases |events|
  {
    if |events| == 0 then w else ApplyAll(pages, Apply(pages, w, events[0]), events[1..])
  }

  // At every moment of the history.
  ghost predicate AlwaysKept(pages: seq<Delta>, w: World, events: seq<Event>)
    requires AllEnabled(pages, w, events)
    decreases |events|
  {
    && AllKept(pages, w)
    && (|events| != 0 ==> AlwaysKept(pages, Apply(pages, w, events[0]), events[1..]))
  }

  ghost predicate NeverStale(pages: seq<Delta>, w: World, events: seq<Event>)
    requires AllEnabled(pages, w, events)
    decreases |events|
  {
    |events| != 0 ==> !IsStale(w, events[0]) && NeverStale(pages, Apply(pages, w, events[0]), events[1..])
  }

  lemma StartOk(pages: seq<Delta>, book: Book)
    ensures Inv(pages, Start(book)) && AllKept(pages, Start(book))
  {
  }

  lemma {:induction false} KeptIffNeverStale(pages: seq<Delta>, w: World, events: seq<Event>)
    requires AccountsFixed(pages) && Inv(pages, w) && AllKept(pages, w) && AllEnabled(pages, w, events)
    ensures AlwaysKept(pages, w, events) <==> NeverStale(pages, w, events)
    decreases |events|
  {
    hide AccountsFixed, Inv, AllKept, Enabled, Apply, IsStale;
    if |events| != 0 {
      StepKeepsInv(pages, w, events[0]);
      StepKeepsIff(pages, w, events[0]);
      var w' := Apply(pages, w, events[0]);
      if AllKept(pages, w') {
        KeptIffNeverStale(pages, w', events[1..]);
      } else {
        NotKeptNow(pages, w', events[1..]);
      }
    }
  }

  lemma NotKeptNow(pages: seq<Delta>, w: World, events: seq<Event>)
    requires AllEnabled(pages, w, events) && !AllKept(pages, w)
    ensures !AlwaysKept(pages, w, events)
  {
  }

  lemma {:induction false} InvAtEnd(pages: seq<Delta>, w: World, events: seq<Event>)
    requires AccountsFixed(pages) && Inv(pages, w) && AllEnabled(pages, w, events)
    ensures Inv(pages, ApplyAll(pages, w, events))
    decreases |events|
  {
    hide AccountsFixed, Inv, Enabled, Apply;
    if |events| != 0 {
      StepKeepsInv(pages, w, events[0]);
      InvAtEnd(pages, Apply(pages, w, events[0]), events[1..]);
    }
  }

  lemma {:induction false} KeptAtEnd(pages: seq<Delta>, w: World, events: seq<Event>)
    requires AllEnabled(pages, w, events) && AlwaysKept(pages, w, events)
    ensures AllKept(pages, ApplyAll(pages, w, events))
    decreases |events|
  {
    if |events| != 0 {
      KeptAtEnd(pages, Apply(pages, w, events[0]), events[1..]);
    }
  }

  // Every non-zero entry on a page before the stored cursor has been delivered;
  // and what was last delivered under each id is at every moment still staged,
  // or its id has been in the books, or it was dropped for a reason of its own,
  // if and only if no import deletes a row that changed since it was matched.
  lemma NothingIsLostIff(pages: seq<Delta>, book: Book, events: seq<Event>, i: nat, e: Entry)
    requires AccountsFixed(pages) && AllEnabled(pages, Start(book), events)
    ensures AlwaysKept(pages, Start(book), events) <==> NeverStale(pages, Start(book), events)
    ensures var w := ApplyAll(pages, Start(book), events);
      i < w.cursor ==>
        && i < |pages|
        && (e in Entries(pages[i]) && e.num != 0 ==>
            e.id in w.last && w.last[e.id].entry.id == e.id && FromFeed(pages, w.last[e.id].entry))
  {
    hide AccountsFixed, AlwaysKept, NeverStale, Apply, RunOk, RowOk, RequestOk, FromFeed;
    StartOk(pages, book);
    KeptIffNeverStale(pages, Start(book), events);
    InvAtEnd(pages, Start(book), events);
    var w := ApplyAll(pages, Start(book), events);
    if i < w.cursor {
      assert PageDelivered(w, pages[i]);
      if e in Entries(pages[i]) && e.num != 0 {
        assert LastOk(pages, e.id, w.last[e.id]);
      }
    }
  }

  // In so many words, for a history without a stale cleanup.
  lemma NothingIsLost(pages: seq<Delta>, book: Book, events: seq<Event>, i: nat, e: Entry)
    requires AccountsFixed(pages) && AllEnabled(pages, Start(book), events) && NeverStale(pages, Start(book), events)
    requires i < ApplyAll(pages, Start(book), events).cursor && i < |pages|
    requires e in Entries(pages[i]) && e.num != 0
    ensures var w := ApplyAll(pages, Start(book), events);
      && e.id in w.last
      && var Delivered(f, dropped) := w.last[e.id];
      && f.id == e.id && FromFeed(pages, f)
      && (|| (e.id in w.staged && Shows(w.staged[e.id], f))
          || Ever(w.past, e.id)
          || (dropped.Some? && Fits(pages, w.past, f, dropped.value)))
  {
    hide AccountsFixed, AlwaysKept, NeverStale, Apply, Fits, Ever, FromFeed;
    NothingIsLostIff(pages, book, events, i, e);
    KeptAtEnd(pages, Start(book), events);
    var w := ApplyAll(pages, Start(book), events);
    KeptAt(pages, w, e.id);
  }

  // ------------------------------------------------------------ the history that loses a correction

  lemma {:induction false} OneMore(pages: seq<Delta>, w0: World, events: seq<Event>, w: World, e: Event)
    requires AllEnabled(pages, w0, events) && ApplyAll(pages, w0, events) == w && Enabled(pages, w, e)
    ensures AllEnabled(pages, w0, events + [e]) && ApplyAll(pages, w0, events + [e]) == Apply(pages, w, e)
    decreases |events|
  {
    hide Enabled, Apply;
    if |events| == 0 {
      assert events + [e] == [e] && [e][1..] == [];
    } else {
      assert (events + [e])[0] == events[0] && (events + [e])[1..] == events[1..] + [e];
      OneMore(pages, Apply(pages, w0, events[0]), events[1..], w, e);
    }
  }

  const PENDING := Entry(1, None, 0, 0, "", 100, 100, true)
  const POSTED := Entry(2, Some(1), 0, 0, "", 100, 100, false)
  const CORRECTED := Entry(2, Some(1), 0, 0, "", 250, 100, false)

  // A pending entry and its posted copy; later a correction of the posted one.
  function CorrectedFeed(): seq<Delta> {
    [Delta([PENDING, POSTED], [], []), Delta([], [CORRECTED], [])]
  }

  const LINKED: Books := Books(map[0 := Account(0, "", Bank, None, false, Some(Link(0, 0)))], map[], map[], 1)

  const WITH_PENDING: Books := LINKED.(
    txns := map[1 := Txn(0, Some(1), 0, "", [Split(0, -100, 100, -100, 100, Cleared)])], next := 2)

  lemma CorrectedOps()
    ensures RunOps(CorrectedFeed(), 0) == [Stage(PENDING), Stage(POSTED), Stage(CORRECTED)]
    ensures AccountsFixed(CorrectedFeed())
  {
    hide Ops, PageOps;
    var pages := CorrectedFeed();
    FirstPageOps();
    SecondPageOps();
    OpsOfTwo(pages);
    assert forall d <- pages :: forall e <- Entries(d) :: e.bankAccount == 0 by {
      OneAccount(pages);
    }
  }

  lemma OneAccount(pages: seq<Delta>)
    requires pages == CorrectedFeed()
    ensures forall d <- pages :: forall e <- Entries(d) :: e.bankAccount == 0
  {
    assert Entries(pages[0]) == [PENDING, POSTED] && Entries(pages[1]) == [CORRECTED];
  }

  lemma FirstPageOps()
    ensures Ops(CorrectedFeed()[0]) == [Stage(PENDING), Stage(POSTED)]
  {
    hide Stages, Settles;
    var d := CorrectedFeed()[0];
    assert Entries(d) == [PENDING, POSTED];
    TwoStages(PENDING, POSTED);
    assert Ops(d) == Stages(Entries(d)) + Settles(Entries(d));
  }

  lemma TwoStages(e: Entry, f: Entry)
    requires e.num != 0 && f.num != 0
    ensures Stages([e, f]) == [Stage(e), Stage(f)] && Settles([e, f]) == []
  {
    assert [e, f][..1] == [e] && [e][..0] == [];
    assert Stages([e]) == [Stage(e)] && Settles([e]) == [];
  }

  lemma SecondPageOps()
    ensures Ops(CorrectedFeed()[1]) == [Stage(CORRECTED)]
  {
    assert Entries(CorrectedFeed()[1]) == [CORRECTED] && [CORRECTED][..0] == [];
  }

  lemma OpsOfTwo(pages: seq<Delta>)
    requires |pages| == 2
    ensures RunOps(pages, 0) == Ops(pages[0]) + Ops(pages[1])
  {
    hide Ops;
    assert PageOps(pages, 0, 0) == [] && PageOps(pages, 0, 1) == [] + Ops(pages[0]);
    assert PageOps(pages, 0, 2) == PageOps(pages, 0, 1) + Ops(pages[1]);
  }

  lemma BooksFacts()
    ensures !Imported(Book(LINKED, 0), 1) && !Imported(Book(LINKED, 0), 2)
    ensures Imported(Book(WITH_PENDING, 0), 1) && !Imported(Book(WITH_PENDING, 0), 2)
    ensures forall x :: Imported(Book(WITH_PENDING, 0), x) ==> x == 1
    ensures MatchesNow(Book(WITH_PENDING, 0), ContentOf(POSTED))
  {
    var b := Book(WITH_PENDING, 0);
    assert b.books.txns[1].plaidId == Some(1);
    var s := Split(0, -100, 100, -100, 100, Cleared);
    assert s in b.books.txns[1].splits && LinkedTo(b, s.account, 0);
  }

  // An import reads the posted row and finds it to be the pending one's copy; the
  // sync delivers the correction; the import deletes it. It is neither staged nor
  // in the books, and the only reason on record is about the old amount.
  lemma CorrectionIsLost() returns (events: seq<Event>)
    ensures AccountsFixed(CorrectedFeed()) && AllEnabled(CorrectedFeed(), Start(Book(LINKED, 0)), events)
    ensures var w := ApplyAll(CorrectedFeed(), Start(Book(LINKED, 0)), events);
      && w.cursor == |CorrectedFeed()| && 2 !in w.staged && !Ever(w.past, 2)
      && 2 in w.last && w.last[2] == Delivered(CORRECTED, Some(SameAsPending(ContentOf(POSTED))))
      && !Kept(CorrectedFeed(), w, 2)
  {
    hide RunOps, AllEnabled, ApplyAll, Imported, ValueMatches, MatchesNow;
    var pages, w0 := CorrectedFeed(), Start(Book(LINKED, 0));
    CorrectedOps();
    BooksFacts();
    NoEvents(pages, w0);
    var w := w0;
    events := [];
    events := StagedTwo();
    events := MatchedTwo(events);
    w := TwoMatched();
    OneMore(pages, w0, events, w, Decide(0, Insert(false)));
    events, w := events + [Decide(0, Insert(false))], Apply(pages, w, Decide(0, Insert(false)));
    OneMore(pages, w0, events, w, Write(0));
    events, w := events + [Write(0)], Apply(pages, w, Write(0));
    OneMore(pages, w0, events, w, Cleanup(2));
    events, w := events + [Cleanup(2)], Apply(pages, w, Cleanup(2));
    OneMore(pages, w0, events, w, Persist(0));
    events, w := events + [Persist(0)], Apply(pages, w, Persist(0));
  }

  function RowOf(e: Entry): Row {
    Row(e.predecessor, e.bankAccount, e.date, e.description, e.num, e.denom, e.pending, false)
  }

  // Both entries of the first page are staged.
  function TwoStaged(): World {
    Start(Book(LINKED, 0)).(
      staged := map[1 := RowOf(PENDING), 2 := RowOf(POSTED)],
      runs := map[0 := SyncRun(0, 2, None)],
      last := map[1 := Delivered(PENDING, None), 2 := Delivered(POSTED, None)])
  }

  // The pending one has been posted, and an import has matched the other.
  function TwoMatched(): World {
    TwoStaged().(
      book := Book(WITH_PENDING, 0),
      past := {Book(LINKED, 0), Book(WITH_PENDING, 0)},
      imports := map[1 := Cleaning(1, None), 2 := Cleaning(2, Some(ContentOf(POSTED)))])
  }

  lemma StagedTwo() returns (events: seq<Event>)
    ensures AllEnabled(CorrectedFeed(), Start(Book(LINKED, 0)), events)
    ensures ApplyAll(CorrectedFeed(), Start(Book(LINKED, 0)), events) == TwoStaged()
  {
    hide RunOps, AllEnabled, ApplyAll, Imported, ValueMatches, MatchesNow;
    var pages, w0 := CorrectedFeed(), Start(Book(LINKED, 0));
    CorrectedOps();
    NoEvents(pages, w0);
    var w := w0;
    events := [];
    OneMore(pages, w0, events, w, Begin(0, 0));
    events, w := events + [Begin(0, 0)], Apply(pages, w, Begin(0, 0));
    OneMore(pages, w0, events, w, Decide(0, Insert(false)));
    events, w := events + [Decide(0, Insert(false))], Apply(pages, w, Decide(0, Insert(false)));
    OneMore(pages, w0, events, w, Write(0));
    events, w := events + [Write(0)], Apply(pages, w, Write(0));
    OneMore(pages, w0, events, w, Decide(0, Insert(false)));
    events, w := events + [Decide(0, Insert(false))], Apply(pages, w, Decide(0, Insert(false)));
    OneMore(pages, w0, events, w, Write(0));
    events, w := events + [Write(0)], Apply(pages, w, Write(0));
  }

  lemma MatchedTwo(before: seq<Event>) returns (events: seq<Event>)
    requires AllEnabled(CorrectedFeed(), Start(Book(LINKED, 0)), before)
    requires ApplyAll(CorrectedFeed(), Start(Book(LINKED, 0)), before) == TwoStaged()
    ensures AllEnabled(CorrectedFeed(), Start(Book(LINKED, 0)), events)
    ensures ApplyAll(CorrectedFeed(), Start(Book(LINKED, 0)), events) == TwoMatched()
  {
    hide RunOps, AllEnabled, ApplyAll, Imported, ValueMatches, MatchesNow;
    var pages, w0 := CorrectedFeed(), Start(Book(LINKED, 0));
    BooksFacts();
    var w := TwoStaged();
    events := before;
    OneMore(pages, w0, events, w, Load(1, 1));
    events, w := events + [Load(1, 1)], Apply(pages, w, Load(1, 1));
    OneMore(pages, w0, events, w, Post(1, WITH_PENDING));
    events, w := events + [Post(1, WITH_PENDING)], Apply(pages, w, Post(1, WITH_PENDING));
    OneMore(pages, w0, events, w, Load(2, 2));
    events, w := events + [Load(2, 2)], Apply(pages, w, Load(2, 2));
    OneMore(pages, w0, events, w, Match(2));
    events, w := events + [Match(2)], Apply(pages, w, Match(2));
  }

  lemma NoEvents(pages: seq<Delta>, w: World)
    ensures AllEnabled(pages, w, []) && ApplyAll(pages, w, []) == w
  {
  }
}
