/**
 Replays of the bank's feed converge. A run of fetchAndStage starts at the
 cursor it read before it held the lock, executes some prefix of the statements
 of up to three pages, and persists its cursor only if all of them succeeded.
 */
module Convergence {
  import opened Wrappers
  import opened Ledger
  import opened Staging

  // The bank's feed, with what is assumed of it: a posted id names one fixed
  // pending predecessor, no two name the same one, a pending id has no
  // predecessor of its own, and an id keeps its bank account.
  datatype Feed = Feed(pages: seq<Delta>, predecessor: map<Id, Id>, account: map<Id, nat>)

  ghost predicate EntryOk(k: Feed, e: Entry) {
    && e.id in k.account && k.account[e.id] == e.bankAccount
    && (e.predecessor.Some? ==> e.id in k.predecessor && k.predecessor[e.id] == e.predecessor.value)
  }

  ghost predicate PredecessorsOk(k: Feed) {
    && (forall x, y :: x in k.predecessor && y in k.predecessor && k.predecessor[x] == k.predecessor[y] ==> x == y)
    && (forall x <- k.predecessor :: k.predecessor[x] !in k.predecessor)
  }

  ghost predicate OpOk(k: Feed, op: Op) {
    match op
    case Stage(e) => EntryOk(k, e)
    case Settle(e) => EntryOk(k, e)
    case Remove(_) => true
  }

  ghost predicate OpsOk(k: Feed, ops: seq<Op>) {
    forall op <- ops :: OpOk(k, op)
  }

  ghost predicate FeedOk(k: Feed) {
    && PredecessorsOk(k)
    && (forall d <- k.pages :: forall e <- Entries(d) :: EntryOk(k, e))
  }

  // Rows already staged came from the same bank.
  ghost predicate TableOk(k: Feed, t: Table) {
    forall id <- t :: id in k.account ==> t[id].bankAccount == k.account[id]
  }

  // ------------------------------------------------------------ what ops do to one id

  ghost predicate Kills(b: Book, op: Op, x: Id) {
    op.Stage? && Replaced(b, op.entry) && x in Both(op.entry)
  }

  ghost predicate Sets(b: Book, op: Op, x: Id) {
    op.Stage? && !Replaced(b, op.entry) && op.entry.id == x
  }

  ghost predicate Drops(op: Op, x: Id) {
    || (op.Settle? && x in Both(op.entry))
    || (op.Remove? && x in op.ids)
  }

  ghost predicate Touches(b: Book, op: Op, x: Id) {
    Sets(b, op, x) || Drops(op, x)
  }

  ghost predicate Names(b: Book, op: Op, x: Id) {
    Sets(b, op, x) && op.entry.predecessor.Some?
  }

  ghost predicate AnyKills(b: Book, ops: seq<Op>, x: Id) {
    exists op <- ops :: Kills(b, op, x)
  }

  ghost predicate AnySets(b: Book, ops: seq<Op>, x: Id) {
    exists op <- ops :: Sets(b, op, x)
  }

  ghost predicate AnyTouches(b: Book, ops: seq<Op>, x: Id) {
    exists op <- ops :: Touches(b, op, x)
  }

  ghost predicate AnyNames(b: Book, ops: seq<Op>, x: Id) {
    exists op <- ops :: Names(b, op, x)
  }

  ghost predicate SameRow(s: Table, t: Table, x: Id) {
    (x in s <==> x in t) && (x in s ==> s[x] == t[x])
  }

  ghost predicate PredecessorDismissed(k: Feed, t: Table, x: Id) {
    x in k.predecessor && Dismissed(t, k.predecessor[x])
  }

  // Whether x ends up dismissed once ops have run, when nothing kills it.
  ghost predicate EndsDismissed(k: Feed, b: Book, t: Table, ops: seq<Op>, x: Id) {
    Dismissed(t, x) || (PredecessorDismissed(k, t, x) && AnyNames(b, ops, x))
  }

  // ------------------------------------------------------------ one statement

  lemma KillsComeInPairs(k: Feed, b: Book, op: Op, x: Id)
    requires PredecessorsOk(k) && OpOk(k, op) && x in k.predecessor
    ensures Kills(b, op, x) <==> Kills(b, op, k.predecessor[x])
  {
  }

  lemma ExecFrame(k: Feed, b: Book, t: Table, op: Op, x: Id)
    requires PredecessorsOk(k) && OpOk(k, op) && TableOk(k, t)
    ensures TableOk(k, Exec(b, t, op))
    ensures Kills(b, op, x) ==> x !in Exec(b, t, op)
    ensures !Kills(b, op, x) && x !in k.predecessor ==> (Dismissed(Exec(b, t, op), x) <==> Dismissed(t, x))
    ensures !Kills(b, op, x) ==> (Dismissed(Exec(b, t, op), x) <==>
      Dismissed(t, x) || (PredecessorDismissed(k, t, x) && Names(b, op, x)))
    ensures !Kills(b, op, x) && !Touches(b, op, x) ==> SameRow(Exec(b, t, op), t, x)
    ensures !Kills(b, op, x) && !Sets(b, op, x) && Dismissed(t, x) ==> SameRow(Exec(b, t, op), t, x)
  {
  }

  // ------------------------------------------------------------ statement lists

  lemma {:induction false} ExecAllFrame(k: Feed, b: Book, t: Table, ops: seq<Op>, x: Id)
    requires PredecessorsOk(k) && OpsOk(k, ops) && TableOk(k, t)
    ensures TableOk(k, ExecAll(b, t, ops))
    ensures !AnyKills(b, ops, x) ==> (Dismissed(ExecAll(b, t, ops), x) <==> EndsDismissed(k, b, t, ops, x))
    ensures !AnyKills(b, ops, x) && !AnyTouches(b, ops, x) ==> SameRow(ExecAll(b, t, ops), t, x)
    ensures !AnyKills(b, ops, x) && !AnySets(b, ops, x) && Dismissed(t, x) ==> SameRow(ExecAll(b, t, ops), t, x)
    decreases |ops|, x in k.predecessor
  {
    if |ops| != 0 {
      var init, op := ops[..|ops| - 1], ops[|ops| - 1];
      assert ops == init + [op];
      ExecAllFrame(k, b, t, init, x);
      var mid := ExecAll(b, t, init);
      ExecFrame(k, b, mid, op, x);
      if x in k.predecessor {
        var p := k.predecessor[x];
        ExecAllFrame(k, b, t, init, p);
        forall o <- init
          ensures Kills(b, o, x) <==> Kills(b, o, p)
        {
          KillsComeInPairs(k, b, o, x);
        }
        NobodyNamesAPending(k, b, init, p);
      }
    }
  }

  lemma NobodyNamesAPending(k: Feed, b: Book, ops: seq<Op>, p: Id)
    requires OpsOk(k, ops) && p !in k.predecessor
    ensures !AnyNames(b, ops, p)
  {
  }

  // ------------------------------------------------------------ equivalence

  // s and t cannot be told apart once ops have run: wherever an id is not
  // killed, both agree on whether it ends dismissed, and on its row if ops do
  // not rewrite it.
  ghost predicate EquivalentAt(k: Feed, b: Book, s: Table, t: Table, ops: seq<Op>, x: Id) {
    !AnyKills(b, ops, x) ==>
      && (EndsDismissed(k, b, s, ops, x) <==> EndsDismissed(k, b, t, ops, x))
      && (EndsDismissed(k, b, s, ops, x) && !AnySets(b, ops, x) ==> SameRow(s, t, x))
      && (!EndsDismissed(k, b, s, ops, x) && !AnyTouches(b, ops, x) ==> SameRow(s, t, x))
  }

  ghost predicate Equivalent(k: Feed, b: Book, s: Table, t: Table, ops: seq<Op>) {
    forall x :: EquivalentAt(k, b, s, t, ops, x)
  }

  lemma AnyCons(b: Book, op: Op, rest: seq<Op>, x: Id)
    ensures AnyKills(b, [op] + rest, x) <==> Kills(b, op, x) || AnyKills(b, rest, x)
    ensures AnySets(b, [op] + rest, x) <==> Sets(b, op, x) || AnySets(b, rest, x)
    ensures AnyTouches(b, [op] + rest, x) <==> Touches(b, op, x) || AnyTouches(b, rest, x)
    ensures AnyNames(b, [op] + rest, x) <==> Names(b, op, x) || AnyNames(b, rest, x)
    ensures AnyNames(b, rest, x) ==> AnySets(b, rest, x)
    ensures AnySets(b, rest, x) ==> AnyTouches(b, rest, x)
  {
  }

  lemma EquivalentStep(k: Feed, b: Book, s: Table, t: Table, op: Op, rest: seq<Op>, x: Id)
    requires PredecessorsOk(k) && OpOk(k, op) && OpsOk(k, rest) && TableOk(k, s) && TableOk(k, t)
    requires EquivalentAt(k, b, s, t, [op] + rest, x)
    requires x in k.predecessor ==> EquivalentAt(k, b, s, t, [op] + rest, k.predecessor[x])
    ensures EquivalentAt(k, b, Exec(b, s, op), Exec(b, t, op), rest, x)
  {
    hide Exec, Kills, Sets, Drops, AnyKills, AnySets, AnyTouches, AnyNames, OpsOk, OpOk, TableOk;
    AnyCons(b, op, rest, x);
    ExecFrame(k, b, s, op, x);
    ExecFrame(k, b, t, op, x);
    if !Kills(b, op, x) {
      ExecAlike(k, b, s, t, op, x);
    }
    if x in k.predecessor {
      var p := k.predecessor[x];
      AnyCons(b, op, rest, p);
      ExecFrame(k, b, s, op, p);
      ExecFrame(k, b, t, op, p);
      KillsComeInPairs(k, b, op, x);
      AllKillsComeInPairs(k, b, rest, x);
      OpsCons(k, op, rest);
      NobodyNamesAPending(k, b, [op] + rest, p);
    }
  }

  // What an upsert writes depends on the table only by the flag; what a deletion
  // by id leaves was dismissed before.
  lemma ExecAlike(k: Feed, b: Book, s: Table, t: Table, op: Op, x: Id)
    requires OpOk(k, op) && TableOk(k, s) && TableOk(k, t) && !Kills(b, op, x)
    ensures Sets(b, op, x) && (Dismissed(Exec(b, s, op), x) <==> Dismissed(Exec(b, t, op), x)) ==>
      SameRow(Exec(b, s, op), Exec(b, t, op), x)
    ensures Drops(op, x) && !Dismissed(s, x) ==> x !in Exec(b, s, op)
    ensures Drops(op, x) && !Dismissed(t, x) ==> x !in Exec(b, t, op)
  {
  }

  lemma OpsCons(k: Feed, op: Op, rest: seq<Op>)
    requires OpOk(k, op) && OpsOk(k, rest)
    ensures OpsOk(k, [op] + rest)
  {
  }

  lemma AllKillsComeInPairs(k: Feed, b: Book, ops: seq<Op>, x: Id)
    requires PredecessorsOk(k) && OpsOk(k, ops) && x in k.predecessor
    ensures AnyKills(b, ops, x) <==> AnyKills(b, ops, k.predecessor[x])
  {
    hide Kills, OpOk;
    forall o <- ops
      ensures Kills(b, o, x) <==> Kills(b, o, k.predecessor[x])
    {
      KillsComeInPairs(k, b, o, x);
    }
  }

  lemma {:induction false} EquivalentTablesMeet(k: Feed, b: Book, s: Table, t: Table, ops: seq<Op>)
    requires PredecessorsOk(k) && OpsOk(k, ops) && TableOk(k, s) && TableOk(k, t)
    requires Equivalent(k, b, s, t, ops)
    ensures ExecAll(b, s, ops) == ExecAll(b, t, ops)
    decreases |ops|
  {
    if |ops| == 0 {
      forall x
        ensures SameRow(s, t, x)
      {
        assert EquivalentAt(k, b, s, t, ops, x);
      }
      assert forall x :: x in s ==> SameRow(s, t, x);
      assert forall x :: x in t ==> SameRow(s, t, x);
      assert s == t;
    } else {
      var op, rest := ops[0], ops[1..];
      assert ops == [op] + rest;
      ExecAllConcat(b, s, [op], rest);
      ExecAllConcat(b, t, [op], rest);
      ExecAllSnoc(b, s, [], op);
      ExecAllSnoc(b, t, [], op);
      assert [] + [op] == [op];
      forall x
        ensures EquivalentAt(k, b, Exec(b, s, op), Exec(b, t, op), rest, x)
      {
        assert EquivalentAt(k, b, s, t, ops, x);
        EquivalentStep(k, b, s, t, op, rest, x);
      }
      ExecFrame(k, b, s, op, 0);
      ExecFrame(k, b, t, op, 0);
      EquivalentTablesMeet(k, b, Exec(b, s, op), Exec(b, t, op), rest);
    }
  }

  // Statements repeated ahead of a list that contains them leave no trace.
  lemma Absorb(k: Feed, b: Book, t: Table, early: seq<Op>, ops: seq<Op>)
    requires PredecessorsOk(k) && OpsOk(k, ops) && TableOk(k, t)
    requires forall op <- early :: op in ops
    ensures TableOk(k, ExecAll(b, t, early))
    ensures ExecAll(b, ExecAll(b, t, early), ops) == ExecAll(b, t, ops)
  {
    ExecAllFrame(k, b, t, early, 0);
    var s := ExecAll(b, t, early);
    forall x
      ensures EquivalentAt(k, b, s, t, ops, x)
    {
      ExecAllFrame(k, b, t, early, x);
      if x in k.predecessor {
        var p := k.predecessor[x];
        ExecAllFrame(k, b, t, early, p);
        if AnyKills(b, early, p) {
          var op :| op in early && Kills(b, op, p);
          KillsComeInPairs(k, b, op, x);
        }
        NobodyNamesAPending(k, b, early, p);
      }
    }
    EquivalentTablesMeet(k, b, s, t, ops);
  }

  // Starting over from further back: if running later from t gives what
  // earlier + later gives from f, then so does running earlier + later from t.
  lemma Restart(k: Feed, b: Book, t: Table, f: Table, earlier: seq<Op>, later: seq<Op>)
    requires PredecessorsOk(k) && OpsOk(k, earlier + later) && TableOk(k, t) && TableOk(k, f)
    requires ExecAll(b, t, later) == ExecAll(b, f, earlier + later)
    ensures ExecAll(b, t, earlier + later) == ExecAll(b, f, earlier + later)
  {
    var ops := earlier + later;
    forall x
      ensures EquivalentAt(k, b, t, f, ops, x)
    {
      ExecAllFrame(k, b, t, later, x);
      ExecAllFrame(k, b, f, ops, x);
      if x in k.predecessor {
        var p := k.predecessor[x];
        ExecAllFrame(k, b, t, later, p);
        ExecAllFrame(k, b, f, ops, p);
        if AnyKills(b, ops, p) {
          var op :| op in ops && Kills(b, op, p);
          KillsComeInPairs(k, b, op, x);
        }
        NobodyNamesAPending(k, b, ops, p);
      }
    }
    EquivalentTablesMeet(k, b, t, f, ops);
  }

  lemma DeltaOpsOk(k: Feed, d: Delta)
    requires forall e <- Entries(d) :: EntryOk(k, e)
    ensures OpsOk(k, Ops(d))
  {
  }

  lemma {:induction false} PageOpsOk(k: Feed, start: nat, end: nat)
    requires FeedOk(k) && start <= end <= |k.pages|
    ensures OpsOk(k, PageOps(k.pages, start, end))
  {
    hide Ops, OpOk, EntryOk, PredecessorsOk;
    if start < end {
      PageOpsOk(k, start, end - 1);
      assert k.pages[end - 1] in k.pages;
      DeltaOpsOk(k, k.pages[end - 1]);
    }
  }

  // ------------------------------------------------------------ runs

  // One fetchAndStage call. budget is how many of its statements reach the
  // database before the connection fails; the cursor write comes last.
  datatype Run = Run(start: nat, budget: nat)

  datatype System = System(table: Table, cursor: nat)

  predicate Persists(k: Feed, run: Run)
    requires run.start <= |k.pages|
  {
    run.budget > |RunOps(k.pages, run.start)|
  }

  function Done(k: Feed, run: Run): seq<Op>
    requires run.start <= |k.pages|
  {
    var ops := RunOps(k.pages, run.start);
    if run.budget < |ops| then ops[..run.budget] else ops
  }

  function Step(k: Feed, b: Book, y: System, run: Run): System
    requires run.start <= |k.pages|
  {
    System(
      ExecAll(b, y.table, Done(k, run)),
      if Persists(k, run) then Reach(k.pages, run.start) else y.cursor)
  }

  // The single in-order pass over the whole feed.
  function InOrder(k: Feed, b: Book, t0: Table): Table {
    ExecAll(b, t0, PageOps(k.pages, 0, |k.pages|))
  }

  // What is left behind the cursor is all that separates y from the in-order pass.
  ghost predicate Converging(k: Feed, b: Book, t0: Table, y: System) {
    && TableOk(k, y.table)
    && y.cursor <= |k.pages|
    && ExecAll(b, y.table, PageOps(k.pages, y.cursor, |k.pages|)) == InOrder(k, b, t0)
  }

  // A run that persists must not start ahead of the stored cursor; a run that
  // fails must not start behind it.
  predicate Safe(k: Feed, y: System, run: Run)
    requires run.start <= |k.pages|
  {
    if Persists(k, run) then run.start <= y.cursor else run.start >= y.cursor
  }

  lemma SafeRunKeepsConverging(k: Feed, b: Book, t0: Table, y: System, run: Run)
    requires FeedOk(k) && TableOk(k, t0) && Converging(k, b, t0, y)
    requires run.start <= |k.pages| && Safe(k, y, run)
    ensures Converging(k, b, t0, Step(k, b, y, run))
  {
    var n, reach := |k.pages|, Reach(k.pages, run.start);
    PageOpsOk(k, run.start, n);
    PageOpsSplit(k.pages, run.start, reach, n);
    ExecAllFrame(k, b, y.table, Done(k, run), 0);
    if Persists(k, run) {
      PageOpsSplit(k.pages, 0, run.start, n);
      PageOpsSplit(k.pages, run.start, y.cursor, n);
      PageOpsOk(k, 0, run.start);
      ExecAllFrame(k, b, t0, PageOps(k.pages, 0, run.start), 0);
      var f := ExecAll(b, t0, PageOps(k.pages, 0, run.start));
      ExecAllConcat(b, t0, PageOps(k.pages, 0, run.start), PageOps(k.pages, run.start, n));
      Restart(k, b, y.table, f, PageOps(k.pages, run.start, y.cursor), PageOps(k.pages, y.cursor, n));
      ExecAllConcat(b, y.table, RunOps(k.pages, run.start), PageOps(k.pages, reach, n));
    } else {
      PageOpsSplit(k.pages, y.cursor, run.start, n);
      PageOpsOk(k, y.cursor, n);
      Absorb(k, b, y.table, Done(k, run), PageOps(k.pages, y.cursor, n));
    }
  }

  function StepAll(k: Feed, b: Book, y: System, runs: seq<Run>): System
    requires forall r <- runs :: r.start <= |k.pages|
  {
    if |runs| == 0 then y
    else Step(k, b, StepAll(k, b, y, runs[..|runs| - 1]), runs[|runs| - 1])
  }

  predicate AllSafe(k: Feed, b: Book, y: System, runs: seq<Run>)
    requires forall r <- runs :: r.start <= |k.pages|
  {
    |runs| != 0 ==>
      var init := runs[..|runs| - 1];
      AllSafe(k, b, y, init) && Safe(k, StepAll(k, b, y, init), runs[|runs| - 1])
  }

  // Replay convergence: whatever safe runs happened, once the cursor has
  // reached the end of the feed the table is that of one in-order pass.
  lemma {:induction false} ReplaysConverge(k: Feed, b: Book, t0: Table, runs: seq<Run>)
    requires FeedOk(k) && TableOk(k, t0)
    requires forall r <- runs :: r.start <= |k.pages|
    requires AllSafe(k, b, System(t0, 0), runs)
    ensures Converging(k, b, t0, StepAll(k, b, System(t0, 0), runs))
    ensures StepAll(k, b, System(t0, 0), runs).cursor == |k.pages| ==>
      StepAll(k, b, System(t0, 0), runs).table == InOrder(k, b, t0)
    decreases |runs|
  {
    if |runs| != 0 {
      var init := runs[..|runs| - 1];
      ReplaysConverge(k, b, t0, init);
      SafeRunKeepsConverging(k, b, t0, StepAll(k, b, System(t0, 0), init), runs[|runs| - 1]);
    }
  }

  // ------------------------------------------------------------ safety is needed

  ghost predicate ConvergesFor(
    k: Feed, b: Book, t0: Table, t: Table, c: nat, run: Run, persists: bool)
  {
    && FeedOk(k) && TableOk(k, t0) && run.start <= |k.pages|
    && Converging(k, b, t0, System(t, c))
    && (Persists(k, run) <==> persists)
    ==> Converging(k, b, t0, Step(k, b, System(t, c), run))
  }

  // Whether a run from start, finding the cursor at c, keeps every feed converging.
  ghost predicate AlwaysConverges(start: nat, c: nat, persists: bool) {
    forall k, b, t0, t, budget: nat :: ConvergesFor(k, b, t0, t, c, Run(start, budget), persists)
  }

  const NO_BOOK: Book := Book(Books(map[], map[], map[], 0), 0)

  const NO_DELTA: Delta := Delta([], [], [])

  function Purchase(id: Id): Entry {
    Entry(id, None, 0, 0, "", 100, 100, true)
  }

  function SettledAtZero(id: Id, predecessor: Id): Entry {
    Entry(id, Some(predecessor), 0, 0, "", 0, 100, false)
  }

  // A feed of n pages, all empty but the one at i.
  function OnePage(n: nat, i: nat, d: Delta): seq<Delta>
    requires i < n
  {
    seq(n, j => if j == i then d else NO_DELTA)
  }

  lemma {:induction false} EmptyPages(pages: seq<Delta>, start: nat, end: nat)
    requires start <= end <= |pages|
    requires forall j :: start <= j < end ==> pages[j] == NO_DELTA
    ensures PageOps(pages, start, end) == []
  {
    hide Ops;
    if start < end {
      EmptyPages(pages, start, end - 1);
      NoPageOps();
    }
  }

  lemma NoPageOps()
    ensures Ops(NO_DELTA) == []
  {
  }

  lemma OnePageOps(n: nat, i: nat, d: Delta, start: nat, end: nat)
    requires i < n && start <= end <= n
    ensures PageOps(OnePage(n, i, d), start, end) == if start <= i < end then Ops(d) else []
  {
    hide Ops;
    var pages := OnePage(n, i, d);
    if start <= i < end {
      PageOpsSplit(pages, start, i, end);
      PageOpsSplit(pages, i, i + 1, end);
      EmptyPages(pages, start, i);
      EmptyPages(pages, i + 1, end);
      SinglePage(pages, i);
    } else {
      EmptyPages(pages, start, end);
    }
  }

  lemma SinglePage(pages: seq<Delta>, i: nat)
    requires i < |pages|
    ensures PageOps(pages, i, i) == []
    ensures PageOps(pages, i, i + 1) == Ops(pages[i])
  {
    hide Ops;
    assert PageOps(pages, i, i) == [];
    assert PageOps(pages, i, i + 1) == [] + Ops(pages[i]);
  }

  // A run that starts behind the cursor and dies after staging a pending entry,
  // before the same page's settlement at zero drops it, leaves it for good.
  lemma FailingBehindDiverges(start: nat, c: nat)
    requires start < c
    ensures !AlwaysConverges(start, c, false)
  {
    hide PageOps, ExecAll, Ops;
    var d := Settlement();
    var k := Feed(OnePage(c, start, d), map[2 := 1], map[1 := 0, 2 := 0]);
    SettlementOps();
    OnePageOps(c, start, d, start, Reach(k.pages, start));
    OnePageOps(c, start, d, 0, c);
    OnePageOps(c, start, d, c, c);
    NoOps(map[]);
    assert Converging(k, NO_BOOK, map[], System(map[], c));
    var run := Run(start, 1);
    var after := Step(k, NO_BOOK, System(map[], c), run);
    assert after == System(map[1 := StagedRow(Purchase(1))], c);
    NoOps(after.table);
    assert 1 in after.table;
    assert !ConvergesFor(k, NO_BOOK, map[], map[], c, run, false);
  }

  // A pending purchase and its settlement at zero, in one page.
  function Settlement(): Delta {
    Delta([Purchase(1), SettledAtZero(2, 1)], [], [])
  }

  function StagedRow(e: Entry): Row {
    Row(e.predecessor, e.bankAccount, e.date, e.description, e.num, e.denom, e.pending, false)
  }

  lemma NoOps(t: Table)
    ensures ExecAll(NO_BOOK, t, []) == t
  {
  }

  lemma OneOp(b: Book, t: Table, op: Op)
    ensures ExecAll(b, t, [op]) == Exec(b, t, op)
  {
    assert [op][..0] == [];
  }

  lemma StagingOps(e: Entry)
    requires e.num != 0
    ensures Ops(Delta([e], [], [])) == [Stage(e)]
    ensures e.predecessor.None? ==> ExecAll(NO_BOOK, map[], [Stage(e)]) == map[e.id := StagedRow(e)]
  {
    assert [e][..0] == [];
    assert Entries(Delta([e], [], [])) == [e];
    assert Stages([e]) == [Stage(e)] && Settles([e]) == [];
    OneOp(NO_BOOK, map[], Stage(e));
  }

  lemma SettlementOps()
    ensures var p, z := Stage(Purchase(1)), Settle(SettledAtZero(2, 1));
            && Ops(Settlement()) == [p, z] && [p, z][..1] == [p]
            && ExecAll(NO_BOOK, map[], [p, z]) == map[]
            && ExecAll(NO_BOOK, map[], [p]) == map[1 := StagedRow(Purchase(1))]
  {
    var p, z := Purchase(1), SettledAtZero(2, 1);
    StagingOps(p);
    assert Entries(Settlement()) == [p, z] && [p, z][..1] == [p] && [p][..0] == [];
    assert Stages([p, z]) == [Stage(p)];
    assert Settles([p, z]) == [Settle(z)];
    assert Ops(Settlement()) == [Stage(p), Settle(z)];
    assert [Stage(p), Settle(z)][..1] == [Stage(p)];
  }

  // A run that starts ahead of the cursor and persists skips what lies between.
  lemma PersistingAheadDiverges(start: nat, c: nat)
    requires start > c
    ensures !AlwaysConverges(start, c, true)
  {
    hide PageOps, ExecAll, Ops;
    var d := Delta([Purchase(1)], [], []);
    var k := Feed(OnePage(start, c, d), map[], map[1 := 0]);
    StagingOps(Purchase(1));
    OnePageOps(start, c, d, 0, start);
    OnePageOps(start, c, d, c, start);
    OnePageOps(start, c, d, start, start);
    NoOps(map[]);
    assert Converging(k, NO_BOOK, map[], System(map[], c));
    var run := Run(start, 1);
    assert Step(k, NO_BOOK, System(map[], c), run) == System(map[], start);
    assert 1 in InOrder(k, NO_BOOK, map[]);
    assert !ConvergesFor(k, NO_BOOK, map[], map[], c, run, true);
  }

  // Exactly when replays converge, in terms of the two cursors a run can compare.
  lemma ConvergesIffSafe(start: nat, c: nat, persists: bool)
    ensures AlwaysConverges(start, c, persists) <==> (if persists then start <= c else start >= c)
  {
    if persists && start > c {
      PersistingAheadDiverges(start, c);
    } else if !persists && start < c {
      FailingBehindDiverges(start, c);
    } else {
      forall k, b, t0, t, budget: nat
        ensures ConvergesFor(k, b, t0, t, c, Run(start, budget), persists)
      {
        var run := Run(start, budget);
        if FeedOk(k) && TableOk(k, t0) && start <= |k.pages|
          && Converging(k, b, t0, System(t, c)) && (Persists(k, run) <==> persists) {
          SafeRunKeepsConverging(k, b, t0, System(t, c), run);
        }
      }
    }
  }

  // Before a run nobody knows how far it will get: it is safe however it ends
  // exactly when it starts from the stored cursor.
  lemma AnyEndConvergesIffCurrent(start: nat, c: nat)
    ensures (forall persists :: AlwaysConverges(start, c, persists)) <==> start == c
  {
    hide AlwaysConverges;
    ConvergesIffSafe(start, c, true);
    ConvergesIffSafe(start, c, false);
    forall persists | start == c
      ensures AlwaysConverges(start, c, persists)
    {
      ConvergesIffSafe(start, c, persists);
    }
  }

  lemma StepAllSnoc(k: Feed, b: Book, y: System, runs: seq<Run>, run: Run)
    requires run.start <= |k.pages| && forall r <- runs :: r.start <= |k.pages|
    ensures StepAll(k, b, y, runs + [run]) == Step(k, b, StepAll(k, b, y, runs), run)
  {
    assert (runs + [run])[..|runs|] == runs;
  }

  // Both failures happen in histories whose every start is a cursor that was
  // once stored. First: a completed run, then a retry from the old cursor that
  // dies half way through the page.
  lemma StaleRetryLeavesAPhantom()
    ensures var k := Feed([Settlement()], map[2 := 1], map[1 := 0, 2 := 0]);
            var y := StepAll(k, NO_BOOK, System(map[], 0), [] + [Run(0, 3)] + [Run(0, 1)]);
            && FeedOk(k) && y.cursor == |k.pages|
            && 1 in y.table && InOrder(k, NO_BOOK, map[]) == map[]
  {
    hide PageOps, ExecAll, Ops;
    var k := Feed([Settlement()], map[2 := 1], map[1 := 0, 2 := 0]);
    SettlementOps();
    SinglePage(k.pages, 0);
    StepAllSnoc(k, NO_BOOK, System(map[], 0), [], Run(0, 3));
    StepAllSnoc(k, NO_BOOK, System(map[], 0), [] + [Run(0, 3)], Run(0, 1));
    assert Step(k, NO_BOOK, System(map[], 0), Run(0, 3)) == System(map[], 1);
  }

  // Second: four completed runs; the third replays the first page and stores
  // an older cursor, the fourth had already read the newer one.
  lemma StaleReaderSkipsARemoval()
    ensures var k := RemovedLater();
            var y := StepAll(k, NO_BOOK, System(map[], 0), [] + [Run(0, 2)] + [Run(3, 2)] + [Run(0, 2)] + [Run(4, 1)]);
            && FeedOk(k) && y.cursor == |k.pages|
            && 1 in y.table && 1 !in InOrder(k, NO_BOOK, map[])
  {
    hide PageOps, ExecAll, Ops, Step;
    var k, y0 := RemovedLater(), System(map[], 0);
    RemovedLaterSteps();
    StepAllSnoc(k, NO_BOOK, y0, [], Run(0, 2));
    StepAllSnoc(k, NO_BOOK, y0, [] + [Run(0, 2)], Run(3, 2));
    StepAllSnoc(k, NO_BOOK, y0, [] + [Run(0, 2)] + [Run(3, 2)], Run(0, 2));
    StepAllSnoc(k, NO_BOOK, y0, [] + [Run(0, 2)] + [Run(3, 2)] + [Run(0, 2)], Run(4, 1));
  }

  lemma RemovedLaterSteps()
    ensures var k, staged := RemovedLater(), map[1 := StagedRow(Purchase(1))];
            && FeedOk(k) && InOrder(k, NO_BOOK, map[]) == map[]
            && Step(k, NO_BOOK, System(map[], 0), Run(0, 2)) == System(staged, 3)
            && Step(k, NO_BOOK, System(staged, 3), Run(3, 2)) == System(map[], 4)
            && Step(k, NO_BOOK, System(map[], 4), Run(0, 2)) == System(staged, 3)
            && Step(k, NO_BOOK, System(staged, 3), Run(4, 1)) == System(staged, 4)
  {
    hide PageOps, ExecAll, Ops;
    var k := RemovedLater();
    RemovedLaterOps();
    var add, drop := Stage(Purchase(1)), Remove([1]);
    var staged: Table := map[1 := StagedRow(Purchase(1))];
    StagingOps(Purchase(1));
    OneOp(NO_BOOK, staged, drop);
    NoOps(staged);
    ExecAllConcat(NO_BOOK, map[], [add], [drop]);
    assert Exec(NO_BOOK, staged, drop) == map[];
  }

  function RemovedLater(): Feed {
    Feed([Delta([Purchase(1)], [], []), NO_DELTA, NO_DELTA, Delta([], [], [1])], map[], map[1 := 0])
  }

  lemma RemovedLaterOps()
    ensures var pages := RemovedLater().pages;
            var add, drop := Stage(Purchase(1)), Remove([1]);
            && PageOps(pages, 0, 3) == [add] && PageOps(pages, 3, 4) == [drop]
            && PageOps(pages, 0, 4) == [add] + [drop] && PageOps(pages, 4, 4) == []
  {
    hide PageOps;
    var pages := RemovedLater().pages;
    StagingOps(Purchase(1));
    assert Ops(pages[3]) == [Remove([1])];
    EmptyPages(pages, 1, 3);
    EmptyPages(pages, 4, 4);
    SinglePage(pages, 0);
    SinglePage(pages, 3);
    PageOpsSplit(pages, 0, 1, 3);
    PageOpsSplit(pages, 0, 3, 4);
    assert Ops(pages[0]) == [Stage(Purchase(1))];
  }
}
