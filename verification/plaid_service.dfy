/**
 PlaidService as the object it is (backend/internal/plaid/service.go), for one
 book and one bank connection: each method is the loop the service runs,
 proved to do to the tables what the specification functions say.
 */
module PlaidService {
  import opened Wrappers
  import opened Numeric
  import opened Ledger
  import opened Staging
  import opened Importing
  import Convergence
  import Timeline
  import TransactionService

  // ------------------------------------------------------------ pages, statement by statement

  lemma StagesStep(es: seq<Entry>, i: nat)
    requires i < |es|
    ensures Stages(es[..i + 1]) == Stages(es[..i]) + if es[i].num != 0 then [Stage(es[i])] else []
    ensures Settles(es[..i + 1]) == Settles(es[..i]) + if es[i].num == 0 then [Settle(es[i])] else []
  {
    assert es[..i + 1][..i] == es[..i];
  }

  lemma {:induction false} StagesPrefix(es: seq<Entry>, i: nat)
    requires i <= |es|
    ensures Stages(es[..i]) <= Stages(es)
    ensures i < |es| && es[i].num != 0 ==> |Stages(es[..i])| < |Stages(es)|
    decreases |es| - i
  {
    if i < |es| {
      StagesStep(es, i);
      StagesPrefix(es, i + 1);
    } else {
      assert es[..i] == es;
    }
  }

  function SettleEach(zs: seq<Entry>): (ops: seq<Op>)
    ensures |ops| == |zs|
  {
    seq(|zs|, i requires 0 <= i < |zs| => Settle(zs[i]))
  }

  // done is what has been executed of ops when the database is lost after n.
  predicate Reached(done: seq<Op>, ops: seq<Op>) {
    done <= ops
  }

  lemma FirstPassPart(delta: Delta, i: nat)
    requires i <= |Entries(delta)|
    ensures Reached(Stages(Entries(delta)[..i]), Ops(delta))
    ensures i < |Entries(delta)| && Entries(delta)[i].num != 0 ==> |Stages(Entries(delta)[..i])| < |Ops(delta)|
  {
    hide Stages, Settles, Entries;
    StagesPrefix(Entries(delta), i);
  }

  lemma SecondPassPart(delta: Delta, i: nat)
    requires i <= |Settles(Entries(delta))|
    ensures Reached(Stages(Entries(delta)) + Settles(Entries(delta))[..i], Ops(delta))
    ensures i < |Settles(Entries(delta))| ==> |Stages(Entries(delta))| + i < |Ops(delta)|
  {
    hide Stages, Settles, Entries;
    var a, z, r := Stages(Entries(delta)), Settles(Entries(delta)), Removes(delta.removed);
    assert a + z + r == a + z[..i] + (z[i..] + r);
  }

  lemma LastPart(delta: Delta)
    ensures Ops(delta) == Stages(Entries(delta)) + Settles(Entries(delta))
      + if |delta.removed| > 0 then [Remove(delta.removed)] else []
  {
    hide Stages, Settles, Entries;
  }

  lemma Cut(b: Book, t: Table, done: seq<Op>, ops: seq<Op>, n: nat)
    requires Reached(done, ops) && |done| == n
    ensures ExecUpTo(b, t, ops, n) == ExecAll(b, t, done)
  {
    assert ops[..n] == done;
    assert n == |ops| ==> done == ops;
  }

  // What a call that may lose the database after n statements does.
  function ExecUpTo(b: Book, t: Table, ops: seq<Op>, n: nat): Table {
    ExecAll(b, t, if n < |ops| then ops[..n] else ops)
  }

  // ------------------------------------------------------------ linking

  datatype Mapping = Mapping(bankAccount: nat, account: Guid)

  datatype LinkError = ItemNotFound | DuplicateLink | NoAccount | AlreadyLinked

  function CheckLink(b: Book, item: Guid, m: Mapping): Option<LinkError> {
    if exists a <- b.books.accounts :: a != m.account && LinkedTo(b, a, m.bankAccount) then Some(DuplicateLink)
    else if m.account !in b.books.accounts || b.books.accounts[m.account].book != b.guid then Some(NoAccount)
    else
      var link := b.books.accounts[m.account].link;
      if link.Some? && link.value != Link(item, m.bankAccount) then Some(AlreadyLinked) else None
  }

  function WithLink(b: Book, item: Guid, m: Mapping): Book
    requires m.account in b.books.accounts
  {
    var account := b.books.accounts[m.account].(link := Some(Link(item, m.bankAccount)));
    b.(books := b.books.(accounts := b.books.accounts[m.account := account]))
  }

  // All the mappings, or none of them.
  function LinkAll(b: Book, item: Guid, ms: seq<Mapping>): Result<Book, LinkError> {
    if |ms| == 0 then Ok(b)
    else match LinkAll(b, item, ms[..|ms| - 1])
      case Err(e) => Err(e)
      case Ok(b') =>
        var m := ms[|ms| - 1];
        match CheckLink(b', item, m)
        case Some(e) => Err(e)
        case None => Ok(WithLink(b', item, m))
  }

  lemma LinkStep(b: Book, item: Guid, ms: seq<Mapping>, i: nat)
    requires i < |ms|
    ensures LinkAll(b, item, ms[..i + 1]) ==
      match LinkAll(b, item, ms[..i])
      case Err(e) => Err(e)
      case Ok(b') =>
        match CheckLink(b', item, ms[i])
        case Some(e) => Err(e)
        case None => Ok(WithLink(b', item, ms[i]))
  {
    assert ms[..i + 1][..i] == ms[..i];
  }

  lemma {:induction false} LinkErrorIsFinal(b: Book, item: Guid, ms: seq<Mapping>, i: nat)
    requires i <= |ms| && LinkAll(b, item, ms[..i]).Err?
    ensures LinkAll(b, item, ms) == LinkAll(b, item, ms[..i])
    decreases |ms| - i
  {
    if i < |ms| {
      LinkStep(b, item, ms, i);
      LinkErrorIsFinal(b, item, ms, i + 1);
    } else {
      assert ms[..i] == ms;
    }
  }

  // Linking keeps the 1:1 rule, replaces no link by another, touches only
  // links, and afterwards every mapping asked for is there.
  lemma {:induction false} LinkingIsOneToOne(b: Book, item: Guid, ms: seq<Mapping>)
    requires LinksOk(b) && LinkAll(b, item, ms).Ok?
    ensures var b' := LinkAll(b, item, ms).value;
      && LinksOk(b')
      && b' == b.(books := b.books.(accounts := b'.books.accounts))
      && b'.books.accounts.Keys == b.books.accounts.Keys
      && (forall a <- b.books.accounts ::
           && b'.books.accounts[a] == b.books.accounts[a].(link := b'.books.accounts[a].link)
           && (b.books.accounts[a].link.Some? ==> b'.books.accounts[a].link == b.books.accounts[a].link))
      && (forall m <- ms :: LinkedByItem(b', item, m.account, m.bankAccount))
  {
    if |ms| != 0 {
      var init, m := ms[..|ms| - 1], ms[|ms| - 1];
      LinkingIsOneToOne(b, item, init);
      var mid := LinkAll(b, item, init).value;
      var b' := WithLink(mid, item, m);
      forall a, a', bankAccount: nat | LinkedTo(b', a, bankAccount) && LinkedTo(b', a', bankAccount)
        ensures a == a'
      {
        assert a != m.account ==> LinkedTo(mid, a, bankAccount);
        assert a' != m.account ==> LinkedTo(mid, a', bankAccount);
      }
      forall n <- ms
        ensures LinkedByItem(b', item, n.account, n.bankAccount)
      {
        if n in init {
          assert LinkedByItem(mid, item, n.account, n.bankAccount);
        }
      }
    }
  }

  // One mapping is accepted exactly when its account is of the book, carries no
  // link or this very one, and no other account of the book carries the bank account.
  lemma LinkSucceedsIff(b: Book, item: Guid, m: Mapping)
    ensures LinkAll(b, item, [m]).Ok? <==>
      && m.account in b.books.accounts && b.books.accounts[m.account].book == b.guid
      && (b.books.accounts[m.account].link == None
          || b.books.accounts[m.account].link == Some(Link(item, m.bankAccount)))
      && (forall a <- b.books.accounts :: a != m.account && b.books.accounts[a].book == b.guid ==>
           b.books.accounts[a].link.None? || b.books.accounts[a].link.value.bankAccount != m.bankAccount)
  {
    assert [m][..0] == [];
    assert LinkAll(b, item, [m][..0]) == Ok(b);
    assert forall a <- b.books.accounts ::
      LinkedTo(b, a, m.bankAccount) || b.books.accounts[a].book != b.guid
      || b.books.accounts[a].link.None? || b.books.accounts[a].link.value.bankAccount != m.bankAccount;
  }

  // Why one is refused: another account has the bank account; else, the account is
  // not of the book; else, it has another link.
  lemma LinkErrorIs(b: Book, item: Guid, m: Mapping)
    ensures var taken := exists a <- b.books.accounts ::
        && a != m.account && b.books.accounts[a].book == b.guid
        && b.books.accounts[a].link.Some? && b.books.accounts[a].link.value.bankAccount == m.bankAccount;
      var there := m.account in b.books.accounts && b.books.accounts[m.account].book == b.guid;
      && (taken ==> LinkAll(b, item, [m]) == Err(DuplicateLink))
      && (!taken && !there ==> LinkAll(b, item, [m]) == Err(NoAccount))
      && (!taken && there && b.books.accounts[m.account].link.Some?
          && b.books.accounts[m.account].link != Some(Link(item, m.bankAccount)) ==>
            LinkAll(b, item, [m]) == Err(AlreadyLinked))
  {
    assert [m][..0] == [];
    assert LinkAll(b, item, [m][..0]) == Ok(b);
    assert forall a <- b.books.accounts ::
      LinkedTo(b, a, m.bankAccount) || b.books.accounts[a].book != b.guid
      || b.books.accounts[a].link.None? || b.books.accounts[a].link.value.bankAccount != m.bankAccount;
  }

  // Mappings that are all in place are accepted again, and change nothing.
  lemma {:induction false} LinkingInPlaceIsIdle(b: Book, item: Guid, ms: seq<Mapping>)
    requires LinksOk(b) && forall m <- ms :: LinkedByItem(b, item, m.account, m.bankAccount)
    ensures LinkAll(b, item, ms) == Ok(b)
  {
    if |ms| != 0 {
      var m := ms[|ms| - 1];
      LinkingInPlaceIsIdle(b, item, ms[..|ms| - 1]);
      assert m in ms && LinkedByItem(b, item, m.account, m.bankAccount);
      assert b.books.accounts[m.account].link == Some(Link(item, m.bankAccount));
      assert WithLink(b, item, m).books.accounts == b.books.accounts;
    }
  }

  // So linking the same mappings again changes nothing.
  lemma LinkingAgainIsIdle(b: Book, item: Guid, ms: seq<Mapping>)
    requires LinksOk(b) && LinkAll(b, item, ms).Ok?
    ensures LinkAll(LinkAll(b, item, ms).value, item, ms) == LinkAll(b, item, ms)
  {
    hide LinkAll, LinkedByItem, LinksOk;
    LinkingIsOneToOne(b, item, ms);
    LinkingInPlaceIsIdle(LinkAll(b, item, ms).value, item, ms);
  }

  // ------------------------------------------------------------ suggestions

  // The rows the staging query returns: exactly the selected ones, by date and id.
  ghost predicate IsQuery(b: Book, t: Table, importPending: bool, ids: seq<Id>) {
    && (forall id :: id in ids <==> Selected(b, t, importPending, id))
    && (forall i, j :: 0 <= i < j < |ids| ==> ids[i] != ids[j])
    && (forall id <- ids :: id in t)
    && (forall i, j :: 0 <= i < j < |ids| ==> Before(t, ids[i], ids[j]))
  }

  predicate Before(t: Table, x: Id, y: Id)
    requires x in t && y in t
  {
    t[x].date < t[y].date || (t[x].date == t[y].date && x < y)
  }

  // The order leaves the query exactly one answer.
  lemma QueryHasOneAnswer(b: Book, t: Table, importPending: bool)
    ensures exists ids :: IsQuery(b, t, importPending, ids)
    ensures forall ids, ids' :: IsQuery(b, t, importPending, ids) && IsQuery(b, t, importPending, ids') ==> ids == ids'
  {
    hide Selected;
    assert forall id | Selected(b, t, importPending, id) :: id in t by {
      SelectedIsStaged(b, t, importPending);
    }
    var ids := Sorted(t, set id <- t | Selected(b, t, importPending, id));
    assert IsQuery(b, t, importPending, ids);
    forall ids, ids' | IsQuery(b, t, importPending, ids) && IsQuery(b, t, importPending, ids')
      ensures ids == ids'
    {
      OneOrder(t, ids, ids');
    }
  }

  lemma SelectedIsStaged(b: Book, t: Table, importPending: bool)
    ensures forall id :: Selected(b, t, importPending, id) ==> id in t
  {
  }

  ghost predicate SameIds(ids: seq<Id>, ids': seq<Id>) {
    forall id :: id in ids <==> id in ids'
  }

  predicate InOrder(t: Table, ids: seq<Id>) {
    && (forall id <- ids :: id in t)
    && (forall i, j :: 0 <= i < j < |ids| ==> Before(t, ids[i], ids[j]))
  }

  lemma {:induction false} Sorted(t: Table, xs: set<Id>) returns (ids: seq<Id>)
    requires xs <= t.Keys
    ensures InOrder(t, ids) && forall id :: id in ids <==> id in xs
  {
    if xs == {} {
      ids := [];
    } else {
      var x := LastOf(t, xs);
      var init := Sorted(t, xs - {x});
      ids := init + [x];
    }
  }

  lemma {:induction false} LastOf(t: Table, xs: set<Id>) returns (x: Id)
    requires xs != {} && xs <= t.Keys
    ensures x in xs && forall y <- xs :: y == x || Before(t, y, x)
  {
    var some :| some in xs;
    if xs == {some} {
      x := some;
    } else {
      var last := LastOf(t, xs - {some});
      x := if Before(t, some, last) then last else some;
      assert forall y <- xs :: y == some || y in xs - {some};
    }
  }

  lemma {:induction false} OneOrder(t: Table, ids: seq<Id>, ids': seq<Id>)
    requires SameIds(ids, ids') && InOrder(t, ids) && InOrder(t, ids')
    ensures ids == ids'
    decreases |ids|
  {
    assert |ids| > 0 ==> ids[0] in ids;
    assert |ids'| > 0 ==> ids'[0] in ids';
    if |ids| > 0 {
      var init, last := WithoutLast(t, ids);
      var init', last' := WithoutLast(t, ids');
      assert last in ids' && last' in ids;
      OneOrder(t, init, init');
    }
  }

  lemma WithoutLast(t: Table, ids: seq<Id>) returns (init: seq<Id>, last: Id)
    requires InOrder(t, ids) && |ids| > 0
    ensures ids == init + [last] && InOrder(t, init) && last in t
    ensures forall id :: id in init <==> id in ids && id != last
    ensures forall id <- ids :: id == last || (id in t && Before(t, id, last))
  {
    init, last := ids[..|ids| - 1], ids[|ids| - 1];
    assert last in ids;
  }

  datatype Suggestion = Suggestion(
    id: Id, date: int, description: string, num: int, denom: int, account: Guid)

  function SuggestionFor(t: Table, id: Id, account: Guid): Suggestion
    requires id in t
  {
    Suggestion(id, t[id].date, t[id].description, t[id].num, t[id].denom, account)
  }

  // The suggestion shows the staged row, on the account its bank account is linked to.
  predicate Describes(b: Book, t: Table, item: Guid, s: Suggestion) {
    && s.id in t
    && s.date == t[s.id].date && s.description == t[s.id].description
    && s.num == t[s.id].num && s.denom == t[s.id].denom
    && LinkedByItem(b, item, s.account, t[s.id].bankAccount)
  }

  // What Sync shows is what Import posts: the amount shown leaves the account
  // shown for the category, on the date and under the description shown.
  lemma ImportPostsWhatIsShown(
    y: Imports, item: Guid, importPending: bool, s: Suggestion, category: Guid, pick: Option<Guid>)
    requires Suggested(y.book, y.staged, item, importPending, s.id) && Describes(y.book, y.staged, item, s)
    requires LinksOk(y.book) && Importable(y.staged[s.id])
    requires CheckAccount(y.book.books, y.book.guid, category).None?
    requires !y.book.books.accounts[s.account].placeholder
    ensures var (y', outcome) := ImportRow(y, s.id, Some(category), Some(s.account), pick);
      && outcome == Posted
      && var txn := Txn(y.book.guid, Some(s.id), s.date, s.description, [
           Split(s.account, -s.num, s.denom, -s.num, s.denom, Cleared),
           Split(category, s.num, s.denom, s.num, s.denom, Cleared)]);
      y'.book.books.txns == y.book.books.txns[y.book.books.next := txn]
  {
    hide Selected, Create, ImportRow;
    assert forall a <- y.book.books.accounts ::
      LinkedTo(y.book, a, y.staged[s.id].bankAccount) ==> a == s.account;
    SuggestionImports(y, item, importPending, s.id, category, Some(s.account), pick);
  }

  predicate Earlier(t: Table, s: Suggestion, u: Suggestion) {
    s.id in t && u.id in t && Before(t, s.id, u.id)
  }

  predicate IsLinked(b: Book, item: Guid, bankAccount: nat) {
    exists a <- b.books.accounts :: LinkedByItem(b, item, a, bankAccount)
  }

  // ------------------------------------------------------------ imports

  function CountPosted(outcomes: seq<Outcome>): nat {
    if |outcomes| == 0 then 0
    else CountPosted(outcomes[..|outcomes| - 1]) + if outcomes[|outcomes| - 1].Posted? then 1 else 0
  }

  function FailedIds(rows: seq<Choice>, outcomes: seq<Outcome>): seq<Id>
    requires |outcomes| <= |rows|
  {
    if |outcomes| == 0 then []
    else
      var n := |outcomes| - 1;
      FailedIds(rows, outcomes[..n]) + if outcomes[n].Failed? then [rows[n].id] else []
  }

  predicate IsPosted(outcomes: seq<Outcome>, i: nat) {
    i < |outcomes| && outcomes[i].Posted?
  }

  // The count is the number of rows that were posted.
  lemma {:induction false} CountIsPosted(outcomes: seq<Outcome>)
    ensures CountPosted(outcomes) == |set i | 0 <= i < |outcomes| && IsPosted(outcomes, i)|
  {
    var now := set i | 0 <= i < |outcomes| && IsPosted(outcomes, i);
    if |outcomes| == 0 {
      assert now == {};
    } else {
      var n := |outcomes| - 1;
      CountIsPosted(outcomes[..n]);
      var before := set i | 0 <= i < n && IsPosted(outcomes[..n], i);
      assert now == if outcomes[n].Posted? then before + {n} else before;
    }
  }

  // The failed ids are those of the rows that failed.
  lemma {:induction false} FailedAre(rows: seq<Choice>, outcomes: seq<Outcome>, id: Id)
    requires |outcomes| <= |rows|
    ensures id in FailedIds(rows, outcomes) <==>
      exists i :: 0 <= i < |outcomes| && outcomes[i].Failed? && rows[i].id == id
  {
    if |outcomes| != 0 {
      FailedAre(rows, outcomes[..|outcomes| - 1], id);
    }
  }

  ghost predicate ImportsBy(y: Imports, row: Choice, y': Imports, outcome: Outcome) {
    exists bank, pick ::
      && (row.id in y.staged ==> IsBankLookup(y.book, y.staged[row.id].bankAccount, bank))
      && IsImbalancePick(y.book.books, y.book.guid, pick)
      && ImportRow(y, row.id, row.category, bank, pick) == (y', outcome)
  }

  // ------------------------------------------------------------ runs

  lemma NothingYet(b: Book, t: Table)
    ensures Stages([]) == [] && Settles([]) == SettleEach([]) && ExecAll(b, t, []) == t
  {
  }

  lemma Whole(b: Book, t: Table, ops: seq<Op>, n: nat)
    requires n >= |ops|
    ensures ExecUpTo(b, t, ops, n) == ExecAll(b, t, ops)
  {
  }

  lemma SettleIs(b: Book, t: Table, e: Entry)
    ensures Exec(b, t, Settle(e))
      == DeleteUndismissed(t, if e.predecessor.Some? then {e.id} + {e.predecessor.value} else {e.id})
  {
    assert Both(e) == if e.predecessor.Some? then {e.id} + {e.predecessor.value} else {e.id};
  }

  lemma RemoveIs(b: Book, t: Table, ids: seq<Id>)
    ensures Exec(b, t, Remove(ids)) == DeleteUndismissed(t, set id | id in ids)
  {
  }

  lemma NoPageYet(b: Book, t: Table, pages: seq<Delta>, start: nat)
    requires start <= |pages|
    ensures PageOps(pages, start, start) == [] && ExecAll(b, t, []) == t
  {
  }

  lemma EmptyDelta(b: Book, t: Table, n: nat)
    ensures Ops(Convergence.NO_DELTA) == [] && ExecUpTo(b, t, [], n) == t
  {
  }

  lemma NextPage(pages: seq<Delta>, start: nat, at: nat)
    requires start <= at < |pages|
    ensures PageOps(pages, start, at + 1) == PageOps(pages, start, at) + Ops(pages[at])
  {
  }

  lemma PageDone(b: Book, t: Table, pages: seq<Delta>, start: nat, at: nat, n: nat)
    requires start <= at < |pages| && n >= |Ops(pages[at])|
    ensures |PageOps(pages, start, at + 1)| == |PageOps(pages, start, at)| + |Ops(pages[at])|
    ensures ExecUpTo(b, ExecAll(b, t, PageOps(pages, start, at)), Ops(pages[at]), n)
      == ExecAll(b, t, PageOps(pages, start, at + 1))
  {
    hide Ops;
    NextPage(pages, start, at);
    ExecAllConcat(b, t, PageOps(pages, start, at), Ops(pages[at]));
  }

  // A run that stops after n statements, done being the statements so far.
  lemma Stopped(b: Book, y: Convergence.System, pages: seq<Delta>, start: nat, n: nat, done: seq<Op>)
    requires start <= |pages| && n <= |RunOps(pages, start)| && RunOps(pages, start)[..n] == done
    ensures var k, run := Convergence.Feed(pages, map[], map[]), Convergence.Run(start, n);
      && Convergence.Step(k, b, y, run) == Convergence.System(ExecAll(b, y.table, done), y.cursor)
      && !Convergence.Persists(k, run)
  {
    hide RunOps, ExecAll;
    assert n == |RunOps(pages, start)| ==> RunOps(pages, start) == done;
  }

  // A run that stops after whole pages.
  lemma FailedBetween(b: Book, y: Convergence.System, pages: seq<Delta>, start: nat, at: nat)
    requires start <= |pages| && start <= at <= Reach(pages, start)
    ensures var k := Convergence.Feed(pages, map[], map[]);
      var done := PageOps(pages, start, at);
      && Convergence.Step(k, b, y, Convergence.Run(start, |done|)) ==
        Convergence.System(ExecAll(b, y.table, done), y.cursor)
      && !Convergence.Persists(k, Convergence.Run(start, |done|))
  {
    hide PageOps;
    PageOpsSplit(pages, start, at, Reach(pages, start));
    Stopped(b, y, pages, start, |PageOps(pages, start, at)|, PageOps(pages, start, at));
  }

  // A run that stops within the page at at.
  lemma FailedWithin(b: Book, y: Convergence.System, pages: seq<Delta>, start: nat, at: nat, left: nat)
    requires start <= |pages| && start <= at < Reach(pages, start) && left < |Ops(pages[at])|
    ensures var k := Convergence.Feed(pages, map[], map[]);
      var run := Convergence.Run(start, |PageOps(pages, start, at)| + left);
      && Convergence.Step(k, b, y, run) == Convergence.System(
        ExecUpTo(b, ExecAll(b, y.table, PageOps(pages, start, at)), Ops(pages[at]), left), y.cursor)
      && !Convergence.Persists(k, run)
  {
    hide Ops, PageOps, ExecAll;
    var before, part := PageOps(pages, start, at), Ops(pages[at])[..left];
    PageOpsSplit(pages, start, at + 1, Reach(pages, start));
    NextPage(pages, start, at);
    ExecAllConcat(b, y.table, before, part);
    Stopped(b, y, pages, start, |before| + left, before + part);
  }

  // A run that went through all its pages: the cursor write is the last statement.
  lemma Ended(b: Book, y: Convergence.System, pages: seq<Delta>, start: nat, n: nat)
    requires start <= |pages|
    ensures var k, run := Convergence.Feed(pages, map[], map[]), Convergence.Run(start, n);
      var ops := PageOps(pages, start, Reach(pages, start));
      && (Convergence.Persists(k, run) <==> n > |ops|)
      && (n >= |ops| ==> Convergence.Step(k, b, y, run) == Convergence.System(
            ExecAll(b, y.table, ops), if n > |ops| then Reach(pages, start) else y.cursor))
  {
    hide PageOps, ExecAll;
  }

  predicate OfItem(b: Book, item: Guid, a: Guid) {
    && a in b.books.accounts && b.books.accounts[a].book == b.guid
    && b.books.accounts[a].link.Some? && b.books.accounts[a].link.value.item == item
  }

  class PlaidService {
    const book: Guid
    const item: Guid
    const txSvc: TransactionService.TransactionService
    var staged: Table
    var cursor: nat
    var importPending: bool

    constructor (book: Guid, item: Guid, txSvc: TransactionService.TransactionService)
      ensures this.book == book && this.item == item && this.txSvc == txSvc
      ensures staged == map[] && cursor == 0 && !importPending
    {
      this.book, this.item, this.txSvc := book, item, txSvc;
      staged, cursor, importPending := map[], 0, false;
    }

    function TheBook(): Book
      reads txSvc
    {
      Book(txSvc.Tables(), book)
    }

    // Staging one page. budget is how many statements reach the database
    // before it fails; left is what remains of it.
    method StageDelta(delta: Delta, budget: nat) returns (ok: bool, left: nat)
      modifies this`staged
      ensures staged == ExecUpTo(TheBook(), old(staged), Ops(delta), budget)
      ensures ok <==> budget >= |Ops(delta)|
      ensures ok ==> left == budget - |Ops(delta)|
    {
      hide Exec, ExecAll, ExecUpTo, Stages, Settles, Ops, Reached, DeleteUndismissed;
      var b := TheBook();
      var all := delta.added + delta.modified;
      assert all == Entries(delta);
      var zeroed: seq<Entry> := [];
      left := budget;
      ghost var done: seq<Op> := [];
      var i := 0;
      NothingYet(b, staged);
      while i < |all|
        invariant 0 <= i <= |all|
        invariant done == Stages(all[..i]) && Settles(all[..i]) == SettleEach(zeroed)
        invariant budget == left + |done|
        invariant staged == ExecAll(b, old(staged), done)
      {
        var e := all[i];
        StagesStep(all, i);
        if e.num == 0 {
          assert SettleEach(zeroed + [e]) == SettleEach(zeroed) + [Settle(e)];
          zeroed := zeroed + [e];
        } else {
          FirstPassPart(delta, i);
          if left == 0 {
            Cut(b, old(staged), done, Ops(delta), budget);
            return false, 0;
          }
          StageEntry(e);
          ExecAllSnoc(b, old(staged), done, Stage(e));
          done := done + [Stage(e)];
          left := left - 1;
        }
        i := i + 1;
      }
      assert all[..i] == all;
      ok, left := SettlePage(delta, zeroed, budget, left, old(staged));
    }

    // The rest of the page: zero amounts, then removals. t0 is the table before
    // the page, of which the first pass has been executed.
    method SettlePage(delta: Delta, zeroed: seq<Entry>, ghost budget: nat, left0: nat, ghost t0: Table)
      returns (ok: bool, left: nat)
      requires Settles(Entries(delta)) == SettleEach(zeroed)
      requires budget == left0 + |Stages(Entries(delta))|
      requires staged == ExecAll(TheBook(), t0, Stages(Entries(delta)))
      modifies this`staged
      ensures staged == ExecUpTo(TheBook(), t0, Ops(delta), budget)
      ensures ok <==> budget >= |Ops(delta)|
      ensures ok ==> left == budget - |Ops(delta)|
    {
      hide Exec, ExecAll, ExecUpTo, Stages, Settles, Ops, Reached, DeleteUndismissed, Both;
      var b := TheBook();
      left := left0;
      ghost var done := Stages(Entries(delta));
      var i := 0;
      while i < |zeroed|
        invariant 0 <= i <= |zeroed|
        invariant done == Stages(Entries(delta)) + SettleEach(zeroed)[..i]
        invariant budget == left + |done|
        invariant staged == ExecAll(b, t0, done)
      {
        var e := zeroed[i];
        SecondPassPart(delta, i);
        if left == 0 {
          Cut(b, t0, done, Ops(delta), budget);
          return false, 0;
        }
        var stale := {e.id};
        if e.predecessor.Some? {
          stale := stale + {e.predecessor.value};
        }
        SettleIs(b, staged, e);
        staged := DeleteUndismissed(staged, stale);
        ExecAllSnoc(b, t0, done, Settle(e));
        done := done + [Settle(e)];
        left := left - 1;
        i := i + 1;
      }
      LastPart(delta);
      SecondPassPart(delta, i);
      if |delta.removed| > 0 {
        if left == 0 {
          Cut(b, t0, done, Ops(delta), budget);
          return false, 0;
        }
        RemoveIs(b, staged, delta.removed);
        staged := DeleteUndismissed(staged, set id | id in delta.removed);
        ExecAllSnoc(b, t0, done, Remove(delta.removed));
        done := done + [Remove(delta.removed)];
        left := left - 1;
      }
      assert done == Ops(delta);
      Whole(b, t0, done, budget);
      ok := true;
    }

    // One non-zero entry: three reads decide between dropping and upserting.
    method StageEntry(e: Entry)
      modifies this`staged
      ensures staged == Exec(TheBook(), old(staged), Stage(e))
    {
      hide ValueMatches, HasPlaidId;
      var b := TheBook();
      var dismissed := false;
      if e.predecessor.Some? {
        var p := e.predecessor.value;
        var imported := Imported(b, p);
        if imported {
          var same := ValueMatches(b, p, e.bankAccount, e.num, e.denom);
          if same {
            staged := DeleteRows(staged, {p, e.id});
            assert Both(e) == {p, e.id};
            return;
          }
        }
        dismissed := p in staged && staged[p].dismissed;
      }
      staged := Upsert(staged, e, dismissed);
    }

    // fetchAndStage from a cursor that was read earlier. calls is how many
    // requests to the bank succeed; n is the number of statements that were
    // executed at most, which is the whole budget if the bank answers.
    method FetchAndStage(pages: seq<Delta>, start: nat, budget: nat, calls: nat)
      returns (ok: bool, hasMore: bool, ghost n: nat)
      requires start <= |pages|
      modifies this`staged, this`cursor
      ensures n <= budget && (calls >= MAX_SYNC_PAGES ==> n == budget)
      ensures var run := Convergence.Run(start, n);
              var k := Convergence.Feed(pages, map[], map[]);
              && Convergence.System(staged, cursor)
                == Convergence.Step(k, TheBook(), Convergence.System(old(staged), old(cursor)), run)
              && (ok <==> Convergence.Persists(k, run))
      ensures ok ==> (hasMore <==> cursor < |pages|)
    {
      hide Ops, ExecAll, ExecUpTo, RunOps, PageOps, Convergence.Step, Convergence.Persists;
      var b := TheBook();
      ghost var y := Convergence.System(staged, cursor);
      var at: nat, left: nat := start, budget;
      hasMore := false;
      n := budget;
      var i := 0;
      NoPageYet(b, staged, pages, start);
      while i < MAX_SYNC_PAGES
        invariant 0 <= i <= MAX_SYNC_PAGES
        invariant at == if start + i <= |pages| then start + i else |pages|
        invariant hasMore <==> i > 0 && at < |pages|
        invariant cursor == y.cursor && n == budget
        invariant budget == left + |PageOps(pages, start, at)|
        invariant staged == ExecAll(b, y.table, PageOps(pages, start, at))
      {
        if i >= calls {
          n := |PageOps(pages, start, at)|;
          FailedBetween(b, y, pages, start, at);
          return false, false, n;
        }
        if at < |pages| {
          var staging, rest := StageDelta(pages[at], left);
          if !staging {
            FailedWithin(b, y, pages, start, at, left);
            return false, false, n;
          }
          PageDone(b, y.table, pages, start, at, left);
          at, left := at + 1, rest;
        } else {
          EmptyDelta(b, staged, left);
          var staging, rest := StageDelta(Convergence.NO_DELTA, left);
        }
        hasMore := at < |pages|;
        i := i + 1;
        if !hasMore {
          break;
        }
      }
      assert at == Reach(pages, start);
      Ended(b, y, pages, start, n);
      if left == 0 {
        return false, false, n;
      }
      cursor := at;
      ok := true;
    }

    // Sync's answer: ids is what the staging query returned.
    method Suggest(ids: seq<Id>) returns (suggestions: seq<Suggestion>)
      requires LinksOk(TheBook()) && IsQuery(TheBook(), staged, importPending, ids)
      ensures forall id ::
        Suggested(TheBook(), staged, item, importPending, id) <==> exists s <- suggestions :: s.id == id
      ensures forall s <- suggestions :: Describes(TheBook(), staged, item, s)
      ensures forall i, j :: 0 <= i < j < |suggestions| ==>
        var s, u := suggestions[i], suggestions[j];
        s.date < u.date || (s.date == u.date && s.id < u.id)
    {
      hide ValueMatches, HasPlaidId, Imported;
      var b := TheBook();
      var linked := map a | a in b.books.accounts && OfItem(b, item, a) :: b.books.accounts[a].link.value.bankAccount;
      assert forall a, x :: LinkedByItem(b, item, a, x) ==> a in linked && linked[a] == x;
      suggestions := [];
      var i := 0;
      while i < |ids|
        invariant 0 <= i <= |ids|
        invariant forall s <- suggestions :: s.id in ids[..i] && Describes(b, staged, item, s)
        invariant forall j ::
          0 <= j < i && IsLinked(b, item, staged[ids[j]].bankAccount) ==> exists s <- suggestions :: s.id == ids[j]
        invariant forall j, k :: 0 <= j < k < |suggestions| ==> Earlier(staged, suggestions[j], suggestions[k])
      {
        var id := ids[i];
        ghost var earlier := suggestions;
        if a :| a in linked && linked[a] == staged[id].bankAccount {
          assert LinkedByItem(b, item, a, staged[id].bankAccount);
          suggestions := suggestions + [SuggestionFor(staged, id, a)];
          assert suggestions[|earlier|].id == id;
        } else {
          assert !IsLinked(b, item, staged[id].bankAccount);
        }
        i := i + 1;
      }
    }

    method DismissStaged(ids: set<Id>) returns (count: nat)
      modifies this`staged
      ensures staged == Timeline.Dismiss(old(staged), ids)
      ensures staged.Keys == old(staged).Keys
      ensures forall id <- staged :: staged[id] == old(staged)[id].(dismissed := old(staged)[id].dismissed || id in ids)
      ensures count == |old(staged).Keys * ids|
    {
      count := |staged.Keys * ids|;
      staged := map id | id in staged :: if id in ids then staged[id].(dismissed := true) else staged[id];
    }

    // All mappings in one database transaction.
    method LinkAccounts(itemExists: bool, mappings: seq<Mapping>, pending: bool) returns (r: Option<LinkError>)
      modifies this`importPending, txSvc`accounts
      ensures !itemExists ==> r == Some(ItemNotFound)
      ensures itemExists ==> match LinkAll(old(TheBook()), item, mappings)
        case Ok(b) => r == None && TheBook() == b && importPending == pending
        case Err(e) => r == Some(e)
      ensures r.Some? ==> TheBook() == old(TheBook()) && importPending == old(importPending)
    {
      hide LinkedTo;
      if !itemExists {
        return Some(ItemNotFound);
      }
      ghost var b0 := TheBook();
      var tx := TheBook();
      var i := 0;
      while i < |mappings|
        invariant 0 <= i <= |mappings|
        invariant LinkAll(b0, item, mappings[..i]) == Ok(tx)
        invariant tx == b0.(books := b0.books.(accounts := tx.books.accounts))
        invariant TheBook() == b0 && importPending == old(importPending)
      {
        var m := mappings[i];
        LinkStep(b0, item, mappings, i);
        if exists a <- tx.books.accounts :: a != m.account && LinkedTo(tx, a, m.bankAccount) {
          LinkErrorIsFinal(b0, item, mappings, i + 1);
          return Some(DuplicateLink);
        }
        if m.account !in tx.books.accounts || tx.books.accounts[m.account].book != tx.guid {
          LinkErrorIsFinal(b0, item, mappings, i + 1);
          return Some(NoAccount);
        }
        var existing := tx.books.accounts[m.account].link;
        if existing.Some? && (existing.value.item != item || existing.value.bankAccount != m.bankAccount) {
          LinkErrorIsFinal(b0, item, mappings, i + 1);
          return Some(AlreadyLinked);
        }
        tx := WithLink(tx, item, m);
        i := i + 1;
      }
      assert mappings[..i] == mappings;
      importPending := pending;
      txSvc.accounts := tx.books.accounts;
      r := None;
    }

    function Now(): Imports
      reads this, txSvc
    {
      Imports(TheBook(), staged)
    }

    // The loop over the rows of an import; trace and outcomes say what each did.
    method Import(rows: seq<Choice>)
      returns (imported: nat, failed: seq<Id>, ghost trace: seq<Imports>, ghost outcomes: seq<Outcome>)
      modifies this`staged, txSvc
      ensures |trace| == |rows| + 1 && |outcomes| == |rows|
      ensures trace[0] == old(Now()) && trace[|rows|] == Now()
      ensures forall i :: 0 <= i < |rows| ==> ImportsBy(trace[i], rows[i], trace[i + 1], outcomes[i])
      ensures imported == CountPosted(outcomes) && failed == FailedIds(rows, outcomes)
    {
      hide ImportsBy;
      imported, failed := 0, [];
      trace, outcomes := [Now()], [];
      var i := 0;
      while i < |rows|
        invariant 0 <= i <= |rows| && |outcomes| == i && |trace| == i + 1
        invariant trace[0] == old(Now()) && trace[i] == Now()
        invariant forall j :: 0 <= j < i ==> ImportsBy(trace[j], rows[j], trace[j + 1], outcomes[j])
        invariant imported == CountPosted(outcomes) && failed == FailedIds(rows, outcomes)
      {
        var outcome := ImportOne(rows[i]);
        assert (outcomes + [outcome])[..i] == outcomes;
        if outcome.Posted? {
          imported := imported + 1;
        } else if outcome.Failed? {
          failed := failed + [rows[i].id];
        }
        trace, outcomes := trace + [Now()], outcomes + [outcome];
        i := i + 1;
      }
    }

    method ImportOne(row: Choice) returns (outcome: Outcome)
      modifies this`staged, txSvc
      ensures ImportsBy(old(Now()), row, Now(), outcome)
    {
      hide ValueMatches, HasPlaidId, Create;
      ghost var y := Now();
      var b := TheBook();
      var Choice(id, category) := row;
      var bank: Option<Guid>, pick: Option<Guid> := None, None;
      if id in staged {
        if a :| a in b.books.accounts && LinkedTo(b, a, staged[id].bankAccount) {
          bank := Some(a);
        }
      }
      if a :| a in b.books.accounts && b.books.accounts[a].book == book && b.books.accounts[a].name == "Imbalance" {
        pick := Some(a);
      }
      if category.None? {
        outcome := Failed;
      } else if id !in staged {
        outcome := if Imported(b, id) then Skipped else Failed;
      } else if bank.None? {
        outcome := Failed;
      } else if Imported(b, id) {
        outcome := Skipped;
      } else {
        var st := staged[id];
        if st.predecessor.Some? && Imported(b, st.predecessor.value)
          && ValueMatches(b, st.predecessor.value, st.bankAccount, st.num, st.denom)
        {
          staged := staged - {id};
          outcome := Skipped;
        } else {
          var r := txSvc.CreateTransaction(book, ImportRequest(id, st, bank.value, category.value), pick);
          match r {
            case Ok(_) =>
              staged := staged - {id};
              outcome := Posted;
            case Err(e) =>
              if e == DuplicatePlaidId {
                staged := staged - {id};
                outcome := Skipped;
              } else {
                outcome := Failed;
              }
          }
        }
      }
      assert ImportRow(y, id, category, bank, pick) == (Now(), outcome);
    }
  }
}
