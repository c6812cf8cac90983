/**
 The order of the entries within one page does not matter (the two passes of
 stageDelta, backend/internal/plaid/service.go).
 */
module PageOrder {
  import opened Wrappers
  import opened Ledger
  import opened Staging
  import opened Convergence

  ghost predicate PageOk(k: Feed, es: seq<Entry>) {
    && PredecessorsOk(k)
    && (forall e <- es :: EntryOk(k, e))
    && (forall i, j :: 0 <= i < j < |es| ==> es[i].id != es[j].id)
  }

  lemma PrefixOk(k: Feed, es: seq<Entry>)
    requires PageOk(k, es) && |es| > 0
    ensures PageOk(k, es[..|es| - 1])
    ensures forall e <- es[..|es| - 1] :: e in es && e.id != es[|es| - 1].id
    ensures forall e <- es :: e == es[|es| - 1] || e in es[..|es| - 1]
  {
  }

  lemma StagesOk(k: Feed, es: seq<Entry>)
    requires PageOk(k, es)
    ensures OpsOk(k, Stages(es)) && OpsOk(k, Settles(es))
  {
  }

  // The row of e after the first pass: what e says, on the account of an earlier
  // row, with the dismissals of the table before the page.
  predicate IsRowOf(t: Table, s: Table, e: Entry) {
    && e.id in s && Records(s[e.id], e)
    && s[e.id].bankAccount == (if e.id in t then t[e.id].bankAccount else e.bankAccount)
    && (s[e.id].dismissed <==>
        Dismissed(t, e.id) || (e.predecessor.Some? && Dismissed(t, e.predecessor.value)))
  }

  // What the first pass leaves at an id that is not in the books.
  ghost predicate StagedAs(b: Book, t: Table, s: Table, es: seq<Entry>, x: Id) {
    && (forall e <- es :: e.id == x && e.num != 0 ==> if Replaced(b, e) then x !in s else IsRowOf(t, s, e))
    && ((forall e <- es :: e.id == x ==> e.num == 0) ==> SameRow(s, t, x))
  }

  lemma FirstPassStep(k: Feed, b: Book, t: Table, s: Table, es: seq<Entry>, x: Id)
    requires PageOk(k, es) && |es| > 0 && es[|es| - 1].num != 0 && !Imported(b, x)
    requires StagedAs(b, t, s, es[..|es| - 1], x)
    requires TableOk(k, t) && TableOk(k, s)
    requires es[|es| - 1].id == x && !Replaced(b, es[|es| - 1]) ==>
      (Inherits(s, es[|es| - 1]) <==> Inherits(t, es[|es| - 1]))
    ensures StagedAs(b, t, Exec(b, s, Stage(es[|es| - 1])), es, x)
  {
    hide Replaced, Imported;
    PrefixOk(k, es);
    var e := es[|es| - 1];
    if e.id == x {
      assert SameRow(s, t, x);
    } else {
      if Replaced(b, e) {
        ReplacedIsImported(b, e);
      }
      assert SameRow(Exec(b, s, Stage(e)), s, x);
    }
  }

  lemma ReplacedIsImported(b: Book, e: Entry)
    requires Replaced(b, e)
    ensures e.predecessor.Some? && Imported(b, e.predecessor.value)
  {
  }

  lemma {:induction false} FirstPass(k: Feed, b: Book, t: Table, es: seq<Entry>, x: Id)
    requires PageOk(k, es) && TableOk(k, t) && !Imported(b, x)
    ensures StagedAs(b, t, ExecAll(b, t, Stages(es)), es, x)
    decreases |es|
  {
    hide Replaced, Imported, Exec, StagedAs, EntryOk, PredecessorsOk;
    if |es| == 0 {
      FirstPassOfNothing(b, t, x);
    } else {
      var init, e := es[..|es| - 1], es[|es| - 1];
      PrefixOk(k, es);
      FirstPass(k, b, t, init, x);
      StagesOk(k, init);
      ExecAllFrame(k, b, t, Stages(init), x);
      var s := ExecAll(b, t, Stages(init));
      if e.num != 0 {
        ExecAllSnoc(b, t, Stages(init), Stage(e));
        assert Stages(es) == Stages(init) + [Stage(e)];
        if e.id == x && e.predecessor.Some? {
          PredecessorUntouched(k, b, t, init, e);
        }
        FirstPassStep(k, b, t, s, es, x);
      } else {
        assert Stages(es) == Stages(init);
        FirstPassSkips(k, b, t, s, es, x);
      }
    }
  }

  lemma FirstPassOfNothing(b: Book, t: Table, x: Id)
    ensures StagedAs(b, t, ExecAll(b, t, Stages([])), [], x)
  {
  }

  lemma FirstPassSkips(k: Feed, b: Book, t: Table, s: Table, es: seq<Entry>, x: Id)
    requires PageOk(k, es) && |es| > 0 && es[|es| - 1].num == 0
    requires StagedAs(b, t, s, es[..|es| - 1], x)
    ensures StagedAs(b, t, s, es, x)
  {
    PrefixOk(k, es);
  }

  // Nothing earlier in the page changes whether e's predecessor is dismissed,
  // unless e itself is the replacement.
  lemma PredecessorUntouched(k: Feed, b: Book, t: Table, init: seq<Entry>, e: Entry)
    requires PageOk(k, init) && EntryOk(k, e) && e.predecessor.Some? && TableOk(k, t)
    requires forall f <- init :: f.id != e.id
    ensures Dismissed(ExecAll(b, t, Stages(init)), e.predecessor.value) <==> Dismissed(t, e.predecessor.value)
  {
    var p := e.predecessor.value;
    StagesOk(k, init);
    ExecAllFrame(k, b, t, Stages(init), p);
    NobodyNamesAPending(k, b, Stages(init), p);
    forall op <- Stages(init)
      ensures !Kills(b, op, p)
    {
      assert EntryOk(k, op.entry);
    }
  }

  // The second pass drops an undismissed row whose entry, or whose successor's
  // entry, came with a zero amount.
  lemma {:induction false} SecondPass(k: Feed, b: Book, s: Table, es: seq<Entry>, x: Id)
    requires PageOk(k, es) && TableOk(k, s)
    ensures var r := ExecAll(b, s, Settles(es));
            if !Dismissed(s, x) && exists e <- es :: e.num == 0 && x in Both(e) then x !in r
            else SameRow(r, s, x)
    decreases |es|
  {
    if |es| != 0 {
      var init, e := es[..|es| - 1], es[|es| - 1];
      PrefixOk(k, es);
      SecondPass(k, b, s, init, x);
      if e.num == 0 {
        ExecAllSnoc(b, s, Settles(init), Settle(e));
      } else {
        assert Settles(es) == Settles(init);
      }
    }
  }

  function Page(b: Book, t: Table, es: seq<Entry>, removed: seq<Id>): Table {
    ExecAll(b, t, Stages(es) + Settles(es) + Removes(removed))
  }

  lemma PageInPasses(b: Book, t: Table, es: seq<Entry>, removed: seq<Id>)
    ensures Page(b, t, es, removed)
      == ExecAll(b, ExecAll(b, ExecAll(b, t, Stages(es)), Settles(es)), Removes(removed))
  {
    ExecAllConcat(b, t, Stages(es) + Settles(es), Removes(removed));
    ExecAllConcat(b, t, Stages(es), Settles(es));
  }

  lemma RemovesAt(b: Book, t: Table, u: Table, removed: seq<Id>, x: Id)
    requires SameRow(t, u, x)
    ensures SameRow(ExecAll(b, t, Removes(removed)), ExecAll(b, u, Removes(removed)), x)
  {
    if |removed| > 0 {
      assert [Remove(removed)][..0] == [];
    }
  }

  // Permuting the entries of a page leaves every row that could be suggested,
  // that is every row not already in the books, exactly as it was.
  lemma OrderDoesNotMatter(k: Feed, b: Book, t: Table, es: seq<Entry>, fs: seq<Entry>, removed: seq<Id>, x: Id)
    requires PageOk(k, es) && PageOk(k, fs) && TableOk(k, t)
    requires multiset(es) == multiset(fs)
    requires !Imported(b, x)
    ensures SameRow(Page(b, t, es, removed), Page(b, t, fs, removed), x)
  {
    assert forall e :: e in es <==> e in fs by {
      assert forall e :: e in es <==> e in multiset(es);
      assert forall e :: e in fs <==> e in multiset(fs);
    }
    PageInPasses(b, t, es, removed);
    PageInPasses(b, t, fs, removed);
    FirstPass(k, b, t, es, x);
    FirstPass(k, b, t, fs, x);
    StagesOk(k, es);
    StagesOk(k, fs);
    ExecAllFrame(k, b, t, Stages(es), x);
    ExecAllFrame(k, b, t, Stages(fs), x);
    var s, s' := ExecAll(b, t, Stages(es)), ExecAll(b, t, Stages(fs));
    SameFirstPass(b, t, s, s', es, fs, x);
    SecondPass(k, b, s, es, x);
    SecondPass(k, b, s', fs, x);
    RemovesAt(b, ExecAll(b, s, Settles(es)), ExecAll(b, s', Settles(fs)), removed, x);
  }

  lemma SameFirstPass(b: Book, t: Table, s: Table, s': Table, es: seq<Entry>, fs: seq<Entry>, x: Id)
    requires forall e :: e in es <==> e in fs
    requires StagedAs(b, t, s, es, x) && StagedAs(b, t, s', fs, x)
    ensures SameRow(s, s', x)
  {
    if e :| e in es && e.id == x && e.num != 0 {
      assert e in fs;
    }
  }

  // A $0 settlement wins over the non-zero pending entry, wherever both stand.
  lemma SettlementWins(k: Feed, b: Book, t: Table, es: seq<Entry>, removed: seq<Id>, z: Entry)
    requires PageOk(k, es) && TableOk(k, t)
    requires z in es && z.num == 0 && z.predecessor.Some?
    requires !Dismissed(t, z.predecessor.value)
    ensures z.predecessor.value !in Page(b, t, es, removed)
  {
    var p := z.predecessor.value;
    PageInPasses(b, t, es, removed);
    StagesOk(k, es);
    var s := ExecAll(b, t, Stages(es));
    ExecAllFrame(k, b, t, Stages(es), p);
    StaysUndismissed(k, b, t, Stages(es), p);
    SecondPass(k, b, s, es, p);
    if |removed| > 0 {
      assert [Remove(removed)][..0] == [];
    }
  }

  // A pending id has nobody to take a dismissal from.
  lemma {:induction false} StaysUndismissed(k: Feed, b: Book, t: Table, ops: seq<Op>, p: Id)
    requires PredecessorsOk(k) && OpsOk(k, ops) && TableOk(k, t)
    requires p !in k.predecessor && !Dismissed(t, p)
    ensures !Dismissed(ExecAll(b, t, ops), p)
    decreases |ops|
  {
    if |ops| != 0 {
      var init := ops[..|ops| - 1];
      StaysUndismissed(k, b, t, init, p);
      ExecAllFrame(k, b, t, init, p);
      ExecFrame(k, b, ExecAll(b, t, init), ops[|ops| - 1], p);
    }
  }
}
