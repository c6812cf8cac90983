/**
 The chart of accounts as a tree (buildTree, aggregate and collectGuids in
 frontend/src/components/AccountTree.tsx). Nodes are rows of a map by guid, as
 they are in the source; balances are exact.
 */
module AccountTree {
  import opened Wrappers

  type Guid = nat

  datatype ChartAccount = ChartAccount(guid: Guid, parent: Option<Guid>, balance: real, reconciled: real)

  // ------------------------------------------------------------ the shape of the tree

  predicate HasId(accounts: seq<ChartAccount>, g: Guid) {
    exists a <- accounts :: a.guid == g
  }

  ghost predicate Distinct(accounts: seq<ChartAccount>) {
    forall i, j :: 0 <= i < j < |accounts| ==> accounts[i].guid != accounts[j].guid
  }

  function IndexOf(accounts: seq<ChartAccount>, g: Guid): (i: nat)
    requires HasId(accounts, g)
    ensures i < |accounts| && accounts[i].guid == g
  {
    if accounts[0].guid == g then 0
    else
      assert HasId(accounts[1..], g);
      1 + IndexOf(accounts[1..], g)
  }

  // Parents by guid; an account whose parent is not listed has none here.
  function ParentOf(accounts: seq<ChartAccount>, a: ChartAccount): Option<Guid> {
    if a.parent.Some? && HasId(accounts, a.parent.value) then a.parent else None
  }

  // The guids, in list order, whose parent is p.
  function Under(accounts: seq<ChartAccount>, p: Option<Guid>, n: nat): seq<Guid>
    requires n <= |accounts|
  {
    if n == 0 then []
    else Under(accounts, p, n - 1) + if ParentOf(accounts, accounts[n - 1]) == p then [accounts[n - 1].guid] else []
  }

  function Children(accounts: seq<ChartAccount>, g: Guid): seq<Guid> {
    Under(accounts, Some(g), |accounts|)
  }

  function Roots(accounts: seq<ChartAccount>): seq<Guid> {
    Under(accounts, None, |accounts|)
  }

  // No account is above itself: ranks up to top grow from parent to child.
  ghost predicate Acyclic(accounts: seq<ChartAccount>, rank: map<Guid, nat>, top: nat) {
    && (forall a <- accounts :: a.guid in rank && rank[a.guid] <= top)
    && (forall a <- accounts :: ParentOf(accounts, a).Some? ==> rank[ParentOf(accounts, a).value] < rank[a.guid])
  }

  ghost predicate Valid(accounts: seq<ChartAccount>, rank: map<Guid, nat>, top: nat) {
    Distinct(accounts) && Acyclic(accounts, rank, top)
  }

  lemma {:induction false} UnderFacts(accounts: seq<ChartAccount>, p: Option<Guid>, n: nat)
    requires n <= |accounts|
    ensures forall g :: g in Under(accounts, p, n) <==>
      exists i :: 0 <= i < n && accounts[i].guid == g && ParentOf(accounts, accounts[i]) == p
  {
    if n > 0 {
      UnderFacts(accounts, p, n - 1);
    }
  }

  lemma ChildIsDeeper(accounts: seq<ChartAccount>, rank: map<Guid, nat>, top: nat, g: Guid, c: Guid)
    requires Valid(accounts, rank, top) && HasId(accounts, g) && c in Children(accounts, g)
    ensures HasId(accounts, c) && g in rank && c in rank && rank[g] < rank[c] <= top
  {
    UnderFacts(accounts, Some(g), |accounts|);
    var i :| 0 <= i < |accounts| && accounts[i].guid == c && ParentOf(accounts, accounts[i]) == Some(g);
    assert accounts[i] in accounts;
  }

  lemma RootsAreListed(accounts: seq<ChartAccount>, rank: map<Guid, nat>, top: nat)
    requires Valid(accounts, rank, top)
    ensures AtLevel(accounts, rank, top, 0, Roots(accounts))
  {
    UnderFacts(accounts, None, |accounts|);
    forall g <- Roots(accounts)
      ensures HasId(accounts, g) && g in rank && rank[g] <= top
    {
      var i :| 0 <= i < |accounts| && accounts[i].guid == g;
      assert accounts[i] in accounts;
    }
  }

  // All listed, none ranked above level.
  ghost predicate AtLevel(accounts: seq<ChartAccount>, rank: map<Guid, nat>, top: nat, level: nat, cs: seq<Guid>) {
    forall c <- cs :: HasId(accounts, c) && c in rank && level <= rank[c] <= top
  }

  lemma ChildrenAreDeeper(accounts: seq<ChartAccount>, rank: map<Guid, nat>, top: nat, g: Guid)
    requires Valid(accounts, rank, top) && HasId(accounts, g)
    ensures g in rank && rank[g] <= top && AtLevel(accounts, rank, top, rank[g] + 1, Children(accounts, g))
  {
    var a :| a in accounts && a.guid == g;
    forall c <- Children(accounts, g)
      ensures HasId(accounts, c) && c in rank && rank[g] + 1 <= rank[c] <= top
    {
      ChildIsDeeper(accounts, rank, top, g, c);
    }
  }

  // ------------------------------------------------------------ collecting and aggregating

  // collectGuids: the node, then its children's.
  ghost function Collect(accounts: seq<ChartAccount>, rank: map<Guid, nat>, top: nat, g: Guid): seq<Guid>
    requires Valid(accounts, rank, top) && HasId(accounts, g)
    decreases top + 1 - (if g in rank then rank[g] else 0), 0
  {
    ChildrenAreDeeper(accounts, rank, top, g);
    [g] + CollectAll(accounts, rank, top, rank[g] + 1, Children(accounts, g))
  }

  ghost function CollectAll(
    accounts: seq<ChartAccount>, rank: map<Guid, nat>, top: nat, level: nat, cs: seq<Guid>): seq<Guid>
    requires Valid(accounts, rank, top) && level <= top + 1 && AtLevel(accounts, rank, top, level, cs)
    decreases top + 1 - level, |cs|
  {
    if |cs| == 0 then []
    else CollectAll(accounts, rank, top, level, cs[..|cs| - 1]) + Collect(accounts, rank, top, cs[|cs| - 1])
  }

  // What buildTree shows, from the roots down.
  ghost function Placed(accounts: seq<ChartAccount>, rank: map<Guid, nat>, top: nat): seq<Guid>
    requires Valid(accounts, rank, top)
  {
    RootsAreListed(accounts, rank, top);
    CollectAll(accounts, rank, top, 0, Roots(accounts))
  }

  // aggregate: a node's own amount and its children's aggregates.
  ghost function Aggregate(
    accounts: seq<ChartAccount>, rank: map<Guid, nat>, top: nat, amount: Guid -> real, g: Guid): real
    requires Valid(accounts, rank, top) && HasId(accounts, g)
    decreases top + 1 - (if g in rank then rank[g] else 0), 0
  {
    ChildrenAreDeeper(accounts, rank, top, g);
    amount(g) + AggregateAll(accounts, rank, top, amount, rank[g] + 1, Children(accounts, g))
  }

  ghost function AggregateAll(
    accounts: seq<ChartAccount>, rank: map<Guid, nat>, top: nat, amount: Guid -> real, level: nat, cs: seq<Guid>): real
    requires Valid(accounts, rank, top) && level <= top + 1 && AtLevel(accounts, rank, top, level, cs)
    decreases top + 1 - level, |cs|
  {
    if |cs| == 0 then 0.0
    else
      var n := |cs| - 1;
      AggregateAll(accounts, rank, top, amount, level, cs[..n]) + Aggregate(accounts, rank, top, amount, cs[n])
  }

  ghost function FlatSum(amount: Guid -> real, gs: seq<Guid>): real {
    if |gs| == 0 then 0.0 else FlatSum(amount, gs[..|gs| - 1]) + amount(gs[|gs| - 1])
  }

  lemma {:induction false} FlatSumConcat(amount: Guid -> real, a: seq<Guid>, b: seq<Guid>)
    ensures FlatSum(amount, a + b) == FlatSum(amount, a) + FlatSum(amount, b)
    decreases |b|
  {
    if |b| == 0 {
      assert a + b == a;
    } else {
      assert (a + b)[..|a + b| - 1] == a + b[..|b| - 1];
      FlatSumConcat(amount, a, b[..|b| - 1]);
    }
  }

  // A node's aggregate is the flat sum over the accounts it collects.
  lemma {:induction false} AggregateIsFlatSum(
    accounts: seq<ChartAccount>, rank: map<Guid, nat>, top: nat, amount: Guid -> real, g: Guid)
    requires Valid(accounts, rank, top) && HasId(accounts, g)
    ensures Aggregate(accounts, rank, top, amount, g) == FlatSum(amount, Collect(accounts, rank, top, g))
    decreases top + 1 - (if g in rank then rank[g] else 0), 0
  {
    hide FlatSum, Valid, HasId;
    ChildrenAreDeeper(accounts, rank, top, g);
    AggregateAllIsFlatSum(accounts, rank, top, amount, rank[g] + 1, Children(accounts, g));
    FlatSumConcat(amount, [g], CollectAll(accounts, rank, top, rank[g] + 1, Children(accounts, g)));
    FlatSumOne(amount, g);
  }

  lemma FlatSumOne(amount: Guid -> real, g: Guid)
    ensures FlatSum(amount, [g]) == amount(g)
  {
    assert [g][..0] == [];
  }

  lemma {:induction false} AggregateAllIsFlatSum(
    accounts: seq<ChartAccount>, rank: map<Guid, nat>, top: nat, amount: Guid -> real, level: nat, cs: seq<Guid>)
    requires Valid(accounts, rank, top) && level <= top + 1 && AtLevel(accounts, rank, top, level, cs)
    ensures AggregateAll(accounts, rank, top, amount, level, cs) ==
      FlatSum(amount, CollectAll(accounts, rank, top, level, cs))
    decreases top + 1 - level, |cs|
  {
    hide Valid, HasId;
    if |cs| > 0 {
      var init, c := cs[..|cs| - 1], cs[|cs| - 1];
      AggregateAllIsFlatSum(accounts, rank, top, amount, level, init);
      AggregateIsFlatSum(accounts, rank, top, amount, c);
      FlatSumConcat(amount, CollectAll(accounts, rank, top, level, init), Collect(accounts, rank, top, c));
    }
  }

  // ------------------------------------------------------------ each account once

  function Occurrences(gs: seq<Guid>, g: Guid): nat {
    multiset(gs)[g]
  }

  lemma CountConcat(a: seq<Guid>, b: seq<Guid>, g: Guid)
    ensures Occurrences(a + b, g) == Occurrences(a, g) + Occurrences(b, g)
    ensures |a| == 1 ==> Occurrences(a, g) == if a[0] == g then 1 else 0
  {
  }

  // An account is in exactly one list of children (or of roots), once.
  lemma ChildOnce(accounts: seq<ChartAccount>, child: Guid, parent: Option<Guid>, p: Option<Guid>)
    requires Distinct(accounts) && HasId(accounts, child)
    requires parent == ParentOf(accounts, accounts[IndexOf(accounts, child)])
    ensures Occurrences(Under(accounts, p, |accounts|), child) == if p == parent then 1 else 0
  {
    CountUnder(accounts, child, p, |accounts|);
  }

  lemma UnderSnoc(accounts: seq<ChartAccount>, p: Option<Guid>, n: nat)
    requires 0 < n <= |accounts|
    ensures Under(accounts, p, n)
      == Under(accounts, p, n - 1) + if ParentOf(accounts, accounts[n - 1]) == p then [accounts[n - 1].guid] else []
  {
  }

  lemma CountStep(accounts: seq<ChartAccount>, child: Guid, p: Option<Guid>, n: nat)
    requires 0 < n <= |accounts|
    ensures Occurrences(Under(accounts, p, n), child) == Occurrences(Under(accounts, p, n - 1), child)
      + if ParentOf(accounts, accounts[n - 1]) == p && accounts[n - 1].guid == child then 1 else 0
  {
    hide ParentOf, Under;
    UnderSnoc(accounts, p, n);
    if ParentOf(accounts, accounts[n - 1]) == p {
      CountConcat(Under(accounts, p, n - 1), [accounts[n - 1].guid], child);
    } else {
      assert Under(accounts, p, n - 1) + [] == Under(accounts, p, n - 1);
    }
  }

  lemma OnlyIndex(accounts: seq<ChartAccount>, child: Guid, i: nat)
    requires Distinct(accounts) && HasId(accounts, child) && i < |accounts|
    ensures accounts[i].guid == child <==> IndexOf(accounts, child) == i
  {
    hide IndexOf;
  }

  lemma {:induction false} CountUnder(accounts: seq<ChartAccount>, child: Guid, p: Option<Guid>, n: nat)
    requires Distinct(accounts) && HasId(accounts, child) && n <= |accounts|
    ensures var i := IndexOf(accounts, child);
      Occurrences(Under(accounts, p, n), child) == if i < n && ParentOf(accounts, accounts[i]) == p then 1 else 0
  {
    hide ParentOf, IndexOf, HasId, Distinct, Under, Occurrences;
    if n > 0 {
      CountUnder(accounts, child, p, n - 1);
      CountStep(accounts, child, p, n);
      OnlyIndex(accounts, child, n - 1);
    } else {
      NoneUnder(accounts, child, p);
    }
  }

  lemma NoneUnder(accounts: seq<ChartAccount>, child: Guid, p: Option<Guid>)
    ensures Occurrences(Under(accounts, p, 0), child) == 0
  {
  }

  // What is shown from cs down, in fuel generations: cycles or not.
  function Shown(accounts: seq<ChartAccount>, fuel: nat, cs: seq<Guid>): seq<Guid>
    decreases fuel, |cs|
  {
    if fuel == 0 || |cs| == 0 then []
    else
      var c := cs[|cs| - 1];
      Shown(accounts, fuel, cs[..|cs| - 1]) + ([c] + Shown(accounts, fuel - 1, Children(accounts, c)))
  }

  lemma CountShown(accounts: seq<ChartAccount>, fuel: nat, cs: seq<Guid>, g: Guid)
    requires fuel > 0 && |cs| > 0
    ensures var c := cs[|cs| - 1];
      && Occurrences(Shown(accounts, fuel, cs), g) == Occurrences(Shown(accounts, fuel, cs[..|cs| - 1]), g)
        + (if c == g then 1 else 0) + Occurrences(Shown(accounts, fuel - 1, Children(accounts, c)), g)
      && Occurrences(cs, g) == Occurrences(cs[..|cs| - 1], g) + if c == g then 1 else 0
  {
    hide Occurrences, Under;
    var init, c := cs[..|cs| - 1], cs[|cs| - 1];
    var below := Shown(accounts, fuel - 1, Children(accounts, c));
    CountConcat(Shown(accounts, fuel, init), [c] + below, g);
    CountConcat([c], below, g);
    assert cs == init + [c];
    CountConcat(init, [c], g);
  }

  lemma CountNone(accounts: seq<ChartAccount>, fuel: nat, cs: seq<Guid>, g: Guid)
    requires fuel == 0 || |cs| == 0
    ensures Occurrences(Shown(accounts, fuel, cs), g) == 0
    ensures |cs| == 0 ==> Occurrences(cs, g) == 0
  {
  }

  // An account is shown where cs has it, and below every place its parent is shown.
  lemma {:induction false} ShownFollowsParent(
    accounts: seq<ChartAccount>, fuel: nat, cs: seq<Guid>, child: Guid, parent: Option<Guid>)
    requires Distinct(accounts) && HasId(accounts, child)
    requires parent == ParentOf(accounts, accounts[IndexOf(accounts, child)])
    ensures Occurrences(Shown(accounts, fuel, cs), child) ==
      if fuel == 0 then 0
      else Occurrences(cs, child) + if parent.Some? then Occurrences(Shown(accounts, fuel - 1, cs), parent.value) else 0
    decreases fuel, |cs|
  {
    hide Distinct, HasId, ParentOf, Children, IndexOf, Shown, Occurrences;
    if fuel == 0 || |cs| == 0 {
      CountNone(accounts, fuel, cs, child);
      if fuel > 0 && parent.Some? {
        CountNone(accounts, fuel - 1, cs, parent.value);
      }
    } else {
      var c := cs[|cs| - 1];
      ShownFollowsParent(accounts, fuel, cs[..|cs| - 1], child, parent);
      ShownFollowsParent(accounts, fuel - 1, Children(accounts, c), child, parent);
      CountShown(accounts, fuel, cs, child);
      ChildCount(accounts, child, parent, c);
      if parent.Some? {
        if fuel > 1 {
          CountShown(accounts, fuel - 1, cs, parent.value);
        } else {
          CountNone(accounts, 0, cs, parent.value);
          CountNone(accounts, 0, cs[..|cs| - 1], parent.value);
        }
      }
    }
  }

  lemma ChildCount(accounts: seq<ChartAccount>, child: Guid, parent: Option<Guid>, p: Guid)
    requires Distinct(accounts) && HasId(accounts, child)
    requires parent == ParentOf(accounts, accounts[IndexOf(accounts, child)])
    ensures Occurrences(Children(accounts, p), child) == if parent == Some(p) then 1 else 0
  {
    hide Distinct, HasId, ParentOf, Under, IndexOf, Occurrences;
    ChildOnce(accounts, child, parent, Some(p));
  }

  // The account's parents lead to a root in less than fuel steps.
  predicate Rooted(accounts: seq<ChartAccount>, g: Guid, fuel: nat)
    requires HasId(accounts, g)
    decreases fuel
  {
    var parent := ParentOf(accounts, accounts[IndexOf(accounts, g)]);
    fuel > 0 && (parent.Some? ==> Rooted(accounts, parent.value, fuel - 1))
  }

  // No account is shown twice, and those shown are those whose parents end in a root.
  lemma {:induction false} ShownOnceIffRooted(accounts: seq<ChartAccount>, fuel: nat, g: Guid)
    requires Distinct(accounts) && HasId(accounts, g)
    ensures Occurrences(Shown(accounts, fuel, Roots(accounts)), g) == if Rooted(accounts, g, fuel) then 1 else 0
    decreases fuel
  {
    hide Distinct, HasId, Under, IndexOf, Shown, Occurrences, ParentOf;
    var a := accounts[IndexOf(accounts, g)];
    var parent := ParentOf(accounts, a);
    ShownFollowsParent(accounts, fuel, Roots(accounts), g, parent);
    ChildOnce(accounts, g, parent, None);
    if fuel > 0 && parent.Some? {
      ParentIsListed(accounts, a);
      ShownOnceIffRooted(accounts, fuel - 1, parent.value);
    }
  }

  lemma {:induction false} RankedIsRooted(
    accounts: seq<ChartAccount>, rank: map<Guid, nat>, top: nat, g: Guid, fuel: nat)
    requires Valid(accounts, rank, top) && HasId(accounts, g) && g in rank && rank[g] < fuel
    ensures Rooted(accounts, g, fuel)
    decreases fuel
  {
    var a := accounts[IndexOf(accounts, g)];
    assert a in accounts;
    if ParentOf(accounts, a).Some? {
      RankedIsRooted(accounts, rank, top, ParentOf(accounts, a).value, fuel - 1);
    }
  }

  // Steps up to the root.
  function Depth(accounts: seq<ChartAccount>, g: Guid, fuel: nat): (d: nat)
    requires HasId(accounts, g) && Rooted(accounts, g, fuel)
    ensures d < fuel
    decreases fuel
  {
    var parent := ParentOf(accounts, accounts[IndexOf(accounts, g)]);
    if parent.Some? then 1 + Depth(accounts, parent.value, fuel - 1) else 0
  }

  lemma {:induction false} DepthIsFixed(accounts: seq<ChartAccount>, g: Guid, fuel: nat, more: nat)
    requires HasId(accounts, g) && fuel <= more && Rooted(accounts, g, fuel) && Rooted(accounts, g, more)
    ensures Depth(accounts, g, fuel) == Depth(accounts, g, more)
    decreases fuel
  {
    var parent := ParentOf(accounts, accounts[IndexOf(accounts, g)]);
    if parent.Some? {
      DepthIsFixed(accounts, parent.value, fuel - 1, more - 1);
    }
  }

  // Depths are ranks.
  lemma RootedIsRanked(accounts: seq<ChartAccount>, fuel: nat) returns (rank: map<Guid, nat>)
    requires Distinct(accounts) && forall a <- accounts :: HasId(accounts, a.guid) && Rooted(accounts, a.guid, fuel)
    ensures Acyclic(accounts, rank, fuel)
  {
    hide IndexOf, HasId, Rooted, Depth, Distinct;
    rank := map g | g in (set a <- accounts :: a.guid) :: Depth(accounts, g, fuel);
    forall a <- accounts | ParentOf(accounts, a).Some?
      ensures ParentOf(accounts, a).value in rank && rank[ParentOf(accounts, a).value] < rank[a.guid]
    {
      var p := ParentOf(accounts, a).value;
      ParentIsListed(accounts, a);
      IsListed(accounts, p);
      ParentIsShallower(accounts, a, fuel);
    }
  }

  lemma IsListed(accounts: seq<ChartAccount>, g: Guid)
    requires HasId(accounts, g)
    ensures g in set a <- accounts :: a.guid
  {
  }

  lemma ParentIsShallower(accounts: seq<ChartAccount>, a: ChartAccount, fuel: nat)
    requires Distinct(accounts) && a in accounts && ParentOf(accounts, a).Some?
    requires HasId(accounts, a.guid) && Rooted(accounts, a.guid, fuel)
    requires HasId(accounts, ParentOf(accounts, a).value) && Rooted(accounts, ParentOf(accounts, a).value, fuel)
    ensures Depth(accounts, ParentOf(accounts, a).value, fuel) < Depth(accounts, a.guid, fuel)
  {
    hide HasId;
    var i :| 0 <= i < |accounts| && accounts[i] == a;
    OnlyIndex(accounts, a.guid, i);
    DepthIsFixed(accounts, ParentOf(accounts, a).value, fuel - 1, fuel);
  }

  // Every account is shown exactly once, in some number of generations.
  ghost predicate ShowsAll(accounts: seq<ChartAccount>, fuel: nat) {
    forall a <- accounts :: Occurrences(Shown(accounts, fuel, Roots(accounts)), a.guid) == 1
  }

  // The tree shows every account once exactly when no account is above itself.
  lemma ShowsAllIffAcyclic(accounts: seq<ChartAccount>)
    requires Distinct(accounts)
    ensures (exists fuel :: ShowsAll(accounts, fuel)) <==> exists rank, top :: Acyclic(accounts, rank, top)
  {
    hide Shown, Occurrences, Rooted, Under, Distinct, Acyclic;
    if fuel :| ShowsAll(accounts, fuel) {
      forall a <- accounts
        ensures HasId(accounts, a.guid) && Rooted(accounts, a.guid, fuel)
      {
        ShownOnceIffRooted(accounts, fuel, a.guid);
      }
      var rank := RootedIsRanked(accounts, fuel);
      assert Acyclic(accounts, rank, fuel);
    }
    if rank, top :| Acyclic(accounts, rank, top) {
      RankedShowsAll(accounts, rank, top);
    }
  }

  lemma RankedShowsAll(accounts: seq<ChartAccount>, rank: map<Guid, nat>, top: nat)
    requires Valid(accounts, rank, top)
    ensures ShowsAll(accounts, top + 1)
  {
    hide Shown, Occurrences, Rooted, Under, Distinct;
    forall a <- accounts
      ensures Occurrences(Shown(accounts, top + 1, Roots(accounts)), a.guid) == 1
    {
      RankedIsRooted(accounts, rank, top, a.guid, top + 1);
      ShownOnceIffRooted(accounts, top + 1, a.guid);
    }
  }

  // The smallest list with a cycle shows nothing.
  lemma OwnParentIsNotShown(a: ChartAccount, fuel: nat)
    requires a.parent == Some(a.guid)
    ensures Distinct([a]) && Roots([a]) == [] && Shown([a], fuel, Roots([a])) == []
  {
    assert a in [a];
    assert HasId([a], a.guid);
    assert Under([a], None, 0) == [] && Under([a], None, 1) == [] + [];
  }

  lemma {:induction false} ShownIsCollected(
    accounts: seq<ChartAccount>, rank: map<Guid, nat>, top: nat, level: nat, cs: seq<Guid>, fuel: nat)
    requires Valid(accounts, rank, top) && level <= top + 1 <= level + fuel && AtLevel(accounts, rank, top, level, cs)
    ensures Shown(accounts, fuel, cs) == CollectAll(accounts, rank, top, level, cs)
    decreases fuel, |cs|
  {
    hide Valid, HasId, Under;
    if |cs| > 0 {
      var init, c := cs[..|cs| - 1], cs[|cs| - 1];
      ShownIsCollected(accounts, rank, top, level, init, fuel);
      ChildrenAreDeeper(accounts, rank, top, c);
      assert fuel > 0;
      ShownIsCollected(accounts, rank, top, rank[c] + 1, Children(accounts, c), fuel - 1);
    }
  }

  // Every account is placed exactly once.
  lemma PlacedOnce(accounts: seq<ChartAccount>, rank: map<Guid, nat>, top: nat, g: Guid)
    requires Valid(accounts, rank, top) && HasId(accounts, g)
    ensures Occurrences(Placed(accounts, rank, top), g) == 1
  {
    hide CollectAll, AtLevel, Shown, Occurrences, Under;
    RootsAreListed(accounts, rank, top);
    ShownIsCollected(accounts, rank, top, 0, Roots(accounts), top + 1);
    RankedShowsAll(accounts, rank, top);
  }

  lemma ParentIsListed(accounts: seq<ChartAccount>, a: ChartAccount)
    requires ParentOf(accounts, a).Some?
    ensures HasId(accounts, ParentOf(accounts, a).value)
  {
  }

  function Ids(accounts: seq<ChartAccount>): (gs: seq<Guid>)
    ensures |gs| == |accounts| && forall i :: 0 <= i < |gs| ==> gs[i] == accounts[i].guid
  {
    seq(|accounts|, i requires 0 <= i < |accounts| => accounts[i].guid)
  }

  lemma {:induction false} FlatSumRemove(amount: Guid -> real, gs: seq<Guid>, k: nat)
    requires k < |gs|
    ensures FlatSum(amount, gs) == amount(gs[k]) + FlatSum(amount, gs[..k] + gs[k + 1..])
  {
    FlatSumConcat(amount, gs[..k], gs[k..]);
    FlatSumConcat(amount, [gs[k]], gs[k + 1..]);
    FlatSumConcat(amount, gs[..k], gs[k + 1..]);
    FlatSumOne(amount, gs[k]);
    assert gs[..k] + gs[k..] == gs && [gs[k]] + gs[k + 1..] == gs[k..];
  }

  lemma {:induction false} SameSum(amount: Guid -> real, a: seq<Guid>, b: seq<Guid>)
    requires multiset(a) == multiset(b)
    ensures FlatSum(amount, a) == FlatSum(amount, b)
    decreases |a|
  {
    if |a| == 0 {
      assert |multiset(b)| == 0;
    } else {
      var init, g := a[..|a| - 1], a[|a| - 1];
      assert a == init + [g];
      assert g in multiset(b);
      var k :| 0 <= k < |b| && b[k] == g;
      var rest := b[..k] + b[k + 1..];
      assert b == b[..k] + [g] + b[k + 1..];
      assert multiset(rest) == multiset(b) - multiset{g};
      assert multiset(init) == multiset(a) - multiset{g};
      SameSum(amount, init, rest);
      FlatSumRemove(amount, b, k);
    }
  }

  lemma {:induction false} IdsOnce(accounts: seq<ChartAccount>, g: Guid)
    requires Distinct(accounts)
    ensures Occurrences(Ids(accounts), g) == if HasId(accounts, g) then 1 else 0
  {
    if |accounts| != 0 {
      var init, a := accounts[..|accounts| - 1], accounts[|accounts| - 1];
      IdsOnce(init, g);
      assert Ids(accounts) == Ids(init) + [a.guid];
      CountConcat(Ids(init), [a.guid], g);
      assert HasId(accounts, g) <==> HasId(init, g) || a.guid == g;
    }
  }

  // Nothing but accounts of the list is placed.
  lemma {:induction false} CollectedAreListed(accounts: seq<ChartAccount>, rank: map<Guid, nat>, top: nat, g: Guid)
    requires Valid(accounts, rank, top) && HasId(accounts, g)
    ensures forall h <- Collect(accounts, rank, top, g) :: HasId(accounts, h)
    decreases top + 1 - (if g in rank then rank[g] else 0), 0
  {
    hide Valid, HasId;
    ChildrenAreDeeper(accounts, rank, top, g);
    AllCollectedAreListed(accounts, rank, top, rank[g] + 1, Children(accounts, g));
  }

  lemma {:induction false} AllCollectedAreListed(
    accounts: seq<ChartAccount>, rank: map<Guid, nat>, top: nat, level: nat, cs: seq<Guid>)
    requires Valid(accounts, rank, top) && level <= top + 1 && AtLevel(accounts, rank, top, level, cs)
    ensures forall h <- CollectAll(accounts, rank, top, level, cs) :: HasId(accounts, h)
    decreases top + 1 - level, |cs|
  {
    hide Valid, HasId;
    if |cs| > 0 {
      AllCollectedAreListed(accounts, rank, top, level, cs[..|cs| - 1]);
      CollectedAreListed(accounts, rank, top, cs[|cs| - 1]);
    }
  }

  // The tree is the list, rearranged: no account is lost or shown twice, and
  // the roots' aggregates add up to the sum over all accounts.
  lemma TreeConservesMoney(accounts: seq<ChartAccount>, rank: map<Guid, nat>, top: nat, amount: Guid -> real)
    requires Valid(accounts, rank, top)
    ensures multiset(Placed(accounts, rank, top)) == multiset(Ids(accounts))
    ensures AtLevel(accounts, rank, top, 0, Roots(accounts))
    ensures AggregateAll(accounts, rank, top, amount, 0, Roots(accounts)) == FlatSum(amount, Ids(accounts))
  {
    hide HasId, FlatSum, AggregateAll;
    RootsAreListed(accounts, rank, top);
    AllCollectedAreListed(accounts, rank, top, 0, Roots(accounts));
    var placed := Placed(accounts, rank, top);
    forall g
      ensures Occurrences(placed, g) == Occurrences(Ids(accounts), g)
    {
      IdsOnce(accounts, g);
      if HasId(accounts, g) {
        PlacedOnce(accounts, rank, top, g);
      } else {
        assert g !in multiset(placed);
      }
    }
    assert forall g :: multiset(placed)[g] == Occurrences(placed, g);
    assert forall g :: multiset(Ids(accounts))[g] == Occurrences(Ids(accounts), g);
    SameSum(amount, placed, Ids(accounts));
    AggregateAllIsFlatSum(accounts, rank, top, amount, 0, Roots(accounts));
  }

  // ------------------------------------------------------------ the code

  datatype Node = Node(
    balance: real, reconciled: real, children: seq<Guid>, aggregated: real, aggregatedReconciled: real)

  function Fresh(a: ChartAccount): Node {
    Node(a.balance, a.reconciled, [], a.balance, a.reconciled)
  }

  predicate IsFresh(nodes: map<Guid, Node>, a: ChartAccount) {
    a.guid in nodes && nodes[a.guid] == Fresh(a)
  }

  // The account's node, with its children among the first n accounts.
  predicate IsLinked(nodes: map<Guid, Node>, accounts: seq<ChartAccount>, a: ChartAccount, n: nat)
    requires n <= |accounts|
  {
    && a.guid in nodes
    && nodes[a.guid].balance == a.balance && nodes[a.guid].reconciled == a.reconciled
    && nodes[a.guid].children == Under(accounts, Some(a.guid), n)
  }

  // Every node holds the account's own amounts and its children in list order.
  ghost predicate Built(nodes: map<Guid, Node>, accounts: seq<ChartAccount>) {
    && nodes.Keys == (set a <- accounts :: a.guid)
    && forall i :: 0 <= i < |accounts| ==> IsLinked(nodes, accounts, accounts[i], |accounts|)
  }

  lemma FreshIsLinked(nodes: map<Guid, Node>, accounts: seq<ChartAccount>, a: ChartAccount)
    requires IsFresh(nodes, a)
    ensures IsLinked(nodes, accounts, a, 0)
    ensures Under(accounts, None, 0) == []
  {
  }

  lemma LinkStep(nodes: map<Guid, Node>, accounts: seq<ChartAccount>, i: nat, a: ChartAccount)
    requires i < |accounts| && IsLinked(nodes, accounts, a, i)
    ensures var parent := ParentOf(accounts, accounts[i]);
      parent != Some(a.guid) ==> IsLinked(nodes, accounts, a, i + 1)
    ensures var linked := nodes[a.guid].(children := nodes[a.guid].children + [accounts[i].guid]);
      ParentOf(accounts, accounts[i]) == Some(a.guid) ==> IsLinked(nodes[a.guid := linked], accounts, a, i + 1)
  {
    UnderSnoc(accounts, Some(a.guid), i + 1);
  }

  lemma SameNode(nodes: map<Guid, Node>, nodes': map<Guid, Node>, accounts: seq<ChartAccount>, a: ChartAccount, n: nat)
    requires n <= |accounts| && IsLinked(nodes, accounts, a, n) && a.guid in nodes' && nodes'[a.guid] == nodes[a.guid]
    ensures IsLinked(nodes', accounts, a, n)
  {
  }

  // One account hung under its parent p.
  function Hung(nodes: map<Guid, Node>, p: Guid, g: Guid): map<Guid, Node>
    requires p in nodes
  {
    nodes[p := nodes[p].(children := nodes[p].children + [g])]
  }

  lemma AllLinked(nodes: map<Guid, Node>, nodes': map<Guid, Node>, accounts: seq<ChartAccount>, i: nat)
    requires i < |accounts| && forall j :: 0 <= j < |accounts| ==> IsLinked(nodes, accounts, accounts[j], i)
    requires var parent := ParentOf(accounts, accounts[i]);
      if parent.Some? then parent.value in nodes && nodes' == Hung(nodes, parent.value, accounts[i].guid)
      else nodes' == nodes
    ensures forall j :: 0 <= j < |accounts| ==> IsLinked(nodes', accounts, accounts[j], i + 1)
  {
    hide ParentOf, IsLinked, Under;
    forall j | 0 <= j < |accounts|
      ensures IsLinked(nodes', accounts, accounts[j], i + 1)
    {
      LinkStep(nodes, accounts, i, accounts[j]);
      IsThere(nodes, accounts, accounts[j], i);
      if ParentOf(accounts, accounts[i]) != Some(accounts[j].guid) {
        SameNode(nodes, nodes', accounts, accounts[j], i + 1);
      }
    }
  }

  lemma IsThere(nodes: map<Guid, Node>, accounts: seq<ChartAccount>, a: ChartAccount, n: nat)
    requires n <= |accounts| && IsLinked(nodes, accounts, a, n)
    ensures a.guid in nodes
  {
  }

  lemma KeysAreIds(nodes: map<Guid, Node>, accounts: seq<ChartAccount>)
    requires forall g :: g in nodes <==> HasId(accounts, g)
    ensures nodes.Keys == (set a <- accounts :: a.guid)
  {
  }

  class AccountTree {
    var nodes: map<Guid, Node>

    constructor ()
    {
      nodes := map[];
    }

    // A node per account.
    method CreateNodes(accounts: seq<ChartAccount>)
      requires Distinct(accounts)
      modifies this
      ensures forall j :: 0 <= j < |accounts| ==> IsFresh(nodes, accounts[j])
      ensures forall g :: g in nodes <==> HasId(accounts, g)
    {
      nodes := map[];
      var i := 0;
      while i < |accounts|
        invariant 0 <= i <= |accounts|
        invariant forall j :: 0 <= j < i ==> IsFresh(nodes, accounts[j])
        invariant forall g <- nodes :: exists j :: 0 <= j < i && accounts[j].guid == g
      {
        nodes := nodes[accounts[i].guid := Fresh(accounts[i])];
        i := i + 1;
      }
    }

    // Each account under its parent, or among the roots.
    method Link(accounts: seq<ChartAccount>) returns (roots: seq<Guid>)
      requires Distinct(accounts)
      requires forall j :: 0 <= j < |accounts| ==> IsFresh(nodes, accounts[j])
      requires forall g :: g in nodes <==> HasId(accounts, g)
      modifies this
      ensures roots == Roots(accounts) && Built(nodes, accounts)
    {
      hide ParentOf, Under, IsLinked, HasId, IsFresh;
      forall j | 0 <= j < |accounts|
        ensures IsLinked(nodes, accounts, accounts[j], 0)
      {
        FreshIsLinked(nodes, accounts, accounts[j]);
      }
      roots := [];
      NoRoots(accounts);
      var i := 0;
      while i < |accounts|
        invariant 0 <= i <= |accounts|
        invariant nodes.Keys == old(nodes).Keys
        invariant forall j :: 0 <= j < |accounts| ==> IsLinked(nodes, accounts, accounts[j], i)
        invariant roots == Under(accounts, None, i)
      {
        ParentIs(accounts, accounts[i]);
        UnderSnoc(accounts, None, i + 1);
        ghost var before := nodes;
        if accounts[i].parent.Some? && accounts[i].parent.value in nodes {
          var p := accounts[i].parent.value;
          nodes := nodes[p := nodes[p].(children := nodes[p].children + [accounts[i].guid])];
        } else {
          roots := roots + [accounts[i].guid];
        }
        AllLinked(before, nodes, accounts, i);
        i := i + 1;
      }
      KeysAreIds(nodes, accounts);
    }

    // The recursive aggregation pass: writes the aggregates of the node and of
    // everything below it, and nothing else.
    method AggregateNode(ghost accounts: seq<ChartAccount>, ghost rank: map<Guid, nat>, ghost top: nat, g: Guid)
      returns (bal: real, recBal: real)
      requires Valid(accounts, rank, top) && HasId(accounts, g) && Built(nodes, accounts)
      modifies this
      ensures Built(nodes, accounts) && nodes.Keys == old(nodes).Keys
      ensures bal == Aggregate(accounts, rank, top, Amount(accounts, false), g)
      ensures recBal == Aggregate(accounts, rank, top, Amount(accounts, true), g)
      ensures forall h <- Collect(accounts, rank, top, g) ::
        h in nodes && IsAggregated(nodes[h], accounts, rank, top, h)
      ensures forall h <- nodes :: nodes[h] == old(nodes)[h] || IsAggregated(nodes[h], accounts, rank, top, h)
      decreases top + 1 - (if g in rank then rank[g] else 0)
    {
      hide Valid, HasId, Built, IsAggregated, Amount, Under;
      ChildrenAreDeeper(accounts, rank, top, g);
      NodeIs(nodes, accounts, g);
      bal, recBal := nodes[g].balance, nodes[g].reconciled;
      var children := nodes[g].children;
      ghost var level := rank[g] + 1;
      var i := 0;
      while i < |children|
        invariant 0 <= i <= |children| && Built(nodes, accounts) && nodes.Keys == old(nodes).Keys
        invariant bal ==
          Amount(accounts, false)(g) + AggregateAll(accounts, rank, top, Amount(accounts, false), level, children[..i])
        invariant recBal ==
          Amount(accounts, true)(g) + AggregateAll(accounts, rank, top, Amount(accounts, true), level, children[..i])
        invariant forall h <- CollectAll(accounts, rank, top, level, children[..i]) ::
          h in nodes && IsAggregated(nodes[h], accounts, rank, top, h)
        invariant forall h <- nodes :: nodes[h] == old(nodes)[h] || IsAggregated(nodes[h], accounts, rank, top, h)
      {
        assert children[..i + 1][..i] == children[..i] && children[i] in children;
        var b, r := AggregateNode(accounts, rank, top, children[i]);
        bal := bal + b;
        recBal := recBal + r;
        i := i + 1;
      }
      assert children[..i] == children;
      NodeIs(nodes, accounts, g);
      WrittenIsBuilt(nodes, accounts, g, bal, recBal);
      nodes := nodes[g := nodes[g].(aggregated := bal, aggregatedReconciled := recBal)];
      AggregatedNow(nodes[g], accounts, rank, top, g);
    }

    // buildTree: afterwards every node carries the aggregates of its subtree.
    method BuildTree(accounts: seq<ChartAccount>, ghost rank: map<Guid, nat>, ghost top: nat) returns (roots: seq<Guid>)
      requires Valid(accounts, rank, top)
      modifies this
      ensures roots == Roots(accounts) && Built(nodes, accounts)
      ensures forall a <- accounts :: a.guid in nodes && IsAggregated(nodes[a.guid], accounts, rank, top, a.guid)
    {
      hide HasId, Built, IsAggregated, Under, IsFresh;
      CreateNodes(accounts);
      roots := Link(accounts);
      RootsAreListed(accounts, rank, top);
      var i := 0;
      while i < |roots|
        invariant 0 <= i <= |roots| && Built(nodes, accounts)
        invariant forall h <- CollectAll(accounts, rank, top, 0, roots[..i]) ::
          h in nodes && IsAggregated(nodes[h], accounts, rank, top, h)
      {
        assert roots[..i + 1][..i] == roots[..i] && roots[i] in roots;
        var _, _ := AggregateNode(accounts, rank, top, roots[i]);
        i := i + 1;
      }
      assert roots[..i] == roots;
      forall a <- accounts
        ensures a.guid in Placed(accounts, rank, top)
      {
        Listed(accounts, a);
        PlacedOnce(accounts, rank, top, a.guid);
      }
    }
  }

  function AmountOf(accounts: seq<ChartAccount>, reconciled: bool, g: Guid): real {
    if !HasId(accounts, g) then 0.0
    else
      var a := accounts[IndexOf(accounts, g)];
      if reconciled then a.reconciled else a.balance
  }

  function Amount(accounts: seq<ChartAccount>, reconciled: bool): Guid -> real {
    (g: Guid) => AmountOf(accounts, reconciled, g)
  }

  ghost predicate IsAggregated(node: Node, accounts: seq<ChartAccount>, rank: map<Guid, nat>, top: nat, g: Guid) {
    && Valid(accounts, rank, top) && HasId(accounts, g)
    && node.aggregated == Aggregate(accounts, rank, top, Amount(accounts, false), g)
    && node.aggregatedReconciled == Aggregate(accounts, rank, top, Amount(accounts, true), g)
  }

  // The two amounts of an account are its balance and its reconciled balance.
  lemma AmountsAre(accounts: seq<ChartAccount>, i: nat)
    requires Distinct(accounts) && i < |accounts|
    ensures Amount(accounts, false)(accounts[i].guid) == accounts[i].balance
    ensures Amount(accounts, true)(accounts[i].guid) == accounts[i].reconciled
  {
    assert accounts[i] in accounts;
    OnlyIndex(accounts, accounts[i].guid, i);
  }

  ghost function BalanceSum(accounts: seq<ChartAccount>, n: nat, reconciled: bool): real
    requires n <= |accounts|
  {
    if n == 0 then 0.0
    else
      var a := accounts[n - 1];
      BalanceSum(accounts, n - 1, reconciled) + if reconciled then a.reconciled else a.balance
  }

  lemma {:induction false} FlatSumIsBalanceSum(accounts: seq<ChartAccount>, n: nat, reconciled: bool)
    requires Distinct(accounts) && n <= |accounts|
    ensures FlatSum(Amount(accounts, reconciled), Ids(accounts)[..n]) == BalanceSum(accounts, n, reconciled)
    decreases n
  {
    if n > 0 {
      FlatSumIsBalanceSum(accounts, n - 1, reconciled);
      assert Ids(accounts)[..n][..n - 1] == Ids(accounts)[..n - 1];
      AmountsAre(accounts, n - 1);
    }
  }

  // The aggregates that BuildTree leaves at the roots.
  ghost function RootTotal(nodes: map<Guid, Node>, roots: seq<Guid>, reconciled: bool): real
    requires forall r <- roots :: r in nodes
  {
    if |roots| == 0 then 0.0
    else
      var node := nodes[roots[|roots| - 1]];
      RootTotal(nodes, roots[..|roots| - 1], reconciled)
      + if reconciled then node.aggregatedReconciled else node.aggregated
  }

  lemma {:induction false} RootTotalIsAggregate(
    nodes: map<Guid, Node>, accounts: seq<ChartAccount>, rank: map<Guid, nat>, top: nat, cs: seq<Guid>,
    reconciled: bool)
    requires Valid(accounts, rank, top) && AtLevel(accounts, rank, top, 0, cs)
    requires forall c <- cs :: c in nodes && IsAggregated(nodes[c], accounts, rank, top, c)
    ensures RootTotal(nodes, cs, reconciled)
      == AggregateAll(accounts, rank, top, Amount(accounts, reconciled), 0, cs)
  {
    hide Valid, HasId, Amount;
    if |cs| > 0 {
      RootTotalIsAggregate(nodes, accounts, rank, top, cs[..|cs| - 1], reconciled);
      assert cs[|cs| - 1] in cs;
    }
  }

  // After BuildTree the roots' balances add up to the balances of all accounts,
  // and their reconciled balances to the reconciled ones.
  lemma BuiltTreeConservesMoney(
    nodes: map<Guid, Node>, accounts: seq<ChartAccount>, rank: map<Guid, nat>, top: nat, reconciled: bool)
    requires Valid(accounts, rank, top)
    requires forall a <- accounts :: a.guid in nodes && IsAggregated(nodes[a.guid], accounts, rank, top, a.guid)
    ensures forall r <- Roots(accounts) :: r in nodes
    ensures RootTotal(nodes, Roots(accounts), reconciled) == BalanceSum(accounts, |accounts|, reconciled)
  {
    hide AggregateAll, FlatSum, Amount, IsAggregated, Acyclic, Under;
    RootsAreListed(accounts, rank, top);
    forall r <- Roots(accounts)
      ensures r in nodes && IsAggregated(nodes[r], accounts, rank, top, r)
    {
      assert HasId(accounts, r);
    }
    RootTotalIsAggregate(nodes, accounts, rank, top, Roots(accounts), reconciled);
    TreeConservesMoney(accounts, rank, top, Amount(accounts, reconciled));
    FlatSumIsBalanceSum(accounts, |accounts|, reconciled);
    assert Ids(accounts)[..|accounts|] == Ids(accounts);
  }

  lemma AggregatedNow(node: Node, accounts: seq<ChartAccount>, rank: map<Guid, nat>, top: nat, g: Guid)
    requires Valid(accounts, rank, top) && HasId(accounts, g)
    requires node.aggregated == Aggregate(accounts, rank, top, Amount(accounts, false), g)
    requires node.aggregatedReconciled == Aggregate(accounts, rank, top, Amount(accounts, true), g)
    ensures IsAggregated(node, accounts, rank, top, g)
  {
  }

  lemma Listed(accounts: seq<ChartAccount>, a: ChartAccount)
    requires a in accounts
    ensures HasId(accounts, a.guid)
  {
  }

  lemma NodeIs(nodes: map<Guid, Node>, accounts: seq<ChartAccount>, g: Guid)
    requires Built(nodes, accounts) && HasId(accounts, g)
    ensures g in nodes && nodes[g].children == Children(accounts, g)
    ensures nodes[g].balance == Amount(accounts, false)(g) && nodes[g].reconciled == Amount(accounts, true)(g)
  {
    var i := IndexOf(accounts, g);
    assert IsLinked(nodes, accounts, accounts[i], |accounts|);
  }

  lemma WrittenIsBuilt(nodes: map<Guid, Node>, accounts: seq<ChartAccount>, g: Guid, bal: real, recBal: real)
    requires Built(nodes, accounts) && g in nodes
    ensures Built(nodes[g := nodes[g].(aggregated := bal, aggregatedReconciled := recBal)], accounts)
  {
    hide Under;
  }

  lemma NoRoots(accounts: seq<ChartAccount>)
    ensures Under(accounts, None, 0) == []
  {
  }

  lemma ParentIs(accounts: seq<ChartAccount>, a: ChartAccount)
    ensures ParentOf(accounts, a) == if a.parent.Some? && HasId(accounts, a.parent.value) then a.parent else None
  {
  }
}
