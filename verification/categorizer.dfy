/**
 Suggesting a category from history (Suggest, SuggestBatch, runBatch and
 suggestPerRow in backend/internal/plaid/categorizer.go). Lower-casing and
 trimming happen before this model: it sees normalised text only.
 */
module Categorizer {
  import opened Wrappers

  type Guid = nat

  // A split of an earlier transaction on a category account: key is the lowered
  // and trimmed description, text the lowered one.
  datatype Candidate = Candidate(key: string, text: string, date: int, txn: Guid, account: Guid)

  // The history is in the query's order: newest first, then the larger
  // transaction id; the splits of one transaction stay in one fixed order.
  predicate Newest(history: seq<Candidate>) {
    forall i, j :: 0 <= i < j < |history| ==> NotOlder(history[i], history[j])
  }

  predicate NotOlder(c: Candidate, d: Candidate) {
    c.date > d.date || (c.date == d.date && c.txn >= d.txn)
  }

  // ------------------------------------------------------------ LIKE ... ESCAPE '\'

  predicate Like(t: string, p: string)
    decreases |p|, |t|
  {
    if |p| == 0 then |t| == 0
    else if p[0] == '%' then Like(t, p[1..]) || (|t| > 0 && Like(t[1..], p))
    else if p[0] == '_' then |t| > 0 && Like(t[1..], p[1..])
    else if p[0] == '\\' then |p| > 1 && |t| > 0 && t[0] == p[1] && Like(t[1..], p[2..])
    else |t| > 0 && t[0] == p[0] && Like(t[1..], p[1..])
  }

  predicate IsMeta(c: char) {
    c == '\\' || c == '%' || c == '_'
  }

  function Escape(q: string): string {
    if |q| == 0 then ""
    else (if IsMeta(q[0]) then ['\\', q[0]] else [q[0]]) + Escape(q[1..])
  }

  predicate Contains(t: string, q: string) {
    exists k :: 0 <= k <= |t| && q <= t[k..]
  }

  lemma {:induction false} AnythingMatches(t: string)
    ensures Like(t, "%")
  {
    if |t| > 0 {
      AnythingMatches(t[1..]);
    } else {
      assert Like(t, "%"[1..]);
    }
  }

  // An escaped pattern followed by % matches what starts with the query.
  lemma {:induction false} EscapedMatchesPrefix(t: string, q: string)
    ensures Like(t, Escape(q) + "%") <==> q <= t
    decreases |q|
  {
    var p := Escape(q) + "%";
    if |q| == 0 {
      assert p == "%";
      AnythingMatches(t);
    } else {
      var rest := Escape(q[1..]) + "%";
      if IsMeta(q[0]) {
        assert p == ['\\', q[0]] + rest;
        assert p[2..] == rest;
      } else {
        assert p == [q[0]] + rest;
        assert p[1..] == rest;
      }
      if |t| > 0 {
        EscapedMatchesPrefix(t[1..], q[1..]);
        assert q == [q[0]] + q[1..] && t == [t[0]] + t[1..];
      }
    }
  }

  lemma {:induction false} LeadingPercent(t: string, p: string)
    ensures Like(t, "%" + p) <==> exists k :: 0 <= k <= |t| && Like(t[k..], p)
    decreases |t|
  {
    assert ("%" + p)[1..] == p;
    assert t[0..] == t;
    if |t| > 0 {
      LeadingPercent(t[1..], p);
      forall k | 0 <= k <= |t[1..]|
        ensures t[1..][k..] == t[k + 1..]
      {
      }
      if k :| 0 <= k <= |t| && Like(t[k..], p) {
        if k > 0 {
          assert Like(t[1..][k - 1..], p);
        }
      }
    }
  }

  // The escaped pattern matches exactly the texts that contain the query,
  // whatever metacharacters it holds.
  lemma EscapedLikeIsContains(t: string, q: string)
    ensures Like(t, "%" + (Escape(q) + "%")) <==> Contains(t, q)
  {
    LeadingPercent(t, Escape(q) + "%");
    forall k | 0 <= k <= |t|
      ensures Like(t[k..], Escape(q) + "%") <==> q <= t[k..]
    {
      EscapedMatchesPrefix(t[k..], q);
    }
  }

  // ------------------------------------------------------------ one description

  datatype Pass = Exact | Substring

  predicate Matches(c: Candidate, pass: Pass, pattern: string) {
    match pass
    case Exact => c.key == pattern
    case Substring => Like(c.text, "%" + (pattern + "%"))
  }

  // LIMIT 1 on the ordered join.
  function First(history: seq<Candidate>, pass: Pass, pattern: string): (r: Option<Guid>)
    ensures r.Some? <==> exists c <- history :: Matches(c, pass, pattern)
    decreases |history|
  {
    if |history| == 0 then None
    else if Matches(history[0], pass, pattern) then Some(history[0].account)
    else First(history[1..], pass, pattern)
  }

  function Suggest(history: seq<Candidate>, q: string): Option<Guid> {
    if |q| == 0 then None
    else
      var exact := First(history, Exact, q);
      if exact.Some? then exact else First(history, Substring, Escape(q))
  }

  predicate IsFirst(history: seq<Candidate>, i: nat, pass: Pass, pattern: string) {
    && i < |history| && Matches(history[i], pass, pattern)
    && forall j :: 0 <= j < i ==> !Matches(history[j], pass, pattern)
  }

  lemma {:induction false} FirstIsFirst(history: seq<Candidate>, pass: Pass, pattern: string) returns (i: nat)
    requires First(history, pass, pattern).Some?
    ensures IsFirst(history, i, pass, pattern) && First(history, pass, pattern) == Some(history[i].account)
    decreases |history|
  {
    hide Matches;
    if Matches(history[0], pass, pattern) {
      i := 0;
    } else {
      var k := FirstIsFirst(history[1..], pass, pattern);
      i := k + 1;
      forall j | 0 <= j < i
        ensures !Matches(history[j], pass, pattern)
      {
        assert j > 0 ==> history[j] == history[1..][j - 1];
      }
    }
  }

  // What a suggestion means: the category of the newest transaction with that
  // very description; only if there is none, of the newest whose description
  // contains it, literally.
  lemma SuggestionIsNewestMatch(history: seq<Candidate>, q: string)
    requires Newest(history) && |q| > 0
    ensures Suggest(history, q).Some? <==> exists c <- history :: c.key == q || Contains(c.text, q)
    ensures Suggest(history, q).Some? ==> exists c <- history ::
      && Suggest(history, q) == Some(c.account)
      && if exists d <- history :: d.key == q
         then c.key == q && forall d <- history :: d.key == q ==> NotOlder(c, d)
         else Contains(c.text, q) && forall d <- history :: Contains(d.text, q) ==> NotOlder(c, d)
  {
    hide Contains, Like, Escape;
    forall c <- history
      ensures Matches(c, Substring, Escape(q)) <==> Contains(c.text, q)
    {
      EscapedLikeIsContains(c.text, q);
    }
    if First(history, Exact, q).Some? {
      var i := FirstIsFirst(history, Exact, q);
      assert history[i] in history;
    } else if First(history, Substring, Escape(q)).Some? {
      var i := FirstIsFirst(history, Substring, Escape(q));
      assert history[i] in history;
    }
  }

  // ------------------------------------------------------------ all of them at once

  // A row of the batch query's join: a pattern's index beside a place in history.
  datatype Joined = Joined(orig: nat, rank: nat)

  predicate Increasing(indexes: seq<nat>) {
    forall i, j :: 0 <= i < j < |indexes| ==> indexes[i] < indexes[j]
  }

  // ORDER BY orig, then the history's own order.
  predicate Ordered(rows: seq<Joined>) {
    forall i, j :: 0 <= i < j < |rows| ==> Before(rows[i], rows[j])
  }

  predicate Before(x: Joined, y: Joined) {
    x.orig < y.orig || (x.orig == y.orig && x.rank < y.rank)
  }

  // The pair satisfies the join's condition.
  predicate Joins(history: seq<Candidate>, pass: Pass, patterns: seq<string>, indexes: seq<nat>, row: Joined)
    requires |patterns| == |indexes|
  {
    && row.rank < |history|
    && exists k :: 0 <= k < |indexes| && indexes[k] == row.orig && Matches(history[row.rank], pass, patterns[k])
  }

  function JoinOne(history: seq<Candidate>, pass: Pass, pattern: string, orig: nat, n: nat): (rows: seq<Joined>)
    requires n <= |history|
    ensures Ordered(rows) && forall row <- rows :: row.orig == orig && row.rank < n
    ensures forall i :: 0 <= i < n ==> (Joined(orig, i) in rows <==> Matches(history[i], pass, pattern))
  {
    if n == 0 then []
    else
      JoinOne(history, pass, pattern, orig, n - 1) +
      if Matches(history[n - 1], pass, pattern) then [Joined(orig, n - 1)] else []
  }

  function Join(history: seq<Candidate>, pass: Pass, patterns: seq<string>, indexes: seq<nat>): (rows: seq<Joined>)
    requires |patterns| == |indexes|
  {
    if |patterns| == 0 then []
    else
      var n := |patterns| - 1;
      Join(history, pass, patterns[..n], indexes[..n]) + JoinOne(history, pass, patterns[n], indexes[n], |history|)
  }

  // DISTINCT ON (orig): the first of the rows that share one.
  function DistinctOn(rows: seq<Joined>): (r: seq<Joined>)
    ensures forall row <- r :: row in rows
  {
    if |rows| == 0 then []
    else
      var n := |rows| - 1;
      DistinctOn(rows[..n]) + if n > 0 && rows[n - 1].orig == rows[n].orig then [] else [rows[n]]
  }

  lemma JoinOneHas(history: seq<Candidate>, pass: Pass, pattern: string, orig: nat, row: Joined)
    ensures row in JoinOne(history, pass, pattern, orig, |history|)
      <==> row.orig == orig && row.rank < |history| && Matches(history[row.rank], pass, pattern)
  {
    hide Matches;
    assert row.orig == orig ==> row == Joined(orig, row.rank);
  }

  lemma JoinsOneMore(history: seq<Candidate>, pass: Pass, patterns: seq<string>, indexes: seq<nat>, row: Joined)
    requires |patterns| == |indexes| > 0
    ensures var n := |patterns| - 1;
      Joins(history, pass, patterns, indexes, row) <==>
        || Joins(history, pass, patterns[..n], indexes[..n], row)
        || (row.orig == indexes[n] && row.rank < |history| && Matches(history[row.rank], pass, patterns[n]))
  {
    hide Matches;
    var n := |patterns| - 1;
    if row.rank < |history| {
      forall k | 0 <= k < n
        ensures indexes[..n][k] == indexes[k] && patterns[..n][k] == patterns[k]
      {
      }
    }
  }

  // The join holds every pair that satisfies the condition, and no other.
  lemma {:induction false} JoinHas(
    history: seq<Candidate>, pass: Pass, patterns: seq<string>, indexes: seq<nat>, row: Joined)
    requires |patterns| == |indexes|
    ensures row in Join(history, pass, patterns, indexes) <==> Joins(history, pass, patterns, indexes, row)
  {
    hide Matches, JoinOne;
    if |patterns| != 0 {
      hide Joins;
      var n := |patterns| - 1;
      JoinHas(history, pass, patterns[..n], indexes[..n], row);
      JoinOneHas(history, pass, patterns[n], indexes[n], row);
      JoinsOneMore(history, pass, patterns, indexes, row);
    }
  }

  lemma JoinHasAt(
    history: seq<Candidate>, pass: Pass, patterns: seq<string>, indexes: seq<nat>, k: nat, row: Joined)
    requires |patterns| == |indexes| && Increasing(indexes) && k < |indexes| && row.orig == indexes[k]
    ensures row in Join(history, pass, patterns, indexes)
      <==> row.rank < |history| && Matches(history[row.rank], pass, patterns[k])
  {
    hide Matches, Join;
    JoinHas(history, pass, patterns, indexes, row);
  }

  lemma {:induction false} JoinIsOrdered(history: seq<Candidate>, pass: Pass, patterns: seq<string>, indexes: seq<nat>)
    requires |patterns| == |indexes| && Increasing(indexes)
    ensures Ordered(Join(history, pass, patterns, indexes))
    ensures forall row <- Join(history, pass, patterns, indexes) :: row.rank < |history| && row.orig in indexes
  {
    hide Matches;
    if |patterns| != 0 {
      var n := |patterns| - 1;
      JoinIsOrdered(history, pass, patterns[..n], indexes[..n]);
      var rows := Join(history, pass, patterns[..n], indexes[..n]);
      var more := JoinOne(history, pass, patterns[n], indexes[n], |history|);
      OrderedAppend(rows, more, indexes);
      assert indexes[n] in indexes;
    }
  }

  lemma OrderedAppend(rows: seq<Joined>, more: seq<Joined>, indexes: seq<nat>)
    requires |indexes| > 0 && Increasing(indexes) && Ordered(rows) && Ordered(more)
    requires forall row <- rows :: row.orig in indexes[..|indexes| - 1]
    requires forall row <- more :: row.orig == indexes[|indexes| - 1]
    ensures Ordered(rows + more)
  {
    var n := |indexes| - 1;
    forall row <- rows
      ensures row.orig < indexes[n]
    {
      var i :| 0 <= i < n && indexes[..n][i] == row.orig;
    }
    forall i, j | 0 <= i < |rows| && 0 <= j < |more|
      ensures Before(rows[i], more[j])
    {
      assert rows[i] in rows && more[j] in more;
    }
  }

  // What is kept of an ordered list is, for each orig, the row of least rank.
  lemma {:induction false} DistinctKeepsFirst(rows: seq<Joined>, row: Joined)
    requires Ordered(rows)
    ensures row in DistinctOn(rows)
      <==> row in rows && forall other <- rows :: other.orig == row.orig ==> row.rank <= other.rank
  {
    hide Ordered;
    if |rows| != 0 {
      var n := |rows| - 1;
      LastIsLast(rows);
      DistinctKeepsFirst(rows[..n], row);
      assert rows == rows[..n] + [rows[n]];
    }
  }

  lemma LastIsLast(rows: seq<Joined>)
    requires Ordered(rows) && |rows| > 0
    ensures var init, last := rows[..|rows| - 1], rows[|rows| - 1];
      && Ordered(init) && (forall other <- init :: Before(other, last))
      && ((exists other <- init :: other.orig == last.orig) <==>
          |rows| > 1 && rows[|rows| - 2].orig == last.orig)
  {
    var n := |rows| - 1;
    if n > 0 {
      assert rows[n - 1] in rows[..n];
    }
    forall other <- rows[..n]
      ensures Before(other, rows[n])
      ensures n > 0 && other.orig == rows[n].orig ==> rows[n - 1].orig == rows[n].orig
    {
      var i :| 0 <= i < n && rows[i] == other;
      assert i < n - 1 ==> Before(rows[i], rows[n - 1]);
    }
  }

  // The rows the batch query returns.
  function Query(history: seq<Candidate>, pass: Pass, patterns: seq<string>, indexes: seq<nat>): (r: seq<(nat, Guid)>)
    requires |patterns| == |indexes| && Increasing(indexes)
  {
    JoinIsOrdered(history, pass, patterns, indexes);
    Selected(history, DistinctOn(Join(history, pass, patterns, indexes)))
  }

  // SELECT orig, account.
  function Selected(history: seq<Candidate>, rows: seq<Joined>): (r: seq<(nat, Guid)>)
    requires forall row <- rows :: row.rank < |history|
    ensures |r| == |rows|
    ensures forall i :: 0 <= i < |rows| ==> r[i] == (rows[i].orig, history[rows[i].rank].account)
  {
    seq(|rows|, i requires 0 <= i < |rows| => (rows[i].orig, history[rows[i].rank].account))
  }

  lemma {:induction false} FirstIs(history: seq<Candidate>, i: nat, pass: Pass, pattern: string)
    requires IsFirst(history, i, pass, pattern)
    ensures First(history, pass, pattern) == Some(history[i].account)
    decreases i
  {
    hide Matches;
    if i > 0 {
      FirstIs(history[1..], i - 1, pass, pattern);
    }
  }

  lemma FirstIsKept(history: seq<Candidate>, pass: Pass, patterns: seq<string>, indexes: seq<nat>, k: nat)
    returns (row: Joined)
    requires |patterns| == |indexes| && Increasing(indexes) && k < |indexes|
    requires First(history, pass, patterns[k]).Some?
    ensures row in DistinctOn(Join(history, pass, patterns, indexes)) && row.orig == indexes[k]
    ensures row.rank < |history| && First(history, pass, patterns[k]) == Some(history[row.rank].account)
  {
    hide First, Matches, Join, DistinctOn, Ordered;
    JoinIsOrdered(history, pass, patterns, indexes);
    var rows := Join(history, pass, patterns, indexes);
    var i := FirstIsFirst(history, pass, patterns[k]);
    row := Joined(indexes[k], i);
    JoinHasAt(history, pass, patterns, indexes, k, row);
    forall other <- rows | other.orig == row.orig
      ensures row.rank <= other.rank
    {
      JoinHasAt(history, pass, patterns, indexes, k, other);
    }
    DistinctKeepsFirst(rows, row);
  }

  // The batch query gives each pattern the account the one-pattern query gives it.
  lemma QueryRows(history: seq<Candidate>, pass: Pass, patterns: seq<string>, indexes: seq<nat>, k: nat)
    requires |patterns| == |indexes| && Increasing(indexes) && k < |indexes|
    ensures forall account ::
      (indexes[k], account) in Query(history, pass, patterns, indexes) <==>
        First(history, pass, patterns[k]) == Some(account)
  {
    hide First, Matches, Join, DistinctOn, Ordered;
    JoinIsOrdered(history, pass, patterns, indexes);
    var rows := Join(history, pass, patterns, indexes);
    var kept := DistinctOn(rows);
    var found := First(history, pass, patterns[k]);
    if found.Some? {
      var row := FirstIsKept(history, pass, patterns, indexes, k);
      var at :| 0 <= at < |kept| && kept[at] == row;
      assert Selected(history, kept)[at] in Selected(history, kept);
    }
    forall account | (indexes[k], account) in Selected(history, kept)
      ensures found == Some(account)
    {
      var at :| 0 <= at < |kept| && Selected(history, kept)[at] == (indexes[k], account);
      KeptIsFirst(history, pass, patterns, indexes, k, kept[at]);
    }
  }

  lemma KeptIsFirst(
    history: seq<Candidate>, pass: Pass, patterns: seq<string>, indexes: seq<nat>, k: nat, row: Joined)
    requires |patterns| == |indexes| && Increasing(indexes) && k < |indexes| && row.orig == indexes[k]
    requires row in DistinctOn(Join(history, pass, patterns, indexes))
    ensures row.rank < |history| && First(history, pass, patterns[k]) == Some(history[row.rank].account)
  {
    hide First, Matches, Join, DistinctOn, Ordered;
    JoinIsOrdered(history, pass, patterns, indexes);
    var rows := Join(history, pass, patterns, indexes);
    DistinctKeepsFirst(rows, row);
    JoinHasAt(history, pass, patterns, indexes, k, row);
    forall j | 0 <= j < row.rank
      ensures !Matches(history[j], pass, patterns[k])
    {
      JoinHasAt(history, pass, patterns, indexes, k, Joined(indexes[k], j));
      assert Joined(indexes[k], j) !in rows;
    }
    FirstIs(history, row.rank, pass, patterns[k]);
  }

  function OrElse(x: Option<Guid>, y: Option<Guid>): Option<Guid> {
    if x.Some? then x else y
  }

  lemma QueryOrigs(history: seq<Candidate>, pass: Pass, patterns: seq<string>, indexes: seq<nat>)
    requires |patterns| == |indexes| && Increasing(indexes)
    ensures forall row <- Query(history, pass, patterns, indexes) :: row.0 in indexes
  {
    hide Join, DistinctOn, Matches, Ordered;
    JoinIsOrdered(history, pass, patterns, indexes);
  }

  // Writes the rows' accounts into out. lostAfter is where reading them fails.
  method RunBatch(
    history: seq<Candidate>, pass: Pass, patterns: seq<string>, indexes: seq<nat>, out: array<Option<Guid>>,
    lostAfter: Option<nat>)
    returns (ok: bool)
    requires |patterns| == |indexes| && Increasing(indexes)
    requires forall k :: 0 <= k < |indexes| ==> indexes[k] < out.Length
    modifies out
    ensures ok <==> lostAfter.None?
    ensures ok ==> forall k :: 0 <= k < |indexes| ==>
      out[indexes[k]] == OrElse(First(history, pass, patterns[k]), old(out[..])[indexes[k]])
    ensures forall i :: 0 <= i < out.Length && i !in indexes ==> out[i] == old(out[i])
  {
    hide First, Query;
    var rows := Query(history, pass, patterns, indexes);
    QueryOrigs(history, pass, patterns, indexes);
    var j := 0;
    while j < |rows|
      invariant 0 <= j <= |rows|
      invariant forall i :: 0 <= i < out.Length ==>
        out[i] == old(out[i]) || (out[i].Some? && (i, out[i].value) in rows[..j])
      invariant forall i, a :: (i, a) in rows[..j] && i < out.Length ==> out[i].Some? && (i, out[i].value) in rows[..j]
      invariant forall i :: 0 <= i < out.Length && i !in indexes ==> out[i] == old(out[i])
    {
      if lostAfter == Some(j) {
        return false;
      }
      var (orig, account) := rows[j];
      assert rows[j] in rows && rows[..j + 1] == rows[..j] + [rows[j]];
      out[orig] := Some(account);
      j := j + 1;
    }
    if lostAfter.Some? {
      return false;
    }
    assert rows[..j] == rows;
    forall k | 0 <= k < |indexes|
      ensures out[indexes[k]] == OrElse(First(history, pass, patterns[k]), old(out[..])[indexes[k]])
    {
      assert indexes[k] < out.Length;
      QueryRows(history, pass, patterns, indexes, k);
    }
    ok := true;
  }

  method SuggestPerRow(history: seq<Candidate>, descriptions: seq<string>) returns (out: array<Option<Guid>>)
    ensures fresh(out) && out.Length == |descriptions|
    ensures forall i :: 0 <= i < out.Length ==> out[i] == Suggest(history, descriptions[i])
  {
    hide Suggest;
    out := new Option<Guid>[|descriptions|](_ => None);
    var i := 0;
    while i < |descriptions|
      invariant 0 <= i <= |descriptions|
      invariant forall j :: 0 <= j < i ==> out[j] == Suggest(history, descriptions[j])
      invariant forall j :: i <= j < out.Length ==> out[j] == None
    {
      var found := Suggest(history, descriptions[i]);
      if found.Some? {
        out[i] := found;
      }
      i := i + 1;
    }
  }

  // Patterns for every non-blank description, with its index.
  method ExactPatterns(descriptions: seq<string>) returns (patterns: seq<string>, indexes: seq<nat>)
    ensures |patterns| == |indexes| && Increasing(indexes)
    ensures forall k :: 0 <= k < |indexes| ==> indexes[k] < |descriptions| && patterns[k] == descriptions[indexes[k]]
    ensures forall j :: 0 <= j < |descriptions| ==> (j in indexes <==> |descriptions[j]| > 0)
  {
    patterns, indexes := [], [];
    var i := 0;
    while i < |descriptions|
      invariant 0 <= i <= |descriptions| && |patterns| == |indexes|
      invariant Increasing(indexes)
      invariant forall k :: 0 <= k < |indexes| ==> indexes[k] < i && patterns[k] == descriptions[indexes[k]]
      invariant forall j :: 0 <= j < i ==> (j in indexes <==> |descriptions[j]| > 0)
    {
      if |descriptions[i]| > 0 {
        patterns := patterns + [descriptions[i]];
        indexes := indexes + [i];
      }
      i := i + 1;
    }
  }

  // Escaped patterns for what is still without a category.
  method MissedPatterns(descriptions: seq<string>, out: array<Option<Guid>>)
    returns (patterns: seq<string>, indexes: seq<nat>)
    requires out.Length == |descriptions|
    ensures |patterns| == |indexes| && Increasing(indexes)
    ensures forall k ::
      0 <= k < |indexes| ==> indexes[k] < |descriptions| && patterns[k] == Escape(descriptions[indexes[k]])
    ensures forall j :: 0 <= j < |descriptions| ==> (j in indexes <==> out[j].None? && |descriptions[j]| > 0)
  {
    hide Escape;
    patterns, indexes := [], [];
    var i := 0;
    while i < |descriptions|
      invariant 0 <= i <= |descriptions| && |patterns| == |indexes|
      invariant Increasing(indexes)
      invariant forall k :: 0 <= k < |indexes| ==> indexes[k] < i && patterns[k] == Escape(descriptions[indexes[k]])
      invariant forall j :: 0 <= j < i ==> (j in indexes <==> out[j].None? && |descriptions[j]| > 0)
    {
      if out[i].None? && |descriptions[i]| > 0 {
        patterns := patterns + [Escape(descriptions[i])];
        indexes := indexes + [i];
      }
      i := i + 1;
    }
  }

  // An exact pass over all descriptions, a substring pass over what it missed;
  // either pass may fail, and then everything is done row by row. On every path
  // each description gets what Suggest gives it alone.
  method SuggestBatch(
    history: seq<Candidate>, descriptions: seq<string>, exactLost: Option<nat>, substringLost: Option<nat>)
    returns (out: array<Option<Guid>>)
    ensures fresh(out) && out.Length == |descriptions|
    ensures forall i :: 0 <= i < out.Length ==> out[i] == Suggest(history, descriptions[i])
  {
    hide First, Escape, Suggest;
    out := new Option<Guid>[|descriptions|](_ => None);
    var patterns, indexes := ExactPatterns(descriptions);
    if |patterns| == 0 {
      forall j | 0 <= j < out.Length
        ensures Suggest(history, descriptions[j]) == None
      {
        assert j !in indexes;
        SuggestIs(history, descriptions[j]);
      }
      return;
    }
    ghost var before := out[..];
    var ok := RunBatch(history, Exact, patterns, indexes, out, exactLost);
    if !ok {
      out := SuggestPerRow(history, descriptions);
      return;
    }
    ghost var exact := out[..];
    forall j | 0 <= j < out.Length
      ensures exact[j] == if |descriptions[j]| > 0 then First(history, Exact, descriptions[j]) else None
    {
      assert before[j] == None;
      if |descriptions[j]| > 0 {
        var k :| 0 <= k < |indexes| && indexes[k] == j;
      }
    }
    patterns, indexes := MissedPatterns(descriptions, out);
    if |patterns| > 0 {
      ok := RunBatch(history, Substring, patterns, indexes, out, substringLost);
      if !ok {
        out := SuggestPerRow(history, descriptions);
        return;
      }
    }
    forall j | 0 <= j < out.Length
      ensures out[j] == Suggest(history, descriptions[j])
    {
      SuggestIs(history, descriptions[j]);
      if exact[j].None? && |descriptions[j]| > 0 {
        var k :| 0 <= k < |indexes| && indexes[k] == j;
      }
    }
  }

  lemma SuggestIs(history: seq<Candidate>, q: string)
    ensures Suggest(history, q) ==
      if |q| == 0 then None else OrElse(First(history, Exact, q), First(history, Substring, Escape(q)))
  {
    hide First;
  }
}
