/**
 The account register: the full list with its running balance, the paged view
 (GetAccountRegister and GetAccountRegisterPaged in
 backend/internal/services/transaction_service.go) and the client that stitches
 pages together (frontend/src/pages/AccountRegister.tsx).
 */
module Register {
  import opened Wrappers
  import opened Numeric
  import opened Exactness
  import opened Ledger

  // A split, named by its transaction and its place in it.
  datatype Line = Line(txn: Guid, index: nat)

  // One row of the join of splits and transactions.
  datatype Row = Row(split: Line, date: int, description: string, quantityNum: int, quantityDenom: int, mark: Mark)

  datatype Entry = Entry(
    split: Line, date: int, description: string, mark: Mark,
    deposit: Option<Numeric>, withdrawal: Option<Numeric>, balance: Numeric)

  predicate IsDebitNormal(kind: Kind) {
    kind.Asset? || kind.Bank? || kind.Cash? || kind.Expense? || kind.Receivable?
  }

  // gnc.New panics on a zero denominator; Sum panics on the value that stands for it.
  function Amount(r: Row): Numeric {
    if r.quantityDenom == 0 then Numeric(0, 0) else New(r.quantityNum, r.quantityDenom)
  }

  function Amounts(rows: seq<Row>): (vs: seq<Numeric>)
    ensures |vs| == |rows| && forall i :: 0 <= i < |vs| ==> vs[i] == Amount(rows[i])
  {
    seq(|rows|, i requires 0 <= i < |rows| => Amount(rows[i]))
  }

  predicate Positive(v: Numeric) {
    v.num != 0 && (v.num > 0 <==> v.denom > 0)
  }

  // The column is a float, so its sign flips without wrapping.
  function Flipped(v: Numeric): Numeric {
    Numeric(-v.num, v.denom)
  }

  function EntryOf(kind: Kind, r: Row, balance: Numeric): Entry {
    var a := Amount(r);
    var deposit := if IsDebitNormal(kind) then a.num == 0 || Positive(a) else !Positive(a);
    var column := if IsDebitNormal(kind) == deposit then a else Flipped(a);
    Entry(r.split, r.date, r.description, r.mark,
          if deposit then Some(column) else None, if deposit then None else Some(column), balance)
  }

  // The balance after the first k rows; None is the panic.
  function BalanceAfter(rows: seq<Row>, k: nat): Option<Numeric>
    requires k <= |rows|
  {
    Sum(Amounts(rows)[..k])
  }

  predicate Computes(rows: seq<Row>) {
    forall k :: 0 <= k <= |rows| ==> BalanceAfter(rows, k).Some?
  }

  // The register a reader expects: each row with the sum of all rows up to it.
  function Full(kind: Kind, rows: seq<Row>): (es: seq<Entry>)
    requires Computes(rows)
    ensures |es| == |rows|
  {
    seq(|rows|, i requires 0 <= i < |rows| => Shown(kind, rows, i))
  }

  function Shown(kind: Kind, rows: seq<Row>, i: nat): Entry
    requires i < |rows|
  {
    EntryOf(kind, rows[i], match BalanceAfter(rows, i + 1) case Some(balance) => balance case None => ZERO)
  }

  // ------------------------------------------------------------ running balances

  lemma BalanceStep(rows: seq<Row>, k: nat)
    requires k < |rows|
    ensures BalanceAfter(rows, k + 1) == AddTo(BalanceAfter(rows, k), Amount(rows[k]))
  {
    hide Add, Amount;
    assert Amounts(rows)[..k + 1] == Amounts(rows)[..k] + [Amount(rows[k])];
    SumFromSnoc(ZERO, Amounts(rows)[..k], Amount(rows[k]));
  }

  function AddTo(sum: Option<Numeric>, v: Numeric): Option<Numeric> {
    if sum.None? || sum.value.denom == 0 || v.denom == 0 then None else Some(Add(sum.value, v))
  }

  lemma {:induction false} PanicIsFinal(rows: seq<Row>, k: nat, n: nat)
    requires k <= n <= |rows| && BalanceAfter(rows, k).None?
    ensures BalanceAfter(rows, n).None?
    decreases n
  {
    if k < n {
      PanicIsFinal(rows, k, n - 1);
      BalanceStep(rows, n - 1);
    }
  }

  // The loop of GetAccountRegister; None is a panic.
  method GetAccountRegister(kind: Kind, rows: seq<Row>) returns (r: Option<seq<Entry>>)
    ensures r == if Computes(rows) then Some(Full(kind, rows)) else None
  {
    hide Add, Amount, EntryOf, BalanceAfter;
    var entries: seq<Entry> := [];
    var running := ZERO;
    NoBalance(rows);
    var i := 0;
    while i < |rows|
      invariant 0 <= i <= |rows| && |entries| == i
      invariant forall k :: 0 <= k <= i ==> BalanceAfter(rows, k).Some?
      invariant BalanceAfter(rows, i) == Some(running)
      invariant forall k :: 0 <= k < i ==> entries[k] == Shown(kind, rows, k)
    {
      BalanceStep(rows, i);
      var amount := Amount(rows[i]);
      if running.denom == 0 || amount.denom == 0 {
        assert BalanceAfter(rows, i + 1).None?;
        return None;
      }
      running := Add(running, amount);
      entries := entries + [EntryOf(kind, rows[i], running)];
      i := i + 1;
    }
    assert entries == Full(kind, rows);
    r := Some(entries);
  }

  lemma NoBalance(rows: seq<Row>)
    ensures BalanceAfter(rows, 0) == Some(ZERO)
  {
    assert Amounts(rows)[..0] == [];
  }

  // While every running total fits, every balance shown is the exact sum of the
  // amounts so far.
  lemma BalancesAreExact(kind: Kind, rows: seq<Row>, d: int, i: nat)
    requires i < |rows| && PartialsFit(Amounts(rows), d)
    ensures Computes(rows)
    ensures Full(kind, rows)[i].balance.denom > 0
    ensures Full(kind, rows)[i].balance.Value() == RealSum(Amounts(rows)[..i + 1])
  {
    hide Sum, RealSum, Amount, PartialsFit;
    forall k | 0 <= k <= |rows|
      ensures BalanceAfter(rows, k).Some?
    {
      PrefixFits(Amounts(rows), d, k);
      SumIsExact(Amounts(rows)[..k], d);
    }
    PrefixFits(Amounts(rows), d, i + 1);
    SumIsExact(Amounts(rows)[..i + 1], d);
  }

  // ------------------------------------------------------------ pages

  datatype Direction = Before | After | Around

  // cursor_date parses as a number, as a day, or as neither.
  datatype Cursor = Offset(n: int) | Day(timestamp: int) | Unparsable

  // What the zero time is taken to be where a failed parse is not checked.
  const ZERO_TIME := 0

  datatype Page = Page(entries: seq<Entry>, hasBefore: bool, hasAfter: bool, first: int, last: int, total: nat)

  datatype PageError = BadDate | NegativeOffset | Arithmetic

  function CountBefore(rows: seq<Row>, timestamp: int): (n: nat)
    ensures n <= |rows|
  {
    if |rows| == 0 then 0
    else CountBefore(rows[..|rows| - 1], timestamp) + if rows[|rows| - 1].date < timestamp then 1 else 0
  }

  function CountUpTo(rows: seq<Row>, timestamp: int): (n: nat)
    ensures n <= |rows|
  {
    if |rows| == 0 then 0
    else CountUpTo(rows[..|rows| - 1], timestamp) + if rows[|rows| - 1].date <= timestamp then 1 else 0
  }

  function TimeOf(cursor: Cursor): int {
    if cursor.Day? then cursor.timestamp else ZERO_TIME
  }

  // Go's integer division.
  function Quotient(a: int, b: int): int
    requires b > 0
  {
    if a >= 0 then a / b else -((-a) / b)
  }

  // OFFSET and LIMIT of the page query.
  function Window(rows: seq<Row>, cursor: Cursor, direction: Direction, limit: int): Option<(int, int)> {
    match direction
    case Before =>
      var end := if cursor.Offset? then cursor.n else CountBefore(rows, TimeOf(cursor));
      if end - limit < 0 then Some((0, end)) else Some((end - limit, limit))
    case After =>
      Some((if cursor.Offset? then cursor.n + 1 else CountUpTo(rows, TimeOf(cursor)), limit))
    case Around =>
      if !cursor.Day? then None
      else
        var offset := CountBefore(rows, cursor.timestamp) - Quotient(limit * 3, 4);
        Some((if offset < 0 then 0 else offset, limit))
  }

  function Clamp(x: int, n: nat): (r: nat)
    ensures r <= n
  {
    if x < 0 then 0 else if x > n then n else x
  }

  // A page is a slice of the full register.
  function PageOf(full: seq<Entry>, offset: int, limit: int): Result<Page, PageError> {
    if limit <= 0 then Ok(Page([], offset > 0, offset < |full|, 0, 0, |full|))
    else if offset < 0 then Err(NegativeOffset)
    else
      var (lo, hi) := (Clamp(offset, |full|), Clamp(offset + limit, |full|));
      var last := if hi > lo then hi - 1 else offset;
      Ok(Page(full[lo..hi], offset > 0, last < |full| - 1, offset, last, |full|))
  }

  // Paging refines the full register: whenever the full register can be
  // computed, the page is its slice at the page's offsets - balances included,
  // though they are summed up again from the rows before the page.
  method GetAccountRegisterPaged(kind: Kind, rows: seq<Row>, cursor: Cursor, direction: Direction, limit: int)
    returns (r: Result<Page, PageError>)
    ensures direction.Around? && !cursor.Day? <==> r == Err(BadDate)
    ensures Computes(rows) ==>
      match Window(rows, cursor, direction, limit)
      case None => r == Err(BadDate)
      case Some((offset, lim)) => r == PageOf(Full(kind, rows), offset, lim)
  {
    hide Full, Computes, Window;
    var total := |rows|;
    var located := Locate(rows, cursor, direction, limit);
    if located.None? {
      return Err(BadDate);
    }
    var (offset, lim) := located.value;
    if lim <= 0 {
      return Ok(Page([], offset > 0, offset < total, 0, 0, total));
    }
    if offset < 0 {
      return Err(NegativeOffset);
    }
    var lo, hi := Clamp(offset, total), Clamp(offset + lim, total);
    var read := ReadSlice(kind, rows, lo, hi);
    if read.None? {
      return Err(Arithmetic);
    }
    var entries := read.value;
    var last := if |entries| == 0 then offset else offset + |entries| - 1;
    r := Ok(Page(entries, offset > 0, last < total - 1, offset, last, total));
  }

  // OFFSET and LIMIT, from the direction and the cursor.
  method Locate(rows: seq<Row>, cursor: Cursor, direction: Direction, limit: int) returns (r: Option<(int, int)>)
    ensures r == Window(rows, cursor, direction, limit)
    ensures r.None? <==> direction.Around? && !cursor.Day?
  {
    hide CountBefore, CountUpTo, Quotient;
    var offset: int, lim: int;
    match direction {
      case Before =>
        var end := if cursor.Offset? then cursor.n else CountBefore(rows, TimeOf(cursor));
        offset := end - limit;
        lim := limit;
        if offset < 0 {
          lim := end;
          offset := 0;
        }
      case After =>
        offset := if cursor.Offset? then cursor.n + 1 else CountUpTo(rows, TimeOf(cursor));
        lim := limit;
      case Around =>
        if !cursor.Day? {
          return None;
        }
        offset := CountBefore(rows, cursor.timestamp) - Quotient(limit * 3, 4);
        if offset < 0 {
          offset := 0;
        }
        lim := limit;
    }
    r := Some((offset, lim));
  }

  // The two queries of a page: the amounts before it, then its own rows.
  method ReadSlice(kind: Kind, rows: seq<Row>, lo: nat, hi: nat) returns (r: Option<seq<Entry>>)
    requires lo <= hi <= |rows|
    ensures r.Some? ==> |r.value| == hi - lo
    ensures Computes(rows) ==> r == Some(Full(kind, rows)[lo..hi])
  {
    hide Add, Amount, EntryOf, BalanceAfter;
    var prior := ZERO;
    NoBalance(rows);
    var i := 0;
    while i < lo
      invariant 0 <= i <= lo
      invariant BalanceAfter(rows, i) == Some(prior)
    {
      BalanceStep(rows, i);
      var amount := Amount(rows[i]);
      if prior.denom == 0 || amount.denom == 0 {
        assert BalanceAfter(rows, i + 1).None?;
        return None;
      }
      prior := Add(prior, amount);
      i := i + 1;
    }
    var entries: seq<Entry> := [];
    var running := prior;
    while i < hi
      invariant lo <= i <= hi && |entries| == i - lo
      invariant BalanceAfter(rows, i) == Some(running)
      invariant forall k :: 0 <= k < |entries| ==> entries[k] == Shown(kind, rows, lo + k)
    {
      BalanceStep(rows, i);
      var amount := Amount(rows[i]);
      if running.denom == 0 || amount.denom == 0 {
        assert BalanceAfter(rows, i + 1).None?;
        return None;
      }
      running := Add(running, amount);
      entries := entries + [EntryOf(kind, rows[i], running)];
      i := i + 1;
    }
    if Computes(rows) {
      SliceOfFull(kind, rows, lo, hi, entries);
    }
    r := Some(entries);
  }

  lemma SliceOfFull(kind: Kind, rows: seq<Row>, lo: nat, hi: nat, entries: seq<Entry>)
    requires Computes(rows) && lo <= hi <= |rows| && |entries| == hi - lo
    requires forall k :: 0 <= k < |entries| ==> entries[k] == Shown(kind, rows, lo + k)
    ensures entries == Full(kind, rows)[lo..hi]
  {
    hide Computes, Shown;
  }

  // ------------------------------------------------------------ the client

  const PAGE_SIZE := 50

  ghost predicate Distinct(rows: seq<Row>) {
    forall i, j :: 0 <= i < j < |rows| ==> rows[i].split != rows[j].split
  }

  // Where the window stands after one more page.
  function Grow(n: nat, window: (nat, nat), direction: Direction): (nat, nat) {
    match direction
    case Before => (Clamp(window.0 - PAGE_SIZE, n), window.1)
    case After => (window.0, Clamp(window.1 + PAGE_SIZE, n))
    case Around => window
  }

  // Entries are kept as a multiset: the order they are shown in is a sort by a
  // collation this model leaves open.
  class AccountRegister {
    var entries: multiset<Entry>
    var hasBefore: bool
    var hasAfter: bool
    var first: Option<int>
    var last: Option<int>

    constructor ()
    {
      entries, hasBefore, hasAfter, first, last := multiset{}, false, false, None, None;
    }

    // The view shows exactly rows lo..hi of the register, each once.
    ghost predicate Shows(full: seq<Entry>, window: (nat, nat))
      reads this
    {
      var (lo, hi) := window;
      && lo <= hi <= |full| && (lo < hi || |full| == 0)
      && entries == multiset(full[lo..hi])
      && (hasBefore <==> lo > 0) && (hasAfter <==> hi < |full|)
      && first == Some(lo) && last == Some(if lo < hi then hi - 1 else 0)
    }

    method LoadInitialData(kind: Kind, rows: seq<Row>, today: int)
      requires Computes(rows)
      modifies this
      ensures Shows(Full(kind, rows), FirstWindow(rows, today))
    {
      hide Full, Computes, PageOf, Window, FirstWindow;
      var page := GetAccountRegisterPaged(kind, rows, Day(today), Around, PAGE_SIZE);
      FirstPage(rows, Full(kind, rows), today);
      entries := multiset(page.value.entries);
      hasBefore, hasAfter := page.value.hasBefore, page.value.hasAfter;
      first, last := Some(page.value.first), Some(page.value.last);
    }

    method LoadMore(kind: Kind, rows: seq<Row>, direction: Direction, ghost window: (nat, nat))
      requires Computes(rows) && Distinct(rows)
      requires Shows(Full(kind, rows), window) && !direction.Around?
      modifies this
      ensures Shows(Full(kind, rows), Grow(|rows|, window, direction))
    {
      hide Computes, Full, Distinct, Grow, AllNew, IsNext;
      ghost var full := Full(kind, rows);
      var cursor := if direction.Before? then first else last;
      var page := Fetch(kind, rows, cursor.value, direction, window);
      NextIsNew(kind, rows, window, direction, page);
      if |page.entries| == 0 {
        if direction.Before? {
          hasBefore := false;
        } else {
          hasAfter := false;
        }
        return;
      }
      if direction.Before? {
        Prepend(page, full, window);
      } else {
        Append(page, full, window);
      }
    }

    // Scrolling until neither side has more, older entries first where wished:
    // in whatever order the pages come, every entry is shown exactly once.
    method ScrollThrough(kind: Kind, rows: seq<Row>, today: int, wishOlder: seq<bool>)
      requires Computes(rows) && Distinct(rows)
      modifies this
      ensures entries == multiset(Full(kind, rows)) && !hasBefore && !hasAfter
    {
      hide Computes, Full, Distinct, FirstWindow, Grow;
      LoadInitialData(kind, rows, today);
      ghost var full, window := Full(kind, rows), FirstWindow(rows, today);
      var i := 0;
      while hasBefore || hasAfter
        invariant full == Full(kind, rows) && Shows(full, window)
        decreases |rows| - (window.1 - window.0)
      {
        var older := hasBefore && (!hasAfter || (i < |wishOlder| && wishOlder[i]));
        var direction := if older then Before else After;
        LoadMore(kind, rows, direction, window);
        GrowGrows(|rows|, window, direction);
        window := Grow(|rows|, window, direction);
        i := i + 1;
      }
      assert window.0 == 0 && window.1 == |full|;
      assert full[window.0..window.1] == full;
    }

    method Prepend(page: Page, ghost full: seq<Entry>, ghost window: (nat, nat))
      requires Shows(full, window) && IsNext(full, window, Before, page) && |page.entries| > 0
      requires AllNew(entries, page.entries)
      modifies this
      ensures Shows(full, Grow(|full|, window, Before))
    {
      hide Grow, Older, Newer, AllNew;
      Merge(page.entries);
      JoinSlices(full, Older(|full|, window), window.0, window.1);
      hasBefore := page.hasBefore;
      first := Some(page.first);
    }

    method Append(page: Page, ghost full: seq<Entry>, ghost window: (nat, nat))
      requires Shows(full, window) && IsNext(full, window, After, page) && |page.entries| > 0
      requires AllNew(entries, page.entries)
      modifies this
      ensures Shows(full, Grow(|full|, window, After))
    {
      hide Grow, Older, Newer, AllNew;
      Merge(page.entries);
      JoinSlices(full, window.0, window.1, Newer(|full|, window));
      hasAfter := page.hasAfter;
      last := Some(page.last);
    }

    method Fetch(kind: Kind, rows: seq<Row>, cursor: int, direction: Direction, ghost window: (nat, nat))
      returns (page: Page)
      requires Computes(rows) && !direction.Around?
      requires window.0 <= window.1 <= |rows| && (window.0 < window.1 || |rows| == 0)
      requires cursor == if direction.Before? then window.0 else if window.0 < window.1 then window.1 - 1 else 0
      ensures IsNext(Full(kind, rows), window, direction, page)
    {
      hide Computes, Full, PageOf, Window, Grow, Older, Newer, IsNext;
      var r := GetAccountRegisterPaged(kind, rows, Offset(cursor), direction, PAGE_SIZE);
      FetchedPage(rows, Full(kind, rows), window, direction);
      page := r.value;
    }

    // Adding fetched entries, without those whose split id is shown already.
    method Merge(fetched: seq<Entry>)
      modifies this`entries
      ensures AllNew(old(entries), fetched) ==> entries == old(entries) + multiset(fetched)
    {
      var existing := set s <- entries :: s.split;
      var unique: seq<Entry> := [];
      var i := 0;
      while i < |fetched|
        invariant 0 <= i <= |fetched|
        invariant AllNew(entries, fetched) ==> unique == fetched[..i]
      {
        if fetched[i].split !in existing {
          unique := unique + [fetched[i]];
        }
        i := i + 1;
      }
      assert fetched[..i] == fetched;
      entries := entries + multiset(unique);
    }
  }

  ghost predicate AllNew(shown: multiset<Entry>, fetched: seq<Entry>) {
    forall e <- fetched, s <- shown :: e.split != s.split
  }

  function Older(n: nat, window: (nat, nat)): nat {
    Grow(n, window, Before).0
  }

  function Newer(n: nat, window: (nat, nat)): nat {
    Grow(n, window, After).1
  }

  lemma JoinSlices(full: seq<Entry>, a: nat, b: nat, c: nat)
    requires a <= b <= c <= |full|
    ensures multiset(full[a..b]) + multiset(full[b..c]) == multiset(full[a..c])
  {
    assert full[a..b] + full[b..c] == full[a..c];
  }

  // Three quarters of the first page lie before the date.
  function FirstWindow(rows: seq<Row>, today: int): (nat, nat) {
    var lo := Clamp(CountBefore(rows, today) - PAGE_SIZE * 3 / 4, |rows|);
    (lo, Clamp(lo + PAGE_SIZE, |rows|))
  }

  lemma FirstPage(rows: seq<Row>, full: seq<Entry>, today: int)
    requires |full| == |rows|
    ensures var (lo, hi) := FirstWindow(rows, today);
      && lo <= hi <= |full| && (lo < hi || |full| == 0)
      && Window(rows, Day(today), Around, PAGE_SIZE).Some?
      && var (offset, lim) := Window(rows, Day(today), Around, PAGE_SIZE).value;
      PageOf(full, offset, lim)
        == Ok(Page(full[lo..hi], lo > 0, hi < |full|, lo, if lo < hi then hi - 1 else 0, |full|))
  {
    hide CountBefore;
  }

  lemma GrowGrows(n: nat, window: (nat, nat), direction: Direction)
    requires window.0 <= window.1 <= n && CanGrow(n, window, direction)
    ensures var wider := Grow(n, window, direction); wider.1 - wider.0 > window.1 - window.0
  {
  }

  // The page next to the window.
  ghost predicate IsNext(full: seq<Entry>, window: (nat, nat), direction: Direction, page: Page)
    requires window.0 <= window.1 <= |full|
  {
    var (lo, hi) := window;
    var (a, b) := (Older(|full|, window), Newer(|full|, window));
    && a <= lo && hi <= b <= |full|
    && (a == lo ==> lo == 0) && (b == hi ==> hi == |full|)
    && Grow(|full|, window, direction) == (if direction.Before? then (a, hi) else (lo, b))
    && (direction.Before? ==>
        page.entries == full[a..lo] && (lo > 0 ==> page.first == a && (page.hasBefore <==> a > 0)))
    && (!direction.Before? ==>
        page.entries == full[hi..b] && (hi < |full| ==> page.last == b - 1 && (page.hasAfter <==> b < |full|)))
  }

  // It is what comes back for the offsets the client keeps.
  lemma FetchedPage(rows: seq<Row>, full: seq<Entry>, window: (nat, nat), direction: Direction)
    requires |full| == |rows| && window.0 <= window.1 <= |full| && (window.0 < window.1 || |full| == 0)
    requires !direction.Around?
    ensures var (lo, hi) := window;
      var cursor := if direction.Before? then lo else if lo < hi then hi - 1 else 0;
      && Window(rows, Offset(cursor), direction, PAGE_SIZE).Some?
      && var (offset, lim) := Window(rows, Offset(cursor), direction, PAGE_SIZE).value;
      PageOf(full, offset, lim).Ok? && IsNext(full, window, direction, PageOf(full, offset, lim).value)
  {
  }

  lemma SlicesAreDisjoint(kind: Kind, rows: seq<Row>, lo: nat, hi: nat, a: nat, b: nat)
    requires Computes(rows) && Distinct(rows)
    requires lo <= hi <= |rows| && a <= b <= |rows| && (b <= lo || hi <= a)
    ensures AllNew(multiset(Full(kind, rows)[lo..hi]), Full(kind, rows)[a..b])
  {
    hide Computes, BalanceAfter, Amount;
    var full := Full(kind, rows);
    forall e <- full[a..b], s <- full[lo..hi]
      ensures e.split != s.split
    {
      var i :| a <= i < b && full[i] == e;
      var j :| lo <= j < hi && full[j] == s;
      assert rows[i].split == e.split && rows[j].split == s.split;
    }
    assert forall s :: s in multiset(full[lo..hi]) <==> s in full[lo..hi];
  }

  // Nothing in the next page is shown yet; an empty one means there is no more.
  lemma NextIsNew(kind: Kind, rows: seq<Row>, window: (nat, nat), direction: Direction, page: Page)
    requires Computes(rows) && Distinct(rows) && !direction.Around?
    requires window.0 <= window.1 <= |rows| && IsNext(Full(kind, rows), window, direction, page)
    ensures AllNew(multiset(Full(kind, rows)[window.0..window.1]), page.entries)
    ensures |page.entries| == 0 ==>
      && Grow(|rows|, window, direction) == window
      && (if direction.Before? then window.0 == 0 else window.1 == |rows|)
  {
    hide Computes, Full, Distinct, AllNew, Grow, Older, Newer;
    var (lo, hi) := window;
    if direction.Before? {
      SlicesAreDisjoint(kind, rows, lo, hi, Older(|rows|, window), lo);
    } else {
      SlicesAreDisjoint(kind, rows, lo, hi, hi, Newer(|rows|, window));
    }
  }

  // ------------------------------------------------------------ every way of scrolling

  predicate CanGrow(n: nat, window: (nat, nat), direction: Direction) {
    match direction
    case Before => window.0 > 0
    case After => window.1 < n
    case Around => false
  }

  ghost predicate AllGrow(n: nat, window: (nat, nat), moves: seq<Direction>)
    decreases |moves|
  {
    |moves| != 0 ==> CanGrow(n, window, moves[0]) && AllGrow(n, Grow(n, window, moves[0]), moves[1..])
  }

  function GrowAll(n: nat, window: (nat, nat), moves: seq<Direction>): (nat, nat)
    decreases |moves|
  {
    if |moves| == 0 then window else GrowAll(n, Grow(n, window, moves[0]), moves[1..])
  }

  // Whatever order older and newer pages are asked for in, every load adds at
  // least one entry, so loading ends; and when neither direction has more, the
  // window is the whole register.
  lemma {:induction false} ScrollingCoversEverything(n: nat, window: (nat, nat), moves: seq<Direction>)
    requires window.0 <= window.1 <= n && AllGrow(n, window, moves)
    ensures var end := GrowAll(n, window, moves);
      && end.0 <= window.0 && window.1 <= end.1 <= n
      && |moves| <= (window.0 - end.0) + (end.1 - window.1)
      && (!CanGrow(n, end, Before) && !CanGrow(n, end, After) ==> end == (0, n))
    decreases |moves|
  {
    if |moves| != 0 {
      ScrollingCoversEverything(n, Grow(n, window, moves[0]), moves[1..]);
    }
  }

  // The page around a date starts before it and reaches the first entry on or
  // after it, if there is one.
  lemma AroundShowsTheDate(rows: seq<Row>, timestamp: int, limit: nat)
    requires limit > 0 && forall i, j :: 0 <= i < j < |rows| ==> rows[i].date <= rows[j].date
    ensures var position := CountBefore(rows, timestamp);
      && (forall i :: 0 <= i < position ==> rows[i].date < timestamp)
      && (forall i :: position <= i < |rows| ==> rows[i].date >= timestamp)
      && var (offset, lim) := Window(rows, Day(timestamp), Around, limit).value;
         offset <= position < offset + lim
  {
    CountIsPosition(rows, timestamp);
  }

  lemma {:induction false} CountIsPosition(rows: seq<Row>, timestamp: int)
    requires forall i, j :: 0 <= i < j < |rows| ==> rows[i].date <= rows[j].date
    ensures var position := CountBefore(rows, timestamp);
      && (forall i :: 0 <= i < position ==> rows[i].date < timestamp)
      && (forall i :: position <= i < |rows| ==> rows[i].date >= timestamp)
  {
    if |rows| != 0 {
      CountIsPosition(rows[..|rows| - 1], timestamp);
    }
  }

  // With a day as the cursor, the page before it ends with the last entry before
  // that day, the page after it begins with the first entry after it.
  lemma DayPages(rows: seq<Row>, timestamp: int, limit: nat)
    requires limit > 0 && forall i, j :: 0 <= i < j < |rows| ==> rows[i].date <= rows[j].date
    ensures var (offset, lim) := Window(rows, Day(timestamp), Before, limit).value;
      && 0 <= offset && 0 <= lim <= limit && offset + lim <= |rows| && (offset > 0 ==> lim == limit)
      && (forall i :: 0 <= i < offset + lim ==> rows[i].date < timestamp)
      && (forall i :: offset + lim <= i < |rows| ==> rows[i].date >= timestamp)
    ensures var (offset, lim) := Window(rows, Day(timestamp), After, limit).value;
      && 0 <= offset <= |rows| && lim == limit
      && (forall i :: 0 <= i < offset ==> rows[i].date <= timestamp)
      && (forall i :: offset <= i < |rows| ==> rows[i].date > timestamp)
  {
    CountIsPosition(rows, timestamp);
    CountUpToIsPosition(rows, timestamp);
  }

  lemma {:induction false} CountUpToIsPosition(rows: seq<Row>, timestamp: int)
    requires forall i, j :: 0 <= i < j < |rows| ==> rows[i].date <= rows[j].date
    ensures var position := CountUpTo(rows, timestamp);
      && (forall i :: 0 <= i < position ==> rows[i].date <= timestamp)
      && (forall i :: position <= i < |rows| ==> rows[i].date > timestamp)
  {
    if |rows| != 0 {
      CountUpToIsPosition(rows[..|rows| - 1], timestamp);
    }
  }

  // A page holds the entries from its offset on, as many as asked for and there
  // are, and its flags say whether there are entries on either side.
  lemma PageShows(full: seq<Entry>, offset: nat, limit: int)
    ensures PageOf(full, offset, limit).Ok?
    ensures var page, n := PageOf(full, offset, limit).value, |PageOf(full, offset, limit).value.entries|;
      && page.total == |full| && (page.hasBefore <==> offset > 0) && (page.hasAfter <==> offset + n < |full|)
      && (n > 0 ==> offset + n <= |full| && page.entries == full[offset..offset + n])
      && (n > 0 ==> page.first == offset && page.last == offset + n - 1)
      && (limit > 0 && offset + limit <= |full| ==> n == limit)
      && (limit > 0 && offset + limit > |full| >= offset ==> offset + n == |full|)
      && (limit <= 0 || offset > |full| ==> n == 0)
  {
  }

  // With an offset, the page before it ends right before it, the page after it
  // begins right after it.
  lemma OffsetPages(rows: seq<Row>, n: nat, limit: nat)
    ensures var (offset, lim) := Window(rows, Offset(n), Before, limit).value;
      0 <= offset && offset + lim == n && lim <= limit && (offset > 0 ==> lim == limit)
    ensures Window(rows, Offset(n), After, limit) == Some((n + 1, limit))
  {
  }

  // An entry shows its row: what goes into an account of these five types, or out
  // of any other, is a deposit, and the column holds the size of the amount.
  lemma EntryShowsRow(kind: Kind, rows: seq<Row>, i: nat)
    requires Computes(rows) && i < |rows| && rows[i].quantityDenom > 0
    ensures var e, r := Full(kind, rows)[i], rows[i];
      var size := Some(Numeric(Abs(r.quantityNum), r.quantityDenom));
      && e.split == r.split && e.date == r.date && e.description == r.description && e.mark == r.mark
      && (if kind in {Asset, Bank, Cash, Expense, Receivable} then
            if r.quantityNum >= 0 then e.deposit == size && e.withdrawal == None
            else e.deposit == None && e.withdrawal == size
          else
            if r.quantityNum > 0 then e.deposit == None && e.withdrawal == size
            else e.deposit == size && e.withdrawal == None)
  {
    hide Computes, BalanceAfter;
  }

  // ------------------------------------------------------------ rows of the ledger

  predicate OnAccount(b: Books, account: Guid, line: Line) {
    && line.txn in b.txns && line.index < |b.txns[line.txn].splits|
    && b.txns[line.txn].splits[line.index].account == account
  }

  // What the register's query returns: the account's splits, by date.
  ghost predicate IsJoin(b: Books, account: Guid, rows: seq<Row>) {
    && Distinct(rows)
    && (forall i, j :: 0 <= i < j < |rows| ==> rows[i].date <= rows[j].date)
    && (forall line :: OnAccount(b, account, line) <==> exists r <- rows :: r.split == line)
    && (forall r <- rows :: IsRowOf(b, account, r))
  }

  predicate IsRowOf(b: Books, account: Guid, r: Row) {
    OnAccount(b, account, r.split) && r == RowOf(b, r.split)
  }

  function RowOf(b: Books, line: Line): Row
    requires line.txn in b.txns && line.index < |b.txns[line.txn].splits|
  {
    var (t, s) := (b.txns[line.txn], b.txns[line.txn].splits[line.index]);
    Row(line, t.date, t.description, s.quantityNum, s.quantityDenom, s.mark)
  }

  // A row of the register shows its split, and the transaction's date and text.
  lemma RowShowsSplit(b: Books, account: Guid, rows: seq<Row>, r: Row)
    requires IsJoin(b, account, rows) && r in rows
    ensures r.split.txn in b.txns && r.split.index < |b.txns[r.split.txn].splits|
    ensures var t, s := b.txns[r.split.txn], b.txns[r.split.txn].splits[r.split.index];
      && s.account == account && r.date == t.date && r.description == t.description
      && r.quantityNum == s.quantityNum && r.quantityDenom == s.quantityDenom && r.mark == s.mark
  {
    assert IsRowOf(b, account, r);
  }

  // The extra condition of the paged query.
  function InBook(b: Books, book: Guid, rows: seq<Row>): (out: seq<Row>)
    ensures forall r :: r in out <==> r in rows && r.split.txn in b.txns && b.txns[r.split.txn].book == book
  {
    if |rows| == 0 then []
    else
      var r := rows[|rows| - 1];
      InBook(b, book, rows[..|rows| - 1]) +
      if r.split.txn in b.txns && b.txns[r.split.txn].book == book then [r] else []
  }

  // Only the paged queries restrict transactions to the book; in valid books
  // the full register sees the same rows.
  lemma {:induction false} BookFilterIsIdle(b: Books, book: Guid, account: Guid, rows: seq<Row>)
    requires Valid(b) && account in b.accounts && b.accounts[account].book == book
    requires forall r <- rows :: OnAccount(b, account, r.split)
    ensures InBook(b, book, rows) == rows
  {
    hide Valid, OnAccount, InBook;
    if |rows| == 0 {
      NothingInBook(b, book);
    } else {
      var init, r := rows[..|rows| - 1], rows[|rows| - 1];
      assert rows == init + [r] && r in rows;
      BookFilterIsIdle(b, book, account, init);
      SplitInBook(b, account, r.split);
      InBookSnoc(b, book, init, r);
    }
  }

  lemma NothingInBook(b: Books, book: Guid)
    ensures InBook(b, book, []) == []
  {
  }

  lemma InBookSnoc(b: Books, book: Guid, init: seq<Row>, r: Row)
    requires r.split.txn in b.txns && b.txns[r.split.txn].book == book
    ensures InBook(b, book, init + [r]) == InBook(b, book, init) + [r]
  {
    assert (init + [r])[..|init|] == init;
  }

  lemma SplitInBook(b: Books, account: Guid, line: Line)
    requires Valid(b) && account in b.accounts && OnAccount(b, account, line)
    ensures line.txn in b.txns && b.txns[line.txn].book == b.accounts[account].book
  {
    hide SplitSum;
    var t := b.txns[line.txn];
    assert WellPosted(b.accounts, t) && t.splits[line.index] in t.splits;
  }
}
