/**
 Snapshot quotas and the scheduler (enforceSnapshotQuota, takeSnapshotForBook
 and PurgeExpiredSnapshots in backend/internal/services/snapshot_service.go;
 runTick and processConfig in backend/internal/scheduler/snapshot_scheduler.go).
 Times are seconds; the quota check and the insert are one step.
 */
module Snapshots {
  import opened Wrappers

  type BookId = nat

  datatype Trigger = Manual | Scheduled | Active

  // id grows with every insert.
  datatype Snapshot = Snapshot(id: nat, book: BookId, trigger: Trigger, at: int)

  const HOUR := 3600
  const DAY := 24 * HOUR
  const ACTIVE_INTERVAL := 300

  const QUOTA_SCHEDULED: nat := 23
  const QUOTA_ACTIVE: nat := 12
  const QUOTA_MANUAL: nat := 15

  predicate IsOf(s: Snapshot, book: BookId, trigger: Trigger) {
    s.book == book && s.trigger == trigger
  }

  // How many snapshots of that trigger were created in (lo, hi].
  function Count(store: seq<Snapshot>, book: BookId, trigger: Trigger, lo: int, hi: int): (n: nat)
    ensures n <= |store|
  {
    if |store| == 0 then 0
    else
      var s := store[|store| - 1];
      Count(store[..|store| - 1], book, trigger, lo, hi) + if IsOf(s, book, trigger) && lo < s.at <= hi then 1 else 0
  }

  // Without the snapshots with those ids.
  function Without(store: seq<Snapshot>, gone: set<nat>): (r: seq<Snapshot>)
    ensures forall s :: s in r <==> s in store && s.id !in gone
  {
    if |store| == 0 then []
    else
      var s := store[|store| - 1];
      Without(store[..|store| - 1], gone) + if s.id in gone then [] else [s]
  }

  // MAX(created_at).
  function LastTime(store: seq<Snapshot>, book: BookId): (t: Option<int>)
    ensures t.None? <==> forall s <- store :: s.book != book
    ensures t.Some? ==> forall s <- store :: s.book == book ==> s.at <= t.value
  {
    if |store| == 0 then None
    else
      var s := store[|store| - 1];
      var rest := LastTime(store[..|store| - 1], book);
      if s.book != book then rest
      else if rest.None? || s.at > rest.value then Some(s.at) else rest
  }

  // ------------------------------------------------------------ operations

  datatype System = System(store: seq<Snapshot>, next: nat, clock: int)

  // The row ORDER BY created_at LIMIT 1 returns; ties are the database's choice.
  predicate IsOldestActive(store: seq<Snapshot>, book: BookId, victim: nat) {
    exists s <- store ::
      s.id == victim && IsOf(s, book, Active) && forall u <- store :: IsOf(u, book, Active) ==> s.at <= u.at
  }

  function Insert(y: System, book: BookId, trigger: Trigger, t: int): System {
    System(y.store + [Snapshot(y.next, book, trigger, t)], y.next + 1, t)
  }

  // Whether the quota turns the snapshot down.
  predicate Exceeded(store: seq<Snapshot>, book: BookId, trigger: Trigger, t: int) {
    match trigger
    case Scheduled => Count(store, book, Scheduled, t - DAY, t) >= QUOTA_SCHEDULED
    case Manual => Count(store, book, Manual, t - DAY, t) >= QUOTA_MANUAL
    case Active => false
  }

  predicate Rotates(store: seq<Snapshot>, book: BookId, trigger: Trigger, t: int) {
    trigger.Active? && Count(store, book, Active, t - DAY, t) >= QUOTA_ACTIVE
  }

  function Take(y: System, book: BookId, trigger: Trigger, t: int, victim: nat): System {
    if Exceeded(y.store, book, trigger, t) then y.(clock := t)
    else if Rotates(y.store, book, trigger, t) then Insert(y.(store := Without(y.store, {victim})), book, trigger, t)
    else Insert(y, book, trigger, t)
  }

  datatype Config = Config(book: BookId, frequencyHours: nat, ttlHours: nat, activeMode: bool)

  // What processConfig decides: which snapshot is due, judged at now, the start
  // of the tick.
  function Due(store: seq<Snapshot>, cfg: Config, now: int, lastChange: Option<int>): Option<Trigger> {
    var last := LastTime(store, cfg.book);
    if cfg.activeMode && lastChange.Some? && now - lastChange.value < ACTIVE_INTERVAL
      && (last.None? || now - last.value >= ACTIVE_INTERVAL)
    then Some(Active)
    else if cfg.frequencyHours > 0 && (last.None? || now - last.value >= cfg.frequencyHours * HOUR) then Some(Scheduled)
    else None
  }

  predicate Expired(s: Snapshot, configs: map<BookId, Config>, now: int) {
    && s.book in configs && configs[s.book].ttlHours > 0
    && s.at < now - configs[s.book].ttlHours * HOUR
  }

  function Purged(store: seq<Snapshot>, configs: map<BookId, Config>, now: int): seq<Snapshot> {
    Without(store, set s <- store | Expired(s, configs, now) :: s.id)
  }

  // The snapshot of that id, if it is the book's.
  function Named(store: seq<Snapshot>, book: BookId, id: nat): set<nat> {
    set s <- store | s.book == book && s.id == id :: s.id
  }

  datatype Event =
    | ByUser(book: BookId, t: int)
    | Process(cfg: Config, now: int, lastChange: Option<int>, t: int, victim: nat)
    | Purge(configs: map<BookId, Config>, t: int)
    | Delete(book: BookId, id: nat, t: int)

  predicate Enabled(y: System, event: Event) {
    && event.t >= y.clock
    && (event.Process? ==>
        && event.now <= event.t
        && (Due(y.store, event.cfg, event.now, event.lastChange) == Some(Active)
            && Rotates(y.store, event.cfg.book, Active, event.t)
            ==> IsOldestActive(y.store, event.cfg.book, event.victim)))
  }

  function Apply(y: System, event: Event): System {
    match event
    case ByUser(book, t) => Take(y, book, Manual, t, 0)
    case Process(cfg, now, lastChange, t, victim) => (
      match Due(y.store, cfg, now, lastChange)
      case Some(trigger) => Take(y, cfg.book, trigger, t, victim)
      case None => y.(clock := t))
    case Purge(configs, t) => y.(store := Purged(y.store, configs, t), clock := t)
    case Delete(book, id, t) => y.(store := Without(y.store, Named(y.store, book, id)), clock := t)
  }

  // ------------------------------------------------------------ counting

  lemma CountSnoc(store: seq<Snapshot>, s: Snapshot, book: BookId, trigger: Trigger, lo: int, hi: int)
    ensures Count(store + [s], book, trigger, lo, hi)
      == Count(store, book, trigger, lo, hi) + if IsOf(s, book, trigger) && lo < s.at <= hi then 1 else 0
  {
    assert (store + [s])[..|store|] == store;
  }

  lemma {:induction false} CountWithout(
    store: seq<Snapshot>, gone: set<nat>, book: BookId, trigger: Trigger, lo: int, hi: int)
    ensures Count(Without(store, gone), book, trigger, lo, hi) <= Count(store, book, trigger, lo, hi)
  {
    if |store| != 0 {
      var init, s := store[..|store| - 1], store[|store| - 1];
      CountWithout(init, gone, book, trigger, lo, hi);
      CountSnoc(Without(init, gone), s, book, trigger, lo, hi);
      assert s.id in gone ==> Without(store, gone) == Without(init, gone);
    }
  }

  // Sliding a window forward to end now loses nothing.
  lemma {:induction false} CountUpToNow(store: seq<Snapshot>, book: BookId, trigger: Trigger, lo: int, t: int)
    requires (forall s <- store :: s.at <= t) && lo >= t - DAY
    ensures Count(store, book, trigger, lo, lo + DAY) <= Count(store, book, trigger, t - DAY, t)
  {
    if |store| != 0 {
      CountUpToNow(store[..|store| - 1], book, trigger, lo, t);
    }
  }

  // ------------------------------------------------------------ the invariant

  ghost predicate AllPairs(store: seq<Snapshot>, rel: (Snapshot, Snapshot) -> bool) {
    |store| != 0 ==>
      var init, u := store[..|store| - 1], store[|store| - 1];
      AllPairs(init, rel) && forall s <- init :: rel(s, u)
  }

  // u, stored later, is no older; and if the scheduler took it, it is at least
  // five minutes younger than everything stored of the book before it.
  predicate Follows(s: Snapshot, u: Snapshot) {
    && s.id < u.id && s.at <= u.at
    && (s.book == u.book && !u.trigger.Manual? ==> u.at - s.at >= ACTIVE_INTERVAL)
  }

  // In the day after lo.
  predicate QuotaAt(store: seq<Snapshot>, book: BookId, lo: int) {
    && Count(store, book, Scheduled, lo, lo + DAY) <= QUOTA_SCHEDULED
    && Count(store, book, Manual, lo, lo + DAY) <= QUOTA_MANUAL
  }

  ghost predicate WithinQuota(store: seq<Snapshot>) {
    forall book, lo :: QuotaAt(store, book, lo)
  }

  ghost predicate Inv(y: System) {
    && (forall s <- y.store :: s.at <= y.clock && s.id < y.next)
    && AllPairs(y.store, Follows)
    && WithinQuota(y.store)
  }

  lemma {:induction false} PairsWithout(store: seq<Snapshot>, gone: set<nat>, rel: (Snapshot, Snapshot) -> bool)
    requires AllPairs(store, rel)
    ensures AllPairs(Without(store, gone), rel)
  {
    if |store| != 0 {
      var init, s := store[..|store| - 1], store[|store| - 1];
      PairsWithout(init, gone, rel);
      PairsSnoc(Without(init, gone), s, rel);
      assert s.id in gone ==> Without(store, gone) == Without(init, gone);
    }
  }

  lemma PairsSnoc(store: seq<Snapshot>, u: Snapshot, rel: (Snapshot, Snapshot) -> bool)
    ensures AllPairs(store + [u], rel) <==> AllPairs(store, rel) && forall s <- store :: rel(s, u)
  {
    assert (store + [u])[..|store|] == store;
  }

  lemma WithoutKeepsInv(y: System, gone: set<nat>, t: int)
    requires Inv(y) && t >= y.clock
    ensures Inv(y.(store := Without(y.store, gone), clock := t))
  {
    hide Count, Without, AllPairs;
    PairsWithout(y.store, gone, Follows);
    forall book, lo
      ensures QuotaAt(Without(y.store, gone), book, lo)
    {
      assert QuotaAt(y.store, book, lo);
      CountWithout(y.store, gone, book, Scheduled, lo, lo + DAY);
      CountWithout(y.store, gone, book, Manual, lo, lo + DAY);
    }
  }

  lemma InsertKeepsInv(y: System, book: BookId, trigger: Trigger, t: int)
    requires Inv(y) && t >= y.clock && !Exceeded(y.store, book, trigger, t)
    requires !trigger.Manual? ==> forall s <- y.store :: s.book == book ==> t - s.at >= ACTIVE_INTERVAL
    ensures Inv(Insert(y, book, trigger, t))
  {
    hide Count, AllPairs;
    var u := Snapshot(y.next, book, trigger, t);
    PairsSnoc(y.store, u, Follows);
    forall k, lo
      ensures QuotaAt(y.store + [u], k, lo)
    {
      assert QuotaAt(y.store, k, lo);
      CountSnoc(y.store, u, k, Scheduled, lo, lo + DAY);
      CountSnoc(y.store, u, k, Manual, lo, lo + DAY);
      if lo >= t - DAY {
        CountUpToNow(y.store, k, Scheduled, lo, t);
        CountUpToNow(y.store, k, Manual, lo, t);
      }
    }
  }

  lemma TakeKeepsInv(y: System, book: BookId, trigger: Trigger, t: int, victim: nat)
    requires Inv(y) && t >= y.clock
    requires !trigger.Manual? ==> forall s <- y.store :: s.book == book ==> t - s.at >= ACTIVE_INTERVAL
    ensures Inv(Take(y, book, trigger, t, victim))
  {
    hide Count, AllPairs, WithinQuota;
    if Exceeded(y.store, book, trigger, t) {
    } else if Rotates(y.store, book, trigger, t) {
      WithoutKeepsInv(y, {victim}, y.clock);
      InsertKeepsInv(y.(store := Without(y.store, {victim})), book, trigger, t);
    } else {
      InsertKeepsInv(y, book, trigger, t);
    }
  }

  lemma StepKeepsInv(y: System, event: Event)
    requires Inv(y) && Enabled(y, event)
    ensures Inv(Apply(y, event))
  {
    hide Take, Count, WithinQuota, AllPairs;
    match event
    case ByUser(book, t) => TakeKeepsInv(y, book, Manual, t, 0);
    case Process(cfg, now, lastChange, t, victim) =>
      var due := Due(y.store, cfg, now, lastChange);
      if due.Some? {
        TakeKeepsInv(y, cfg.book, due.value, t, victim);
      }
    case Purge(configs, t) =>
      WithoutKeepsInv(y, set s <- y.store | Expired(s, configs, t) :: s.id, t);
    case Delete(book, id, t) => WithoutKeepsInv(y, Named(y.store, book, id), t);
  }

  function StepAll(y: System, events: seq<Event>): System {
    if |events| == 0 then y else Apply(StepAll(y, events[..|events| - 1]), events[|events| - 1])
  }

  predicate AllEnabled(y: System, events: seq<Event>) {
    |events| != 0 ==>
      var init := events[..|events| - 1];
      AllEnabled(y, init) && Enabled(StepAll(y, init), events[|events| - 1])
  }

  function Empty(t: int): System {
    System([], 0, t)
  }

  lemma {:induction false} AlwaysInv(t: int, events: seq<Event>)
    requires AllEnabled(Empty(t), events)
    ensures Inv(StepAll(Empty(t), events))
  {
    hide Apply, Enabled, Inv;
    if |events| != 0 {
      var init := events[..|events| - 1];
      AlwaysInv(t, init);
      StepKeepsInv(StepAll(Empty(t), init), events[|events| - 1]);
    } else {
      EmptyInv(t);
    }
  }

  lemma EmptyInv(t: int)
    ensures Inv(Empty(t))
  {
    forall book, lo
      ensures QuotaAt([], book, lo)
    {
    }
  }

  // Whatever users, the scheduler and purges did: no 24-hour window, wherever it
  // lies, holds more than 23 scheduled or 15 manual snapshots of a book.
  lemma QuotasHoldInEveryWindow(t: int, events: seq<Event>, book: BookId, lo: int)
    requires AllEnabled(Empty(t), events)
    ensures var store := StepAll(Empty(t), events).store;
      && Count(store, book, Scheduled, lo, lo + DAY) <= QUOTA_SCHEDULED
      && Count(store, book, Manual, lo, lo + DAY) <= QUOTA_MANUAL
  {
    hide Count, StepAll, AllEnabled, AllPairs;
    AlwaysInv(t, events);
    assert QuotaAt(StepAll(Empty(t), events).store, book, lo);
  }

  lemma {:induction false} PairsAt(store: seq<Snapshot>, rel: (Snapshot, Snapshot) -> bool, i: nat, j: nat)
    requires AllPairs(store, rel) && i < j < |store|
    ensures rel(store[i], store[j])
  {
    if j < |store| - 1 {
      PairsAt(store[..|store| - 1], rel, i, j);
    } else {
      assert store[i] in store[..j];
    }
  }

  // Every snapshot the scheduler took is at least five minutes after every
  // snapshot of the book stored before it.
  lemma SchedulerKeepsItsDistance(t: int, events: seq<Event>, i: nat, j: nat)
    requires AllEnabled(Empty(t), events)
    requires i < j < |StepAll(Empty(t), events).store|
    ensures var store := StepAll(Empty(t), events).store;
      store[i].book == store[j].book && !store[j].trigger.Manual? ==> store[j].at - store[i].at >= ACTIVE_INTERVAL
  {
    AlwaysInv(t, events);
    PairsAt(StepAll(Empty(t), events).store, Follows, i, j);
  }

  // ------------------------------------------------------------ rotation

  function Total(store: seq<Snapshot>, book: BookId, trigger: Trigger): nat {
    if |store| == 0 then 0
    else Total(store[..|store| - 1], book, trigger) + if IsOf(store[|store| - 1], book, trigger) then 1 else 0
  }

  lemma {:induction false} WithoutNobody(store: seq<Snapshot>, gone: set<nat>)
    requires forall i :: 0 <= i < |store| ==> store[i].id !in gone
    ensures Without(store, gone) == store
  {
    if |store| != 0 {
      var init, s := store[..|store| - 1], store[|store| - 1];
      WithoutNobody(init, gone);
      assert s in store && Without(store, gone) == Without(init, gone) + [s];
    }
  }

  lemma {:induction false} WithoutOne(store: seq<Snapshot>, s: Snapshot, book: BookId, trigger: Trigger)
    requires AllPairs(store, Follows) && s in store && IsOf(s, book, trigger)
    ensures Total(Without(store, {s.id}), book, trigger) == Total(store, book, trigger) - 1
  {
    var init, u := store[..|store| - 1], store[|store| - 1];
    if u == s {
      forall i | 0 <= i < |init|
        ensures init[i].id !in {s.id}
      {
        assert init[i] in init && Follows(init[i], u);
      }
      WithoutNobody(init, {s.id});
      assert Without(store, {s.id}) == init;
    } else {
      assert s in init && s.id < u.id;
      WithoutOne(init, s, book, trigger);
      assert (Without(init, {s.id}) + [u])[..|Without(init, {s.id})|] == Without(init, {s.id});
    }
  }

  // At the cap an active snapshot replaces the oldest active one: the number of
  // active snapshots stays, and nothing else goes.
  lemma RotationKeepsTheCount(y: System, book: BookId, t: int, victim: nat)
    requires Inv(y) && Rotates(y.store, book, Active, t) && IsOldestActive(y.store, book, victim)
    ensures var y' := Take(y, book, Active, t, victim);
      && Total(y'.store, book, Active) == Total(y.store, book, Active)
      && (forall s <- y.store :: s.id != victim ==> s in y'.store)
      && (forall s <- y'.store :: s in y.store || s == Snapshot(y.next, book, Active, t))
      && (forall s <- y'.store :: s.id != victim)
  {
    hide Count, WithinQuota, AllPairs, Total, Without, Exceeded, Rotates;
    var s :| s in y.store && s.id == victim && IsOf(s, book, Active)
      && forall u <- y.store :: IsOf(u, book, Active) ==> s.at <= u.at;
    WithoutOne(y.store, s, book, Active);
    RotatingIsNotExceeding(y.store, book, t);
    TotalSnoc(Without(y.store, {victim}), Snapshot(y.next, book, Active, t), book, Active);
  }

  lemma RotatingIsNotExceeding(store: seq<Snapshot>, book: BookId, t: int)
    ensures !Exceeded(store, book, Active, t)
  {
  }

  lemma TotalSnoc(store: seq<Snapshot>, s: Snapshot, book: BookId, trigger: Trigger)
    ensures Total(store + [s], book, trigger) == Total(store, book, trigger) + if IsOf(s, book, trigger) then 1 else 0
  {
    assert (store + [s])[..|store|] == store;
  }

  // ------------------------------------------------------------ what is taken

  function Within(store: seq<Snapshot>, book: BookId, trigger: Trigger, lo: int, hi: int): set<Snapshot> {
    set s <- store | s.book == book && s.trigger == trigger && lo < s.at <= hi
  }

  lemma WithinSnoc(store: seq<Snapshot>, u: Snapshot, book: BookId, trigger: Trigger, lo: int, hi: int)
    ensures Within(store + [u], book, trigger, lo, hi)
      == Within(store, book, trigger, lo, hi) + if IsOf(u, book, trigger) && lo < u.at <= hi then {u} else {}
  {
  }

  lemma {:induction false} CountIsCardinality(store: seq<Snapshot>, book: BookId, trigger: Trigger, lo: int, hi: int)
    requires AllPairs(store, Follows)
    ensures Count(store, book, trigger, lo, hi) == |Within(store, book, trigger, lo, hi)|
  {
    hide AllPairs, Count;
    if |store| == 0 {
      CountNone(book, trigger, lo, hi);
    } else {
      var init, u := store[..|store| - 1], store[|store| - 1];
      assert store == init + [u];
      LastFollows(store);
      CountIsCardinality(init, book, trigger, lo, hi);
      WithinSnoc(init, u, book, trigger, lo, hi);
      CountSnoc(init, u, book, trigger, lo, hi);
      assert u !in Within(init, book, trigger, lo, hi);
    }
  }

  lemma CountNone(book: BookId, trigger: Trigger, lo: int, hi: int)
    ensures Count([], book, trigger, lo, hi) == 0
  {
  }

  lemma LastFollows(store: seq<Snapshot>)
    requires |store| > 0 && AllPairs(store, Follows)
    ensures AllPairs(store[..|store| - 1], Follows)
    ensures forall s <- store[..|store| - 1] :: s.id < store[|store| - 1].id
  {
  }

  // The snapshots of that trigger a book has had in the 24 hours up to t.
  function Recent(y: System, book: BookId, trigger: Trigger, t: int): set<Snapshot> {
    Within(y.store, book, trigger, t - 86400, t)
  }

  // A snapshot is taken, at the end of the store and as of t, unless the book has
  // had 15 manual or 23 scheduled ones within the day; an active one always is, in
  // place of an oldest one where there were 12.
  lemma TakenIff(y: System, book: BookId, trigger: Trigger, t: int, victim: nat)
    requires Inv(y)
    ensures var y' := Take(y, book, trigger, t, victim);
      var n := |Recent(y, book, trigger, t)|;
      if (trigger.Manual? && n >= 15) || (trigger.Scheduled? && n >= 23) then y' == System(y.store, y.next, t)
      else
        && y'.next == y.next + 1 && y'.clock == t
        && Snapshot(y.next, book, trigger, t) in y'.store
        && (forall s <- y'.store :: s in y.store || s == Snapshot(y.next, book, trigger, t))
        && (forall s <- y.store :: s in y'.store || (trigger.Active? && n >= 12 && s.id == victim))
        && (trigger.Active? && n >= 12 ==> forall s <- y'.store :: s.id != victim || s.id == y.next)
  {
    hide Count, AllPairs, WithinQuota;
    CountIsCardinality(y.store, book, trigger, t - DAY, t);
  }

  // Whatever the configuration, it can be processed at any time.
  lemma CanAlwaysProcess(y: System, cfg: Config, now: int, lastChange: Option<int>, t: int)
    requires t >= y.clock && t >= now
    ensures exists victim :: Enabled(y, Process(cfg, now, lastChange, t, victim))
  {
    hide Due, Count;
    var victim: nat := 0;
    if Rotates(y.store, cfg.book, Active, t) {
      CountedExists(y.store, cfg.book, Active, t - DAY, t);
      var s := Oldest(y.store, cfg.book);
      victim := s.id;
    }
    assert Enabled(y, Process(cfg, now, lastChange, t, victim));
  }

  lemma {:induction false} CountedExists(store: seq<Snapshot>, book: BookId, trigger: Trigger, lo: int, hi: int)
    requires Count(store, book, trigger, lo, hi) > 0
    ensures exists s <- store :: IsOf(s, book, trigger)
  {
    var init, s := store[..|store| - 1], store[|store| - 1];
    if !IsOf(s, book, trigger) {
      CountedExists(init, book, trigger, lo, hi);
    }
  }

  lemma {:induction false} Oldest(store: seq<Snapshot>, book: BookId) returns (s: Snapshot)
    requires exists u <- store :: IsOf(u, book, Active)
    ensures s in store && IsOf(s, book, Active) && forall u <- store :: IsOf(u, book, Active) ==> s.at <= u.at
  {
    var init, last := store[..|store| - 1], store[|store| - 1];
    assert store == init + [last];
    if exists u <- init :: IsOf(u, book, Active) {
      s := Oldest(init, book);
      if IsOf(last, book, Active) && last.at < s.at {
        s := last;
      }
    } else {
      s := last;
    }
  }

  // What is due, over the whole store: an active snapshot if the book is in active
  // mode, changed within the last five minutes and has no younger one than that; if
  // not, a scheduled one if the book has none younger than its frequency.
  lemma DueIff(store: seq<Snapshot>, cfg: Config, now: int, lastChange: Option<int>)
    ensures Due(store, cfg, now, lastChange) == Some(Active) <==>
      && cfg.activeMode && lastChange.Some? && now - lastChange.value < 300
      && forall s <- store :: s.book == cfg.book ==> now - s.at >= 300
    ensures Due(store, cfg, now, lastChange) == Some(Scheduled) <==>
      && Due(store, cfg, now, lastChange) != Some(Active)
      && cfg.frequencyHours > 0
      && forall s <- store :: s.book == cfg.book ==> now - s.at >= cfg.frequencyHours * 3600
    ensures Due(store, cfg, now, lastChange) != Some(Manual)
  {
    hide LastTime;
    if LastTime(store, cfg.book).Some? {
      LastIsStored(store, cfg.book);
    }
  }

  // ------------------------------------------------------------ what a purge deletes

  // The book keeps its snapshots for good, or s is not older than it keeps them.
  predicate Keepable(s: Snapshot, configs: map<BookId, Config>, t: int) {
    s.book !in configs || configs[s.book].ttlHours == 0 || s.at >= t - configs[s.book].ttlHours * 3600
  }

  lemma {:induction false} SameId(store: seq<Snapshot>, s: Snapshot, u: Snapshot)
    requires AllPairs(store, Follows) && s in store && u in store && s.id == u.id
    ensures s == u
  {
    var i, j :| 0 <= i < |store| && store[i] == s && 0 <= j < |store| && store[j] == u;
    if i < j {
      PairsAt(store, Follows, i, j);
    } else if j < i {
      PairsAt(store, Follows, j, i);
    }
  }

  // A purge at t keeps exactly what is keepable then, as it was.
  lemma PurgeKeepsExactly(y: System, configs: map<BookId, Config>, t: int)
    requires Inv(y)
    ensures var y' := Apply(y, Purge(configs, t));
      && (forall s :: s in y'.store <==> s in y.store && Keepable(s, configs, t))
      && y'.next == y.next && y'.clock == t
  {
    hide AllPairs, WithinQuota, Without;
    var gone := set s <- y.store | Expired(s, configs, t) :: s.id;
    forall s <- y.store
      ensures s.id in gone <==> !Keepable(s, configs, t)
    {
      if s.id in gone {
        var u :| u in y.store && Expired(u, configs, t) && u.id == s.id;
        SameId(y.store, s, u);
      }
    }
  }

  // Deleting by id removes that snapshot, if it is the book's, and no other.
  lemma DeleteRemovesOnly(y: System, book: BookId, id: nat, t: int)
    requires Inv(y)
    ensures var y' := Apply(y, Delete(book, id, t));
      && (forall s :: s in y'.store <==> s in y.store && (s.id != id || s.book != book))
      && y'.next == y.next && y'.clock == t
  {
    hide AllPairs, WithinQuota, Without;
    forall s <- y.store
      ensures s.id in Named(y.store, book, id) <==> s.id == id && s.book == book
    {
      if s.id in Named(y.store, book, id) {
        var u :| u in y.store && u.book == book && u.id == id && u.id == s.id;
        SameId(y.store, s, u);
      }
    }
  }

  // The event deletes s by its id, or rotates it out for a new active one.
  predicate TakesOut(y: System, event: Event, s: Snapshot) {
    || (event.Delete? && event.id == s.id && event.book == s.book)
    || (event.Process? && event.victim == s.id
        && Due(y.store, event.cfg, event.now, event.lastChange) == Some(Active)
        && Rotates(y.store, event.cfg.book, Active, event.t))
  }

  lemma StaysUnlessTakenOut(y: System, event: Event, s: Snapshot)
    requires Inv(y) && s in y.store && !TakesOut(y, event, s)
    requires event.Purge? ==> Keepable(s, event.configs, event.t)
    ensures s in Apply(y, event).store
  {
    hide Count, AllPairs, WithinQuota, Without, Due;
    if event.Purge? {
      PurgeKeepsExactly(y, event.configs, event.t);
    } else if event.Delete? {
      DeleteRemovesOnly(y, event.book, event.id, event.t);
    }
  }

  // No event of the run takes s out, and no purge finds it too old.
  predicate Spared(y: System, events: seq<Event>, s: Snapshot) {
    |events| != 0 ==>
      var init, event := events[..|events| - 1], events[|events| - 1];
      && Spared(y, init, s) && !TakesOut(StepAll(y, init), event, s)
      && (event.Purge? ==> Keepable(s, event.configs, event.t))
  }

  // Over any run, a snapshot goes only by its id, by rotation, or by its age.
  lemma {:induction false} OnlyTheOldGo(y: System, events: seq<Event>, s: Snapshot)
    requires Inv(y) && AllEnabled(y, events) && s in y.store && Spared(y, events, s)
    ensures s in StepAll(y, events).store && Inv(StepAll(y, events))
  {
    hide Inv, Apply, Enabled, TakesOut, Keepable;
    if |events| != 0 {
      var init, event := events[..|events| - 1], events[|events| - 1];
      OnlyTheOldGo(y, init, s);
      StaysUnlessTakenOut(StepAll(y, init), event, s);
      StepKeepsInv(StepAll(y, init), event);
    }
  }

  // ------------------------------------------------------------ when the scheduled quota bites

  predicate Gap(book: BookId, gap: int, s: Snapshot, u: Snapshot) {
    s.book == book && u.book == book && u.trigger.Scheduled? ==> u.at - s.at >= gap
  }

  // n scheduled snapshots at least gap apart take more than (n - 1) gaps of a window.
  lemma {:induction false} CountSpaced(store: seq<Snapshot>, book: BookId, gap: int, lo: int, hi: int)
    returns (s: Snapshot)
    requires gap > 0 && AllPairs(store, (a: Snapshot, b: Snapshot) => Gap(book, gap, a, b))
    requires Count(store, book, Scheduled, lo, hi) > 0
    ensures s in store && IsOf(s, book, Scheduled) && lo < s.at <= hi
    ensures s.at - lo > (Count(store, book, Scheduled, lo, hi) - 1) * gap
  {
    var init, u := store[..|store| - 1], store[|store| - 1];
    if Count(init, book, Scheduled, lo, hi) == 0 {
      s := u;
    } else {
      s := CountSpaced(init, book, gap, lo, hi);
      if IsOf(u, book, Scheduled) && lo < u.at <= hi {
        var n := Count(init, book, Scheduled, lo, hi);
        assert Gap(book, gap, s, u);
        assert n * gap == (n - 1) * gap + gap;
        s := u;
      }
    }
  }

  // The tick finds a scheduled snapshot due, and the quota turns it down.
  predicate Blocked(y: System, event: Event) {
    && event.Process?
    && Due(y.store, event.cfg, event.now, event.lastChange) == Some(Scheduled)
    && Exceeded(y.store, event.cfg.book, Scheduled, event.t)
  }

  predicate KeepsFrequency(event: Event, book: BookId, hours: nat) {
    event.Process? && event.cfg.book == book ==> event.cfg.frequencyHours == hours
  }

  ghost predicate Spaced(y: System, book: BookId, hours: nat) {
    AllPairs(y.store, (a: Snapshot, b: Snapshot) => Gap(book, hours * HOUR, a, b))
  }

  lemma TakeKeepsSpacing(y: System, book: BookId, hours: nat, k: BookId, trigger: Trigger, t: int, victim: nat)
    requires Spaced(y, book, hours)
    requires k == book && trigger.Scheduled? ==> forall s <- y.store :: s.book == book ==> t - s.at >= hours * HOUR
    ensures Spaced(Take(y, k, trigger, t, victim), book, hours)
  {
    hide Count, AllPairs;
    var rel := (a: Snapshot, b: Snapshot) => Gap(book, hours * HOUR, a, b);
    var u := Snapshot(y.next, k, trigger, t);
    PairsSnoc(y.store, u, rel);
    PairsWithout(y.store, {victim}, rel);
    PairsSnoc(Without(y.store, {victim}), u, rel);
  }

  lemma StepKeepsSpacing(y: System, event: Event, book: BookId, hours: nat)
    requires Spaced(y, book, hours) && Enabled(y, event) && KeepsFrequency(event, book, hours)
    ensures Spaced(Apply(y, event), book, hours)
  {
    hide Count, AllPairs, Take;
    var rel := (a: Snapshot, b: Snapshot) => Gap(book, hours * HOUR, a, b);
    match event
    case ByUser(k, t) => TakeKeepsSpacing(y, book, hours, k, Manual, t, 0);
    case Process(cfg, now, lastChange, t, victim) =>
      var due := Due(y.store, cfg, now, lastChange);
      if due.Some? {
        TakeKeepsSpacing(y, book, hours, cfg.book, due.value, t, victim);
      }
    case Purge(configs, t) =>
      PairsWithout(y.store, set s <- y.store | Expired(s, configs, t) :: s.id, rel);
    case Delete(book, id, t) => PairsWithout(y.store, Named(y.store, book, id), rel);
  }

  lemma {:induction false} RunKeepsSpacing(t: int, events: seq<Event>, book: BookId, hours: nat)
    requires AllEnabled(Empty(t), events) && forall e <- events :: KeepsFrequency(e, book, hours)
    ensures Spaced(StepAll(Empty(t), events), book, hours)
  {
    hide Apply, Enabled;
    if |events| != 0 {
      var init := events[..|events| - 1];
      RunKeepsSpacing(t, init, book, hours);
      StepKeepsSpacing(StepAll(Empty(t), init), events[|events| - 1], book, hours);
    }
  }

  // With a frequency of two hours or more a day has room for at most 12.
  lemma NeverBlocked(t: int, events: seq<Event>, event: Event, book: BookId, hours: nat)
    requires hours >= 2 && AllEnabled(Empty(t), events) && forall e <- events :: KeepsFrequency(e, book, hours)
    requires event.Process? && event.cfg.book == book
    ensures !Blocked(StepAll(Empty(t), events), event)
  {
    hide Count, StepAll, AllEnabled, AllPairs;
    var y := StepAll(Empty(t), events);
    RunKeepsSpacing(t, events, book, hours);
    if Exceeded(y.store, book, Scheduled, event.t) {
      var s := CountSpaced(y.store, book, hours * HOUR, event.t - DAY, event.t);
      TooMany(Count(y.store, book, Scheduled, event.t - DAY, event.t), hours * HOUR);
      assert false;
    }
  }

  lemma TooMany(n: nat, gap: int)
    requires n >= QUOTA_SCHEDULED && gap >= 2 * HOUR
    ensures (n - 1) * gap >= DAY
  {
    assert (n - 1) * gap >= 22 * gap;
  }

  // An hourly schedule that ran for 23 hours is turned down at the 24th.
  function Hourly(book: BookId, n: nat): seq<Event> {
    if n == 0 then [] else Hourly(book, n - 1) + [HourlyTick(book, n)]
  }

  function HourlyTick(book: BookId, n: nat): Event {
    Process(Config(book, 1, 0, false), n * HOUR, None, n * HOUR, 0)
  }

  function HourlyStore(book: BookId, n: nat): (store: seq<Snapshot>)
    ensures |store| == n
  {
    if n == 0 then [] else HourlyStore(book, n - 1) + [Snapshot(n - 1, book, Scheduled, n * HOUR)]
  }

  lemma LastSnoc(store: seq<Snapshot>, s: Snapshot, book: BookId)
    requires s.book == book && forall u <- store :: u.at <= s.at
    ensures LastTime(store + [s], book) == Some(s.at)
  {
    assert (store + [s])[..|store|] == store;
    var rest := LastTime(store, book);
    if rest.Some? && rest.value > s.at {
      LastIsStored(store, book);
      assert false;
    }
  }

  lemma {:induction false} LastIsStored(store: seq<Snapshot>, book: BookId)
    requires LastTime(store, book).Some?
    ensures exists u <- store :: u.book == book && u.at == LastTime(store, book).value
  {
    var init := store[..|store| - 1];
    if LastTime(init, book).Some? {
      LastIsStored(init, book);
    }
  }

  lemma {:induction false} HourlyBounds(book: BookId, n: nat)
    ensures forall s <- HourlyStore(book, n) :: 0 < s.at <= n * HOUR
  {
    if n > 0 {
      HourlyBounds(book, n - 1);
    }
  }

  lemma HourlyLast(book: BookId, n: nat)
    ensures LastTime(HourlyStore(book, n), book) == if n == 0 then None else Some(n * HOUR)
  {
    hide LastTime;
    if n > 0 {
      HourlyBounds(book, n - 1);
      LastSnoc(HourlyStore(book, n - 1), Snapshot(n - 1, book, Scheduled, n * HOUR), book);
    }
  }

  lemma {:induction false} HourlyCount(book: BookId, n: nat)
    requires n <= 23
    ensures Count(HourlyStore(book, n), book, Scheduled, 0, 24 * HOUR) == n
  {
    hide Count;
    if n > 0 {
      HourlyCount(book, n - 1);
      CountSnoc(HourlyStore(book, n - 1), Snapshot(n - 1, book, Scheduled, n * HOUR), book, Scheduled, 0, 24 * HOUR);
    }
  }

  // What the scheduler sees an hour after n hourly snapshots.
  lemma HourlyFacts(book: BookId, n: nat)
    requires n <= 23
    ensures var store := HourlyStore(book, n);
      && LastTime(store, book) == (if n == 0 then None else Some(n * HOUR))
      && Count(store, book, Scheduled, (n + 1) * HOUR - DAY, (n + 1) * HOUR) == n
  {
    hide Count, LastTime, HourlyStore;
    HourlyLast(book, n);
    HourlyCount(book, n);
    HourlyBounds(book, n);
    AllWithin(HourlyStore(book, n), book, (n + 1) * HOUR - DAY, (n + 1) * HOUR);
  }

  lemma {:induction false} AllWithin(store: seq<Snapshot>, book: BookId, lo: int, hi: int)
    requires lo <= 0 && hi <= 24 * HOUR && forall s <- store :: 0 < s.at <= hi
    ensures Count(store, book, Scheduled, lo, hi) == Count(store, book, Scheduled, 0, 24 * HOUR)
  {
    if |store| != 0 {
      AllWithin(store[..|store| - 1], book, lo, hi);
    }
  }

  lemma HourlyStep(book: BookId, n: nat)
    requires 0 < n <= 23
    ensures var y := System(HourlyStore(book, n - 1), n - 1, (n - 1) * HOUR);
      && Enabled(y, HourlyTick(book, n))
      && Apply(y, HourlyTick(book, n)) == System(HourlyStore(book, n), n, n * HOUR)
  {
    hide Count, LastTime;
    HourlyFacts(book, n - 1);
  }

  lemma {:induction false} HourlyRun(book: BookId, n: nat)
    requires n <= 23
    ensures AllEnabled(Empty(0), Hourly(book, n))
    ensures StepAll(Empty(0), Hourly(book, n)) == System(HourlyStore(book, n), n, n * HOUR)
    ensures forall e <- Hourly(book, n) :: KeepsFrequency(e, book, 1)
  {
    hide Apply, Enabled;
    if n > 0 {
      HourlyRun(book, n - 1);
      HourlyStep(book, n);
      var events := Hourly(book, n);
      assert events[..|events| - 1] == Hourly(book, n - 1) && events[|events| - 1] == HourlyTick(book, n);
    }
  }

  lemma HourlyIsBlocked(book: BookId)
    ensures var y := System(HourlyStore(book, 23), 23, 23 * HOUR);
      Enabled(y, HourlyTick(book, 24)) && Blocked(y, HourlyTick(book, 24))
  {
    hide Count, LastTime;
    HourlyFacts(book, 23);
  }

  lemma NeverDue(y: System, event: Event, book: BookId)
    requires event.Process? && event.cfg.book == book && KeepsFrequency(event, book, 0)
    ensures !Blocked(y, event)
  {
    hide Count;
  }

  ghost predicate MeetsQuota(book: BookId, hours: nat) {
    exists t, events, event :: CanBlock(t, events, event, book, hours)
  }

  ghost predicate CanBlock(t: int, events: seq<Event>, event: Event, book: BookId, hours: nat) {
    && AllEnabled(Empty(t), events) && (forall e <- events :: KeepsFrequency(e, book, hours))
    && event.Process? && event.cfg.book == book && KeepsFrequency(event, book, hours)
    && Enabled(StepAll(Empty(t), events), event) && Blocked(StepAll(Empty(t), events), event)
  }

  // Of all frequencies, only the hourly one can ever meet the scheduled quota.
  lemma OnlyHourlyMeetsTheQuota(book: BookId, hours: nat)
    ensures MeetsQuota(book, hours) <==> hours == 1
  {
    hide AllEnabled, StepAll, Count, Blocked, Enabled;
    if hours == 1 {
      HourlyRun(book, 23);
      HourlyIsBlocked(book);
      assert CanBlock(0, Hourly(book, 23), HourlyTick(book, 24), book, hours);
    }
    if MeetsQuota(book, hours) {
      var t, events, event :| CanBlock(t, events, event, book, hours);
      if hours >= 2 {
        NeverBlocked(t, events, event, book, hours);
        assert false;
      } else if hours == 0 {
        NeverDue(StepAll(Empty(t), events), event, book);
        assert false;
      }
    }
  }

  // ------------------------------------------------------------ the service and its scheduler

  method CountSince(store: seq<Snapshot>, book: BookId, trigger: Trigger, lo: int, hi: int) returns (n: nat)
    ensures n == Count(store, book, trigger, lo, hi)
  {
    n := 0;
    var i := 0;
    while i < |store|
      invariant 0 <= i <= |store|
      invariant n == Count(store[..i], book, trigger, lo, hi)
    {
      assert store[..i + 1][..i] == store[..i];
      if IsOf(store[i], book, trigger) && lo < store[i].at <= hi {
        n := n + 1;
      }
      i := i + 1;
    }
    assert store[..i] == store;
  }

  class SnapshotService {
    var store: seq<Snapshot>
    var next: nat
    var clock: int

    constructor (t: int)
      ensures Now() == Empty(t)
    {
      store, next, clock := [], 0, t;
    }

    function Now(): System
      reads this
    {
      System(store, next, clock)
    }

    // ok is false when the quota is exceeded. victim is the row the rotation's
    // subquery would pick.
    method EnforceSnapshotQuota(book: BookId, trigger: Trigger, t: int, victim: nat) returns (ok: bool)
      modifies this`store
      ensures ok <==> !Exceeded(old(store), book, trigger, t)
      ensures store == if Rotates(old(store), book, trigger, t) then Without(old(store), {victim}) else old(store)
    {
      hide Count, Without;
      match trigger {
        case Scheduled =>
          var count := CountSince(store, book, Scheduled, t - DAY, t);
          if count >= QUOTA_SCHEDULED {
            return false;
          }
        case Active =>
          var count := CountSince(store, book, Active, t - DAY, t);
          if count >= QUOTA_ACTIVE {
            store := Without(store, {victim});
          }
        case Manual =>
          var count := CountSince(store, book, Manual, t - DAY, t);
          if count >= QUOTA_MANUAL {
            return false;
          }
      }
      ok := true;
    }

    method TakeSnapshotForBook(book: BookId, trigger: Trigger, t: int, victim: nat) returns (ok: bool)
      modifies this
      ensures Now() == Take(old(Now()), book, trigger, t, victim)
      ensures ok <==> !Exceeded(old(store), book, trigger, t)
    {
      hide Count, Without;
      clock := t;
      ok := EnforceSnapshotQuota(book, trigger, t, victim);
      if !ok {
        return;
      }
      store := store + [Snapshot(next, book, trigger, t)];
      next := next + 1;
    }

    // One configuration within a tick that began at now.
    method ProcessConfig(cfg: Config, now: int, lastChange: Option<int>, t: int, victim: nat)
      modifies this
      ensures Now() == Apply(old(Now()), Process(cfg, now, lastChange, t, victim))
    {
      hide Count, Without, LastTime, Take;
      clock := t;
      var last := LastTime(store, cfg.book);
      if cfg.activeMode {
        if lastChange.Some? && now - lastChange.value < ACTIVE_INTERVAL {
          if last.None? || now - last.value >= ACTIVE_INTERVAL {
            TakeIgnoresClock(old(Now()), cfg.book, Active, t, victim);
            var _ := TakeSnapshotForBook(cfg.book, Active, t, victim);
            return;
          }
        }
      }
      if cfg.frequencyHours > 0 {
        var threshold := cfg.frequencyHours * HOUR;
        if last.None? || now - last.value >= threshold {
          TakeIgnoresClock(old(Now()), cfg.book, Scheduled, t, victim);
          var _ := TakeSnapshotForBook(cfg.book, Scheduled, t, victim);
        }
      }
    }

    method PurgeExpiredSnapshots(configs: map<BookId, Config>, t: int)
      modifies this
      ensures Now() == Apply(old(Now()), Purge(configs, t))
    {
      store := Purged(store, configs, t);
      clock := t;
    }

    method DeleteSnapshot(book: BookId, id: nat, t: int) returns (found: bool)
      modifies this
      ensures Now() == Apply(old(Now()), Delete(book, id, t))
      ensures found <==> exists s <- old(store) :: s.book == book && s.id == id
    {
      found := exists s <- store :: s.book == book && s.id == id;
      store := Without(store, Named(store, book, id));
      clock := t;
    }

    // A tick that begins at now: the purge, then every active configuration,
    // each statement at a time of its own; all decide by the tick's beginning.
    method RunTick(byBook: map<BookId, Config>, now: int, purgedAt: int, visits: seq<Visit>)
      modifies this
      ensures Now() == StepAll(old(Now()), TickEvents(byBook, now, purgedAt, visits))
    {
      hide Apply, Purged;
      TickSteps(old(Now()), byBook, now, purgedAt, []);
      PurgeExpiredSnapshots(byBook, purgedAt);
      var i := 0;
      while i < |visits|
        invariant 0 <= i <= |visits|
        invariant Now() == StepAll(old(Now()), TickEvents(byBook, now, purgedAt, visits[..i]))
      {
        TickSteps(old(Now()), byBook, now, purgedAt, visits[..i + 1]);
        assert visits[..i + 1][..i] == visits[..i];
        ProcessConfig(visits[i].cfg, now, visits[i].lastChange, visits[i].t, visits[i].victim);
        i := i + 1;
      }
      assert visits[..i] == visits;
    }
  }

  lemma TakeIgnoresClock(y: System, book: BookId, trigger: Trigger, t: int, victim: nat)
    ensures Take(y.(clock := t), book, trigger, t, victim) == Take(y, book, trigger, t, victim)
  {
    hide Count, Without;
  }

  // A configuration's turn in a tick: what its queries return, and when.
  datatype Visit = Visit(cfg: Config, lastChange: Option<int>, t: int, victim: nat)

  function TickEvents(byBook: map<BookId, Config>, now: int, purgedAt: int, visits: seq<Visit>): seq<Event> {
    if |visits| == 0 then [Purge(byBook, purgedAt)]
    else
      var v := visits[|visits| - 1];
      TickEvents(byBook, now, purgedAt, visits[..|visits| - 1]) + [Process(v.cfg, now, v.lastChange, v.t, v.victim)]
  }

  lemma TickSteps(y: System, byBook: map<BookId, Config>, now: int, purgedAt: int, visits: seq<Visit>)
    ensures StepAll(y, TickEvents(byBook, now, purgedAt, visits)) ==
      if |visits| == 0 then Apply(y, Purge(byBook, purgedAt))
      else
        var v := visits[|visits| - 1];
        Apply(StepAll(y, TickEvents(byBook, now, purgedAt, visits[..|visits| - 1])),
              Process(v.cfg, now, v.lastChange, v.t, v.victim))
  {
    hide Apply;
    var events := TickEvents(byBook, now, purgedAt, visits);
    if |visits| == 0 {
      assert events[..0] == [];
    } else {
      assert events[..|events| - 1] == TickEvents(byBook, now, purgedAt, visits[..|visits| - 1]);
    }
  }

  // After a tick no snapshot is left that was too old at its purge.
  lemma {:induction false} NoneTooOldIsLeft(
    y: System, byBook: map<BookId, Config>, now: int, purgedAt: int, visits: seq<Visit>)
    requires Inv(y) && AllEnabled(y, TickEvents(byBook, now, purgedAt, visits))
    ensures var y' := StepAll(y, TickEvents(byBook, now, purgedAt, visits));
      && Inv(y') && y'.clock >= purgedAt
      && forall s <- y'.store :: Keepable(s, byBook, purgedAt)
    decreases |visits|
  {
    hide Apply, Enabled, Inv, Keepable;
    var events := TickEvents(byBook, now, purgedAt, visits);
    TickSteps(y, byBook, now, purgedAt, visits);
    if |visits| == 0 {
      assert events[..0] == [] && events[0] == Purge(byBook, purgedAt);
      assert Enabled(y, Purge(byBook, purgedAt));
      StepKeepsInv(y, Purge(byBook, purgedAt));
      PurgeKeepsExactly(y, byBook, purgedAt);
    } else {
      var init, v := visits[..|visits| - 1], visits[|visits| - 1];
      assert events[..|events| - 1] == TickEvents(byBook, now, purgedAt, init);
      NoneTooOldIsLeft(y, byBook, now, purgedAt, init);
      var mid := StepAll(y, TickEvents(byBook, now, purgedAt, init));
      var visit := Process(v.cfg, now, v.lastChange, v.t, v.victim);
      StepKeepsInv(mid, visit);
      NewIsKeepable(mid, visit, byBook, purgedAt);
    }
  }

  // What is new in the store is as of the event, and so not too old.
  lemma NewIsKeepable(y: System, event: Event, configs: map<BookId, Config>, t: int)
    requires event.Process? && Enabled(y, event) && y.clock >= t && forall s <- y.store :: Keepable(s, configs, t)
    ensures var y' := Apply(y, event);
      y'.clock >= t && forall s <- y'.store :: Keepable(s, configs, t)
  {
    hide Count, Due, Without;
  }
}
