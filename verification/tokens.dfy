/**
 Access tokens of bank connections (decryptToken, loadAndDecryptToken, Exchange,
 Sync and Disconnect in backend/internal/plaid/service.go). Sealing is ideal: a
 ciphertext opens with the key and the associated data it was sealed with, and
 with nothing else. Requests run concurrently, one statement at a time, and
 each may come from a server with its own keys and its own legacy flag.
 */
module Tokens {
  import opened Wrappers

  type Guid = nat
  type Key = nat
  type Token = nat

  // The owner a ciphertext is bound to.
  datatype Aad = Aad(book: Guid, itemId: nat)

  // aad is None for ciphertexts from before the binding was introduced.
  datatype Sealed = Sealed(key: Key, aad: Option<Aad>, token: Token, nonce: nat)

  function Open(s: Sealed, key: Key, aad: Option<Aad>): Option<Token> {
    if s.key == key && s.aad == aad then Some(s.token) else None
  }

  datatype Config = Config(keys: seq<Key>, allowLegacy: bool)

  datatype Opened = Plain(token: Token, stale: bool) | NeedsFlag | Undecryptable

  function Decrypt(c: Config, aad: Aad, s: Sealed): Opened
    requires |c.keys| > 0
  {
    if s.key !in c.keys then Undecryptable
    else if s.aad == Some(aad) then Plain(s.token, s.key != c.keys[0])
    else if s.aad.Some? then Undecryptable
    else if c.allowLegacy then Plain(s.token, true)
    else NeedsFlag
  }

  // Every key with the binding first, then every key without it.
  method DecryptToken(c: Config, aad: Aad, s: Sealed) returns (r: Opened)
    requires |c.keys| > 0
    ensures r == Decrypt(c, aad, s)
  {
    var i := 0;
    while i < |c.keys|
      invariant 0 <= i <= |c.keys|
      invariant s.aad == Some(aad) ==> s.key !in c.keys[..i]
    {
      var token := Open(s, c.keys[i], Some(aad));
      if token.Some? {
        assert i > 0 ==> c.keys[0] in c.keys[..i];
        return Plain(token.value, i > 0);
      }
      i := i + 1;
    }
    assert c.keys[..i] == c.keys;
    i := 0;
    while i < |c.keys|
      invariant 0 <= i <= |c.keys|
      invariant s.aad == None ==> s.key !in c.keys[..i]
    {
      var token := Open(s, c.keys[i], None);
      if token.Some? {
        if c.allowLegacy {
          return Plain(token.value, true);
        }
        return NeedsFlag;
      }
      i := i + 1;
    }
    assert c.keys[..i] == c.keys;
    r := Undecryptable;
  }

  // In terms of what each key opens: a binding that some key opens wins, and is
  // stale unless the first key is that one; then the old format counts, if it may.
  lemma DecryptMeans(c: Config, aad: Aad, s: Sealed)
    requires |c.keys| > 0
    ensures (exists k <- c.keys :: Open(s, k, Some(aad)).Some?) ==>
      && Decrypt(c, aad, s) == Plain(s.token, Open(s, c.keys[0], Some(aad)).None?)
      && exists k <- c.keys :: Open(s, k, Some(aad)) == Some(s.token)
    ensures (forall k <- c.keys :: Open(s, k, Some(aad)).None?) && (exists k <- c.keys :: Open(s, k, None).Some?) ==>
      Decrypt(c, aad, s) == if c.allowLegacy then Plain(s.token, true) else NeedsFlag
    ensures (forall k <- c.keys :: Open(s, k, Some(aad)).None? && Open(s, k, None).None?) ==>
      Decrypt(c, aad, s) == Undecryptable
  {
    if s.key in c.keys {
      assert Open(s, s.key, Some(aad)).Some? <==> s.aad == Some(aad);
      assert Open(s, s.key, None).Some? <==> s.aad == None;
    }
  }

  // ------------------------------------------------------------ the rows

  datatype Item = Item(book: Guid, itemId: nat, sealed: Sealed, version: nat, cursor: nat)

  // A ciphertext as some row once held it.
  datatype Stamp = Stamp(guid: Guid, book: Guid, itemId: nat, version: nat, sealed: Sealed)

  datatype Purpose = ForSync | ForDisconnect

  datatype Request =
    | Loaded(purpose: Purpose, config: Config, guid: Guid, row: Item)
    | Fetching(book: Guid, guid: Guid)
    | Deleting(config: Config, guid: Guid, row: Item, forced: bool)

  datatype World = World(
    items: map<Guid, Item>,
    audit: set<(Guid, Item)>,
    requests: map<nat, Request>,
    history: set<Stamp>,           // every ciphertext ever stored, with its version
    used: set<Guid>)               // every guid ever given out

  datatype Event =
    | Exchange(book: Guid, itemId: nat, sealed: Sealed, existing: Option<Guid>, guid: Guid)
    | Load(request: nat, purpose: Purpose, config: Config, book: Guid, guid: Guid)
    | Unseal(request: nat, nonce: nat)        // decrypt, and re-seal if stale
    | PersistCursor(request: nat, cursor: nat)
    | Delete(request: nat)
    | GiveUp(request: nat)                    // any failure in between

  function OwnerOf(item: Item): Aad {
    Aad(item.book, item.itemId)
  }

  predicate Enabled(w: World, event: Event) {
    match event
    case Exchange(book, itemId, sealed, existing, guid) =>
      && sealed.aad == Some(Aad(book, itemId))
      && guid !in w.used
      && (match existing
          case Some(g) => g in w.items && OwnerOf(w.items[g]) == Aad(book, itemId)
          case None => forall g <- w.items :: OwnerOf(w.items[g]) != Aad(book, itemId))
    case Load(request, _, config, book, guid) =>
      request !in w.requests && |config.keys| > 0 && guid in w.items && w.items[guid].book == book
    case Unseal(request, _) =>
      request in w.requests && w.requests[request].Loaded? && |w.requests[request].config.keys| > 0
    case PersistCursor(request, _) => request in w.requests && w.requests[request].Fetching?
    case Delete(request) => request in w.requests && w.requests[request].Deleting?
    case GiveUp(request) => request in w.requests
  }

  function Store(w: World, guid: Guid, item: Item): World {
    w.(items := w.items[guid := item],
       history := w.history + {Stamp(guid, item.book, item.itemId, item.version, item.sealed)},
       used := w.used + {guid})
  }

  // The conditional UPDATE: nothing happens unless the version is the one read.
  function Reseal(w: World, guid: Guid, row: Item, key: Key, token: Token, nonce: nat): World {
    if guid in w.items && w.items[guid].book == row.book && w.items[guid].version == row.version then
      Store(w, guid, w.items[guid].(
        sealed := Sealed(key, Some(OwnerOf(row)), token, nonce), version := row.version + 1))
    else w
  }

  function Next(w: World, request: nat, state: Request): World {
    w.(requests := w.requests[request := state])
  }

  function Finish(w: World, request: nat): World {
    w.(requests := w.requests - {request})
  }

  function Apply(w: World, event: Event): World
    requires Enabled(w, event)
  {
    match event
    case Exchange(book, itemId, sealed, existing, guid) => (
      match existing
      case Some(g) => Store(w, g, w.items[g].(sealed := sealed, version := w.items[g].version + 1))
      case None => Store(w, guid, Item(book, itemId, sealed, 1, 0)))
    case Load(request, purpose, config, book, guid) =>
      Next(w, request, Loaded(purpose, config, guid, w.items[guid]))
    case Unseal(request, nonce) => (
      var Loaded(purpose, config, guid, row) := w.requests[request];
      match Decrypt(config, OwnerOf(row), row.sealed)
      case Plain(token, stale) =>
        Next(
          if stale then Reseal(w, guid, row, config.keys[0], token, nonce) else w,
          request,
          if purpose.ForSync? then Fetching(row.book, guid) else Deleting(config, guid, row, false))
      case Undecryptable =>
        if purpose.ForDisconnect? then Next(w, request, Deleting(config, guid, row, true)) else Finish(w, request)
      case NeedsFlag => Finish(w, request))
    case PersistCursor(request, cursor) =>
      var Fetching(book, guid) := w.requests[request];
      if guid in w.items && w.items[guid].book == book then
        Finish(Store(w, guid, w.items[guid].(cursor := cursor, version := w.items[guid].version + 1)), request)
      else Finish(w, request)
    case Delete(request) =>
      var Deleting(config, guid, row, forced) := w.requests[request];
      if guid !in w.items || w.items[guid].book != row.book then Finish(w, request)
      else if !forced then Finish(w.(items := w.items - {guid}), request)
      else if w.items[guid].version != row.version then Finish(w, request)
      else Finish(w.(audit := w.audit + {(guid, w.items[guid])}, items := w.items - {guid}), request)
    case GiveUp(request) => Finish(w, request)
  }

  // ------------------------------------------------------------ the invariant

  predicate StampOf(w: World, guid: Guid, item: Item) {
    Stamp(guid, item.book, item.itemId, item.version, item.sealed) in w.history
  }

  // One version, one ciphertext; one guid, one owner; and once bound to its
  // owner a row never goes back to the legacy format.
  predicate Consistent(s: Stamp, t: Stamp) {
    s.guid == t.guid ==>
      && s.book == t.book && s.itemId == t.itemId
      && (s.version == t.version ==> s.sealed == t.sealed)
      && (s.version <= t.version && s.sealed.aad.Some? ==> t.sealed.aad.Some?)
  }

  predicate RequestOk(w: World, r: Request) {
    match r
    case Loaded(_, config, guid, row) => StampOf(w, guid, row) && |config.keys| > 0
    case Fetching(_, _) => true
    case Deleting(config, guid, row, forced) =>
      && StampOf(w, guid, row)
      && |config.keys| > 0
      && (if forced then Decrypt(config, OwnerOf(row), row.sealed) == Undecryptable
          else Decrypt(config, OwnerOf(row), row.sealed).Plain?)
  }

  ghost predicate Inv(w: World) {
    && (forall g <- w.items :: g in w.used && StampOf(w, g, w.items[g]))
    && (forall s <- w.history :: s.guid in w.used && (s.guid in w.items ==> s.version <= w.items[s.guid].version))
    && (forall s <- w.history, t <- w.history :: Consistent(s, t))
    && (forall r <- w.requests :: RequestOk(w, w.requests[r]))
    && (forall g <- w.items, h <- w.items :: OwnerOf(w.items[g]) == OwnerOf(w.items[h]) ==> g == h)
  }

  // Any rows to begin with, legacy ones included.
  function Start(items: map<Guid, Item>): World {
    World(items, {}, map[],
      set g | g in items :: Stamp(g, items[g].book, items[g].itemId, items[g].version, items[g].sealed),
      items.Keys)
  }

  // Writing a row under the next version, for the same owner, not back to legacy.
  lemma StoreKeepsInv(w: World, guid: Guid, item: Item)
    requires Inv(w)
    requires guid in w.items ==>
      && item.version == w.items[guid].version + 1 && OwnerOf(item) == OwnerOf(w.items[guid])
      && (w.items[guid].sealed.aad.Some? ==> item.sealed.aad.Some?)
    requires guid !in w.items ==> guid !in w.used && forall g <- w.items :: OwnerOf(w.items[g]) != OwnerOf(item)
    ensures Inv(Store(w, guid, item))
  {
    hide Decrypt;
    var w' := Store(w, guid, item);
    var stamp := Stamp(guid, item.book, item.itemId, item.version, item.sealed);
    forall s <- w.history
      ensures Consistent(s, stamp) && Consistent(stamp, s)
    {
      if s.guid == guid {
        var cur := w.items[guid];
        assert Consistent(s, Stamp(guid, cur.book, cur.itemId, cur.version, cur.sealed));
      }
    }
    forall r <- w.requests
      ensures RequestOk(w', w.requests[r])
    {
      assert RequestOk(w, w.requests[r]);
    }
  }

  lemma StepKeepsInv(w: World, event: Event)
    requires Inv(w) && Enabled(w, event)
    ensures Inv(Apply(w, event))
  {
    hide Store, Consistent, Decrypt, StampOf;
    match event {
      case Exchange(book, itemId, sealed, existing, guid) =>
        if existing.Some? {
          var g := existing.value;
          StoreKeepsInv(w, g, w.items[g].(sealed := sealed, version := w.items[g].version + 1));
        } else {
          StoreKeepsInv(w, guid, Item(book, itemId, sealed, 1, 0));
        }
      case Unseal(request, nonce) =>
        UnsealKeepsInv(w, request, nonce);
      case PersistCursor(request, cursor) =>
        var guid := w.requests[request].guid;
        if guid in w.items && w.items[guid].book == w.requests[request].book {
          var item := w.items[guid].(cursor := cursor, version := w.items[guid].version + 1);
          StoreKeepsInv(w, guid, item);
          FinishKeepsInv(Store(w, guid, item), request);
        } else {
          FinishKeepsInv(w, request);
        }
      case Delete(request) =>
        DeleteKeepsInv(w, request);
      case GiveUp(request) =>
        FinishKeepsInv(w, request);
      case Load(request, purpose, config, book, guid) =>
        NextKeepsInv(w, request, Loaded(purpose, config, guid, w.items[guid]));
    }
  }

  lemma NextKeepsInv(w: World, request: nat, r: Request)
    requires Inv(w) && RequestOk(w, r)
    ensures Inv(Next(w, request, r))
  {
    hide Decrypt, Consistent;
    var w' := Next(w, request, r);
    forall q <- w'.requests
      ensures RequestOk(w', w'.requests[q])
    {
      assert q in w.requests ==> RequestOk(w, w.requests[q]);
    }
  }

  lemma FinishKeepsInv(w: World, request: nat)
    requires Inv(w)
    ensures Inv(Finish(w, request))
  {
    hide Decrypt, Consistent;
    var w' := Finish(w, request);
    forall q <- w'.requests
      ensures RequestOk(w', w'.requests[q])
    {
      assert RequestOk(w, w.requests[q]);
    }
  }

  lemma DeleteKeepsInv(w: World, request: nat)
    requires Inv(w) && Enabled(w, Delete(request))
    ensures Inv(Apply(w, Delete(request)))
  {
    hide Decrypt, Consistent;
    var w' := Apply(w, Delete(request));
    forall q <- w'.requests
      ensures RequestOk(w', w'.requests[q])
    {
      assert RequestOk(w, w.requests[q]);
    }
  }

  lemma UnsealKeepsInv(w: World, request: nat, nonce: nat)
    requires Inv(w) && Enabled(w, Unseal(request, nonce))
    ensures Inv(Apply(w, Unseal(request, nonce)))
  {
    hide Store, Consistent, Decrypt, StampOf;
    var Loaded(purpose, config, guid, row) := w.requests[request];
    assert RequestOk(w, w.requests[request]);
    match Decrypt(config, OwnerOf(row), row.sealed) {
      case Plain(token, stale) =>
        var w1 := w;
        if stale {
          ResealWritesWhatWasRead(w, guid, row, config, nonce);
          w1 := Reseal(w, guid, row, config.keys[0], token, nonce);
        }
        var following := if purpose.ForSync? then Fetching(row.book, guid) else Deleting(config, guid, row, false);
        NextKeepsInv(w1, request, following);
      case Undecryptable =>
        if purpose.ForDisconnect? {
          NextKeepsInv(w, request, Deleting(config, guid, row, true));
        } else {
          FinishKeepsInv(w, request);
        }
      case NeedsFlag =>
        FinishKeepsInv(w, request);
    }
  }

  // A re-seal either writes nothing or replaces the very ciphertext that was
  // read, by the same token under the primary key, bound to the same owner. A
  // token stored by a re-link in between is never overwritten.
  lemma ResealWritesWhatWasRead(w: World, guid: Guid, row: Item, config: Config, nonce: nat)
    requires Inv(w) && StampOf(w, guid, row) && |config.keys| > 0
    requires Decrypt(config, OwnerOf(row), row.sealed).Plain?
    ensures var token := Decrypt(config, OwnerOf(row), row.sealed).token;
            var w' := Reseal(w, guid, row, config.keys[0], token, nonce);
            && Inv(w') && w'.requests == w.requests && w.history <= w'.history
            && w'.items.Keys == w.items.Keys
            && (forall g <- w.items :: g != guid ==> w'.items[g] == w.items[g])
            && (guid in w.items && w'.items[guid] != w.items[guid] ==>
                && w.items[guid].sealed == row.sealed
                && w'.items[guid].sealed.token == w.items[guid].sealed.token
                && w'.items[guid].sealed.key == config.keys[0]
                && w'.items[guid].sealed.aad == Some(OwnerOf(w.items[guid]))
                && w'.items[guid].version == w.items[guid].version + 1)
            && (guid in w.items && w.items[guid].sealed != row.sealed ==> w' == w)
  {
    hide Inv, StampOf;
    assert Decrypt(config, OwnerOf(row), row.sealed).token == row.sealed.token;
    if guid in w.items {
      ReadRowIsCurrent(w, guid, row);
      var cur := w.items[guid];
      if cur.version == row.version {
        StoreKeepsInv(w, guid, cur.(
          sealed := Sealed(config.keys[0], Some(OwnerOf(row)), row.sealed.token, nonce), version := row.version + 1));
      }
    }
  }

  // A row that opens only with an older key, or only in the old format, is sealed
  // with the first key for its owner unless it changed since it was read: then it
  // opens to the same token and is not stale.
  lemma UnsealingFreshens(w: World, request: nat, nonce: nat)
    requires Inv(w) && Enabled(w, Unseal(request, nonce))
    requires var r := w.requests[request];
      && r.guid in w.items && w.items[r.guid].book == r.row.book && w.items[r.guid].version == r.row.version
      && Decrypt(r.config, OwnerOf(r.row), r.row.sealed).Plain?
    ensures var r := w.requests[request];
      var w' := Apply(w, Unseal(request, nonce));
      && r.guid in w'.items && OwnerOf(w'.items[r.guid]) == OwnerOf(r.row)
      && Decrypt(r.config, OwnerOf(r.row), w'.items[r.guid].sealed) == Plain(r.row.sealed.token, false)
      && w'.items[r.guid].cursor == w.items[r.guid].cursor
  {
    var r := w.requests[request];
    assert RequestOk(w, r);
    ReadRowIsCurrent(w, r.guid, r.row);
    var cur := w.items[r.guid];
    assert Consistent(
      Stamp(r.guid, r.row.book, r.row.itemId, r.row.version, r.row.sealed),
      Stamp(r.guid, cur.book, cur.itemId, cur.version, cur.sealed));
  }

  // A token sealed with the first key for its owner is left as it is, version
  // and all; so is one that cannot be opened.
  lemma FreshIsLeftAlone(w: World, request: nat, nonce: nat)
    requires Enabled(w, Unseal(request, nonce))
    requires var r := w.requests[request];
      || (r.row.sealed.key == r.config.keys[0] && r.row.sealed.aad == Some(OwnerOf(r.row)))
      || r.row.sealed.key !in r.config.keys
    ensures var w' := Apply(w, Unseal(request, nonce));
      w'.items == w.items && w'.history == w.history && w'.audit == w.audit
  {
  }

  // Linking anew stores the token it got, under the next version, and keeps the
  // cursor; a new connection starts without one.
  lemma ExchangeStores(w: World, book: Guid, itemId: nat, sealed: Sealed, existing: Option<Guid>, guid: Guid)
    requires Enabled(w, Exchange(book, itemId, sealed, existing, guid))
    ensures var w' := Apply(w, Exchange(book, itemId, sealed, existing, guid));
      var g := if existing.Some? then existing.value else guid;
      && w'.items.Keys == w.items.Keys + {g}
      && OwnerOf(w'.items[g]) == Aad(book, itemId) && w'.items[g].sealed == sealed
      && w'.items[g].cursor == (if existing.Some? then w.items[g].cursor else 0)
      && w'.items[g].version == (if existing.Some? then w.items[g].version + 1 else 1)
      && (forall h <- w.items :: h != g ==> w'.items[h] == w.items[h])
      && w'.audit == w.audit
  {
  }

  // The cursor is stored in that row, and nothing else changes but its version.
  lemma CursorIsStored(w: World, request: nat, cursor: nat)
    requires Enabled(w, PersistCursor(request, cursor))
    requires var r := w.requests[request]; r.guid in w.items && w.items[r.guid].book == r.book
    ensures var g := w.requests[request].guid;
      var w' := Apply(w, PersistCursor(request, cursor));
      && w'.items.Keys == w.items.Keys && w'.items[g].cursor == cursor && w'.items[g].sealed == w.items[g].sealed
      && OwnerOf(w'.items[g]) == OwnerOf(w.items[g])
      && (forall h <- w.items :: h != g ==> w'.items[h] == w.items[h])
  {
  }

  // What the version a request read says about the row as it is now.
  lemma ReadRowIsCurrent(w: World, guid: Guid, row: Item)
    requires Inv(w) && StampOf(w, guid, row) && guid in w.items
    ensures OwnerOf(w.items[guid]) == OwnerOf(row) && row.version <= w.items[guid].version
    ensures w.items[guid].version == row.version ==> w.items[guid].sealed == row.sealed
    ensures row.sealed.aad.Some? ==> w.items[guid].sealed.aad.Some?
  {
    hide RequestOk;
    var cur := w.items[guid];
    var s := Stamp(guid, row.book, row.itemId, row.version, row.sealed);
    var t := Stamp(guid, cur.book, cur.itemId, cur.version, cur.sealed);
    assert s in w.history && t in w.history;
    assert Consistent(s, t);
  }

  // ------------------------------------------------------------ every interleaving

  ghost predicate AllEnabled(w: World, events: seq<Event>)
    decreases |events|
  {
    |events| != 0 ==> Enabled(w, events[0]) && AllEnabled(Apply(w, events[0]), events[1..])
  }

  ghost function ApplyAll(w: World, events: seq<Event>): World
    requires AllEnabled(w, events)
    decreases |events|
  {
    if |events| == 0 then w else ApplyAll(Apply(w, events[0]), events[1..])
  }

  lemma StartInv(items: map<Guid, Item>)
    requires forall g <- items, h <- items :: OwnerOf(items[g]) == OwnerOf(items[h]) ==> g == h
    ensures Inv(Start(items))
  {
  }

  lemma StepKeepsHistory(w: World, event: Event)
    requires Enabled(w, event)
    ensures w.history <= Apply(w, event).history
  {
    hide Decrypt;
  }

  lemma {:induction false} RunKeepsInv(w: World, events: seq<Event>)
    requires Inv(w) && AllEnabled(w, events)
    ensures Inv(ApplyAll(w, events)) && w.history <= ApplyAll(w, events).history
    decreases |events|
  {
    hide Inv, Apply, Enabled;
    if |events| != 0 {
      StepKeepsInv(w, events[0]);
      StepKeepsHistory(w, events[0]);
      RunKeepsInv(Apply(w, events[0]), events[1..]);
    }
  }

  // (guid, version) never stands for two ciphertexts: any two moments of any
  // interleaving at which the row has the same version, it holds the same one.
  lemma VersionNamesOneCiphertext(items: map<Guid, Item>, before: seq<Event>, after: seq<Event>, guid: Guid)
    requires forall g <- items, h <- items :: OwnerOf(items[g]) == OwnerOf(items[h]) ==> g == h
    requires AllEnabled(Start(items), before) && AllEnabled(ApplyAll(Start(items), before), after)
    ensures var w := ApplyAll(Start(items), before);
            var w' := ApplyAll(w, after);
            guid in w.items && guid in w'.items ==>
              && OwnerOf(w.items[guid]) == OwnerOf(w'.items[guid])
              && w.items[guid].version <= w'.items[guid].version
              && (w.items[guid].version == w'.items[guid].version ==> w.items[guid].sealed == w'.items[guid].sealed)
  {
    hide AllEnabled, ApplyAll;
    StartInv(items);
    RunKeepsInv(Start(items), before);
    var w := ApplyAll(Start(items), before);
    RunKeepsInv(w, after);
    var w' := ApplyAll(w, after);
    if guid in w.items && guid in w'.items {
      assert StampOf(w, guid, w.items[guid]) && StampOf(w', guid, w'.items[guid]);
      var a, b := w.items[guid], w'.items[guid];
      var s := Stamp(guid, a.book, a.itemId, a.version, a.sealed);
      var t := Stamp(guid, b.book, b.itemId, b.version, b.sealed);
      assert Consistent(s, t);
    }
  }

  // ------------------------------------------------------------ disconnecting

  // A forced disconnect deletes only the version it read, whose token none of
  // its keys opens in any format, and archives the row it deletes.
  lemma ForcedDisconnectArchives(w: World, request: nat)
    requires Inv(w) && Enabled(w, Delete(request)) && w.requests[request].forced
    ensures var w' := Apply(w, Delete(request));
            var Deleting(config, guid, row, _) := w.requests[request];
            && w.audit <= w'.audit
            && (if w'.items == w.items then w'.audit == w.audit
                else
                  && guid in w.items && w'.items == w.items - {guid}
                  && w.items[guid].version == row.version && w.items[guid].sealed == row.sealed
                  && w'.audit == w.audit + {(guid, w.items[guid])}
                  && forall key <- config.keys ::
                    Open(row.sealed, key, None).None? && Open(row.sealed, key, Some(OwnerOf(row))).None?)
  {
    var Deleting(config, guid, row, _) := w.requests[request];
    assert RequestOk(w, w.requests[request]);
    if guid in w.items {
      ReadRowIsCurrent(w, guid, row);
      assert guid !in w.items - {guid};
    }
  }

  // And it does delete that version, if it is still the row's.
  lemma ForcedDisconnectDeletesIff(w: World, request: nat)
    requires Enabled(w, Delete(request)) && w.requests[request].forced
    ensures var r := w.requests[request];
      r.guid in w.items && r.guid !in Apply(w, Delete(request)).items
      <==> r.guid in w.items && w.items[r.guid].book == r.row.book && w.items[r.guid].version == r.row.version
  {
  }

  // A legacy token that a server could open if its flag were on is, with the
  // flag off, not deleted by that server's disconnects, even when the row was
  // read before other servers' requests changed it.
  lemma LegacyTokenIsNotDeleted(w: World, request: nat, guid: Guid)
    requires Inv(w) && Enabled(w, Delete(request))
    requires guid in w.items && w.items[guid].sealed.aad.None?
    requires !w.requests[request].config.allowLegacy && w.items[guid].sealed.key in w.requests[request].config.keys
    ensures guid in Apply(w, Delete(request)).items
  {
    var r := w.requests[request];
    assert RequestOk(w, r);
    if r.guid == guid {
      ReadRowIsCurrent(w, guid, r.row);
    }
  }

  // Nor is a legacy token handed out, or touched, while the flag is off.
  lemma LegacyTokenIsNotUsed(w: World, request: nat, nonce: nat)
    requires Enabled(w, Unseal(request, nonce))
    requires w.requests[request].row.sealed.aad.None? && !w.requests[request].config.allowLegacy
    ensures var w' := Apply(w, Unseal(request, nonce));
            && w'.items == w.items
            && (request in w'.requests ==> w'.requests[request].Deleting? && w'.requests[request].forced)
            && (w.requests[request].row.sealed.key in w.requests[request].config.keys ==> request !in w'.requests)
  {
  }

  // The token the row holds after events, if it was token before: the last
  // re-link decides, and nothing else does.
  function LastToken(events: seq<Event>, guid: Guid, token: Token): Token
    decreases |events|
  {
    if |events| == 0 then token
    else
      var e := events[0];
      LastToken(events[1..], guid, if e.Exchange? && e.existing == Some(guid) then e.sealed.token else token)
  }

  // One event leaves the row's token, unless it is a re-link or deletes the row.
  lemma EventKeepsToken(w: World, event: Event, guid: Guid)
    requires Inv(w) && Enabled(w, event) && guid in w.items && guid in Apply(w, event).items
    ensures Apply(w, event).items[guid].sealed.token ==
      if event.Exchange? && event.existing == Some(guid) then event.sealed.token else w.items[guid].sealed.token
  {
    hide Consistent, StampOf;
    if event.Unseal? {
      var r := w.requests[event.request];
      assert RequestOk(w, r);
      if Decrypt(r.config, OwnerOf(r.row), r.row.sealed).Plain? {
        ResealWritesWhatWasRead(w, r.guid, r.row, r.config, event.nonce);
      }
    }
  }

  // A guid that is gone does not come back.
  lemma GoneStaysGone(w: World, event: Event, guid: Guid)
    requires Enabled(w, event) && guid in w.used && guid !in w.items
    ensures guid in Apply(w, event).used && guid !in Apply(w, event).items
  {
    hide Decrypt;
  }

  lemma {:induction false} GoneForGood(w: World, events: seq<Event>, guid: Guid)
    requires AllEnabled(w, events) && guid in w.used && guid !in w.items
    ensures guid !in ApplyAll(w, events).items
    decreases |events|
  {
    hide Apply, Enabled;
    if |events| != 0 {
      GoneStaysGone(w, events[0], guid);
      GoneForGood(Apply(w, events[0]), events[1..], guid);
    }
  }

  lemma UsedStaysUsed(w: World, event: Event, guid: Guid)
    requires Enabled(w, event) && guid in w.used
    ensures guid in Apply(w, event).used
  {
    hide Decrypt;
  }

  // Through any interleaving, a row that is still there holds the token of the
  // last re-link, or the one it held.
  lemma {:induction false} RowHoldsLastToken(w: World, events: seq<Event>, guid: Guid)
    requires Inv(w) && AllEnabled(w, events) && guid in w.items && guid in ApplyAll(w, events).items
    ensures ApplyAll(w, events).items[guid].sealed.token == LastToken(events, guid, w.items[guid].sealed.token)
    decreases |events|
  {
    hide Apply, Enabled, Inv;
    if |events| != 0 {
      var w' := Apply(w, events[0]);
      StepKeepsInv(w, events[0]);
      UsedByInv(w, guid);
      UsedStaysUsed(w, events[0], guid);
      if guid !in w'.items {
        GoneForGood(w', events[1..], guid);
        assert false;
      }
      EventKeepsToken(w, events[0], guid);
      RowHoldsLastToken(w', events[1..], guid);
    }
  }

  lemma UsedByInv(w: World, guid: Guid)
    requires Inv(w) && guid in w.items
    ensures guid in w.used
  {
  }

  // The other disconnect, of a token that did open, deletes by guid alone. Over
  // everything that may run between its read and its delete, what it deletes is
  // the token of the last re-link in between, unarchived; so it deletes the token
  // it opened if and only if that re-link, if there was one, stored the same.
  lemma PlainDisconnectDeletesIff(w: World, events: seq<Event>, request: nat, guid: Guid)
    requires Inv(w) && AllEnabled(w, events) && guid in w.items
    requires var w' := ApplyAll(w, events);
      && Enabled(w', Delete(request)) && guid in w'.items
      && w'.requests[request].guid == guid && w'.requests[request].row == w.items[guid] && !w'.requests[request].forced
    ensures var w' := ApplyAll(w, events);
      var last := LastToken(events, guid, w.items[guid].sealed.token);
      && Apply(w', Delete(request)).items == w'.items - {guid}
      && Apply(w', Delete(request)).audit == w'.audit
      && w'.items[guid].sealed.token == last
      && |w'.requests[request].config.keys| > 0
      && var unsealed := Decrypt(w'.requests[request].config, OwnerOf(w.items[guid]), w.items[guid].sealed);
         unsealed.Plain? && (w'.items[guid].sealed.token == unsealed.token <==> last == w.items[guid].sealed.token)
  {
    hide Inv, AllEnabled, ApplyAll, Consistent, StampOf;
    RunKeepsInv(w, events);
    RowHoldsLastToken(w, events, guid);
    var w' := ApplyAll(w, events);
    RequestByInv(w', request);
    ReadRowByInv(w', request);
  }

  lemma RequestByInv(w: World, request: nat)
    requires Inv(w) && request in w.requests
    ensures RequestOk(w, w.requests[request])
  {
  }

  lemma ReadRowByInv(w: World, request: nat)
    requires Inv(w) && request in w.requests && w.requests[request].Deleting? && w.requests[request].guid in w.items
    ensures w.items[w.requests[request].guid].book == w.requests[request].row.book
    ensures |w.requests[request].config.keys| > 0
    ensures w.requests[request].forced
      || Decrypt(w.requests[request].config, OwnerOf(w.requests[request].row), w.requests[request].row.sealed).Plain?
  {
    var r := w.requests[request];
    assert RequestOk(w, r);
    ReadRowIsCurrent(w, r.guid, r.row);
  }

  // A history in which it does not.
  lemma UnguardedDisconnectDropsARelink(config: Config)
    requires |config.keys| > 0
    ensures var row := Item(1, 7, Sealed(config.keys[0], Some(Aad(1, 7)), 100, 0), 1, 0);
            var relinked := Sealed(config.keys[0], Some(Aad(1, 7)), 200, 1);
            var w0 := Start(map[5 := row]);
            && Enabled(w0, Load(0, ForDisconnect, config, 1, 5))
            && var w1 := Apply(w0, Load(0, ForDisconnect, config, 1, 5));
            && Enabled(w1, Unseal(0, 0))
            && var w2 := Apply(w1, Unseal(0, 0));
            && Enabled(w2, Exchange(1, 7, relinked, Some(5), 6))
            && var w3 := Apply(w2, Exchange(1, 7, relinked, Some(5), 6));
            && 5 in w3.items && w3.items[5].sealed == relinked
            && Enabled(w3, Delete(0))
            && Apply(w3, Delete(0)).items == map[] && Apply(w3, Delete(0)).audit == {}
  {
  }
}
