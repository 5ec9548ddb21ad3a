/** The cached actor repository: entries may vanish at any moment, yet it answers as the repository
    behind it would. Cache keys are hashes and values are encoded; both are taken to be faithful. */
module ActorCache {
  import opened Text

  datatype Actor = Actor(uri: string, host: Option<string>, keyId: string, suspended: bool, deleted: bool,
                         featured: seq<string>, profile: string)

  datatype Result<+T> = Ok(value: T) | Err

  type Documents = map<string, Actor>

  // ---------------------------------------------------------------- the repository behind the cache

  function FindAnyByUri(db: Documents, uri: string): Option<Actor> {
    if uri in db then Some(db[uri]) else None
  }

  function FindByUri(db: Documents, uri: string): Option<Actor> {
    if uri in db && !db[uri].suspended then Some(db[uri]) else None
  }

  /** Any active actor with this key; none only if there is none. */
  ghost predicate FindsByKey(db: Documents, keyId: string, r: Option<Actor>) {
    match r
    case Some(actor) => actor.uri in db && db[actor.uri] == actor && actor.keyId == keyId && !actor.suspended
    case None => forall uri <- db :: db[uri].keyId == keyId ==> db[uri].suspended
  }

  function Upserted(db: Documents, actor: Actor): Documents {
    db[actor.uri := actor.(deleted := if actor.uri in db then db[actor.uri].deleted else false)]
  }

  function Featuring(db: Documents, uri: string, featured: seq<string>): Documents
    requires uri in db
  {
    db[uri := db[uri].(featured := featured)]
  }

  function Added(featured: seq<string>, noteId: string, limit: nat): seq<string> {
    if noteId in featured then featured
    else
      var more := featured + [noteId];
      if |more| > limit then more[..limit] else more
  }

  function Without(featured: seq<string>, noteId: string): seq<string> {
    if featured == [] then []
    else (if featured[0] == noteId then [] else [featured[0]]) + Without(featured[1..], noteId)
  }

  function MarkedDeleted(db: Documents, uri: string): Documents {
    if uri in db && db[uri].host.Some? then db[uri := db[uri].(suspended := true, deleted := true)] else db
  }

  /** Every document is stored under its URI, and no two actors share a key. */
  ghost predicate Consistent(db: Documents) {
    (forall uri <- db :: db[uri].uri == uri) &&
    forall u, v | u in db && v in db :: db[u].keyId == db[v].keyId != "" ==> u == v
  }

  /** With unique keys the answer for a key is determined. */
  lemma KeyDecides(db: Documents, keyId: string, r: Option<Actor>, s: Option<Actor>)
    requires Consistent(db) && keyId != "" && FindsByKey(db, keyId, r) && FindsByKey(db, keyId, s)
    ensures r == s
  {
  }

  // ---------------------------------------------------------------- the invariant of the cache

  /** An entry is the document as it is now, of a remote actor, under its own URI or key. */
  ghost predicate Fresh(db: Documents, byUri: Documents, byKey: Documents) {
    && (forall uri <- byUri :: byUri[uri].host.Some? && uri in db && db[uri] == byUri[uri])
    && (forall key <- byKey :: key != "" && byKey[key].host.Some? && byKey[key].keyId == key &&
                               byKey[key].uri in db && db[byKey[key].uri] == byKey[key])
  }

  function CachedUri(byUri: Documents, actor: Option<Actor>): Documents {
    if actor.Some? && actor.value.host.Some? then byUri[actor.value.uri := actor.value] else byUri
  }

  function CachedKey(byKey: Documents, actor: Option<Actor>): Documents {
    if actor.Some? && actor.value.host.Some? && actor.value.keyId != "" then byKey[actor.value.keyId := actor.value]
        else byKey
  }

  function Keys(actor: Option<Actor>): set<string> {
    if actor.Some? then {actor.value.keyId} else {}
  }

  /** Dropping the entries of the actor as it was and caching it as it is keeps every entry current, also
      when its key changed: the old key is dropped and the new one belongs to nobody else. */
  lemma RefreshKeepsFresh(db: Documents, after: Documents, byUri: Documents, byKey: Documents, uri: string,
                          updated: Option<Actor>)
    requires Consistent(db) && Consistent(after) && Fresh(db, byUri, byKey)
    requires forall v :: v != uri ==> (v in db <==> v in after) && (v in db ==> after[v] == db[v])
    requires updated.Some? ==> uri in after && updated.value == after[uri]
    ensures var existing := FindAnyByUri(db, uri);
            Fresh(after, CachedUri(byUri - {uri}, updated), CachedKey(byKey - Keys(existing), updated))
  {
    var existing := FindAnyByUri(db, uri);
    forall key | key in byKey - Keys(existing) ensures byKey[key].uri != uri {
      assert db[byKey[key].uri] == byKey[key];
    }
  }

  lemma NothingCached(db: Documents, byUri: Documents, byKey: Documents, uri: string)
    requires Fresh(db, byUri, byKey) && uri !in db
    ensures byUri - {uri} == byUri
  {
  }

  lemma StoredUnderItsUri(db: Documents, uri: string)
    requires Consistent(db) && uri in db
    ensures db[uri].uri == uri
  {
  }

  /** Dropping the entries is needed for keys only: were it lost, the cache would stay current exactly if
      the old key was not cached or is still the actor's key. */
  lemma LostInvalidation(db: Documents, after: Documents, byUri: Documents, byKey: Documents, uri: string)
    requires Consistent(db) && Consistent(after) && Fresh(db, byUri, byKey) && uri in db && uri in after &&
             after[uri].host.Some?
    requires forall v :: v != uri ==> (v in db <==> v in after) && (v in db ==> after[v] == db[v])
    ensures Fresh(after, CachedUri(byUri, Some(after[uri])), CachedKey(byKey, Some(after[uri]))) <==>
            db[uri].keyId !in byKey || after[uri].keyId == db[uri].keyId
  {
    hide Fresh, Consistent, CachedUri, CachedKey;
    if db[uri].keyId in byKey && after[uri].keyId != db[uri].keyId {
      StaleEntry(db, after, byUri, byKey, uri);
    } else {
      StillCurrent(db, after, byUri, byKey, uri);
    }
  }

  lemma StaleEntry(db: Documents, after: Documents, byUri: Documents, byKey: Documents, uri: string)
    requires Consistent(db) && Fresh(db, byUri, byKey) && uri in db && uri in after && after[uri].host.Some?
    requires db[uri].keyId in byKey && after[uri].keyId != db[uri].keyId
    ensures !Fresh(after, CachedUri(byUri, Some(after[uri])), CachedKey(byKey, Some(after[uri])))
  {
    var key := db[uri].keyId;
    assert byKey[key].uri == uri by {
      assert db[byKey[key].uri].keyId == key;
    }
    assert CachedKey(byKey, Some(after[uri]))[key] == byKey[key] == db[uri] != after[uri];
  }

  lemma StillCurrent(db: Documents, after: Documents, byUri: Documents, byKey: Documents, uri: string)
    requires Consistent(db) && Consistent(after) && Fresh(db, byUri, byKey) && uri in db && uri in after &&
             after[uri].host.Some?
    requires forall v :: v != uri ==> (v in db <==> v in after) && (v in db ==> after[v] == db[v])
    requires db[uri].keyId !in byKey || after[uri].keyId == db[uri].keyId
    ensures Fresh(after, CachedUri(byUri, Some(after[uri])), CachedKey(byKey, Some(after[uri])))
  {
    forall key | key in byKey && byKey[key].uri == uri ensures key == db[uri].keyId {
    }
  }

  /** What happens to a local actor never concerns the cache. */
  lemma LocalChangeKeepsFresh(db: Documents, after: Documents, byUri: Documents, byKey: Documents, uri: string)
    requires Fresh(db, byUri, byKey) && Consistent(db) && (uri in db ==> db[uri].host == None)
    requires forall v :: v != uri ==> (v in db <==> v in after) && (v in db ==> after[v] == db[v])
    ensures Fresh(after, byUri, byKey)
  {
  }

  // ---------------------------------------------------------------- the cached repository

  class CachedRepository {
    var db: Documents
    var byUri: Documents
    var byKey: Documents

    ghost predicate Valid()
      reads this
    {
      Consistent(db) && Fresh(db, byUri, byKey)
    }

    constructor ()
      ensures Valid() && db == map[]
    {
      db, byUri, byKey := map[], map[], map[];
    }

    /** Time-to-live and memory pressure, at any moment. */
    method Evict()
      requires Valid()
      modifies `byUri, `byKey
      ensures Valid()
    {
      var uris: set<string>, keys: set<string> := *, *;
      byUri, byKey := byUri - uris, byKey - keys;
    }

    method CacheActor(actor: Option<Actor>)
      modifies `byUri, `byKey
      ensures byUri == CachedUri(old(byUri), actor) && byKey == CachedKey(old(byKey), actor)
    {
      if actor == None || actor.value.host == None {
        return;
      }
      byUri := byUri[actor.value.uri := actor.value];
      if actor.value.keyId != "" {
        byKey := byKey[actor.value.keyId := actor.value];
      }
    }

    method InvalidateActor(actor: Option<Actor>)
      modifies `byUri, `byKey
      ensures byUri == (if actor.Some? then old(byUri) - {actor.value.uri} else old(byUri)) &&
              byKey == old(byKey) - Keys(actor)
    {
      if actor.Some? {
        byUri, byKey := byUri - {actor.value.uri}, byKey - {actor.value.keyId};
      }
    }

    method FindAnyByURI(uri: string) returns (r: Option<Actor>)
      requires Valid()
      modifies `byUri, `byKey
      ensures Valid() && r == FindAnyByUri(db, uri)
    {
      if uri in byUri {
        return Some(byUri[uri]);
      }
      r := FindAnyByUri(db, uri);
      CacheActor(r);
    }

    method FindByURI(uri: string) returns (r: Option<Actor>)
      requires Valid()
      modifies `byUri, `byKey
      ensures Valid() && r == FindByUri(db, uri)
    {
      r := FindAnyByURI(uri);
      if r.Some? && r.value.suspended {
        r := None;
      }
    }

    /** The repository's own answer to a query by key. */
    method QueryByKey(keyId: string) returns (r: Option<Actor>)
      requires Valid()
      ensures FindsByKey(db, keyId, r)
    {
      if uri :| uri in db && db[uri].keyId == keyId && !db[uri].suspended {
        r := Some(db[uri]);
      } else {
        r := None;
      }
    }

    method FindByPublicKeyID(keyId: string) returns (r: Option<Actor>)
      requires Valid()
      modifies `byUri, `byKey
      ensures Valid() && FindsByKey(db, keyId, r)
    {
      if keyId in byKey {
        r := if byKey[keyId].suspended then None else Some(byKey[keyId]);
        return;
      }
      r := QueryByKey(keyId);
      CacheActor(r);
    }

    /** Read the actor as it was, update it, drop its entries and cache it as it is. */
    method UpsertRemoteActor(actor: Actor) returns (r: Result<Option<Actor>>)
      requires Valid() && Consistent(Upserted(db, actor))
      modifies this
      ensures Valid()
      ensures if actor.uri == "" || actor.host == None || actor.host == Some("") then r == Err && db == old(db)
              else db == Upserted(old(db), actor) && r == Ok(FindByUri(db, actor.uri))
    {
      var existing := FindAnyByUri(db, actor.uri);
      if actor.uri == "" || actor.host == None || actor.host == Some("") {
        return Err;
      }
      ghost var before := db;
      db := Upserted(db, actor);
      r := Ok(FindByUri(db, actor.uri));
      Refresh(actor.uri, existing, r.value, before);
    }

    method Refresh(uri: string, existing: Option<Actor>, updated: Option<Actor>, ghost before: Documents)
      requires Consistent(before) && Consistent(db) && Fresh(before, byUri, byKey) &&
               existing == FindAnyByUri(before, uri)
      requires forall v :: v != uri ==> (v in before <==> v in db) && (v in before ==> db[v] == before[v])
      requires updated.Some? ==> uri in db && updated.value == db[uri]
      modifies `byUri, `byKey
      ensures Valid()
    {
      hide Fresh, Consistent, CachedUri, CachedKey;
      RefreshKeepsFresh(before, db, byUri, byKey, uri, updated);
      if existing == None {
        NothingCached(before, byUri, byKey, uri);
      } else {
        StoredUnderItsUri(before, uri);
      }
      InvalidateActor(existing);
      CacheActor(updated);
    }

    method AddRemoteFeaturedNote(uri: string, noteId: string, limit: nat) returns (r: Result<Option<Actor>>)
      requires Valid()
      modifies this
      ensures Valid()
      ensures if uri == "" || noteId == "" || limit == 0 || uri !in old(db) || old(db)[uri].host == None then
                r == Err && db == old(db)
              else
                db == Featuring(old(db), uri, Added(old(db)[uri].featured, noteId, limit)) &&
                r == Ok(FindAnyByUri(db, uri))
    {
      var existing := FindAnyByUri(db, uri);
      if uri == "" || noteId == "" || limit == 0 || existing == None || existing.value.host == None {
        return Err;
      }
      ghost var before := db;
      db := Featuring(db, uri, Added(db[uri].featured, noteId, limit));
      r := Ok(FindAnyByUri(db, uri));
      Refresh(uri, existing, r.value, before);
    }

    method RemoveRemoteFeaturedNote(uri: string, noteId: string) returns (r: Result<Option<Actor>>)
      requires Valid()
      modifies this
      ensures Valid()
      ensures if uri == "" || noteId == "" || uri !in old(db) || old(db)[uri].host == None then
                r == Err && db == old(db)
              else
                db == Featuring(old(db), uri, Without(old(db)[uri].featured, noteId)) &&
                r == Ok(FindAnyByUri(db, uri))
    {
      var existing := FindAnyByUri(db, uri);
      if uri == "" || noteId == "" || existing == None || existing.value.host == None {
        return Err;
      }
      ghost var before := db;
      db := Featuring(db, uri, Without(db[uri].featured, noteId));
      r := Ok(FindAnyByUri(db, uri));
      Refresh(uri, existing, r.value, before);
    }

    method MarkRemoteActorDeleted(uri: string) returns (r: Result<()>)
      requires Valid()
      modifies this
      ensures Valid()
      ensures if uri == "" then r == Err && db == old(db) else r == Ok(()) && db == MarkedDeleted(old(db), uri)
    {
      if uri == "" {
        return Err;
      }
      var existing := FindAnyByUri(db, uri);
      ghost var before := db;
      db := MarkedDeleted(db, uri);
      Refresh(uri, existing, None, before);
      byUri := byUri - {uri};
      r := Ok(());
    }

    /** Creating, updating, suspending or deleting a local actor goes past the cache. */
    method ChangeLocalActor(uri: string, actor: Actor)
      requires Valid() && (uri in db ==> db[uri].host == None)
      requires actor.uri == uri && actor.host == None && Consistent(db[uri := actor])
      modifies `db
      ensures Valid() && db == old(db)[uri := actor]
    {
      LocalChangeKeepsFresh(db, db[uri := actor], byUri, byKey, uri);
      db := db[uri := actor];
    }
  }
}
