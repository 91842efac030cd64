/** SessionPersistenceManager as a class: cached session states are objects updated in place beside the
    Redis writes. Each method is proved against the value-level operation. */
module PersistenceManager {
  import opened Options
  import opened Persistence

  class SessionState {
    var meta: Meta
    var files: map<Path, Bytes>

    constructor (meta: Meta, files: map<Path, Bytes>)
      ensures Value() == State(meta, files)
    {
      this.meta, this.files := meta, files;
    }

    function Value(): State
      reads this
    {
      State(meta, files)
    }

    method Assign(meta: Meta, files: map<Path, Bytes>)
      modifies this
      ensures Value() == State(meta, files)
    {
      this.meta, this.files := meta, files;
    }
  }

  class SessionPersistenceManager {
    const settings: Settings
    var activeSessions: map<Id, SessionState>
    var redis: map<string, Value>
    ghost var cache: map<Id, State> // what the cached objects hold
    ghost var objects: set<SessionState>

    constructor (settings: Settings, redis: map<string, Value>)
      ensures this.settings == settings && Valid() && objects == {} && Model() == Store(map[], redis)
    {
      this.settings, this.redis := settings, redis;
      activeSessions, cache, objects := map[], map[], {};
    }

    /** Each cached id has its own object, which carries the id. */
    ghost predicate Valid()
      reads this`activeSessions, this`cache, this`objects, objects
    {
      && activeSessions.Keys == cache.Keys
      && (forall id :: id in activeSessions ==>
            activeSessions[id] in objects && activeSessions[id].Value() == cache[id])
      && (forall i, j :: i in activeSessions && j in activeSessions && activeSessions[i] == activeSessions[j] ==>
            i == j)
    }

    ghost function Model(): Store
      reads this
    {
      Store(cache, redis)
    }

    // -------------------------------------------------------------- cache

    /** get_session: the cached object, or a new one loaded from Redis that nothing else refers to. */
    method GetSession(id: Id) returns (state: SessionState?)
      requires Valid()
      ensures state == null <==> Persistence.GetSession(Model(), id) == None
      ensures state != null ==> Persistence.GetSession(Model(), id) == Some(state.Value())
      ensures id in activeSessions ==> state == activeSessions[id]
      ensures state != null && id !in activeSessions ==> fresh(state)
    {
      if id in activeSessions {
        return activeSessions[id];
      }
      var loaded := LoadSession(redis, id);
      if loaded == None {
        return null;
      }
      state := new SessionState(loaded.value.meta, loaded.value.files);
    }

    method Overwrite(id: Id, meta: Meta, files: map<Path, Bytes>)
      requires Valid() && id in activeSessions
      modifies this`cache, activeSessions[id]
      ensures Valid() && cache == old(cache)[id := State(meta, files)]
    {
      var state := activeSessions[id];
      state.meta, state.files := meta, files;
      cache := cache[id := State(meta, files)];
    }

    method Enter(id: Id, state: SessionState)
      requires Valid() && id !in activeSessions && state !in objects
      modifies this`activeSessions, this`cache, this`objects
      ensures Valid() && cache == old(cache)[id := state.Value()]
      ensures objects == old(objects) + {state}
    {
      activeSessions, cache := activeSessions[id := state], cache[id := state.Value()];
      objects := objects + {state};
    }

    /** Writes the fields of a state object that belongs to `id` and puts it into the cache. */
    method Keep(id: Id, state: SessionState, meta: Meta, files: map<Path, Bytes>)
      requires Valid() && if id in activeSessions then state == activeSessions[id] else state !in objects
      modifies this`activeSessions, this`cache, this`objects, state
      ensures Valid() && cache == old(cache)[id := State(meta, files)]
      ensures objects == old(objects) + {state}
    {
      if id in activeSessions {
        Overwrite(id, meta, files);
      } else {
        state.Assign(meta, files);
        Enter(id, state);
      }
    }

    method Forget(id: Id)
      requires Valid()
      modifies this`activeSessions, this`cache
      ensures Valid() && cache == old(cache) - {id}
    {
      activeSessions, cache := activeSessions - {id}, cache - {id};
    }

    // -------------------------------------------------------------- operations

    lemma Replaced(c: map<Id, State>, id: Id, s: State)
      ensures (c - {id})[id := s] == c[id := s]
    {
    }

    method CreateSession(meta: Meta)
      requires Valid()
      modifies this
      ensures Valid() && Model() == Persistence.CreateSession(old(Model()), meta)
    {
      var id := meta.sessionId;
      var state := new SessionState(meta, map[]);
      Forget(id);
      Enter(id, state);
      Replaced(old(cache), id, state.Value());
      redis := SaveSession(redis, meta);
    }

    method UpdateSession(id: Id, u: Update, now: string) returns (ok: bool)
      requires Valid()
      modifies this, objects
      ensures Valid() && (Model(), ok) == Persistence.UpdateSession(old(Model()), id, u, now)
    {
      var state := GetSession(id);
      if state == null {
        return false;
      }
      Keep(id, state, Updated(state.meta, u, now), Else(u.files, state.files));
      return true;
    }

    method AddFile(id: Id, p: Path, content: Bytes, now: string) returns (ok: bool)
      requires Valid()
      modifies this, objects
      ensures Valid() && (Model(), ok) == Persistence.AddFile(settings, old(Model()), id, p, content, now)
    {
      if |content| > settings.maxFileSize {
        return false;
      }
      var state := GetSession(id);
      if state == null {
        return false;
      }
      var stored := Encode(settings, content);
      if id in activeSessions {
        Keep(id, state, state.meta.(lastActivity := now), state.files[p := stored]);
      }
      redis := SaveFile(redis, id, p, stored);
      return true;
    }

    method GetFile(id: Id, p: Path) returns (content: Option<Bytes>)
      requires Valid()
      ensures content == Persistence.GetFile(settings, Model(), id, p)
    {
      if id in activeSessions && p in activeSessions[id].files {
        var stored := activeSessions[id].files[p];
        return Some(if settings.compression then settings.decompress(stored) else stored);
      }
      content := LoadFile(redis, id, p);
      if content.Some? && content.value != [] && settings.compression {
        content := Some(settings.decompress(content.value));
      }
    }

    method DeleteFile(id: Id, p: Path)
      requires Valid()
      modifies this, objects
      ensures Valid() && Model() == Persistence.DeleteFile(old(Model()), id, p)
    {
      if id in activeSessions {
        var state := activeSessions[id];
        Keep(id, state, state.meta, state.files - {p});
      }
      redis := DropFile(redis, id, p);
    }

    method MigrateSession(id: Id, pod: string, pool: Option<string>, now: string)
      requires Valid()
      modifies this, objects
      ensures Valid() && Model() == Persistence.MigrateSession(old(Model()), id, pod, pool, now)
    {
      var state := GetSession(id);
      if state != null {
        var moved := Migrated(state.meta, pod, pool, now);
        Keep(id, state, moved, state.files);
        redis := SaveSession(redis, moved);
      }
    }

    method RestoreSession(id: Id, pod: string, now: string)
      requires Valid()
      modifies this
      ensures Valid() && Model() == Persistence.RestoreSession(old(Model()), id, pod, now)
    {
      var loaded := LoadSession(redis, id);
      if loaded.Some? {
        var files := LoadAllFiles(redis, id);
        var state := new SessionState(loaded.value.meta, files);
        Forget(id);
        Keep(id, state, Restored(loaded.value.meta, pod, now), files);
      }
    }

    method DeleteSession(id: Id)
      requires Valid()
      modifies this
      ensures Valid() && Model() == Persistence.DeleteSession(old(Model()), id)
    {
      Forget(id);
      redis := redis - {SessionKey(id), FilesKey(id)};
    }

    /** _save_all_sessions, in the order of the dictionary: each cached state is saved under the id it carries. */
    method SaveAllSessions(order: seq<Id>)
      requires Valid() && forall i :: 0 <= i < |order| ==> order[i] in activeSessions
      requires forall id :: id in activeSessions ==> id in order
      modifies this`redis
      ensures Valid() && redis == SaveInOrder(old(redis), cache, order)
      ensures CarryOwnIds(cache) ==> Model() == Snapshot(old(Model()))
    {
      for i := 0 to |order|
        invariant Valid() && redis == SaveInOrder(old(redis), cache, order[..i])
      {
        assert order[..i + 1][..i] == order[..i];
        redis := SaveSession(redis, activeSessions[order[i]].meta);
      }
      assert order[..|order|] == order;
      if CarryOwnIds(cache) {
        OrderIsIrrelevant(old(redis), cache, order);
        assert IdSet(order) == cache.Keys;
      }
    }
  }
}
