/** Crash refinement: over every sequential run with crashes and restores the persistence manager
    is one plain map of file contents and one plain map of saved metadata. */
module PersistenceRuns {
  import opened Options
  import opened Persistence

  datatype Event =
    | Created(meta: Meta)
    | UpdatedMeta(id: Id, update: Update, now: string)
    | FileAdded(id: Id, path: Path, content: Bytes, now: string)
    | FileDeleted(id: Id, path: Path)
    | MigratedTo(id: Id, pod: string, pool: Option<string>, now: string)
    | RestoredOn(id: Id, pod: string, now: string)
    | SessionDeleted(id: Id)
    | Snapshotted
    | Crashed
    | RecordExpired(id: Id) // Redis drops the session record that create_session wrote with a ttl

  function Step(z: Settings, s: Store, e: Event): Store {
    match e
    case Created(m) => CreateSession(s, m)
    case UpdatedMeta(id, u, now) => UpdateSession(s, id, u, now).0
    case FileAdded(id, p, content, now) => AddFile(z, s, id, p, content, now).0
    case FileDeleted(id, p) => DeleteFile(s, id, p)
    case MigratedTo(id, pod, pool, now) => MigrateSession(s, id, pod, pool, now)
    case RestoredOn(id, pod, now) => RestoreSession(s, id, pod, now)
    case SessionDeleted(id) => DeleteSession(s, id)
    case Snapshotted => Snapshot(s)
    case Crashed => Crash(s)
    case RecordExpired(id) => s.(redis := s.redis - {SessionKey(id)})
  }

  function Run(z: Settings, es: seq<Event>): Store {
    if es == [] then Store(map[], map[]) else Step(z, Run(z, es[..|es| - 1]), es[|es| - 1])
  }

  /** Ids without colons, and updates that set neither the session id nor the files. */
  predicate OrdinaryEvent(e: Event) {
    match e
    case Created(m) => ColonFree(m.sessionId)
    case UpdatedMeta(id, u, _) => ColonFree(id) && u.sessionId.None? && u.files.None?
    case FileAdded(id, _, _, _) => ColonFree(id)
    case FileDeleted(id, _) => ColonFree(id)
    case MigratedTo(id, _, _, _) => ColonFree(id)
    case RestoredOn(id, _, _) => ColonFree(id)
    case SessionDeleted(id) => ColonFree(id)
    case RecordExpired(id) => ColonFree(id)
    case Snapshotted => true
    case Crashed => true
  }

  ghost predicate OrdinaryRun(es: seq<Event>) {
    forall i :: 0 <= i < |es| ==> OrdinaryEvent(es[i])
  }

  // ---------------------------------------------------------------- the reference

  type Files = map<(Id, Path), Bytes>

  /** Metadata: what is live in memory, and what was last saved. */
  datatype Memory = Memory(live: map<Id, Meta>, saved: map<Id, Meta>)

  function Current(m: Memory, id: Id): Option<Meta> {
    if id in m.live then Some(m.live[id]) else if id in m.saved then Some(m.saved[id]) else None
  }

  function MemoryStep(z: Settings, m: Memory, e: Event): Memory {
    match e
    case Created(meta) => Memory(m.live[meta.sessionId := meta], m.saved[meta.sessionId := meta])
    case UpdatedMeta(id, u, now) =>
      (match Current(m, id)
       case None => m
       case Some(meta) => m.(live := m.live[id := Updated(meta, u, now)]))
    case FileAdded(id, _, content, now) =>
      if |content| <= z.maxFileSize && id in m.live then m.(live := m.live[id := m.live[id].(lastActivity := now)])
      else m
    case FileDeleted(_, _) => m
    case MigratedTo(id, pod, pool, now) =>
      (match Current(m, id)
       case None => m
       case Some(meta) =>
         var moved := Migrated(meta, pod, pool, now);
         Memory(m.live[id := moved], m.saved[id := moved]))
    case RestoredOn(id, pod, now) =>
      if id in m.saved then m.(live := m.live[id := Restored(m.saved[id], pod, now)]) else m
    case SessionDeleted(id) => Memory(m.live - {id}, m.saved - {id})
    case Snapshotted => m.(saved := m.saved + m.live)
    case Crashed => m.(live := map[])
    case RecordExpired(id) => m.(saved := m.saved - {id})
  }

  function ExpectedMemory(z: Settings, es: seq<Event>): Memory {
    if es == [] then Memory(map[], map[]) else MemoryStep(z, ExpectedMemory(z, es[..|es| - 1]), es[|es| - 1])
  }

  /** When a file is accepted: it is not too large, and its session is live or saved. */
  predicate Accepts(z: Settings, m: Memory, e: Event) {
    e.FileAdded? && |e.content| <= z.maxFileSize && Current(m, e.id).Some?
  }

  /** A file is the content last accepted and deleted by nobody since. */
  function FilesStep(f: Files, e: Event, accepted: bool): Files {
    match e
    case FileAdded(id, p, content, _) => if accepted then f[(id, p) := content] else f
    case FileDeleted(id, p) => f - {(id, p)}
    case SessionDeleted(id) => map k | k in f && k.0 != id :: f[k]
    case _ => f
  }

  function ExpectedFiles(z: Settings, es: seq<Event>): Files {
    if es == [] then map[]
    else
      var before := es[..|es| - 1];
      FilesStep(ExpectedFiles(z, before), es[|es| - 1], Accepts(z, ExpectedMemory(z, before), es[|es| - 1]))
  }

  // ---------------------------------------------------------------- the keyspace as two tables

  /** What the colon-free part of the keyspace means: one table of session records, one of file hashes. */
  datatype Tables = Tables(sessions: map<Id, Meta>, files: map<Id, map<Path, Bytes>>)

  ghost predicate RowsAt(redis: map<string, Value>, t: Tables, id: Id) {
    && (SessionKey(id) in redis <==> id in t.sessions)
    && (id in t.sessions ==> redis[SessionKey(id)] == Text(t.sessions[id]) && t.sessions[id].sessionId == id)
    && (FilesKey(id) in redis <==> id in t.files)
    && (id in t.files ==> redis[FilesKey(id)] == Hash(t.files[id]))
  }

  ghost predicate Rows(redis: map<string, Value>, t: Tables) {
    && (forall id :: ColonFree(id) ==> RowsAt(redis, t, id))
    && (forall id :: id in t.sessions || id in t.files ==> ColonFree(id))
  }

  type FileTable = map<Id, map<Path, Bytes>>

  function FilesOf(files: FileTable, id: Id): map<Path, Bytes> {
    if id in files then files[id] else map[]
  }

  lemma SaveRow(redis: map<string, Value>, t: Tables, m: Meta)
    requires Rows(redis, t) && ColonFree(m.sessionId)
    ensures Rows(SaveSession(redis, m), t.(sessions := t.sessions[m.sessionId := m]))
  {
    forall id | ColonFree(id) ensures RowsAt(SaveSession(redis, m), t.(sessions := t.sessions[m.sessionId := m]), id) {
      assert RowsAt(redis, t, id);
      KeysInjective(id, m.sessionId);
      ColonFreeKeysApart(m.sessionId, id);
    }
  }

  lemma FileRow(redis: map<string, Value>, t: Tables, id: Id, p: Path, c: Bytes)
    requires Rows(redis, t) && ColonFree(id)
    ensures Rows(SaveFile(redis, id, p, c), t.(files := t.files[id := FilesOf(t.files, id)[p := c]]))
  {
    assert RowsAt(redis, t, id);
    forall k | ColonFree(k)
      ensures RowsAt(SaveFile(redis, id, p, c), t.(files := t.files[id := FilesOf(t.files, id)[p := c]]), k)
    {
      assert RowsAt(redis, t, k);
      KeysInjective(id, k);
      ColonFreeKeysApart(k, id);
    }
  }

  lemma DropRow(redis: map<string, Value>, t: Tables, id: Id, p: Path)
    requires Rows(redis, t) && ColonFree(id)
    ensures Rows(DropFile(redis, id, p), if id in t.files then t.(files := t.files[id := t.files[id] - {p}]) else t)
  {
    assert RowsAt(redis, t, id);
    var after := if id in t.files then t.(files := t.files[id := t.files[id] - {p}]) else t;
    forall k | ColonFree(k) ensures RowsAt(DropFile(redis, id, p), after, k) {
      assert RowsAt(redis, t, k);
      KeysInjective(id, k);
      ColonFreeKeysApart(k, id);
    }
  }

  lemma DeleteRows(redis: map<string, Value>, t: Tables, id: Id)
    requires Rows(redis, t) && ColonFree(id)
    ensures Rows(redis - {SessionKey(id), FilesKey(id)}, Tables(t.sessions - {id}, t.files - {id}))
  {
    forall k | ColonFree(k)
      ensures RowsAt(redis - {SessionKey(id), FilesKey(id)}, Tables(t.sessions - {id}, t.files - {id}), k)
    {
      assert RowsAt(redis, t, k);
      KeysInjective(id, k);
      ColonFreeKeysApart(k, id);
      ColonFreeKeysApart(id, k);
    }
  }

  lemma ExpireRow(redis: map<string, Value>, t: Tables, id: Id)
    requires Rows(redis, t) && ColonFree(id)
    ensures Rows(redis - {SessionKey(id)}, t.(sessions := t.sessions - {id}))
  {
    forall k | ColonFree(k) ensures RowsAt(redis - {SessionKey(id)}, t.(sessions := t.sessions - {id}), k) {
      assert RowsAt(redis, t, k);
      KeysInjective(id, k);
      ColonFreeKeysApart(id, k);
    }
  }

  function LiveMetas(cache: map<Id, State>): map<Id, Meta> {
    map id | id in cache :: cache[id].meta
  }

  lemma SnapshotRows(s: Store, t: Tables)
    requires Rows(s.redis, t)
    requires forall id :: id in s.cache ==> ColonFree(id) && s.cache[id].meta.sessionId == id
    ensures Rows(Snapshot(s).redis, t.(sessions := t.sessions + LiveMetas(s.cache)))
  {
    var after := t.(sessions := t.sessions + LiveMetas(s.cache));
    forall k | ColonFree(k) ensures RowsAt(Snapshot(s).redis, after, k) {
      assert RowsAt(s.redis, t, k);
      assert SessionKey(k)[|PREFIX|..] == k && PREFIX <= SessionKey(k);
      assert FilesKey(k)[|PREFIX|..] == k + ":files";
      assert (k + ":files")[|k|] == ':';
      forall id | id in s.cache ensures (SessionKey(id) == SessionKey(k) ==> id == k) && SessionKey(id) != FilesKey(k) {
        KeysInjective(id, k);
        ColonFreeKeysApart(id, k);
      }
      assert !KeyOf(s.cache.Keys, FilesKey(k));
    }
  }

  // ---------------------------------------------------------------- refinement

  /** Cached states carry their ids and their metadata is the live memory. */
  ghost predicate CacheIsLive(cache: map<Id, State>, live: map<Id, Meta>) {
    && cache.Keys == live.Keys
    && forall id :: id in cache ==> ColonFree(id) && cache[id].meta.sessionId == id && cache[id].meta == live[id]
  }

  /** A cached file is the stored one. */
  ghost predicate CacheIsStored(cache: map<Id, State>, files: FileTable) {
    forall id, p :: id in cache && p in cache[id].files ==>
      p in FilesOf(files, id) && cache[id].files[p] == FilesOf(files, id)[p]
  }

  /** The file table holds exactly the reference files, encoded. */
  ghost predicate StoredIsExpected(z: Settings, files: FileTable, f: Files) {
    && (forall id, p :: p in FilesOf(files, id) <==> (id, p) in f)
    && (forall id, p :: (id, p) in f ==> FilesOf(files, id)[p] == Encode(z, f[(id, p)]))
  }

  /** The store, its tables, the reference files and the reference memory all say the same. */
  ghost predicate Refines(z: Settings, s: Store, t: Tables, f: Files, m: Memory) {
    && Rows(s.redis, t) && t.sessions == m.saved
    && CacheIsLive(s.cache, m.live) && CacheIsStored(s.cache, t.files) && StoredIsExpected(z, t.files, f)
  }

  lemma Loads(z: Settings, s: Store, t: Tables, f: Files, m: Memory, id: Id)
    requires Refines(z, s, t, f, m) && ColonFree(id)
    ensures LoadSession(s.redis, id) == if id in m.saved then Some(State(m.saved[id], map[])) else None
    ensures LoadAllFiles(s.redis, id) == FilesOf(t.files, id)
    ensures match Current(m, id)
      case None => GetSession(s, id) == None
      case Some(meta) => GetSession(s, id).Some? && GetSession(s, id).value.meta == meta && meta.sessionId == id
  {
    assert RowsAt(s.redis, t, id);
  }

  /** Storing a state under its id in cache and live memory. */
  lemma CacheStates(cache: map<Id, State>, live: map<Id, Meta>, files: FileTable, state: State)
    requires CacheIsLive(cache, live) && CacheIsStored(cache, files) && ColonFree(state.meta.sessionId)
    requires forall p :: p in state.files ==>
      p in FilesOf(files, state.meta.sessionId) && state.files[p] == FilesOf(files, state.meta.sessionId)[p]
    ensures var id := state.meta.sessionId;
      CacheIsLive(cache[id := state], live[id := state.meta]) && CacheIsStored(cache[id := state], files)
  {
  }

  lemma MetasAreLive(cache: map<Id, State>, live: map<Id, Meta>)
    requires CacheIsLive(cache, live)
    ensures LiveMetas(cache) == live
  {
  }

  lemma LiveUpdates(cache: map<Id, State>, live: map<Id, Meta>, id: Id, state: State)
    requires CacheIsLive(cache, live) && id in cache && state.meta.sessionId == id
    ensures CacheIsLive(cache[id := state], live[id := state.meta])
  {
  }

  function WithFile(files: FileTable, id: Id, p: Path, stored: Bytes): FileTable {
    files[id := FilesOf(files, id)[p := stored]]
  }

  lemma TableGainsFile(z: Settings, files: FileTable, f: Files, id: Id, p: Path, content: Bytes)
    requires StoredIsExpected(z, files, f)
    ensures StoredIsExpected(z, WithFile(files, id, p, Encode(z, content)), f[(id, p) := content])
  {
  }

  /** A cached session gets the file too; a session that is not cached has no copies. */
  lemma CacheGainsFile(cache: map<Id, State>, files: FileTable, id: Id, p: Path, stored: Bytes, m: Meta)
    requires CacheIsStored(cache, files)
    ensures var after := if id in cache then cache[id := State(m, cache[id].files[p := stored])] else cache;
      CacheIsStored(after, WithFile(files, id, p, stored))
  {
  }

  function WithoutFile(files: FileTable, id: Id, p: Path): FileTable {
    if id in files then files[id := files[id] - {p}] else files
  }

  lemma TableLosesFile(z: Settings, files: FileTable, f: Files, id: Id, p: Path)
    requires StoredIsExpected(z, files, f)
    ensures StoredIsExpected(z, WithoutFile(files, id, p), f - {(id, p)})
  {
  }

  lemma CacheLosesFile(cache: map<Id, State>, files: FileTable, id: Id, p: Path)
    requires CacheIsStored(cache, files)
    ensures var after := if id in cache then cache[id := cache[id].(files := cache[id].files - {p})] else cache;
      CacheIsStored(after, WithoutFile(files, id, p))
  {
  }

  lemma TablesLoseSession(z: Settings, cache: map<Id, State>, live: map<Id, Meta>, files: FileTable, f: Files, id: Id)
    requires CacheIsLive(cache, live) && CacheIsStored(cache, files) && StoredIsExpected(z, files, f)
    ensures StoredIsExpected(z, files - {id}, map k | k in f && k.0 != id :: f[k])
    ensures CacheIsLive(cache - {id}, live - {id}) && CacheIsStored(cache - {id}, files - {id})
  {
  }

  /** A state put into the cache and saved, its files as they are stored. */
  lemma SavedStateRefines(z: Settings, s: Store, t: Tables, f: Files, m: Memory, state: State)
    requires Refines(z, s, t, f, m) && ColonFree(state.meta.sessionId)
    requires forall p :: p in state.files ==>
      p in FilesOf(t.files, state.meta.sessionId) && state.files[p] == FilesOf(t.files, state.meta.sessionId)[p]
    ensures var id := state.meta.sessionId;
      Refines(z, Store(s.cache[id := state], SaveSession(s.redis, state.meta)),
              t.(sessions := t.sessions[id := state.meta]),
              f, Memory(m.live[id := state.meta], m.saved[id := state.meta]))
  {
    SaveRow(s.redis, t, state.meta);
    CacheStates(s.cache, m.live, t.files, state);
  }

  lemma CreateRefines(z: Settings, s: Store, t: Tables, f: Files, m: Memory, meta: Meta) returns (t': Tables)
    requires Refines(z, s, t, f, m) && ColonFree(meta.sessionId)
    ensures var e := Created(meta);
      Refines(z, Step(z, s, e), t', FilesStep(f, e, Accepts(z, m, e)), MemoryStep(z, m, e))
  {
    SavedStateRefines(z, s, t, f, m, State(meta, map[]));
    t' := t.(sessions := t.sessions[meta.sessionId := meta]);
  }

  lemma UpdateRefines(z: Settings, s: Store, t: Tables, f: Files, m: Memory, id: Id, u: Update, now: string)
    returns (t': Tables)
    requires Refines(z, s, t, f, m) && ColonFree(id) && u.sessionId.None? && u.files.None?
    ensures var e := UpdatedMeta(id, u, now);
      Refines(z, Step(z, s, e), t', FilesStep(f, e, Accepts(z, m, e)), MemoryStep(z, m, e))
  {
    t' := t;
    Loads(z, s, t, f, m, id);
    if GetSession(s, id).Some? {
      CacheStates(s.cache, m.live, t.files, GetSession(s, id).value.(meta := Updated(Current(m, id).value, u, now)));
    }
  }

  lemma AddFileRefines(z: Settings, s: Store, t: Tables, f: Files, m: Memory, id: Id, p: Path, content: Bytes,
                       now: string)
    returns (t': Tables)
    requires Refines(z, s, t, f, m) && ColonFree(id)
    ensures var e := FileAdded(id, p, content, now);
      Refines(z, Step(z, s, e), t', FilesStep(f, e, Accepts(z, m, e)), MemoryStep(z, m, e))
  {
    hide Rows, CacheIsStored, StoredIsExpected;
    t' := t;
    Loads(z, s, t, f, m, id);
    if AddFile(z, s, id, p, content, now).1 {
      FileRow(s.redis, t, id, p, Encode(z, content));
      TableGainsFile(z, t.files, f, id, p, content);
      if id in s.cache {
        var touched := s.cache[id].meta.(lastActivity := now);
        CacheGainsFile(s.cache, t.files, id, p, Encode(z, content), touched);
        LiveUpdates(s.cache, m.live, id, State(touched, s.cache[id].files[p := Encode(z, content)]));
      } else {
        CacheGainsFile(s.cache, t.files, id, p, Encode(z, content), GetSession(s, id).value.meta);
      }
      t' := t.(files := WithFile(t.files, id, p, Encode(z, content)));
    }
  }

  lemma DeleteFileRefines(z: Settings, s: Store, t: Tables, f: Files, m: Memory, id: Id, p: Path) returns (t': Tables)
    requires Refines(z, s, t, f, m) && ColonFree(id)
    ensures var e := FileDeleted(id, p);
      Refines(z, Step(z, s, e), t', FilesStep(f, e, Accepts(z, m, e)), MemoryStep(z, m, e))
  {
    hide Rows, CacheIsStored, StoredIsExpected;
    DropRow(s.redis, t, id, p);
    TableLosesFile(z, t.files, f, id, p);
    CacheLosesFile(s.cache, t.files, id, p);
    t' := t.(files := WithoutFile(t.files, id, p));
  }

  lemma LoadedFilesStored(z: Settings, s: Store, t: Tables, f: Files, m: Memory, id: Id)
    requires Refines(z, s, t, f, m) && ColonFree(id) && GetSession(s, id).Some?
    ensures forall p :: p in GetSession(s, id).value.files ==>
      p in FilesOf(t.files, id) && GetSession(s, id).value.files[p] == FilesOf(t.files, id)[p]
  {
    Loads(z, s, t, f, m, id);
  }

  lemma MigrateRefines(z: Settings, s: Store, t: Tables, f: Files, m: Memory,
                       id: Id, pod: string, pool: Option<string>, now: string) returns (t': Tables)
    requires Refines(z, s, t, f, m) && ColonFree(id)
    ensures var e := MigratedTo(id, pod, pool, now);
      Refines(z, Step(z, s, e), t', FilesStep(f, e, Accepts(z, m, e)), MemoryStep(z, m, e))
  {
    hide Refines;
    t' := t;
    Loads(z, s, t, f, m, id);
    if GetSession(s, id).Some? {
      LoadedFilesStored(z, s, t, f, m, id);
      var moved := GetSession(s, id).value.(meta := Migrated(Current(m, id).value, pod, pool, now));
      SavedStateRefines(z, s, t, f, m, moved);
      t' := t.(sessions := t.sessions[id := moved.meta]);
    }
  }

  lemma RestoreRefines(z: Settings, s: Store, t: Tables, f: Files, m: Memory, id: Id, pod: string, now: string)
    returns (t': Tables)
    requires Refines(z, s, t, f, m) && ColonFree(id)
    ensures var e := RestoredOn(id, pod, now);
      Refines(z, Step(z, s, e), t', FilesStep(f, e, Accepts(z, m, e)), MemoryStep(z, m, e))
  {
    t' := t;
    Loads(z, s, t, f, m, id);
    if id in m.saved {
      CacheStates(s.cache, m.live, t.files, State(Restored(m.saved[id], pod, now), FilesOf(t.files, id)));
    }
  }

  lemma DeleteSessionRefines(z: Settings, s: Store, t: Tables, f: Files, m: Memory, id: Id) returns (t': Tables)
    requires Refines(z, s, t, f, m) && ColonFree(id)
    ensures var e := SessionDeleted(id);
      Refines(z, Step(z, s, e), t', FilesStep(f, e, Accepts(z, m, e)), MemoryStep(z, m, e))
  {
    hide Rows, CacheIsLive, CacheIsStored, StoredIsExpected;
    DeleteRows(s.redis, t, id);
    TablesLoseSession(z, s.cache, m.live, t.files, f, id);
    t' := Tables(t.sessions - {id}, t.files - {id});
  }

  lemma SnapshotRefines(z: Settings, s: Store, t: Tables, f: Files, m: Memory) returns (t': Tables)
    requires Refines(z, s, t, f, m)
    ensures var e := Snapshotted;
      Refines(z, Step(z, s, e), t', FilesStep(f, e, Accepts(z, m, e)), MemoryStep(z, m, e))
  {
    SnapshotRows(s, t);
    MetasAreLive(s.cache, m.live);
    t' := t.(sessions := t.sessions + LiveMetas(s.cache));
  }

  lemma ExpireRefines(z: Settings, s: Store, t: Tables, f: Files, m: Memory, id: Id) returns (t': Tables)
    requires Refines(z, s, t, f, m) && ColonFree(id)
    ensures var e := RecordExpired(id);
      Refines(z, Step(z, s, e), t', FilesStep(f, e, Accepts(z, m, e)), MemoryStep(z, m, e))
  {
    ExpireRow(s.redis, t, id);
    t' := t.(sessions := t.sessions - {id});
  }

  lemma StepRefines(z: Settings, s: Store, t: Tables, f: Files, m: Memory, e: Event) returns (t': Tables)
    requires Refines(z, s, t, f, m) && OrdinaryEvent(e)
    ensures Refines(z, Step(z, s, e), t', FilesStep(f, e, Accepts(z, m, e)), MemoryStep(z, m, e))
  {
    match e
    case Created(meta) => t' := CreateRefines(z, s, t, f, m, meta);
    case UpdatedMeta(id, u, now) => t' := UpdateRefines(z, s, t, f, m, id, u, now);
    case FileAdded(id, p, content, now) => t' := AddFileRefines(z, s, t, f, m, id, p, content, now);
    case FileDeleted(id, p) => t' := DeleteFileRefines(z, s, t, f, m, id, p);
    case MigratedTo(id, pod, pool, now) => t' := MigrateRefines(z, s, t, f, m, id, pod, pool, now);
    case RestoredOn(id, pod, now) => t' := RestoreRefines(z, s, t, f, m, id, pod, now);
    case SessionDeleted(id) => t' := DeleteSessionRefines(z, s, t, f, m, id);
    case Snapshotted => t' := SnapshotRefines(z, s, t, f, m);
    case Crashed => t' := t;
    case RecordExpired(id) => t' := ExpireRefines(z, s, t, f, m, id);
  }

  // ---------------------------------------------------------------- whole runs

  lemma {:induction false} RunRefines(z: Settings, es: seq<Event>) returns (t: Tables)
    requires OrdinaryRun(es)
    ensures Refines(z, Run(z, es), t, ExpectedFiles(z, es), ExpectedMemory(z, es))
  {
    if es == [] {
      t := Tables(map[], map[]);
    } else {
      var n := |es| - 1;
      var before := RunRefines(z, es[..n]);
      t := StepRefines(z, Run(z, es[..n]), before, ExpectedFiles(z, es[..n]), ExpectedMemory(z, es[..n]), es[n]);
    }
  }

  /** Over every run add_file accepts a file exactly if it is not too large and its session is live in memory or
      saved; a crash between makes no difference to a saved session. */
  lemma AddFileAccepts(z: Settings, es: seq<Event>, id: Id, p: Path, content: Bytes, now: string)
    requires OrdinaryRun(es) && ColonFree(id)
    ensures AddFile(z, Run(z, es), id, p, content, now).1
      <==> |content| <= z.maxFileSize && Current(ExpectedMemory(z, es), id).Some?
  {
    var t := RunRefines(z, es);
    Loads(z, Run(z, es), t, ExpectedFiles(z, es), ExpectedMemory(z, es), id);
  }

  /** Over every run with any number of crashes and restores, get_file returns the last content that
      add_file accepted for the path and that nobody deleted. */
  lemma {:induction false} GetFileIsLastAccepted(z: Settings, es: seq<Event>, id: Id, p: Path)
    requires Lossless(z) && OrdinaryRun(es) && ColonFree(id)
    ensures var f := ExpectedFiles(z, es);
      GetFile(z, Run(z, es), id, p) == if (id, p) in f then Some(f[(id, p)]) else None
  {
    var t := RunRefines(z, es);
    Loads(z, Run(z, es), t, ExpectedFiles(z, es), ExpectedMemory(z, es), id);
    var f := ExpectedFiles(z, es);
    if (id, p) in f {
      assert z.decompress(z.compress(f[(id, p)])) == f[(id, p)];
    }
  }

  /** A crash at any moment loses no file. */
  lemma CrashLosesNoFile(z: Settings, es: seq<Event>, id: Id, p: Path)
    requires Lossless(z) && OrdinaryRun(es) && ColonFree(id)
    ensures GetFile(z, Crash(Run(z, es)), id, p) == GetFile(z, Run(z, es), id, p)
  {
    assert (es + [Crashed])[..|es|] == es;
    assert Run(z, es + [Crashed]) == Crash(Run(z, es));
    GetFileIsLastAccepted(z, es, id, p);
    GetFileIsLastAccepted(z, es + [Crashed], id, p);
  }

  /** After a crash the session is what it was at its last save: creation, migration or snapshot. */
  lemma ReloadIsLastSaved(z: Settings, es: seq<Event>, id: Id)
    requires OrdinaryRun(es) && ColonFree(id)
    ensures var saved := ExpectedMemory(z, es).saved;
      GetSession(Crash(Run(z, es)), id) == if id in saved then Some(State(saved[id], map[])) else None
  {
    var t := RunRefines(z, es);
    Loads(z, Run(z, es), t, ExpectedFiles(z, es), ExpectedMemory(z, es), id);
  }

  /** Between saves a lookup sees every update. */
  lemma LookupIsCurrent(z: Settings, es: seq<Event>, id: Id)
    requires OrdinaryRun(es) && ColonFree(id)
    ensures match Current(ExpectedMemory(z, es), id)
      case None => GetSession(Run(z, es), id) == None
      case Some(meta) => GetSession(Run(z, es), id).Some? && GetSession(Run(z, es), id).value.meta == meta
  {
    var t := RunRefines(z, es);
    Loads(z, Run(z, es), t, ExpectedFiles(z, es), ExpectedMemory(z, es), id);
  }

  /** A restore brings every stored file of the session back into the cache. */
  lemma {:induction false} RestoreBringsFilesBack(z: Settings, es: seq<Event>, id: Id, pod: string, now: string,
                                                  p: Path)
    requires OrdinaryRun(es) && ColonFree(id) && id in ExpectedMemory(z, es).saved
    ensures var s := RestoreSession(Run(z, es), id, pod, now);
      id in s.cache && (p in s.cache[id].files <==> (id, p) in ExpectedFiles(z, es))
  {
    var t := RunRefines(z, es);
    Loads(z, Run(z, es), t, ExpectedFiles(z, es), ExpectedMemory(z, es), id);
  }
}
