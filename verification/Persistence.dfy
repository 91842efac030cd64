/** Session persistence as a value: a cache of live states over one Redis keyspace. Files are written
    through, metadata is written when it is saved. Redis calls succeed; files do not time out. */
module Persistence {
  import opened Options

  type Id = string
  type Path = string
  type Byte = x: int | 0 <= x < 256
  type Bytes = seq<Byte>
  type Other(==,!new) // template, creation and expiry times, environment, history, packages

  /** What to_dict keeps: everything but the files. */
  datatype Meta = Meta(sessionId: Id, pool: string, pod: string, lastActivity: string,
                       metadata: map<string, string>, other: Other)

  datatype State = State(meta: Meta, files: map<Path, Bytes>)

  datatype Value = Text(meta: Meta) | Hash(fields: map<Path, Bytes>)

  datatype Store = Store(cache: map<Id, State>, redis: map<string, Value>)

  /** zlib as an inverse pair whose output is never empty. */
  datatype Settings = Settings(compression: bool, maxFileSize: int, compress: Bytes -> Bytes,
                               decompress: Bytes -> Bytes)

  ghost predicate Lossless(z: Settings) {
    forall b :: z.decompress(z.compress(b)) == b && z.compress(b) != []
  }

  // ---------------------------------------------------------------- keys

  const PREFIX := "executor:session:"

  function SessionKey(id: Id): string { PREFIX + id }

  function FilesKey(id: Id): string { PREFIX + id + ":files" }

  predicate ColonFree(id: Id) { ':' !in id }

  lemma KeysInjective(a: Id, b: Id)
    ensures SessionKey(a) == SessionKey(b) ==> a == b
    ensures FilesKey(a) == FilesKey(b) ==> a == b
  {
    assert SessionKey(a)[|PREFIX|..] == a && SessionKey(b)[|PREFIX|..] == b;
    var n, m := |FilesKey(a)| - 6, |FilesKey(b)| - 6;
    assert FilesKey(a)[|PREFIX|..n] == a && FilesKey(b)[|PREFIX|..m] == b;
  }

  /** The one way a session record and a file hash can share a key. */
  lemma KeysCollideExactly(a: Id, b: Id)
    ensures SessionKey(a) == FilesKey(b) <==> a == b + ":files"
  {
    assert SessionKey(a)[|PREFIX|..] == a;
    assert FilesKey(b) == PREFIX + (b + ":files");
    assert FilesKey(b)[|PREFIX|..] == b + ":files";
  }

  lemma ColonFreeKeysApart(a: Id, b: Id)
    requires ColonFree(a)
    ensures SessionKey(a) != FilesKey(b)
  {
    KeysCollideExactly(a, b);
    assert (b + ":files")[|b|] == ':';
  }

  // ---------------------------------------------------------------- Redis helpers

  /** GET, and what _load_session makes of it; a value of the wrong type raises, which is caught. */
  function LoadSession(redis: map<string, Value>, id: Id): Option<State> {
    if SessionKey(id) in redis && redis[SessionKey(id)].Text? then Some(State(redis[SessionKey(id)].meta, map[]))
    else None
  }

  function SaveSession(redis: map<string, Value>, m: Meta): map<string, Value> {
    redis[SessionKey(m.sessionId) := Text(m)]
  }

  function LoadAllFiles(redis: map<string, Value>, id: Id): map<Path, Bytes> {
    if FilesKey(id) in redis && redis[FilesKey(id)].Hash? then redis[FilesKey(id)].fields else map[]
  }

  function LoadFile(redis: map<string, Value>, id: Id, p: Path): Option<Bytes> {
    var files := LoadAllFiles(redis, id);
    if p in files then Some(files[p]) else None
  }

  /** HSET; on a value of the wrong type it raises, which is caught and logged. */
  function SaveFile(redis: map<string, Value>, id: Id, p: Path, content: Bytes): map<string, Value> {
    if FilesKey(id) in redis && redis[FilesKey(id)].Text? then redis
    else redis[FilesKey(id) := Hash(LoadAllFiles(redis, id)[p := content])]
  }

  function DropFile(redis: map<string, Value>, id: Id, p: Path): map<string, Value> {
    if FilesKey(id) in redis && redis[FilesKey(id)].Hash? then
      redis[FilesKey(id) := Hash(redis[FilesKey(id)].fields - {p})]
    else redis
  }

  // ---------------------------------------------------------------- operations

  function GetSession(s: Store, id: Id): Option<State> {
    if id in s.cache then Some(s.cache[id]) else LoadSession(s.redis, id)
  }

  function CreateSession(s: Store, m: Meta): Store {
    Store(s.cache[m.sessionId := State(m, map[])], SaveSession(s.redis, m))
  }

  /** The attributes that update_session sets. */
  datatype Update = Update(sessionId: Option<Id>, files: Option<map<Path, Bytes>>, pool: Option<string>,
                           pod: Option<string>, metadata: Option<map<string, string>>, other: Option<Other>)

  function Else<T>(o: Option<T>, d: T): T { if o.Some? then o.value else d }

  function Updated(m: Meta, u: Update, now: string): Meta {
    Meta(Else(u.sessionId, m.sessionId), Else(u.pool, m.pool), Else(u.pod, m.pod), now,
         Else(u.metadata, m.metadata), Else(u.other, m.other))
  }

  function UpdateSession(s: Store, id: Id, u: Update, now: string): (Store, bool) {
    match GetSession(s, id)
    case None => (s, false)
    case Some(state) =>
      (s.(cache := s.cache[id := State(Updated(state.meta, u, now), Else(u.files, state.files))]), true)
  }

  function Encode(z: Settings, content: Bytes): Bytes {
    if z.compression then z.compress(content) else content
  }

  /** Only a cached state keeps the file; a state loaded for the call is dropped after it. */
  function AddFile(z: Settings, s: Store, id: Id, p: Path, content: Bytes, now: string): (Store, bool) {
    if |content| > z.maxFileSize || GetSession(s, id) == None then (s, false)
    else
      var stored := Encode(z, content);
      var cache := if id in s.cache then
          s.cache[id := State(s.cache[id].meta.(lastActivity := now), s.cache[id].files[p := stored])]
        else s.cache;
      (Store(cache, SaveFile(s.redis, id, p, stored)), true)
  }

  function GetFile(z: Settings, s: Store, id: Id, p: Path): Option<Bytes> {
    if id in s.cache && p in s.cache[id].files then
      Some(if z.compression then z.decompress(s.cache[id].files[p]) else s.cache[id].files[p])
    else
      match LoadFile(s.redis, id, p)
      case None => None
      case Some(content) => Some(if content != [] && z.compression then z.decompress(content) else content)
  }

  function DeleteFile(s: Store, id: Id, p: Path): Store {
    Store(if id in s.cache then s.cache[id := s.cache[id].(files := s.cache[id].files - {p})] else s.cache,
          DropFile(s.redis, id, p))
  }

  function Migrated(m: Meta, pod: string, pool: Option<string>, now: string): Meta {
    m.(pod := pod, pool := if pool.Some? && pool.value != "" then pool.value else m.pool, lastActivity := now,
       metadata := m.metadata["migrated_from" := m.pod]["migrated_at" := now])
  }

  function MigrateSession(s: Store, id: Id, pod: string, pool: Option<string>, now: string): Store {
    match GetSession(s, id)
    case None => s
    case Some(state) =>
      var m := Migrated(state.meta, pod, pool, now);
      Store(s.cache[id := state.(meta := m)], SaveSession(s.redis, m))
  }

  function Restored(m: Meta, pod: string, now: string): Meta {
    m.(pod := pod, lastActivity := now, metadata := m.metadata["restored" := "true"]["restored_at" := now])
  }

  function RestoreSession(s: Store, id: Id, pod: string, now: string): Store {
    match LoadSession(s.redis, id)
    case None => s
    case Some(state) =>
      s.(cache := s.cache[id := State(Restored(state.meta, pod, now), LoadAllFiles(s.redis, id))])
  }

  function DeleteSession(s: Store, id: Id): Store {
    Store(s.cache - {id}, s.redis - {SessionKey(id), FilesKey(id)})
  }

  predicate KeyOf(ids: set<Id>, key: string) {
    PREFIX <= key && key[|PREFIX|..] in ids
  }

  /** The keyspace after the cached states with the given ids were saved, in whatever order. */
  function SaveEach(redis: map<string, Value>, cache: map<Id, State>, ids: set<Id>): map<string, Value>
    requires ids <= cache.Keys
  {
    var keys := set id | id in ids :: SessionKey(id);
    map key | key in redis.Keys + keys ::
      if KeyOf(ids, key) then Text(cache[key[|PREFIX|..]].meta) else redis[key]
  }

  lemma SaveNone(redis: map<string, Value>, cache: map<Id, State>)
    ensures SaveEach(redis, cache, {}) == redis
  {
  }

  lemma SaveOneMore(redis: map<string, Value>, cache: map<Id, State>, done: set<Id>, id: Id)
    requires done <= cache.Keys && id in cache && cache[id].meta.sessionId == id
    ensures SaveEach(redis, cache, done + {id}) == SaveSession(SaveEach(redis, cache, done), cache[id].meta)
  {
    assert SessionKey(id)[|PREFIX|..] == id;
    forall key ensures KeyOf(done + {id}, key) <==> KeyOf(done, key) || key == SessionKey(id) {
      if PREFIX <= key && key[|PREFIX|..] == id {
        assert key == PREFIX + key[|PREFIX|..];
      }
    }
  }

  /** _save_all_sessions: the cached states are saved one after the other, each under the id it carries. */
  function SaveInOrder(redis: map<string, Value>, cache: map<Id, State>, order: seq<Id>): map<string, Value>
    requires forall i :: 0 <= i < |order| ==> order[i] in cache
  {
    if order == [] then redis
    else SaveSession(SaveInOrder(redis, cache, order[..|order| - 1]), cache[order[|order| - 1]].meta)
  }

  predicate CarryOwnIds(cache: map<Id, State>) {
    forall id :: id in cache ==> cache[id].meta.sessionId == id
  }

  function IdSet(order: seq<Id>): set<Id> {
    set id | id in order
  }

  /** When cached states carry their own ids the order makes no difference. */
  lemma {:induction false} OrderIsIrrelevant(redis: map<string, Value>, cache: map<Id, State>, order: seq<Id>)
    requires CarryOwnIds(cache) && forall i :: 0 <= i < |order| ==> order[i] in cache
    ensures SaveInOrder(redis, cache, order) == SaveEach(redis, cache, IdSet(order))
  {
    if order == [] {
      SaveNone(redis, cache);
      assert IdSet(order) == {};
    } else {
      var before, id := order[..|order| - 1], order[|order| - 1];
      OrderIsIrrelevant(redis, cache, before);
      SaveOneMore(redis, cache, IdSet(before), id);
      assert order == before + [id];
      assert IdSet(order) == IdSet(before) + {id};
    }
  }

  /** _save_all_sessions; a cached state carries its own id. */
  function Snapshot(s: Store): Store {
    s.(redis := SaveEach(s.redis, s.cache, s.cache.Keys))
  }

  /** A crash of the manager loses the cache and nothing else. */
  function Crash(s: Store): Store {
    s.(cache := map[])
  }

  // ---------------------------------------------------------------- what the operations do to the metadata

  /** The attribute is the one given, or the old one if none was. */
  predicate Takes<T(==)>(given: Option<T>, before: T, after: T) {
    (given.Some? ==> after == given.value) && (given.None? ==> after == before)
  }

  /** An update sets the attributes it gives and the last activity, in the cache; nothing is saved. It fails exactly
      for a session that is nowhere. */
  lemma UpdateSets(s: Store, id: Id, u: Update, now: string)
    ensures var (after, ok) := UpdateSession(s, id, u, now);
      && (ok <==> GetSession(s, id).Some?) && (!ok ==> after == s)
      && after.redis == s.redis && after.cache - {id} == s.cache - {id}
      && (ok ==>
            && id in after.cache
            && var before, state := GetSession(s, id).value, after.cache[id];
            && Takes(u.sessionId, before.meta.sessionId, state.meta.sessionId)
            && Takes(u.files, before.files, state.files)
            && Takes(u.pool, before.meta.pool, state.meta.pool) && Takes(u.pod, before.meta.pod, state.meta.pod)
            && Takes(u.metadata, before.meta.metadata, state.meta.metadata)
            && Takes(u.other, before.meta.other, state.meta.other) && state.meta.lastActivity == now)
  {
  }

  /** The texts under all keys but two are as they were. */
  ghost predicate SameBut(before: map<string, string>, after: map<string, string>, a: string, b: string) {
    forall key :: key != a && key != b ==>
      (key in after <==> key in before) && (key in before ==> after[key] == before[key])
  }

  /** A migration moves the session to the pod, and to the pool if one is named, and notes where it came from and
      when; the rest of the state is kept. The session is then live and saved as it now is. */
  lemma MigrateMoves(s: Store, id: Id, pod: string, pool: Option<string>, now: string)
    ensures var after := MigrateSession(s, id, pod, pool, now);
      && (GetSession(s, id).None? ==> after == s)
      && after.cache - {id} == s.cache - {id}
      && (GetSession(s, id).Some? ==>
            && id in after.cache
            && var before, state := GetSession(s, id).value, after.cache[id];
            && state.meta.pod == pod && state.meta.lastActivity == now
            && state.meta.pool == (if pool == None || pool == Some("") then before.meta.pool else pool.value)
            && "migrated_from" in state.meta.metadata && state.meta.metadata["migrated_from"] == before.meta.pod
            && "migrated_at" in state.meta.metadata && state.meta.metadata["migrated_at"] == now
            && SameBut(before.meta.metadata, state.meta.metadata, "migrated_from", "migrated_at")
            && state.meta.sessionId == before.meta.sessionId && state.meta.other == before.meta.other
            && state.files == before.files
            && after.redis == s.redis[SessionKey(before.meta.sessionId) := Text(state.meta)])
  {
    assert "migrated_from"[9] != "migrated_at"[9];
  }

  /** A restore reads the saved session into the cache, with its stored files, on the new pod, and notes it; it
      saves nothing, and does nothing for a session that is not saved. */
  lemma RestoreReads(s: Store, id: Id, pod: string, now: string)
    ensures var after := RestoreSession(s, id, pod, now);
      && after.redis == s.redis && after.cache - {id} == s.cache - {id}
      && (LoadSession(s.redis, id).None? ==> after == s)
      && (LoadSession(s.redis, id).Some? ==>
            && id in after.cache
            && var before, state := LoadSession(s.redis, id).value, after.cache[id];
            && state.meta.pod == pod && state.meta.pool == before.meta.pool && state.meta.lastActivity == now
            && "restored" in state.meta.metadata && state.meta.metadata["restored"] == "true"
            && "restored_at" in state.meta.metadata && state.meta.metadata["restored_at"] == now
            && SameBut(before.meta.metadata, state.meta.metadata, "restored", "restored_at")
            && state.meta.sessionId == before.meta.sessionId && state.meta.other == before.meta.other
            && (forall p :: LoadFile(s.redis, id, p) == if p in state.files then Some(state.files[p]) else None))
  {
    assert |"restored"| != |"restored_at"|;
  }
}
