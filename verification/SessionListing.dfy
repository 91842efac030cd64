/** list_sessions: which persisted sessions a scan of the keys finds. */
module SessionListing {
  import opened Options
  import opened Persistence
  import opened PersistenceRuns

  predicate ContainsAt(s: string, sub: string, i: nat) {
    i + |sub| <= |s| && s[i..i + |sub|] == sub
  }

  predicate Contains(s: string, sub: string) {
    exists i: nat :: i <= |s| && ContainsAt(s, sub, i)
  }

  /** key.split(":")[-1] */
  function LastSegment(key: string): string
  {
    if key == [] || key[|key| - 1] == ':' then [] else LastSegment(key[..|key| - 1]) + [key[|key| - 1]]
  }

  predicate Passes(m: Meta, pool: string, pod: string) {
    (pool == "" || m.pool == pool) && (pod == "" || m.pod == pod)
  }

  /** What the loop makes of one key; an empty filter is no filter. */
  function FromKey(redis: map<string, Value>, key: string, pool: string, pod: string): seq<Meta> {
    if Contains(key, ":files") then []
    else
      match LoadSession(redis, LastSegment(key))
      case None => []
      case Some(state) => if Passes(state.meta, pool, pod) then [state.meta] else []
  }

  function FromKeys(redis: map<string, Value>, keys: seq<string>, pool: string, pod: string): seq<Meta> {
    if keys == [] then []
    else FromKeys(redis, keys[..|keys| - 1], pool, pod) + FromKey(redis, keys[|keys| - 1], pool, pod)
  }

  /** list_sessions over the keys that KEYS returned, in their order. */
  method ListSessions(redis: map<string, Value>, keys: seq<string>, pool: string, pod: string)
    returns (sessions: seq<Meta>)
    ensures sessions == FromKeys(redis, keys, pool, pod)
  {
    sessions := [];
    for i := 0 to |keys|
      invariant sessions == FromKeys(redis, keys[..i], pool, pod)
    {
      assert keys[..i + 1][..i] == keys[..i];
      var isFiles := Contains(keys[i], ":files");
      if !isFiles {
        var state := LoadSession(redis, LastSegment(keys[i]));
        if state.Some? && Passes(state.value.meta, pool, pod) {
          sessions := sessions + [state.value.meta];
        }
      }
    }
    assert keys[..|keys|] == keys;
  }

  // ---------------------------------------------------------------- keys

  lemma {:induction false} LastSegmentOf(prefix: string, id: Id)
    requires ColonFree(id) && prefix != [] && prefix[|prefix| - 1] == ':'
    ensures LastSegment(prefix + id) == id
  {
    if id != [] {
      var n := |id| - 1;
      assert (prefix + id)[..|prefix + id| - 1] == prefix + id[..n];
      assert (prefix + id)[|prefix + id| - 1] == id[n];
      LastSegmentOf(prefix, id[..n]);
      assert id == id[..n] + [id[n]];
    }
  }

  /** Where the colons of the prefix are. */
  lemma PrefixColons()
    ensures |PREFIX| == 17 && PREFIX[8] == ':' && PREFIX[9] == 's' && PREFIX[16] == ':'
    ensures forall i :: 0 <= i < 17 && i != 8 && i != 16 ==> PREFIX[i] != ':'
  {
    assert PREFIX == "executor:session:";
  }

  /** The six characters of ":files", one by one. */
  lemma FilesAt(s: string, i: nat)
    ensures ContainsAt(s, ":files", i) <==>
      && i + 6 <= |s| && s[i] == ':' && s[i + 1] == 'f' && s[i + 2] == 'i' && s[i + 3] == 'l'
      && s[i + 4] == 'e' && s[i + 5] == 's'
  {
    if i + 6 <= |s| {
      assert s[i..i + 6] == [s[i], s[i + 1], s[i + 2], s[i + 3], s[i + 4], s[i + 5]];
    }
  }

  /** The key of a colon-free id contains ":files" exactly when the id starts with "files". */
  lemma SessionKeyLooksLikeFiles(id: Id)
    requires ColonFree(id)
    ensures Contains(SessionKey(id), ":files") <==> "files" <= id
  {
    var key := SessionKey(id);
    PrefixColons();
    FilesAt(key, 16);
    assert "files" <= id <==> ContainsAt(key, ":files", 16) by {
      assert |id| >= 5 ==>
        key[17] == id[0] && key[18] == id[1] && key[19] == id[2] && key[20] == id[3] && key[21] == id[4];
    }
    if Contains(key, ":files") {
      var i: nat :| i <= |key| && ContainsAt(key, ":files", i);
      FilesAt(key, i);
    }
  }

  lemma FilesKeyLooksLikeFiles(id: Id)
    ensures Contains(FilesKey(id), ":files")
  {
    var key := FilesKey(id);
    assert key[|key| - 6..] == ":files";
    assert ContainsAt(key, ":files", |key| - 6);
  }

  /** Only this manager writes under the prefix. */
  ghost predicate OurKey(key: string) {
    exists id :: ColonFree(id) && (key == SessionKey(id) || key == FilesKey(id))
  }

  lemma {:induction false} FromKeysMembers(redis: map<string, Value>, keys: seq<string>, pool: string, pod: string,
                                           m: Meta)
    ensures m in FromKeys(redis, keys, pool, pod) <==>
      exists i :: 0 <= i < |keys| && m in FromKey(redis, keys[i], pool, pod)
  {
    if keys != [] {
      var n := |keys| - 1;
      FromKeysMembers(redis, keys[..n], pool, pod, m);
      if i :| 0 <= i < n && m in FromKey(redis, keys[..n][i], pool, pod) {
        assert m in FromKey(redis, keys[i], pool, pod);
      }
      if j :| 0 <= j < |keys| && m in FromKey(redis, keys[j], pool, pod) {
        assert j == n || m in FromKey(redis, keys[..n][j], pool, pod);
      }
    }
  }

  lemma FromOurKey(redis: map<string, Value>, t: Tables, key: string, pool: string, pod: string, m: Meta)
    requires Rows(redis, t) && OurKey(key)
    ensures m in FromKey(redis, key, pool, pod) ==>
      && m.sessionId in t.sessions && m == t.sessions[m.sessionId] && key == SessionKey(m.sessionId)
      && !("files" <= m.sessionId) && Passes(m, pool, pod)
  {
    var id :| ColonFree(id) && (key == SessionKey(id) || key == FilesKey(id));
    if key == FilesKey(id) {
      FilesKeyLooksLikeFiles(id);
    } else {
      SessionKeyLooksLikeFiles(id);
      LastSegmentOf(PREFIX, id);
      assert RowsAt(redis, t, id);
    }
  }

  /** A scan of all keys lists a persisted session exactly when it passes the filters and its id does not
      start with "files": such an id makes its record look like a file hash. */
  lemma ListsExactly(redis: map<string, Value>, t: Tables, keys: seq<string>, pool: string, pod: string, m: Meta)
    requires Rows(redis, t)
    requires forall key :: key in keys <==> key in redis
    requires forall key :: key in redis ==> OurKey(key)
    ensures m in FromKeys(redis, keys, pool, pod) <==>
      && m.sessionId in t.sessions && m == t.sessions[m.sessionId]
      && !("files" <= m.sessionId) && Passes(m, pool, pod)
  {
    FromKeysMembers(redis, keys, pool, pod, m);
    if i :| 0 <= i < |keys| && m in FromKey(redis, keys[i], pool, pod) {
      assert keys[i] in keys;
      FromOurKey(redis, t, keys[i], pool, pod, m);
    }
    var id := m.sessionId;
    if id in t.sessions && m == t.sessions[id] && !("files" <= id) && Passes(m, pool, pod) {
      assert RowsAt(redis, t, id);
      assert SessionKey(id) in keys;
      var i :| 0 <= i < |keys| && keys[i] == SessionKey(id);
      SessionKeyLooksLikeFiles(id);
      LastSegmentOf(PREFIX, id);
      assert m in FromKey(redis, keys[i], pool, pod);
    }
  }

  lemma StepKeysAreOurs(z: Settings, s: Store, e: Event)
    requires OrdinaryEvent(e) && forall key :: key in s.redis ==> OurKey(key)
    requires forall id :: id in s.cache ==> ColonFree(id) && s.cache[id].meta.sessionId == id
    requires forall id :: ColonFree(id) && LoadSession(s.redis, id).Some? ==>
      LoadSession(s.redis, id).value.meta.sessionId == id
    ensures forall key :: key in Step(z, s, e).redis ==> OurKey(key)
  {
    forall key | key in Step(z, s, e).redis ensures OurKey(key) {
      if key !in s.redis {
        match e
        case Created(m) => assert key == SessionKey(m.sessionId);
        case FileAdded(id, p, content, now) => assert key == FilesKey(id);
        case MigratedTo(id, pod, pool, now) => assert key == SessionKey(id);
        case Snapshotted =>
          var id :| id in s.cache && key == SessionKey(id);
          assert OurKey(key);
      }
    }
  }

  lemma {:induction false} RunKeysAreOurs(z: Settings, es: seq<Event>)
    requires OrdinaryRun(es)
    ensures forall key :: key in Run(z, es).redis ==> OurKey(key)
  {
    if es != [] {
      var before := es[..|es| - 1];
      RunKeysAreOurs(z, before);
      var s := Run(z, before);
      var t := RunRefines(z, before);
      forall id | ColonFree(id) && LoadSession(s.redis, id).Some?
        ensures LoadSession(s.redis, id).value.meta.sessionId == id
      {
        assert RowsAt(s.redis, t, id);
      }
      StepKeysAreOurs(z, s, es[|es| - 1]);
    }
  }

  /** Over every run: list_sessions finds exactly the sessions last saved and not deleted that pass the
      filters, except those whose id starts with "files". */
  lemma ListingOverRuns(z: Settings, es: seq<Event>, keys: seq<string>, pool: string, pod: string, m: Meta)
    requires OrdinaryRun(es) && forall key :: key in keys <==> key in Run(z, es).redis
    ensures var saved := ExpectedMemory(z, es).saved;
      m in FromKeys(Run(z, es).redis, keys, pool, pod) <==>
        && m.sessionId in saved && m == saved[m.sessionId] && !("files" <= m.sessionId)
        && (pool == "" || m.pool == pool) && (pod == "" || m.pod == pod)
  {
    var t := RunRefines(z, es);
    RunKeysAreOurs(z, es);
    ListsExactly(Run(z, es).redis, t, keys, pool, pod, m);
  }

  /** What a key contributes is found under its own key. */
  lemma {:induction false} ListedKeys(redis: map<string, Value>, t: Tables, keys: seq<string>, pool: string,
                                      pod: string, m: Meta)
    requires Rows(redis, t) && forall i :: 0 <= i < |keys| ==> OurKey(keys[i])
    requires m in FromKeys(redis, keys, pool, pod)
    ensures SessionKey(m.sessionId) in keys
  {
    FromKeysMembers(redis, keys, pool, pod, m);
    var i :| 0 <= i < |keys| && m in FromKey(redis, keys[i], pool, pod);
    FromOurKey(redis, t, keys[i], pool, pod, m);
  }

  ghost predicate DistinctSessions(ms: seq<Meta>) {
    forall i, j :: 0 <= i < j < |ms| ==> ms[i].sessionId != ms[j].sessionId
  }

  lemma AppendApart(before: seq<Meta>, last: seq<Meta>)
    requires DistinctSessions(before) && |last| <= 1
    requires forall m, l :: m in before && l in last ==> m.sessionId != l.sessionId
    ensures DistinctSessions(before + last)
  {
  }

  lemma {:induction false} ListedApart(redis: map<string, Value>, t: Tables, keys: seq<string>, pool: string,
                                       pod: string)
    requires Rows(redis, t) && forall i :: 0 <= i < |keys| ==> OurKey(keys[i])
    requires forall i, j :: 0 <= i < j < |keys| ==> keys[i] != keys[j]
    ensures DistinctSessions(FromKeys(redis, keys, pool, pod))
  {
    if keys == [] {
    } else {
      hide Rows, FromKey, OurKey, DistinctSessions;
      var n := |keys| - 1;
      ListedApart(redis, t, keys[..n], pool, pod);
      forall m, last | m in FromKeys(redis, keys[..n], pool, pod) && last in FromKey(redis, keys[n], pool, pod)
        ensures m.sessionId != last.sessionId
      {
        ListedKeys(redis, t, keys[..n], pool, pod, m);
        FromOurKey(redis, t, keys[n], pool, pod, last);
      }
      AppendApart(FromKeys(redis, keys[..n], pool, pod), FromKey(redis, keys[n], pool, pod));
    }
  }

  /** And each session is listed once, when the scan returns each key once. */
  lemma ListedOnce(z: Settings, es: seq<Event>, keys: seq<string>, pool: string, pod: string)
    requires OrdinaryRun(es) && forall key :: key in keys ==> key in Run(z, es).redis
    requires forall i, j :: 0 <= i < j < |keys| ==> keys[i] != keys[j]
    ensures DistinctSessions(FromKeys(Run(z, es).redis, keys, pool, pod))
  {
    var t := RunRefines(z, es);
    RunKeysAreOurs(z, es);
    ListedApart(Run(z, es).redis, t, keys, pool, pod);
  }
}
