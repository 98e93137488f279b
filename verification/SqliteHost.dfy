/**
 * The wrapper's own functions (crates/roc_sqlite/src/lib.rs:41-213), step by step on mutable state:
 * the scan and push of `get_connection`, `thread_local_prepare`, `prepare`, `Drop`, and `bind`.
 */
module SqliteHost {
  import opened Wrappers
  import opened Words
  import opened Sqlite

  const SQLITE_OK: int := 0
  const SQLITE_NOMEM: int := 7

  datatype Value = Bytes(bytes: seq<byte>) | Integer(i: int) | Null | Real(r: real) | Text(s: string)

  datatype Binding = Binding(name: string, value: Value)

  /** A prepared statement's parameters by index; an absent parameter is null. */
  type Parameters = map<nat, Value>

  /** What the SQL text says about parameter names: their index, or 0 if there is none. */
  type ParameterIndex = (string, string) -> nat

  /** The parameters of a handle; a handle that SQLite has yet to hand out has none set. */
  function ParametersOf(parameters: map<Handle, Parameters>, h: Handle): Parameters {
    if h in parameters then parameters[h] else map[]
  }

  function ParameterValue(ps: Parameters, i: nat): Value {
    if i in ps then ps[i] else Null
  }

  function SetParameter(ps: Parameters, i: nat, v: Value): Parameters {
    if v == Null then ps - {i} else ps[i := v]
  }

  /** All bindings of a list, one after the other, on cleared parameters. */
  function BindAll(index: ParameterIndex, query: string, list: seq<Binding>): Parameters {
    if list == [] then map[]
    else
      var n := |list| - 1;
      SetParameter(BindAll(index, query, list[..n]), index(query, list[n].name), list[n].value)
  }

  /** The last entry for a parameter wins (`k`), and a parameter without an entry (`-1`) is null. */
  lemma {:induction false} LastEntryWins(index: ParameterIndex, query: string, list: seq<Binding>, i: nat, k: int)
    requires -1 <= k < |list| && (k >= 0 ==> index(query, list[k].name) == i)
    requires forall j | k < j < |list| :: index(query, list[j].name) != i
    ensures ParameterValue(BindAll(index, query, list), i) == if k < 0 then Null else list[k].value
  {
    if k == |list| - 1 {
    } else {
      LastEntryWins(index, query, list[..|list| - 1], i, k);
    }
  }

  datatype BindResult =
    | Bound
    | UnknownParameter(name: string)
    | SqliteFailed(code: int)
    | Panic

  /** No handle but `h` has other parameters than before. */
  ghost predicate OthersKept(ps: map<Handle, Parameters>, ps': map<Handle, Parameters>, h: Handle) {
    forall h' | h' != h :: ParametersOf(ps', h') == ParametersOf(ps, h')
  }

  lemma OthersKeptTwice(
    ps: map<Handle, Parameters>, ps1: map<Handle, Parameters>, ps': map<Handle, Parameters>, h: Handle)
    requires OthersKept(ps, ps1, h) && OthersKept(ps1, ps', h)
    ensures OthersKept(ps, ps', h)
  {
  }

  /** SQLite's codes during a call: the call stops at the first failure, and reports just that one. */
  ghost predicate Reported(codes: seq<int>, codes': seq<int>, r: BindResult) {
    && codes <= codes'
    && (forall j | |codes| <= j < |codes'| - 1 :: codes'[j] == SQLITE_OK)
    && (if |codes| < |codes'| && codes'[|codes'| - 1] != SQLITE_OK then r == SqliteFailed(codes'[|codes'| - 1])
        else !r.SqliteFailed?)
  }

  /** What `bind` promises about its statement's parameters, for each way it can come back. */
  ghost predicate BindOutcome(
    index: ParameterIndex, query: string, list: seq<Binding>, before: Parameters, after: Parameters,
    r: BindResult, cleared: bool, k: nat)
  {
    && k <= |list|
    && (r.SqliteFailed? ==> r.code != SQLITE_OK)
    && (forall j | 0 <= j < k :: '\0' !in list[j].name && index(query, list[j].name) != 0)
    && (!cleared ==> after == before && r.SqliteFailed? && k == 0)
    && (cleared ==>
          match r
          case Bound => k == |list| && after == BindAll(index, query, list)
          case UnknownParameter(name) =>
            && k < |list| && list[k].name == name && '\0' !in name && index(query, name) == 0
            && after == BindAll(index, query, list[..k])
          case SqliteFailed(code) =>
            && k < |list| && '\0' !in list[k].name && index(query, list[k].name) != 0
            && var bound := BindAll(index, query, list[..k]);
               after in {bound, bound - {index(query, list[k].name)}}
          case Panic => k < |list| && '\0' in list[k].name && after == BindAll(index, query, list[..k]))
  }

  /**
   * A first prepare on a thread: SQLite opens if the path was not cached, prepares if there is a
   * connection, and both answers take effect exactly as the atomic accesses say.
   */
  ghost predicate Prepares(
    w: World, t: Thread, s: StatementId, opens: seq<Result<Connection, int>>, opens': seq<Result<Connection, int>>,
    prepares: seq<Result<Handle, int>>, prepares': seq<Result<Handle, int>>, w': World, r: Result<Handle, int>)
    requires s in w.statements
  {
    var path := w.statements[s].dbPath;
    var found := if Cached(w, t, path).Some? then Ok(Cached(w, t, path).value)
                 else if opens' != [] then opens'[|opens'| - 1] else Err(SQLITE_NOMEM);
    && opens' == (if Cached(w, t, path).Some? then opens else opens + [found])
    && (if found.Err? then prepares' == prepares && w' == w && r == Err(found.error)
        else prepares' == prepares + [r] && (w', r) == PrepareLocal(Connect(w, t, path, found).0, t, s, found.value, r))
  }

  /** The newest answer of SQLite is the result, and there is at most one more of each kind. */
  lemma PreparesAnswers(
    w: World, t: Thread, s: StatementId, opens: seq<Result<Connection, int>>, opens': seq<Result<Connection, int>>,
    prepares: seq<Result<Handle, int>>, prepares': seq<Result<Handle, int>>, w': World, r: Result<Handle, int>)
    requires s in w.statements && Prepares(w, t, s, opens, opens', prepares, prepares', w', r)
    ensures r.Ok? ==> prepares' == prepares + [r]
    ensures r.Err? ==> prepares' == prepares + [r] || (opens' == opens + [Err(r.error)] && prepares' == prepares)
  {
  }

  /**
   * The prepared handles after a whole `prepare`: one more if SQLite handed one out, on the thread's
   * connection, and finalized already unless the statement was `kept`.
   */
  ghost predicate PreparedOnly(
    w: World, w': World, t: Thread, path: Path, query: string, s: StatementId, handle: Result<Handle, int>, kept: bool)
  {
    match handle
    case Err(_) => w'.prepared == w.prepared
    case Ok(h) =>
      && Cached(w', t, path).Some?
      && w'.prepared == w.prepared[h := Prepared(s, t, Cached(w', t, path).value, query, if kept then 0 else 1)]
  }

  /** The cache after a whole `prepare`: SQLite is asked once if need be, and only its success is kept. */
  ghost predicate CacheGrown(
    w: World, w': World, t: Thread, path: Path,
    opens: seq<Result<Connection, int>>, opens': seq<Result<Connection, int>>)
  {
    && (if Cached(w, t, path).Some? then opens' == opens else |opens'| == |opens| + 1 && opens <= opens')
    && forall u, p :: Cached(w', u, p)
                   == if opens' != opens && u == t && p == path && opens'[|opens|].Ok? then Some(opens'[|opens|].value)
                      else Cached(w, u, p)
  }

  lemma CacheGrownFrame(
    w: World, w': World, v: World, v': World, t: Thread, path: Path,
    opens: seq<Result<Connection, int>>, opens': seq<Result<Connection, int>>)
    requires CacheGrown(w, w', t, path, opens, opens')
    requires v.connections == w.connections && v'.connections == w'.connections
    ensures CacheGrown(v, v', t, path, opens, opens')
  {
    assert forall u, p :: Cached(v, u, p) == Cached(w, u, p) && Cached(v', u, p) == Cached(w', u, p);
  }

  lemma ConnectGrows(w: World, t: Thread, path: Path, found: Result<Connection, int>,
                     opens: seq<Result<Connection, int>>, opens': seq<Result<Connection, int>>)
    requires opens' == if Cached(w, t, path).Some? then opens else opens + [found]
    requires Cached(w, t, path).Some? ==> found == Ok(Cached(w, t, path).value)
    ensures CacheGrown(w, Connect(w, t, path, found).0, t, path, opens, opens')
    ensures found.Ok? ==> Cached(Connect(w, t, path, found).0, t, path) == Some(found.value)
    ensures found.Err? ==> Connect(w, t, path, found).0 == w
    ensures Connect(w, t, path, found).0.statements == w.statements
    ensures Connect(w, t, path, found).0.prepared == w.prepared
  {
    hide Lookup;
    forall u, p
      ensures Cached(Connect(w, t, path, found).0, u, p)
           == if Cached(w, u, p).None? && u == t && p == path && found.Ok? then Some(found.value) else Cached(w, u, p)
    {
      ConnectKeepsCache(w, t, path, found, u, p);
    }
  }

  lemma PreparesFrame(
    w: World, path: Path, query: string, t: Thread, s: StatementId,
    opens: seq<Result<Connection, int>>, opens': seq<Result<Connection, int>>,
    prepares: seq<Result<Handle, int>>, prepares': seq<Result<Handle, int>>, w': World, r: Result<Handle, int>)
    requires s !in w.statements
    requires var w1 := w.(statements := w.statements[s := Statement(path, query, map[])]);
             Prepares(w1, t, s, opens, opens', prepares, prepares', w', r)
    ensures s in w'.statements && w'.statements - {s} == w.statements
    ensures w'.statements[s].local == if r.Ok? then map[t := r.value] else map[]
    ensures PreparedOnly(w, w', t, path, query, s, r, true) && CacheGrown(w, w', t, path, opens, opens')
  {
    hide Connect, CacheGrown, Cached;
    var w1 := w.(statements := w.statements[s := Statement(path, query, map[])]);
    var found := if Cached(w1, t, path).Some? then Ok(Cached(w1, t, path).value)
                 else if opens' != [] then opens'[|opens'| - 1] else Err(SQLITE_NOMEM);
    var w2 := Connect(w1, t, path, found).0;
    ConnectGrows(w1, t, path, found, opens, opens');
    CacheGrownFrame(w1, w2, w, w', t, path, opens, opens');
    SameConnections(w2, w', t, path);
  }

  lemma SameConnections(w: World, w': World, t: Thread, path: Path)
    requires w'.connections == w.connections
    ensures Cached(w', t, path) == Cached(w, t, path)
  {
  }

  lemma DropFrame(
    w: World, w': World, t: Thread, path: Path, query: string, s: StatementId, handle: Result<Handle, int>,
    opens: seq<Result<Connection, int>>, opens': seq<Result<Connection, int>>)
    requires s in w'.statements && w'.statements[s].local == if handle.Ok? then map[t := handle.value] else map[]
    requires PreparedOnly(w, w', t, path, query, s, handle, true) && CacheGrown(w, w', t, path, opens, opens')
    requires handle.Ok? ==> handle.value !in w.prepared
    ensures PreparedOnly(w, Drop(w', s), t, path, query, s, handle, false)
    ensures CacheGrown(w, Drop(w', s), t, path, opens, opens')
  {
    hide CacheGrown, Lookup;
    CacheGrownFrame(w, w', w, Drop(w', s), t, path, opens, opens');
    if handle.Ok? {
      assert t in w'.statements[s].local && w'.statements[s].local[t] == handle.value;
      assert w'.statements[s].local.Values == {handle.value};
    } else {
      assert w'.statements[s].local.Values == {};
    }
  }

  lemma PreparesUnopened(
    w: World, t: Thread, s: StatementId, opens: seq<Result<Connection, int>>, opens': seq<Result<Connection, int>>,
    prepares: seq<Result<Handle, int>>, found: Result<Connection, int>)
    requires s in w.statements && found.Err?
    requires Cached(w, t, w.statements[s].dbPath).None? && opens' == opens + [found]
    ensures Prepares(w, t, s, opens, opens', prepares, prepares, w, Err(found.error))
  {
  }

  lemma PreparesAsked(
    w: World, t: Thread, s: StatementId, opens: seq<Result<Connection, int>>, opens': seq<Result<Connection, int>>,
    prepares: seq<Result<Handle, int>>, found: Result<Connection, int>, w': World, r: Result<Handle, int>)
    requires s in w.statements && found.Ok?
    requires var path := w.statements[s].dbPath;
             && (if Cached(w, t, path).Some? then opens' == opens && found == Ok(Cached(w, t, path).value)
                 else opens' == opens + [found])
             && s in Connect(w, t, path, found).0.statements
             && (w', r) == PrepareLocal(Connect(w, t, path, found).0, t, s, found.value, r)
    ensures Prepares(w, t, s, opens, opens', prepares, prepares + [r], w', r)
  {
    hide Cached, Connect, PrepareLocal;
  }

  lemma CachedConnect(w: World, t: Thread, path: Path, found: Result<Connection, int>)
    ensures match Cached(w, t, path)
            case Some(connection) => Connect(w, t, path, found) == (w, Ok(connection))
            case None => found.Err? ==> Connect(w, t, path, found) == (w, Err(found.error))
  {
  }

  lemma LookupAt(entries: seq<Entry>, path: Path, i: nat)
    requires i < |entries| && entries[i].path == path
    requires forall j | 0 <= j < i :: entries[j].path != path
    ensures Lookup(entries, path) == Some(entries[i].connection)
  {
    if i == 0 {
    } else {
      LookupAt(entries[1..], path, i - 1);
    }
  }

  class Host {
    const index: ParameterIndex
    var connections: map<Thread, seq<Entry>>
    var statements: map<StatementId, Statement>

    // What SQLite has handed out, and the parameters it keeps for each handle.
    var opens: map<Connection, (Thread, Path)>
    var prepared: map<Handle, Prepared>
    var parameters: map<Handle, Parameters>

    // What SQLite has answered so far, newest last.
    ghost var openAnswers: seq<Result<Connection, int>>
    ghost var prepareAnswers: seq<Result<Handle, int>>
    ghost var bindCodes: seq<int>

    ghost function W(): World
      reads this
    {
      World(connections, statements, opens, prepared)
    }

    ghost predicate Valid()
      reads this
    {
      WorldInv(W()) && prepared.Keys == parameters.Keys
    }

    constructor (index: ParameterIndex)
      ensures Valid() && W() == EMPTY_WORLD && this.index == index
    {
      this.index := index;
      connections, statements, parameters := map[], map[], map[];
      opens, prepared := map[], map[];
      openAnswers, prepareAnswers, bindCodes := [], [], [];
    }

    // -------------------------------------------------------------------------------------------
    // SQLite
    // -------------------------------------------------------------------------------------------

    /** `sqlite3_open_v2`: a connection it has not handed out before, or a code other than OK. */
    method OpenV2(t: Thread, path: Path) returns (err: int, connection: Connection)
      modifies this`opens, this`openAnswers
      ensures openAnswers == old(openAnswers) + [if err == SQLITE_OK then Ok(connection) else Err(err)]
      ensures err == SQLITE_OK ==> connection !in old(opens) && opens == old(opens)[connection := (t, path)]
      ensures err != SQLITE_OK ==> opens == old(opens)
    {
      err, connection := *, *;
      if connection in opens {
        err := 1;
      }
      if err == SQLITE_OK {
        opens := opens[connection := (t, path)];
      }
      openAnswers := openAnswers + [if err == SQLITE_OK then Ok(connection) else Err(err)];
    }

    /** `sqlite3_prepare_v2`: a handle it has not handed out before, or a code other than OK. */
    method PrepareV2(t: Thread, s: StatementId, connection: Connection, query: string) returns (err: int, h: Handle)
      modifies this`prepared, this`parameters, this`prepareAnswers
      ensures prepareAnswers == old(prepareAnswers) + [if err == SQLITE_OK then Ok(h) else Err(err)]
      ensures err == SQLITE_OK ==>
                && h !in old(prepared)
                && prepared == old(prepared)[h := Prepared(s, t, connection, query, 0)]
                && parameters == old(parameters)[h := map[]]
      ensures err != SQLITE_OK ==> prepared == old(prepared) && parameters == old(parameters)
    {
      err, h := *, *;
      if h in prepared {
        err := 1;
      }
      if err == SQLITE_OK {
        prepared := prepared[h := Prepared(s, t, connection, query, 0)];
        parameters := parameters[h := map[]];
      }
      prepareAnswers := prepareAnswers + [if err == SQLITE_OK then Ok(h) else Err(err)];
    }

    /** `sqlite3_finalize` on a handle that SQLite handed out. */
    method Finalize(h: Handle)
      requires h in prepared
      modifies this`prepared
      ensures prepared == old(prepared)[h := old(prepared)[h].(finalized := old(prepared)[h].finalized + 1)]
    {
      prepared := prepared[h := prepared[h].(finalized := prepared[h].finalized + 1)];
    }

    /** `sqlite3_clear_bindings`. */
    method ClearBindings(h: Handle) returns (err: int)
      requires h in parameters
      modifies this`parameters, this`bindCodes
      ensures bindCodes == old(bindCodes) + [err]
      ensures parameters == old(parameters)[h := if err == SQLITE_OK then map[] else old(parameters)[h]]
      ensures OthersKept(old(parameters), parameters, h)
    {
      err := *;
      bindCodes := bindCodes + [err];
      if err == SQLITE_OK {
        parameters := parameters[h := map[]];
      }
    }

    /** `sqlite3_bind_*`: on a failure SQLite may already have reset the parameter to null. */
    method BindValue(h: Handle, i: nat, v: Value) returns (err: int)
      requires h in parameters
      modifies this`parameters, this`bindCodes
      ensures bindCodes == old(bindCodes) + [err]
      ensures parameters.Keys == old(parameters).Keys
      ensures OthersKept(old(parameters), parameters, h)
      ensures err == SQLITE_OK ==> parameters[h] == SetParameter(old(parameters)[h], i, v)
      ensures err != SQLITE_OK ==> parameters[h] in {old(parameters)[h], old(parameters)[h] - {i}}
    {
      err := *;
      bindCodes := bindCodes + [err];
      var reset: bool := *;
      if err == SQLITE_OK {
        parameters := parameters[h := SetParameter(parameters[h], i, v)];
      } else if reset {
        parameters := parameters[h := parameters[h] - {i}];
      }
    }

    // -------------------------------------------------------------------------------------------
    // The wrapper
    // -------------------------------------------------------------------------------------------

    /** `get_connection`: SQLite is asked exactly when the scan finds nothing, and its answer is final. */
    method GetConnection(t: Thread, path: Path) returns (r: Result<Connection, int>)
      requires Valid()
      modifies this`connections, this`opens, this`openAnswers
      ensures Valid()
      ensures match Cached(old(W()), t, path)
              case Some(connection) => W() == old(W()) && openAnswers == old(openAnswers) && r == Ok(connection)
              case None =>
                && openAnswers == old(openAnswers) + [r]
                && (r.Ok? ==> r.value !in old(opens))
                && (W(), r) == Connect(old(W()), t, path, r)
      ensures r.Ok? ==> Cached(W(), t, path) == Some(r.value)
    {
      hide WorldInv;
      var entries := if t in connections then connections[t] else [];
      var i := 0;
      while i < |entries|
        invariant i <= |entries|
        invariant forall j | 0 <= j < i :: entries[j].path != path
      {
        if entries[i].path == path {
          LookupAt(entries, path, i);
          return Ok(entries[i].connection);
        }
        i := i + 1;
      }
      var err, connection := OpenV2(t, path);
      r := if err != SQLITE_OK then Err(err) else Ok(connection);
      ConnectKeepsInv(old(W()), t, path, r);
      if err == SQLITE_OK {
        connections := connections[t := entries + [Entry(path, connection)]];
      }
    }

    /**
     * `thread_local_prepare`: the two halves of the transition system in one go.  A thread that
     * already has its handle gets it back without SQLite being asked for anything; otherwise SQLite
     * prepares at most once, and the handle it hands out fills the slot.
     */
    method ThreadLocalPrepare(t: Thread, s: StatementId) returns (r: Result<Handle, int>)
      requires Valid() && s in statements
      modifies this`connections, this`statements, this`opens, this`prepared, this`parameters
      modifies this`openAnswers, this`prepareAnswers
      ensures Valid()
      ensures t in old(statements)[s].local ==>
                && W() == old(W()) && r == Ok(old(statements)[s].local[t])
                && openAnswers == old(openAnswers) && prepareAnswers == old(prepareAnswers)
      ensures t !in old(statements)[s].local ==>
                Prepares(old(W()), t, s, old(openAnswers), openAnswers, old(prepareAnswers), prepareAnswers, W(), r)
      ensures r.Ok? ==> t in statements[s].local && statements[s].local[t] == r.value && r.value in parameters
      ensures r.Ok? ==> parameters[r.value] == ParametersOf(old(parameters), r.value)
      ensures r.Err? ==> t !in statements[s].local && parameters == old(parameters)
      ensures r.Ok? && t !in old(statements)[s].local ==> r.value !in old(prepared)
      ensures s in statements
      ensures statements[s].query == old(statements)[s].query && statements[s].dbPath == old(statements)[s].dbPath
      ensures forall h :: OthersKept(old(parameters), parameters, h)
    {
      hide WorldInv, Connect, Cached, Prepares;
      var statement := statements[s];
      ghost var w := W();
      if t in statement.local {
        LaterCallsHitTheCache(w, s, t, Err(SQLITE_NOMEM), Err(SQLITE_NOMEM));
        SlotOnOwnConnection(w, s, t);
      }
      var found := GetConnection(t, statement.dbPath);
      CachedConnect(w, t, statement.dbPath, found);
      if found.Err? {
        PreparesUnopened(w, t, s, old(openAnswers), openAnswers, prepareAnswers, found);
        return Err(found.error);
      }
      var connection := found.value;
      if t in statement.local {
        return Ok(statement.local[t]);
      }
      ghost var w1 := W();
      var err, h := PrepareV2(t, s, connection, statement.query);
      r := if err != SQLITE_OK then Err(err) else Ok(h);
      PrepareKeepsInv(w1, t, s, connection, r);
      if err == SQLITE_OK {
        statements := statements[s := statement.(local := statement.local[t := h])];
      }
      PreparesAsked(w, t, s, old(openAnswers), openAnswers, old(prepareAnswers), found, W(), r);
    }

    /** `Drop for SqliteStatement`: the loop over the thread-local slots finalizes each handle. */
    method DropStatement(s: StatementId)
      requires Valid() && s in statements
      modifies this`statements, this`prepared
      ensures Valid() && W() == Drop(old(W()), s)
      ensures statements == old(statements) - {s}
    {
      hide WorldInv, CacheInv, HandleInv, OncePerThread, Cached, FinalizedIn;
      ghost var w := W();
      assert prepared == FinalizedIn(prepared, {}) by { FinalizedNone(prepared); }
      assert HandleInv(w) by { WorldHandles(w); }
      var local := statements[s].local;
      var todo := local.Keys;
      ghost var done: set<Handle> := {};
      while todo != {}
        invariant todo <= local.Keys
        invariant done == set t | t in local.Keys - todo :: local[t]
        invariant prepared == FinalizedIn(w.prepared, done) && prepared.Keys == w.prepared.Keys
        modifies this`prepared
        decreases todo
      {
        var t :| t in todo;
        assert local[t] !in done && local[t] in w.prepared by { SlotsDiffer(w, s, t, local.Keys - todo); }
        FinalizedNext(w.prepared, done, local[t]);
        Finalize(local[t]);
        todo := todo - {t};
        done := done + {local[t]};
      }
      assert done == local.Values;
      statements := statements - {s};
      DropKeepsInv(w, s);
    }

    /**
     * `prepare`: the statement's number is fresh; `boxed` says whether the heap had room for it.  After
     * a failure the statement is gone, and by `FinalizedOnce` all its handles are finalized.
     */
    method PrepareStatement(t: Thread, path: Path, query: string, s: StatementId, boxed: bool)
      returns (r: Result<StatementId, int>, ghost handle: Result<Handle, int>)
      requires Valid() && s !in statements
      requires forall h | h in prepared :: prepared[h].statement != s
      modifies this`connections, this`statements, this`opens, this`prepared, this`parameters
      modifies this`openAnswers, this`prepareAnswers
      ensures Valid()
      ensures r.Ok? ==> r.value == s && s in statements && t in statements[s].local
                        && statements[s].dbPath == path && statements[s].query == query
      ensures r.Err? ==> s !in statements
      ensures r == if handle.Err? then Err(handle.error) else if boxed then Ok(s) else Err(7)
      ensures statements - {s} == old(statements)
      ensures forall h :: OthersKept(old(parameters), parameters, h)
      ensures PreparedOnly(old(W()), W(), t, path, query, s, handle, r.Ok?)
      ensures CacheGrown(old(W()), W(), t, path, old(openAnswers), openAnswers)
      ensures handle.Ok? ==> handle.value !in old(prepared) && prepareAnswers == old(prepareAnswers) + [handle]
      ensures handle.Err? ==>
                || (prepareAnswers == old(prepareAnswers) + [handle])
                || (openAnswers == old(openAnswers) + [Err(handle.error)] && prepareAnswers == old(prepareAnswers))
    {
      hide WorldInv, Cached, Connect, PrepareLocal, Drop, ParametersOf, OthersKept, Prepares, PreparedOnly, CacheGrown;
      ghost var w := W();
      statements := statements[s := Statement(path, query, map[])];
      NewStatement(w, s, path, query);
      ghost var w1 := W();
      var local := ThreadLocalPrepare(t, s);
      PreparesAnswers(w1, t, s, old(openAnswers), openAnswers, old(prepareAnswers), prepareAnswers, W(), local);
      PreparesFrame(w, path, query, t, s, old(openAnswers), openAnswers, old(prepareAnswers), prepareAnswers, W(),
                    local);
      handle := local;
      ghost var w2 := W();
      if local.Err? {
        DropStatement(s);
        DropFrame(w, w2, t, path, query, s, handle, old(openAnswers), openAnswers);
        r := Err(local.error);
      } else if !boxed {
        DropStatement(s);
        DropFrame(w, w2, t, path, query, s, handle, old(openAnswers), openAnswers);
        r := Err(SQLITE_NOMEM);
      } else {
        r := Ok(s);
      }
    }

    /**
     * `roc_err_from_sqlite_errcode` looks the connection up again for the message.  Behind a handle
     * that the thread holds, that is always a cache hit and never opens anything.
     */
    method ErrorFromCode(t: Thread, s: StatementId, code: int) returns (r: BindResult, fromConnection: bool)
      requires Valid() && s in statements && t in statements[s].local
      modifies this`connections, this`opens, this`openAnswers
      ensures Valid() && W() == old(W()) && openAnswers == old(openAnswers)
      ensures r == SqliteFailed(code) && fromConnection
    {
      hide WorldInv, Connect, Cached;
      LaterCallsHitTheCache(W(), s, t, Err(code), Err(code));
      SlotOnOwnConnection(W(), s, t);
      var connection := GetConnection(t, statements[s].dbPath);
      fromConnection := connection.Ok?;
      r := SqliteFailed(code);
    }

    /**
     * `bind`: after success the parameters are exactly the list's, the last entry for each; after a failure
     * behind the clearing they are exactly those of the entries before the failing one, except that
     * SQLite may have reset the failing parameter itself.  Nothing bound before survives.
     */
    method Bind(t: Thread, s: StatementId, list: seq<Binding>)
      returns (r: BindResult, ghost cleared: bool, ghost k: nat, ghost local: Result<Handle, int>)
      requires Valid() && s in statements
      modifies this`connections, this`statements, this`opens, this`prepared, this`parameters
      modifies this`openAnswers, this`prepareAnswers, this`bindCodes
      ensures Valid() && s in statements
      ensures Reported(old(bindCodes), bindCodes, r)
      ensures t in old(statements)[s].local ==>
                && W() == old(W()) && local == Ok(old(statements)[s].local[t])
                && openAnswers == old(openAnswers) && prepareAnswers == old(prepareAnswers)
      ensures t !in old(statements)[s].local ==>
                Prepares(old(W()), t, s, old(openAnswers), openAnswers, old(prepareAnswers), prepareAnswers, W(), local)
      ensures local.Ok? ==> t in statements[s].local && statements[s].local[t] == local.value
      ensures local.Err? ==> t !in statements[s].local && r == Panic && !cleared && parameters == old(parameters)
      ensures local.Err? ==>
                || (prepareAnswers == old(prepareAnswers) + [local])
                || (openAnswers == old(openAnswers) + [Err(local.error)] && prepareAnswers == old(prepareAnswers))
      ensures local.Ok? ==>
                && BindOutcome(index, statements[s].query, list, ParametersOf(old(parameters), local.value),
                               ParametersOf(parameters, local.value), r, cleared, k)
                && OthersKept(old(parameters), parameters, local.value)
    {
      hide WorldInv, Connect, Cached, BindAll, BindOutcome, Prepares, OthersKept;
      ghost var before := parameters;
      cleared, k := false, 0;
      var prepared := ThreadLocalPrepare(t, s);
      local := prepared;
      if prepared.Err? {
        PreparesAnswers(old(W()), t, s, old(openAnswers), openAnswers, old(prepareAnswers), prepareAnswers, W(), local);
        return Panic, cleared, k, local;
      }
      hide Reported;
      var h, query := prepared.value, statements[s].query;
      ghost var ps1 := parameters;
      var err := ClearBindings(h);
      ghost var ps2 := parameters;
      OthersKeptTwice(before, ps1, ps2, h);
      if err == SQLITE_OK {
        cleared := true;
        r, k := BindEach(h, query, list, ParametersOf(before, h));
        OthersKeptTwice(before, ps2, parameters, h);
      } else {
        r := SqliteFailed(err);
        NotCleared(index, query, list, ParametersOf(before, h), err);
      }
      ReportedThrough(old(bindCodes), err, bindCodes, r);
      if r.SqliteFailed? {
        var fromConnection;
        r, fromConnection := ErrorFromCode(t, s, r.code);
      }
    }

    /** The loop of `bind` on the cleared handle. */
    method BindEach(h: Handle, query: string, list: seq<Binding>, ghost before: Parameters)
      returns (r: BindResult, ghost k: nat)
      requires h in parameters && parameters[h] == map[]
      modifies this`parameters, this`bindCodes
      ensures Reported(old(bindCodes), bindCodes, r)
      ensures parameters.Keys == old(parameters).Keys
      ensures BindOutcome(index, query, list, before, parameters[h], r, true, k)
      ensures OthersKept(old(parameters), parameters, h)
    {
      hide BindAll;
      k := 0;
      EmptyBindings(index, query, list);
      var i := 0;
      while i < |list|
        invariant i <= |list| && k == i
        invariant old(bindCodes) <= bindCodes
        invariant forall j | |old(bindCodes)| <= j < |bindCodes| :: bindCodes[j] == SQLITE_OK
        invariant parameters.Keys == old(parameters).Keys
        invariant parameters[h] == BindAll(index, query, list[..i])
        invariant forall j | 0 <= j < i :: '\0' !in list[j].name && index(query, list[j].name) != 0
        invariant OthersKept(old(parameters), parameters, h)
      {
        var name := list[i].name;
        if '\0' in name {
          return Panic, k;
        }
        var parameter := index(query, name);
        if parameter == 0 {
          return UnknownParameter(name), k;
        }
        var err := BindValue(h, parameter, list[i].value);
        if err != SQLITE_OK {
          return SqliteFailed(err), k;
        }
        BindOneMore(index, query, list, i);
        i, k := i + 1, i + 1;
      }
      assert list[..i] == list;
      r := Bound;
    }
  }

  lemma ReportedThrough(codes: seq<int>, code: int, codes': seq<int>, r: BindResult)
    requires if code == SQLITE_OK then Reported(codes + [code], codes', r)
             else codes' == codes + [code] && r == SqliteFailed(code)
    ensures Reported(codes, codes', r)
  {
    assert codes <= codes';
  }

  lemma NotCleared(index: ParameterIndex, query: string, list: seq<Binding>, ps: Parameters, code: int)
    requires code != SQLITE_OK
    ensures BindOutcome(index, query, list, ps, ps, SqliteFailed(code), false, 0)
  {
  }

  lemma EmptyBindings(index: ParameterIndex, query: string, list: seq<Binding>)
    ensures BindAll(index, query, list[..0]) == map[]
  {
  }

  lemma BindOneMore(index: ParameterIndex, query: string, list: seq<Binding>, i: nat)
    requires i < |list|
    ensures BindAll(index, query, list[..i + 1])
         == SetParameter(BindAll(index, query, list[..i]), index(query, list[i].name), list[i].value)
  {
    assert list[..i + 1][..i] == list[..i];
  }

  lemma FinalizedNone(prepared: map<Handle, Prepared>)
    ensures FinalizedIn(prepared, {}) == prepared
  {
  }

  /** One more finalize. */
  lemma FinalizedNext(prepared: map<Handle, Prepared>, done: set<Handle>, h: Handle)
    requires h in prepared && h !in done
    ensures var before := FinalizedIn(prepared, done);
            && h in before
            && FinalizedIn(prepared, done + {h}) == before[h := before[h].(finalized := before[h].finalized + 1)]
  {
  }

  lemma WorldHandles(w: World)
    requires WorldInv(w)
    ensures HandleInv(w)
  {
  }

  /** Different threads' slots of a statement hold different handles. */
  lemma SlotsDiffer(w: World, s: StatementId, t: Thread, others: set<Thread>)
    requires HandleInv(w) && s in w.statements && t in w.statements[s].local
    requires t !in others && others <= w.statements[s].local.Keys
    ensures w.statements[s].local[t] in w.prepared
    ensures forall u | u in others :: w.statements[s].local[u] != w.statements[s].local[t]
  {
    assert SlotInv(w, s, t);
    forall u | u in others
      ensures w.statements[s].local[u] != w.statements[s].local[t]
    {
      assert SlotInv(w, s, u);
    }
  }

  lemma NewStatement(w: World, s: StatementId, path: Path, query: string)
    requires WorldInv(w) && s !in w.statements
    requires forall h | h in w.prepared :: w.prepared[h].statement != s
    ensures WorldInv(w.(statements := w.statements[s := Statement(path, query, map[])]))
  {
    var w' := w.(statements := w.statements[s := Statement(path, query, map[])]);
    CacheInvFrame(w, w');
    forall s', u | s' in w'.statements && u in w'.statements[s'].local
      ensures SlotInv(w', s', u)
    {
      assert SlotInv(w, s', u);
    }
  }
}
