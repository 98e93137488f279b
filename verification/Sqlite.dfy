/**
 * The per-thread SQLite connection cache and the life cycle of prepared statements
 * (crates/roc_sqlite/src/lib.rs:35-140), as a transition system over interleaved threads.
 *
 * SQLite is an environment: an open or a prepare either hands out a handle that it has not handed
 * out before, or fails with a code.  Each transition is one thread's next access to SQLite or to
 * its thread-local data, so a run is any interleaving of the calls of any number of threads.
 */
module Sqlite {
  import opened Wrappers

  type Thread = nat
  type Path = string
  type Connection = nat
  type Handle = nat
  type StatementId = nat

  /** One element of the thread-local connection vector. */
  datatype Entry = Entry(path: Path, connection: Connection)

  /** `SqliteStatement`: its own handle per thread that has used it. */
  datatype Statement = Statement(dbPath: Path, query: string, local: map<Thread, Handle>)

  /** What SQLite knows of a handle, and how often it has been finalized. */
  datatype Prepared = Prepared(
    statement: StatementId, thread: Thread, connection: Connection, query: string, finalized: nat)

  datatype World = World(
    connections: map<Thread, seq<Entry>>,
    statements: map<StatementId, Statement>,
    opens: map<Connection, (Thread, Path)>,
    prepared: map<Handle, Prepared>)

  const EMPTY_WORLD: World := World(map[], map[], map[], map[])

  /** The thread's connection vector, empty until first touched. */
  function ConnectionsOf(w: World, t: Thread): seq<Entry> {
    if t in w.connections then w.connections[t] else []
  }

  /** The scan of `get_connection`: the first entry with this path. */
  function Lookup(entries: seq<Entry>, path: Path): (r: Option<Connection>)
    ensures r.None? <==> forall i | 0 <= i < |entries| :: entries[i].path != path
    ensures r.Some? ==> Entry(path, r.value) in entries
  {
    if entries == [] then None
    else if entries[0].path == path then Some(entries[0].connection)
    else Lookup(entries[1..], path)
  }

  function Cached(w: World, t: Thread, path: Path): Option<Connection> {
    Lookup(ConnectionsOf(w, t), path)
  }

  /** `get_connection`; `open` is what SQLite answers if it has to be asked. */
  function Connect(w: World, t: Thread, path: Path, open: Result<Connection, int>): (World, Result<Connection, int>) {
    match Cached(w, t, path)
    case Some(connection) => (w, Ok(connection))
    case None =>
      match open
      case Err(code) => (w, Err(code))
      case Ok(connection) =>
        (w.(connections := w.connections[t := ConnectionsOf(w, t) + [Entry(path, connection)]],
            opens := w.opens[connection := (t, path)]),
         Ok(connection))
  }

  /** The second half of `thread_local_prepare`: `get_or_try` on the statement's own slot. */
  function PrepareLocal(w: World, t: Thread, s: StatementId, connection: Connection, prepare: Result<Handle, int>)
    : (World, Result<Handle, int>)
    requires s in w.statements
  {
    var statement := w.statements[s];
    if t in statement.local then (w, Ok(statement.local[t]))
    else
      match prepare
      case Err(code) => (w, Err(code))
      case Ok(h) =>
        (w.(statements := w.statements[s := statement.(local := statement.local[t := h])],
            prepared := w.prepared[h := Prepared(s, t, connection, statement.query, 0)]),
         Ok(h))
  }

  /** `prepared` after one more finalize of each handle in `hs`. */
  function FinalizedIn(prepared: map<Handle, Prepared>, hs: set<Handle>): map<Handle, Prepared> {
    map h | h in prepared :: if h in hs then prepared[h].(finalized := prepared[h].finalized + 1) else prepared[h]
  }

  /** `Drop for SqliteStatement`: finalizes every handle the statement holds. */
  function Drop(w: World, s: StatementId): World
    requires s in w.statements
  {
    w.(statements := w.statements - {s}, prepared := FinalizedIn(w.prepared, w.statements[s].local.Values))
  }

  // ---------------------------------------------------------------------------------------------
  // The invariant of the shared world
  // ---------------------------------------------------------------------------------------------

  /** A thread's vector has one entry per path, each opened by that thread for that path. */
  ghost predicate VectorInv(w: World, t: Thread) {
    var entries := ConnectionsOf(w, t);
    && (forall e | e in entries :: e.connection in w.opens && w.opens[e.connection] == (t, e.path))
    && (forall i, j | 0 <= i < j < |entries| :: entries[i].path != entries[j].path)
  }

  /** The slot of thread `t` holds a live handle, prepared by `t` for this statement on `t`'s connection. */
  ghost predicate SlotInv(w: World, s: StatementId, t: Thread)
    requires s in w.statements && t in w.statements[s].local
  {
    var statement := w.statements[s];
    var h := statement.local[t];
    && h in w.prepared
    && w.prepared[h].statement == s && w.prepared[h].thread == t
    && w.prepared[h].query == statement.query
    && w.prepared[h].finalized == 0
    && Cached(w, t, statement.dbPath) == Some(w.prepared[h].connection)
  }

  ghost predicate CacheInv(w: World) {
    && (forall t :: VectorInv(w, t))
    && (forall c | c in w.opens :: Entry(w.opens[c].1, c) in ConnectionsOf(w, w.opens[c].0))
  }

  ghost predicate HandleInv(w: World) {
    && (forall s, t | s in w.statements && t in w.statements[s].local :: SlotInv(w, s, t))
    && (forall h | h in w.prepared ::
          var p := w.prepared[h];
          if p.statement in w.statements
          then p.thread in w.statements[p.statement].local && w.statements[p.statement].local[p.thread] == h
          else p.finalized == 1)
  }

  /** No statement is ever prepared twice for the same thread. */
  ghost predicate OncePerThread(w: World) {
    forall h1, h2 | h1 in w.prepared && h2 in w.prepared && h1 != h2 ::
      w.prepared[h1].statement != w.prepared[h2].statement || w.prepared[h1].thread != w.prepared[h2].thread
  }

  ghost predicate WorldInv(w: World) {
    CacheInv(w) && HandleInv(w) && OncePerThread(w)
  }

  lemma LookupAppend(entries: seq<Entry>, e: Entry, path: Path)
    ensures Lookup(entries + [e], path)
         == if Lookup(entries, path).Some? then Lookup(entries, path)
            else if e.path == path then Some(e.connection) else None
  {
    if entries != [] {
      assert (entries + [e])[1..] == entries[1..] + [e];
      LookupAppend(entries[1..], e, path);
    } else {
      assert entries + [e] == [e];
    }
  }

  lemma LookupMember(entries: seq<Entry>, e: Entry)
    requires e in entries
    requires forall i, j | 0 <= i < j < |entries| :: entries[i].path != entries[j].path
    ensures Lookup(entries, e.path) == Some(e.connection)
  {
    if entries[0].path == e.path {
    } else {
      assert e in entries[1..];
      LookupMember(entries[1..], e);
    }
  }

  /** Connecting keeps every cached connection, for every thread and path. */
  lemma ConnectKeepsCache(w: World, t: Thread, path: Path, open: Result<Connection, int>, u: Thread, p: Path)
    ensures var w' := Connect(w, t, path, open).0;
            Cached(w', u, p) == if Cached(w, u, p).None? && u == t && p == path && open.Ok? then Some(open.value)
                                else Cached(w, u, p)
  {
    if open.Ok? {
      LookupAppend(ConnectionsOf(w, t), Entry(path, open.value), p);
    }
  }

  lemma ConnectKeepsInv(w: World, t: Thread, path: Path, open: Result<Connection, int>)
    requires WorldInv(w)
    requires open.Ok? ==> open.value !in w.opens
    ensures var (w', r) := Connect(w, t, path, open);
            && WorldInv(w')
            && w'.statements == w.statements && w'.prepared == w.prepared
            && (r.Ok? ==> Cached(w', t, path) == Some(r.value) && r.value in w'.opens && w'.opens[r.value] == (t, path))
  {
    var (w', r) := Connect(w, t, path, open);
    ConnectKeepsCache(w, t, path, open, t, path);
    if Cached(w, t, path).None? && open.Ok? {
      ConnectKeepsVectors(w, t, path, open.value);
      forall s, u | s in w'.statements && u in w'.statements[s].local
        ensures SlotInv(w', s, u)
      {
        assert SlotInv(w, s, u);
        ConnectKeepsCache(w, t, path, open, u, w.statements[s].dbPath);
      }
    } else if Cached(w, t, path).Some? {
      assert VectorInv(w, t);
    }
  }

  lemma ConnectKeepsVectors(w: World, t: Thread, path: Path, c: Connection)
    requires CacheInv(w) && Cached(w, t, path).None? && c !in w.opens
    ensures CacheInv(Connect(w, t, path, Ok(c)).0)
  {
    var w' := Connect(w, t, path, Ok(c)).0;
    forall u
      ensures VectorInv(w', u)
    {
      assert VectorInv(w, u);
      assert ConnectionsOf(w', u) == ConnectionsOf(w, u) + if u == t then [Entry(path, c)] else [];
    }
    forall d | d in w'.opens
      ensures Entry(w'.opens[d].1, d) in ConnectionsOf(w', w'.opens[d].0)
    {
      if d != c {
        assert Entry(w.opens[d].1, d) in ConnectionsOf(w, w.opens[d].0);
      } else {
        assert (ConnectionsOf(w, t) + [Entry(path, c)])[|ConnectionsOf(w, t)|] == Entry(path, c);
      }
    }
  }

  lemma PrepareKeepsInv(w: World, t: Thread, s: StatementId, connection: Connection, prepare: Result<Handle, int>)
    requires WorldInv(w) && s in w.statements
    requires Cached(w, t, w.statements[s].dbPath) == Some(connection)
    requires prepare.Ok? ==> prepare.value !in w.prepared
    ensures var (w', r) := PrepareLocal(w, t, s, connection, prepare);
            && WorldInv(w')
            && w'.connections == w.connections && w'.opens == w.opens
            && w'.statements.Keys == w.statements.Keys
            && w'.statements[s].dbPath == w.statements[s].dbPath
            && (r.Ok? ==> t in w'.statements[s].local && w'.statements[s].local[t] == r.value)
  {
    hide CacheInv, HandleInv, OncePerThread;
    CacheInvFrame(w, PrepareLocal(w, t, s, connection, prepare).0);
    if t !in w.statements[s].local && prepare.Ok? {
      FillSlot(w, t, s, connection, prepare.value);
    }
  }

  lemma FillSlot(w: World, t: Thread, s: StatementId, connection: Connection, h: Handle)
    requires HandleInv(w) && s in w.statements && t !in w.statements[s].local && h !in w.prepared
    requires Cached(w, t, w.statements[s].dbPath) == Some(connection)
    requires OncePerThread(w)
    ensures HandleInv(PrepareLocal(w, t, s, connection, Ok(h)).0)
    ensures OncePerThread(PrepareLocal(w, t, s, connection, Ok(h)).0)
  {
    FillSlots(w, t, s, connection, h);
    FillOnce(w, t, s, connection, h);
    hide SlotInv;
  }

  lemma FillOnce(w: World, t: Thread, s: StatementId, connection: Connection, h: Handle)
    requires HandleInv(w) && s in w.statements && t !in w.statements[s].local && OncePerThread(w)
    ensures OncePerThread(PrepareLocal(w, t, s, connection, Ok(h)).0)
  {
    hide SlotInv;
    forall h' | h' in w.prepared
      ensures w.prepared[h'].statement != s || w.prepared[h'].thread != t
    {
      assert w.prepared[h'].statement == s ==> w.prepared[h'].thread in w.statements[s].local;
    }
  }

  lemma FillSlots(w: World, t: Thread, s: StatementId, connection: Connection, h: Handle)
    requires forall s', u | s' in w.statements && u in w.statements[s'].local :: SlotInv(w, s', u)
    requires s in w.statements && t !in w.statements[s].local && h !in w.prepared
    requires Cached(w, t, w.statements[s].dbPath) == Some(connection)
    ensures var w' := PrepareLocal(w, t, s, connection, Ok(h)).0;
            forall s', u | s' in w'.statements && u in w'.statements[s'].local :: SlotInv(w', s', u)
  {
    hide Lookup;
    var w' := PrepareLocal(w, t, s, connection, Ok(h)).0;
    forall s', u | s' in w'.statements && u in w'.statements[s'].local
      ensures SlotInv(w', s', u)
    {
      if s' != s || u != t {
        assert SlotInv(w, s', u);
      }
    }
  }

  lemma CacheInvFrame(w: World, w': World)
    requires CacheInv(w) && w'.connections == w.connections && w'.opens == w.opens
    ensures CacheInv(w')
  {
    forall t
      ensures VectorInv(w', t)
    {
      assert VectorInv(w, t);
    }
  }

  /** What a statement's slots hold is exactly what was prepared for it. */
  lemma HeldExactlyIfOwn(w: World, s: StatementId, h: Handle)
    requires HandleInv(w) && s in w.statements && h in w.prepared
    ensures h in w.statements[s].local.Values <==> w.prepared[h].statement == s
  {
    hide Cached;
    if h in w.statements[s].local.Values {
      var t :| t in w.statements[s].local && w.statements[s].local[t] == h;
      assert SlotInv(w, s, t);
    }
  }

  lemma DropKeepsHandles(w: World, s: StatementId)
    requires HandleInv(w) && s in w.statements
    ensures HandleInv(Drop(w, s))
    ensures forall h | h in w.prepared ::
              Drop(w, s).prepared[h].finalized
              == w.prepared[h].finalized + if w.prepared[h].statement == s then 1 else 0
  {
    hide Lookup;
    var w' := Drop(w, s);
    forall h | h in w.prepared
      ensures h in w.statements[s].local.Values <==> w.prepared[h].statement == s
      ensures w.prepared[h].statement in w.statements ==> w.prepared[h].finalized == 0
    {
      HeldExactlyIfOwn(w, s, h);
      FinalizedOnce(w, h);
    }
    forall s', u | s' in w'.statements && u in w'.statements[s'].local
      ensures SlotInv(w', s', u)
    {
      assert SlotInv(w, s', u);
    }
  }

  lemma DropKeepsInv(w: World, s: StatementId)
    requires WorldInv(w) && s in w.statements
    ensures WorldInv(Drop(w, s))
    ensures forall h | h in w.prepared ::
              Drop(w, s).prepared[h].finalized
              == w.prepared[h].finalized + if w.prepared[h].statement == s then 1 else 0
  {
    hide CacheInv, HandleInv;
    CacheInvFrame(w, Drop(w, s));
    DropKeepsHandles(w, s);
  }

  /** While a statement lives none of its handles is finalized; once it is dropped, each is, once. */
  lemma FinalizedOnce(w: World, h: Handle)
    requires HandleInv(w) && h in w.prepared
    ensures w.prepared[h].finalized == if w.prepared[h].statement in w.statements then 0 else 1
  {
    hide Cached;
    var p := w.prepared[h];
    if p.statement in w.statements {
      assert SlotInv(w, p.statement, p.thread);
    }
  }

  /** The slot's handle lives on the connection that this thread opened for the statement's path. */
  lemma SlotOnOwnConnection(w: World, s: StatementId, t: Thread)
    requires WorldInv(w) && s in w.statements && t in w.statements[s].local
    ensures SlotInv(w, s, t)
    ensures var c := w.prepared[w.statements[s].local[t]].connection;
            c in w.opens && w.opens[c] == (t, w.statements[s].dbPath)
  {
    hide OncePerThread;
    assert SlotInv(w, s, t);
    assert VectorInv(w, t);
  }

  /**
   * After a thread's first successful prepare of a statement, getting its connection and its handle
   * again, as every call and the error path do, asks SQLite for nothing and cannot fail.
   */
  lemma LaterCallsHitTheCache(
    w: World, s: StatementId, t: Thread, open: Result<Connection, int>, prepare: Result<Handle, int>)
    requires WorldInv(w) && s in w.statements && t in w.statements[s].local
    ensures var h := w.statements[s].local[t];
            && h in w.prepared
            && Connect(w, t, w.statements[s].dbPath, open) == (w, Ok(w.prepared[h].connection))
            && PrepareLocal(w, t, s, w.prepared[h].connection, prepare) == (w, Ok(h))
  {
    hide CacheInv, OncePerThread;
    assert SlotInv(w, s, t);
  }

  /** The cache of a thread is exactly what SQLite opened for that thread. */
  lemma CachedExactlyIfOpened(w: World, t: Thread, path: Path, c: Connection)
    requires CacheInv(w)
    ensures Cached(w, t, path) == Some(c) <==> c in w.opens && w.opens[c] == (t, path)
  {
    assert VectorInv(w, t);
    if c in w.opens && w.opens[c] == (t, path) {
      assert Entry(path, c) in ConnectionsOf(w, t);
      LookupMember(ConnectionsOf(w, t), Entry(path, c));
    }
  }

  /** No thread has opened the same path twice. */
  lemma OpensDiffer(w: World, c: Connection, d: Connection)
    requires CacheInv(w) && c in w.opens && d in w.opens && w.opens[c] == w.opens[d]
    ensures c == d
  {
    hide CacheInv, Cached;
    CachedExactlyIfOpened(w, w.opens[c].0, w.opens[c].1, c);
    CachedExactlyIfOpened(w, w.opens[c].0, w.opens[c].1, d);
  }

  /**
   * The vectors agree with a map from thread and path to connection, and SQLite has opened exactly
   * one connection for every thread and path in it.
   */
  lemma OpensAreCachedPaths(w: World)
    requires WorldInv(w)
    ensures forall t: Thread, path, c: Connection ::
              Cached(w, t, path) == Some(c) <==> c in w.opens && w.opens[c] == (t, path)
    ensures |w.opens| == |w.opens.Values|
  {
    hide HandleInv, OncePerThread, CacheInv, Cached;
    forall t: Thread, path, c: Connection
      ensures Cached(w, t, path) == Some(c) <==> c in w.opens && w.opens[c] == (t, path)
    {
      CachedExactlyIfOpened(w, t, path, c);
    }
    OpensCounted(w);
  }

  lemma OpensCounted(w: World)
    requires CacheInv(w)
    ensures |w.opens| == |w.opens.Values|
  {
    hide CacheInv;
    forall c, d | c in w.opens && d in w.opens && w.opens[c] == w.opens[d]
      ensures c == d
    {
      OpensDiffer(w, c, d);
    }
    InjectiveSize(w.opens);
  }

  lemma InjectiveSize<K, V>(m: map<K, V>)
    requires forall a, b | a in m && b in m && m[a] == m[b] :: a == b
    ensures |m| == |m.Values|
  {
    if m != map[] {
      var k :| k in m;
      var m' := m - {k};
      InjectiveSize(m');
      assert m.Values == m'.Values + {m[k]};
      assert m.Keys == m'.Keys + {k};
      assert |m.Keys| == |m'.Keys| + 1;
    } else {
      assert m.Values == {};
    }
  }
}
