/**
 * Any number of threads calling into the SQLite wrapper at once.  A call is several transitions:
 * enter, get the connection, get the thread's own handle, use it any number of times, return.
 */
module SqliteThreads {
  import opened Wrappers
  import opened Sqlite

  /**
   * Where a thread is; `creating` marks the call of `prepare` that made the statement.  A thread
   * that touches a statement which is gone would be `Dangling`.
   */
  datatype Pc =
    | Idle
    | Connecting(statement: StatementId, creating: bool)
    | Preparing(statement: StatementId, creating: bool, connection: Connection)
    | Using(statement: StatementId, creating: bool, handle: Handle)
    | Panicked
    | Dangling

  /**
   * One use of a handle by `bind`, `step`, `reset`, `columns` or `column_value`, with what was true
   * of the handle at that moment: not finalized, and on which thread's connection to which path.
   */
  datatype Use = Use(
    thread: Thread, statement: StatementId, handle: Handle, live: bool, path: Path, openedFor: Option<(Thread, Path)>)

  /**
   * One `sqlite3_finalize`, made by the thread that drops the statement: on which handle, whether it
   * was live, which thread had prepared it, and on which thread's connection to which path it is.
   */
  datatype Finalize = Finalize(
    dropper: Thread, handle: Handle, live: bool, owner: Option<Thread>, path: Path, openedFor: Option<(Thread, Path)>)

  datatype Machine = Machine(w: World, pcs: map<Thread, Pc>, uses: seq<Use>, finalizes: set<Finalize>)

  datatype Action =
    | Create(t: Thread, s: StatementId, path: Path, query: string)
    | Enter(t: Thread, s: StatementId)
    | GetConnection(t: Thread, open: Result<Connection, int>)
    | GetHandle(t: Thread, prepare: Result<Handle, int>)
    | UseHandle(t: Thread)
    | Return(t: Thread)
    | BoxFails(t: Thread)
    | DropStatement(t: Thread, s: StatementId)

  predicate Mentions(pc: Pc, s: StatementId) {
    (pc.Connecting? || pc.Preparing? || pc.Using?) && pc.statement == s
  }

  predicate Creating(pc: Pc, s: StatementId) {
    Mentions(pc, s) && pc.creating
  }

  /**
   * When a transition can happen.  Fresh identifiers are the environment's promise; a statement
   * reaches other threads only once `prepare` has returned it, and is dropped only when no call
   * holds it, as its reference count demands, by whichever thread releases the last reference.
   */
  ghost predicate Enabled(m: Machine, a: Action) {
    match a
    case Create(t, s, _, _) =>
      && t in m.pcs && m.pcs[t] == Idle
      && s !in m.w.statements
      && forall h | h in m.w.prepared :: m.w.prepared[h].statement != s
    case Enter(t, s) =>
      && t in m.pcs && m.pcs[t] == Idle
      && s in m.w.statements
      && forall u | u in m.pcs :: !Creating(m.pcs[u], s)
    case GetConnection(t, open) =>
      && t in m.pcs && m.pcs[t].Connecting?
      && (open.Ok? ==> open.value !in m.w.opens)
    case GetHandle(t, prepare) =>
      && t in m.pcs && m.pcs[t].Preparing?
      && (prepare.Ok? ==> prepare.value !in m.w.prepared)
    case UseHandle(t) => t in m.pcs && m.pcs[t].Using?
    case Return(t) => t in m.pcs && m.pcs[t].Using?
    case BoxFails(t) => t in m.pcs && m.pcs[t].Using? && m.pcs[t].creating
    case DropStatement(t, s) =>
      && t in m.pcs && m.pcs[t] == Idle
      && s in m.w.statements
      && forall u | u in m.pcs :: !Mentions(m.pcs[u], s)
  }

  function OpenedFor(w: World, c: Connection): Option<(Thread, Path)> {
    if c in w.opens then Some(w.opens[c]) else None
  }

  function FinalizeBy(w: World, t: Thread, s: StatementId, h: Handle): Finalize
    requires s in w.statements
  {
    var path := w.statements[s].dbPath;
    if h in w.prepared then
      var p := w.prepared[h];
      Finalize(t, h, p.finalized == 0, Some(p.thread), path, OpenedFor(w, p.connection))
    else Finalize(t, h, false, None, path, None)
  }

  /** Thread `t` drops statement `s`, which finalizes whatever is in its slots. */
  function DropBy(m: Machine, w: World, t: Thread, s: StatementId): Machine
    requires s in w.statements
  {
    m.(w := Drop(w, s),
       finalizes := m.finalizes + set h | h in w.statements[s].local.Values :: FinalizeBy(w, t, s, h))
  }

  /** What a failing `thread_local_prepare` leads to: `prepare` reports it, every other call panics. */
  function Fail(m: Machine, w: World, t: Thread): Machine
    requires t in m.pcs && (m.pcs[t].Connecting? || m.pcs[t].Preparing?) && m.pcs[t].statement in w.statements
  {
    var pc := m.pcs[t];
    if pc.creating then DropBy(m, w, t, pc.statement).(pcs := m.pcs[t := Idle])
    else m.(w := w, pcs := m.pcs[t := Panicked])
  }

  /** The effect of one transition. */
  function Next(m: Machine, a: Action): Machine
    requires Enabled(m, a)
  {
    match a
    case Create(t, s, path, query) =>
      m.(w := m.w.(statements := m.w.statements[s := Statement(path, query, map[])]),
         pcs := m.pcs[t := Connecting(s, true)])
    case Enter(t, s) => m.(pcs := m.pcs[t := Connecting(s, false)])
    case GetConnection(t, open) =>
      var pc := m.pcs[t];
      if pc.statement !in m.w.statements then m.(pcs := m.pcs[t := Dangling])
      else
        var (w', r) := Connect(m.w, t, m.w.statements[pc.statement].dbPath, open);
        if r.Ok? then m.(w := w', pcs := m.pcs[t := Preparing(pc.statement, pc.creating, r.value)]) else Fail(m, w', t)
    case GetHandle(t, prepare) =>
      var pc := m.pcs[t];
      if pc.statement !in m.w.statements then m.(pcs := m.pcs[t := Dangling])
      else
        var (w', r) := PrepareLocal(m.w, t, pc.statement, pc.connection, prepare);
        if r.Ok? then m.(w := w', pcs := m.pcs[t := Using(pc.statement, pc.creating, r.value)]) else Fail(m, w', t)
    case UseHandle(t) =>
      var pc := m.pcs[t];
      if pc.statement !in m.w.statements || pc.handle !in m.w.prepared then m.(pcs := m.pcs[t := Dangling])
      else
        var p := m.w.prepared[pc.handle];
        m.(uses := m.uses + [Use(t, pc.statement, pc.handle, p.finalized == 0,
                                 m.w.statements[pc.statement].dbPath, OpenedFor(m.w, p.connection))])
    case Return(t) => m.(pcs := m.pcs[t := Idle])
    case BoxFails(t) =>
      var s := m.pcs[t].statement;
      if s !in m.w.statements then m.(pcs := m.pcs[t := Dangling])
      else DropBy(m, m.w, t, s).(pcs := m.pcs[t := Idle])
    case DropStatement(t, s) => DropBy(m, m.w, t, s)
  }

  // ---------------------------------------------------------------------------------------------
  // The invariant of every interleaving
  // ---------------------------------------------------------------------------------------------

  /** A thread in a call holds what it got for this statement, from its own cache and its own slot. */
  ghost predicate PcInv(w: World, t: Thread, pc: Pc) {
    match pc
    case Idle => true
    case Panicked => true
    case Dangling => false
    case Connecting(s, _) => s in w.statements
    case Preparing(s, _, c) => s in w.statements && Cached(w, t, w.statements[s].dbPath) == Some(c)
    case Using(s, _, h) =>
      && s in w.statements && t in w.statements[s].local && w.statements[s].local[t] == h
      && h in w.prepared
  }

  /** A statement that is still being created is known to its creator only. */
  ghost predicate Private(pcs: map<Thread, Pc>) {
    forall t, u, s | t in pcs && u in pcs && t != u && Creating(pcs[t], s) :: !Mentions(pcs[u], s)
  }

  /**
   * The use was of a live handle, prepared by the using thread for that statement, on the connection
   * that this thread had opened for the statement's path.
   */
  ghost predicate UseInv(w: World, use: Use) {
    && use.live
    && use.openedFor == Some((use.thread, use.path))
    && use.handle in w.prepared
    && w.prepared[use.handle].thread == use.thread
    && w.prepared[use.handle].statement == use.statement
  }

  ghost predicate MachineInv(m: Machine) {
    && WorldInv(m.w)
    && (forall t | t in m.pcs :: PcInv(m.w, t, m.pcs[t]))
    && Private(m.pcs)
    && (forall use | use in m.uses :: UseInv(m.w, use))
  }

  /** What a step may do to handles that exist: nothing but finalize them. */
  ghost predicate HandlesKept(w: World, w': World) {
    forall h | h in w.prepared ::
      && h in w'.prepared
      && w'.prepared[h].thread == w.prepared[h].thread
      && w'.prepared[h].statement == w.prepared[h].statement
  }

  lemma UsesKept(w: World, w': World, uses: seq<Use>)
    requires HandlesKept(w, w') && forall use | use in uses :: UseInv(w, use)
    ensures forall use | use in uses :: UseInv(w', use)
  {
  }

  lemma CreateKeepsInv(m: Machine, a: Action)
    requires MachineInv(m) && Enabled(m, a) && a.Create?
    ensures MachineInv(Next(m, a))
  {
    var m' := Next(m, a);
    CacheInvFrame(m.w, m'.w);
    forall s, u | s in m'.w.statements && u in m'.w.statements[s].local
      ensures SlotInv(m'.w, s, u)
    {
      assert SlotInv(m.w, s, u);
    }
    forall u | u in m.pcs
      ensures !Mentions(m.pcs[u], a.s) && PcInv(m'.w, u, m'.pcs[u])
    {
      assert PcInv(m.w, u, m.pcs[u]);
    }
    UsesKept(m.w, m'.w, m.uses);
  }

  /** Removing a statement that no thread mentions after the step leaves every thread's data alone. */
  lemma DropKeepsMachine(m: Machine, w: World, t: Thread, s: StatementId, pcs': map<Thread, Pc>)
    requires MachineInv(m.(w := w, pcs := pcs')) && s in w.statements
    requires forall u | u in pcs' :: !Mentions(pcs'[u], s)
    ensures MachineInv(DropBy(m, w, t, s).(pcs := pcs'))
  {
    hide WorldInv;
    var w' := Drop(w, s);
    DropKeepsInv(w, s);
    forall u | u in pcs'
      ensures PcInv(w', u, pcs'[u])
    {
      assert PcInv(w, u, pcs'[u]);
    }
    UsesKept(w, w', m.uses);
  }

  /** Ending a call is always safe for the other threads. */
  lemma StopKeepsInv(m: Machine, t: Thread, pc: Pc)
    requires MachineInv(m) && t in m.pcs && (pc == Idle || pc == Panicked)
    ensures MachineInv(m.(pcs := m.pcs[t := pc]))
  {
    hide WorldInv, UseInv;
    assert PcInv(m.w, t, pc);
  }

  lemma FailKeepsInv(m: Machine, w: World, t: Thread)
    requires MachineInv(m.(w := w))
    requires t in m.pcs && (m.pcs[t].Connecting? || m.pcs[t].Preparing?) && m.pcs[t].statement in w.statements
    ensures MachineInv(Fail(m, w, t))
  {
    hide WorldInv, UseInv;
    var pc := m.pcs[t];
    StopKeepsInv(m.(w := w), t, if pc.creating then Idle else Panicked);
    if pc.creating {
      assert Creating(pc, pc.statement);
      DropKeepsMachine(m, w, t, pc.statement, m.pcs[t := Idle]);
    }
  }

  lemma ConnectKeepsPcs(m: Machine, t: Thread, path: Path, open: Result<Connection, int>)
    requires MachineInv(m) && (open.Ok? ==> open.value !in m.w.opens)
    ensures MachineInv(m.(w := Connect(m.w, t, path, open).0))
  {
    hide WorldInv;
    var w' := Connect(m.w, t, path, open).0;
    ConnectKeepsInv(m.w, t, path, open);
    forall u | u in m.pcs
      ensures PcInv(w', u, m.pcs[u])
    {
      assert PcInv(m.w, u, m.pcs[u]);
      if m.pcs[u].Preparing? {
        ConnectKeepsCache(m.w, t, path, open, u, m.w.statements[m.pcs[u].statement].dbPath);
      }
    }
    UsesKept(m.w, w', m.uses);
  }

  lemma GetConnectionKeepsInv(m: Machine, a: Action)
    requires MachineInv(m) && Enabled(m, a) && a.GetConnection?
    ensures MachineInv(Next(m, a))
  {
    hide WorldInv, UseInv;
    var pc := m.pcs[a.t];
    assert PcInv(m.w, a.t, pc);
    var path := m.w.statements[pc.statement].dbPath;
    var (w', r) := Connect(m.w, a.t, path, a.open);
    ConnectKeepsInv(m.w, a.t, path, a.open);
    ConnectKeepsPcs(m, a.t, path, a.open);
    if r.Ok? {
      AdvanceKeepsInv(m.(w := w'), a.t, Preparing(pc.statement, pc.creating, r.value));
    } else {
      FailKeepsInv(m, w', a.t);
    }
  }

  /** A thread may move on within its call to anything its own `PcInv` allows. */
  lemma AdvanceKeepsInv(m: Machine, t: Thread, pc: Pc)
    requires MachineInv(m) && t in m.pcs && PcInv(m.w, t, pc)
    requires (pc.Preparing? || pc.Using?) && Mentions(m.pcs[t], pc.statement) && m.pcs[t].creating == pc.creating
    ensures MachineInv(m.(pcs := m.pcs[t := pc]))
  {
    hide WorldInv, UseInv, PcInv;
    assert forall s :: Mentions(pc, s) <==> Mentions(m.pcs[t], s);
    assert forall s :: Creating(pc, s) <==> Creating(m.pcs[t], s);
  }

  lemma PrepareKeepsPcs(m: Machine, t: Thread, s: StatementId, c: Connection, prepare: Result<Handle, int>)
    requires MachineInv(m) && s in m.w.statements && (prepare.Ok? ==> prepare.value !in m.w.prepared)
    requires Cached(m.w, t, m.w.statements[s].dbPath) == Some(c)
    ensures MachineInv(m.(w := PrepareLocal(m.w, t, s, c, prepare).0))
  {
    hide WorldInv;
    var w' := PrepareLocal(m.w, t, s, c, prepare).0;
    PrepareKeepsInv(m.w, t, s, c, prepare);
    forall u | u in m.pcs
      ensures PcInv(w', u, m.pcs[u])
    {
      assert PcInv(m.w, u, m.pcs[u]);
    }
    UsesKept(m.w, w', m.uses);
  }

  lemma GetHandleKeepsInv(m: Machine, a: Action)
    requires MachineInv(m) && Enabled(m, a) && a.GetHandle?
    ensures MachineInv(Next(m, a))
  {
    hide WorldInv, UseInv;
    var pc := m.pcs[a.t];
    assert PcInv(m.w, a.t, pc);
    var (w', r) := PrepareLocal(m.w, a.t, pc.statement, pc.connection, a.prepare);
    PrepareKeepsInv(m.w, a.t, pc.statement, pc.connection, a.prepare);
    PrepareKeepsPcs(m, a.t, pc.statement, pc.connection, a.prepare);
    if r.Ok? {
      SlotOnOwnConnection(w', pc.statement, a.t);
      AdvanceKeepsInv(m.(w := w'), a.t, Using(pc.statement, pc.creating, r.value));
    } else {
      FailKeepsInv(m, w', a.t);
    }
  }

  lemma UseKeepsInv(m: Machine, a: Action)
    requires MachineInv(m) && Enabled(m, a) && a.UseHandle?
    ensures MachineInv(Next(m, a))
  {
    hide WorldInv;
    var pc := m.pcs[a.t];
    assert PcInv(m.w, a.t, pc);
    SlotOnOwnConnection(m.w, pc.statement, a.t);
  }

  lemma NextKeepsInv(m: Machine, a: Action)
    requires MachineInv(m) && Enabled(m, a)
    ensures MachineInv(Next(m, a))
  {
    hide WorldInv, UseInv;
    match a {
      case Create(_, _, _, _) => CreateKeepsInv(m, a);
      case Enter(t, s) =>
        assert PcInv(m.w, t, Connecting(s, false));
      case GetConnection(_, _) => GetConnectionKeepsInv(m, a);
      case GetHandle(_, _) => GetHandleKeepsInv(m, a);
      case UseHandle(_) => UseKeepsInv(m, a);
      case Return(t) => StopKeepsInv(m, t, Idle);
      case BoxFails(t) =>
        var s := m.pcs[t].statement;
        assert PcInv(m.w, t, m.pcs[t]) && Creating(m.pcs[t], s);
        StopKeepsInv(m, t, Idle);
        DropKeepsMachine(m, m.w, t, s, m.pcs[t := Idle]);
      case DropStatement(t, s) => DropKeepsMachine(m, m.w, t, s, m.pcs);
    }
  }

  // ---------------------------------------------------------------------------------------------
  // Runs
  // ---------------------------------------------------------------------------------------------

  /** No connections, no statements, and a fixed set of threads that are not in a call. */
  ghost predicate Initial(m: Machine) {
    m.w == EMPTY_WORLD && m.uses == [] && m.finalizes == {} && forall t | t in m.pcs :: m.pcs[t] == Idle
  }

  ghost predicate Step(m: Machine, a: Action, m': Machine) {
    Enabled(m, a) && m' == Next(m, a)
  }

  /** Any interleaving: each machine follows from the one before by an enabled transition. */
  ghost predicate Run(ms: seq<Machine>, actions: seq<Action>) {
    && |ms| == |actions| + 1
    && Initial(ms[0])
    && forall i | 0 <= i < |actions| :: Step(ms[i], actions[i], ms[i + 1])
  }

  /** A stretch of an interleaving, from any machine. */
  ghost predicate Chain(ms: seq<Machine>, actions: seq<Action>) {
    |ms| == |actions| + 1 && forall i | 0 <= i < |actions| :: Step(ms[i], actions[i], ms[i + 1])
  }

  lemma Chained(ms1: seq<Machine>, as1: seq<Action>, ms2: seq<Machine>, as2: seq<Action>)
    returns (ms: seq<Machine>, actions: seq<Action>)
    requires Chain(ms1, as1) && Chain(ms2, as2) && ms1[|as1|] == ms2[0]
    ensures Chain(ms, actions) && ms[0] == ms1[0] && ms[|actions|] == ms2[|as2|]
  {
    hide Step;
    ms, actions := ms1 + ms2[1..], as1 + as2;
    forall i | 0 <= i < |actions|
      ensures Step(ms[i], actions[i], ms[i + 1])
    {
      if i < |as1| {
        assert Step(ms1[i], as1[i], ms1[i + 1]);
      } else {
        assert Step(ms2[i - |as1|], as2[i - |as1|], ms2[i - |as1| + 1]);
      }
    }
  }

  lemma InitialInv(m: Machine)
    requires Initial(m)
    ensures MachineInv(m)
  {
  }

  /**
   * Safety over every interleaving: at every point of every run the invariant holds, so every use
   * of a handle by a call was by the thread that prepared it, for that statement, on that thread's own
   * connection to the statement's database, before the handle was finalized.
   */
  lemma {:induction false} RunSafe(ms: seq<Machine>, actions: seq<Action>, i: nat)
    requires Run(ms, actions) && i < |ms|
    ensures MachineInv(ms[i])
    ensures forall t | t in ms[i].pcs :: ms[i].pcs[t] != Dangling
    ensures forall use | use in ms[i].uses ::
              && use.live && use.openedFor == Some((use.thread, use.path))
              && use.handle in ms[i].w.prepared
              && ms[i].w.prepared[use.handle].thread == use.thread
              && ms[i].w.prepared[use.handle].statement == use.statement
    decreases i
  {
    hide WorldInv, Enabled, Next;
    if i == 0 {
      InitialInv(ms[0]);
    } else {
      RunSafe(ms, actions, i - 1);
      assert Step(ms[i - 1], actions[i - 1], ms[i]);
      NextKeepsInv(ms[i - 1], actions[i - 1]);
    }
    forall t | t in ms[i].pcs
      ensures ms[i].pcs[t] != Dangling
    {
      assert PcInv(ms[i].w, t, ms[i].pcs[t]);
    }
  }

  /** The threads of the uses, and those of the actions that use a handle. */
  function Users(uses: seq<Use>): seq<Thread> {
    seq(|uses|, i requires 0 <= i < |uses| => uses[i].thread)
  }

  function UsersOf(actions: seq<Action>): seq<Thread> {
    if actions == [] then []
    else
      var last := actions[|actions| - 1];
      UsersOf(actions[..|actions| - 1]) + if last.UseHandle? then [last.t] else []
  }

  lemma StepLogsUse(m: Machine, a: Action)
    requires MachineInv(m) && Enabled(m, a)
    ensures Users(Next(m, a).uses) == Users(m.uses) + if a.UseHandle? then [a.t] else []
  {
    hide WorldInv, UseInv, FinalizeBy;
    if a.UseHandle? {
      assert PcInv(m.w, a.t, m.pcs[a.t]);
    }
  }

  /** No use is missing: over a run there is one for each action that uses a handle, in order. */
  lemma {:induction false} UsesLogged(ms: seq<Machine>, actions: seq<Action>, i: nat)
    requires Run(ms, actions) && i < |ms|
    ensures Users(ms[i].uses) == UsersOf(actions[..i])
    decreases i
  {
    hide MachineInv, Enabled, Next, Users;
    if i == 0 {
      NothingUsed();
    } else {
      UsesLogged(ms, actions, i - 1);
      RunSafe(ms, actions, i - 1);
      assert Step(ms[i - 1], actions[i - 1], ms[i]);
      StepLogsUse(ms[i - 1], actions[i - 1]);
      assert actions[..i][..i - 1] == actions[..i - 1];
    }
  }

  lemma NothingUsed()
    ensures Users([]) == []
  {
  }

  /** Handles over a whole run: at most one per statement and thread, finalized once when it drops. */
  lemma HandleLifeCycle(ms: seq<Machine>, actions: seq<Action>)
    requires Run(ms, actions)
    ensures var w := ms[|actions|].w;
            && (forall h | h in w.prepared ::
                  w.prepared[h].finalized == if w.prepared[h].statement in w.statements then 0 else 1)
            && (forall h1, h2 | h1 in w.prepared && h2 in w.prepared && h1 != h2 ::
                  || w.prepared[h1].statement != w.prepared[h2].statement
                  || w.prepared[h1].thread != w.prepared[h2].thread)
  {
    RunSafe(ms, actions, |actions|);
    var w := ms[|actions|].w;
    forall h | h in w.prepared
      ensures w.prepared[h].finalized == if w.prepared[h].statement in w.statements then 0 else 1
    {
      FinalizedOnce(w, h);
    }
  }

  lemma StepKeepsCache(m: Machine, a: Action, t: Thread, path: Path)
    requires MachineInv(m) && Enabled(m, a)
    ensures Cached(m.w, t, path).Some? ==> Cached(Next(m, a).w, t, path) == Cached(m.w, t, path)
  {
    hide WorldInv, UseInv;
    if a.GetConnection? {
      ConnectKeepsCache(m.w, a.t, m.w.statements[m.pcs[a.t].statement].dbPath, a.open, t, path);
    }
  }

  /** The connection that a thread has for a path never changes again. */
  lemma {:induction false} ConnectionNeverChanges(
    ms: seq<Machine>, actions: seq<Action>, i: nat, j: nat, t: Thread, path: Path)
    requires Run(ms, actions) && i <= j < |ms| && Cached(ms[i].w, t, path).Some?
    ensures Cached(ms[j].w, t, path) == Cached(ms[i].w, t, path)
    decreases j - i
  {
    hide MachineInv, Enabled;
    if i == j {
    } else {
      RunSafe(ms, actions, i);
      assert Step(ms[i], actions[i], ms[i + 1]);
      StepKeepsCache(ms[i], actions[i], t, path);
      ConnectionNeverChanges(ms, actions, i + 1, j, t, path);
    }
  }

  /** Thread 0 creates and prepares statement 0 and returns. */
  lemma FirstThreadPrepares(m0: Machine, actions: seq<Action>) returns (ms: seq<Machine>)
    requires m0 == Machine(EMPTY_WORLD, map[0 := Idle, 1 := Idle], [], {})
    requires actions == [Create(0, 0, "a.db", "SELECT 1"), GetConnection(0, Ok(7)), GetHandle(0, Ok(9)), Return(0)]
    ensures |ms| == 5 && ms[0] == m0 && forall i | 0 <= i < 4 :: Step(ms[i], actions[i], ms[i + 1])
    ensures ms[4].pcs == m0.pcs
    ensures ms[4].w == World(map[0 := [Entry("a.db", 7)]], map[0 := Statement("a.db", "SELECT 1", map[0 := 9])],
                             map[7 := (0, "a.db")], map[9 := Prepared(0, 0, 7, "SELECT 1", 0)])
    ensures ms[4].finalizes == {}
  {
    var m1 := Next(m0, actions[0]);
    var m2 := Next(m1, actions[1]);
    assert m2.pcs[0] == Preparing(0, true, 7);
    var m3 := Next(m2, actions[2]);
    assert m3.pcs[0] == Using(0, true, 9);
    var m4 := Next(m3, actions[3]);
    assert m4.pcs == map[0 := Idle, 1 := Idle];
    assert [] + [Entry("a.db", 7)] == [Entry("a.db", 7)];
    ms := [m0, m1, m2, m3, m4];
  }

  /** A statement that thread 0 has prepared panics on thread 1 when that thread's own open fails. */
  lemma SecondThreadCanPanic() returns (ms: seq<Machine>, actions: seq<Action>)
    ensures Run(ms, actions)
    ensures var m := ms[|actions|];
            && 0 in m.w.statements && 0 in m.w.statements[0].local
            && 1 in m.pcs && m.pcs[1] == Panicked
  {
    var m0 := Machine(EMPTY_WORLD, map[0 := Idle, 1 := Idle], [], {});
    var first := [Create(0, 0, "a.db", "SELECT 1"), GetConnection(0, Ok(7)), GetHandle(0, Ok(9)), Return(0)];
    var before := FirstThreadPrepares(m0, first);
    var m5 := Next(before[4], Enter(1, 0));
    assert Cached(m5.w, 1, "a.db") == None;
    var m6 := Next(m5, GetConnection(1, Err(14)));
    hide Next, Enabled;
    ms, actions := before + [m5, m6], first + [Enter(1, 0), GetConnection(1, Err(14))];
    forall i | 0 <= i < |actions|
      ensures Step(ms[i], actions[i], ms[i + 1])
    {
      if i < 4 { assert Step(before[i], first[i], before[i + 1]); }
    }
  }
}
