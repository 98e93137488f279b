/**
 * Which thread finalizes which handle.  The comment that guards `UnsafeStmt`
 * (crates/roc_sqlite/src/lib.rs:26-32) promises that a handle is used on a single thread; dropping a
 * statement (lib.rs:41-47) finalizes the handles of all threads on the one that drops it.
 */
module SqliteDrops {
  import opened Wrappers
  import opened Sqlite
  import opened SqliteThreads

  /** A logged finalize was of a live handle of a statement that is gone now, on its owner's connection. */
  ghost predicate FinalizeInv(w: World, f: Finalize) {
    && f.live
    && f.handle in w.prepared
    && f.owner == Some(w.prepared[f.handle].thread)
    && f.openedFor == Some((w.prepared[f.handle].thread, f.path))
    && w.prepared[f.handle].statement !in w.statements
  }

  /** The handles of dropped statements and the logged finalizes correspond one to one. */
  ghost predicate LogInv(w: World, finalizes: set<Finalize>) {
    && (forall f | f in finalizes :: FinalizeInv(w, f))
    && (forall f, g | f in finalizes && g in finalizes && f.handle == g.handle :: f == g)
    && (forall h | h in w.prepared && w.prepared[h].statement !in w.statements ::
          exists f | f in finalizes :: f.handle == h)
  }

  /** While `prepare` makes a statement, nobody but its thread has a handle of it. */
  ghost predicate OwnWhileCreating(w: World, pcs: map<Thread, Pc>) {
    forall t, s | t in pcs && Creating(pcs[t], s) && s in w.statements :: w.statements[s].local.Keys <= {t}
  }

  ghost predicate DropInv(m: Machine) {
    LogInv(m.w, m.finalizes) && OwnWhileCreating(m.w, m.pcs)
  }

  /** A step that drops nothing may add handles, but only of statements that exist. */
  ghost predicate NothingDropped(w: World, w': World) {
    && HandlesKept(w, w')
    && (forall h | h in w.prepared ::
          w.prepared[h].statement in w.statements <==> w.prepared[h].statement in w'.statements)
    && (forall h | h in w'.prepared && h !in w.prepared :: w'.prepared[h].statement in w'.statements)
  }

  lemma LogKept(w: World, w': World, finalizes: set<Finalize>)
    requires LogInv(w, finalizes) && NothingDropped(w, w')
    ensures LogInv(w', finalizes)
  {
    forall f | f in finalizes
      ensures FinalizeInv(w', f)
    {
      assert FinalizeInv(w, f);
    }
  }

  /** What a drop logs: a live handle of this statement, on its owner's connection. */
  lemma HeldFinalize(w: World, t: Thread, s: StatementId, h: Handle)
    requires WorldInv(w) && s in w.statements && h in w.statements[s].local.Values
    ensures var f := FinalizeBy(w, t, s, h);
            && h in w.prepared && w.prepared[h].statement == s
            && f == Finalize(t, h, true, Some(w.prepared[h].thread), w.statements[s].dbPath,
                             Some((w.prepared[h].thread, w.statements[s].dbPath)))
            && w.prepared[h].thread in w.statements[s].local && w.statements[s].local[w.prepared[h].thread] == h
  {
    hide WorldInv;
    var u :| u in w.statements[s].local && w.statements[s].local[u] == h;
    SlotOnOwnConnection(w, s, u);
  }

  lemma DropLogs(m: Machine, w: World, t: Thread, s: StatementId)
    requires WorldInv(w) && LogInv(w, m.finalizes) && s in w.statements
    ensures LogInv(DropBy(m, w, t, s).w, DropBy(m, w, t, s).finalizes)
  {
    hide WorldInv, FinalizeBy;
    var m', held := DropBy(m, w, t, s), w.statements[s].local.Values;
    forall f | f in m'.finalizes
      ensures FinalizeInv(m'.w, f)
      ensures f in m.finalizes ==> w.prepared[f.handle].statement !in w.statements
      ensures f !in m.finalizes ==>
                f.handle in held && f == FinalizeBy(w, t, s, f.handle) && w.prepared[f.handle].statement == s
    {
      if f in m.finalizes {
        assert FinalizeInv(w, f);
      } else {
        var h :| h in held && f == FinalizeBy(w, t, s, h);
        HeldFinalize(w, t, s, h);
      }
    }
    forall h | h in m'.w.prepared && m'.w.prepared[h].statement !in m'.w.statements
      ensures exists f | f in m'.finalizes :: f.handle == h
    {
      if w.prepared[h].statement == s {
        WorldHandles(w);
        HeldExactlyIfOwn(w, s, h);
        HeldFinalize(w, t, s, h);
        assert FinalizeBy(w, t, s, h) in m'.finalizes;
      } else {
        var f :| f in m.finalizes && f.handle == h;
      }
    }
  }

  lemma WorldHandles(w: World)
    requires WorldInv(w)
    ensures HandleInv(w)
  {
  }

  /** Dropping changes no other statement, and threads that move on to `Idle` create nothing. */
  lemma DropKeepsOwn(m: Machine, w: World, t: Thread, s: StatementId, pcs': map<Thread, Pc>)
    requires OwnWhileCreating(w, pcs') && s in w.statements
    ensures OwnWhileCreating(DropBy(m, w, t, s).w, pcs')
  {
  }

  lemma DropStep(m: Machine, w: World, t: Thread, s: StatementId, pcs': map<Thread, Pc>)
    requires WorldInv(w) && LogInv(w, m.finalizes) && OwnWhileCreating(w, pcs') && s in w.statements
    ensures DropInv(DropBy(m, w, t, s).(pcs := pcs'))
  {
    hide WorldInv, LogInv, OwnWhileCreating;
    DropLogs(m, w, t, s);
    DropKeepsOwn(m, w, t, s, pcs');
  }

  lemma IdleOwnsNothing(w: World, pcs: map<Thread, Pc>, t: Thread, pc: Pc)
    requires OwnWhileCreating(w, pcs) && t in pcs
    requires forall s :: Creating(pc, s) ==> Creating(pcs[t], s)
    ensures OwnWhileCreating(w, pcs[t := pc])
  {
  }

  lemma FailKeepsDropInv(m: Machine, w: World, t: Thread)
    requires WorldInv(w) && LogInv(w, m.finalizes) && OwnWhileCreating(w, m.pcs)
    requires t in m.pcs && (m.pcs[t].Connecting? || m.pcs[t].Preparing?) && m.pcs[t].statement in w.statements
    ensures DropInv(Fail(m, w, t))
  {
    hide WorldInv, LogInv, OwnWhileCreating;
    var pc := m.pcs[t];
    IdleOwnsNothing(w, m.pcs, t, if pc.creating then Idle else Panicked);
    if pc.creating {
      DropStep(m, w, t, pc.statement, m.pcs[t := Idle]);
    }
  }

  lemma CreateKeepsDropInv(m: Machine, a: Action)
    requires DropInv(m) && Enabled(m, a) && a.Create?
    ensures DropInv(Next(m, a))
  {
    LogKept(m.w, Next(m, a).w, m.finalizes);
  }

  lemma GetConnectionKeepsDropInv(m: Machine, a: Action)
    requires MachineInv(m) && DropInv(m) && Enabled(m, a) && a.GetConnection?
    ensures DropInv(Next(m, a))
  {
    hide WorldInv, LogInv, OwnWhileCreating;
    var pc := m.pcs[a.t];
    assert PcInv(m.w, a.t, pc);
    var (w', r) := Connect(m.w, a.t, m.w.statements[pc.statement].dbPath, a.open);
    ConnectKeepsInv(m.w, a.t, m.w.statements[pc.statement].dbPath, a.open);
    LogKept(m.w, w', m.finalizes);
    SameStatementsOwn(m.w, w', m.pcs);
    if r.Ok? {
      IdleOwnsNothing(w', m.pcs, a.t, Preparing(pc.statement, pc.creating, r.value));
    } else {
      FailKeepsDropInv(m, w', a.t);
    }
  }

  lemma SameStatementsOwn(w: World, w': World, pcs: map<Thread, Pc>)
    requires OwnWhileCreating(w, pcs) && w'.statements == w.statements
    ensures OwnWhileCreating(w', pcs)
  {
  }

  lemma PreparedLog(
    w: World, t: Thread, s: StatementId, c: Connection, prepare: Result<Handle, int>, finalizes: set<Finalize>)
    requires s in w.statements && LogInv(w, finalizes) && (prepare.Ok? ==> prepare.value !in w.prepared)
    ensures LogInv(PrepareLocal(w, t, s, c, prepare).0, finalizes)
  {
    LogKept(w, PrepareLocal(w, t, s, c, prepare).0, finalizes);
  }

  lemma PreparedOwn(m: Machine, t: Thread, s: StatementId, c: Connection, prepare: Result<Handle, int>)
    requires Private(m.pcs) && OwnWhileCreating(m.w, m.pcs)
    requires t in m.pcs && Mentions(m.pcs[t], s) && s in m.w.statements
    ensures OwnWhileCreating(PrepareLocal(m.w, t, s, c, prepare).0, m.pcs)
  {
  }

  lemma GetHandleKeepsDropInv(m: Machine, a: Action)
    requires MachineInv(m) && DropInv(m) && Enabled(m, a) && a.GetHandle?
    ensures DropInv(Next(m, a))
  {
    hide WorldInv, LogInv, OwnWhileCreating;
    var pc := m.pcs[a.t];
    assert PcInv(m.w, a.t, pc);
    var (w', r) := PrepareLocal(m.w, a.t, pc.statement, pc.connection, a.prepare);
    PrepareKeepsInv(m.w, a.t, pc.statement, pc.connection, a.prepare);
    PreparedLog(m.w, a.t, pc.statement, pc.connection, a.prepare, m.finalizes);
    PreparedOwn(m, a.t, pc.statement, pc.connection, a.prepare);
    if r.Ok? {
      IdleOwnsNothing(w', m.pcs, a.t, Using(pc.statement, pc.creating, r.value));
    } else {
      FailKeepsDropInv(m, w', a.t);
    }
  }

  lemma NextKeepsDropInv(m: Machine, a: Action)
    requires MachineInv(m) && DropInv(m) && Enabled(m, a)
    ensures DropInv(Next(m, a))
  {
    hide WorldInv, LogInv, OwnWhileCreating;
    match a {
      case Create(_, _, _, _) => CreateKeepsDropInv(m, a);
      case Enter(t, s) => IdleOwnsNothing(m.w, m.pcs, t, Connecting(s, false));
      case GetConnection(_, _) => GetConnectionKeepsDropInv(m, a);
      case GetHandle(_, _) => GetHandleKeepsDropInv(m, a);
      case UseHandle(t) => IdleOwnsNothing(m.w, m.pcs, t, Dangling);
      case Return(t) => IdleOwnsNothing(m.w, m.pcs, t, Idle);
      case BoxFails(t) =>
        assert PcInv(m.w, t, m.pcs[t]);
        IdleOwnsNothing(m.w, m.pcs, t, Idle);
        DropStep(m, m.w, t, m.pcs[t].statement, m.pcs[t := Idle]);
      case DropStatement(t, s) => DropStep(m, m.w, t, s, m.pcs);
    }
  }

  // ---------------------------------------------------------------------------------------------
  // Runs
  // ---------------------------------------------------------------------------------------------

  lemma {:induction false} RunKeepsDropInv(ms: seq<Machine>, actions: seq<Action>, i: nat)
    requires Run(ms, actions) && i < |ms|
    ensures MachineInv(ms[i]) && DropInv(ms[i])
    decreases i
  {
    hide MachineInv, DropInv, Enabled, Next;
    RunSafe(ms, actions, i);
    if i == 0 {
      NothingLogged(ms[0]);
    } else {
      RunKeepsDropInv(ms, actions, i - 1);
      assert Step(ms[i - 1], actions[i - 1], ms[i]);
      NextKeepsDropInv(ms[i - 1], actions[i - 1]);
    }
  }

  lemma NothingLogged(m: Machine)
    requires Initial(m)
    ensures DropInv(m)
  {
  }

  /**
   * Over every interleaving each handle of a dropped statement has been finalized by exactly one
   * call of `sqlite3_finalize`, while it was live, on the connection of the thread that prepared it.
   */
  lemma FinalizesLogged(ms: seq<Machine>, actions: seq<Action>)
    requires Run(ms, actions)
    ensures LogInv(ms[|actions|].w, ms[|actions|].finalizes)
  {
    hide MachineInv, LogInv, OwnWhileCreating;
    RunKeepsDropInv(ms, actions, |actions|);
  }

  /** The finalizes of one step. */
  function NewFinalizes(m: Machine, m': Machine): set<Finalize> {
    m'.finalizes - m.finalizes
  }

  lemma DropFinalizes(m: Machine, w: World, t: Thread, s: StatementId, u: Thread)
    requires WorldInv(w) && LogInv(w, m.finalizes) && s in w.statements && u in w.statements[s].local
    ensures var f := Finalize(t, w.statements[s].local[u], true, Some(u), w.statements[s].dbPath,
                              Some((u, w.statements[s].dbPath)));
            f in NewFinalizes(m, DropBy(m, w, t, s))
  {
    hide WorldInv;
    var h := w.statements[s].local[u];
    HeldFinalize(w, t, s, h);
    SlotOnOwnConnection(w, s, u);
    assert FinalizeBy(w, t, s, h) in m.finalizes ==> FinalizeInv(w, FinalizeBy(w, t, s, h));
  }

  /**
   * The single-thread promise and the drop, exactly: at every point of every run, the thread that
   * drops a statement finalizes only its own handles if and only if no other thread has one.
   */
  lemma DropFinalizesOwnExactly(ms: seq<Machine>, actions: seq<Action>, i: nat)
    requires Run(ms, actions) && i < |actions| && actions[i].DropStatement?
    ensures var t, s := actions[i].t, actions[i].s;
            && s in ms[i].w.statements
            && ((forall f | f in NewFinalizes(ms[i], ms[i + 1]) :: f.dropper == t && f.owner == Some(t))
                <==> ms[i].w.statements[s].local.Keys <= {t})
  {
    hide MachineInv, WorldInv, LogInv, OwnWhileCreating;
    RunKeepsDropInv(ms, actions, i);
    var t, s, m := actions[i].t, actions[i].s, ms[i];
    assert Step(m, actions[i], ms[i + 1]);
    assert WorldInv(m.w) by { MachineWorld(m); }
    assert ms[i + 1] == DropBy(m, m.w, t, s);
    DropOwnExactly(m, m.w, t, s);
  }

  lemma DropOwnExactly(m: Machine, w: World, t: Thread, s: StatementId)
    requires WorldInv(w) && LogInv(w, m.finalizes) && s in w.statements
    ensures (forall f | f in NewFinalizes(m, DropBy(m, w, t, s)) :: f.dropper == t && f.owner == Some(t))
       <==> w.statements[s].local.Keys <= {t}
  {
    hide WorldInv, LogInv, FinalizeBy;
    var local := w.statements[s].local;
    forall u | u in local
      ensures exists f | f in NewFinalizes(m, DropBy(m, w, t, s)) :: f.owner == Some(u)
    {
      DropFinalizes(m, w, t, s, u);
    }
    forall f | f in NewFinalizes(m, DropBy(m, w, t, s))
      ensures f.dropper == t && f.owner.Some? && f.owner.value in local
    {
      var h :| h in local.Values && f == FinalizeBy(w, t, s, h);
      HeldFinalize(w, t, s, h);
    }
  }

  /** Each of these finalizes is of a handle of the dropping thread itself. */
  ghost predicate OwnOnly(fs: set<Finalize>) {
    forall f | f in fs :: f.owner == Some(f.dropper)
  }

  lemma FailFinalizesOwn(m: Machine, w: World, t: Thread)
    requires WorldInv(w) && LogInv(w, m.finalizes) && OwnWhileCreating(w, m.pcs)
    requires t in m.pcs && (m.pcs[t].Connecting? || m.pcs[t].Preparing?) && m.pcs[t].statement in w.statements
    ensures OwnOnly(NewFinalizes(m, Fail(m, w, t)))
  {
    hide WorldInv, LogInv;
    var pc := m.pcs[t];
    if pc.creating {
      assert Creating(pc, pc.statement);
      DropOwnExactly(m, w, t, pc.statement);
    }
  }

  lemma GetConnectionFinalizesOwn(m: Machine, a: Action)
    requires MachineInv(m) && DropInv(m) && Enabled(m, a) && a.GetConnection?
    ensures OwnOnly(NewFinalizes(m, Next(m, a)))
  {
    hide WorldInv, LogInv, OwnWhileCreating;
    var pc := m.pcs[a.t];
    assert PcInv(m.w, a.t, pc);
    var (w', r) := Connect(m.w, a.t, m.w.statements[pc.statement].dbPath, a.open);
    ConnectKeepsInv(m.w, a.t, m.w.statements[pc.statement].dbPath, a.open);
    LogKept(m.w, w', m.finalizes);
    SameStatementsOwn(m.w, w', m.pcs);
    if r.Err? {
      FailFinalizesOwn(m, w', a.t);
    }
  }

  lemma GetHandleFinalizesOwn(m: Machine, a: Action)
    requires MachineInv(m) && DropInv(m) && Enabled(m, a) && a.GetHandle?
    ensures OwnOnly(NewFinalizes(m, Next(m, a)))
  {
    hide WorldInv, LogInv, OwnWhileCreating;
    var pc := m.pcs[a.t];
    assert PcInv(m.w, a.t, pc);
    var (w', r) := PrepareLocal(m.w, a.t, pc.statement, pc.connection, a.prepare);
    PrepareKeepsInv(m.w, a.t, pc.statement, pc.connection, a.prepare);
    PreparedLog(m.w, a.t, pc.statement, pc.connection, a.prepare, m.finalizes);
    PreparedOwn(m, a.t, pc.statement, pc.connection, a.prepare);
    if r.Err? {
      FailFinalizesOwn(m, w', a.t);
    }
  }

  lemma BoxFailsFinalizesOwn(m: Machine, a: Action)
    requires MachineInv(m) && DropInv(m) && Enabled(m, a) && a.BoxFails?
    ensures OwnOnly(NewFinalizes(m, Next(m, a)))
  {
    hide WorldInv, LogInv;
    var s := m.pcs[a.t].statement;
    assert PcInv(m.w, a.t, m.pcs[a.t]) && Creating(m.pcs[a.t], s);
    DropOwnExactly(m, m.w, a.t, s);
  }

  /** A `prepare` that fails after all cleans up on its own thread only, in every run. */
  lemma FailedPrepareFinalizesOwn(ms: seq<Machine>, actions: seq<Action>, i: nat)
    requires Run(ms, actions) && i < |actions| && !actions[i].DropStatement?
    ensures OwnOnly(NewFinalizes(ms[i], ms[i + 1]))
  {
    hide MachineInv, DropInv, Enabled, OwnOnly;
    RunKeepsDropInv(ms, actions, i);
    assert Step(ms[i], actions[i], ms[i + 1]);
    NextFinalizesOwn(ms[i], actions[i]);
  }

  lemma NextFinalizesOwn(m: Machine, a: Action)
    requires MachineInv(m) && DropInv(m) && Enabled(m, a) && !a.DropStatement?
    ensures OwnOnly(NewFinalizes(m, Next(m, a)))
  {
    hide MachineInv, DropInv;
    match a {
      case GetConnection(_, _) => GetConnectionFinalizesOwn(m, a);
      case GetHandle(_, _) => GetHandleFinalizesOwn(m, a);
      case BoxFails(_) => BoxFailsFinalizesOwn(m, a);
      case _ =>
    }
  }

  // ---------------------------------------------------------------------------------------------
  // The promise does not hold
  // ---------------------------------------------------------------------------------------------

  lemma SecondThreadGetsConnection(m: Machine)
    requires m.pcs == map[0 := Idle, 1 := Connecting(0, false)] && m.finalizes == {}
    requires m.w == World(map[0 := [Entry("a.db", 7)]], map[0 := Statement("a.db", "SELECT 1", map[0 := 9])],
                          map[7 := (0, "a.db")], map[9 := Prepared(0, 0, 7, "SELECT 1", 0)])
    ensures Enabled(m, GetConnection(1, Ok(8)))
    ensures var m' := Next(m, GetConnection(1, Ok(8)));
            m'.pcs == map[0 := Idle, 1 := Preparing(0, false, 8)] && m'.finalizes == {} && ConnectedWorld(m'.w)
  {
    hide Fail, DropBy, FinalizeBy;
    var m' := Next(m, GetConnection(1, Ok(8)));
    assert m'.pcs[1] == Preparing(0, false, 8);
  }

  /** After thread 0 has prepared statement 0, thread 1 calls `bind`, say: it gets connection 8. */
  lemma SecondThreadConnects(m0: Machine) returns (ms: seq<Machine>, actions: seq<Action>)
    requires m0.pcs == map[0 := Idle, 1 := Idle] && m0.finalizes == {}
    requires m0.w == World(map[0 := [Entry("a.db", 7)]], map[0 := Statement("a.db", "SELECT 1", map[0 := 9])],
                           map[7 := (0, "a.db")], map[9 := Prepared(0, 0, 7, "SELECT 1", 0)])
    ensures Chain(ms, actions) && ms[0] == m0
    ensures var m := ms[|actions|];
            m.pcs == map[0 := Idle, 1 := Preparing(0, false, 8)] && m.finalizes == {} && ConnectedWorld(m.w)
  {
    var enter, get := Enter(1, 0), GetConnection(1, Ok(8));
    var m1 := Next(m0, enter);
    SecondThreadGetsConnection(m1);
    hide Fail, DropBy, FinalizeBy, Next, Enabled, ConnectedWorld;
    ms, actions := [m0, m1, Next(m1, get)], [enter, get];
    assert Step(m0, enter, m1) && Step(m1, get, ms[2]);
  }

  ghost predicate ConnectedWorld(w: World) {
    && w.statements == map[0 := Statement("a.db", "SELECT 1", map[0 := 9])]
    && Cached(w, 1, "a.db") == Some(8) && 8 in w.opens && w.opens[8] == (1, "a.db")
    && w.prepared == map[9 := Prepared(0, 0, 7, "SELECT 1", 0)]
  }

  /** Thread 1 gets handle 10 and returns. */
  lemma SecondThreadPrepares(m0: Machine) returns (ms: seq<Machine>, actions: seq<Action>)
    requires m0.pcs == map[0 := Idle, 1 := Preparing(0, false, 8)] && m0.finalizes == {} && ConnectedWorld(m0.w)
    ensures Chain(ms, actions) && ms[0] == m0
    ensures var m := ms[|actions|]; m.pcs == map[0 := Idle, 1 := Idle] && m.finalizes == {} && JoinedWorld(m.w)
  {
    hide Fail, DropBy, FinalizeBy, Lookup;
    actions := [GetHandle(1, Ok(10)), Return(1)];
    var m1 := Next(m0, actions[0]);
    assert m1.pcs[1] == Using(0, false, 10);
    assert Cached(m1.w, 1, "a.db") == Cached(m0.w, 1, "a.db");
    var m2 := Next(m1, actions[1]);
    ms := [m0, m1, m2];
  }

  ghost predicate JoinedWorld(w: World) {
    && w.statements == map[0 := Statement("a.db", "SELECT 1", map[0 := 9, 1 := 10])]
    && Cached(w, 1, "a.db") == Some(8) && 8 in w.opens && w.opens[8] == (1, "a.db")
    && w.prepared == map[9 := Prepared(0, 0, 7, "SELECT 1", 0), 10 := Prepared(0, 1, 8, "SELECT 1", 0)]
  }

  /** Thread 1 starts to prepare a statement of its own, on the connection it has. */
  lemma SecondThreadCreates(m0: Machine) returns (ms: seq<Machine>, actions: seq<Action>)
    requires m0.pcs == map[0 := Idle, 1 := Idle] && m0.finalizes == {} && JoinedWorld(m0.w)
    ensures Chain(ms, actions) && ms[0] == m0
    ensures var m := ms[|actions|];
            && m.pcs == map[0 := Idle, 1 := Preparing(1, true, 8)] && m.finalizes == {}
            && m.w == m0.w.(statements := m0.w.statements[1 := Statement("a.db", "SELECT 2", map[])])
  {
    hide Fail, DropBy, FinalizeBy, Lookup;
    actions := [Create(1, 1, "a.db", "SELECT 2"), GetConnection(1, Err(14))];
    var m1 := Next(m0, actions[0]);
    assert Cached(m1.w, 1, "a.db") == Cached(m0.w, 1, "a.db");
    var m2 := Next(m1, actions[1]);
    assert m2.pcs[1] == Preparing(1, true, 8);
    ms := [m0, m1, m2];
  }

  /** It gets handle 11. */
  lemma SecondThreadUses(m0: Machine, w: World) returns (ms: seq<Machine>, actions: seq<Action>)
    requires m0.pcs == map[0 := Idle, 1 := Preparing(1, true, 8)] && m0.finalizes == {} && JoinedWorld(w)
    requires m0.w == w.(statements := w.statements[1 := Statement("a.db", "SELECT 2", map[])])
    ensures Chain(ms, actions) && ms[0] == m0 && BothOnOneConnection(ms[|actions|])
  {
    hide Fail, DropBy, FinalizeBy, Lookup;
    actions := [GetHandle(1, Ok(11))];
    var m1 := Next(m0, actions[0]);
    ms := [m0, m1];
  }

  /** Thread 1 is using connection 8 for handle 11, and statement 0 has its handle 10 on it as well. */
  ghost predicate BothOnOneConnection(m: Machine) {
    && m.pcs == map[0 := Idle, 1 := Using(1, true, 11)]
    && 0 in m.w.statements && m.w.statements[0] == Statement("a.db", "SELECT 1", map[0 := 9, 1 := 10])
    && 10 in m.w.prepared && m.w.prepared[10] == Prepared(0, 1, 8, "SELECT 1", 0)
    && 11 in m.w.prepared && m.w.prepared[11].connection == 8
    && 8 in m.w.opens && m.w.opens[8] == (1, "a.db")
  }

  /** Thread 0 drops statement 0. */
  lemma FirstThreadDrops(m0: Machine) returns (ms: seq<Machine>, actions: seq<Action>)
    requires BothOnOneConnection(m0)
    ensures Chain(ms, actions) && ms[0] == m0 && FinalizedElsewhere(ms[|actions|])
  {
    hide Fail, Lookup;
    actions := [DropStatement(0, 0)];
    var m1 := Next(m0, actions[0]);
    assert 10 in m0.w.statements[0].local.Values by { assert m0.w.statements[0].local[1] == 10; }
    assert FinalizeBy(m0.w, 0, 0, 10) in m1.finalizes;
    ms := [m0, m1];
  }

  /** Thread 0 has finalized thread 1's handle 10 on connection 8, while thread 1 is using 8 for handle 11. */
  ghost predicate FinalizedElsewhere(m: Machine) {
    && Finalize(0, 10, true, Some(1), "a.db", Some((1, "a.db"))) in m.finalizes
    && 1 in m.pcs && m.pcs[1] == Using(1, true, 11)
    && 10 in m.w.prepared && 11 in m.w.prepared
    && m.w.prepared[10].connection == m.w.prepared[11].connection == 8
  }

  /** The single-thread promise fails: a run that ends in the state above. */
  lemma SingleThreadPromiseFails() returns (ms: seq<Machine>, actions: seq<Action>)
    ensures Run(ms, actions) && FinalizedElsewhere(ms[|actions|])
  {
    hide Next, Enabled, FinalizedElsewhere, Step, JoinedWorld, ConnectedWorld, BothOnOneConnection;
    var m0 := Machine(EMPTY_WORLD, map[0 := Idle, 1 := Idle], [], {});
    actions := [Create(0, 0, "a.db", "SELECT 1"), GetConnection(0, Ok(7)), GetHandle(0, Ok(9)), Return(0)];
    ms := FirstThreadPrepares(m0, actions);
    var next, more := SecondThreadConnects(ms[4]);
    ms, actions := Chained(ms, actions, next, more);
    next, more := SecondThreadPrepares(ms[|actions|]);
    ms, actions := Chained(ms, actions, next, more);
    var w := ms[|actions|].w;
    next, more := SecondThreadCreates(ms[|actions|]);
    ms, actions := Chained(ms, actions, next, more);
    next, more := SecondThreadUses(ms[|actions|], w);
    ms, actions := Chained(ms, actions, next, more);
    next, more := FirstThreadDrops(ms[|actions|]);
    ms, actions := Chained(ms, actions, next, more);
  }

  lemma MachineWorld(m: Machine)
    requires MachineInv(m)
    ensures WorldInv(m.w)
  {
    hide WorldInv;
  }
}
