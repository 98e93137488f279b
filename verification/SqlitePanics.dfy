/**
 * Which calls can fail.  Every call but `prepare` expects `thread_local_prepare` to succeed, since
 * some thread has prepared the statement before (crates/roc_sqlite/src/lib.rs:145-146).
 *
 * Within a call a thread cannot see the others: its place in the call, its own slot and its own
 * connection after any interleaving are what its own accesses alone make of them.
 */
module SqlitePanics {
  import opened Wrappers
  import opened Sqlite
  import opened SqliteThreads

  /** What one thread sees of one statement: where it is, its own slot, its own cached connection. */
  datatype View =
    | View(pc: Pc, slot: Option<Handle>, connection: Option<Connection>)
    | Gone(pc: Pc)

  function ViewOf(m: Machine, t: Thread, s: StatementId): View
    requires t in m.pcs
  {
    if s !in m.w.statements then Gone(m.pcs[t])
    else
      var statement := m.w.statements[s];
      View(m.pcs[t],
           if t in statement.local then Some(statement.local[t]) else None,
           Cached(m.w, t, statement.dbPath))
  }

  /** Thread `t` is in a call on statement `s`. */
  predicate InCall(m: Machine, t: Thread, s: StatementId) {
    t in m.pcs && Mentions(m.pcs[t], s)
  }

  /** A failing `prepare` reports it and takes its statement with it, every other call panics. */
  function Refusal(v: View): View
    requires v.View? && (v.pc.Connecting? || v.pc.Preparing?)
  {
    if v.pc.creating then Gone(Idle) else v.(pc := Panicked)
  }

  /** The effect of one of the thread's own accesses, were it alone. */
  function Alone(v: View, a: Action): View {
    if v.Gone? then v
    else
      match (v.pc, a)
      case (Connecting(s, creating), GetConnection(_, open)) =>
        if v.connection.Some? then v.(pc := Preparing(s, creating, v.connection.value))
        else if open.Ok? then v.(pc := Preparing(s, creating, open.value), connection := Some(open.value))
        else Refusal(v)
      case (Preparing(s, creating, _), GetHandle(_, prepare)) =>
        if v.slot.Some? then v.(pc := Using(s, creating, v.slot.value))
        else if prepare.Ok? then v.(pc := Using(s, creating, prepare.value), slot := Some(prepare.value))
        else Refusal(v)
      case (Using(_, _, _), Return(_)) => v.(pc := Idle)
      case (Using(_, _, _), BoxFails(_)) => Gone(Idle)
      case _ => v
  }

  function AloneAll(v: View, actions: seq<Action>): View
    decreases |actions|
  {
    if actions == [] then v else AloneAll(Alone(v, actions[0]), actions[1..])
  }

  /** The actions of thread `t`. */
  function Own(actions: seq<Action>, t: Thread): seq<Action> {
    if actions == [] then []
    else (if actions[0].t == t then [actions[0]] else []) + Own(actions[1..], t)
  }

  /** The accesses that a thread at `pc` within a call can make. */
  predicate Fits(pc: Pc, a: Action) {
    || (pc.Connecting? && a.GetConnection?)
    || (pc.Preparing? && a.GetHandle?)
    || (pc.Using? && (a.UseHandle? || a.Return? || (a.BoxFails? && pc.creating)))
  }

  predicate FitAll(v: View, actions: seq<Action>)
    decreases |actions|
  {
    actions == [] || (Fits(v.pc, actions[0]) && FitAll(Alone(v, actions[0]), actions[1..]))
  }

  // ---------------------------------------------------------------------------------------------
  // Non-interference
  // ---------------------------------------------------------------------------------------------

  lemma OwnStep(m: Machine, a: Action, t: Thread, s: StatementId)
    requires MachineInv(m) && Enabled(m, a) && InCall(m, t, s) && a.t == t
    ensures s in m.w.statements && t in Next(m, a).pcs
    ensures Fits(ViewOf(m, t, s).pc, a)
    ensures ViewOf(Next(m, a), t, s) == Alone(ViewOf(m, t, s), a)
  {
    hide WorldInv, UseInv, Private, Lookup;
    assert PcInv(m.w, t, m.pcs[t]);
    if a.GetConnection? {
      var path := m.w.statements[s].dbPath;
      ConnectKeepsCache(m.w, t, path, a.open, t, path);
    }
  }

  /** What a step may do to one thread's view of the shared world: nothing. */
  ghost predicate Unseen(w: World, w': World, t: Thread, s: StatementId)
    requires s in w.statements
  {
    && s in w'.statements
    && w'.statements[s].dbPath == w.statements[s].dbPath
    && (t in w'.statements[s].local <==> t in w.statements[s].local)
    && (t in w.statements[s].local ==> w'.statements[s].local[t] == w.statements[s].local[t])
    && Cached(w', t, w.statements[s].dbPath) == Cached(w, t, w.statements[s].dbPath)
  }

  lemma OthersConnect(w: World, u: Thread, path: Path, open: Result<Connection, int>, t: Thread, s: StatementId)
    requires s in w.statements && u != t
    ensures Unseen(w, Connect(w, u, path, open).0, t, s)
  {
    hide Lookup;
    ConnectKeepsCache(w, u, path, open, t, w.statements[s].dbPath);
  }

  lemma OthersFail(m: Machine, w: World, u: Thread, t: Thread, s: StatementId)
    requires Private(m.pcs) && s in w.statements && t in m.pcs && Mentions(m.pcs[t], s) && u in m.pcs && u != t
    requires (m.pcs[u].Connecting? || m.pcs[u].Preparing?) && m.pcs[u].statement in w.statements
    ensures t in Fail(m, w, u).pcs && Fail(m, w, u).pcs[t] == m.pcs[t] && Unseen(w, Fail(m, w, u).w, t, s)
  {
    hide Lookup, FinalizeBy;
    assert !Creating(m.pcs[u], s);
  }

  lemma OthersGetConnection(m: Machine, a: Action, t: Thread, s: StatementId)
    requires MachineInv(m) && Enabled(m, a) && InCall(m, t, s) && s in m.w.statements && a.t != t && a.GetConnection?
    ensures t in Next(m, a).pcs && Next(m, a).pcs[t] == m.pcs[t] && Unseen(m.w, Next(m, a).w, t, s)
  {
    hide WorldInv, UseInv, Lookup, FinalizeBy, Fail, Connect, Unseen;
    var pc := m.pcs[a.t];
    assert PcInv(m.w, a.t, pc);
    var path := m.w.statements[pc.statement].dbPath;
    var (w', r) := Connect(m.w, a.t, path, a.open);
    OthersConnect(m.w, a.t, path, a.open, t, s);
    SameStatements(m.w, a.t, path, a.open);
    if r.Err? {
      OthersFail(m, w', a.t, t, s);
      UnseenTwice(m.w, w', Fail(m, w', a.t).w, t, s);
    }
  }

  lemma SameStatements(w: World, u: Thread, path: Path, open: Result<Connection, int>)
    ensures Connect(w, u, path, open).0.statements == w.statements
  {
  }

  lemma UnseenTwice(w: World, w1: World, w': World, t: Thread, s: StatementId)
    requires s in w.statements && Unseen(w, w1, t, s) && Unseen(w1, w', t, s)
    ensures Unseen(w, w', t, s)
  {
    hide Cached;
  }

  lemma OthersGetHandle(m: Machine, a: Action, t: Thread, s: StatementId)
    requires MachineInv(m) && Enabled(m, a) && InCall(m, t, s) && s in m.w.statements && a.t != t && a.GetHandle?
    ensures t in Next(m, a).pcs && Next(m, a).pcs[t] == m.pcs[t] && Unseen(m.w, Next(m, a).w, t, s)
  {
    hide WorldInv, UseInv, Lookup, FinalizeBy, Fail, PrepareLocal, Unseen;
    var pc := m.pcs[a.t];
    assert PcInv(m.w, a.t, pc);
    var (w', r) := PrepareLocal(m.w, a.t, pc.statement, pc.connection, a.prepare);
    OthersPrepare(m.w, a.t, pc.statement, pc.connection, a.prepare, t, s);
    if r.Err? {
      OthersFail(m, w', a.t, t, s);
      UnseenTwice(m.w, w', Fail(m, w', a.t).w, t, s);
    }
  }

  lemma OthersPrepare(
    w: World, u: Thread, s': StatementId, c: Connection, prepare: Result<Handle, int>, t: Thread, s: StatementId)
    requires s in w.statements && s' in w.statements && u != t
    ensures Unseen(w, PrepareLocal(w, u, s', c, prepare).0, t, s)
    ensures s in PrepareLocal(w, u, s', c, prepare).0.statements
    ensures s' in PrepareLocal(w, u, s', c, prepare).0.statements
  {
    hide Lookup;
  }

  lemma OthersStep(m: Machine, a: Action, t: Thread, s: StatementId)
    requires MachineInv(m) && Enabled(m, a) && InCall(m, t, s) && a.t != t
    ensures s in m.w.statements && s in Next(m, a).w.statements && t in Next(m, a).pcs
    ensures ViewOf(Next(m, a), t, s) == ViewOf(m, t, s)
  {
    assert PcInv(m.w, t, m.pcs[t]);
    OthersUnseen(m, a, t, s);
    hide Next, Enabled, MachineInv, Cached;
  }

  lemma OthersUnseen(m: Machine, a: Action, t: Thread, s: StatementId)
    requires MachineInv(m) && Enabled(m, a) && InCall(m, t, s) && s in m.w.statements && a.t != t
    ensures t in Next(m, a).pcs && Next(m, a).pcs[t] == m.pcs[t] && Unseen(m.w, Next(m, a).w, t, s)
  {
    hide WorldInv, UseInv, Lookup, FinalizeBy;
    match a {
      case GetConnection(_, _) => OthersGetConnection(m, a, t, s);
      case GetHandle(_, _) => OthersGetHandle(m, a, t, s);
      case BoxFails(u) =>
        assert !Creating(m.pcs[u], s);
      case _ =>
    }
  }

  /** A stretch of an interleaving in which thread `t` is in one call on `s`, up to its last machine. */
  ghost predicate CallChain(ms: seq<Machine>, actions: seq<Action>, t: Thread, s: StatementId) {
    Chain(ms, actions) && forall i | 0 <= i < |actions| :: InCall(ms[i], t, s)
  }

  /**
   * Non-interference: whatever the other threads do meanwhile, a thread's view after any stretch of
   * one call is what its own accesses, with SQLite's answers to them, make of its view before.
   */
  lemma {:induction false} CallSeesOnlyItself(ms: seq<Machine>, actions: seq<Action>, t: Thread, s: StatementId)
    requires CallChain(ms, actions, t, s) && MachineInv(ms[0]) && t in ms[0].pcs
    ensures t in ms[|actions|].pcs
    ensures ViewOf(ms[|actions|], t, s) == AloneAll(ViewOf(ms[0], t, s), Own(actions, t))
    ensures FitAll(ViewOf(ms[0], t, s), Own(actions, t))
  {
    hide MachineInv, Enabled, Next, Alone, ViewOf, InCall;
    if actions == [] {
    } else {
      var a, rest := actions[0], actions[1..];
      assert Step(ms[0], a, ms[1]);
      if a.t == t { OwnStep(ms[0], a, t, s); } else { OthersStep(ms[0], a, t, s); }
      NextKeepsInv(ms[0], a);
      forall i | 0 <= i < |rest|
        ensures Step(ms[1..][i], rest[i], ms[1..][i + 1]) && InCall(ms[1..][i], t, s)
      {
        assert Step(ms[i + 1], actions[i + 1], ms[i + 2]);
      }
      CallSeesOnlyItself(ms[1..], rest, t, s);
      if a.t == t {
        assert Own(actions, t) == [a] + Own(rest, t) && Own(actions, t)[1..] == Own(rest, t);
      } else {
        assert Own(actions, t) == Own(rest, t);
      }
    }
  }

  // ---------------------------------------------------------------------------------------------
  // Which calls can panic
  // ---------------------------------------------------------------------------------------------

  /** From `m` on, thread `t` stays in its call on `s` until it panics. */
  ghost predicate Panics(m: Machine, ms: seq<Machine>, actions: seq<Action>, t: Thread, s: StatementId) {
    && CallChain(ms, actions, t, s) && ms[0] == m
    && t in ms[|actions|].pcs && ms[|actions|].pcs[t] == Panicked
  }

  ghost predicate CanPanic(m: Machine, t: Thread, s: StatementId) {
    exists ms, actions :: Panics(m, ms, actions, t, s)
  }

  /** With its slot filled and its connection cached, no answer makes a thread panic. */
  lemma {:induction false} CachedCallIsSafe(v: View, actions: seq<Action>)
    requires v.View? ==> v.slot.Some? && v.connection.Some?
    requires v.pc != Panicked
    ensures AloneAll(v, actions).pc != Panicked
    decreases |actions|
  {
    if actions == [] {
    } else {
      CachedCallIsSafe(Alone(v, actions[0]), actions[1..]);
    }
  }

  /** SQLite has refused, if this action asked it for anything. */
  predicate Refused(a: Action) {
    (a.GetConnection? ==> a.open.Err?) && (a.GetHandle? ==> a.prepare.Err?)
  }

  /** How many more accesses a refused call makes before it fails: none for a cached connection. */
  function FailsAfter(v: View): nat {
    if v.View? && v.pc.Connecting? && v.connection.Some? then 2 else 1
  }

  lemma {:induction false} RefusedAlone(v: View, actions: seq<Action>)
    requires v.View? && v.slot.None? && (v.pc.Connecting? || v.pc.Preparing?)
    requires FitAll(v, actions) && forall a | a in actions :: Refused(a)
    ensures var v' := AloneAll(v, actions);
            && |actions| <= FailsAfter(v)
            && if |actions| < FailsAfter(v) then v'.pc.Connecting? || v'.pc.Preparing?
               else if v.pc.creating then v' == Gone(Idle) else v'.pc == Panicked
    decreases |actions|
  {
    if actions == [] {
    } else {
      assert Refused(actions[0]);
      if Alone(v, actions[0]).pc in {Panicked, Idle} {
        assert actions[1..] == [];
      } else {
        RefusedAlone(Alone(v, actions[0]), actions[1..]);
      }
    }
  }

  /**
   * A call by a thread that has no handle yet, refused by SQLite throughout: whatever the others do,
   * it has failed after its first access, or its second if it has the connection, and until then it
   * is still asking.  A call other than `prepare` fails by a panic; `prepare` is over, and its
   * statement is gone.
   */
  lemma RefusedCallFails(ms: seq<Machine>, actions: seq<Action>, t: Thread, s: StatementId, creating: bool)
    requires CallChain(ms, actions, t, s) && MachineInv(ms[0]) && t in ms[0].pcs && s in ms[0].w.statements
    requires ms[0].pcs[t] == Connecting(s, creating) && t !in ms[0].w.statements[s].local
    requires forall a | a in Own(actions, t) :: Refused(a)
    ensures t in ms[|actions|].pcs && |Own(actions, t)| <= FailsAfter(ViewOf(ms[0], t, s))
    ensures var m := ms[|actions|];
            if |Own(actions, t)| < FailsAfter(ViewOf(ms[0], t, s)) then m.pcs[t].Connecting? || m.pcs[t].Preparing?
            else if creating then m.pcs[t] == Idle && s !in m.w.statements
            else m.pcs[t] == Panicked
  {
    hide MachineInv, Step;
    CallSeesOnlyItself(ms, actions, t, s);
    RefusedAlone(ViewOf(ms[0], t, s), Own(actions, t));
  }

  /** SQLite has granted whatever this action asked it for. */
  predicate Granted(a: Action) {
    (a.GetConnection? ==> a.open.Ok?) && (a.GetHandle? ==> a.prepare.Ok?)
  }

  /** What is in hand after `n` granted accesses of a call. */
  ghost predicate GrantedView(v: View, n: nat) {
    && v.pc != Panicked && v.pc != Dangling
    && (n == 0 ==> v.View? && v.pc.Connecting?)
    && (n == 1 ==> v.View? && v.pc.Preparing? && v.connection == Some(v.pc.connection))
    && (n == 2 ==> v.View? && v.pc.Using? && v.slot == Some(v.pc.handle) && v.connection.Some?)
    && (v.pc.Connecting? || v.pc.Preparing? ==> n < 2)
  }

  lemma {:induction false} GrantedAlone(v: View, n: nat, actions: seq<Action>)
    requires GrantedView(v, n)
    requires FitAll(v, actions) && forall a | a in actions :: Granted(a)
    ensures GrantedView(AloneAll(v, actions), n + |actions|)
    decreases |actions|
  {
    if actions == [] {
    } else {
      assert Granted(actions[0]);
      GrantedAlone(Alone(v, actions[0]), n + 1, actions[1..]);
    }
  }

  /**
   * A call that SQLite refuses nothing, `prepare` or any other: whatever the others do, it never
   * fails by itself, has its connection after one access, and its own slot's handle after two.
   */
  lemma GrantedCallSucceeds(ms: seq<Machine>, actions: seq<Action>, t: Thread, s: StatementId)
    requires CallChain(ms, actions, t, s) && MachineInv(ms[0]) && InCall(ms[0], t, s) && ms[0].pcs[t].Connecting?
    requires forall a | a in Own(actions, t) :: Granted(a)
    ensures t in ms[|actions|].pcs && GrantedView(ViewOf(ms[|actions|], t, s), |Own(actions, t)|)
  {
    hide WorldInv, UseInv, Private, Step, GrantedView;
    assert PcInv(ms[0].w, t, ms[0].pcs[t]);
    CallSeesOnlyItself(ms, actions, t, s);
    AtEntry(ViewOf(ms[0], t, s));
    GrantedAlone(ViewOf(ms[0], t, s), 0, Own(actions, t));
  }

  lemma AtEntry(v: View)
    requires v.View? && v.pc.Connecting?
    ensures GrantedView(v, 0)
  {
  }

  /** The call of a thread without a handle, refused at once, with nobody else moving. */
  lemma RefusedAtOnce(m: Machine, t: Thread, s: StatementId) returns (ms: seq<Machine>, actions: seq<Action>)
    requires MachineInv(m) && t in m.pcs && m.pcs[t] == Connecting(s, false)
    requires s in m.w.statements && t !in m.w.statements[s].local
    ensures Panics(m, ms, actions, t, s)
  {
    hide MachineInv, Next, InCall;
    var open, prepare := GetConnection(t, Err(14)), GetHandle(t, Err(1));
    var m1 := Next(m, open);
    assert InCall(m, t, s) by { Entered(m, t, s); }
    OwnStep(m, open, t, s);
    NextKeepsInv(m, open);
    if m1.pcs[t] == Panicked {
      ms, actions := [m, m1], [open];
    } else {
      assert InCall(m1, t, s) by { Entered(m1, t, s); }
      var m2 := Next(m1, prepare);
      OwnStep(m1, prepare, t, s);
      hide Enabled;
      ms, actions := [m, m1, m2], [open, prepare];
      assert Step(m, open, m1) && Step(m1, prepare, m2);
    }
  }

  lemma Entered(m: Machine, t: Thread, s: StatementId)
    requires t in m.pcs && (m.pcs[t].Connecting? || m.pcs[t].Preparing?)
    requires m.pcs[t].statement == s && !m.pcs[t].creating
    ensures InCall(m, t, s)
  {
  }

  /**
   * At any point of any run at which a thread enters a call on a statement, SQLite's answers can
   * make that call panic, whatever the others do, if and only if the thread has no handle of the
   * statement yet; that another thread prepared the statement does not help.
   */
  lemma PanicsExactly(ms: seq<Machine>, actions: seq<Action>, i: nat, t: Thread, s: StatementId)
    requires Run(ms, actions) && i < |ms| && t in ms[i].pcs && ms[i].pcs[t] == Connecting(s, false)
    ensures s in ms[i].w.statements
    ensures CanPanic(ms[i], t, s) <==> t !in ms[i].w.statements[s].local
  {
    hide WorldInv, UseInv, Private, Next, Enabled;
    var m := ms[i];
    RunSafe(ms, actions, i);
    assert PcInv(m.w, t, m.pcs[t]);
    if t in m.w.statements[s].local {
      SlotOnOwnConnection(m.w, s, t);
      if CanPanic(m, t, s) {
        var ms', actions' :| Panics(m, ms', actions', t, s);
        CallSeesOnlyItself(ms', actions', t, s);
        CachedCallIsSafe(ViewOf(m, t, s), Own(actions', t));
        assert false;
      }
    } else {
      var ms', actions' := RefusedAtOnce(m, t, s);
    }
  }
}
