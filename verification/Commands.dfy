/**
 * The command builder (platform/Cmd.roc:14-89) and its lowering to a standard-library command
 * (crates/roc_command/src/lib.rs:38-61): a list of builder calls becomes a flat list of keys and
 * values, which the host reads two at a time.
 */
module Commands {
  import opened Sequences

  datatype Cmd = Cmd(args: seq<string>, clearEnvs: bool, envs: seq<string>, program: string)

  type Pairs = seq<(string, string)>

  function New(program: string): Cmd {
    Cmd([], false, [], program)
  }

  function Arg(cmd: Cmd, a: string): Cmd {
    cmd.(args := cmd.args + [a])
  }

  function Args(cmd: Cmd, newArgs: seq<string>): Cmd {
    cmd.(args := cmd.args + newArgs)
  }

  function Env(cmd: Cmd, key: string, value: string): Cmd {
    cmd.(envs := cmd.envs + [key, value])
  }

  /** The fold of `envs` over its pairs, from the left. */
  function Flat(acc: seq<string>, pairs: Pairs): seq<string>
    decreases |pairs|
  {
    if pairs == [] then acc else Flat(acc + [pairs[0].0, pairs[0].1], pairs[1..])
  }

  function Envs(cmd: Cmd, pairs: Pairs): Cmd {
    cmd.(envs := cmd.envs + Flat([], pairs))
  }

  function ClearEnvs(cmd: Cmd): Cmd {
    cmd.(clearEnvs := true)
  }

  datatype Call =
    | AddArg(a: string)
    | AddArgs(args: seq<string>)
    | AddEnv(key: string, value: string)
    | AddEnvs(pairs: Pairs)
    | Clear

  function Apply(cmd: Cmd, call: Call): Cmd {
    match call
    case AddArg(a) => Arg(cmd, a)
    case AddArgs(args) => Args(cmd, args)
    case AddEnv(key, value) => Env(cmd, key, value)
    case AddEnvs(pairs) => Envs(cmd, pairs)
    case Clear => ClearEnvs(cmd)
  }

  function ApplyAll(cmd: Cmd, calls: seq<Call>): Cmd
    decreases |calls|
  {
    if calls == [] then cmd else ApplyAll(Apply(cmd, calls[0]), calls[1..])
  }

  function CallPairs(call: Call): Pairs {
    match call
    case AddEnv(key, value) => [(key, value)]
    case AddEnvs(pairs) => pairs
    case _ => []
  }

  function CallArgs(call: Call): seq<string> {
    match call
    case AddArg(a) => [a]
    case AddArgs(args) => args
    case _ => []
  }

  /** What a user means by the calls: all pairs and all arguments, in order. */
  function PairsOf(calls: seq<Call>): Pairs {
    if calls == [] then [] else CallPairs(calls[0]) + PairsOf(calls[1..])
  }

  function ArgsOf(calls: seq<Call>): seq<string> {
    if calls == [] then [] else CallArgs(calls[0]) + ArgsOf(calls[1..])
  }

  // ---------------------------------------------------------------------------------------------
  // Lowering
  // ---------------------------------------------------------------------------------------------

  /** The complete chunks of two; an odd last element is dropped. */
  function Decode(envs: seq<string>): Pairs {
    if |envs| < 2 then [] else [(envs[0], envs[1])] + Decode(envs[2..])
  }

  /** Setting the variables one after the other. */
  function Overlay(vars: map<string, string>, pairs: Pairs): map<string, string>
    decreases |pairs|
  {
    if pairs == [] then vars else Overlay(vars[pairs[0].0 := pairs[0].1], pairs[1..])
  }

  /** `std::process::Command`, as far as its arguments and environment go. */
  class StdCommand {
    const program: string
    var args: seq<string>
    var cleared: bool
    var vars: map<string, string>

    constructor (program: string)
      ensures this.program == program && args == [] && !cleared && vars == map[]
    {
      this.program := program;
      args, cleared, vars := [], false, map[];
    }

    method AddArg(arg: string)
      modifies this`args
      ensures args == old(args) + [arg]
    {
      args := args + [arg];
    }

    /** `env_clear` forgets the parent's variables and all that were set before. */
    method EnvClear()
      modifies this`cleared, this`vars
      ensures cleared && vars == map[]
    {
      cleared, vars := true, map[];
    }

    method SetEnv(key: string, value: string)
      modifies this`vars
      ensures vars == old(vars)[key := value]
    {
      vars := vars[key := value];
    }

    /** The environment of the child that this command would start. */
    function ChildEnv(parent: map<string, string>): map<string, string>
      reads this
    {
      (if cleared then map[] else parent) + vars
    }
  }

  /** The child environment that a lowered command stands for. */
  function Lowered(cmd: Cmd, parent: map<string, string>): map<string, string> {
    (if cmd.clearEnvs then map[] else parent) + Overlay(map[], Decode(cmd.envs))
  }

  /** `to_std_command`: clearing comes first, so it never undoes a variable of the builder. */
  method ToStdCommand(cmd: Cmd) returns (c: StdCommand)
    ensures fresh(c) && c.program == cmd.program && c.args == cmd.args
    ensures forall parent :: c.ChildEnv(parent) == Lowered(cmd, parent)
  {
    c := new StdCommand(cmd.program);
    var i := 0;
    while i < |cmd.args|
      invariant i <= |cmd.args|
      invariant c.args == cmd.args[..i] && !c.cleared && c.vars == map[]
    {
      c.AddArg(cmd.args[i]);
      i := i + 1;
    }
    if cmd.clearEnvs {
      c.EnvClear();
    }
    i := 0;
    while i < |cmd.envs|
      invariant i <= |cmd.envs|
      invariant c.args == cmd.args && c.cleared == cmd.clearEnvs
      invariant Overlay(c.vars, Decode(cmd.envs[i..])) == Overlay(map[], Decode(cmd.envs))
    {
      var end := if i + 2 < |cmd.envs| then i + 2 else |cmd.envs|;
      var chunk := cmd.envs[i..end];
      if |chunk| == 2 {
        assert cmd.envs[i..][2..] == cmd.envs[end..];
        DecodeStep(cmd.envs[i..]);
        c.SetEnv(chunk[0], chunk[1]);
      }
      i := end;
    }
  }

  lemma DecodeStep(envs: seq<string>)
    requires |envs| >= 2
    ensures Decode(envs) != [] && Decode(envs)[0] == (envs[0], envs[1]) && Decode(envs)[1..] == Decode(envs[2..])
  {
  }

  // ---------------------------------------------------------------------------------------------
  // From the calls to the child
  // ---------------------------------------------------------------------------------------------

  lemma {:induction false} FlatAppends(acc: seq<string>, pairs: Pairs)
    ensures Flat(acc, pairs) == acc + Flat([], pairs)
    decreases |pairs|
  {
    if pairs == [] {
      assert acc + [] == acc;
    } else {
      var two := [pairs[0].0, pairs[0].1];
      FlatAppends(acc + two, pairs[1..]);
      FlatAppends([] + two, pairs[1..]);
      assert [] + two == two;
      assert acc + two + Flat([], pairs[1..]) == acc + (two + Flat([], pairs[1..]));
    }
  }

  lemma {:induction false} DecodeConcat(a: seq<string>, b: seq<string>)
    requires |a| % 2 == 0
    ensures Decode(a + b) == Decode(a) + Decode(b)
  {
    hide Decode;
    if a == [] {
      DecodeNothing();
      assert a + b == b;
    } else {
      DecodeConcat(a[2..], b);
      assert (a + b)[2..] == a[2..] + b;
      DecodeMore(a);
      DecodeMore(a + b);
    }
  }

  lemma DecodeNothing()
    ensures Decode([]) == []
  {
  }

  lemma DecodeMore(envs: seq<string>)
    requires |envs| >= 2
    ensures Decode(envs) == [(envs[0], envs[1])] + Decode(envs[2..])
  {
  }

  lemma DecodePair(k: string, v: string)
    ensures Decode([k, v]) == [(k, v)]
  {
    assert Decode([k, v][2..]) == [];
  }

  /** Flattening loses nothing: decoding gives the pairs back. */
  lemma {:induction false} DecodeFlat(pairs: Pairs)
    ensures |Flat([], pairs)| == 2 * |pairs| && Decode(Flat([], pairs)) == pairs
  {
    if pairs == [] {
    } else {
      hide Decode;
      var two := [pairs[0].0, pairs[0].1];
      FlatAppends([] + two, pairs[1..]);
      DecodeFlat(pairs[1..]);
      assert [] + two == two;
      DecodeConcat(two, Flat([], pairs[1..]));
      DecodePair(pairs[0].0, pairs[0].1);
    }
  }

  /** One more call adds exactly its own pairs and arguments. */
  lemma ApplyAdds(cmd: Cmd, call: Call)
    requires |cmd.envs| % 2 == 0
    ensures var cmd' := Apply(cmd, call);
            && |cmd'.envs| % 2 == 0
            && Decode(cmd'.envs) == Decode(cmd.envs) + CallPairs(call)
            && cmd'.args == cmd.args + CallArgs(call)
            && cmd'.program == cmd.program
            && cmd'.clearEnvs == (cmd.clearEnvs || call == Clear)
  {
    match call
    case AddEnv(k, v) =>
      DecodeConcat(cmd.envs, [k, v]);
      DecodePair(k, v);
    case AddEnvs(ps) =>
      DecodeFlat(ps);
      DecodeConcat(cmd.envs, Flat([], ps));
    case _ =>
  }

  /**
   * For every list of builder calls: the flat list has even length and decodes to exactly the
   * pairs in call order, the arguments are in call order, and clearing is remembered.
   */
  lemma {:induction false} BuildMeaning(cmd: Cmd, calls: seq<Call>)
    requires |cmd.envs| % 2 == 0
    ensures var built := ApplyAll(cmd, calls);
            && |built.envs| % 2 == 0
            && Decode(built.envs) == Decode(cmd.envs) + PairsOf(calls)
            && built.args == cmd.args + ArgsOf(calls)
            && built.program == cmd.program
            && built.clearEnvs == (cmd.clearEnvs || Clear in calls)
    decreases |calls|
  {
    hide Decode, Apply, CallPairs, CallArgs;
    if calls == [] {
    } else {
      var rest := calls[1..];
      ApplyAdds(cmd, calls[0]);
      BuildMeaning(Apply(cmd, calls[0]), rest);
      Regroup(Decode(cmd.envs), CallPairs(calls[0]), PairsOf(rest));
      Regroup(cmd.args, CallArgs(calls[0]), ArgsOf(rest));
      assert calls == [calls[0]] + rest;
    }
  }

  /** A new command holds its program and nothing else, so the calls decide everything. */
  lemma NewBuilds(program: string, calls: seq<Call>)
    ensures var built := ApplyAll(New(program), calls);
            && built.program == program && built.args == ArgsOf(calls) && built.clearEnvs == (Clear in calls)
            && |built.envs| % 2 == 0 && Decode(built.envs) == PairsOf(calls)
  {
    hide ApplyAll, ArgsOf, PairsOf, Decode;
    BuildMeaning(New(program), calls);
    DecodeNothing();
    assert [] + ArgsOf(calls) == ArgsOf(calls) && [] + PairsOf(calls) == PairsOf(calls);
  }

  /**
   * The child's environment, for every list of builder calls: the parent's unless `clear_envs`
   * occurs anywhere, overlaid with all pairs in call order.
   */
  lemma ChildEnvironment(program: string, calls: seq<Call>, parent: map<string, string>)
    ensures Lowered(ApplyAll(New(program), calls), parent)
         == (if Clear in calls then map[] else parent) + Overlay(map[], PairsOf(calls))
  {
    NewBuilds(program, calls);
  }

  /**
   * From the program's name and its calls to the command that is started: just those arguments, in
   * order, and the environment as `ChildEnvironment` says.
   */
  method BuildAndLower(program: string, calls: seq<Call>) returns (c: StdCommand)
    ensures fresh(c) && c.program == program && c.args == ArgsOf(calls)
    ensures forall parent ::
              c.ChildEnv(parent) == (if Clear in calls then map[] else parent) + Overlay(map[], PairsOf(calls))
  {
    hide ApplyAll, ArgsOf, PairsOf, Lowered, Overlay;
    var cmd := New(program);
    var i := 0;
    assert calls[i..] == calls;
    while i < |calls|
      invariant i <= |calls| && ApplyAll(cmd, calls[i..]) == ApplyAll(New(program), calls)
    {
      ApplyNext(cmd, calls[i..]);
      assert calls[i..][1..] == calls[i + 1..];
      cmd := Apply(cmd, calls[i]);
      i := i + 1;
    }
    assert calls[i..] == [];
    NothingApplied(cmd);
    c := ToStdCommand(cmd);
    NewBuilds(program, calls);
    forall parent
      ensures c.ChildEnv(parent) == (if Clear in calls then map[] else parent) + Overlay(map[], PairsOf(calls))
    {
      ChildEnvironment(program, calls, parent);
    }
  }

  lemma ApplyNext(cmd: Cmd, calls: seq<Call>)
    requires calls != []
    ensures ApplyAll(cmd, calls) == ApplyAll(Apply(cmd, calls[0]), calls[1..])
  {
  }

  lemma NothingApplied(cmd: Cmd)
    ensures ApplyAll(cmd, []) == cmd
  {
  }

  /** What each kind of call comes to in the command that is started, alone and behind any others. */
  lemma CallSpelledOut(program: string, calls: seq<Call>, key: string, value: string, parent: map<string, string>)
    ensures var before := ApplyAll(New(program), calls);
            && (forall a :: Arg(before, a).args == ArgsOf(calls) + [a])
            && (forall more :: Args(before, more).args == ArgsOf(calls) + more)
            && Lowered(Env(before, key, value), parent) == Lowered(before, parent)[key := value]
            && Lowered(ClearEnvs(before), parent) == Overlay(map[], PairsOf(calls))
  {
    hide Overlay, ArgsOf, PairsOf, ApplyAll, Decode;
    var before, pairs := ApplyAll(New(program), calls), PairsOf(calls);
    NewBuilds(program, calls);
    DecodeConcat(before.envs, [key, value]);
    DecodePair(key, value);
    OverlayOneMore(map[], pairs, key, value);
    assert map[] + Overlay(map[], pairs) == Overlay(map[], pairs);
  }

  lemma {:induction false} OverlayOneMore(vars: map<string, string>, pairs: Pairs, key: string, value: string)
    ensures Overlay(vars, pairs + [(key, value)]) == Overlay(vars, pairs)[key := value]
    decreases |pairs|
  {
    if pairs == [] {
      assert [(key, value)][1..] == [];
    } else {
      OverlayOneMore(vars[pairs[0].0 := pairs[0].1], pairs[1..], key, value);
      assert (pairs + [(key, value)])[1..] == pairs[1..] + [(key, value)];
    }
  }

  predicate HasKey(pairs: Pairs, key: string) {
    exists i :: 0 <= i < |pairs| && pairs[i].0 == key
  }

  lemma HasKeyStep(pairs: Pairs, key: string)
    requires pairs != []
    ensures HasKey(pairs, key) <==> pairs[0].0 == key || HasKey(pairs[1..], key)
  {
    if i :| 0 < i < |pairs| && pairs[i].0 == key {
      assert pairs[1..][i - 1].0 == key;
    }
  }

  lemma {:induction false} OverlayKeys(vars: map<string, string>, pairs: Pairs, key: string)
    ensures key in Overlay(vars, pairs) <==> key in vars || HasKey(pairs, key)
    ensures !HasKey(pairs, key) && key in vars ==> Overlay(vars, pairs)[key] == vars[key]
    decreases |pairs|
  {
    if pairs == [] {
    } else {
      hide HasKey;
      HasKeyStep(pairs, key);
      OverlayKeys(vars[pairs[0].0 := pairs[0].1], pairs[1..], key);
    }
  }

  lemma {:induction false} LastPairStands(vars: map<string, string>, pairs: Pairs, i: nat)
    requires i < |pairs| && !HasKey(pairs[i + 1..], pairs[i].0)
    ensures pairs[i].0 in Overlay(vars, pairs) && Overlay(vars, pairs)[pairs[i].0] == pairs[i].1
    decreases i
  {
    hide HasKey;
    var vars', rest := vars[pairs[0].0 := pairs[0].1], pairs[1..];
    if i == 0 {
      OverlayKeys(vars', rest, pairs[0].0);
    } else {
      assert rest[i - 1] == pairs[i] && rest[i..] == pairs[i + 1..];
      LastPairStands(vars', rest, i - 1);
    }
  }

  /** In an overlay the last pair for a key wins, and other keys keep what they had. */
  lemma LastPairWins(vars: map<string, string>, pairs: Pairs, key: string)
    ensures (key in Overlay(vars, pairs)) == (key in vars || exists i :: 0 <= i < |pairs| && pairs[i].0 == key)
    ensures (forall i | 0 <= i < |pairs| :: pairs[i].0 != key) && key in vars ==> Overlay(vars, pairs)[key] == vars[key]
    ensures forall i | 0 <= i < |pairs| && pairs[i].0 == key && (forall j | i < j < |pairs| :: pairs[j].0 != key) ::
              key in Overlay(vars, pairs) && Overlay(vars, pairs)[key] == pairs[i].1
  {
    hide Overlay;
    OverlayKeys(vars, pairs, key);
    forall i | 0 <= i < |pairs| && pairs[i].0 == key && (forall j | i < j < |pairs| :: pairs[j].0 != key)
      ensures key in Overlay(vars, pairs) && Overlay(vars, pairs)[key] == pairs[i].1
    {
      LastPairStands(vars, pairs, i);
    }
  }

  lemma {:induction false} ClearFirst(cmd: Cmd, calls: seq<Call>)
    ensures ApplyAll(ClearEnvs(cmd), calls) == ClearEnvs(ApplyAll(cmd, calls))
    decreases |calls|
  {
    if calls == [] {
    } else {
      assert Apply(ClearEnvs(cmd), calls[0]) == ClearEnvs(Apply(cmd, calls[0]));
      ClearFirst(Apply(cmd, calls[0]), calls[1..]);
    }
  }

  lemma {:induction false} ApplyAllConcat(cmd: Cmd, a: seq<Call>, b: seq<Call>)
    ensures ApplyAll(cmd, a + b) == ApplyAll(ApplyAll(cmd, a), b)
    decreases |a|
  {
    if a == [] {
      assert a + b == b;
    } else {
      ApplyAllConcat(Apply(cmd, a[0]), a[1..], b);
      assert (a + b)[1..] == a[1..] + b;
    }
  }

  /** Where `clear_envs` stands among the calls makes no difference. */
  lemma ClearPositionIrrelevant(cmd: Cmd, a: seq<Call>, b: seq<Call>)
    ensures ApplyAll(cmd, a + [Clear] + b) == ApplyAll(cmd, [Clear] + a + b)
  {
    assert a + [Clear] + b == a + ([Clear] + b) && [Clear] + a + b == [Clear] + (a + b);
    ApplyAllConcat(cmd, a, [Clear] + b);
    assert ([Clear] + b)[1..] == b && ([Clear] + (a + b))[1..] == a + b;
    ClearFirst(cmd, a);
    ApplyAllConcat(ClearEnvs(cmd), a, b);
  }

  /** One call of `envs` is the same as a call of `env` for each pair. */
  lemma {:induction false} EnvsIsRepeatedEnv(cmd: Cmd, pairs: Pairs)
    ensures Envs(cmd, pairs)
         == ApplyAll(cmd, seq(|pairs|, i requires 0 <= i < |pairs| => AddEnv(pairs[i].0, pairs[i].1)))
    decreases |pairs|
  {
    var calls := seq(|pairs|, i requires 0 <= i < |pairs| => AddEnv(pairs[i].0, pairs[i].1));
    if pairs == [] {
      assert cmd.envs + [] == cmd.envs;
    } else {
      var two := [pairs[0].0, pairs[0].1];
      EnvsIsRepeatedEnv(Env(cmd, pairs[0].0, pairs[0].1), pairs[1..]);
      var rest := pairs[1..];
      assert calls[1..] == seq(|rest|, i requires 0 <= i < |rest| => AddEnv(rest[i].0, rest[i].1));
      FlatAppends([] + two, pairs[1..]);
      assert [] + two == two;
      assert cmd.envs + two + Flat([], pairs[1..]) == cmd.envs + (two + Flat([], pairs[1..]));
    }
  }
}
