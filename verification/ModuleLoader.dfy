/** The resolver: its mutable state, its recursion and its loops. */
module ModuleLoader {
  import opened ModuleSpec
  import opened ModuleOrder
  import opened ModuleDevices

  class Resolver {
    const machine: Machine
    var done: set<string>
    var loaded: nat
    var errs: seq<LoadError>
    var log: seq<string>     // every module handed to the kernel; nothing branches on it

    constructor (machine: Machine)
      ensures this.machine == machine && St() == FRESH
    {
      this.machine := machine;
      done, loaded, errs, log := {}, 0, [], [];
    }

    function St(): State
      reads this
    {
      State(done, loaded, errs, log)
    }

    method Load(name: string)
      modifies this
      ensures St() == ModuleSpec.Load(machine.ix, machine.kernel, old(St()), name)
      decreases machine.ix.deps.Keys - done, 0
    {
      var key := Resolve(machine.ix, name);
      if key == "" || key in done {
        return;
      }
      assert key in machine.ix.deps.Keys - done;
      done := done + {key};
      LoadEach(Needs(machine.ix, key));
      var outcome := machine.kernel(log, key);
      log := log + [key];
      if outcome != Success {
        errs := errs + [ModuleError(key, outcome)];
        return;
      }
      loaded := loaded + 1;
    }

    method LoadEach(names: seq<string>)
      modifies this
      ensures St() == LoadList(machine.ix, machine.kernel, old(St()), names)
      decreases machine.ix.deps.Keys - done, |names| + 1
    {
      ghost var before := St();
      for i := 0 to |names|
        invariant before.done <= done
        invariant LoadList(machine.ix, machine.kernel, before, names) ==
                  LoadList(machine.ix, machine.kernel, St(), names[i..])
      {
        assert names[i..][0] == names[i] && names[i..][1..] == names[i + 1..];
        assert machine.ix.deps.Keys - done <= machine.ix.deps.Keys - before.done;
        Load(names[i]);
      }
    }

    method MatchDevices(modaliases: seq<string>) returns (out: seq<string>)
      ensures out == MatchAll(machine.glob, machine.ix.device, modaliases, [])
    {
      var entries := machine.ix.device;
      out := [];
      for i := 0 to |modaliases|
        invariant MatchAll(machine.glob, entries, modaliases, []) == MatchAll(machine.glob, entries, modaliases[i..], out)
      {
        assert modaliases[i..][0] == modaliases[i] && modaliases[i..][1..] == modaliases[i + 1..];
        ghost var start := out;
        for j := 0 to |entries|
          invariant Matches(machine.glob, entries, modaliases[i], start) == Matches(machine.glob, entries[j..], modaliases[i], out)
        {
          var e := entries[j];
          assert entries[j..][0] == e && entries[j..][1..] == entries[j + 1..];
          if machine.glob(e.pattern, modaliases[i]) && e.target !in out {
            out := out + [e.target];
          }
        }
      }
    }

    /** Rounds of enumerating and loading, until one loads nothing new. */
    method LoadDevices() returns (seen: nat, ghost rounds: nat, ghost stop: Stop)
      modifies this
      ensures Discovery(St(), seen, rounds, stop) == Discover(machine, old(St()), 0, 0)
    {
      hide MatchAll, LoadList;
      seen := 0;
      rounds, stop := 0, RoundsUsedUp;
      for round := 0 to MAX_ROUNDS
        invariant rounds == round && stop == RoundsUsedUp
        invariant Discover(machine, old(St()), 0, 0) == Discover(machine, St(), round, seen)
      {
        var (found, failed) := machine.devices(round, log);
        if failed && found == [] {
          errs := errs + [EnumerateError];
          stop := EnumerationFailed;
          return;
        }
        seen := |found|;
        var before := loaded;
        var names := MatchDevices(found);
        LoadEach(names);
        rounds := rounds + 1;
        if loaded == before {
          stop := Settled;
          return;
        }
      }
    }
  }

  /** What reading modules.dep came to. */
  datatype Tree = NoTree | Unreadable | Found(machine: Machine)

  datatype LoadResult = LoadResult(treeFound: bool, loaded: nat, autoloaded: int, devices: nat)

  const NOTHING := LoadResult(false, 0, 0, 0)

  method LoadNamed(tree: Tree, names: seq<string>) returns (res: LoadResult, errs: seq<LoadError>, ok: bool)
    ensures ok == !tree.Unreadable? && (!tree.Found? ==> res == NOTHING && errs == [])
    ensures tree.Found? ==>
      var st := LoadList(tree.machine.ix, tree.machine.kernel, FRESH, names);
      res == LoadResult(true, st.loaded, 0, 0) && errs == st.errs
  {
    if !tree.Found? {
      return NOTHING, [], tree.NoTree?;
    }
    var r := new Resolver(tree.machine);
    r.LoadEach(names);
    return LoadResult(true, r.loaded, 0, 0), r.errs, true;
  }

  /** Without a named set, everything loaded counts as autoloaded too. */
  method LoadForDevices(tree: Tree) returns (res: LoadResult, errs: seq<LoadError>, ok: bool)
    ensures ok == !tree.Unreadable? && (!tree.Found? ==> res == NOTHING && errs == [])
    ensures tree.Found? ==>
      var d := Discover(tree.machine, FRESH, 0, 0);
      res == LoadResult(true, d.st.loaded, d.st.loaded, d.seen) && errs == d.st.errs
  {
    if !tree.Found? {
      return NOTHING, [], tree.NoTree?;
    }
    var r := new Resolver(tree.machine);
    var seen, rounds, stop := r.LoadDevices();
    return LoadResult(true, r.loaded, r.loaded, seen), r.errs, true;
  }

  /** Where loading the named set and then the devices' drivers leads. */
  function AllLoaded(m: Machine, names: seq<string>): (State, Discovery) {
    var named := LoadList(m.ix, m.kernel, FRESH, names);
    (named, Discover(m, named, 0, 0))
  }

  method LoadAll(tree: Tree, names: seq<string>) returns (res: LoadResult, errs: seq<LoadError>, ok: bool)
    ensures ok == !tree.Unreadable? && (!tree.Found? ==> res == NOTHING && errs == [])
    ensures tree.Found? ==>
      var (named, d) := AllLoaded(tree.machine, names);
      res == LoadResult(true, named.loaded, d.st.loaded - named.loaded, d.seen) && errs == d.st.errs
  {
    if !tree.Found? {
      return NOTHING, [], tree.NoTree?;
    }
    var r := new Resolver(tree.machine);
    r.LoadEach(names);
    var named := r.loaded;
    var seen, rounds, stop := r.LoadDevices();
    return LoadResult(true, named, r.loaded - named, seen), r.errs, true;
  }

  lemma {:induction false} TakenInPrefix(k: Kernel, a: seq<string>, b: seq<string>, x: string)
    requires a <= b && NoRepeats(b) && x in a && x in Taken(k, b)
    ensures x in Taken(k, a)
    decreases |b|
  {
    if |a| < |b| {
      var rest := b[..|b| - 1];
      var i :| 0 <= i < |a| && a[i] == x;
      assert b[i] == x && b[i] != b[|b| - 1];
      TakenInPrefix(k, a, rest, x);
    } else {
      assert a == b;
    }
  }

  /**
   * Loaded and Autoloaded count each module that the kernel took exactly once: Autoloaded is what
   * discovery added, and nothing that the named set leads to is in it, however discovery met it again.
   */
  lemma {:induction false} CountsEachOnce(m: Machine, names: seq<string>)
    ensures var (named, d) := AllLoaded(m, names);
      var first, all := Taken(m.kernel, named.log), Taken(m.kernel, d.st.log);
      && named.loaded == |first| && d.st.loaded - named.loaded == |all - first| && first <= all
      && d.st.loaded + ModuleErrors(d.st.errs) == |d.st.done|
      && forall x :: x in all - first ==> !Reached(m.ix, names, x)
  {
    var (named, d) := AllLoaded(m, names);
    FreshIsAccounted(m.kernel);
    ListAccounts(m.ix, m.kernel, FRESH, names);
    DiscoverAccounts(m, named, 0, 0);
    TakenGrows(m.kernel, named.log, d.st.log);
    forall x | x in Taken(m.kernel, d.st.log) - Taken(m.kernel, named.log) ensures !Reached(m.ix, names, x) {
      SubmitsExactlyTheReached(m.ix, m.kernel, names, x);
      if x in named.log {
        TakenInPrefix(m.kernel, named.log, d.st.log, x);
      }
    }
  }
}
