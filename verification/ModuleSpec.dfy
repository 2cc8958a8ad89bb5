/** What loading kernel modules computes: a depth-first visit that marks before it descends. */
module ModuleSpec {

  datatype ModInfo = ModInfo(path: string, deps: seq<string>)

  datatype AliasEntry = AliasEntry(pattern: string, target: string)

  /** The index files of one kernel: modules.dep, modules.softdep and both kinds of modules.alias line. */
  datatype Index = Index(
    deps: map<string, ModInfo>,
    soft: map<string, seq<string>>,
    alias: map<string, string>,
    device: seq<AliasEntry>)

  /** What handing one module to the kernel comes to; EEXIST is Success. */
  datatype Outcome = Success | ReadFailed | DecompressFailed | InitFailed

  datatype LoadError = ModuleError(key: string, why: Outcome) | EnumerateError

  /** The outcome for a module, given the modules submitted before it. */
  type Kernel = (seq<string>, string) -> Outcome

  /** `log` is every module submitted so far, in order. */
  datatype State = State(done: set<string>, loaded: nat, errs: seq<LoadError>, log: seq<string>)

  const FRESH := State({}, 0, [], [])

  /** The module a name stands for, or "" when there is none. */
  function Resolve(ix: Index, name: string): (key: string)
    ensures key != "" ==> key in ix.deps
  {
    if name in ix.deps then name
    else if name in ix.alias && ix.alias[name] in ix.deps then ix.alias[name]
    else ""
  }

  /** Everything a module asks for first: its soft dependencies, then its hard ones. */
  function Needs(ix: Index, key: string): seq<string>
    requires key in ix.deps
  {
    (if key in ix.soft then ix.soft[key] else []) + ix.deps[key].deps
  }

  function Attempt(k: Kernel, st: State, key: string): State {
    var out := k(st.log, key);
    if out == Success then st.(loaded := st.loaded + 1, log := st.log + [key])
    else st.(errs := st.errs + [ModuleError(key, out)], log := st.log + [key])
  }

  function Load(ix: Index, k: Kernel, st: State, name: string): (r: State)
    ensures st.done <= r.done
    decreases ix.deps.Keys - st.done, 0
  {
    var key := Resolve(ix, name);
    if key == "" || key in st.done then st
    else
      assert key in ix.deps.Keys - st.done;
      Attempt(k, LoadList(ix, k, st.(done := st.done + {key}), Needs(ix, key)), key)
  }

  function LoadList(ix: Index, k: Kernel, st: State, names: seq<string>): (r: State)
    ensures st.done <= r.done
    decreases ix.deps.Keys - st.done, |names|
  {
    if names == [] then st
    else
      var st' := Load(ix, k, st, names[0]);
      assert ix.deps.Keys - st'.done <= ix.deps.Keys - st.done;
      LoadList(ix, k, st', names[1..])
  }

  // ------------------------------------------------------------------ accounting

  function ModuleErrors(errs: seq<LoadError>): nat {
    if errs == [] then 0
    else ModuleErrors(errs[..|errs| - 1]) + if errs[|errs| - 1].ModuleError? then 1 else 0
  }

  /** The modules of a log that the kernel took. */
  function Taken(k: Kernel, log: seq<string>): set<string> {
    if log == [] then {}
    else
      var before, last := log[..|log| - 1], log[|log| - 1];
      Taken(k, before) + if k(before, last) == Success then {last} else {}
  }

  ghost predicate NoRepeats(log: seq<string>) {
    forall i, j :: 0 <= i < j < |log| ==> log[i] != log[j]
  }

  /** r continues st: what was newly marked is what was newly submitted, each module once. */
  ghost predicate Continues(k: Kernel, st: State, r: State) {
    && st.log <= r.log && st.errs <= r.errs && st.done <= r.done
    && (forall m :: m in r.log[|st.log|..] <==> m in r.done - st.done)
    && NoRepeats(r.log[|st.log|..])
    && r.loaded - st.loaded + ModuleErrors(r.errs) - ModuleErrors(st.errs) == |r.log| - |st.log|
    && st.loaded <= r.loaded
  }

  lemma ContinuesThrough(k: Kernel, a: State, b: State, c: State)
    requires Continues(k, a, b) && Continues(k, b, c)
    ensures Continues(k, a, c)
  {
    var x, y := b.log[|a.log|..], c.log[|b.log|..];
    assert c.log[|a.log|..] == x + y;
    forall i, j | 0 <= i < j < |x + y| ensures (x + y)[i] != (x + y)[j] {
      if i < |x| <= j {
        assert x[i] in x && y[j - |x|] in y;
      }
    }
  }

  lemma {:induction false} LoadContinues(ix: Index, k: Kernel, st: State, name: string)
    ensures Continues(k, st, Load(ix, k, st, name))
    decreases ix.deps.Keys - st.done, 0
  {
    var key := Resolve(ix, name);
    if key != "" && key !in st.done {
      var st1 := st.(done := st.done + {key});
      assert key in ix.deps.Keys - st.done;
      LoadListContinues(ix, k, st1, Needs(ix, key));
      var st2 := LoadList(ix, k, st1, Needs(ix, key));
      AttemptContinues(k, st, st1, st2, key);
    }
  }

  lemma AttemptContinues(k: Kernel, st: State, st1: State, st2: State, key: string)
    requires key !in st.done && st1 == st.(done := st.done + {key}) && Continues(k, st1, st2)
    ensures Continues(k, st, Attempt(k, st2, key))
  {
    var r := Attempt(k, st2, key);
    var x := st2.log[|st.log|..];
    assert r.log[|st.log|..] == x + [key];
    assert key !in x;
    if r.errs != st2.errs {
      assert r.errs[..|r.errs| - 1] == st2.errs;
    }
  }

  lemma {:induction false} LoadListContinues(ix: Index, k: Kernel, st: State, names: seq<string>)
    ensures Continues(k, st, LoadList(ix, k, st, names))
    decreases ix.deps.Keys - st.done, |names|
  {
    if names == [] {
    } else {
      LoadContinues(ix, k, st, names[0]);
      var st' := Load(ix, k, st, names[0]);
      assert ix.deps.Keys - st'.done <= ix.deps.Keys - st.done;
      LoadListContinues(ix, k, st', names[1..]);
      hide Continues;
      ContinuesThrough(k, st, st', LoadList(ix, k, st', names[1..]));
    }
  }

  // ------------------------------------------------------------------ the dependency graph

  /** A name stands for a module of this kernel: its own, or, if there is none of that name, its alias's. */
  predicate StandsFor(ix: Index, name: string, m: string) {
    m != "" && m in ix.deps && (name == m || (name !in ix.deps && name in ix.alias && ix.alias[name] == m))
  }

  predicate SomeStandsFor(ix: Index, names: seq<string>, m: string) {
    exists i :: 0 <= i < |names| && StandsFor(ix, names[i], m)
  }

  /** key depends on m: modules.dep lists it, or modules.softdep names it as one to load before. */
  predicate Edge(ix: Index, key: string, m: string) {
    key in ix.deps && (SomeStandsFor(ix, ix.deps[key].deps, m) || (key in ix.soft && SomeStandsFor(ix, ix.soft[key], m)))
  }

  lemma ResolvesExactly(ix: Index, name: string, m: string)
    requires m != ""
    ensures Resolve(ix, name) == m <==> StandsFor(ix, name, m)
  {
  }

  /** The loader asks for exactly the modules that the index says key depends on. */
  lemma NeedsExactly(ix: Index, key: string, m: string)
    requires key in ix.deps
    ensures Edge(ix, key, m) <==> m != "" && exists i :: 0 <= i < |Needs(ix, key)| && Resolve(ix, Needs(ix, key)[i]) == m
  {
    hide Resolve, StandsFor;
    var hard, soft := ix.deps[key].deps, if key in ix.soft then ix.soft[key] else [];
    var names := Needs(ix, key);
    assert names == soft + hard;
    if m != "" {
      forall name ensures Resolve(ix, name) == m <==> StandsFor(ix, name, m) {
        ResolvesExactly(ix, name, m);
      }
      if i :| 0 <= i < |hard| && StandsFor(ix, hard[i], m) {
        assert names[|soft| + i] == hard[i];
      }
      if i :| 0 <= i < |soft| && StandsFor(ix, soft[i], m) {
        assert names[i] == soft[i];
      }
      if i :| 0 <= i < |names| && Resolve(ix, names[i]) == m {
        assert i < |soft| ==> names[i] == soft[i];
        assert i >= |soft| ==> names[i] == hard[i - |soft|];
      }
    } else {
      NoNamelessModule(ix);
    }
  }

  lemma NoNamelessModule(ix: Index)
    ensures forall name :: !StandsFor(ix, name, "")
  {
  }

  predicate IsPath(ix: Index, p: seq<string>) {
    |p| >= 2 && forall i :: 0 <= i < |p| - 1 ==> Edge(ix, p[i], p[i + 1])
  }

  /** b can be reached from a by one edge or more. */
  ghost predicate Leads(ix: Index, a: string, b: string) {
    exists p :: IsPath(ix, p) && p[0] == a && p[|p| - 1] == b
  }

  ghost predicate Under(ix: Index, key: string, m: string) {
    key == m || Leads(ix, key, m)
  }

  /** m is what one of the names stands for, or can be reached from it. */
  ghost predicate Reached(ix: Index, names: seq<string>, m: string) {
    exists i, key :: 0 <= i < |names| && StandsFor(ix, names[i], key) && Under(ix, key, m)
  }

  lemma EdgeLeads(ix: Index, a: string, b: string)
    requires Edge(ix, a, b)
    ensures Leads(ix, a, b)
  {
    var p := [a, b];
    assert IsPath(ix, p) && p[0] == a && p[|p| - 1] == b;
  }

  lemma LeadsOn(ix: Index, a: string, b: string, c: string)
    requires Leads(ix, a, b) && Edge(ix, b, c)
    ensures Leads(ix, a, c)
  {
    hide Edge;
    var p :| IsPath(ix, p) && p[0] == a && p[|p| - 1] == b;
    var q := p + [c];
    forall i | 0 <= i < |q| - 1 ensures Edge(ix, q[i], q[i + 1]) {
      if i < |p| - 1 { assert Edge(ix, p[i], p[i + 1]); }
    }
    assert IsPath(ix, q) && q[0] == a && q[|q| - 1] == c;
  }

  lemma EdgeThenLeads(ix: Index, a: string, b: string, c: string)
    requires Edge(ix, a, b) && Leads(ix, b, c)
    ensures Leads(ix, a, c)
  {
    hide Edge;
    var p :| IsPath(ix, p) && p[0] == b && p[|p| - 1] == c;
    var q := [a] + p;
    forall i | 0 <= i < |q| - 1 ensures Edge(ix, q[i], q[i + 1]) {
      if 0 < i { assert Edge(ix, p[i - 1], p[i]); }
    }
    assert IsPath(ix, q) && q[0] == a && q[|q| - 1] == c;
  }
}
