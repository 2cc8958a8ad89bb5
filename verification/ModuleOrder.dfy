/** Which modules a load submits, and in what order. */
module ModuleOrder {
  import opened ModuleSpec

  // ------------------------------------------------------------------ everything reachable is submitted

  /** Everything that the modules submitted since `from` ask for is marked. */
  ghost predicate Closed(ix: Index, st: State, from: nat) {
    forall i, m :: from <= i < |st.log| && Edge(ix, st.log[i], m) ==> m in st.done
  }

  lemma ClosedGrows(ix: Index, k: Kernel, a: State, b: State, from: nat)
    requires Closed(ix, a, from) && Closed(ix, b, |a.log|) && Continues(k, a, b)
    ensures Closed(ix, b, from)
  {
    forall i, m | from <= i < |b.log| && Edge(ix, b.log[i], m) ensures m in b.done {
      if i < |a.log| { assert b.log[i] == a.log[i]; }
    }
  }

  lemma {:induction false} LoadCloses(ix: Index, k: Kernel, st: State, name: string)
    ensures var r := Load(ix, k, st, name);
      Closed(ix, r, |st.log|) && (Resolve(ix, name) != "" ==> Resolve(ix, name) in r.done)
    decreases ix.deps.Keys - st.done, 0
  {
    var key := Resolve(ix, name);
    if key != "" && key !in st.done {
      var st1 := st.(done := st.done + {key});
      assert key in ix.deps.Keys - st.done;
      LoadListCloses(ix, k, st1, Needs(ix, key));
      LoadListContinues(ix, k, st1, Needs(ix, key));
      var st2 := LoadList(ix, k, st1, Needs(ix, key));
      var r := Load(ix, k, st, name);
      assert r.log == st2.log + [key] && r.done == st2.done;
      forall m | Edge(ix, key, m) ensures m in r.done {
        NeedsExactly(ix, key, m);
        var i :| 0 <= i < |Needs(ix, key)| && Resolve(ix, Needs(ix, key)[i]) == m;
      }
      forall i, m | |st.log| <= i < |r.log| && Edge(ix, r.log[i], m) ensures m in r.done {
        if i < |st2.log| { assert r.log[i] == st2.log[i]; }
      }
    }
  }

  lemma {:induction false} LoadListCloses(ix: Index, k: Kernel, st: State, names: seq<string>)
    ensures var r := LoadList(ix, k, st, names);
      Closed(ix, r, |st.log|) && forall i :: 0 <= i < |names| && Resolve(ix, names[i]) != "" ==> Resolve(ix, names[i]) in r.done
    decreases ix.deps.Keys - st.done, |names|
  {
    if names != [] {
      var st' := Load(ix, k, st, names[0]);
      var r := LoadList(ix, k, st', names[1..]);
      assert ix.deps.Keys - st'.done <= ix.deps.Keys - st.done;
      LoadCloses(ix, k, st, names[0]);
      LoadListCloses(ix, k, st', names[1..]);
      LoadListContinues(ix, k, st', names[1..]);
      ClosedGrows(ix, k, st', r, |st.log|);
      assert r == LoadList(ix, k, st, names);
      hide Closed, Continues, Load, LoadList, Resolve;
      forall i | 0 <= i < |names| && Resolve(ix, names[i]) != "" ensures Resolve(ix, names[i]) in r.done {
        if 0 < i { assert names[1..][i - 1] == names[i]; }
      }
    }
  }

  // ------------------------------------------------------------------ nothing else is

  lemma {:induction false} LoadStaysUnder(ix: Index, k: Kernel, st: State, name: string, m: string)
    requires m in Load(ix, k, st, name).done - st.done
    ensures Resolve(ix, name) != "" && Under(ix, Resolve(ix, name), m)
    decreases ix.deps.Keys - st.done, 0
  {
    var key := Resolve(ix, name);
    var st1 := st.(done := st.done + {key});
    assert key in ix.deps.Keys - st.done;
    if m != key {
      var i := LoadListStaysUnder(ix, k, st1, Needs(ix, key), m);
      var next := Resolve(ix, Needs(ix, key)[i]);
      NeedsExactly(ix, key, next);
      EdgeLeads(ix, key, next);
      if m != next { EdgeThenLeads(ix, key, next, m); }
    }
  }

  lemma {:induction false} LoadListStaysUnder(ix: Index, k: Kernel, st: State, names: seq<string>, m: string) returns (i: nat)
    requires m in LoadList(ix, k, st, names).done - st.done
    ensures i < |names| && Resolve(ix, names[i]) != "" && Under(ix, Resolve(ix, names[i]), m)
    decreases ix.deps.Keys - st.done, |names|
  {
    var st' := Load(ix, k, st, names[0]);
    assert ix.deps.Keys - st'.done <= ix.deps.Keys - st.done;
    if m in st'.done {
      LoadStaysUnder(ix, k, st, names[0], m);
      i := 0;
    } else {
      var j := LoadListStaysUnder(ix, k, st', names[1..], m);
      i := j + 1;
    }
  }

  // ------------------------------------------------------------------ the submitted set

  /** What a path from a closed, marked module reaches is marked too. */
  lemma {:induction false} PathStaysDone(ix: Index, st: State, p: seq<string>, i: nat)
    requires IsPath(ix, p) && p[0] in st.done && i < |p|
    requires forall a, m :: a in st.done && Edge(ix, a, m) ==> m in st.done
    ensures p[i] in st.done
  {
    if 0 < i {
      PathStaysDone(ix, st, p, i - 1);
      assert Edge(ix, p[i - 1], p[i]);
    }
  }

  /**
   * Loading a list of names from scratch submits exactly what the names lead to through aliases and
   * through soft and hard dependencies, each module once, whatever fails and whether or not the
   * dependencies have cycles.
   */
  lemma SubmitsExactlyTheReached(ix: Index, k: Kernel, names: seq<string>, m: string)
    ensures var r := LoadList(ix, k, FRESH, names);
      && NoRepeats(r.log) && (m in r.log <==> m in r.done)
      && (m in r.log <==> Reached(ix, names, m))
  {
    var r := LoadList(ix, k, FRESH, names);
    LoadListContinues(ix, k, FRESH, names);
    LoadListCloses(ix, k, FRESH, names);
    assert r.log[0..] == r.log;
    assert forall x :: x in r.log <==> x in r.done;
    if m in r.done {
      var i := LoadListStaysUnder(ix, k, FRESH, names, m);
      ResolvesExactly(ix, names[i], Resolve(ix, names[i]));
      assert Reached(ix, names, m);
    }
    if Reached(ix, names, m) {
      var i, key :| 0 <= i < |names| && StandsFor(ix, names[i], key) && Under(ix, key, m);
      ResolvesExactly(ix, names[i], key);
      if key != m {
        hide LoadList, Continues, Edge;
        var p :| IsPath(ix, p) && p[0] == key && p[|p| - 1] == m;
        forall a, b | a in r.done && Edge(ix, a, b) ensures b in r.done {
          var j :| 0 <= j < |r.log| && r.log[j] == a;
        }
        PathStaysDone(ix, r, p, |p| - 1);
      }
    }
  }

  // ------------------------------------------------------------------ the order

  /** Each module is submitted after everything it asks for. */
  ghost predicate InOrder(ix: Index, log: seq<string>) {
    forall i, m :: 0 <= i < |log| && Edge(ix, log[i], m) ==> m in log[..i]
  }

  /** Marked, and not submitted yet: the modules the visit is inside of. */
  ghost predicate Open(st: State, m: string) {
    m in st.done && m !in st.log
  }

  /** Everything the visit is inside of leads to `to`, so a module met again there is on a cycle. */
  ghost predicate InsideOf(ix: Index, st: State, to: string) {
    forall m :: Open(st, m) ==> Leads(ix, m, to)
  }

  ghost predicate NoCycleIn(ix: Index, good: set<string>) {
    && (forall m :: m in good ==> !Leads(ix, m, m))
    && (forall a, b :: a in good && Edge(ix, a, b) ==> b in good)
  }

  lemma OpenUnchanged(k: Kernel, a: State, b: State, m: string)
    requires Continues(k, a, b)
    ensures Open(b, m) <==> Open(a, m)
  {
    if m in b.log {
      var i :| 0 <= i < |b.log| && b.log[i] == m;
      if i < |a.log| {
        assert a.log[i] == m;
      } else {
        assert b.log[|a.log|..][i - |a.log|] == m;
      }
    }
    if m in a.log {
      var i :| 0 <= i < |a.log| && a.log[i] == m;
      assert b.log[i] == m;
    }
    assert m in b.done - a.done ==> m in b.log[|a.log|..];
  }

  lemma {:induction false} LoadInOrder(ix: Index, k: Kernel, st: State, name: string, good: set<string>)
    requires NoCycleIn(ix, good) && InOrder(ix, st.log)
    requires Resolve(ix, name) != "" ==> Resolve(ix, name) in good && InsideOf(ix, st, Resolve(ix, name))
    ensures var r := Load(ix, k, st, name); InOrder(ix, r.log) && (Resolve(ix, name) != "" ==> Resolve(ix, name) in r.log)
    decreases ix.deps.Keys - st.done, 0
  {
    var key := Resolve(ix, name);
    if key != "" {
      if key in st.done {
        if Open(st, key) {
          assert false;
        }
      } else {
        var st1 := st.(done := st.done + {key});
        assert key in ix.deps.Keys - st.done;
        forall i | 0 <= i < |Needs(ix, key)| && Resolve(ix, Needs(ix, key)[i]) != ""
          ensures Resolve(ix, Needs(ix, key)[i]) in good && InsideOf(ix, st1, Resolve(ix, Needs(ix, key)[i]))
        {
          NeedsExactly(ix, key, Resolve(ix, Needs(ix, key)[i]));
          Deeper(ix, st, key, st1, Resolve(ix, Needs(ix, key)[i]));
        }
        LoadListInOrder(ix, k, st1, Needs(ix, key), good);
        var st2 := LoadList(ix, k, st1, Needs(ix, key));
        var r := Load(ix, k, st, name);
        assert r.log == st2.log + [key];
        forall i, m | 0 <= i < |r.log| && Edge(ix, r.log[i], m) ensures m in r.log[..i] {
          if i < |st2.log| {
            assert r.log[i] == st2.log[i] && r.log[..i] == st2.log[..i];
          } else {
            NeedsExactly(ix, key, m);
            assert r.log[..i] == st2.log;
          }
        }
      }
    }
  }

  lemma Deeper(ix: Index, st: State, key: string, st1: State, next: string)
    requires InsideOf(ix, st, key) && st1 == st.(done := st.done + {key}) && Edge(ix, key, next)
    ensures InsideOf(ix, st1, next)
  {
    hide Edge, Leads;
    forall m | Open(st1, m) ensures Leads(ix, m, next) {
      if m == key {
        EdgeLeads(ix, key, next);
      } else {
        assert Open(st, m);
        LeadsOn(ix, m, key, next);
      }
    }
  }

  lemma {:induction false} LoadListInOrder(ix: Index, k: Kernel, st: State, names: seq<string>, good: set<string>)
    requires NoCycleIn(ix, good) && InOrder(ix, st.log)
    requires forall i :: 0 <= i < |names| && Resolve(ix, names[i]) != "" ==>
      Resolve(ix, names[i]) in good && InsideOf(ix, st, Resolve(ix, names[i]))
    ensures var r := LoadList(ix, k, st, names);
      InOrder(ix, r.log) && forall i :: 0 <= i < |names| && Resolve(ix, names[i]) != "" ==> Resolve(ix, names[i]) in r.log
    decreases ix.deps.Keys - st.done, |names|
  {
    if names != [] {
      var st' := Load(ix, k, st, names[0]);
      var rest := names[1..];
      assert ix.deps.Keys - st'.done <= ix.deps.Keys - st.done;
      LoadInOrder(ix, k, st, names[0], good);
      LoadContinues(ix, k, st, names[0]);
      forall i | 0 <= i < |rest| && Resolve(ix, rest[i]) != ""
        ensures Resolve(ix, rest[i]) in good && InsideOf(ix, st', Resolve(ix, rest[i]))
      {
        assert rest[i] == names[i + 1];
        StillInside(ix, k, st, st', Resolve(ix, rest[i]));
      }
      LoadListInOrder(ix, k, st', rest, good);
      LoadListContinues(ix, k, st', rest);
      var r := LoadList(ix, k, st', rest);
      assert r == LoadList(ix, k, st, names);
      hide Load, LoadList, Resolve, InsideOf, InOrder, NoCycleIn;
      forall i | 0 <= i < |names| && Resolve(ix, names[i]) != "" ensures Resolve(ix, names[i]) in r.log {
        if 0 < i {
          assert rest[i - 1] == names[i];
        } else {
          var j :| 0 <= j < |st'.log| && st'.log[j] == Resolve(ix, names[0]);
          assert r.log[j] == st'.log[j];
        }
      }
    }
  }

  lemma StillInside(ix: Index, k: Kernel, a: State, b: State, to: string)
    requires Continues(k, a, b) && InsideOf(ix, a, to)
    ensures InsideOf(ix, b, to)
  {
    hide Continues, Leads;
    forall m | Open(b, m) ensures Leads(ix, m, to) {
      OpenUnchanged(k, a, b, m);
    }
  }

  /** An ordered log puts everything a module leads to before it. */
  lemma {:induction false} PathInOrder(ix: Index, log: seq<string>, p: seq<string>, at: nat, i: nat) returns (j: nat)
    requires InOrder(ix, log) && IsPath(ix, p) && at < |log| && log[at] == p[0] && i < |p|
    ensures j <= at && log[j] == p[i] && (0 < i ==> j < at)
  {
    if i == 0 {
      j := at;
    } else {
      var before := PathInOrder(ix, log, p, at, i - 1);
      assert Edge(ix, p[i - 1], p[i]) && p[i] in log[..before];
      var q :| 0 <= q < before && log[..before][q] == p[i];
      j := q;
    }
  }

  ghost predicate DependenciesFirst(ix: Index, log: seq<string>) {
    forall i, m :: 0 <= i < |log| && Leads(ix, log[i], m) ==> m in log[..i]
  }

  /**
   * Loading a list of names submits every module after everything it leads to, if and only if
   * nothing the names lead to is on a dependency cycle. Failures to load make no difference.
   */
  lemma DependenciesFirstWithoutCycles(ix: Index, k: Kernel, names: seq<string>)
    ensures var log := LoadList(ix, k, FRESH, names).log;
      DependenciesFirst(ix, log) <==> forall m :: Reached(ix, names, m) ==> !Leads(ix, m, m)
  {
    var log := LoadList(ix, k, FRESH, names).log;
    hide Leads, Edge, Resolve, LoadList;
    if forall m :: Reached(ix, names, m) ==> !Leads(ix, m, m) {
      AcyclicIsOrdered(ix, k, names);
    }
    if DependenciesFirst(ix, log) {
      forall m | Reached(ix, names, m) ensures !Leads(ix, m, m) {
        SubmitsExactlyTheReached(ix, k, names, m);
        var i :| 0 <= i < |log| && log[i] == m;
        assert m !in log[..i];
      }
    }
  }

  lemma AcyclicIsOrdered(ix: Index, k: Kernel, names: seq<string>)
    requires forall m :: Reached(ix, names, m) ==> !Leads(ix, m, m)
    ensures DependenciesFirst(ix, LoadList(ix, k, FRESH, names).log)
  {
    var r := LoadList(ix, k, FRESH, names);
    var good := r.done;
    LoadListCloses(ix, k, FRESH, names);
    forall m ensures m in good <==> Reached(ix, names, m) {
      SubmitsExactlyTheReached(ix, k, names, m);
    }
    assert NoCycleIn(ix, good) by {
      hide Leads, Resolve, LoadList, Edge;
      forall a, b | a in good && Edge(ix, a, b) ensures b in good {
        SubmitsExactlyTheReached(ix, k, names, a);
        var i :| 0 <= i < |r.log| && r.log[i] == a;
      }
    }
    hide Edge, Resolve, LoadList;
    LoadListInOrder(ix, k, FRESH, names, good);
    forall i, m | 0 <= i < |r.log| && Leads(ix, r.log[i], m) ensures m in r.log[..i] {
      var p :| IsPath(ix, p) && p[0] == r.log[i] && p[|p| - 1] == m;
      var j := PathInOrder(ix, r.log, p, i, |p| - 1);
      assert r.log[..i][j] == m;
    }
  }

  // ------------------------------------------------------------------ one module

  lemma {:induction false} LoadListAppend(ix: Index, k: Kernel, st: State, a: seq<string>, b: seq<string>)
    ensures LoadList(ix, k, st, a + b) == LoadList(ix, k, LoadList(ix, k, st, a), b)
    decreases |a|
  {
    if a == [] {
      assert a + b == b;
    } else {
      assert (a + b)[0] == a[0] && (a + b)[1..] == a[1..] + b;
      LoadListAppend(ix, k, Load(ix, k, st, a[0]), a[1..], b);
    }
  }

  /**
   * A module that is not marked yet is marked; then every module its softdep line names is loaded, then every
   * module its modules.dep line lists, and only then the module itself is handed to the kernel, once.
   */
  lemma SoftThenHardThenItself(ix: Index, k: Kernel, st: State, key: string)
    requires key in ix.deps && key != "" && key !in st.done
    ensures var marked := st.(done := st.done + {key});
      var soft := LoadList(ix, k, marked, if key in ix.soft then ix.soft[key] else []);
      var hard := LoadList(ix, k, soft, ix.deps[key].deps);
      var r := Load(ix, k, st, key);
      && r.log == hard.log + [key] && r.done == hard.done
      && (forall i, m :: key in ix.soft && 0 <= i < |ix.soft[key]| && StandsFor(ix, ix.soft[key][i], m) ==> m in soft.done)
      && (k(hard.log, key) == Success ==> r.loaded == hard.loaded + 1 && r.errs == hard.errs)
      && (k(hard.log, key) != Success ==> r.loaded == hard.loaded && r.errs == hard.errs + [ModuleError(key, k(hard.log, key))])
  {
    var marked := st.(done := st.done + {key});
    var names := if key in ix.soft then ix.soft[key] else [];
    LoadListAppend(ix, k, marked, names, ix.deps[key].deps);
    LoadListCloses(ix, k, marked, names);
    var soft := LoadList(ix, k, marked, names);
    forall i, m | key in ix.soft && 0 <= i < |names| && StandsFor(ix, names[i], m) ensures m in soft.done {
      ResolvesExactly(ix, names[i], m);
    }
    assert key in ix.deps.Keys - st.done;
    hide LoadList;
  }

  /** A name is loaded as the module it stands for, and a name that stands for none loads nothing. */
  lemma LoadsWhatTheNameStandsFor(ix: Index, k: Kernel, st: State, name: string)
    ensures forall m :: StandsFor(ix, name, m) ==> Load(ix, k, st, name) == Load(ix, k, st, m)
    ensures (forall m :: !StandsFor(ix, name, m)) ==> Load(ix, k, st, name) == st
  {
    forall m ensures StandsFor(ix, name, m) <==> m != "" && Resolve(ix, name) == m {
      if m != "" {
        ResolvesExactly(ix, name, m);
      }
    }
    var key := Resolve(ix, name);
    if key != "" {
      assert StandsFor(ix, name, key);
    }
  }
}
