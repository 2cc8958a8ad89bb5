/** Loading drivers for the devices present, round after round. */
module ModuleDevices {
  import opened ModuleSpec

  const MAX_ROUNDS: nat := 8

  /** path.Match, with a malformed pattern matching nothing. */
  type Glob = (string, string) -> bool

  /** The modaliases a given round finds, and whether enumerating them failed part way. */
  type Enumerate = (nat, seq<string>) -> (seq<string>, bool)

  function Matches(glob: Glob, entries: seq<AliasEntry>, modalias: string, out: seq<string>): seq<string> {
    if entries == [] then out
    else
      var e := entries[0];
      Matches(glob, entries[1..], modalias, if glob(e.pattern, modalias) && e.target !in out then out + [e.target] else out)
  }

  function MatchAll(glob: Glob, entries: seq<AliasEntry>, modaliases: seq<string>, out: seq<string>): seq<string> {
    if modaliases == [] then out
    else MatchAll(glob, entries, modaliases[1..], Matches(glob, entries, modaliases[0], out))
  }

  /** Some device alias ties this modalias to this module. */
  predicate Drives(glob: Glob, entries: seq<AliasEntry>, modalias: string, target: string) {
    exists i :: 0 <= i < |entries| && entries[i].target == target && glob(entries[i].pattern, modalias)
  }

  lemma {:induction false} MatchesExactly(glob: Glob, entries: seq<AliasEntry>, modalias: string, out: seq<string>, t: string)
    requires NoRepeats(out)
    ensures var r := Matches(glob, entries, modalias, out);
      out <= r && NoRepeats(r) && (t in r <==> t in out || Drives(glob, entries, modalias, t))
  {
    if entries != [] {
      var e, rest := entries[0], entries[1..];
      var out' := if glob(e.pattern, modalias) && e.target !in out then out + [e.target] else out;
      MatchesExactly(glob, rest, modalias, out', t);
      if Drives(glob, entries, modalias, t) {
        var i :| 0 <= i < |entries| && entries[i].target == t && glob(entries[i].pattern, modalias);
        if 0 < i { assert rest[i - 1] == entries[i]; }
      }
      if Drives(glob, rest, modalias, t) {
        var i :| 0 <= i < |rest| && rest[i].target == t && glob(rest[i].pattern, modalias);
        assert entries[i + 1] == rest[i];
      }
    }
  }

  /** The drivers for a list of devices: each module that drives one of them, once, and no other. */
  lemma {:induction false} MatchAllExactly(glob: Glob, entries: seq<AliasEntry>, modaliases: seq<string>, out: seq<string>, t: string)
    requires NoRepeats(out)
    ensures var r := MatchAll(glob, entries, modaliases, out);
      && out <= r && NoRepeats(r)
      && (t in r <==> t in out || exists i :: 0 <= i < |modaliases| && Drives(glob, entries, modaliases[i], t))
  {
    if modaliases != [] {
      var out' := Matches(glob, entries, modaliases[0], out);
      var rest := modaliases[1..];
      MatchesExactly(glob, entries, modaliases[0], out, t);
      MatchAllExactly(glob, entries, rest, out', t);
      hide Drives, Matches;
      if i :| 0 <= i < |modaliases| && Drives(glob, entries, modaliases[i], t) {
        if 0 < i { assert rest[i - 1] == modaliases[i]; }
      }
      if i :| 0 <= i < |rest| && Drives(glob, entries, rest[i], t) {
        assert modaliases[i + 1] == rest[i];
      }
    }
  }

  /** Everything discovery is told about the machine it runs on. */
  datatype Machine = Machine(ix: Index, kernel: Kernel, glob: Glob, devices: Enumerate)

  /** Why discovery stopped. */
  datatype Stop = Settled | RoundsUsedUp | EnumerationFailed

  datatype Discovery = Discovery(st: State, seen: nat, rounds: nat, stop: Stop)

  /** Rounds of discovery from `round` on. */
  function Discover(m: Machine, st: State, round: nat, seen: nat): (d: Discovery)
    requires round <= MAX_ROUNDS
    decreases MAX_ROUNDS - round
  {
    if round == MAX_ROUNDS then Discovery(st, seen, round, RoundsUsedUp)
    else
      var (found, failed) := m.devices(round, st.log);
      if failed && found == [] then Discovery(st.(errs := st.errs + [EnumerateError]), seen, round, EnumerationFailed)
      else
        var st' := LoadList(m.ix, m.kernel, st, MatchAll(m.glob, m.ix.device, found, []));
        if st'.loaded == st.loaded then Discovery(st', |found|, round + 1, Settled)
        else Discover(m, st', round + 1, |found|)
  }

  // ------------------------------------------------------------------ accounting

  lemma {:induction false} TakenIsSubmitted(k: Kernel, log: seq<string>)
    ensures forall x :: x in Taken(k, log) ==> x in log
  {
    if log != [] {
      TakenIsSubmitted(k, log[..|log| - 1]);
    }
  }

  /** The counters agree with the log, and the log with the marks. */
  ghost predicate Accounted(k: Kernel, st: State) {
    && NoRepeats(st.log) && (forall m :: m in st.log <==> m in st.done)
    && st.loaded == |Taken(k, st.log)|
    && st.loaded + ModuleErrors(st.errs) == |st.log| == |st.done|
  }

  lemma FreshIsAccounted(k: Kernel)
    ensures Accounted(k, FRESH)
  {
  }

  lemma {:induction false} LogSize(log: seq<string>, s: set<string>)
    requires NoRepeats(log) && forall m :: m in log <==> m in s
    ensures |log| == |s|
  {
    if log != [] {
      var x := log[|log| - 1];
      var rest := log[..|log| - 1];
      forall m ensures m in rest <==> m in s - {x} {
      }
      LogSize(rest, s - {x});
    } else {
      assert s == {};
    }
  }

  /** How many modules were taken is a count of the log, however it was extended. */
  ghost predicate Counts(k: Kernel, st: State) {
    NoRepeats(st.log) ==> st.loaded == |Taken(k, st.log)|
  }

  lemma AttemptCounts(k: Kernel, st: State, key: string)
    requires Counts(k, st)
    ensures Counts(k, Attempt(k, st, key))
  {
    var r := Attempt(k, st, key);
    assert r.log[..|r.log| - 1] == st.log;
    TakenIsSubmitted(k, st.log);
    if NoRepeats(r.log) {
      forall i | 0 <= i < |st.log| ensures st.log[i] != key {
        assert r.log[i] != r.log[|st.log|];
      }
      forall i, j | 0 <= i < j < |st.log| ensures st.log[i] != st.log[j] {
        assert r.log[i] != r.log[j];
      }
    }
  }

  lemma {:induction false} LoadCounts(ix: Index, k: Kernel, st: State, name: string)
    requires Counts(k, st)
    ensures Counts(k, Load(ix, k, st, name))
    decreases ix.deps.Keys - st.done, 0
  {
    var key := Resolve(ix, name);
    if key != "" && key !in st.done {
      var st1 := st.(done := st.done + {key});
      assert key in ix.deps.Keys - st.done;
      LoadListCounts(ix, k, st1, Needs(ix, key));
      AttemptCounts(k, LoadList(ix, k, st1, Needs(ix, key)), key);
    }
  }

  lemma {:induction false} LoadListCounts(ix: Index, k: Kernel, st: State, names: seq<string>)
    requires Counts(k, st)
    ensures Counts(k, LoadList(ix, k, st, names))
    decreases ix.deps.Keys - st.done, |names|
  {
    if names != [] {
      var st' := Load(ix, k, st, names[0]);
      assert ix.deps.Keys - st'.done <= ix.deps.Keys - st.done;
      LoadCounts(ix, k, st, names[0]);
      LoadListCounts(ix, k, st', names[1..]);
    }
  }

  lemma JoinLogs(a: seq<string>, b: seq<string>, doneA: set<string>, doneB: set<string>)
    requires NoRepeats(a) && NoRepeats(b) && doneA <= doneB
    requires (forall m :: m in a <==> m in doneA) && (forall m :: m in b <==> m in doneB - doneA)
    ensures NoRepeats(a + b) && (forall m :: m in a + b <==> m in doneB)
  {
    forall i, j | 0 <= i < j < |a + b| ensures (a + b)[i] != (a + b)[j] {
      if i < |a| <= j {
        assert a[i] in a && b[j - |a|] in b;
      }
    }
  }

  /** Loading keeps the books, on any graph, cycles included. */
  lemma ListAccounts(ix: Index, k: Kernel, st: State, names: seq<string>)
    requires Accounted(k, st)
    ensures Accounted(k, LoadList(ix, k, st, names))
  {
    hide LoadList, Taken, ModuleErrors;
    var r := LoadList(ix, k, st, names);
    LoadListContinues(ix, k, st, names);
    LoadListCounts(ix, k, st, names);
    var added := r.log[|st.log|..];
    assert r.log == st.log + added;
    JoinLogs(st.log, added, st.done, r.done);
    hide NoRepeats;
    LogSize(r.log, r.done);
  }

  lemma ListGoesOn(ix: Index, k: Kernel, st: State, names: seq<string>)
    ensures var r := LoadList(ix, k, st, names); st.log <= r.log && st.loaded <= r.loaded
  {
    LoadListContinues(ix, k, st, names);
  }

  lemma ErrorAccounts(k: Kernel, st: State)
    requires Accounted(k, st)
    ensures Accounted(k, st.(errs := st.errs + [EnumerateError]))
  {
    assert (st.errs + [EnumerateError])[..|st.errs|] == st.errs;
  }

  /** d is where discovery can be after having been at st in a given round. */
  ghost predicate Goes(m: Machine, st: State, round: nat, d: Discovery) {
    && Accounted(m.kernel, d.st) && st.log <= d.st.log && st.loaded <= d.st.loaded
    && round <= d.rounds <= MAX_ROUNDS
    && (d.rounds > round ==> d.rounds - round <= d.st.loaded - st.loaded + 1)
  }

  lemma {:induction false} DiscoverAccounts(m: Machine, st: State, round: nat, seen: nat)
    requires round <= MAX_ROUNDS && Accounted(m.kernel, st)
    ensures Goes(m, st, round, Discover(m, st, round, seen))
    decreases MAX_ROUNDS - round
  {
    hide LoadList, Accounted, MatchAll;
    if round < MAX_ROUNDS {
      var (found, failed) := m.devices(round, st.log);
      if failed && found == [] {
        ErrorAccounts(m.kernel, st);
      } else {
        var names := MatchAll(m.glob, m.ix.device, found, []);
        var st' := LoadList(m.ix, m.kernel, st, names);
        ListAccounts(m.ix, m.kernel, st, names);
        ListGoesOn(m.ix, m.kernel, st, names);
        if st'.loaded != st.loaded {
          DiscoverAccounts(m, st', round + 1, |found|);
        }
      }
    }
  }

  /** Every round but the last loads something, so there are few of them. */
  lemma {:induction false} RoundsAreFew(m: Machine, st: State)
    requires Accounted(m.kernel, st) && st.done <= m.ix.deps.Keys
    ensures var d := Discover(m, st, 0, 0);
      d.rounds <= MAX_ROUNDS && d.rounds <= 1 + |m.ix.deps.Keys - Taken(m.kernel, st.log)|
  {
    var d := Discover(m, st, 0, 0);
    DiscoverAccounts(m, st, 0, 0);
    DiscoverStaysInIndex(m, st, 0, 0);
    TakenIsSubmitted(m.kernel, st.log);
    TakenIsSubmitted(m.kernel, d.st.log);
    TakenGrows(m.kernel, st.log, d.st.log);
    var a, b := Taken(m.kernel, st.log), Taken(m.kernel, d.st.log);
    hide Discover, Taken;
    assert b - a <= m.ix.deps.Keys - a;
    Smaller(b - a, m.ix.deps.Keys - a);
    assert |b - a| == |b| - |a|;
  }

  lemma Smaller(a: set<string>, b: set<string>)
    requires a <= b
    ensures |a| <= |b|
  {
    assert b == a + (b - a);
  }

  lemma {:induction false} TakenGrows(k: Kernel, a: seq<string>, b: seq<string>)
    requires a <= b
    ensures Taken(k, a) <= Taken(k, b)
    decreases |b|
  {
    if |a| < |b| {
      TakenGrows(k, a, b[..|b| - 1]);
    } else {
      assert a == b;
    }
  }

  lemma {:induction false} LoadStaysInIndex(ix: Index, k: Kernel, st: State, name: string)
    requires st.done <= ix.deps.Keys
    ensures Load(ix, k, st, name).done <= ix.deps.Keys
    decreases ix.deps.Keys - st.done, 0
  {
    var key := Resolve(ix, name);
    if key != "" && key !in st.done {
      assert key in ix.deps.Keys - st.done;
      ListStaysInIndex(ix, k, st.(done := st.done + {key}), Needs(ix, key));
    }
  }

  lemma {:induction false} ListStaysInIndex(ix: Index, k: Kernel, st: State, names: seq<string>)
    requires st.done <= ix.deps.Keys
    ensures LoadList(ix, k, st, names).done <= ix.deps.Keys
    decreases ix.deps.Keys - st.done, |names|
  {
    if names != [] {
      var st' := Load(ix, k, st, names[0]);
      assert ix.deps.Keys - st'.done <= ix.deps.Keys - st.done;
      LoadStaysInIndex(ix, k, st, names[0]);
      ListStaysInIndex(ix, k, st', names[1..]);
    }
  }

  lemma {:induction false} DiscoverStaysInIndex(m: Machine, st: State, round: nat, seen: nat)
    requires round <= MAX_ROUNDS && st.done <= m.ix.deps.Keys
    ensures Discover(m, st, round, seen).st.done <= m.ix.deps.Keys
    decreases MAX_ROUNDS - round
  {
    if round < MAX_ROUNDS {
      var (found, failed) := m.devices(round, st.log);
      if !(failed && found == []) {
        var names := MatchAll(m.glob, m.ix.device, found, []);
        ListStaysInIndex(m.ix, m.kernel, st, names);
        var st' := LoadList(m.ix, m.kernel, st, names);
        hide LoadList, MatchAll;
        if st'.loaded != st.loaded {
          DiscoverStaysInIndex(m, st', round + 1, |found|);
        }
      }
    }
  }

  // ------------------------------------------------------------------ the fixpoint

  /** The devices present depend on nothing but which modules the kernel has taken. */
  ghost predicate DevicesFollowModules(m: Machine) {
    forall r1: nat, r2: nat, l1, l2 :: Taken(m.kernel, l1) == Taken(m.kernel, l2) ==> m.devices(r1, l1) == m.devices(r2, l2)
  }

  predicate WantedFor(m: Machine, modalias: string, target: string, key: string) {
    Drives(m.glob, m.ix.device, modalias, target) && Resolve(m.ix, target) == key
  }

  /** A module that drives a device present after a log, and that this kernel ships. */
  ghost predicate Wanted(m: Machine, log: seq<string>, key: string) {
    key != "" && exists i, t :: 0 <= i < |m.devices(0, log).0| && WantedFor(m, m.devices(0, log).0[i], t, key)
  }

  /**
   * When discovery settles, enumerating the devices once more finds none whose driver has not been
   * submitted.
   */
  lemma {:induction false} SettledMeansDone(m: Machine, st: State, round: nat, seen: nat, key: string)
    requires round <= MAX_ROUNDS && Accounted(m.kernel, st) && DevicesFollowModules(m)
    requires Discover(m, st, round, seen).stop == Settled
    ensures Wanted(m, Discover(m, st, round, seen).st.log, key) ==> key in Discover(m, st, round, seen).st.log
    decreases MAX_ROUNDS - round
  {
    hide LoadList, MatchAll, Accounted, DevicesFollowModules, Wanted, Taken;
    var (found, failed) := m.devices(round, st.log);
    var names := MatchAll(m.glob, m.ix.device, found, []);
    var st' := LoadList(m.ix, m.kernel, st, names);
    ListAccounts(m.ix, m.kernel, st, names);
    if st'.loaded != st.loaded {
      SettledMeansDone(m, st', round + 1, |found|, key);
    } else if Wanted(m, st'.log, key) {
      LastRound(m, st, names, found, round, st', key);
    }
  }

  lemma LastRound(m: Machine, st: State, names: seq<string>, found: seq<string>, round: nat, st': State, key: string)
    requires Accounted(m.kernel, st) && Accounted(m.kernel, st') && DevicesFollowModules(m)
    requires found == m.devices(round, st.log).0 && names == MatchAll(m.glob, m.ix.device, found, [])
    requires st' == LoadList(m.ix, m.kernel, st, names) && st'.loaded == st.loaded && Wanted(m, st'.log, key)
    ensures key in st'.log
  {
    hide LoadList, MatchAll, Taken;
    LoadListContinues(m.ix, m.kernel, st, names);
    SameTaken(m.kernel, st.log, st'.log);
    assert m.devices(0, st'.log) == m.devices(round, st.log);
    var i, t :| 0 <= i < |m.devices(0, st'.log).0| && WantedFor(m, m.devices(0, st'.log).0[i], t, key);
    MatchAllExactly(m.glob, m.ix.device, found, [], t);
    LoadListMarks(m.ix, m.kernel, st, names, t);
  }

  lemma SameTaken(k: Kernel, a: seq<string>, b: seq<string>)
    requires a <= b && |Taken(k, a)| == |Taken(k, b)|
    ensures Taken(k, a) == Taken(k, b)
  {
    TakenGrows(k, a, b);
    SameSize(Taken(k, a), Taken(k, b));
  }

  lemma SameSize(x: set<string>, y: set<string>)
    requires x <= y && |x| == |y|
    ensures x == y
  {
    assert y == x + (y - x) && |y| == |x| + |y - x|;
    assert y - x == {};
  }

  lemma {:induction false} LoadListMarks(ix: Index, k: Kernel, st: State, names: seq<string>, t: string)
    requires t in names && Resolve(ix, t) != ""
    ensures Resolve(ix, t) in LoadList(ix, k, st, names).done
    decreases |names|
  {
    var st' := Load(ix, k, st, names[0]);
    if names[0] != t {
      LoadListMarks(ix, k, st', names[1..], t);
    }
  }
}
