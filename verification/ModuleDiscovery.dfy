/** What a run of discovery is made of, round by round, and what it reports. */
module ModuleDiscovery {
  import opened ModuleSpec
  import opened ModuleDevices

  // ------------------------------------------------------------------ the rounds

  /** The modules to load for some devices: each that drives one of them, once. */
  ghost predicate AreDrivers(m: Machine, names: seq<string>, found: seq<string>) {
    && NoRepeats(names)
    && forall t :: t in names <==> exists j :: 0 <= j < |found| && Drives(m.glob, m.ix.device, found[j], t)
  }

  /** One round: the devices are enumerated, at least in part, and their drivers loaded. */
  ghost predicate IsRound(m: Machine, a: State, b: State, round: nat) {
    var (found, failed) := m.devices(round, a.log);
    && (failed ==> found != [])
    && exists names :: AreDrivers(m, names, found) && b == LoadList(m.ix, m.kernel, a, names)
  }

  /** The states between rounds, each round but perhaps the last loading something new. */
  ghost predicate AreRounds(m: Machine, sts: seq<State>, round: nat) {
    && (forall i :: 0 <= i < |sts| - 1 ==> IsRound(m, sts[i], sts[i + 1], round + i))
    && (forall i :: 0 <= i < |sts| - 2 ==> sts[i + 1].loaded != sts[i].loaded)
  }

  /** How discovery ends after these rounds. */
  ghost predicate Ends(m: Machine, sts: seq<State>, round: nat, d: Discovery)
    requires sts != []
  {
    var last := sts[|sts| - 1];
    && d.rounds == round + |sts| - 1
    && match d.stop
       case Settled => d.st == last && |sts| >= 2 && last.loaded == sts[|sts| - 2].loaded
       case RoundsUsedUp => d.st == last && d.rounds == 8 && (|sts| >= 2 ==> last.loaded != sts[|sts| - 2].loaded)
       case EnumerationFailed =>
         && d.rounds < 8 && m.devices(d.rounds, last.log) == ([], true)
         && (|sts| >= 2 ==> last.loaded != sts[|sts| - 2].loaded)
         && d.st == last.(errs := last.errs + [EnumerateError])
  }

  /** The number of devices reported is that of the last round there was. */
  ghost predicate Reports(m: Machine, sts: seq<State>, round: nat, seen: nat, d: Discovery)
    requires sts != []
  {
    d.seen == if |sts| == 1 then seen else |m.devices(round + |sts| - 2, sts[|sts| - 2].log).0|
  }

  lemma DriversOf(m: Machine, found: seq<string>)
    ensures AreDrivers(m, MatchAll(m.glob, m.ix.device, found, []), found)
  {
    var names := MatchAll(m.glob, m.ix.device, found, []);
    forall t ensures NoRepeats(names)
      && (t in names <==> exists j :: 0 <= j < |found| && Drives(m.glob, m.ix.device, found[j], t))
    {
      hide MatchAll, Drives;
      MatchAllExactly(m.glob, m.ix.device, found, [], t);
    }
    assert NoRepeats(names) by { MatchAllExactly(m.glob, m.ix.device, found, [], ""); }
  }

  lemma RoundFirst(m: Machine, a: State, sts: seq<State>, round: nat)
    requires sts != [] && IsRound(m, a, sts[0], round) && AreRounds(m, sts, round + 1)
    requires |sts| >= 2 ==> sts[0].loaded != a.loaded
    ensures AreRounds(m, [a] + sts, round)
  {
    hide IsRound;
    var all := [a] + sts;
    forall i | 0 <= i < |all| - 1 ensures IsRound(m, all[i], all[i + 1], round + i) {
      if i > 0 { assert all[i] == sts[i - 1] && all[i + 1] == sts[i - 1 + 1]; }
    }
    forall i | 0 <= i < |all| - 2 ensures all[i + 1].loaded != all[i].loaded {
      if i > 0 { assert all[i] == sts[i - 1] && all[i + 1] == sts[i - 1 + 1]; }
    }
  }

  /**
   * Discovery is up to eight rounds, each loading the drivers of what was enumerated, even where enumerating
   * failed part way. It settles at the first round that loads nothing, and ends early only when a round finds
   * nothing because enumerating failed.
   */
  lemma {:induction false} DiscoveredInRounds(m: Machine, st: State, round: nat, seen: nat) returns (sts: seq<State>)
    requires round <= 8
    ensures sts != [] && sts[0] == st && AreRounds(m, sts, round)
    ensures Ends(m, sts, round, Discover(m, st, round, seen))
    ensures Reports(m, sts, round, seen, Discover(m, st, round, seen))
    decreases 8 - round
  {
    hide LoadList, MatchAll, IsRound, AreDrivers;
    var d := Discover(m, st, round, seen);
    if round == 8 {
      return [st];
    }
    var (found, failed) := m.devices(round, st.log);
    if failed && found == [] {
      return [st];
    }
    var names := MatchAll(m.glob, m.ix.device, found, []);
    var st' := LoadList(m.ix, m.kernel, st, names);
    assert IsRound(m, st, st', round) by { DriversOf(m, found); Round(m, st, names, round); }
    if st'.loaded == st.loaded {
      return [st, st'];
    }
    var rest := DiscoveredInRounds(m, st', round + 1, |found|);
    RoundFirst(m, st, rest, round);
    sts := [st] + rest;
    assert sts[|sts| - 1] == rest[|rest| - 1];
    assert |rest| >= 2 ==> sts[|sts| - 2] == rest[|rest| - 2];
  }

  lemma Round(m: Machine, st: State, names: seq<string>, round: nat)
    requires AreDrivers(m, names, m.devices(round, st.log).0)
    requires m.devices(round, st.log).1 ==> m.devices(round, st.log).0 != []
    ensures IsRound(m, st, LoadList(m.ix, m.kernel, st, names), round)
  {
    hide LoadList;
  }

  // ------------------------------------------------------------------ the errors

  /** A module's error is what the kernel made of it at its turn. */
  function Failures(k: Kernel, log: seq<string>): seq<LoadError> {
    if log == [] then []
    else
      var before, last := log[..|log| - 1], log[|log| - 1];
      Failures(k, before) + if k(before, last) == Success then [] else [ModuleError(last, k(before, last))]
  }

  lemma AttemptReports(k: Kernel, st: State, key: string)
    requires st.errs == Failures(k, st.log)
    ensures Attempt(k, st, key).errs == Failures(k, Attempt(k, st, key).log)
  {
    var r := Attempt(k, st, key);
    assert r.log[..|r.log| - 1] == st.log;
  }

  lemma {:induction false} LoadReports(ix: Index, k: Kernel, st: State, name: string)
    requires st.errs == Failures(k, st.log)
    ensures Load(ix, k, st, name).errs == Failures(k, Load(ix, k, st, name).log)
    decreases ix.deps.Keys - st.done, 0
  {
    var key := Resolve(ix, name);
    if key != "" && key !in st.done {
      assert key in ix.deps.Keys - st.done;
      var st1 := st.(done := st.done + {key});
      ListReports(ix, k, st1, Needs(ix, key));
      hide Attempt;
      AttemptReports(k, LoadList(ix, k, st1, Needs(ix, key)), key);
    }
  }

  /** Every module the kernel did not take is reported, in the order they were submitted, and nothing else. */
  lemma {:induction false} ListReports(ix: Index, k: Kernel, st: State, names: seq<string>)
    requires st.errs == Failures(k, st.log)
    ensures LoadList(ix, k, st, names).errs == Failures(k, LoadList(ix, k, st, names).log)
    decreases ix.deps.Keys - st.done, |names|
  {
    if names != [] {
      var st' := Load(ix, k, st, names[0]);
      assert ix.deps.Keys - st'.done <= ix.deps.Keys - st.done;
      LoadReports(ix, k, st, names[0]);
      ListReports(ix, k, st', names[1..]);
    }
  }

  /** And the same for discovery, which adds at most one error of its own, at the end. */
  lemma {:induction false} DiscoveryReports(m: Machine, st: State, round: nat, seen: nat)
    requires round <= 8 && st.errs == Failures(m.kernel, st.log)
    ensures var d := Discover(m, st, round, seen);
      d.st.errs == Failures(m.kernel, d.st.log) + if d.stop.EnumerationFailed? then [EnumerateError] else []
    decreases 8 - round
  {
    hide LoadList, MatchAll, Failures;
    if round < 8 {
      var (found, failed) := m.devices(round, st.log);
      if !(failed && found == []) {
        var names := MatchAll(m.glob, m.ix.device, found, []);
        var st' := LoadList(m.ix, m.kernel, st, names);
        ListReports(m.ix, m.kernel, st, names);
        if st'.loaded != st.loaded {
          DiscoveryReports(m, st', round + 1, |found|);
        }
      }
    }
  }
}
