/** The session loop of `auto` in src/profile/mod.rs: launch, and fail over to another profile at a limit. */
module Failover {
  import opened Options
  import opened Faults
  import opened ProfileRegistry
  import opened Rotation

  /** `mark_limited`: expired cooldowns go, and this profile cools down for five minutes. */
  function MarkLimited(p: Registry, name: Name, now: real): Registry {
    p.(cooldowns := (map n | n in p.cooldowns && p.cooldowns[n] > now :: p.cooldowns[n])[name := now + LIMIT_SECONDS])
  }

  /** The limited profile is out for five minutes; for every other profile nothing changes from now on. */
  lemma LimitedProfileCools(p: Registry, name: Name, now: real, later: real)
    requires now <= later
    ensures Cooling(MarkLimited(p, name, now), name, later) <==> later < now + 5.0 * 60.0
    ensures forall n | n != name :: Cooling(MarkLimited(p, name, now), n, later) <==> Cooling(p, n, later)
  {
  }

  /** The registry between two launches: recorded, then limited. */
  function Between(env: Surroundings, i: nat, p: Registry, name: Name): Registry {
    MarkLimited(env.others(4 * i + 3, AfterTurn(env, i, p, name)), name, env.limitedAt(i))
  }

  /** The first launch needs no reason; every other follows a limit and a verified binary. */
  predicate MayLaunch(env: Surroundings, i: nat) {
    i > 0 ==> env.launch(i - 1) == LimitSeen(true, true)
  }

  function SetOf(names: seq<Name>): set<Name> {
    set n | n in names
  }

  ghost predicate NoRepeats(names: seq<Name>) {
    forall i, j | 0 <= i < j < |names| :: names[i] != names[j]
  }

  /** Turn `i` found `found`, chose `name`, and last read `p`. */
  ghost predicate SelectedAt(
    env: Surroundings, i: nat, found: Registry, attempted: set<Name>, name: Name, p: Registry)
  {
    p == WorldAt(env, i, found).after && Chosen(WorldAt(env, i, found), attempted, name)
  }

  /** Turn `i` found `found` and wrote `name` to the registry as the last selected profile. */
  ghost predicate RecordedAt(env: Surroundings, i: nat, found: Registry, name: Name, record: Registry) {
    record == AfterTurn(env, i, found, name)
  }

  /** Turn `i` found `found`, launched `name` and left `next`. */
  ghost predicate LimitedAt(env: Surroundings, i: nat, found: Registry, name: Name, next: Registry) {
    next == Between(env, i, found, name)
  }

  /**
   Turn `i` was allowed; it launched the choice among the profiles not launched
   before, recorded it first, and left the registry that the next turn finds.
  */
  ghost predicate LaunchedAt(
    env: Surroundings, states: seq<Registry>, launched: seq<Name>, records: seq<Registry>, i: nat)
    requires i < |launched| == |records| <= |states|
  {
    && MayLaunch(env, i)
    && Chosen(WorldAt(env, i, states[i]), SetOf(launched[..i]), launched[i])
    && RecordedAt(env, i, states[i], launched[i], records[i])
    && (i + 1 < |states| ==> LimitedAt(env, i, states[i], launched[i], states[i + 1]))
  }

  ghost predicate LaunchedInTurn(
    env: Surroundings, states: seq<Registry>, launched: seq<Name>, records: seq<Registry>)
  {
    && |launched| == |records| <= |states|
    && forall i | 0 <= i < |launched| :: LaunchedAt(env, states, launched, records, i)
  }

  /** No profile can be chosen: none is idle, one cannot be examined, or the registry cannot be used. */
  ghost predicate NothingToChoose(w: World, attempted: set<Name>) {
    || !Legible(w)
    || (exists n :: Eligible(w, attempted, n) && w.availability(n).Broken?)
    || (forall n | Eligible(w, attempted, n) :: !w.availability(n).Idle?)
  }

  /** Why a loop on a reliable disk stops after turn `i`. */
  ghost predicate Stops(env: Surroundings, i: nat, found: Registry, name: Name, attempted: set<Name>) {
    var next := Between(env, i, found, name);
    || env.launch(i) != LimitSeen(true, true)
    || !ValidRegistry(next)
    || NothingToChoose(WorldAt(env, i + 1, next), attempted)
  }

  /** Why it fails: there is no first choice, or a choice cannot be recorded. */
  ghost predicate Fails(env: Surroundings, states: seq<Registry>, launched: seq<Name>) {
    var turn := |launched|;
    && |states| == turn + 1
    && ((turn == 0 && NothingToChoose(WorldAt(env, 0, states[0]), {}))
        || exists name :: !ValidRegistry(AfterTurn(env, turn, states[turn], name))
                          && Chosen(WorldAt(env, turn, states[turn]), SetOf(launched), name))
  }

  predicate Among(r: Registry, registered: set<Name>) {
    forall n <- r.profiles :: n in registered
  }

  /** Said of the launches alone: why each of them happened, and of what. */
  lemma LaunchesAreEarned(
    env: Surroundings, states: seq<Registry>, launched: seq<Name>, records: seq<Registry>, i: nat)
    requires LaunchedInTurn(env, states, launched, records) && i < |launched|
    ensures records[i].lastSelected == Some(launched[i]) && launched[i] !in launched[..i]
    ensures launched[i] in env.others(4 * i + 1, env.others(4 * i, states[i])).profiles
    // Every launch but the first follows one that reported a limit, allowed a restart and left a verified binary.
    ensures i > 0 ==>
              && env.launch(i - 1).LimitSeen? && env.launch(i - 1).restart && env.launch(i - 1).verified
              && launched[i - 1] in states[i].cooldowns
              && states[i].cooldowns[launched[i - 1]] == env.limitedAt(i - 1) + 300.0
  {
    assert LaunchedAt(env, states, launched, records, i);
    if i > 0 { assert LaunchedAt(env, states, launched, records, i - 1); }
  }

  /** Other processes may register and remove profiles, but only out of these. */
  ghost predicate Within(env: Surroundings, registered: set<Name>) {
    forall k, p: Registry | Among(p, registered) :: Among(env.others(k, p), registered)
  }

  lemma AfterStaysWithin(env: Surroundings, registered: set<Name>, i: nat, found: Registry)
    requires Within(env, registered) && Among(found, registered)
    ensures Among(WorldAt(env, i, found).after, registered)
  {
    var before := env.others(4 * i, found);
    assert Among(before, registered);
  }

  lemma StaysWithin(env: Surroundings, registered: set<Name>, i: nat, found: Registry, name: Name, next: Registry)
    requires Within(env, registered) && Among(found, registered) && LimitedAt(env, i, found, name, next)
    ensures Among(next, registered)
  {
    AfterStaysWithin(env, registered, i, found);
    var p := WorldAt(env, i, found).after;
    assert Among(env.others(4 * i + 2, p), registered);
    var record := AfterTurn(env, i, found, name);
    assert Among(env.others(4 * i + 3, record), registered);
  }

  lemma SelectedIsRegistered(
    env: Surroundings, registered: set<Name>, i: nat, found: Registry, attempted: set<Name>, name: Name, p: Registry)
    requires SelectedAt(env, i, found, attempted, name, p) && Among(p, registered)
    ensures name in registered && name !in attempted
  {
  }

  /** What holds of the launches so far. */
  ghost predicate Progress(
    env: Surroundings, registered: set<Name>, states: seq<Registry>, launched: seq<Name>, records: seq<Registry>,
    attempted: set<Name>)
  {
    && attempted == SetOf(launched) && |attempted| == |launched| <= |registered| && attempted <= registered
    && NoRepeats(launched) && LaunchedInTurn(env, states, launched, records) && states != []
  }

  /** The loop has selected the next profile and found the registry `p`. */
  ghost predicate Underway(
    env: Surroundings, registered: set<Name>, states: seq<Registry>, launched: seq<Name>, records: seq<Registry>,
    attempted: set<Name>, p: Registry, selected: Name)
  {
    && Progress(env, registered, states, launched, records, attempted)
    && |states| == |launched| + 1 && Among(states[|launched|], registered) && Among(p, registered)
    && MayLaunch(env, |launched|)
    && SelectedAt(env, |launched|, states[|launched|], attempted, selected, p)
  }

  lemma Subset(a: set<Name>, b: set<Name>)
    requires a <= b
    ensures |a| <= |b|
  {
    assert b == a + (b - a);
  }

  lemma OneMoreAttempt(before: set<Name>, registered: set<Name>, selected: Name)
    requires before <= registered && selected in registered && selected !in before
    ensures |before + {selected}| == |before| + 1 && |before + {selected}| <= |registered|
  {
    Subset(before + {selected}, registered);
  }

  lemma OneMoreLaunch(
    env: Surroundings, states: seq<Registry>, launched: seq<Name>, records: seq<Registry>, selected: Name,
    record: Registry)
    requires LaunchedInTurn(env, states, launched, records) && |states| == |launched| + 1
    requires MayLaunch(env, |launched|)
    requires Chosen(WorldAt(env, |launched|, states[|launched|]), SetOf(launched), selected)
    requires RecordedAt(env, |launched|, states[|launched|], selected, record)
    ensures LaunchedInTurn(env, states, launched + [selected], records + [record])
  {
    var all, written := launched + [selected], records + [record];
    forall i | 0 <= i < |all| ensures LaunchedAt(env, states, all, written, i) {
      if i < |launched| {
        assert all[..i] == launched[..i];
        assert LaunchedAt(env, states, launched, records, i);
      } else {
        assert all[..i] == launched;
      }
    }
  }

  lemma OneMoreState(
    env: Surroundings, states: seq<Registry>, launched: seq<Name>, records: seq<Registry>, next: Registry)
    requires LaunchedInTurn(env, states, launched, records) && |states| == |launched| > 0
    requires LimitedAt(env, |launched| - 1, states[|launched| - 1], launched[|launched| - 1], next)
    ensures LaunchedInTurn(env, states + [next], launched, records)
  {
    var all := states + [next];
    forall i | 0 <= i < |launched| ensures LaunchedAt(env, all, launched, records, i) {
      assert LaunchedAt(env, states, launched, records, i);
      assert all[i] == states[i];
      assert i + 1 < |states| ==> all[i + 1] == states[i + 1];
    }
  }

  lemma NewName(launched: seq<Name>, selected: Name)
    requires NoRepeats(launched) && selected !in SetOf(launched)
    ensures NoRepeats(launched + [selected]) && SetOf(launched + [selected]) == SetOf(launched) + {selected}
  {
    assert forall i | 0 <= i < |launched| :: launched[i] in SetOf(launched);
  }

  lemma LaunchKeeps(
    env: Surroundings, registered: set<Name>, states: seq<Registry>, launched: seq<Name>, records: seq<Registry>,
    attempted: set<Name>, p: Registry, selected: Name, record: Registry)
    requires Underway(env, registered, states, launched, records, attempted, p, selected)
    requires RecordedAt(env, |launched|, states[|launched|], selected, record)
    ensures Progress(env, registered, states, launched + [selected], records + [record], attempted + {selected})
  {
    SelectedIsRegistered(env, registered, |launched|, states[|launched|], attempted, selected, p);
    NewName(launched, selected);
    OneMoreAttempt(attempted, registered, selected);
    OneMoreLaunch(env, states, launched, records, selected, record);
  }

  lemma FirstIsUnderway(env: Surroundings, registered: set<Name>, found: Registry, p: Registry, selected: Name)
    requires Within(env, registered) && Among(found, registered) && MayLaunch(env, 0)
    requires SelectedAt(env, 0, found, {}, selected, p)
    ensures Underway(env, registered, [found], [], [], {}, p, selected)
  {
    AfterStaysWithin(env, registered, 0, found);
  }

  lemma SwitchKeeps(
    env: Surroundings, registered: set<Name>, states: seq<Registry>, launched: seq<Name>, records: seq<Registry>,
    attempted: set<Name>, next: Registry, p: Registry, selected: Name)
    requires Progress(env, registered, states, launched, records, attempted) && |states| == |launched| > 0
    requires LimitedAt(env, |launched| - 1, states[|launched| - 1], launched[|launched| - 1], next)
    requires SelectedAt(env, |launched|, next, attempted, selected, p)
    requires Within(env, registered) && Among(states[|launched| - 1], registered) && MayLaunch(env, |launched|)
    ensures Underway(env, registered, states + [next], launched, records, attempted, p, selected)
  {
    OneMoreState(env, states, launched, records, next);
    StaysWithin(env, registered, |launched| - 1, states[|launched| - 1], launched[|launched| - 1], next);
    AfterStaysWithin(env, registered, |launched|, next);
    assert (states + [next])[|launched|] == next;
  }

  /** The registry file, as the session loop reads and writes it. */
  class RegistryFile {
    const reliable: bool
    var registry: Registry

    constructor (registry: Registry, reliable: bool)
      ensures this.registry == registry && this.reliable == reliable
    {
      this.registry, this.reliable := registry, reliable;
    }

    /** Other processes had the lock in between. */
    method Observe(p: Registry)
      modifies this
      ensures registry == p
    {
      registry := p;
    }

    /** `write_state`: only a valid registry is written; a failure may come before or after the file was replaced. */
    method Write(r: Registry) returns (ok: bool)
      modifies this
      ensures ok ==> ValidRegistry(r) && registry == r
      ensures !ok ==> registry == old(registry) || registry == r
      ensures reliable ==> ok == ValidRegistry(r)
    {
      var fault := Fault(reliable);
      if !ValidRegistry(r) || fault { return false; }
      registry := r;
      fault := Fault(reliable);
      ok := !fault;
    }

    /** The selection of one turn: read, measure, read again, choose. */
    method SelectTurn(env: Surroundings, turn: nat, attempted: set<Name>) returns (r: Result<Option<Name>, ()>)
      modifies this
      ensures registry == WorldAt(env, turn, old(registry)).after
      ensures r.Ok? && r.value.Some? ==> SelectedAt(env, turn, old(registry), attempted, r.value.value, registry)
      ensures r.Err? || r.value.None? ==> NothingToChoose(WorldAt(env, turn, old(registry)), attempted)
    {
      Observe(env.others(4 * turn, registry));
      var before := registry;
      Observe(env.others(4 * turn + 1, registry));
      r := Select(
        World(before, env.measured(turn), env.startedAt(turn), registry, env.now(turn), env.availability(turn),
              env.readable(turn)), attempted);
    }

    /** The selected profile becomes the last selected one. */
    method Record(env: Surroundings, turn: nat, name: Name, ghost found: Registry) returns (ok: bool)
      requires registry == WorldAt(env, turn, found).after
      modifies this
      ensures ok ==> RecordedAt(env, turn, found, name, registry)
      ensures reliable && !ok ==> !ValidRegistry(AfterTurn(env, turn, found, name))
    {
      Observe(env.others(4 * turn + 2, registry));
      ok := Write(Recorded(registry, name));
    }

    /** `mark_limited`, with its reading of the registry. */
    method Limit(env: Surroundings, turn: nat, name: Name, ghost found: Registry) returns (saved: bool)
      requires RecordedAt(env, turn, found, name, registry)
      modifies this
      ensures saved ==> LimitedAt(env, turn, found, name, registry)
      ensures reliable && !saved ==> !ValidRegistry(Between(env, turn, found, name))
    {
      Observe(env.others(4 * turn + 3, registry));
      saved := Write(MarkLimited(registry, name, env.limitedAt(turn)));
    }

    /** What the loop starts after a launch, if anything: only past a saved limit and with a verified binary. */
    method Successor(env: Surroundings, turn: nat, name: Name, attempted: set<Name>, ghost found: Registry)
      returns (successor: Option<Name>, ghost next: Registry)
      requires RecordedAt(env, turn, found, name, registry)
      modifies this
      ensures successor.Some? ==>
                && MayLaunch(env, turn + 1)
                && LimitedAt(env, turn, found, name, next)
                && SelectedAt(env, turn + 1, next, attempted, successor.value, registry)
      ensures reliable && successor.None? ==> Stops(env, turn, found, name, attempted)
    {
      successor, next := None, registry;
      var launch := env.launch(turn);
      if launch.Ended? { return; }
      var saved := Limit(env, turn, name, found);
      if !saved || !launch.restart { return; }
      next := registry;
      var selection := SelectTurn(env, turn + 1, attempted);
      if selection.Ok? && launch.verified { successor := selection.value; }
    }

    /** One launch: record the profile, launch it, and reserve what follows it. */
    method Launch(
      env: Surroundings, name: Name, attempted: set<Name>, turn: nat, ghost registered: set<Name>,
      ghost states: seq<Registry>, ghost launched: seq<Name>, ghost records: seq<Registry>)
      returns (recorded: bool, successor: Option<Name>, ghost record: Registry, ghost next: Registry)
      requires Within(env, registered) && turn == |launched|
      requires Underway(env, registered, states, launched, records, attempted, registry, name)
      modifies this
      ensures recorded ==>
                Progress(env, registered, states, launched + [name], records + [record], attempted + {name})
      ensures successor.Some? ==>
                && recorded
                && Underway(env, registered, states + [next], launched + [name], records + [record], attempted + {name},
                            registry, successor.value)
      ensures reliable && !recorded ==> !ValidRegistry(AfterTurn(env, turn, states[turn], name))
      ensures reliable && recorded && successor.None? ==> Stops(env, turn, states[turn], name, attempted + {name})
    {
      ghost var found, p := states[turn], registry;
      successor, record, next := None, registry, registry;
      recorded := Record(env, turn, name, found);
      if !recorded { return; }
      record := registry;
      LaunchKeeps(env, registered, states, launched, records, attempted, p, name, record);
      successor, next := Successor(env, turn, name, attempted + {name}, found);
      if successor.Some? {
        SwitchKeeps(
          env, registered, states, launched + [name], records + [record], attempted + {name}, next, registry,
          successor.value);
      }
    }

    /**
     `auto`: record and launch, and at a saved limit go on with a successor that
     was never attempted before.  So no profile is launched twice, every launch
     finds the registry in which the one before it was recorded, and the loop
     ends after at most one launch for each profile.
    */
    method Auto(env: Surroundings, ghost registered: set<Name>)
      returns (launched: seq<Name>, failed: bool, ghost states: seq<Registry>, ghost records: seq<Registry>)
      requires Within(env, registered) && Among(registry, registered)
      modifies this
      ensures NoRepeats(launched) && |launched| <= |registered|
      ensures |states| > 0 && states[0] == old(registry)
      ensures LaunchedInTurn(env, states, launched, records)
      ensures !failed ==> launched != [] && |states| == |launched|
      // On a reliable disk it stops only where nothing else can be done.
      ensures reliable && !failed ==>
                var last := |launched| - 1;
                Stops(env, last, states[last], launched[last], SetOf(launched))
      ensures reliable && failed ==> Fails(env, states, launched)
    {
      launched, failed, states, records := [], true, [registry], [];
      var attempted: set<Name> := {};
      var selection := SelectTurn(env, 0, attempted);
      if selection.Err? || selection.value.None? { return; }
      var selected := selection.value.value;
      FirstIsUnderway(env, registered, states[0], registry, selected);
      while true
        invariant Underway(env, registered, states, launched, records, attempted, registry, selected)
        invariant states[0] == old(registry)
        decreases |registered| - |launched|
      {
        var recorded, successor;
        ghost var record, next;
        recorded, successor, record, next :=
          Launch(env, selected, attempted, |launched|, registered, states, launched, records);
        if !recorded { return launched, true, states, records; }
        launched, records, attempted := launched + [selected], records + [record], attempted + {selected};
        if successor.None? { return launched, false, states, records; }
        states, selected := states + [next], successor.value;
      }
    }
  }
}
