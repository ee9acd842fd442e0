/** Choosing the next profile, as `select` of src/profile/mod.rs does.  Quota shares and times are reals. */
module Rotation {
  import opened Options
  import opened StringOrder
  import opened ProfileRegistry
  import QuotaCache

  type Name = string

  datatype Measurement = Measurement(ready: bool, windows: QuotaCache.Windows)

  datatype Availability = Idle | Missing | Leased | NoToken | Broken

  /**
   What one selection finds: the registry before and after the measurements, and
   what it measured; `readable` unless a lock, a file or the measuring fails.
  */
  datatype World = World(
    before: Registry, measured: map<Name, Measurement>, startedAt: real, after: Registry, now: real,
    availability: Name -> Availability, readable: bool)

  /** The selection gets as far as choosing. */
  predicate Legible(w: World) {
    w.readable && ValidRegistry(w.before) && ValidRegistry(w.after)
  }

  const WEEKLY_FLOOR := 0.05
  const LIMIT_SECONDS := 300.0

  predicate Cooling(registry: Registry, name: Name, now: real) {
    name in registry.cooldowns && registry.cooldowns[name] > now
  }

  /** One exhausted window settles it; otherwise both must be known. */
  function Score(m: Measurement): Option<real> {
    if m.windows.0 == Some(0.0) || m.windows.1 == Some(0.0) then Some(0.0)
    else if m.windows.0.None? || m.windows.1.None? then None
    else Some(if m.windows.0.value <= m.windows.1.value then m.windows.0.value else m.windows.1.value)
  }

  /** An unknown score ranks below every known one. */
  predicate Above(a: Option<real>, b: Option<real>) {
    a.Some? && (b.None? || a.value > b.value)
  }

  predicate Measured(w: World, attempted: set<Name>, name: Name) {
    && name in w.before.profiles && name !in attempted && !Cooling(w.before, name, w.startedAt)
    && name in w.measured
  }

  predicate DirectoryKept(w: World, name: Name) {
    && (name in w.before.directories <==> name in w.after.directories)
    && (name in w.before.directories ==> w.before.directories[name] == w.after.directories[name])
  }

  predicate Eligible(w: World, attempted: set<Name>, name: Name) {
    && name in w.after.profiles
    && Measured(w, attempted, name)
    && var m := w.measured[name];
       && m.ready && Score(m) != Some(0.0)
       && (m.windows.1.Some? ==> m.windows.1.value >= WEEKLY_FLOOR)
       && !Cooling(w.after, name, w.now)
       && DirectoryKept(w, name)
  }

  /** Exactly these profiles come into question. */
  lemma EligibleExactly(w: World, attempted: set<Name>, name: Name)
    ensures Eligible(w, attempted, name) <==>
              && name in w.before.profiles && name in w.after.profiles && name !in attempted
              // No cooldown of the registry as it was, or as it is now, is still running.
              && (name in w.before.cooldowns ==> w.before.cooldowns[name] <= w.startedAt)
              && (name in w.after.cooldowns ==> w.after.cooldowns[name] <= w.now)
              // The measurement succeeded, neither share is used up, and a known weekly share is at least a twentieth.
              && name in w.measured && w.measured[name].ready
              && w.measured[name].windows.0 != Some(0.0) && w.measured[name].windows.1 != Some(0.0)
              && (w.measured[name].windows.1.Some? ==> 20.0 * w.measured[name].windows.1.value >= 1.0)
              // Its directory is still the one that was measured.
              && Lookup(w.before.directories, name) == Lookup(w.after.directories, name)
  {
  }

  /** The chosen profile in terms of shares: its scarcer share is the largest, and unknown shares come last. */
  lemma ChosenHasMost(w: World, attempted: set<Name>, n: Name, m: Name)
    requires Chosen(w, attempted, n) && Eligible(w, attempted, m) && w.availability(m).Idle?
    ensures forall a, b | w.measured[m].windows == (Some(a), Some(b)) ::
              exists c, d :: w.measured[n].windows == (Some(c), Some(d)) && (c >= a || c >= b) && (d >= a || d >= b)
  {
    var (five, week) := w.measured[n].windows;
    if n != m && w.measured[m].windows.0.Some? && w.measured[m].windows.1.Some? {
      assert Before(StartOf(w.after), Candidate(n, Score(w.measured[n])), Candidate(m, Score(w.measured[m])));
      assert five.Some? && week.Some? && w.measured[n].windows == (Some(five.value), Some(week.value));
    }
  }

  // ---- rotation

  /** The rotation begins after the last selected profile, if that is still registered. */
  function StartOf(registry: Registry): Option<Name> {
    if registry.lastSelected.Some? && registry.lastSelected.value in registry.profiles
    then registry.lastSelected
    else None
  }

  /** `a` has its turn before `b`. */
  predicate Sooner(start: Option<Name>, a: Name, b: Name) {
    match start
    case None => Less(a, b)
    case Some(last) => if Less(last, a) == Less(last, b) then Less(a, b) else Less(last, a)
  }

  predicate InTurn(start: Option<Name>, names: seq<Name>) {
    forall i, j | 0 <= i < j < |names| :: Sooner(start, names[i], names[j])
  }

  /** One step of the sort. */
  method Place(name: Name, names: seq<Name>) returns (r: seq<Name>)
    requires InTurn(None, names) && name !in names
    ensures InTurn(None, r)
    ensures forall n :: n in r <==> n in names || n == name
  {
    var i := |names|;
    while i > 0 && Less(name, names[i - 1])
      invariant 0 <= i <= |names|
      invariant forall k | i <= k < |names| :: Less(name, names[k])
    {
      i := i - 1;
    }
    if i > 0 { LessTotal(name, names[i - 1]); }
    forall k | 0 <= k < i ensures Less(names[k], name) {
      if k < i - 1 { LessTransitive(names[k], names[i - 1], name); }
    }
    r := names[..i] + [name] + names[i..];
    assert names == names[..i] + names[i..];
  }

  method Ascending(names: seq<Name>) returns (r: seq<Name>)
    requires forall i, j | 0 <= i < j < |names| :: names[i] != names[j]
    ensures InTurn(None, r)
    ensures forall n :: n in r <==> n in names
  {
    r := [];
    for i := 0 to |names|
      invariant InTurn(None, r)
      invariant forall n :: n in r <==> n in names[..i]
    {
      r := Place(names[i], r);
      assert names[..i + 1] == names[..i] + [names[i]];
    }
    assert names[..|names|] == names;
  }

  method Rotated(r: Registry) returns (names: seq<Name>)
    requires ValidRegistry(r)
    ensures InTurn(StartOf(r), names)
    ensures forall n :: n in names <==> n in r.profiles
  {
    var ordered := Ascending(r.profiles);
    for i := 0 to |ordered|
      invariant forall k | 0 <= k < i :: Some(ordered[k]) != r.lastSelected
    {
      if Some(ordered[i]) == r.lastSelected {
        assert ordered[i] in ordered;
        LessAsymmetric();
        assert forall k | 0 <= k < |ordered| :: Less(ordered[i], ordered[k]) <==> k > i;
        return ordered[i + 1..] + ordered[..i + 1];
      }
    }
    return ordered;
  }

  // ---- one selection

  datatype Candidate = Candidate(name: Name, score: Option<real>)

  predicate Before(start: Option<Name>, a: Candidate, b: Candidate) {
    Above(a.score, b.score) || (a.score == b.score && Sooner(start, a.name, b.name))
  }

  predicate Ranked(start: Option<Name>, cs: seq<Candidate>) {
    forall i, j | 0 <= i < j < |cs| :: Before(start, cs[i], cs[j])
  }

  predicate LaterThanAll(start: Option<Name>, c: Candidate, cs: seq<Candidate>) {
    forall k | 0 <= k < |cs| :: Sooner(start, cs[k].name, c.name)
  }

  /** One step of the stable sort: a newcomer goes behind everything that scores at least as high. */
  method Insert(ghost start: Option<Name>, c: Candidate, cs: seq<Candidate>) returns (r: seq<Candidate>)
    requires Ranked(start, cs) && LaterThanAll(start, c, cs)
    ensures Ranked(start, r)
    ensures forall x :: x in r <==> x in cs || x == c
  {
    var i := |cs|;
    while i > 0 && Above(c.score, cs[i - 1].score)
      invariant 0 <= i <= |cs|
      invariant forall k | i <= k < |cs| :: Above(c.score, cs[k].score)
    {
      i := i - 1;
    }
    RankedAround(start, c, cs, i);
    r := cs[..i] + [c] + cs[i..];
    assert cs == cs[..i] + cs[i..];
  }

  lemma RankedAround(start: Option<Name>, c: Candidate, cs: seq<Candidate>, i: nat)
    requires Ranked(start, cs) && LaterThanAll(start, c, cs) && i <= |cs|
    requires forall k | i <= k < |cs| :: Above(c.score, cs[k].score)
    requires i > 0 ==> !Above(c.score, cs[i - 1].score)
    ensures Ranked(start, cs[..i] + [c] + cs[i..])
  {
    forall k | 0 <= k < i ensures Before(start, cs[k], c) {
      assert k < i - 1 ==> Before(start, cs[k], cs[i - 1]);
    }
  }

  /** Filter the profiles in turn, and sort them stably by score. */
  method Rank(w: World, attempted: set<Name>) returns (cs: seq<Candidate>)
    requires Legible(w)
    ensures Ranked(StartOf(w.after), cs)
    ensures forall c <- cs :: Eligible(w, attempted, c.name) && c.score == Score(w.measured[c.name])
    ensures forall n | Eligible(w, attempted, n) :: Candidate(n, Score(w.measured[n])) in cs
  {
    var ordered := Rotated(w.after);
    ghost var start := StartOf(w.after);
    cs := [];
    for i := 0 to |ordered|
      invariant Ranked(start, cs)
      invariant forall c <- cs ::
                  && c.name in ordered[..i] && Eligible(w, attempted, c.name)
                  && c.score == Score(w.measured[c.name])
      invariant forall k | 0 <= k < i && Eligible(w, attempted, ordered[k]) ::
                  Candidate(ordered[k], Score(w.measured[ordered[k]])) in cs
    {
      var n := ordered[i];
      if Eligible(w, attempted, n) {
        assert LaterThanAll(start, Candidate(n, Score(w.measured[n])), cs) by {
          forall k | 0 <= k < |cs| ensures Sooner(start, cs[k].name, n) {
            assert cs[k] in cs;
            var l :| 0 <= l < i && ordered[l] == cs[k].name;
          }
        }
        cs := Insert(start, Candidate(n, Score(w.measured[n])), cs);
      }
      assert ordered[..i + 1] == ordered[..i] + [n];
    }
    assert ordered[..|ordered|] == ordered;
  }

  /** Nobody that could be started scores higher, or the same and is sooner in turn. */
  ghost predicate Chosen(w: World, attempted: set<Name>, n: Name) {
    && Eligible(w, attempted, n) && w.availability(n).Idle?
    && forall m | Eligible(w, attempted, m) && w.availability(m).Idle? && m != n ::
         Before(StartOf(w.after), Candidate(n, Score(w.measured[n])), Candidate(m, Score(w.measured[m])))
  }

  /** It cannot be examined, and nobody that could be started comes before it. */
  ghost predicate BreaksFirst(w: World, attempted: set<Name>, n: Name) {
    && Eligible(w, attempted, n) && w.availability(n).Broken?
    && forall m | Eligible(w, attempted, m) && w.availability(m).Idle? ::
         Before(StartOf(w.after), Candidate(n, Score(w.measured[n])), Candidate(m, Score(w.measured[m])))
  }

  /** The first of the candidates that is idle or broken comes before all others that are. */
  lemma FirstInTurn(w: World, attempted: set<Name>, cs: seq<Candidate>, i: nat)
    requires Ranked(StartOf(w.after), cs) && i < |cs| && Eligible(w, attempted, cs[i].name)
    requires forall k | 0 <= k < i :: !w.availability(cs[k].name).Idle? && !w.availability(cs[k].name).Broken?
    requires forall n | Eligible(w, attempted, n) :: Candidate(n, Score(w.measured[n])) in cs
    requires cs[i].score == Score(w.measured[cs[i].name])
    ensures forall m | Eligible(w, attempted, m) && m != cs[i].name
                       && (w.availability(m).Idle? || w.availability(m).Broken?) ::
              Before(StartOf(w.after), cs[i], Candidate(m, Score(w.measured[m])))
    ensures w.availability(cs[i].name).Idle? ==> forall n :: !BreaksFirst(w, attempted, n)
  {
    forall m | Eligible(w, attempted, m) && m != cs[i].name
               && (w.availability(m).Idle? || w.availability(m).Broken?)
      ensures Before(StartOf(w.after), cs[i], Candidate(m, Score(w.measured[m])))
    {
      var k :| 0 <= k < |cs| && cs[k] == Candidate(m, Score(w.measured[m]));
    }
    LessAsymmetric();
  }

  method Select(w: World, attempted: set<Name>) returns (r: Result<Option<Name>, ()>)
    ensures r.Ok? ==> Legible(w)
    ensures r.Ok? && r.value.Some? ==> Chosen(w, attempted, r.value.value)
    ensures r.Ok? && r.value.None? ==> forall n | Eligible(w, attempted, n) :: !w.availability(n).Idle?
    // A profile that cannot be examined is an error exactly if it comes before every idle one.
    ensures Legible(w) ==> (r.Err? <==> exists n :: BreaksFirst(w, attempted, n))
  {
    if !Legible(w) { return Err(()); }
    var cs := Rank(w, attempted);
    for i := 0 to |cs|
      invariant forall k | 0 <= k < i :: !w.availability(cs[k].name).Idle? && !w.availability(cs[k].name).Broken?
    {
      var n := cs[i].name;
      assert cs[i] in cs;
      match w.availability(n) {
        case Idle =>
          FirstInTurn(w, attempted, cs, i);
          return Ok(Some(n));
        case Broken =>
          FirstInTurn(w, attempted, cs, i);
          assert BreaksFirst(w, attempted, n);
          return Err(());
        case Missing =>
        case Leased =>
        case NoToken =>
      }
    }
    forall n | Eligible(w, attempted, n) ensures !w.availability(n).Idle? && !w.availability(n).Broken? {
      var k :| 0 <= k < |cs| && cs[k] == Candidate(n, Score(w.measured[n]));
    }
    return Ok(None);
  }

  /** The choice is unique. */
  lemma ChoiceIsDeterministic(w: World, attempted: set<Name>, a: Name, b: Name)
    requires Chosen(w, attempted, a) && Chosen(w, attempted, b)
    ensures a == b
  {
    LessAsymmetric();
  }

  // ---- fairness

  /** Exactly these profiles, in ascending order, share the best score among those that can be started. */
  ghost predicate TiedBest(w: World, attempted: set<Name>, tied: seq<Name>) {
    && InTurn(None, tied)
    && (forall n <- tied :: Eligible(w, attempted, n) && w.availability(n).Idle?)
    && (forall n, m | n in tied && Eligible(w, attempted, m) && w.availability(m).Idle? ::
          if m in tied then Score(w.measured[m]) == Score(w.measured[n])
          else Above(Score(w.measured[n]), Score(w.measured[m])))
  }

  /** The index after `i` among `k`, going round. */
  function Wrap(i: nat, k: nat): nat {
    if i < k then i else i - k
  }

  lemma TurnPasses(w: World, attempted: set<Name>, tied: seq<Name>, n: Name)
    requires TiedBest(w, attempted, tied) && tied != [] && Chosen(w, attempted, n)
    ensures n in tied
    ensures forall m <- tied | m != n :: Sooner(StartOf(w.after), n, m)
  {
    var t := tied[0];
    assert t in tied;
    assert n !in tied ==> Above(Score(w.measured[t]), Score(w.measured[n]));
    forall m | m in tied && m != n ensures Sooner(StartOf(w.after), n, m) {
      assert Score(w.measured[m]) == Score(w.measured[n]);
      assert Before(StartOf(w.after), Candidate(n, Score(w.measured[n])), Candidate(m, Score(w.measured[m])));
    }
  }

  /** After one of the tied profiles the next one in order is chosen, and after the last the first. */
  lemma NextInTurn(w: World, attempted: set<Name>, tied: seq<Name>, i: nat, n: Name)
    requires TiedBest(w, attempted, tied) && i < |tied| && w.after.lastSelected == Some(tied[i])
    requires Chosen(w, attempted, n)
    ensures n == tied[Wrap(i + 1, |tied|)]
  {
    assert tied[i] in tied;
    TurnPasses(w, attempted, tied, n);
    var j :| 0 <= j < |tied| && tied[j] == n;
    var next := Wrap(i + 1, |tied|);
    assert tied[next] in tied;
    LessAsymmetric();
    assert j < i ==> Less(tied[j], tied[i]);
    assert i < j ==> Less(tied[i], tied[j]);
    assert next < i ==> Less(tied[next], tied[i]);
    assert i < next ==> Less(tied[i], tied[next]);
  }

  // ---- turns of the registry

  /**
   What surrounds a session loop: what other processes make of the registry
   before each of its readings, what turn `i` measures and when, and what the
   launch of turn `i` comes to.
  */
  datatype Surroundings = Surroundings(
    others: (nat, Registry) -> Registry,
    measured: nat -> map<Name, Measurement>,
    startedAt: nat -> real,
    now: nat -> real,
    availability: nat -> (Name -> Availability),
    readable: nat -> bool,
    launch: nat -> Launch,
    limitedAt: nat -> real)

  /** A launch ends by itself, or it reports a limit at which the loop may or may not restart. */
  datatype Launch = Ended | LimitSeen(restart: bool, verified: bool)

  /** The world in which turn `i` selects, if the registry is `p` when it begins. */
  function WorldAt(env: Surroundings, i: nat, p: Registry): World {
    var before := env.others(4 * i, p);
    World(before, env.measured(i), env.startedAt(i), env.others(4 * i + 1, before), env.now(i), env.availability(i),
          env.readable(i))
  }

  /** The write of `last_selected`. */
  function Recorded(p: Registry, name: Name): Registry {
    p.(lastSelected := Some(name))
  }

  /** The registry once turn `i` selected and recorded `name`. */
  function AfterTurn(env: Surroundings, i: nat, p: Registry, name: Name): Registry {
    Recorded(env.others(4 * i + 2, WorldAt(env, i, p).after), name)
  }

  /** Turn `i`, with the registry `p` when it begins, picks the best of the tied profiles. */
  ghost predicate TurnAt(
    env: Surroundings, i: nat, attempted: set<Name>, tied: seq<Name>, p: Registry, pick: Name)
  {
    TiedBest(WorldAt(env, i, p), attempted, tied) && Chosen(WorldAt(env, i, p), attempted, pick)
  }

  /** Consecutive selections, each of which records its profile, and in each of which the same profiles tie. */
  ghost predicate Turns(
    env: Surroundings, attempted: set<Name>, tied: seq<Name>, states: seq<Registry>, picks: seq<Name>)
  {
    && |states| == |picks| + 1
    && (forall i | 0 <= i < |picks| :: TurnAt(env, i, attempted, tied, states[i], picks[i]))
    && (forall i, j | 0 <= i < |picks| && j == i + 1 :: states[j] == AfterTurn(env, i, states[i], picks[i]))
  }

  /** No other process selects a profile meanwhile. */
  ghost predicate Undisturbed(env: Surroundings) {
    forall k, p :: env.others(k, p).lastSelected == p.lastSelected
  }

  lemma FindsRecorded(
    env: Surroundings, attempted: set<Name>, tied: seq<Name>, states: seq<Registry>, picks: seq<Name>, i: nat)
    requires Turns(env, attempted, tied, states, picks) && Undisturbed(env) && 0 < i < |picks|
    ensures WorldAt(env, i, states[i]).after.lastSelected == Some(picks[i - 1])
  {
    assert states[i] == AfterTurn(env, i - 1, states[i - 1], picks[i - 1]);
  }

  /** Each pick is the one after the pick before it. */
  ghost predicate GoesRound(tied: seq<Name>, picks: seq<Name>) {
    forall i, at | 0 < i < |picks| && 0 <= at < |tied| && picks[i - 1] == tied[at] ::
      picks[i] == tied[Wrap(at + 1, |tied|)]
  }

  lemma OneTurn(
    env: Surroundings, attempted: set<Name>, tied: seq<Name>, states: seq<Registry>, picks: seq<Name>, i: nat, at: nat)
    requires Turns(env, attempted, tied, states, picks) && Undisturbed(env)
    requires 0 < i < |picks| && at < |tied| && picks[i - 1] == tied[at]
    ensures picks[i] == tied[Wrap(at + 1, |tied|)]
  {
    FindsRecorded(env, attempted, tied, states, picks, i);
    assert TurnAt(env, i, attempted, tied, states[i], picks[i]);
    NextInTurn(WorldAt(env, i, states[i]), attempted, tied, at, picks[i]);
  }

  lemma TurnsGoRound(env: Surroundings, attempted: set<Name>, tied: seq<Name>, states: seq<Registry>, picks: seq<Name>)
    requires Turns(env, attempted, tied, states, picks) && Undisturbed(env)
    ensures GoesRound(tied, picks)
  {
    forall i, at | 0 < i < |picks| && 0 <= at < |tied| && picks[i - 1] == tied[at]
      ensures picks[i] == tied[Wrap(at + 1, |tied|)]
    {
      OneTurn(env, attempted, tied, states, picks, i, at);
    }
  }

  lemma {:induction false} PicksGoRound(tied: seq<Name>, picks: seq<Name>, first: nat, i: nat)
    requires GoesRound(tied, picks) && first < |tied| && i < |picks| <= |tied|
    requires picks[0] == tied[first]
    ensures picks[i] == tied[Wrap(first + i, |tied|)]
  {
    if i > 0 {
      PicksGoRound(tied, picks, first, i - 1);
      assert picks[i] == tied[Wrap(Wrap(first + i - 1, |tied|) + 1, |tied|)];
    }
  }

  /** Going round once from anywhere meets every place exactly once. */
  lemma RoundTrip(tied: seq<Name>, picks: seq<Name>, first: nat)
    requires InTurn(None, tied) && |picks| == |tied| && first < |tied|
    requires forall i | 0 <= i < |picks| :: picks[i] == tied[Wrap(first + i, |tied|)]
    ensures forall i, j | 0 <= i < j < |picks| :: picks[i] != picks[j]
    ensures forall n :: n in picks <==> n in tied
  {
    var k := |tied|;
    LessAsymmetric();
    forall i, j | 0 <= i < j < k ensures picks[i] != picks[j] {
      var a, b := Wrap(first + i, k), Wrap(first + j, k);
      assert a != b && (a < b ==> Less(tied[a], tied[b])) && (b < a ==> Less(tied[b], tied[a]));
    }
    forall n | n in tied ensures n in picks {
      var at :| 0 <= at < k && tied[at] == n;
      var i := if at >= first then at - first else at + k - first;
      assert picks[i] == n;
    }
  }

  /**
   Fair rotation: while k profiles tie for best and stay idle and eligible, any
   k consecutive selections visit each of them exactly once, wherever the
   rotation stood before and whatever else the registry holds.
  */
  lemma FairRotation(env: Surroundings, attempted: set<Name>, tied: seq<Name>, states: seq<Registry>, picks: seq<Name>)
    requires Turns(env, attempted, tied, states, picks) && Undisturbed(env) && |picks| == |tied|
    ensures forall i, j | 0 <= i < j < |picks| :: picks[i] != picks[j]
    ensures forall n :: n in picks <==> n in tied
  {
    if picks != [] {
      var first := StartsSomewhere(env, attempted, tied, states, picks);
      TurnsGoRound(env, attempted, tied, states, picks);
      forall i | 0 <= i < |tied| ensures picks[i] == tied[Wrap(first + i, |tied|)] {
        PicksGoRound(tied, picks, first, i);
      }
      RoundTrip(tied, picks, first);
    }
  }

  lemma StartsSomewhere(
    env: Surroundings, attempted: set<Name>, tied: seq<Name>, states: seq<Registry>, picks: seq<Name>)
    returns (first: nat)
    requires Turns(env, attempted, tied, states, picks) && |picks| == |tied| && picks != []
    ensures first < |tied| && picks[0] == tied[first] && InTurn(None, tied)
  {
    var w := WorldAt(env, 0, states[0]);
    assert TiedBest(w, attempted, tied) && Chosen(w, attempted, picks[0]);
    TurnPasses(w, attempted, tied, picks[0]);
    first :| 0 <= first < |tied| && tied[first] == picks[0];
  }
}
