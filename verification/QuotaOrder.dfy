/** When the order in which quota updates arrive matters, exactly. */
module QuotaOrder {
  import opened Options
  import opened QuotaCache
  import opened Folding

  // ---- two updates of one entry

  /** Without a reset or another directory an update is two independent decisions. */
  lemma PlainStep(e: Option<Entry>, u: Update)
    requires ValidUpdate(u) && !u.result.Reset? && (e.Some? ==> e.value.directory == u.directory)
    ensures var start := if e.Some? then e.value else FreshEntry(u);
            Step(e, u) == Attempted(Sampled(start, u), u)
  {
  }

  /** Both would be installed, and they differ. */
  predicate SamplesClash(e: Entry, a: Update, b: Update) {
    && a.startedAt == b.startedAt && a.result.Ready? && b.result.Ready? && Installs(e, a)
    && (a.windows != b.windows || a.finishedAt != b.finishedAt)
  }

  /** Both would count as the last attempt, with different results. */
  predicate ResultsClash(e: Entry, a: Update, b: Update) {
    a.startedAt == b.startedAt && a.startedAt >= e.attemptedAt && a.result != b.result
  }

  /** The sample of an entry is decided apart from its last attempt. */
  lemma SamplesApart(e: Entry, a: Update, b: Update)
    requires !a.result.Reset? && !b.result.Reset?
    ensures var ab := Sampled(Sampled(e, a), b);
            var ba := Sampled(Sampled(e, b), a);
            ab == ba <==> !SamplesClash(e, a, b)
  {
  }

  lemma AttemptsApart(e: Entry, a: Update, b: Update)
    ensures var ab := Attempted(Attempted(e, a), b);
            var ba := Attempted(Attempted(e, b), a);
            ab == ba <==> !ResultsClash(e, a, b)
  {
  }

  lemma TwoSteps(e: Entry, a: Update, b: Update)
    ensures Attempted(Sampled(Attempted(Sampled(e, a), a), b), b)
            == Attempted(Attempted(Sampled(Sampled(e, a), b), a), b)
  {
  }

  lemma ApartTogether(e: Entry, a: Update, b: Update)
    ensures var ab := Attempted(Attempted(Sampled(Sampled(e, a), b), a), b);
            var ba := Attempted(Attempted(Sampled(Sampled(e, b), a), b), a);
            ab == ba <==>
              && Sampled(Sampled(e, a), b) == Sampled(Sampled(e, b), a)
              && Attempted(Attempted(e, a), b) == Attempted(Attempted(e, b), a)
  {
  }

  /** Two updates of one directory can be exchanged exactly if neither their samples nor their results clash. */
  lemma CommuteExactly(e: Entry, a: Update, b: Update)
    requires ValidUpdate(a) && ValidUpdate(b) && !a.result.Reset? && !b.result.Reset?
    requires e.directory == a.directory == b.directory
    ensures Step(Some(Step(Some(e), a)), b) == Step(Some(Step(Some(e), b)), a)
            <==> !SamplesClash(e, a, b) && !ResultsClash(e, a, b)
  {
    PlainStep(Some(e), a);
    PlainStep(Some(e), b);
    PlainStep(Some(Step(Some(e), a)), b);
    PlainStep(Some(Step(Some(e), b)), a);
    TwoSteps(e, a, b);
    TwoSteps(e, b, a);
    ApartTogether(e, a, b);
    SamplesApart(e, a, b);
    AttemptsApart(e, a, b);
  }

  /** A profile that was never seen behaves like an empty entry of the update's directory. */
  lemma FirstStep(a: Update, u: Update)
    requires ValidUpdate(u) && !u.result.Reset? && a.directory == u.directory
    ensures Step(None, u) == Step(Some(FreshEntry(a)), u)
  {
  }

  lemma CommuteFromNothing(a: Update, b: Update)
    requires ValidUpdate(a) && ValidUpdate(b) && !a.result.Reset? && !b.result.Reset? && a.directory == b.directory
    ensures Step(Some(Step(None, a)), b) == Step(Some(Step(None, b)), a) <==> Agree(a, b)
  {
    FirstStep(a, a);
    FirstStep(a, b);
    CommuteExactly(FreshEntry(a), a, b);
  }

  // ---- any number of updates of any number of profiles

  /** Two attempts that start together must tell the same. */
  predicate Agree(a: Update, b: Update) {
    a.startedAt == b.startedAt ==>
      a.result == b.result && (a.result.Ready? ==> a.windows == b.windows && a.finishedAt == b.finishedAt)
  }

  /** Updates of one profile concern one directory and agree. */
  predicate Compatible(a: Update, b: Update) {
    a.name == b.name ==> a.directory == b.directory && Agree(a, b)
  }

  predicate Plain(m: Profiles, u: Update) {
    ValidUpdate(u) && !u.result.Reset? && (u.name in m ==> m[u.name].directory == u.directory)
  }

  lemma AgreeingCommute(e: Option<Entry>, a: Update, b: Update)
    requires ValidUpdate(a) && ValidUpdate(b) && !a.result.Reset? && !b.result.Reset?
    requires a.directory == b.directory && Agree(a, b) && (e.Some? ==> e.value.directory == a.directory)
    ensures Step(Some(Step(e, a)), b) == Step(Some(Step(e, b)), a)
  {
    if e.Some? { CommuteExactly(e.value, a, b); } else { CommuteFromNothing(a, b); }
  }

  lemma Commute(m: Profiles, a: Update, b: Update)
    requires Plain(m, a) && Plain(m, b) && Compatible(a, b)
    ensures MergeOne(MergeOne(m, a), b) == MergeOne(MergeOne(m, b), a)
  {
    if a.name == b.name { AgreeingCommute(Lookup(m, a.name), a, b); }
  }

  lemma MergesCommute()
    ensures Commutes(MergeOne, Plain, Compatible)
  {
    forall m, a, b | Plain(m, a) && Plain(m, b) && Compatible(a, b)
      ensures Plain(MergeOne(m, a), b) && MergeOne(MergeOne(m, a), b) == MergeOne(MergeOne(m, b), a)
    {
      Commute(m, a, b);
    }
  }

  lemma {:induction false} MergeIsFold(m: Profiles, us: seq<Update>)
    ensures MergeAll(m, us) == Fold(MergeOne, m, us)
  {
    if us != [] { MergeIsFold(m, us[..|us| - 1]); }
  }

  /**
   Arrival order does not matter: the same reset-free updates, of which those
   that start together tell the same, give one snapshot in every order, across
   all profiles at once.  So a busy attempt that is recorded first cannot hide a
   success that started before it.
  */
  lemma ArrivalOrderIsIrrelevant(m: Profiles, us: seq<Update>, us': seq<Update>)
    requires Steady(m, us, Plain, Compatible) && Steady(m, us', Plain, Compatible)
    requires multiset(us) == multiset(us')
    ensures MergeAll(m, us) == MergeAll(m, us')
  {
    MergesCommute();
    MergeIsFold(m, us);
    MergeIsFold(m, us');
    OrderIsIrrelevant(MergeOne, Plain, Compatible, m, us, us');
  }

  // ---- the exact condition for a whole history of one profile

  /** A history without resets in one directory. */
  predicate Uniform(us: seq<Update>) {
    us != [] && forall u <- us :: ValidUpdate(u) && !u.result.Reset? && u.directory == us[0].directory
  }

  /** No attempt starts later. */
  predicate Newest(us: seq<Update>, u: Update) {
    u in us && forall v <- us :: v.startedAt <= u.startedAt
  }

  /** No measurement starts later. */
  predicate NewestReady(us: seq<Update>, u: Update) {
    u in us && u.result.Ready? && forall v <- us | v.result.Ready? :: v.startedAt <= u.startedAt
  }

  /** Only what starts last has to agree: the newest attempts on the result, the newest measurements on the values. */
  ghost predicate TopsAgree(us: seq<Update>) {
    && (forall u, v | Newest(us, u) && Newest(us, v) :: u.result == v.result)
    && (forall u, v | NewestReady(us, u) && NewestReady(us, v) ::
          u.windows == v.windows && u.finishedAt == v.finishedAt)
  }

  /** The entry tells the result of `top` and holds the measurement `best`. */
  predicate Tells(e: Entry, directory: string, top: Update, best: Option<Update>) {
    && e.directory == directory && e.resetAt == 0.0
    && e.attemptedAt == top.startedAt && e.result == top.result
    && match best
       case None => e.sampledAt.None? && e.sampleStartedAt.None? && e.windows == NO_WINDOWS
       case Some(b) =>
         e.sampledAt == Some(b.finishedAt) && e.sampleStartedAt == Some(b.startedAt) && e.windows == b.windows
  }

  ghost predicate Tops(us: seq<Update>, top: Update, best: Option<Update>) {
    && Newest(us, top)
    && match best
       case None => forall u <- us :: !u.result.Ready?
       case Some(b) => NewestReady(us, b)
  }

  function LaterOf(top: Update, u: Update): Update {
    if u.startedAt >= top.startedAt then u else top
  }

  function BetterOf(best: Option<Update>, u: Update): Option<Update> {
    if u.result.Ready? && (best.None? || u.startedAt >= best.value.startedAt) then Some(u) else best
  }

  lemma StepTells(e: Entry, top: Update, best: Option<Update>, u: Update)
    requires Tells(e, u.directory, top, best) && ValidUpdate(u) && !u.result.Reset?
    ensures Tells(Step(Some(e), u), u.directory, LaterOf(top, u), BetterOf(best, u))
  {
  }

  lemma FirstTells(u: Update)
    requires ValidUpdate(u) && !u.result.Reset?
    ensures Tells(Step(None, u), u.directory, u, BetterOf(None, u))
  {
  }

  /** The last arrival among the newest decides. */
  lemma {:induction false} HistoryTells(us: seq<Update>) returns (top: Update, best: Option<Update>)
    requires Uniform(us)
    ensures Tells(Folded(us).value, us[0].directory, top, best) && Tops(us, top, best)
    ensures Newest(us, us[|us| - 1]) ==> top == us[|us| - 1]
    ensures NewestReady(us, us[|us| - 1]) ==> best == Some(us[|us| - 1])
  {
    var n := |us| - 1;
    var u := us[n];
    assert us == us[..n] + [u];
    if n == 0 {
      FirstTells(u);
      top, best := u, BetterOf(None, u);
    } else {
      var t, b := HistoryTells(us[..n]);
      assert u in us;
      StepTells(Folded(us[..n]).value, t, b, u);
      top, best := LaterOf(t, u), BetterOf(b, u);
    }
  }

  ghost predicate SameMembers(us: seq<Update>, us': seq<Update>) {
    forall u :: u in us <==> u in us'
  }

  lemma PermutedMembers(us: seq<Update>, us': seq<Update>)
    requires multiset(us) == multiset(us')
    ensures SameMembers(us, us') && |us| == |us'|
  {
    assert forall u :: u in us <==> u in multiset(us);
    assert forall u :: u in us' <==> u in multiset(us');
    assert |us| == |multiset(us)| && |us'| == |multiset(us')|;
  }

  lemma NewestAlike(us: seq<Update>, us': seq<Update>, u: Update)
    requires SameMembers(us, us')
    ensures Newest(us, u) <==> Newest(us', u)
    ensures NewestReady(us, u) <==> NewestReady(us', u)
  {
  }

  lemma UniformAlike(us: seq<Update>, us': seq<Update>)
    requires Uniform(us) && SameMembers(us, us') && us' != []
    ensures Uniform(us') && us'[0].directory == us[0].directory
  {
    assert us'[0] in us;
    assert forall u <- us' :: u in us;
  }

  lemma NewestStartTogether(us: seq<Update>, u: Update, v: Update)
    ensures Newest(us, u) && Newest(us, v) ==> u.startedAt == v.startedAt
    ensures NewestReady(us, u) && NewestReady(us, v) ==> u.startedAt == v.startedAt
  {
  }

  lemma TellSame(e: Entry, e': Entry, directory: string, t: Update, t': Update, b: Option<Update>, b': Option<Update>)
    requires Tells(e, directory, t, b) && Tells(e', directory, t', b')
    requires t.startedAt == t'.startedAt && t.result == t'.result && (b.Some? <==> b'.Some?)
    requires b.Some? ==>
               b.value.startedAt == b'.value.startedAt && b.value.windows == b'.value.windows
               && b.value.finishedAt == b'.value.finishedAt
    ensures e == e'
  {
  }

  lemma SameTops(us: seq<Update>, us': seq<Update>)
    requires Uniform(us) && us' != [] && SameMembers(us, us') && TopsAgree(us)
    ensures Folded(us') == Folded(us)
  {
    UniformAlike(us, us');
    var top, best := HistoryTells(us);
    var top', best' := HistoryTells(us');
    NewestAlike(us, us', top');
    NewestStartTogether(us, top, top');
    if best.Some? && best'.Some? {
      NewestAlike(us, us', best'.value);
      NewestStartTogether(us, best.value, best'.value);
    }
    assert best.Some? <==> best'.Some? by {
      assert best.Some? ==> best.value in us';
      assert best'.Some? ==> best'.value in us;
    }
    TellSame(Folded(us).value, Folded(us').value, us[0].directory, top, top', best, best');
  }

  /** The same history with one update arriving last. */
  function ArrivingLast(us: seq<Update>, i: nat): (r: seq<Update>)
    requires i < |us|
    ensures r != [] && r[|r| - 1] == us[i] && multiset(r) == multiset(us)
  {
    MultisetWithout(us, i);
    Without(us, i) + [us[i]]
  }

  lemma ArrivesLast(us: seq<Update>, i: nat)
    requires Uniform(us) && i < |us|
    ensures var r := ArrivingLast(us, i);
            && (Newest(us, us[i]) ==> Folded(r).value.result == us[i].result)
            && (NewestReady(us, us[i]) ==>
                  Folded(r).value.windows == us[i].windows && Folded(r).value.sampledAt == Some(us[i].finishedAt))
  {
    var r := ArrivingLast(us, i);
    PermutedMembers(us, r);
    UniformAlike(us, r);
    NewestAlike(us, r, us[i]);
    var top, best := HistoryTells(r);
  }

  /** Every order of arrival gives the same entry. */
  ghost predicate AnyOrder(us: seq<Update>) {
    forall us' | multiset(us') == multiset(us) :: Folded(us') == Folded(us)
  }

  lemma TopsMustAgree(us: seq<Update>, u: Update, v: Update)
    requires Uniform(us) && AnyOrder(us) && u in us && v in us
    ensures Newest(us, u) && Newest(us, v) ==> u.result == v.result
    ensures NewestReady(us, u) && NewestReady(us, v) ==> u.windows == v.windows && u.finishedAt == v.finishedAt
  {
    var i :| 0 <= i < |us| && us[i] == u;
    var j :| 0 <= j < |us| && us[j] == v;
    ArrivesLast(us, i);
    ArrivesLast(us, j);
    assert Folded(ArrivingLast(us, i)) == Folded(us);
    assert Folded(ArrivingLast(us, j)) == Folded(us);
  }

  /**
   The entry of a profile is the same for every order of arrival exactly if the
   newest attempts agree on the result and the newest measurements on the values.
   Attempts and measurements that something newer supersedes may tie as they like.
  */
  lemma OrderMattersExactly(us: seq<Update>)
    requires Uniform(us)
    ensures AnyOrder(us) <==> TopsAgree(us)
  {
    if TopsAgree(us) {
      forall us' | multiset(us') == multiset(us) ensures Folded(us') == Folded(us) {
        PermutedMembers(us, us');
        SameTops(us, us');
      }
    }
    if AnyOrder(us) {
      forall u, v | Newest(us, u) && Newest(us, v) ensures u.result == v.result {
        TopsMustAgree(us, u, v);
      }
      forall u, v | NewestReady(us, u) && NewestReady(us, v)
        ensures u.windows == v.windows && u.finishedAt == v.finishedAt
      {
        TopsMustAgree(us, u, v);
      }
    }
  }

  // ---- and for a whole snapshot

  function OtherNames(us: seq<Update>, name: string): seq<Update> {
    if us == [] then []
    else OtherNames(us[..|us| - 1], name) + (if us[|us| - 1].name == name then [] else [us[|us| - 1]])
  }

  lemma AppendCount(us: seq<Update>, x: Update, u: Update)
    ensures multiset(us + [x])[u] == multiset(us)[u] + if x == u then 1 else 0
  {
    assert multiset(us + [x]) == multiset(us) + multiset{x};
  }

  lemma {:induction false} OfNameCount(us: seq<Update>, name: string, u: Update)
    ensures multiset(OfName(us, name))[u] == if u.name == name then multiset(us)[u] else 0
  {
    if us != [] {
      var n := |us| - 1;
      OfNameCount(us[..n], name, u);
      assert us == us[..n] + [us[n]];
      AppendCount(us[..n], us[n], u);
      AppendCount(OfName(us[..n], name), us[n], u);
      assert us[n].name != name ==> OfName(us, name) == OfName(us[..n], name);
    }
  }

  lemma {:induction false} OthersCount(us: seq<Update>, name: string, u: Update)
    ensures multiset(OtherNames(us, name))[u] == if u.name == name then 0 else multiset(us)[u]
  {
    if us != [] {
      var n := |us| - 1;
      OthersCount(us[..n], name, u);
      assert us == us[..n] + [us[n]];
      AppendCount(us[..n], us[n], u);
      AppendCount(OtherNames(us[..n], name), us[n], u);
      assert us[n].name == name ==> OtherNames(us, name) == OtherNames(us[..n], name);
    }
  }

  lemma {:induction false} OfNameJoins(a: seq<Update>, b: seq<Update>, name: string)
    ensures OfName(a + b, name) == OfName(a, name) + OfName(b, name)
  {
    if b == [] {
      assert a + b == a;
    } else {
      var n := |b| - 1;
      OfNameJoins(a, b[..n], name);
      assert (a + b)[..|a + b| - 1] == a + b[..n];
    }
  }

  lemma {:induction false} OfNameOthers(us: seq<Update>, name: string)
    ensures OfName(OtherNames(us, name), name) == []
  {
    if us != [] {
      var n := |us| - 1;
      OfNameOthers(us[..n], name);
      OfNameJoins(OtherNames(us[..n], name), if us[n].name == name then [] else [us[n]], name);
      assert [us[n]][..0] == [];
    }
  }

  lemma {:induction false} OfNameAll(us: seq<Update>, name: string)
    requires forall u <- us :: u.name == name
    ensures OfName(us, name) == us
  {
    if us != [] {
      OfNameAll(us[..|us| - 1], name);
    }
  }

  lemma OfNamePermuted(us: seq<Update>, us': seq<Update>, name: string)
    requires multiset(us) == multiset(us')
    ensures multiset(OfName(us, name)) == multiset(OfName(us', name))
  {
    forall u ensures multiset(OfName(us, name))[u] == multiset(OfName(us', name))[u] {
      OfNameCount(us, name, u);
      OfNameCount(us', name, u);
    }
  }

  /** An order of one profile's updates extends to an order of all of them. */
  lemma Extends(us: seq<Update>, name: string, own: seq<Update>)
    requires multiset(own) == multiset(OfName(us, name))
    ensures var all := OtherNames(us, name) + own;
            multiset(all) == multiset(us) && OfName(all, name) == own
  {
    var all := OtherNames(us, name) + own;
    forall u ensures multiset(all)[u] == multiset(us)[u] {
      OfNameCount(us, name, u);
      OthersCount(us, name, u);
    }
    forall u | u in own ensures u.name == name {
      assert u in multiset(own);
      OfNameCount(us, name, u);
    }
    OfNameJoins(OtherNames(us, name), own, name);
    OfNameOthers(us, name);
    OfNameAll(own, name);
  }

  ghost predicate AnySnapshotOrder(us: seq<Update>) {
    forall us' | multiset(us') == multiset(us) :: MergeAll(map[], us') == MergeAll(map[], us)
  }

  lemma ProfileInAnyOrder(us: seq<Update>, name: string)
    requires AnySnapshotOrder(us)
    ensures AnyOrder(OfName(us, name))
  {
    var own := OfName(us, name);
    forall own' | multiset(own') == multiset(own) ensures Folded(own') == Folded(own) {
      Extends(us, name, own');
      var all := OtherNames(us, name) + own';
      assert MergeAll(map[], all) == MergeAll(map[], us);
      ProfilesAreIndependent(all, name);
      ProfilesAreIndependent(us, name);
    }
  }

  lemma SameEntries(m: Profiles, m': Profiles)
    requires forall name :: Lookup(m, name) == Lookup(m', name)
    ensures m == m'
  {
    forall name ensures name in m <==> name in m' {
      assert Lookup(m, name) == Lookup(m', name);
    }
    forall name | name in m ensures m[name] == m'[name] {
      assert Lookup(m, name) == Lookup(m', name);
    }
  }

  ghost predicate EveryProfileInAnyOrder(us: seq<Update>) {
    forall name :: AnyOrder(OfName(us, name))
  }

  lemma SnapshotInAnyOrder(us: seq<Update>, us': seq<Update>)
    requires multiset(us) == multiset(us') && EveryProfileInAnyOrder(us)
    ensures MergeAll(map[], us') == MergeAll(map[], us)
  {
    forall name ensures Lookup(MergeAll(map[], us'), name) == Lookup(MergeAll(map[], us), name) {
      OfNamePermuted(us, us', name);
      ProfilesAreIndependent(us, name);
      ProfilesAreIndependent(us', name);
      assert AnyOrder(OfName(us, name));
    }
    SameEntries(MergeAll(map[], us'), MergeAll(map[], us));
  }

  lemma NothingToOrder()
    ensures AnyOrder([]) && TopsAgree([])
  {
    var none: seq<Update> := [];
    forall us' | multiset(us') == multiset(none) ensures Folded(us') == Folded(none) {
      PermutedMembers(us', none);
    }
  }

  ghost predicate EveryProfileAgrees(us: seq<Update>) {
    forall name :: TopsAgree(OfName(us, name))
  }

  lemma EveryProfile(us: seq<Update>)
    requires forall name :: OfName(us, name) == [] || Uniform(OfName(us, name))
    ensures EveryProfileInAnyOrder(us) <==> EveryProfileAgrees(us)
  {
    forall name ensures AnyOrder(OfName(us, name)) <==> TopsAgree(OfName(us, name)) {
      if OfName(us, name) == [] { NothingToOrder(); } else { OrderMattersExactly(OfName(us, name)); }
    }
  }

  /**
   A snapshot built from reset-free updates, each profile in its directory, is
   the same for every order of arrival exactly if the newest updates of every
   single profile agree.
  */
  lemma SnapshotOrderMattersExactly(us: seq<Update>)
    requires forall name :: OfName(us, name) == [] || Uniform(OfName(us, name))
    ensures AnySnapshotOrder(us) <==> EveryProfileAgrees(us)
  {
    EveryProfile(us);
    if AnySnapshotOrder(us) {
      forall name ensures AnyOrder(OfName(us, name)) {
        ProfileInAnyOrder(us, name);
      }
    }
    if EveryProfileInAnyOrder(us) {
      forall us' | multiset(us') == multiset(us) ensures MergeAll(map[], us') == MergeAll(map[], us) {
        SnapshotInAnyOrder(us, us');
      }
    }
  }

  /** Two measurements that start together and differ: the later arrival is kept. */
  lemma TieWitness()
    ensures var a := Update("a", "a", (Some(0.1), None), 1.0, 2.0, Ready);
            var b := Update("a", "a", (Some(0.9), None), 1.0, 2.0, Ready);
            Step(Some(Step(None, a)), b).windows == b.windows && Step(Some(Step(None, b)), a).windows == a.windows
  {
  }
}
