/** Folds whose steps commute: the result does not depend on the order of the sequence. */
module Folding {

  function Fold<S, U>(f: (S, U) -> S, s: S, us: seq<U>): S {
    if us == [] then s else f(Fold(f, s, us[..|us| - 1]), us[|us| - 1])
  }

  /** Steps that are both fit for a state and compatible with each other can be taken in either order. */
  ghost predicate Commutes<S(!new), U(!new)>(f: (S, U) -> S, fit: (S, U) -> bool, compatible: (U, U) -> bool) {
    && (forall a, b {:trigger compatible(a, b)} :: compatible(a, b) ==> compatible(b, a))
    && (forall s, a, b {:trigger fit(f(s, a), b)} ::
          fit(s, a) && fit(s, b) && compatible(a, b) ==> fit(f(s, a), b))
    && (forall s, a, b {:trigger f(f(s, a), b)} ::
          fit(s, a) && fit(s, b) && compatible(a, b) ==> f(f(s, a), b) == f(f(s, b), a))
  }

  ghost predicate Steady<S, U>(s: S, us: seq<U>, fit: (S, U) -> bool, compatible: (U, U) -> bool) {
    && (forall i | 0 <= i < |us| :: fit(s, us[i]))
    && (forall i, j | 0 <= i < j < |us| :: compatible(us[i], us[j]))
  }

  lemma {:induction false} StaysFit<S(!new), U(!new)>(
    f: (S, U) -> S, fit: (S, U) -> bool, compatible: (U, U) -> bool, s: S, us: seq<U>, x: U)
    requires Commutes(f, fit, compatible) && Steady(s, us, fit, compatible)
    requires fit(s, x) && forall i | 0 <= i < |us| :: compatible(us[i], x)
    ensures fit(Fold(f, s, us), x)
  {
    if us != [] {
      var n := |us| - 1;
      StaysFit(f, fit, compatible, s, us[..n], x);
      StaysFit(f, fit, compatible, s, us[..n], us[n]);
      assert compatible(us[n], x);
    }
  }

  function Without<U>(us: seq<U>, i: nat): (rest: seq<U>)
    requires i < |us|
    ensures |rest| == |us| - 1
    ensures forall k | 0 <= k < |rest| :: rest[k] == us[if k < i then k else k + 1]
  {
    us[..i] + us[i + 1..]
  }

  lemma WithoutSteady<S(!new), U(!new)>(
    f: (S, U) -> S, fit: (S, U) -> bool, compatible: (U, U) -> bool, s: S, us: seq<U>, i: nat)
    requires Commutes(f, fit, compatible) && Steady(s, us, fit, compatible) && i < |us|
    ensures Steady(s, Without(us, i), fit, compatible)
    ensures forall k | 0 <= k < |us| - 1 :: compatible(Without(us, i)[k], us[i])
  {
    var rest := Without(us, i);
    forall k | 0 <= k < |rest| ensures compatible(rest[k], us[i]) {
      if k < i { assert compatible(us[k], us[i]); } else { assert compatible(us[i], us[k + 1]); }
    }
  }

  /** A step may as well be taken last. */
  lemma {:induction false} MovesLast<S(!new), U(!new)>(
    f: (S, U) -> S, fit: (S, U) -> bool, compatible: (U, U) -> bool, s: S, us: seq<U>, i: nat)
    requires Commutes(f, fit, compatible) && Steady(s, us, fit, compatible) && i < |us|
    ensures Fold(f, s, us) == f(Fold(f, s, Without(us, i)), us[i])
  {
    var n := |us| - 1;
    if i == n {
      assert Without(us, i) == us[..n];
    } else {
      var others := Without(us[..n], i);
      MovesLast(f, fit, compatible, s, us[..n], i);
      WithoutSteady(f, fit, compatible, s, us[..n], i);
      WithoutSteady(f, fit, compatible, s, us, i);
      WithoutEarlier(us, i);
      FoldLast(f, s, others, us[n]);
      StaysFit(f, fit, compatible, s, others, us[i]);
      StaysFit(f, fit, compatible, s, others, us[n]);
      assert compatible(us[i], us[n]);
    }
  }

  lemma WithoutEarlier<U>(us: seq<U>, i: nat)
    requires i < |us| - 1
    ensures Without(us, i) == Without(us[..|us| - 1], i) + [us[|us| - 1]]
    ensures forall k | 0 <= k < |us| - 2 :: Without(us[..|us| - 1], i)[k] == Without(us, i)[k]
  {
  }

  lemma FoldLast<S, U>(f: (S, U) -> S, s: S, us: seq<U>, x: U)
    ensures Fold(f, s, us + [x]) == f(Fold(f, s, us), x)
  {
    assert (us + [x])[..|us|] == us;
  }

  lemma MultisetWithout<U>(us: seq<U>, i: nat)
    requires i < |us|
    ensures multiset(us) == multiset(Without(us, i)) + multiset{us[i]}
  {
    var front, back := us[..i], us[i + 1..];
    assert us == front + ([us[i]] + back);
  }

  lemma Cancel<U>(a: multiset<U>, b: multiset<U>, x: U)
    requires a + multiset{x} == b + multiset{x}
    ensures a == b
  {
    assert (a + multiset{x}) - multiset{x} == a && (b + multiset{x}) - multiset{x} == b;
  }

  lemma SameRest<U>(us: seq<U>, us': seq<U>, i: nat)
    requires us != [] && i < |us'| && us'[i] == us[|us| - 1] && multiset(us) == multiset(us')
    ensures multiset(us[..|us| - 1]) == multiset(Without(us', i))
  {
    MultisetWithout(us', i);
    MultisetWithout(us, |us| - 1);
    assert Without(us, |us| - 1) == us[..|us| - 1];
    Cancel(multiset(us[..|us| - 1]), multiset(Without(us', i)), us'[i]);
  }

  lemma {:induction false} OrderIsIrrelevant<S(!new), U(!new)>(
    f: (S, U) -> S, fit: (S, U) -> bool, compatible: (U, U) -> bool, s: S, us: seq<U>, us': seq<U>)
    requires Commutes(f, fit, compatible)
    requires Steady(s, us, fit, compatible) && Steady(s, us', fit, compatible)
    requires multiset(us) == multiset(us')
    ensures Fold(f, s, us) == Fold(f, s, us')
  {
    assert |us| == |multiset(us)| == |us'|;
    if us != [] {
      var n := |us| - 1;
      assert us[n] in multiset(us');
      var i :| 0 <= i < |us'| && us'[i] == us[n];
      MovesLast(f, fit, compatible, s, us', i);
      WithoutSteady(f, fit, compatible, s, us', i);
      SameRest(us, us', i);
      OrderIsIrrelevant(f, fit, compatible, s, us[..n], Without(us', i));
    }
  }
}
