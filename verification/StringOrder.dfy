/** The lexicographic order by which ids and profile names are compared. */
module StringOrder {

  predicate Less(a: string, b: string) {
    if b == "" then false
    else if a == "" then true
    else if a[0] != b[0] then a[0] < b[0]
    else Less(a[1..], b[1..])
  }

  lemma {:induction false} LessTotal(a: string, b: string)
    ensures Less(a, b) || Less(b, a) || a == b
    ensures !(Less(a, b) && Less(b, a)) && !Less(a, a)
  {
    if a != "" && b != "" {
      LessTotal(a[1..], b[1..]);
      assert a == [a[0]] + a[1..] && b == [b[0]] + b[1..];
    }
    if a != "" { LessTotal(a[1..], a[1..]); }
  }

  lemma {:induction false} LessTransitive(a: string, b: string, c: string)
    requires Less(a, b) && Less(b, c)
    ensures Less(a, c)
  {
    if a != "" && a[0] == b[0] == c[0] { LessTransitive(a[1..], b[1..], c[1..]); }
  }

  /** `b` is longer than what the two have in common, and `a` ends there or goes on with a smaller character. */
  predicate DiffersAt(a: string, b: string, k: nat) {
    && k <= |a| && k < |b| && a[..k] == b[..k]
    && (k == |a| || a[k] < b[k])
  }

  /** The order is the one of dictionaries. */
  lemma {:induction false} LessExactly(a: string, b: string)
    ensures Less(a, b) <==> exists k: nat :: DiffersAt(a, b, k)
  {
    if a == "" && b != "" {
      assert DiffersAt(a, b, 0);
    } else if b != "" {
      if a[0] == b[0] {
        LessExactly(a[1..], b[1..]);
        HeadsApart(a, b);
      } else if a[0] < b[0] {
        assert DiffersAt(a, b, 0);
      } else {
        assert forall k: nat | 0 < k <= |a| && k < |b| :: a[..k][0] != b[..k][0];
      }
    }
  }

  lemma HeadsApart(a: string, b: string)
    requires a != "" && b != "" && a[0] == b[0]
    ensures (exists k: nat :: DiffersAt(a, b, k)) <==> exists k: nat :: DiffersAt(a[1..], b[1..], k)
  {
    if k: nat :| DiffersAt(a, b, k) {
      assert a[1..][..k - 1] == a[..k][1..] && b[1..][..k - 1] == b[..k][1..];
      assert DiffersAt(a[1..], b[1..], k - 1);
    }
    if k: nat :| DiffersAt(a[1..], b[1..], k) {
      assert a[..k + 1] == [a[0]] + a[1..][..k] && b[..k + 1] == [b[0]] + b[1..][..k];
      assert DiffersAt(a, b, k + 1);
    }
  }

  /** No two strings come before each other. */
  lemma LessAsymmetric()
    ensures forall a: string, b: string :: Less(a, b) ==> !Less(b, a)
  {
    forall a: string, b: string | Less(a, b) ensures !Less(b, a) {
      LessTotal(a, b);
    }
  }
}
