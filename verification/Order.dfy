/** Sensor ids and the order in which the orchestrator compares them. */
module Order {

  type Id = string

  /** Go's `<` on strings: lexicographic, a proper prefix comes first. */
  predicate Less(a: Id, b: Id) {
    |b| > 0 && (|a| == 0 || a[0] < b[0] || (a[0] == b[0] && Less(a[1..], b[1..])))
  }

  /** Up to position `k` the two agree, and there `a` ends or has the smaller character. */
  ghost predicate SmallerFrom(a: Id, b: Id, k: int) {
    0 <= k <= |a| && k < |b| && a[..k] == b[..k] && (k == |a| || a[k] < b[k])
  }

  /** Which of two ids comes first: a proper prefix, or the smaller character at the first difference. */
  lemma {:induction false} LessIff(a: Id, b: Id)
    ensures Less(a, b) <==> exists k :: SmallerFrom(a, b, k)
  {
    if |a| == 0 || |b| == 0 {
      assert |b| > 0 ==> SmallerFrom(a, b, 0);
    } else if a[0] != b[0] {
      assert a[0] < b[0] ==> SmallerFrom(a, b, 0);
      assert forall k :: SmallerFrom(a, b, k) && k > 0 ==> a[..k][0] == b[..k][0];
    } else {
      LessIff(a[1..], b[1..]);
      if Less(a[1..], b[1..]) {
        var k :| SmallerFrom(a[1..], b[1..], k);
        assert a[..k + 1] == [a[0]] + a[1..][..k] && b[..k + 1] == [b[0]] + b[1..][..k];
        assert SmallerFrom(a, b, k + 1);
      }
      if k :| SmallerFrom(a, b, k) {
        assert k > 0;
        assert a[1..][..k - 1] == a[..k][1..] && b[1..][..k - 1] == b[..k][1..];
        assert SmallerFrom(a[1..], b[1..], k - 1);
      }
    }
  }

  lemma {:induction false} LessTransitive(a: Id, b: Id, c: Id)
    requires Less(a, b) && Less(b, c)
    ensures Less(a, c)
  {
    if |a| > 0 && a[0] == b[0] == c[0] {
      LessTransitive(a[1..], b[1..], c[1..]);
    }
  }

  lemma {:induction false} LessTotal(a: Id, b: Id)
    ensures Less(a, b) || a == b || Less(b, a)
    ensures !(Less(a, b) && Less(b, a)) && !Less(a, a)
  {
    if |a| > 0 && |b| > 0 && a[0] == b[0] {
      LessTotal(a[1..], b[1..]);
      assert a == [a[0]] + a[1..] && b == [b[0]] + b[1..];
      LessTotal(a[1..], a[1..]);
    } else if |a| > 0 {
      LessTotal(a[1..], a[1..]);
    }
  }

  ghost predicate IsLeast(x: Id, s: set<Id>) {
    x in s && forall y :: y in s ==> y == x || Less(x, y)
  }

  lemma LeastUnique(x: Id, y: Id, s: set<Id>)
    requires IsLeast(x, s) && IsLeast(y, s)
    ensures x == y
  {
    LessTotal(x, y);
  }
}
