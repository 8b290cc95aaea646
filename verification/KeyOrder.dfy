/** Iteration in key order, as the sorted maps of the exporter do it: strings are
    compared character by character. */
module KeyOrder {

  predicate Less(a: string, b: string) {
    b != "" && (a == "" || a[0] < b[0] || (a[0] == b[0] && Less(a[1..], b[1..])))
  }

  /** a and b agree before k, and a ends there or has the smaller character. */
  predicate LessAt(a: string, b: string, k: nat) {
    k <= |a| && k < |b| && a[..k] == b[..k] && (k == |a| || a[k] < b[k])
  }

  /** The order of strings: decided at the first difference, a proper prefix first. */
  lemma {:induction false} LessIsLexicographic(a: string, b: string)
    ensures Less(a, b) <==> exists k: nat :: LessAt(a, b, k)
  {
    if b == "" {
    } else if a == "" || a[0] < b[0] {
      assert LessAt(a, b, 0);
    } else if a[0] == b[0] {
      LessIsLexicographic(a[1..], b[1..]);
      forall k: nat | LessAt(a[1..], b[1..], k) ensures LessAt(a, b, k + 1) {
        assert a[..k + 1] == [a[0]] + a[1..][..k] && b[..k + 1] == [b[0]] + b[1..][..k];
      }
      forall k: nat | LessAt(a, b, k) ensures k > 0 && LessAt(a[1..], b[1..], k - 1) {
        assert a[1..][..k - 1] == a[..k][1..] && b[1..][..k - 1] == b[..k][1..];
      }
    } else {
      forall k: nat ensures !LessAt(a, b, k) {
        if 0 < k <= |a| && k <= |b| {
          assert a[..k][0] == a[0] && b[..k][0] == b[0];
        }
      }
    }
  }

  lemma {:induction false} LessIsTotal(a: string, b: string)
    ensures Less(a, b) || a == b || Less(b, a)
    ensures Less(a, b) ==> a != b && !Less(b, a)
  {
    if a != "" && b != "" {
      LessIsTotal(a[1..], b[1..]);
      assert a == [a[0]] + a[1..] && b == [b[0]] + b[1..];
    }
  }

  lemma {:induction false} LessIsTransitive(a: string, b: string, c: string)
    requires Less(a, b) && Less(b, c)
    ensures Less(a, c)
  {
    if a != "" && a[0] == b[0] == c[0] {
      LessIsTransitive(a[1..], b[1..], c[1..]);
    }
  }

  predicate IsLeast(keys: set<string>, k: string) {
    k in keys && forall other :: other in keys ==> other == k || Less(k, other)
  }

  lemma {:induction false} LeastExists(keys: set<string>) returns (k: string)
    requires keys != {}
    ensures IsLeast(keys, k)
    decreases |keys|
  {
    k :| k in keys;
    if keys != {k} {
      var l := LeastExists(keys - {k});
      LessIsTotal(k, l);
      if Less(l, k) {
        k := l;
      } else {
        forall other | other in keys && other != k && other != l ensures Less(k, other) {
          LessIsTransitive(k, l, other);
        }
      }
    }
  }

  lemma {:induction false} LeastIsUnique(keys: set<string>, k: string, l: string)
    requires IsLeast(keys, k) && IsLeast(keys, l)
    ensures k == l
  {
    LessIsTotal(k, l);
  }

  /** The keys in ascending order. */
  ghost function InOrder(keys: set<string>): (r: seq<string>)
    ensures forall k :: k in r <==> k in keys
    ensures |r| == |keys|
    decreases |keys|
  {
    if keys == {} then []
    else
      assert exists k :: IsLeast(keys, k) by {
        var k := LeastExists(keys);
      }
      var k :| IsLeast(keys, k);
      [k] + InOrder(keys - {k})
  }

  lemma {:induction false} InOrderIsSorted(keys: set<string>, i: nat, j: nat)
    requires i < j < |InOrder(keys)|
    ensures Less(InOrder(keys)[i], InOrder(keys)[j]) && InOrder(keys)[i] != InOrder(keys)[j]
    decreases |keys|
  {
    var k :| IsLeast(keys, k) && InOrder(keys) == [k] + InOrder(keys - {k});
    var rest := InOrder(keys - {k});
    if i == 0 {
      assert InOrder(keys)[j] == rest[j - 1] && rest[j - 1] in rest;
      LessIsTotal(k, rest[j - 1]);
    } else {
      InOrderIsSorted(keys - {k}, i - 1, j - 1);
    }
  }

  lemma {:induction false} LeastComesFirst(keys: set<string>, k: string)
    requires IsLeast(keys, k)
    ensures InOrder(keys) == [k] + InOrder(keys - {k})
  {
    var first :| IsLeast(keys, first) && InOrder(keys) == [first] + InOrder(keys - {first});
    LeastIsUnique(keys, k, first);
  }

  lemma {:induction false} AscendingStep(keys: set<string>, rest: set<string>, k: string, r: seq<string>)
    requires IsLeast(rest, k) && r + InOrder(rest) == InOrder(keys)
    ensures (r + [k]) + InOrder(rest - {k}) == InOrder(keys)
  {
    LeastComesFirst(rest, k);
    assert r + ([k] + InOrder(rest - {k})) == (r + [k]) + InOrder(rest - {k});
  }

  method Ascending(keys: set<string>) returns (r: seq<string>)
    ensures r == InOrder(keys)
  {
    r := [];
    var rest := keys;
    while rest != {}
      invariant r + InOrder(rest) == InOrder(keys)
      decreases |rest|
    {
      ghost var l := LeastExists(rest);
      var k :| k in rest && forall other :: other in rest ==> other == k || Less(k, other);
      AscendingStep(keys, rest, k, r);
      r := r + [k];
      rest := rest - {k};
    }
  }
}
