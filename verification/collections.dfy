/** Helpers over the ordered collections and maps the migration layer works on. */
module Collections {

  /** No element occurs twice. */
  predicate Distinct<T(==)>(s: seq<T>) {
    forall i, j :: 0 <= i < j < |s| ==> s[i] != s[j]
  }

  /** The elements of `s` that `keep` accepts, in their original order (PHP's `array_filter`). */
  function Filter<T(==, !new)>(s: seq<T>, keep: T -> bool): (r: seq<T>)
    ensures |r| <= |s|
    ensures forall x :: x in r <==> x in s && keep(x)
    ensures |s| == 1 ==> r == (if keep(s[0]) then s else [])
  {
    if s == [] then []
    else
      var rest := Filter(s[1..], keep);
      if keep(s[0]) then [s[0]] + rest else rest
  }

  /** Filtering a concatenation filters each part in turn, so the kept elements stay in order. */
  lemma {:induction false} FilterAppend<T(!new)>(a: seq<T>, b: seq<T>, keep: T -> bool)
    ensures Filter(a + b, keep) == Filter(a, keep) + Filter(b, keep)
    decreases |a|
  {
    if a != [] {
      assert (a + b)[0] == a[0];
      assert (a + b)[1..] == a[1..] + b;
      FilterAppend(a[1..], b, keep);
    } else {
      assert a + b == b;
    }
  }

  /**
   * Two kept elements appear in the filtered list in the order they had in the input: the
   * earlier one comes from an earlier position of `s`.
   */
  lemma {:induction false} FilterKeepsOrder<T(!new)>(s: seq<T>, keep: T -> bool, i: nat, j: nat)
    requires i < j < |Filter(s, keep)|
    ensures exists p, q :: 0 <= p < q < |s| && s[p] == Filter(s, keep)[i] && s[q] == Filter(s, keep)[j]
    decreases |s|
  {
    var r := Filter(s, keep);
    var rest := Filter(s[1..], keep);
    if keep(s[0]) {
      assert r == [s[0]] + rest;
      if i == 0 {
        assert r[j] == rest[j - 1] && rest[j - 1] in rest;
        var q' :| 0 <= q' < |s[1..]| && s[1..][q'] == rest[j - 1];
        assert s[0] == r[0] && s[q' + 1] == r[j];
      } else {
        FilterKeepsOrder(s[1..], keep, i - 1, j - 1);
        var p', q' :| 0 <= p' < q' < |s[1..]| && s[1..][p'] == rest[i - 1] && s[1..][q'] == rest[j - 1];
        assert s[p' + 1] == r[i] && s[q' + 1] == r[j];
      }
    } else {
      assert r == rest;
      FilterKeepsOrder(s[1..], keep, i, j);
      var p', q' :| 0 <= p' < q' < |s[1..]| && s[1..][p'] == rest[i] && s[1..][q'] == rest[j];
      assert s[p' + 1] == r[i] && s[q' + 1] == r[j];
    }
  }

  /** Filtering keeps a list free of duplicates. */
  lemma {:induction false} FilterDistinct<T(!new)>(s: seq<T>, keep: T -> bool)
    requires Distinct(s)
    ensures Distinct(Filter(s, keep))
  {
    if s != [] {
      var rest := Filter(s[1..], keep);
      assert Distinct(s[1..]) by {
        forall i, j | 0 <= i < j < |s[1..]| ensures s[1..][i] != s[1..][j] {
          assert s[1..][i] == s[i + 1] && s[1..][j] == s[j + 1];
        }
      }
      FilterDistinct(s[1..], keep);
      if keep(s[0]) {
        assert s[0] !in s[1..] by {
          forall k | 0 <= k < |s[1..]| ensures s[1..][k] != s[0] {
            assert s[1..][k] == s[k + 1];
          }
        }
        var r := [s[0]] + rest;
        forall i, j | 0 <= i < j < |r| ensures r[i] != r[j] {
          if i == 0 {
            assert r[j] == rest[j - 1];
          } else {
            assert r[i] == rest[i - 1] && r[j] == rest[j - 1];
          }
        }
      }
    }
  }

  /** `k` is bound to the same value in both maps, or is absent from both. */
  predicate Untouched<K, V(==)>(a: map<K, V>, b: map<K, V>, k: K) {
    (k in a <==> k in b) && (k in a ==> a[k] == b[k])
  }

  /** `part` occurs in `s` starting at position `i`. */
  ghost predicate OccursAt<T>(s: seq<T>, part: seq<T>, i: int) {
    0 <= i && i + |part| <= |s| && s[i..i + |part|] == part
  }

  /** `part` occurs somewhere in `s`. */
  ghost predicate Contains<T>(s: seq<T>, part: seq<T>) {
    exists i :: OccursAt(s, part, i)
  }

  /** A piece surrounded by any text is contained in the result. */
  lemma ContainsMiddle<T>(a: seq<T>, b: seq<T>, c: seq<T>)
    ensures Contains(a + b + c, b)
  {
    var s := a + b + c;
    assert s[|a|..|a| + |b|] == b;
    assert OccursAt(s, b, |a|);
  }
}
