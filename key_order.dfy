/**
  The order of the rows of an outer `merge`: the join keys (provider identifiers, which are strings)
  sorted ascending by Python's string comparison, code point by code point.
 */
module KeyOrder {
  import opened Seqs

  /** Python's `a < b` on str. */
  predicate Below(a: string, b: string) {
    |b| > 0 && (|a| == 0 || a[0] < b[0] || (a[0] == b[0] && Below(a[1..], b[1..])))
  }

  lemma {:induction false} BelowIrreflexive(a: string)
    ensures !Below(a, a)
  {
    if |a| > 0 {
      BelowIrreflexive(a[1..]);
    }
  }

  lemma {:induction false} BelowTransitive(a: string, b: string, c: string)
    requires Below(a, b) && Below(b, c)
    ensures Below(a, c)
  {
    if |a| > 0 && a[0] == b[0] && b[0] == c[0] {
      BelowTransitive(a[1..], b[1..], c[1..]);
    }
  }

  lemma {:induction false} BelowTotal(a: string, b: string)
    requires a != b
    ensures Below(a, b) || Below(b, a)
  {
    if |a| > 0 && |b| > 0 && a[0] == b[0] {
      assert a == [a[0]] + a[1..] && b == [b[0]] + b[1..];
      BelowTotal(a[1..], b[1..]);
    }
  }

  predicate Ascending(ks: seq<string>) {
    forall i, j :: 0 <= i < j < |ks| ==> Below(ks[i], ks[j])
  }

  lemma AscendingDistinct(ks: seq<string>)
    requires Ascending(ks)
    ensures Distinct(ks)
  {
    forall i, j | 0 <= i < j < |ks| ensures ks[i] != ks[j] {
      BelowIrreflexive(ks[i]);
    }
  }

  /** `ks` with `k` put in its place. */
  function Insert(ks: seq<string>, k: string): (r: seq<string>)
    requires Ascending(ks) && k !in ks
    ensures Ascending(r) && |r| == |ks| + 1
    ensures forall x :: x in r <==> x in ks || x == k
  {
    if ks == [] then [k]
    else if Below(k, ks[0]) then
      assert forall j :: 0 < j < |ks| ==> Below(k, ks[j]) by {
        forall j | 0 < j < |ks| ensures Below(k, ks[j]) { BelowTransitive(k, ks[0], ks[j]); }
      }
      [k] + ks
    else
      BelowTotal(k, ks[0]);
      var rest := Insert(ks[1..], k);
      assert forall x :: x in rest ==> Below(ks[0], x) by {
        forall x | x in rest ensures Below(ks[0], x) {
          if x != k {
            var j :| 0 <= j < |ks[1..]| && ks[1..][j] == x;
            assert ks[j + 1] == x;
          }
        }
      }
      assert forall x :: x in ks <==> x == ks[0] || x in ks[1..] by {
        assert ks == [ks[0]] + ks[1..];
      }
      [ks[0]] + rest
  }

  /** Two ascending sequences with the same elements are equal: a set has one ascending enumeration. */
  lemma {:induction false} AscendingUnique(a: seq<string>, b: seq<string>)
    requires Ascending(a) && Ascending(b) && |a| == |b|
    requires forall x :: x in a <==> x in b
    ensures a == b
    decreases |a|
  {
    if a != [] {
      assert a[0] in b && b[0] in a;
      if a[0] != b[0] {
        var i :| 0 <= i < |a| && a[i] == b[0];
        var j :| 0 <= j < |b| && b[j] == a[0];
        BelowIrreflexive(a[0]);
        if i > 0 && j > 0 {
          BelowTransitive(a[0], b[0], a[0]);
        }
        assert false;
      }
      AscendingTail(a);
      AscendingTail(b);
      AscendingUnique(a[1..], b[1..]);
      assert a == [a[0]] + a[1..] && b == [b[0]] + b[1..];
    }
  }

  /** The tail of an ascending sequence holds exactly its elements other than the first. */
  lemma AscendingTail(ks: seq<string>)
    requires Ascending(ks) && ks != []
    ensures Ascending(ks[1..])
    ensures forall x :: x in ks[1..] <==> x in ks && x != ks[0]
  {
    AscendingDistinct(ks);
    assert ks == [ks[0]] + ks[1..];
  }

  /** The ascending enumeration of a finite set of keys. */
  ghost function Sorted(s: set<string>): (ks: seq<string>)
    ensures Ascending(ks) && |ks| == |s|
    ensures forall x :: x in ks <==> x in s
    decreases |s|
  {
    if s == {} then []
    else
      var k :| k in s;
      Insert(Sorted(s - {k}), k)
  }

  /** The keys of `s` in ascending order, as the rows of a sorted outer merge come out. */
  method SortedKeys(s: set<string>) returns (ks: seq<string>)
    ensures Ascending(ks) && |ks| == |s|
    ensures forall x :: x in ks <==> x in s
    ensures ks == Sorted(s)
  {
    ks := [];
    var rest := s;
    while rest != {}
      invariant Ascending(ks)
      invariant forall x :: x in ks <==> x in s && x !in rest
      invariant rest <= s && |ks| + |rest| == |s|
      decreases |rest|
    {
      var k :| k in rest;
      ks := Insert(ks, k);
      rest := rest - {k};
    }
    AscendingUnique(ks, Sorted(s));
  }
}
