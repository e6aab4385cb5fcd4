/** Sequence helpers: joining a list of strings and building a dictionary by repeated assignment. */
module Seqs {

  /** No element occurs twice. */
  predicate Distinct<T(==)>(s: seq<T>) {
    forall i, j :: 0 <= i < j < |s| ==> s[i] != s[j]
  }

  /** The elements of `s` for which `f` holds, in their order in `s`. */
  function Filter<T(==,!new)>(s: seq<T>, f: T -> bool): (r: seq<T>)
    ensures |r| <= |s|
    ensures forall x :: x in r <==> x in s && f(x)
    ensures forall i :: 0 <= i < |r| ==> f(r[i])
  {
    if s == [] then [] else Filter(s[..|s| - 1], f) + (if f(s[|s| - 1]) then [s[|s| - 1]] else [])
  }

  /** Filtering a concatenation filters each part and keeps the parts in order. */
  lemma {:induction false} FilterAppend<T(!new)>(a: seq<T>, b: seq<T>, f: T -> bool)
    ensures Filter(a + b, f) == Filter(a, f) + Filter(b, f)
    decreases |b|
  {
    if b != [] {
      var x := b[|b| - 1];
      assert (a + b)[..|a + b| - 1] == a + b[..|b| - 1];
      FilterAppend(a, b[..|b| - 1], f);
    } else {
      assert a + b == a;
    }
  }

  /** A single element is kept exactly when it satisfies the predicate. */
  lemma FilterOne<T(!new)>(x: T, f: T -> bool)
    ensures Filter([x], f) == if f(x) then [x] else []
  {
    assert [x][..0] == [];
  }

  /** `''.join(ss)`. */
  function Concat(ss: seq<string>): string {
    if ss == [] then "" else ss[0] + Concat(ss[1..])
  }

  lemma {:induction false} ConcatAppend(ss: seq<string>, x: string)
    ensures Concat(ss + [x]) == Concat(ss) + x
  {
    if ss != [] {
      assert (ss + [x])[1..] == ss[1..] + [x];
      ConcatAppend(ss[1..], x);
    }
  }

  lemma {:induction false} ConcatSplit(ss: seq<string>, i: nat)
    requires i <= |ss|
    ensures Concat(ss) == Concat(ss[..i]) + Concat(ss[i..])
  {
    if i > 0 {
      assert ss[1..][..i - 1] == ss[1..i];
      assert ss[1..][i - 1..] == ss[i..];
      ConcatSplit(ss[1..], i - 1);
      assert ss[..i] == [ss[0]] + ss[1..i];
      assert ss[..i][1..] == ss[1..i];
    } else {
      assert ss[i..] == ss;
    }
  }

  /**
    The dictionary built by assigning `d[k] = v` for each pair in order, starting from `{}`:
    a later pair with the same key overwrites an earlier one.
   */
  function LastWins<K, V>(ps: seq<(K, V)>): map<K, V> {
    if ps == [] then map[] else LastWins(ps[..|ps| - 1])[ps[|ps| - 1].0 := ps[|ps| - 1].1]
  }

  /** The keys are the first components of the pairs; each maps to the value of its last pair. */
  lemma {:induction false} LastWinsAt<K, V>(ps: seq<(K, V)>)
    ensures forall k :: k in LastWins(ps) ==> exists i :: 0 <= i < |ps| && ps[i].0 == k
    ensures forall i :: 0 <= i < |ps| ==> ps[i].0 in LastWins(ps)
    ensures forall i :: 0 <= i < |ps| && (forall j :: i < j < |ps| ==> ps[j].0 != ps[i].0) ==>
              ps[i].0 in LastWins(ps) && LastWins(ps)[ps[i].0] == ps[i].1
  {
    if ps != [] {
      var init := ps[..|ps| - 1];
      LastWinsAt(init);
      forall k | k in LastWins(ps) ensures exists i :: 0 <= i < |ps| && ps[i].0 == k {
        if k != ps[|ps| - 1].0 {
          assert k in LastWins(init);
          assert exists i :: 0 <= i < |init| && init[i].0 == k;
          var i :| 0 <= i < |init| && init[i].0 == k;
          assert ps[i].0 == k;
        }
      }
      forall i | 0 <= i < |ps| ensures ps[i].0 in LastWins(ps) {
        if i < |init| {
          assert init[i] == ps[i];
        }
      }
    }
  }

  /** Every entry of the dictionary is one of the assigned pairs. */
  lemma {:induction false} LastWinsFrom<K, V>(ps: seq<(K, V)>)
    ensures forall k :: k in LastWins(ps) ==> exists i :: 0 <= i < |ps| && ps[i] == (k, LastWins(ps)[k])
  {
    if ps != [] {
      var init := ps[..|ps| - 1];
      LastWinsFrom(init);
      forall k | k in LastWins(ps) ensures exists i :: 0 <= i < |ps| && ps[i] == (k, LastWins(ps)[k]) {
        if k != ps[|ps| - 1].0 {
          var i :| 0 <= i < |init| && init[i] == (k, LastWins(init)[k]);
          assert ps[i] == init[i];
        } else {
          assert ps[|ps| - 1] == (k, LastWins(ps)[k]);
        }
      }
    }
  }

  /** The dictionary's keys are the pairs' first components, and each entry is one of the pairs. */
  lemma LastWinsPairs<K, V>(ps: seq<(K, V)>)
    ensures forall pr :: pr in ps ==> pr.0 in LastWins(ps)
    ensures forall k :: k in LastWins(ps) ==> (k, LastWins(ps)[k]) in ps
  {
    LastWinsAt(ps);
    LastWinsFrom(ps);
  }

  /** A key assigned only one value, however often, ends up with that value. */
  lemma {:induction false} LastWinsOnly<K, V>(ps: seq<(K, V)>, k: K, v: V)
    requires (k, v) in ps
    requires forall pr :: pr in ps && pr.0 == k ==> pr.1 == v
    ensures k in LastWins(ps) && LastWins(ps)[k] == v
  {
    var init, last := ps[..|ps| - 1], ps[|ps| - 1];
    assert ps == init + [last];
    if last.0 != k {
      LastWinsOnly(init, k, v);
    }
  }

  /** Assigning the pairs of `a` and then those of `b` overlays `b`'s dictionary on `a`'s. */
  lemma {:induction false} LastWinsAppend<K, V>(a: seq<(K, V)>, b: seq<(K, V)>)
    ensures LastWins(a + b) == LastWins(a) + LastWins(b)
    decreases |b|
  {
    if b == [] {
      assert a + b == a;
    } else {
      var init := b[..|b| - 1];
      assert (a + b)[..|a + b| - 1] == a + init;
      LastWinsAppend(a, init);
    }
  }

  /** Where the middle part of a three-part concatenation sits. */
  lemma Block<T>(a: seq<T>, b: seq<T>, c: seq<T>)
    ensures |a| + |b| <= |a + b + c| && (a + b + c)[..|a|] == a
    ensures forall j :: 0 <= j < |b| ==> (a + b + c)[|a| + j] == b[j]
    ensures (a + b + c)[|a|..|a| + |b|] == b
  {
    assert (a + b + c)[..|a|] == a;
    assert (a + b + c)[|a|..|a| + |b|] == b;
  }
}
