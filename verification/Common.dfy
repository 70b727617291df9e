/** Small vocabulary shared by every model in this project. */
module Common {

  datatype Option<+T> = None | Some(value: T)

  type Byte = b: nat | b < 256
  type Bytes = seq<Byte>

  predicate Distinct<T(==)>(s: seq<T>) {
    forall i, j :: 0 <= i < j < |s| ==> s[i] != s[j]
  }

  lemma DistinctCons<T>(x: T, s: seq<T>)
    requires Distinct(s) && x !in s
    ensures Distinct([x] + s)
  {
  }

  lemma DistinctTail<T>(s: seq<T>)
    requires Distinct(s) && s != []
    ensures Distinct(s[1..])
  {
  }

  function Lookup<K, V>(m: map<K, V>, k: K, default: V): V {
    if k in m then m[k] else default
  }

  function Last<T>(s: seq<T>): T
    requires s != []
  {
    s[|s| - 1]
  }

  function Front<T>(s: seq<T>): seq<T>
    requires s != []
  {
    s[..|s| - 1]
  }

  function Filter<T(!new)>(keep: T -> bool, s: seq<T>): (r: seq<T>)
    ensures forall x :: x in r <==> x in s && keep(x)
    ensures |r| <= |s|
  {
    if s == [] then []
    else (if keep(s[0]) then [s[0]] else []) + Filter(keep, s[1..])
  }

  lemma {:induction false} FilterOfConcat<T(!new)>(keep: T -> bool, s: seq<T>, t: seq<T>)
    ensures Filter(keep, s + t) == Filter(keep, s) + Filter(keep, t)
  {
    if s == [] {
      assert s + t == t;
    } else {
      assert (s + t)[0] == s[0] && (s + t)[1..] == s[1..] + t;
      FilterOfConcat(keep, s[1..], t);
    }
  }

  /** Filtering from the front, for what goes on at the back. */
  lemma FilterLast<T(!new)>(keep: T -> bool, s: seq<T>)
    requires s != []
    ensures Filter(keep, s) == Filter(keep, Front(s)) + if keep(Last(s)) then [Last(s)] else []
  {
    assert s == Front(s) + [Last(s)] && [Last(s)][1..] == [];
    FilterOfConcat(keep, Front(s), [Last(s)]);
  }

  lemma {:induction false} FilterAlike<T(!new)>(keep: T -> bool, asked: T -> bool, s: seq<T>)
    requires forall x :: keep(x) == asked(x)
    ensures Filter(keep, s) == Filter(asked, s)
  {
    if s != [] {
      FilterAlike(keep, asked, s[1..]);
    }
  }

  /** Some element satisfies `p` together with everything before it. */
  ghost predicate Somewhere<T(!new)>(p: (seq<T>, T) -> bool, s: seq<T>) {
    exists i :: 0 <= i < |s| && p(s[..i], s[i])
  }

  lemma SomewhereSnoc<T(!new)>(p: (seq<T>, T) -> bool, s: seq<T>)
    requires s != []
    ensures Somewhere(p, s) <==> Somewhere(p, Front(s)) || p(Front(s), Last(s))
  {
    var front, n := Front(s), |s| - 1;
    assert s[..n] == front;
    if Somewhere(p, front) {
      var i :| 0 <= i < n && p(front[..i], front[i]);
      assert front[..i] == s[..i] && s[i] == front[i];
    }
    if Somewhere(p, s) {
      var i :| 0 <= i < |s| && p(s[..i], s[i]);
      if i < n {
        assert front[..i] == s[..i] && s[i] == front[i];
      }
    }
  }

  lemma SubsetIsNoLarger<T>(a: set<T>, b: set<T>)
    requires a <= b
    ensures |a| <= |b|
  {
    assert b == a + (b - a);
  }
}
