/** Small helpers (robostat/util.py): a dictionary that refuses to rebind a
    key, competition numbering of an ordered standings list, and a filter
    that drops missing scores before an aggregate sees them. */
module Util {
  import opened Common

  // ---------------------------------------------------------------------
  // udict

  /** What `udict[key] = value` leaves behind: a new binding, or
      DuplicateKeyError when the key is already bound. */
  function SetItemResult<K(==), V>(m: map<K, V>, key: K, value: V): (r: Result<map<K, V>, Error>)
    ensures r.Failure? <==> key in m
    ensures r.Failure? ==> r.error == DuplicateKeyError
    ensures r.Success? ==>
      && r.value.Keys == m.Keys + {key}
      && r.value[key] == value
      && forall k :: k in m ==> r.value[k] == m[k]
  {
    if key in m then Failure(DuplicateKeyError) else Success(m[key := value])
  }

  /** `udict`: a dictionary whose keys, once bound, stay bound to their
      first value. */
  class UDict<K(==), V> {
    var items: map<K, V>

    constructor ()
      ensures items == map[]
    {
      items := map[];
    }

    /** `__setitem__`: a bound key raises DuplicateKeyError and changes
        nothing. */
    method SetItem(key: K, value: V) returns (o: Outcome<Error>)
      modifies this
      ensures SetItemResult(old(items), key, value).Failure? ==>
        o == Fail(DuplicateKeyError) && items == old(items)
      ensures SetItemResult(old(items), key, value).Success? ==>
        o == Pass && items == SetItemResult(old(items), key, value).value
    {
      if key in items {
        o := Fail(DuplicateKeyError);
      } else {
        items := items[key := value];
        o := Pass;
      }
    }
  }

  /** The keys of a list of pairs. */
  function PairKeys<K, V>(pairs: seq<(K, V)>): set<K> {
    set i | 0 <= i < |pairs| :: pairs[i].0
  }

  /** Successive assignments of a list of pairs: they all succeed exactly
      when no key is already bound or repeated, and then every earlier
      binding survives and every pair is bound; otherwise the first
      duplicate raises DuplicateKeyError. */
  function SetAll<K(==), V>(m: map<K, V>, pairs: seq<(K, V)>): (r: Result<map<K, V>, Error>)
    ensures r.Success? <==>
      && (forall i :: 0 <= i < |pairs| ==> pairs[i].0 !in m)
      && (forall i, j :: 0 <= i < j < |pairs| ==> pairs[i].0 != pairs[j].0)
    ensures r.Failure? ==> r.error == DuplicateKeyError
    ensures r.Success? ==>
      && r.value.Keys == m.Keys + PairKeys(pairs)
      && (forall k :: k in m ==> r.value[k] == m[k])
      && (forall i :: 0 <= i < |pairs| ==> r.value[pairs[i].0] == pairs[i].1)
    decreases |pairs|
  {
    if pairs == [] then Success(m)
    else
      match SetItemResult(m, pairs[0].0, pairs[0].1)
      case Failure(e) => Failure(e)
      case Success(m') =>
        var rest := pairs[1..];
        assert forall i :: 0 < i < |pairs| ==> pairs[i] == rest[i - 1];
        assert forall i :: 0 <= i < |rest| ==> rest[i] == pairs[i + 1];
        var r := SetAll(m', rest);
        assert r.Success? ==> PairKeys(pairs) == {pairs[0].0} + PairKeys(rest) by {
          if r.Success? {
            forall k | k in PairKeys(pairs)
              ensures k in {pairs[0].0} + PairKeys(rest)
            {
              var i :| 0 <= i < |pairs| && pairs[i].0 == k;
              if i > 0 {
                assert rest[i - 1].0 == k;
              }
            }
            assert pairs[0].0 in PairKeys(pairs);
            forall k | k in PairKeys(rest)
              ensures k in PairKeys(pairs)
            {
              var i :| 0 <= i < |rest| && rest[i].0 == k;
              assert pairs[i + 1].0 == k;
            }
          }
        }
        r
  }

  // ---------------------------------------------------------------------
  // enumerate_rank

  /** Position of the first item of the run of items with equal keys
      that holds position `i`. */
  function RunStart<T, K(==)>(items: seq<T>, key: T -> K, i: nat): (p: nat)
    requires i < |items|
    ensures p <= i
  {
    if i == 0 || key(items[i - 1]) != key(items[i]) then i else RunStart(items, key, i - 1)
  }

  /** The run that holds `i` starts at an item with the same key, and
      the item before it, if any, has a different key. */
  lemma {:induction false} RunStartIsRunStart<T, K>(items: seq<T>, key: T -> K, i: nat)
    requires i < |items|
    ensures key(items[RunStart(items, key, i)]) == key(items[i])
    ensures RunStart(items, key, i) == 0 || key(items[RunStart(items, key, i) - 1]) != key(items[RunStart(items, key, i)])
  {
    if i > 0 && key(items[i - 1]) == key(items[i]) {
      RunStartIsRunStart(items, key, i - 1);
    }
  }

  /** `enumerate_rank(items, start, key)`: every item, in order, with its
      competition rank, `start` plus the position where its run of equal
      keys begins. */
  method EnumerateRank<T, K(==)>(items: seq<T>, start: int, key: T -> K) returns (ranked: seq<(int, T)>)
    ensures |ranked| == |items|
    ensures forall j :: 0 <= j < |items| ==> ranked[j] == (start + RunStart(items, key, j), items[j])
  {
    if items == [] {
      return [];
    }
    var idx, cnt := start, start;
    var k := key(items[0]);
    ranked := [(idx, items[0])];
    var i := 1;
    while i < |items|
      invariant 1 <= i <= |items|
      invariant cnt == start + i - 1
      invariant k == key(items[i - 1])
      invariant idx == start + RunStart(items, key, i - 1)
      invariant |ranked| == i
      invariant forall j :: 0 <= j < i ==> ranked[j] == (start + RunStart(items, key, j), items[j])
    {
      cnt := cnt + 1;
      var kk := key(items[i]);
      if kk != k {
        k := kk;
        idx := cnt;
      }
      ranked := ranked + [(idx, items[i])];
      i := i + 1;
    }
  }

  /** The first item ranks `start`; tied neighbours share a rank; an item
      whose key differs from its predecessor's ranks `start` plus its own
      position, skipping the ranks the tie used. */
  lemma RankSteps<T, K>(items: seq<T>, key: T -> K, i: nat)
    requires i + 1 < |items|
    ensures RunStart(items, key, 0) == 0
    ensures key(items[i]) == key(items[i + 1]) ==> RunStart(items, key, i + 1) == RunStart(items, key, i)
    ensures key(items[i]) != key(items[i + 1]) ==> RunStart(items, key, i + 1) == i + 1
  {
  }

  /** Ranks never decrease along the list, and no rank exceeds
      `start` plus the position. */
  lemma {:induction false} RanksNondecreasing<T, K>(items: seq<T>, key: T -> K, i: nat, j: nat)
    requires i <= j < |items|
    ensures RunStart(items, key, i) <= RunStart(items, key, j) <= j
    decreases j - i
  {
    if i < j {
      RanksNondecreasing(items, key, i, j - 1);
      RankSteps(items, key, j - 1);
    }
  }

  /** Competition numbering of scores 10, 8, 8, 5 from 1: 1, 2, 2, 4. */
  lemma CompetitionNumbering()
    ensures var scores, key := [10, 8, 8, 5], (x: int) => x;
      [1 + RunStart(scores, key, 0), 1 + RunStart(scores, key, 1), 1 + RunStart(scores, key, 2), 1 + RunStart(scores, key, 3)] == [1, 2, 2, 4]
  {
    var scores, key := [10, 8, 8, 5], (x: int) => x;
    RankSteps(scores, key, 0);
    RankSteps(scores, key, 1);
    RankSteps(scores, key, 2);
  }

  // ---------------------------------------------------------------------
  // noneflt

  /** The present values, in order. */
  function Somes<T>(xs: seq<Option<T>>): (r: seq<T>)
    ensures |r| <= |xs|
    ensures forall i :: 0 <= i < |xs| && xs[i].Some? ==> xs[i].value in r
    ensures forall j :: 0 <= j < |r| ==> Some(r[j]) in xs
    ensures |r| == |xs| - multiset(xs)[None]
    ensures (forall i :: 0 <= i < |xs| ==> xs[i].Some?) ==>
      |r| == |xs| && forall i :: 0 <= i < |xs| ==> r[i] == xs[i].value
  {
    if xs == [] then []
    else
      var init := Somes(xs[..|xs| - 1]);
      assert forall i :: 0 <= i < |xs| - 1 ==> xs[i] == xs[..|xs| - 1][i];
      assert xs == xs[..|xs| - 1] + [xs[|xs| - 1]];
      assert multiset(xs) == multiset(xs[..|xs| - 1]) + multiset{xs[|xs| - 1]};
      match xs[|xs| - 1]
      case None => init
      case Some(v) => init + [v]
  }

  lemma {:induction false} SomesConcat<T>(a: seq<Option<T>>, b: seq<Option<T>>)
    ensures Somes(a + b) == Somes(a) + Somes(b)
    decreases |b|
  {
    if b == [] {
      assert a + b == a;
    } else {
      assert (a + b)[..|a + b| - 1] == a + b[..|b| - 1];
      SomesConcat(a, b[..|b| - 1]);
    }
  }

  lemma SomesSingle<T>(v: T)
    ensures Somes([Some(v)]) == [v]
    ensures Somes([None, Some(v)]) == [v]
  {
    var one := [Some(v)];
    var both := [None, Some(v)];
    assert one[..0] == [] && both[..1] == [None] && both[..1][..0] == [];
  }

  /** `noneflt(func)(xs)`: `func` sees the values of `xs` with every
      None removed; with nothing missing it sees every value, in order. */
  function NoneFlt<T, R>(func: seq<T> -> R, xs: seq<Option<T>>): (r: R)
    ensures (forall i :: 0 <= i < |xs| ==> xs[i].Some?) ==>
      r == func(seq(|xs|, i requires 0 <= i < |xs| => xs[i].value))
  {
    var vs := Somes(xs);
    assert (forall i :: 0 <= i < |xs| ==> xs[i].Some?) ==> vs == seq(|xs|, i requires 0 <= i < |xs| => xs[i].value);
    func(vs)
  }

  /** Missing scores do not change what the wrapped aggregate sees:
      inserting a None anywhere leaves the outcome as it was. */
  lemma NoneFltIgnoresNone<T, R>(func: seq<T> -> R, a: seq<Option<T>>, b: seq<Option<T>>)
    ensures NoneFlt(func, a + [None] + b) == NoneFlt(func, a + b)
  {
    SomesConcat(a + [None], b);
    SomesConcat(a, [None]);
    SomesConcat(a, b);
    assert Somes([None]) == Somes<T>([]) + [];
  }
}
