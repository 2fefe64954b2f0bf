/** Python dictionaries keyed by strings: a map plus the insertion order of
    its keys, which is the order `dict.items()` iterates in. Assigning to a
    key that is already present replaces its value and keeps its place. */
module Dicts {

  predicate Distinct<T(==)>(s: seq<T>) {
    forall i, j :: 0 <= i < j < |s| ==> s[i] != s[j]
  }

  datatype DictRep<V> = DictRep(keys: seq<string>, vals: map<string, V>)

  predicate WellFormed<V>(d: DictRep<V>) {
    Distinct(d.keys) && (forall k :: k in d.vals ==> k in d.keys) && (forall k :: k in d.keys ==> k in d.vals)
  }

  type Dict<V> = d: DictRep<V> | WellFormed(d) witness DictRep([], map[])

  function Empty<V>(): (d: Dict<V>)
    ensures d.keys == [] && d.vals == map[]
  {
    DictRep([], map[])
  }

  /** `d[k] = v`. */
  function Put<V>(d: Dict<V>, k: string, v: V): (r: Dict<V>)
    ensures r.vals == d.vals[k := v]
    ensures r.keys == if k in d.vals then d.keys else d.keys + [k]
  {
    if k in d.vals then DictRep(d.keys, d.vals[k := v])
    else
      var r := DictRep(d.keys + [k], d.vals[k := v]);
      assert Distinct(r.keys) by {
        forall i, j | 0 <= i < j < |r.keys| ensures r.keys[i] != r.keys[j] {
          if j == |d.keys| { assert r.keys[i] == d.keys[i]; }
        }
      }
      r
  }

  /** The elements of `s` in order of first occurrence, each once. */
  function Dedup(s: seq<string>): (r: seq<string>)
    ensures Distinct(r)
    ensures forall x :: x in r <==> x in s
    decreases |s|
  {
    if s == [] then []
    else
      var d := Dedup(s[..|s| - 1]);
      var x := s[|s| - 1];
      assert forall y :: y in s <==> y in s[..|s| - 1] || y == x by {
        assert s == s[..|s| - 1] + [x];
      }
      if x in d then d else d + [x]
  }

  lemma DedupAppend(s: seq<string>, x: string)
    ensures Dedup(s + [x]) == if x in Dedup(s) then Dedup(s) else Dedup(s) + [x]
  {
    assert (s + [x])[..|s|] == s;
  }

  /** `for k, v in es: d[k] = v`. */
  function PutAll<V>(d: Dict<V>, es: seq<(string, V)>): Dict<V>
    decreases |es|
  {
    if es == [] then d
    else Put(PutAll(d, es[..|es| - 1]), es[|es| - 1].0, es[|es| - 1].1)
  }

  /** After the assignments a key is present exactly when it was before or
      some pair assigns it. */
  lemma {:induction false} PutAllKeys<V>(d: Dict<V>, es: seq<(string, V)>, k: string)
    ensures k in PutAll(d, es).vals <==> k in d.vals || exists i :: 0 <= i < |es| && es[i].0 == k
    decreases |es|
  {
    if es != [] {
      var init := es[..|es| - 1];
      PutAllKeys(d, init, k);
      if exists i :: 0 <= i < |es| - 1 && es[i].0 == k {
        var i :| 0 <= i < |es| - 1 && es[i].0 == k;
        assert init[i].0 == k;
      }
      if exists i :: 0 <= i < |init| && init[i].0 == k {
        var i :| 0 <= i < |init| && init[i].0 == k;
        assert es[i].0 == k;
      }
    }
  }

  /** A value present after the assignments is the old one or the value of
      a pair assigning that key. */
  lemma {:induction false} PutAllSource<V>(d: Dict<V>, es: seq<(string, V)>, k: string)
    requires k in PutAll(d, es).vals
    ensures (k in d.vals && PutAll(d, es).vals[k] == d.vals[k]) || exists i :: 0 <= i < |es| && es[i] == (k, PutAll(d, es).vals[k])
    decreases |es|
  {
    if es != [] && k != es[|es| - 1].0 {
      var init := es[..|es| - 1];
      PutAllSource(d, init, k);
      if !(k in d.vals && PutAll(d, init).vals[k] == d.vals[k]) {
        var i :| 0 <= i < |init| && init[i] == (k, PutAll(d, init).vals[k]);
        assert es[i] == init[i];
      }
    }
  }

  /** The last pair assigning a key decides its value. */
  lemma {:induction false} PutAllLastWins<V>(d: Dict<V>, es: seq<(string, V)>, i: nat)
    requires i < |es| && forall j :: i < j < |es| ==> es[j].0 != es[i].0
    ensures es[i].0 in PutAll(d, es).vals && PutAll(d, es).vals[es[i].0] == es[i].1
    decreases |es|
  {
    if i < |es| - 1 {
      var init := es[..|es| - 1];
      assert forall j :: 0 <= j < |init| ==> init[j] == es[j];
      PutAllLastWins(d, init, i);
    }
  }

  lemma PutAllSnoc<V>(d: Dict<V>, es: seq<(string, V)>, k: string, v: V)
    ensures PutAll(d, es + [(k, v)]) == Put(PutAll(d, es), k, v)
  {
    assert (es + [(k, v)])[..|es|] == es;
  }

  lemma {:induction false} PutAllConcat<V>(d: Dict<V>, a: seq<(string, V)>, b: seq<(string, V)>)
    ensures PutAll(d, a + b) == PutAll(PutAll(d, a), b)
    decreases |b|
  {
    if b != [] {
      var init, last := b[..|b| - 1], b[|b| - 1];
      assert (a + b)[..|a + b| - 1] == a + init;
      PutAllConcat(d, a, init);
    } else {
      assert a + b == a;
    }
  }
}
