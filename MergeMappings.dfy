/** The mapping-file repair hook `merge_duplicates`
    (Config/mergemappings.py:4-16): JSON object members arrive as key/value
    pairs in file order, and a key seen again has its values combined
    instead of the later one silently replacing the earlier. */
module MergeMappings {
  import opened Dicts

  /** A JSON value as far as the hook distinguishes it: a list, or anything
      else (kept as its text). */
  datatype Json = Atom(text: string) | Array(items: seq<Json>)

  /** The elements a value contributes when merged into a list: a list's
      items, or the value itself. */
  function Flat(v: Json): seq<Json> {
    if v.Array? then v.items else [v]
  }

  /** The value of a repeated key after one more member: two lists are
      concatenated, a scalar is put into a list with the newcomer, and a
      list gets a scalar newcomer appended. */
  function Combine(prev: Json, v: Json): (r: Json)
    ensures r.Array?
    ensures prev.Array? ==> r.items == prev.items + Flat(v)
    ensures !prev.Array? ==> r.items == [prev, v]
  {
    if prev.Array? && v.Array? then Array(prev.items + v.items)
    else if !prev.Array? then Array([prev, v])
    else Array(prev.items + [v])
  }

  /** The hook as a fold over the members in order. */
  function Merge(pairs: seq<(string, Json)>): Dict<Json>
    decreases |pairs|
  {
    if pairs == [] then Empty()
    else
      var d := Merge(pairs[..|pairs| - 1]);
      var (k, v) := pairs[|pairs| - 1];
      Put(d, k, if k in d.vals then Combine(d.vals[k], v) else v)
  }

  /** `merge_duplicates(pairs)`. */
  method MergeDuplicates(pairs: seq<(string, Json)>) returns (d: Dict<Json>)
    ensures d == Merge(pairs)
  {
    d := Empty();
    for i := 0 to |pairs|
      invariant d == Merge(pairs[..i])
    {
      assert pairs[..i + 1][..i] == pairs[..i];
      var (k, v) := pairs[i];
      if k in d.vals {
        d := Put(d, k, Combine(d.vals[k], v));
      } else {
        d := Put(d, k, v);
      }
    }
    assert pairs[..|pairs|] == pairs;
  }

  // ---------------------------------------------------------------------
  // A reference description of the result
  // ---------------------------------------------------------------------

  function KeysOf(pairs: seq<(string, Json)>): (r: seq<string>)
    ensures |r| == |pairs|
    ensures forall i :: 0 <= i < |pairs| ==> r[i] == pairs[i].0
    decreases |pairs|
  {
    if pairs == [] then [] else KeysOf(pairs[..|pairs| - 1]) + [pairs[|pairs| - 1].0]
  }

  /** The values given for `k`, in file order. */
  function ValuesOf(pairs: seq<(string, Json)>, k: string): (r: seq<Json>)
    ensures |r| <= |pairs|
    decreases |pairs|
  {
    if pairs == [] then []
    else
      var init := ValuesOf(pairs[..|pairs| - 1], k);
      if pairs[|pairs| - 1].0 == k then init + [pairs[|pairs| - 1].1] else init
  }

  /** The contributions of several values, one after the other. */
  function FlatAll(vs: seq<Json>): seq<Json>
    decreases |vs|
  {
    if vs == [] then [] else FlatAll(vs[..|vs| - 1]) + Flat(vs[|vs| - 1])
  }

  /** What a key given the values `vs` ends up with: its only value; or,
      when the first value is a list, one list of its items followed by the
      contributions of all later values; or, when it is not, a list of the
      first two values as they are followed by the contributions of the
      rest. A list given second after a scalar therefore stays nested. */
  function Expected(vs: seq<Json>): Json
    requires |vs| >= 1
  {
    if |vs| == 1 then vs[0]
    else if vs[0].Array? then Array(vs[0].items + FlatAll(vs[1..]))
    else Array([vs[0], vs[1]] + FlatAll(vs[2..]))
  }

  lemma ExpectedSnoc(vs: seq<Json>, v: Json)
    requires |vs| >= 1
    ensures Expected(vs + [v]) == Combine(Expected(vs), v)
  {
    var ws := vs + [v];
    if |vs| == 1 {
      assert ws[1..] == [v];
      assert FlatAll([v]) == FlatAll([]) + Flat(v);
    } else if vs[0].Array? {
      assert ws[1..] == vs[1..] + [v];
      assert ws[1..][..|ws[1..]| - 1] == vs[1..];
    } else {
      assert ws[2..] == vs[2..] + [v];
      assert ws[2..][..|ws[2..]| - 1] == vs[2..];
    }
  }

  /** A key is in the result exactly when some member has it, and its value
      is `Expected` of all the values given for it: no value is lost and
      the values keep their file order. */
  lemma {:induction false} MergedValue(pairs: seq<(string, Json)>, k: string)
    ensures k in Merge(pairs).vals <==> |ValuesOf(pairs, k)| > 0
    ensures k in Merge(pairs).vals ==> Merge(pairs).vals[k] == Expected(ValuesOf(pairs, k))
    decreases |pairs|
  {
    if pairs != [] {
      var init := pairs[..|pairs| - 1];
      MergedValue(init, k);
      var (k', v) := pairs[|pairs| - 1];
      if k' == k && |ValuesOf(init, k)| > 0 {
        ExpectedSnoc(ValuesOf(init, k), v);
      }
    }
  }

  /** The keys come out in order of their first occurrence, each once. */
  lemma {:induction false} MergedKeys(pairs: seq<(string, Json)>)
    ensures Merge(pairs).keys == Dedup(KeysOf(pairs))
    decreases |pairs|
  {
    if pairs != [] {
      var init := pairs[..|pairs| - 1];
      var k := pairs[|pairs| - 1].0;
      var d := Merge(init);
      MergedKeys(init);
      DedupAppend(KeysOf(init), k);
      assert k in d.vals <==> k in Dedup(KeysOf(init)) by {
        assert k in d.vals <==> k in d.keys;
      }
      assert Merge(pairs).keys == if k in d.vals then d.keys else d.keys + [k];
    }
  }

  lemma {:induction false} ValuesOfSingle(pairs: seq<(string, Json)>, i: nat)
    requires i < |pairs|
    requires forall j :: 0 <= j < |pairs| && j != i ==> pairs[j].0 != pairs[i].0
    ensures ValuesOf(pairs, pairs[i].0) == [pairs[i].1]
    decreases |pairs|
  {
    var init := pairs[..|pairs| - 1];
    if i < |pairs| - 1 {
      ValuesOfSingle(init, i);
    } else {
      ValuesOfAbsent(init, pairs[i].0);
    }
  }

  lemma {:induction false} ValuesOfAbsent(pairs: seq<(string, Json)>, k: string)
    requires forall j :: 0 <= j < |pairs| ==> pairs[j].0 != k
    ensures ValuesOf(pairs, k) == []
    decreases |pairs|
  {
    if pairs != [] {
      ValuesOfAbsent(pairs[..|pairs| - 1], k);
    }
  }

  /** A key given once keeps its value unchanged. */
  lemma UniqueKeyKept(pairs: seq<(string, Json)>, i: nat)
    requires i < |pairs|
    requires forall j :: 0 <= j < |pairs| && j != i ==> pairs[j].0 != pairs[i].0
    ensures pairs[i].0 in Merge(pairs).vals && Merge(pairs).vals[pairs[i].0] == pairs[i].1
  {
    ValuesOfSingle(pairs, i);
    MergedValue(pairs, pairs[i].0);
  }

  lemma {:induction false} FlatAllCons(v: Json, vs: seq<Json>)
    ensures FlatAll([v] + vs) == Flat(v) + FlatAll(vs)
    decreases |vs|
  {
    if vs != [] {
      var init := vs[..|vs| - 1];
      FlatAllCons(v, init);
      var ws := [v] + vs;
      assert ws[..|ws| - 1] == [v] + init && ws[|ws| - 1] == vs[|vs| - 1];
      assert FlatAll(ws) == FlatAll([v] + init) + Flat(vs[|vs| - 1]);
      assert FlatAll(vs) == FlatAll(init) + Flat(vs[|vs| - 1]);
    } else {
      assert FlatAll([v]) == FlatAll([]) + Flat(v);
    }
  }

  /** When every value given for a key is a list, the key ends up with one
      list of all their items, in file order. */
  lemma AllListsConcatenated(pairs: seq<(string, Json)>, k: string)
    requires |ValuesOf(pairs, k)| > 0
    requires forall i :: 0 <= i < |ValuesOf(pairs, k)| ==> ValuesOf(pairs, k)[i].Array?
    ensures k in Merge(pairs).vals && Merge(pairs).vals[k] == Array(FlatAll(ValuesOf(pairs, k)))
  {
    MergedValue(pairs, k);
    var vs := ValuesOf(pairs, k);
    assert vs == [vs[0]] + vs[1..];
    FlatAllCons(vs[0], vs[1..]);
    if |vs| == 1 {
      assert FlatAll(vs[1..]) == [];
    }
  }

  /** A scalar followed by a list for one key yields a two-element list
      whose second element is the whole list. */
  lemma ScalarThenListNests(k: string, s: string, b: seq<Json>)
    ensures Merge([(k, Atom(s)), (k, Array(b))]).vals[k] == Array([Atom(s), Array(b)])
  {
    var pairs := [(k, Atom(s)), (k, Array(b))];
    assert pairs[..1] == [(k, Atom(s))];
    assert pairs[..1][..0] == [];
    assert Merge(pairs[..1]).vals[k] == Atom(s);
  }
}
