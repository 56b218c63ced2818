// A JavaScript Map with string keys: iteration follows the first insertion of each key.
module OrderedMap {
  import opened Wrappers

  ghost predicate Distinct<T>(s: seq<T>) {
    forall i, j :: 0 <= i < j < |s| ==> s[i] != s[j]
  }

  datatype OMap<+V> = OMap(order: seq<string>, at: map<string, V>) {
    ghost predicate Valid() {
      Distinct(order) && forall k :: k in order <==> k in at
    }

    function Get(k: string): Option<V> {
      if k in at then Some(at[k]) else None
    }
  }

  function Empty<V>(): OMap<V> {
    OMap([], map[])
  }

  function Put<V>(m: OMap<V>, k: string, v: V): (r: OMap<V>)
    ensures m.Valid() ==> r.Valid()
  {
    var order := if k in m.at then m.order else m.order + [k];
    assert m.Valid() ==> forall x :: x in order <==> x in m.order || x == k;
    OMap(order, m.at[k := v])
  }

  function PutAll<V>(m: OMap<V>, n: OMap<V>, upTo: nat): (r: OMap<V>)
    requires m.Valid() && n.Valid() && upTo <= |n.order|
    ensures r.Valid()
    ensures forall k :: k in r.at <==> k in m.at || k in n.order[..upTo]
    ensures forall k :: k in r.at ==> r.at[k] == if k in n.order[..upTo] then n.at[k] else m.at[k]
    ensures m.at.Keys !! n.at.Keys ==> r.order == m.order + n.order[..upTo]
  {
    if upTo == 0 then m
    else
      var k := n.order[upTo - 1];
      assert n.order[..upTo] == n.order[..upTo - 1] + [k];
      Put(PutAll(m, n, upTo - 1), k, n.at[k])
  }

  /** `new Map([...m, ...n])`. */
  function Merge<V>(m: OMap<V>, n: OMap<V>): (r: OMap<V>)
    requires m.Valid() && n.Valid()
    ensures r.Valid() && r.at == m.at + n.at
    decreases |n.order|
  {
    assert n.order[..|n.order|] == n.order;
    PutAll(m, n, |n.order|)
  }

  lemma MergeDisjoint<V>(m: OMap<V>, n: OMap<V>)
    requires m.Valid() && n.Valid() && m.at.Keys !! n.at.Keys
    ensures Merge(m, n).order == m.order + n.order
  {
    assert n.order[..|n.order|] == n.order;
  }
}
