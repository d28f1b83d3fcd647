/** Python dictionaries keyed by strings: a map together with the insertion
    order of its keys. Assigning to a key that is already present keeps its
    position; a new key goes to the end. */
module Dicts {
  import opened Outcomes

  datatype Dict<V> = Dict(order: seq<string>, entries: map<string, V>)

  /** The order lists every key exactly once. */
  ghost predicate WellFormed<V>(d: Dict<V>) {
    && (forall i, j :: 0 <= i < j < |d.order| ==> d.order[i] != d.order[j])
    && (forall k :: k in d.entries <==> k in d.order)
  }

  function Empty<V>(): (r: Dict<V>)
    ensures WellFormed(r) && |r.order| == 0
  {
    Dict([], map[])
  }

  /** `len(d)` */
  function Size<V>(d: Dict<V>): nat {
    |d.order|
  }

  /** `d[k]` returned as an option instead of a KeyError. */
  function Get<V>(d: Dict<V>, k: string): Option<V> {
    if k in d.entries then Some(d.entries[k]) else None
  }

  /** `d[k] = v` */
  function Set<V>(d: Dict<V>, k: string, v: V): (r: Dict<V>)
    ensures WellFormed(d) ==> WellFormed(r)
    ensures k in r.entries && r.entries[k] == v
    ensures forall j :: j != k ==> (j in r.entries <==> j in d.entries)
    ensures forall j :: j != k && j in d.entries ==> r.entries[j] == d.entries[j]
    ensures k in d.order ==> r.order == d.order
    ensures k !in d.order ==> r.order == d.order + [k]
  {
    Dict(if k in d.order then d.order else d.order + [k], d.entries[k := v])
  }

  /** `d.values()` in insertion order. */
  function Values<V>(d: Dict<V>): (r: seq<V>)
    ensures WellFormed(d) ==> |r| == |d.order|
    ensures WellFormed(d) ==> forall i :: 0 <= i < |r| ==> r[i] == d.entries[d.order[i]]
  {
    ValuesAt(d.order, d.entries)
  }

  function ValuesAt<V>(keys: seq<string>, m: map<string, V>): (r: seq<V>)
    ensures (forall k :: k in keys ==> k in m) ==> |r| == |keys|
    ensures (forall k :: k in keys ==> k in m) ==> forall i :: 0 <= i < |r| ==> r[i] == m[keys[i]]
  {
    if |keys| == 0 then []
    else (if keys[0] in m then [m[keys[0]]] else []) + ValuesAt(keys[1..], m)
  }
}
