/** Python dicts with string keys, which keep their keys in insertion order; a pandas frame
    keeps its columns the same way. */
module Dicts {

  /** `keys` in insertion order, `entries` the contents. */
  datatype Dict<V> = Dict(keys: seq<string>, entries: map<string, V>)

  /** The keys are distinct and are exactly the names that have an entry. */
  predicate WellKeyed<V>(d: Dict<V>) {
    && (forall i, j :: 0 <= i < j < |d.keys| ==> d.keys[i] != d.keys[j])
    && (forall k :: k in d.entries ==> k in d.keys)
    && (forall k :: k in d.keys ==> k in d.entries)
  }

  function Empty<V>(): (d: Dict<V>)
    ensures WellKeyed(d) && d.keys == [] && d.entries == map[]
  {
    Dict([], map[])
  }

  /** `d[name] = value`: an existing entry is replaced where it stands, a new one is
      appended at the end. */
  function SetItem<V>(d: Dict<V>, name: string, value: V): (r: Dict<V>)
    ensures r.entries.Keys == d.entries.Keys + {name} && r.entries[name] == value
    ensures forall k :: k != name && k in d.entries ==> r.entries[k] == d.entries[k]
    ensures name in d.entries ==> r.keys == d.keys
    ensures name !in d.entries ==> r.keys == d.keys + [name]
    ensures WellKeyed(d) ==> WellKeyed(r)
  {
    Dict(if name in d.entries then d.keys else d.keys + [name], d.entries[name := value])
  }

  /** `d[names[0]] = values[0]`, then `d[names[1]] = values[1]` and so on, `n` times,
      starting from an empty dict. */
  function Assigned<V>(names: seq<string>, values: seq<V>, n: nat): (d: Dict<V>)
    requires n <= |names| == |values|
    ensures WellKeyed(d)
  {
    if n == 0 then Empty() else SetItem(Assigned(names, values, n - 1), names[n - 1], values[n - 1])
  }

  predicate Distinct(s: seq<string>) {
    forall i, j :: 0 <= i < j < |s| ==> s[i] != s[j]
  }

  /** The keys of `d` are the first `n` names in order, and each holds its own value. */
  ghost predicate Listed<V>(d: Dict<V>, names: seq<string>, values: seq<V>, n: nat)
    requires n <= |names| == |values|
  {
    && d.keys == names[..n]
    && forall j :: 0 <= j < n ==> names[j] in d.entries && d.entries[names[j]] == values[j]
  }

  /** With distinct names every assignment adds a new entry: the keys are the first `n`
      names in order, and each holds its own value. */
  lemma {:induction false} AssignedDistinct<V>(names: seq<string>, values: seq<V>, n: nat)
    requires n <= |names| == |values| && Distinct(names)
    ensures Listed(Assigned(names, values, n), names, values, n)
  {
    if n > 0 {
      AssignedDistinct(names, values, n - 1);
      var d := Assigned(names, values, n - 1);
      FreshName(d, names, values, n);
      AssignNew(d, names, values, n);
    }
  }

  /** With distinct names the next name is not among the earlier ones. */
  lemma FreshName<V>(d: Dict<V>, names: seq<string>, values: seq<V>, n: nat)
    requires 0 < n <= |names| == |values| && Distinct(names)
    requires Listed(d, names, values, n - 1)
    ensures names[n - 1] !in d.keys
  {
    forall j | 0 <= j < n - 1 ensures d.keys[j] != names[n - 1] {
      assert d.keys[j] == names[j];
    }
  }

  /** After every name is assigned, with distinct names, the keys are the names. */
  lemma AssignedEvery<V>(names: seq<string>, values: seq<V>)
    requires |names| == |values| && Distinct(names)
    ensures Assigned(names, values, |names|).keys == names
    ensures forall j :: 0 <= j < |names| ==>
              names[j] in Assigned(names, values, |names|).entries
              && Assigned(names, values, |names|).entries[names[j]] == values[j]
  {
    AssignedDistinct(names, values, |names|);
    assert names[..|names|] == names;
  }

  /** One more assignment of a name not yet there. */
  lemma AssignNew<V>(d: Dict<V>, names: seq<string>, values: seq<V>, n: nat)
    requires 0 < n <= |names| == |values| && WellKeyed(d)
    requires Listed(d, names, values, n - 1) && names[n - 1] !in d.keys
    ensures Listed(SetItem(d, names[n - 1], values[n - 1]), names, values, n)
  {
    assert names[..n] == names[..n - 1] + [names[n - 1]];
  }

  /** Every value of the dict satisfies `p` when every assigned one does. */
  lemma {:induction false} AssignedAll<V>(names: seq<string>, values: seq<V>, n: nat, p: V -> bool)
    requires n <= |names| == |values|
    requires forall j :: 0 <= j < n ==> p(values[j])
    ensures forall k :: k in Assigned(names, values, n).entries ==> p(Assigned(names, values, n).entries[k])
  {
    if n > 0 {
      AssignedAll(names, values, n - 1, p);
      SetItemKeeps(Assigned(names, values, n - 1), names[n - 1], values[n - 1], p);
    }
  }

  /** Assigning a value with property `p` to a dict whose values all have it keeps it (one
      unfolding of `SetItem`, kept apart to keep the proofs of `AssignedAll` and `SetAllKeeps` small). */
  lemma SetItemKeeps<V>(d: Dict<V>, name: string, value: V, p: V -> bool)
    requires forall k :: k in d.entries ==> p(d.entries[k])
    requires p(value)
    ensures forall k :: k in SetItem(d, name, value).entries ==> p(SetItem(d, name, value).entries[k])
  {
  }

  /** `for k in ks: d[k] = values[k]`, from the last assignment back. */
  function SetAll<V>(d: Dict<V>, ks: seq<string>, values: map<string, V>): (r: Dict<V>)
    requires forall k :: k in ks ==> k in values
    ensures WellKeyed(d) ==> WellKeyed(r)
    decreases |ks|
  {
    if ks == [] then d
    else
      var last := ks[|ks| - 1];
      SetItem(SetAll(d, ks[..|ks| - 1], values), last, values[last])
  }

  /** Assigning one more key of `ks` extends the assignments by one `SetItem`. */
  lemma SetAllPrefix<V>(d: Dict<V>, ks: seq<string>, i: nat, values: map<string, V>)
    requires i < |ks| && forall k :: k in ks ==> k in values
    ensures SetAll(d, ks[..i + 1], values) == SetItem(SetAll(d, ks[..i], values), ks[i], values[ks[i]])
  {
    assert ks[..i + 1][..i] == ks[..i];
  }

  /** After the assignments each key of `ks` holds its new value and every other entry is
      as it was. */
  lemma {:induction false} SetAllEntries<V>(d: Dict<V>, ks: seq<string>, values: map<string, V>)
    requires forall k :: k in ks ==> k in values
    ensures forall k :: k in SetAll(d, ks, values).entries <==> k in d.entries || k in ks
    ensures forall k :: k in ks ==> SetAll(d, ks, values).entries[k] == values[k]
    ensures forall k :: k !in ks && k in d.entries ==> SetAll(d, ks, values).entries[k] == d.entries[k]
    decreases |ks|
  {
    if ks != [] {
      var init := ks[..|ks| - 1];
      var last := ks[|ks| - 1];
      SetAllEntries(d, init, values);
      assert forall k :: k in ks <==> k in init || k == last by {
        assert ks == init + [last];
      }
    }
  }

  /** Assigning distinct keys that are not yet there appends them to the key order. */
  lemma {:induction false} SetAllFreshKeys<V>(d: Dict<V>, ks: seq<string>, values: map<string, V>)
    requires forall k :: k in ks ==> k in values
    requires forall k :: k in ks ==> k !in d.entries
    requires Distinct(ks)
    ensures SetAll(d, ks, values).keys == d.keys + ks
    decreases |ks|
  {
    if ks != [] {
      var init := ks[..|ks| - 1];
      var last := ks[|ks| - 1];
      SetAllFreshKeys(d, init, values);
      SetAllEntries(d, init, values);
      assert last !in init by {
        forall j | 0 <= j < |init| ensures init[j] != last {
          assert init[j] == ks[j];
        }
      }
      assert d.keys + init + [last] == d.keys + ks;
    }
  }

  /** A property every old entry and every assigned value has, every entry has after the
      assignments. */
  lemma {:induction false} SetAllKeeps<V>(d: Dict<V>, ks: seq<string>, values: map<string, V>, p: V -> bool)
    requires forall k :: k in ks ==> k in values && p(values[k])
    requires forall k :: k in d.entries ==> p(d.entries[k])
    ensures forall k :: k in SetAll(d, ks, values).entries ==> p(SetAll(d, ks, values).entries[k])
    decreases |ks|
  {
    if ks != [] {
      var init := ks[..|ks| - 1];
      SetAllKeeps(d, init, values, p);
      SetItemKeeps(SetAll(d, init, values), ks[|ks| - 1], values[ks[|ks| - 1]], p);
    }
  }
}
