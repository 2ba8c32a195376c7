/** The dictionary of rendered log-line elements (`Dictionary<string, string>` in
    LogReader/Converter.cs): filled by indexer assignment, then shrunk by `Remove`, and
    enumerated in insertion order, which `Remove` keeps. Modelled as an association list. */
module Dict {
  import opened Wrappers
  import opened Seqs

  type Entry = (string, string)
  type Dict = seq<Entry>

  /** No key appears twice, as in any dictionary. */
  predicate UniqueKeys(d: Dict) {
    forall i, j :: 0 <= i < j < |d| ==> d[i].0 != d[j].0
  }

  /** `TryGetValue`: the value stored under `k`, if any. */
  function Lookup(d: Dict, k: string): (r: Option<string>)
    ensures r.None? <==> forall i :: 0 <= i < |d| ==> d[i].0 != k
    ensures r.Some? ==> exists i :: 0 <= i < |d| && d[i] == (k, r.value)
  {
    if d == [] then None
    else if d[0].0 == k then Some(d[0].1)
    else Lookup(d[1..], k)
  }

  /** Indexer assignment `d[k] = v`: overwrite in place when `k` is present, append otherwise. */
  function Put(d: Dict, k: string, v: string): (r: Dict)
    ensures Lookup(d, k).None? ==> r == d + [(k, v)]
  {
    if d == [] then [(k, v)]
    else if d[0].0 == k then [(k, v)] + d[1..]
    else [d[0]] + Put(d[1..], k, v)
  }

  /** After `d[k] = v`, reading `k` gives `v` and every other key reads as before. */
  lemma {:induction false} PutLookup(d: Dict, k: string, v: string, k': string)
    ensures Lookup(Put(d, k, v), k) == Some(v)
    ensures k' != k ==> Lookup(Put(d, k, v), k') == Lookup(d, k')
  {
    if d != [] && d[0].0 != k {
      PutLookup(d[1..], k, v, k');
    }
  }

  /** Assignment keeps keys unique. */
  lemma {:induction false} PutUnique(d: Dict, k: string, v: string)
    requires UniqueKeys(d)
    ensures UniqueKeys(Put(d, k, v))
  {
    if d != [] && d[0].0 != k {
      PutUnique(d[1..], k, v);
      var r := Put(d, k, v);
      forall i | 1 <= i < |r| ensures r[i].0 != d[0].0 {
        PutKeys(d[1..], k, v, i - 1);
      }
    }
  }

  /** Each entry of `d[k] = v` has key `k` or is the entry of `d` at the same place. */
  lemma {:induction false} PutKeys(d: Dict, k: string, v: string, i: nat)
    requires i < |Put(d, k, v)|
    ensures Put(d, k, v)[i].0 == k || (i < |d| && Put(d, k, v)[i] == d[i])
  {
    if d != [] && d[0].0 != k && i > 0 {
      PutKeys(d[1..], k, v, i - 1);
    }
  }

  /** The entries whose key is not among `ks`, in enumeration order. */
  function Without(d: Dict, ks: seq<string>): (r: Dict)
    ensures |r| <= |d|
  {
    if d == [] then []
    else Without(d[..|d| - 1], ks) + (if d[|d| - 1].0 in ks then [] else [d[|d| - 1]])
  }

  /** `Remove(k)`: the entry for `k` disappears and the others keep their order. */
  function Remove(d: Dict, k: string): Dict {
    Without(d, [k])
  }

  /** Removing nothing keeps the dictionary. */
  lemma {:induction false} WithoutNothing(d: Dict)
    ensures Without(d, []) == d
  {
    if d != [] {
      WithoutNothing(d[..|d| - 1]);
    }
  }

  /** After removing `ks` their lookups fail and every other key keeps its value. */
  lemma {:induction false} WithoutLookup(d: Dict, ks: seq<string>, k: string)
    ensures Lookup(Without(d, ks), k) == if k in ks then None else Lookup(d, k)
  {
    if d != [] {
      var d' := d[..|d| - 1];
      var e := d[|d| - 1];
      WithoutLookup(d', ks, k);
      assert d' + [e] == d;
      LookupConcat(d', [e], k);
      LookupConcat(Without(d', ks), if e.0 in ks then [] else [e], k);
    }
  }

  /** After `Remove(k)` the key `k` is absent and every other key keeps its value. */
  lemma RemoveLookup(d: Dict, k: string, k': string)
    ensures Lookup(Remove(d, k), k') == if k' == k then None else Lookup(d, k')
  {
    WithoutLookup(d, [k], k');
  }

  lemma {:induction false} LookupConcat(a: Dict, b: Dict, k: string)
    ensures Lookup(a + b, k) == if Lookup(a, k).Some? then Lookup(a, k) else Lookup(b, k)
  {
    if a != [] {
      assert (a + b)[1..] == a[1..] + b;
      LookupConcat(a[1..], b, k);
    } else {
      assert a + b == b;
    }
  }

  lemma {:induction false} WithoutConcat(a: Dict, b: Dict, ks: seq<string>)
    ensures Without(a + b, ks) == Without(a, ks) + Without(b, ks)
  {
    if b == [] {
      assert a + b == a;
    } else {
      var b' := b[..|b| - 1];
      WithoutConcat(a, b', ks);
      assert (a + b)[..|a + b| - 1] == a + b';
    }
  }

  /** Removing one more key after the keys `ks` is removing `ks` and that key. */
  lemma {:induction false} RemoveAfterWithout(d: Dict, ks: seq<string>, k: string)
    ensures Remove(Without(d, ks), k) == Without(d, ks + [k])
  {
    if d != [] {
      var d' := d[..|d| - 1];
      var e := d[|d| - 1];
      RemoveAfterWithout(d', ks, k);
      WithoutConcat(Without(d', ks), if e.0 in ks then [] else [e], [k]);
      assert Without([e], [k]) == Without([], [k]) + (if e.0 in [k] then [] else [e]);
    }
  }

  /** Removing a key that is absent changes nothing. */
  lemma {:induction false} RemoveAbsent(d: Dict, k: string)
    requires Lookup(d, k).None?
    ensures Remove(d, k) == d
  {
    if d != [] {
      var d' := d[..|d| - 1];
      assert forall i :: 0 <= i < |d'| ==> d'[i] == d[i];
      RemoveAbsent(d', k);
    }
  }

  /** The entries left after removing keys are entries of the dictionary. */
  lemma {:induction false} WithoutMembers(d: Dict, ks: seq<string>)
    ensures forall i :: 0 <= i < |Without(d, ks)| ==> Without(d, ks)[i] in d && Without(d, ks)[i].0 !in ks
  {
    if d != [] {
      var d' := d[..|d| - 1];
      WithoutMembers(d', ks);
      assert forall i :: 0 <= i < |d'| ==> d'[i] == d[i];
    }
  }

  /** Removing keys keeps the remaining keys unique. */
  lemma {:induction false} WithoutUnique(d: Dict, ks: seq<string>)
    requires UniqueKeys(d)
    ensures UniqueKeys(Without(d, ks))
  {
    if d != [] {
      var d' := d[..|d| - 1];
      var e := d[|d| - 1];
      WithoutUnique(d', ks);
      var r' := Without(d', ks);
      WithoutMembers(d', ks);
      forall i | 0 <= i < |r'| ensures r'[i].0 != e.0 {
        var j :| 0 <= j < |d'| && d'[j] == r'[i];
        assert d[j] == d'[j];
      }
    }
  }

  /** Two dictionaries with distinct keys and no key in common concatenate to one. */
  lemma UniqueConcat(a: Dict, b: Dict)
    requires UniqueKeys(a) && UniqueKeys(b)
    requires forall i, j :: 0 <= i < |a| && 0 <= j < |b| ==> a[i].0 != b[j].0
    ensures UniqueKeys(a + b)
  {
    forall i, j | 0 <= i < j < |a + b| ensures (a + b)[i].0 != (a + b)[j].0 {
      if j < |a| {
      } else if i >= |a| {
        assert (a + b)[i] == b[i - |a|] && (a + b)[j] == b[j - |a|];
      } else {
        assert (a + b)[i] == a[i] && (a + b)[j] == b[j - |a|];
      }
    }
  }
}
