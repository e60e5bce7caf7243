/**
 * Python dictionaries from strings to strings as the scrapers build them: an
 * assignment `d[k] = v` overwrites the value of a present key in its place and
 * appends a new key at the end, so iteration follows first insertion.
 */
module Dicts {
  import opened Common

  type Dict = seq<(string, string)>

  function Keys(d: Dict): seq<string> {
    seq(|d|, i requires 0 <= i < |d| => d[i].0)
  }

  ghost predicate DistinctKeys(d: Dict) {
    forall i, j :: 0 <= i < j < |d| ==> d[i].0 != d[j].0
  }

  /** `d.get(k)` */
  function Get(d: Dict, k: string): Option<string> {
    if d == [] then None else if d[0].0 == k then Some(d[0].1) else Get(d[1..], k)
  }

  /** In a dictionary without repeated keys, each key finds the value stored with it. */
  lemma {:induction false} GetAt(d: Dict, i: nat)
    requires i < |d| && DistinctKeys(d)
    ensures Get(d, d[i].0) == Some(d[i].1)
  {
    if i > 0 {
      assert d[0].0 != d[i].0;
      assert d[1..][i - 1] == d[i];
      GetAt(d[1..], i - 1);
    }
  }

  /** `d[k] = v` */
  function Put(d: Dict, k: string, v: string): Dict {
    if d == [] then [(k, v)]
    else if d[0].0 == k then [(k, v)] + d[1..]
    else [d[0]] + Put(d[1..], k, v)
  }

  /** After `d[k] = v`, `k` maps to `v` and every other key to what it mapped to. */
  lemma {:induction false} PutGet(d: Dict, k: string, v: string)
    ensures Get(Put(d, k, v), k) == Some(v)
    ensures forall k' :: k' != k ==> Get(Put(d, k, v), k') == Get(d, k')
  {
    if d != [] && d[0].0 != k {
      PutGet(d[1..], k, v);
    }
  }

  /** `d[k] = v` keeps the keys in place and appends `k` when it is new. */
  lemma {:induction false} PutKeySeq(d: Dict, k: string, v: string)
    ensures Keys(Put(d, k, v)) == if k in Keys(d) then Keys(d) else Keys(d) + [k]
  {
    if d == [] {
      assert Keys([(k, v)]) == [k];
    } else {
      assert Keys(d) == [d[0].0] + Keys(d[1..]);
      if d[0].0 == k {
        assert Keys([(k, v)] + d[1..]) == [k] + Keys(d[1..]);
      } else {
        PutKeySeq(d[1..], k, v);
        assert Keys([d[0]] + Put(d[1..], k, v)) == [d[0].0] + Keys(Put(d[1..], k, v));
      }
    }
  }

  /** The keys after `d[k] = v` are the old ones plus `k`: one more pair exactly when
      `k` was absent. */
  lemma PutKeys(d: Dict, k: string, v: string)
    ensures |Put(d, k, v)| == if k in Keys(d) then |d| else |d| + 1
    ensures forall k' :: k' in Keys(Put(d, k, v)) <==> k' == k || k' in Keys(d)
  {
    PutKeySeq(d, k, v);
    assert |Keys(Put(d, k, v))| == |Put(d, k, v)|;
  }

  /** `d[k] = v` repeats no key if `d` did not. */
  lemma {:induction false} PutDistinct(d: Dict, k: string, v: string)
    requires DistinctKeys(d)
    ensures DistinctKeys(Put(d, k, v))
  {
    if d != [] && d[0].0 != k {
      var rest := Put(d[1..], k, v);
      PutDistinct(d[1..], k, v);
      PutKeys(d[1..], k, v);
      assert Keys(d) == [d[0].0] + Keys(d[1..]);
      assert d[0].0 !in Keys(d[1..]);
      ConsDistinct(d[0], rest);
    } else if d != [] {
      assert Keys([(k, v)] + d[1..]) == [k] + Keys(d[1..]);
      ConsDistinct((k, v), d[1..]);
    }
  }

  /** After `d[k] = v`, `k` maps to `v` and every other key to what it mapped to; the
      dictionary grows by one pair exactly when `k` was absent, the keys are the old
      ones plus `k`, and no key appears twice if none did before. */
  lemma PutProperties(d: Dict, k: string, v: string)
    ensures Get(Put(d, k, v), k) == Some(v)
    ensures forall k' :: k' != k ==> Get(Put(d, k, v), k') == Get(d, k')
    ensures |Put(d, k, v)| == if k in Keys(d) then |d| else |d| + 1
    ensures forall k' :: k' in Keys(Put(d, k, v)) <==> k' == k || k' in Keys(d)
    ensures DistinctKeys(d) ==> DistinctKeys(Put(d, k, v))
  {
    PutGet(d, k, v);
    PutKeys(d, k, v);
    if DistinctKeys(d) {
      PutDistinct(d, k, v);
    }
  }

  lemma ConsDistinct(x: (string, string), d: Dict)
    ensures DistinctKeys(d) && x.0 !in Keys(d) ==> DistinctKeys([x] + d)
  {
    if DistinctKeys(d) && x.0 !in Keys(d) {
      forall i, j | 0 <= i < j < |d| + 1 ensures ([x] + d)[i].0 != ([x] + d)[j].0 {
        if i == 0 {
          assert ([x] + d)[j].0 == Keys(d)[j - 1];
        }
      }
    }
  }

  /** Putting the pairs `(ks[i], vs[i])` into `acc` one after another. */
  function PutAll(acc: Dict, ks: seq<string>, vs: seq<string>): Dict
    requires |ks| <= |vs|
    decreases |ks|
  {
    if ks == [] then acc else PutAll(Put(acc, ks[0], vs[0]), ks[1..], vs[1..])
  }

  /** `dict(zip(ks, vs))` for as many values as keys. */
  function FromZip(ks: seq<string>, vs: seq<string>): Dict
    requires |ks| <= |vs|
  {
    PutAll([], ks, vs)
  }

  lemma {:induction false} PutAllGet(acc: Dict, ks: seq<string>, vs: seq<string>)
    requires |ks| <= |vs|
    ensures forall k :: k !in ks ==> Get(PutAll(acc, ks, vs), k) == Get(acc, k)
    ensures forall i :: 0 <= i < |ks| && ks[i] !in ks[i + 1..] ==> Get(PutAll(acc, ks, vs), ks[i]) == Some(vs[i])
    decreases |ks|
  {
    if ks != [] {
      var acc' := Put(acc, ks[0], vs[0]);
      PutProperties(acc, ks[0], vs[0]);
      PutAllGet(acc', ks[1..], vs[1..]);
      forall i | 0 <= i < |ks| && ks[i] !in ks[i + 1..]
        ensures Get(PutAll(acc, ks, vs), ks[i]) == Some(vs[i])
      {
        if i > 0 {
          assert ks[1..][i - 1] == ks[i] && ks[1..][i - 1 + 1..] == ks[i + 1..];
        }
      }
    }
  }

  lemma {:induction false} PutAllKeys(acc: Dict, ks: seq<string>, vs: seq<string>)
    requires |ks| <= |vs| && DistinctKeys(acc)
    ensures DistinctKeys(PutAll(acc, ks, vs))
    ensures forall k :: k in Keys(PutAll(acc, ks, vs)) <==> k in ks || k in Keys(acc)
    decreases |ks|
  {
    if ks != [] {
      PutProperties(acc, ks[0], vs[0]);
      PutAllKeys(Put(acc, ks[0], vs[0]), ks[1..], vs[1..]);
    }
  }

  /** `dict(zip(ks, vs))` has exactly the keys `ks`, and maps each key to the value at
      its last position, so a key that is not repeated gets the value at its own
      position. */
  lemma FromZipPositional(ks: seq<string>, vs: seq<string>)
    requires |ks| <= |vs|
    ensures DistinctKeys(FromZip(ks, vs))
    ensures forall k :: k in Keys(FromZip(ks, vs)) <==> k in ks
    ensures forall i :: 0 <= i < |ks| && ks[i] !in ks[i + 1..] ==> Get(FromZip(ks, vs), ks[i]) == Some(vs[i])
  {
    PutAllKeys([], ks, vs);
    PutAllGet([], ks, vs);
  }
}
