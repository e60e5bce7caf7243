/** Optional values and results shared by the crawler and the loaders. */
module Common {

  /** A value that may be missing (Python's `None`). */
  datatype Option<+T> = None | Some(value: T)

  /** The outcome of a step that may raise: `Ok` carries the value, `Err` the error. */
  datatype Result<+T, +E> = Ok(value: T) | Err(error: E)

  /** The first element of a sequence, if there is one. */
  function First<T>(s: seq<T>): (r: Option<T>)
    ensures r.Some? <==> s != []
    ensures r.Some? ==> r.value == s[0]
  {
    if s == [] then None else Some(s[0])
  }

  /** Python's truth value of an optional string: `None` and `""` are falsy. */
  predicate Truthy(s: Option<string>) {
    s.Some? && s.value != ""
  }

  /** `s.startswith(p)` */
  predicate StartsWith(s: string, p: string) {
    p <= s
  }

  /** `[f(x) for x in s]` */
  function Map<A, B>(f: A -> B, s: seq<A>): (r: seq<B>)
    ensures |r| == |s|
    ensures forall i :: 0 <= i < |s| ==> r[i] == f(s[i])
  {
    seq(|s|, i requires 0 <= i < |s| => f(s[i]))
  }

  lemma MapAppend<A, B>(f: A -> B, a: seq<A>, b: seq<A>)
    ensures Map(f, a + b) == Map(f, a) + Map(f, b)
  {
  }

  /** `[f(x, y) for x, y in zip(xs, ys)]`, as a loop: as many results as the shorter
      sequence, the i-th from the i-th elements of both. */
  method ZipWith<A, B, C>(xs: seq<A>, ys: seq<B>, f: (A, B) -> C) returns (r: seq<C>)
    ensures |r| == if |xs| < |ys| then |xs| else |ys|
    ensures forall i :: 0 <= i < |r| ==> r[i] == f(xs[i], ys[i])
  {
    r := [];
    var i := 0;
    while i < |xs| && i < |ys|
      invariant 0 <= i <= |xs| && i <= |ys|
      invariant |r| == i
      invariant forall k :: 0 <= k < i ==> r[k] == f(xs[k], ys[k])
    {
      r := r + [f(xs[i], ys[i])];
      i := i + 1;
    }
  }

  /** One step of a loop that appends `f(s[j])` to what it has built so far. */
  lemma MapStep<A, B>(f: A -> B, acc: seq<B>, s: seq<A>, j: nat)
    requires j < |s|
    ensures acc + Map(f, s[..j + 1]) == (acc + Map(f, s[..j])) + [f(s[j])]
  {
  }

  /** Taking one more element of a sequence appends it. */
  lemma TakeSnoc<T>(s: seq<T>, i: nat)
    requires i < |s|
    ensures s[..i + 1] == s[..i] + [s[i]]
  {
  }

  /** A prefix of a prefix is a prefix. */
  lemma TakeTake<T>(s: seq<T>, i: nat, j: nat)
    requires i <= j <= |s|
    ensures s[..j][..i] == s[..i]
  {
  }

  lemma TakeAll<T>(s: seq<T>)
    ensures s[..|s|] == s
  {
  }

  /** `[x for x in s if p(x)]` */
  function Where<T>(p: T -> bool, s: seq<T>): (r: seq<T>)
    ensures |r| <= |s|
  {
    if s == [] then [] else (if p(s[0]) then [s[0]] else []) + Where(p, s[1..])
  }

  /** The filter keeps exactly the elements that pass. */
  lemma {:induction false} WhereMembers<T>(p: T -> bool, s: seq<T>)
    ensures forall i :: 0 <= i < |Where(p, s)| ==> Where(p, s)[i] in s && p(Where(p, s)[i])
    ensures forall i :: 0 <= i < |s| && p(s[i]) ==> s[i] in Where(p, s)
  {
    if s != [] {
      WhereMembers(p, s[1..]);
      var r := Where(p, s);
      var head := if p(s[0]) then [s[0]] else [];
      assert r == head + Where(p, s[1..]);
      forall i | 0 <= i < |r| ensures r[i] in s && p(r[i]) {
        if i >= |head| {
          assert r[i] == Where(p, s[1..])[i - |head|];
        }
      }
      forall i | 0 <= i < |s| && p(s[i]) ensures s[i] in r {
        if i > 0 {
          assert s[i] == s[1..][i - 1];
        }
      }
    }
  }

  lemma {:induction false} WhereAppend<T>(p: T -> bool, a: seq<T>, b: seq<T>)
    ensures Where(p, a + b) == Where(p, a) + Where(p, b)
  {
    if a != [] {
      assert (a + b)[1..] == a[1..] + b;
      WhereAppend(p, a[1..], b);
    } else {
      assert a + b == b;
    }
  }

  /** Filtering keeps a sub-multiset. */
  lemma {:induction false} WhereSubMultiset<T>(p: T -> bool, s: seq<T>)
    ensures multiset(Where(p, s)) <= multiset(s)
  {
    if s != [] {
      WhereSubMultiset(p, s[1..]);
      assert s == [s[0]] + s[1..];
    }
  }

  /** A filter every element passes changes nothing. */
  lemma {:induction false} WhereAll<T>(p: T -> bool, s: seq<T>)
    requires forall i :: 0 <= i < |s| ==> p(s[i])
    ensures Where(p, s) == s
  {
    if s != [] {
      WhereAll(p, s[1..]);
    }
  }

  /** A filter no element passes keeps nothing. */
  lemma WhereNone<T>(p: T -> bool, s: seq<T>)
    requires forall i :: 0 <= i < |s| ==> !p(s[i])
    ensures Where(p, s) == []
  {
  }

  lemma AppendIndex<T>(a: seq<T>, b: seq<T>, i: int)
    requires |a| <= i < |a| + |b|
    ensures (a + b)[i] == b[i - |a|]
  {
  }

  lemma AppendAssoc<T>(a: seq<T>, b: seq<T>, c: seq<T>)
    ensures a + (b + c) == (a + b) + c
  {
  }
}
