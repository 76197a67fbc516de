/**
 * The browser's CacheStorage as the worker uses it: named caches in creation
 * order, each mapping a request URL to a stored response.
 */
module CacheStore {
  import opened Wrappers
  import opened Http

  /** One cache: request URL to stored response. */
  type Cache = map<string, Response>

  /** The whole storage: cache names in creation order, and each cache's entries. */
  datatype Store = Store(names: seq<string>, caches: map<string, Cache>)

  predicate Distinct(xs: seq<string>) {
    forall i, j :: 0 <= i < j < |xs| ==> xs[i] != xs[j]
  }

  /** Every name is listed once, and the listed names are exactly the existing caches. */
  ghost predicate WellFormed(s: Store) {
    Distinct(s.names) && forall n :: n in s.caches <==> n in s.names
  }

  /** `cache.match(url)` on the cache called `name` (a missing cache holds nothing). */
  function Get(s: Store, name: string, url: string): (r: Option<Response>)
    ensures name !in s.caches ==> r.None?
    ensures name in s.caches ==> (r.Some? <==> url in s.caches[name])
  {
    if name in s.caches && url in s.caches[name] then Some(s.caches[name][url]) else None
  }

  /** The first position at or after `from` whose cache holds `url`, or `|s.names|`. */
  function FirstHit(s: Store, url: string, from: nat): (k: nat)
    requires from <= |s.names|
    ensures from <= k <= |s.names|
    ensures forall j :: from <= j < k ==> Get(s, s.names[j], url).None?
    ensures k < |s.names| ==> Get(s, s.names[k], url).Some?
    decreases |s.names| - from
  {
    if from == |s.names| then from
    else if Get(s, s.names[from], url).Some? then from
    else FirstHit(s, url, from + 1)
  }

  /** `caches.match(url)`: the entry of the oldest cache that holds `url`. */
  function MatchAll(s: Store, url: string): (r: Option<Response>)
    requires WellFormed(s)
    ensures r.None? <==> forall n :: Get(s, n, url).None?
    ensures r.Some? ==> exists i :: 0 <= i < |s.names| && Get(s, s.names[i], url) == r &&
                                    forall j :: 0 <= j < i ==> Get(s, s.names[j], url).None?
  {
    var k := FirstHit(s, url, 0);
    if k < |s.names| then Get(s, s.names[k], url)
    else None
  }

  /** `caches.open(name)`: the named cache, created empty (and listed last) when missing. */
  function Opened(s: Store, name: string): (r: Store)
    requires WellFormed(s)
    ensures WellFormed(r)
    ensures name in r.caches
    ensures r.names == if name in s.names then s.names else s.names + [name]
    ensures forall n, u :: Get(r, n, u) == Get(s, n, u)
  {
    if name in s.caches then s else Store(s.names + [name], s.caches[name := map[]])
  }

  /** Listing one more cache that lacks `url` moves no hit; a search that found nothing runs off the new end. */
  lemma {:induction false} FirstHitExtended(s: Store, t: Store, url: string, x: string, from: nat)
    requires from <= |s.names|
    requires t.names == s.names + [x]
    requires forall n :: Get(t, n, url) == Get(s, n, url)
    requires Get(s, x, url).None?
    ensures FirstHit(t, url, from) ==
              if FirstHit(s, url, from) < |s.names| then FirstHit(s, url, from) else |t.names|
    decreases |s.names| - from
  {
    if from < |s.names| {
      assert t.names[from] == s.names[from];
      if Get(s, s.names[from], url).None? {
        FirstHitExtended(s, t, url, x, from + 1);
      }
    } else {
      assert t.names[from] == x;
    }
  }

  /** Two stores that list the same names and agree on `url` in every cache find the same hit. */
  lemma {:induction false} FirstHitSameNames(s: Store, t: Store, url: string, from: nat)
    requires from <= |s.names|
    requires t.names == s.names
    requires forall n :: Get(t, n, url) == Get(s, n, url)
    ensures FirstHit(t, url, from) == FirstHit(s, url, from)
    decreases |s.names| - from
  {
    if from < |s.names| && Get(s, s.names[from], url).None? {
      FirstHitSameNames(s, t, url, from + 1);
    }
  }

  /**
   * A store that agrees with `s` on `url` in every cache, and lists the same
   * names or one more name whose cache lacks `url`, gives the same `caches.match(url)`.
   */
  lemma MatchAllAgrees(s: Store, t: Store, url: string, x: string)
    requires WellFormed(s) && WellFormed(t)
    requires forall n :: Get(t, n, url) == Get(s, n, url)
    requires t.names == s.names || (t.names == s.names + [x] && Get(s, x, url).None?)
    ensures MatchAll(t, url) == MatchAll(s, url)
  {
    if t.names == s.names {
      FirstHitSameNames(s, t, url, 0);
    } else {
      FirstHitExtended(s, t, url, x, 0);
    }
  }

  /** Opening a cache, which adds at most an empty one, changes no `caches.match` result. */
  lemma OpenedKeepsMatches(s: Store, name: string, url: string)
    requires WellFormed(s)
    ensures MatchAll(Opened(s, name), url) == MatchAll(s, url)
  {
    MatchAllAgrees(s, Opened(s, name), url, name);
  }

  /** `cache.put(url, response)` on the cache called `name`, opening it first. */
  function WithEntry(s: Store, name: string, url: string, response: Response): (r: Store)
    requires WellFormed(s)
    ensures WellFormed(r)
    ensures r.names == if name in s.names then s.names else s.names + [name]
    ensures Get(r, name, url) == Some(response)
    ensures forall n, u :: n != name || u != url ==> Get(r, n, u) == Get(s, n, u)
  {
    var o := Opened(s, name);
    Store(o.names, o.caches[name := o.caches[name][url := response]])
  }

  /** `xs` without the element `x`, order kept. */
  function Without(xs: seq<string>, x: string): (r: seq<string>)
    ensures forall y :: y in r <==> y in xs && y != x
    ensures Distinct(xs) ==> Distinct(r)
  {
    if xs == [] then []
    else
      var rest := Without(xs[1..], x);
      if xs[0] == x then rest
      else
        DistinctCons(xs, xs[0], rest);
        [xs[0]] + rest
  }

  /** The elements of `xs` equal to `x`, order kept: the names a purge leaves. */
  function KeepOnly(xs: seq<string>, x: string): (r: seq<string>)
    ensures forall y :: y in r <==> y in xs && y == x
    ensures Distinct(xs) ==> Distinct(r)
    decreases |xs|
  {
    if xs == [] then []
    else
      var init := KeepOnly(xs[..|xs| - 1], x);
      if xs[|xs| - 1] == x then
        DistinctSnoc(xs, init, x);
        init + [x]
      else init
  }

  /** Putting in front an element that the rest lacks keeps a list of distinct names distinct. */
  lemma DistinctCons(xs: seq<string>, a: string, rest: seq<string>)
    requires xs != [] && xs[0] == a
    requires Distinct(xs) ==> Distinct(rest) && forall y :: y in rest ==> y in xs[1..]
    ensures Distinct(xs) ==> Distinct([a] + rest)
  {
    if Distinct(xs) {
      assert a !in xs[1..];
      forall i, j | 0 <= i < j < |[a] + rest| ensures ([a] + rest)[i] != ([a] + rest)[j] {
        if i == 0 {
          assert rest[j - 1] in rest;
        }
      }
    }
  }

  /** Appending the last element of `xs` to a list drawn from the rest keeps it distinct. */
  lemma DistinctSnoc(xs: seq<string>, init: seq<string>, a: string)
    requires xs != [] && xs[|xs| - 1] == a
    requires Distinct(xs) ==> Distinct(init) && forall y :: y in init ==> y in xs[..|xs| - 1]
    ensures Distinct(xs) ==> Distinct(init + [a])
  {
    if Distinct(xs) {
      assert a !in xs[..|xs| - 1];
      forall i, j | 0 <= i < j < |init + [a]| ensures (init + [a])[i] != (init + [a])[j] {
        if j == |init| {
          assert init[i] in init;
        }
      }
    }
  }

  /** `caches.delete(name)`: the cache and every entry in it are gone. */
  function Deleted(s: Store, name: string): (r: Store)
    requires WellFormed(s)
    ensures WellFormed(r)
    ensures r.names == Without(s.names, name)
    ensures r.caches == s.caches - {name}
    ensures forall n, u :: Get(r, n, u) == if n == name then None else Get(s, n, u)
  {
    Store(Without(s.names, name), s.caches - {name})
  }

  /** Every cache whose name is not `keep` deleted; `keep` itself untouched. */
  function Purged(s: Store, keep: string): (r: Store)
    requires WellFormed(s)
    ensures WellFormed(r)
    ensures forall n :: n in r.names <==> n in s.names && n == keep
    ensures forall u :: Get(r, keep, u) == Get(s, keep, u)
    ensures forall n, u :: n != keep ==> Get(r, n, u).None?
  {
    Store(KeepOnly(s.names, keep), map n | n in s.caches && n == keep :: s.caches[n])
  }

  /** A second purge with the same name changes nothing. */
  lemma PurgeIdempotent(s: Store, keep: string)
    requires WellFormed(s)
    ensures Purged(Purged(s, keep), keep) == Purged(s, keep)
  {
    var once := Purged(s, keep);
    KeepOnlyFixed(once.names, keep);
  }

  /** A list that holds only `x` is its own `KeepOnly`. */
  lemma {:induction false} KeepOnlyFixed(xs: seq<string>, x: string)
    requires forall y :: y in xs ==> y == x
    ensures KeepOnly(xs, x) == xs
    decreases |xs|
  {
    if xs != [] {
      var init := xs[..|xs| - 1];
      forall y | y in init ensures y == x {
        var i :| 0 <= i < |init| && init[i] == y;
        assert xs[i] in xs;
      }
      KeepOnlyFixed(init, x);
      assert xs[|xs| - 1] in xs;
      assert xs == init + [xs[|xs| - 1]];
    }
  }

  /** Deleting a name in the middle of a list takes out exactly that element. */
  lemma {:induction false} WithoutSplit(a: seq<string>, x: string, b: seq<string>)
    requires x !in a && x !in b
    ensures Without(a + [x] + b, x) == a + b
    decreases |a|
  {
    if a == [] {
      assert a + [x] + b == [x] + b;
      assert ([x] + b)[1..] == b;
      WithoutAbsent(b, x);
    } else {
      assert (a + [x] + b)[1..] == a[1..] + [x] + b;
      WithoutSplit(a[1..], x, b);
      assert a + b == [a[0]] + (a[1..] + b);
    }
  }

  lemma {:induction false} WithoutAbsent(xs: seq<string>, x: string)
    requires x !in xs
    ensures Without(xs, x) == xs
    decreases |xs|
  {
    if xs != [] {
      WithoutAbsent(xs[1..], x);
      assert xs == [xs[0]] + xs[1..];
    }
  }

  /**
   * Progress of a purge that walks `keys` (the names of `before`) in order:
   * up to position `i` only `keep` is left, from `i` on nothing is deleted yet,
   * and every cache still listed is as it was.
   */
  ghost predicate PurgedUpTo(before: Store, cur: Store, keys: seq<string>, i: nat, keep: string) {
    && i <= |keys|
    && Distinct(keys)
    && WellFormed(cur)
    && cur.names == KeepOnly(keys[..i], keep) + keys[i..]
    && forall n :: n in cur.caches ==> n in before.caches && cur.caches[n] == before.caches[n]
  }

  /** Visiting `keys[i]` deletes it unless it is `keep`, and the purge moves one place on. */
  lemma PurgeAdvance(before: Store, cur: Store, keys: seq<string>, i: nat, keep: string)
    requires PurgedUpTo(before, cur, keys, i, keep) && i < |keys|
    ensures keys[i] != keep ==> PurgedUpTo(before, Deleted(cur, keys[i]), keys, i + 1, keep)
    ensures keys[i] == keep ==> PurgedUpTo(before, cur, keys, i + 1, keep)
  {
    var key := keys[i];
    var kept := KeepOnly(keys[..i], keep);
    assert keys[..i + 1][..i] == keys[..i];
    assert keys[i..] == [key] + keys[i + 1..];
    if key != keep {
      assert key !in keys[i + 1..] by {
        forall j | i + 1 <= j < |keys| ensures keys[j] != key { }
      }
      assert key !in kept;
      WithoutSplit(kept, key, keys[i + 1..]);
      assert kept + keys[i..] == kept + [key] + keys[i + 1..];
      assert KeepOnly(keys[..i + 1], keep) == kept;
    }
  }

  /** A walk over all of `before`'s names ends in exactly the purge. */
  lemma PurgeDone(before: Store, cur: Store, keep: string)
    requires WellFormed(before)
    requires PurgedUpTo(before, cur, before.names, |before.names|, keep)
    ensures cur == Purged(before, keep)
  {
    assert before.names[..|before.names|] == before.names;
    var p := Purged(before, keep);
    assert cur.caches.Keys == p.caches.Keys;
  }

  /** The browser's CacheStorage object, updated in place by the worker's calls. */
  class CacheStorage {
    var names: seq<string>
    var caches: map<string, Cache>

    function Value(): Store
      reads this
    {
      Store(names, caches)
    }

    ghost predicate Valid()
      reads this
    {
      WellFormed(Value())
    }

    constructor ()
      ensures Valid() && Value() == Store([], map[])
    {
      names := [];
      caches := map[];
    }

    /** `caches.keys()`: the cache names in creation order. */
    method Keys() returns (ks: seq<string>)
      ensures ks == names
    {
      ks := names;
    }

    /** `caches.open(name)`, which creates the cache when it is missing. */
    method Open(name: string)
      requires Valid()
      modifies this
      ensures Valid()
      ensures Value() == Opened(old(Value()), name)
    {
      var s := Opened(Value(), name);
      names, caches := s.names, s.caches;
    }

    /** `caches.open(name)` followed by `cache.put(url, response)`. */
    method Put(name: string, url: string, response: Response)
      requires Valid()
      modifies this
      ensures Valid()
      ensures Value() == WithEntry(old(Value()), name, url, response)
    {
      var s := WithEntry(Value(), name, url, response);
      names, caches := s.names, s.caches;
    }

    /** `caches.delete(name)`: reports whether the cache existed. */
    method Delete(name: string) returns (existed: bool)
      requires Valid()
      modifies this
      ensures Valid()
      ensures existed == (name in old(names))
      ensures Value() == Deleted(old(Value()), name)
    {
      existed := name in names;
      var s := Deleted(Value(), name);
      names, caches := s.names, s.caches;
    }
  }
}
