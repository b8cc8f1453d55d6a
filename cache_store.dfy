/** The origin's Cache Storage as the worker uses it: named caches kept in
    creation order, each mapping a request URL to a stored response. The
    operations are the ones the worker calls (open, addAll's final batch put,
    keys, delete, match) as functions on that value. */
module CacheStore {
  import opened Wrappers

  datatype Response = Response(status: int, body: string)

  datatype NamedCache = NamedCache(name: string, entries: map<string, Response>)

  /** All caches of the origin, oldest first. */
  type Store = seq<NamedCache>

  /** No two caches share a name, as Cache Storage guarantees. */
  predicate DistinctNames(s: Store) {
    forall i, j | 0 <= i < j < |s| :: s[i].name != s[j].name
  }

  /** `caches.keys()`: the cache names in creation order. */
  function Names(s: Store): (ns: seq<string>)
    ensures |ns| == |s|
    ensures forall i | 0 <= i < |s| :: ns[i] == s[i].name
  {
    if s == [] then [] else [s[0].name] + Names(s[1..])
  }

  /** The entries of the cache called `name`, if there is one. */
  function Find(s: Store, name: string): (r: Option<map<string, Response>>)
    ensures r.None? <==> name !in Names(s)
    ensures r.Some? ==> exists i | 0 <= i < |s| :: s[i].name == name && s[i].entries == r.value
  {
    if s == [] then None
    else if s[0].name == name then Some(s[0].entries)
    else Find(s[1..], name)
  }

  /** `caches.open(name)`: the store with a cache of that name, created
      empty at the end when missing. */
  function Open(s: Store, name: string): (r: Store)
    ensures Names(r) == if name in Names(s) then Names(s) else Names(s) + [name]
    ensures |s| <= |r| && r[..|s|] == s
    ensures name !in Names(s) ==> r[|s|].entries == map[]
  {
    if name in Names(s) then s else s + [NamedCache(name, map[])]
  }

  /** Adds `entries` to the cache called `name`, replacing any entry stored
      under the same URL. */
  function Put(s: Store, name: string, entries: map<string, Response>): (r: Store)
    ensures Names(r) == Names(s)
  {
    if s == [] then []
    else if s[0].name == name then [s[0].(entries := s[0].entries + entries)] + Put(s[1..], name, entries)
    else [s[0]] + Put(s[1..], name, entries)
  }

  /** The store without every cache whose name is in `gone`. */
  function Evict(s: Store, gone: set<string>): (r: Store)
    ensures forall c | c in r :: c in s && c.name !in gone
    ensures forall c | c in s && c.name !in gone :: c in r
  {
    if s == [] then []
    else (if s[0].name in gone then [] else [s[0]]) + Evict(s[1..], gone)
  }

  /** `caches.delete(name)`. */
  function Delete(s: Store, name: string): (r: Store)
    ensures forall c :: c in r <==> c in s && c.name != name
  {
    Evict(s, {name})
  }

  /** The store reduced to the caches called `keep`. */
  function Sweep(s: Store, keep: string): (r: Store)
    ensures forall c :: c in r <==> c in s && c.name == keep
  {
    if s == [] then []
    else (if s[0].name == keep then [s[0]] else []) + Sweep(s[1..], keep)
  }

  /** `caches.match(url)`: the entry for `url` in the oldest cache holding
      one. */
  function Match(s: Store, url: string): (r: Option<Response>)
    ensures r.None? <==> forall c | c in s :: url !in c.entries
    ensures r.Some? ==> exists i | 0 <= i < |s| ::
              url in s[i].entries && s[i].entries[url] == r.value &&
              forall j | 0 <= j < i :: url !in s[j].entries
  {
    if s == [] then None
    else if url in s[0].entries then Some(s[0].entries[url])
    else Match(s[1..], url)
  }

  // ---------------------------------------------------------------------
  // Lemmas

  /** Deleting the caches of `a` and then those of `b` is deleting both. */
  lemma {:induction false} EvictTwice(s: Store, a: set<string>, b: set<string>)
    ensures Evict(Evict(s, a), b) == Evict(s, a + b)
  {
    if s != [] {
      EvictTwice(s[1..], a, b);
      var rest := Evict(s[1..], a);
      if s[0].name in a {
        assert Evict(s, a) == rest;
      } else {
        assert Evict(s, a) == [s[0]] + rest;
        assert Evict(s, a)[1..] == rest;
      }
    }
  }

  /** Deleting no name changes nothing. */
  lemma {:induction false} EvictNothing(s: Store)
    ensures Evict(s, {}) == s
  {
    if s != [] {
      EvictNothing(s[1..]);
    }
  }

  /** Deleting every other name that occurs leaves just the caches of
      `keep`. */
  lemma {:induction false} EvictOthers(s: Store, keep: string, gone: set<string>)
    requires keep !in gone
    requires forall i | 0 <= i < |s| :: s[i].name != keep ==> s[i].name in gone
    ensures Evict(s, gone) == Sweep(s, keep)
  {
    if s != [] {
      EvictOthers(s[1..], keep, gone);
    }
  }

  /** A sweep keeps every cache called `keep` and nothing else, and the
      cache called `keep` is what it was. */
  lemma {:induction false} SweepKeepsOnlyCurrent(s: Store, keep: string)
    ensures forall c | c in Sweep(s, keep) :: c in s && c.name == keep
    ensures forall c | c in s && c.name == keep :: c in Sweep(s, keep)
    ensures Find(Sweep(s, keep), keep) == Find(s, keep)
  {
    if s != [] {
      SweepKeepsOnlyCurrent(s[1..], keep);
      var rest := Sweep(s[1..], keep);
      if s[0].name == keep {
        assert Sweep(s, keep) == [s[0]] + rest;
      } else {
        assert Sweep(s, keep) == rest;
      }
    }
  }

  /** A second sweep deletes nothing. */
  lemma {:induction false} SweepIdempotent(s: Store, keep: string)
    ensures Sweep(Sweep(s, keep), keep) == Sweep(s, keep)
  {
    if s != [] {
      SweepIdempotent(s[1..], keep);
      var rest := Sweep(s[1..], keep);
      if s[0].name == keep {
        assert Sweep(s, keep) == [s[0]] + rest;
        assert Sweep(s, keep)[1..] == rest;
      } else {
        assert Sweep(s, keep) == rest;
      }
    }
  }

  /** A cache appended at the end is only found when no older cache has its
      name. */
  lemma {:induction false} FindAppend(s: Store, c: NamedCache)
    ensures forall n :: Find(s + [c], n) == if n in Names(s) then Find(s, n) else if c.name == n then Some(c.entries) else None
  {
    if s != [] {
      assert (s + [c])[1..] == s[1..] + [c];
      FindAppend(s[1..], c);
    }
  }

  /** Opening creates an empty cache only when the name is new, and changes
      no other cache. */
  lemma FindOpen(s: Store, name: string)
    ensures forall n :: Find(Open(s, name), n) == if n == name && name !in Names(s) then Some(map[]) else Find(s, n)
  {
    if name !in Names(s) {
      FindAppend(s, NamedCache(name, map[]));
    }
  }

  /** Putting adds the entries to the named cache and changes no other. */
  lemma {:induction false} FindPut(s: Store, name: string, e: map<string, Response>)
    ensures forall n :: Find(Put(s, name, e), n) ==
              if n != name then Find(s, n)
              else match Find(s, n) case None => None case Some(m) => Some(m + e)
  {
    if s != [] {
      FindPut(s[1..], name, e);
    }
  }

  /** Every cache of the put name holds each put entry. */
  lemma {:induction false} PutHoldsEntries(s: Store, name: string, e: map<string, Response>)
    ensures forall c | c in Put(s, name, e) && c.name == name :: forall u | u in e :: u in c.entries && c.entries[u] == e[u]
  {
    if s != [] {
      PutHoldsEntries(s[1..], name, e);
    }
  }

  /** Opening and putting keep the cache names distinct. */
  lemma OpenPutKeepDistinct(s: Store, name: string, e: map<string, Response>)
    requires DistinctNames(s)
    ensures DistinctNames(Open(s, name))
    ensures DistinctNames(Put(s, name, e))
  {
    var o := Open(s, name);
    forall i, j | 0 <= i < j < |o| ensures o[i].name != o[j].name {
      assert Names(o)[i] == o[i].name && Names(o)[j] == o[j].name;
    }
    var p := Put(s, name, e);
    forall i, j | 0 <= i < j < |p| ensures p[i].name != p[j].name {
      assert Names(p)[i] == p[i].name && Names(p)[j] == p[j].name;
    }
  }

  /** Deleting caches keeps the remaining names distinct. */
  lemma {:induction false} EvictKeepsDistinct(s: Store, gone: set<string>)
    requires DistinctNames(s)
    ensures DistinctNames(Evict(s, gone))
  {
    if s != [] {
      var rest := Evict(s[1..], gone);
      EvictKeepsDistinct(s[1..], gone);
      forall c | c in rest ensures c.name != s[0].name {
        var k :| 0 <= k < |s[1..]| && s[1..][k] == c;
        assert s[k + 1] == c;
      }
      if s[0].name !in gone {
        var r := [s[0]] + rest;
        assert Evict(s, gone) == r;
        forall i, j | 0 <= i < j < |r| ensures r[i].name != r[j].name {
          assert r[j] == rest[j - 1];
          if 0 < i {
            assert r[i] == rest[i - 1];
          }
        }
      }
    }
  }

  /** In a non-empty store whose every cache holds `url` with the same
      response, matching `url` finds that response. */
  lemma MatchAgreed(s: Store, url: string, r: Response)
    requires s != []
    requires forall c | c in s :: url in c.entries && c.entries[url] == r
    ensures Match(s, url) == Some(r)
  {
  }
}
