/** The backend registry, `objectstore/registry.go`: openers by scheme, stores cached by location. */
module Registry {
  import opened Wrappers

  type Opener = nat
  type Store = nat
  type CallId = nat

  /** A parsed location that is not local. */
  datatype Location = Location(scheme: string, host: string, query: string, path: string)

  function CacheKey(l: Location): string {
    l.scheme + "://" + l.host + "?" + l.query
  }

  predicate HasPrefix(s: string, prefix: string) {
    prefix <= s
  }

  predicate Reserved(scheme: string) {
    scheme == "" || scheme == "file"
  }

  // ----- Keys -----

  predicate Without(s: string, c: char) {
    forall i | 0 <= i < |s| :: s[i] != c
  }

  /** Section 3.1 of RFC 3986 keeps ':' out of a scheme, and section 3.2 ends the authority before '?'. */
  predicate WellFormed(l: Location) {
    Without(l.scheme, ':') && Without(l.host, '?')
  }

  /** The text before the first c determines itself. */
  lemma SplitAtFirst(a: string, b: string, x: string, y: string, c: char)
    requires Without(a, c) && Without(b, c) && a + [c] + x == b + [c] + y
    ensures a == b && x == y
  {
    var s := a + [c] + x;
    assert s[|a|] == c && s[|b|] == c;
    assert forall i | 0 <= i < |a| :: s[i] == a[i];
    assert forall i | 0 <= i < |b| :: s[i] == b[i];
    assert a == s[..|a|] && b == s[..|b|];
    assert x == s[|a| + 1..] && y == s[|b| + 1..];
  }

  /** Two locations share a cached store only if they agree on scheme, host and query. */
  lemma CacheKeyInjective(a: Location, b: Location)
    requires WellFormed(a) && WellFormed(b)
    ensures CacheKey(a) == CacheKey(b) <==> a.scheme == b.scheme && a.host == b.host && a.query == b.query
  {
    if CacheKey(a) == CacheKey(b) {
      var restA, restB := "//" + (a.host + "?" + a.query), "//" + (b.host + "?" + b.query);
      assert CacheKey(a) == a.scheme + [':'] + restA && CacheKey(b) == b.scheme + [':'] + restB;
      SplitAtFirst(a.scheme, b.scheme, restA, restB, ':');
      assert a.host + "?" + a.query == restA[2..] && b.host + "?" + b.query == restB[2..];
      SplitAtFirst(a.host, b.host, a.query, b.query, '?');
    }
  }

  /** Without the host's half of that grammar two locations can collide. */
  lemma QuestionMarkInHostCollides()
    ensures CacheKey(Location("s", "a?b", "c", "")) == CacheKey(Location("s", "a", "b?c", ""))
  {
  }

  /** Registering a scheme clears exactly the stores of its own locations. */
  lemma PrefixIsScheme(l: Location, scheme: string)
    requires WellFormed(l) && Without(scheme, ':')
    ensures HasPrefix(CacheKey(l), scheme + "://") <==> l.scheme == scheme
  {
    var key := CacheKey(l);
    assert key == l.scheme + [':'] + ("//" + l.host + "?" + l.query);
    if HasPrefix(key, scheme + "://") {
      var rest := key[|scheme| + 1..];
      assert key == scheme + [':'] + rest by {
        assert (scheme + "://")[|scheme|] == ':';
        assert key[..|scheme|] == scheme;
      }
      SplitAtFirst(l.scheme, scheme, "//" + l.host + "?" + l.query, rest, ':');
    }
  }

  // ----- The tables under the mutex -----

  datatype Tables = Tables(openers: map<string, Opener>, cache: map<string, Store>, inflight: map<string, CallId>)

  datatype Found = Hit(store: Store) | Wait(call: CallId) | NotRegistered | Lead(opener: Opener)

  function Registered(t: Tables, scheme: string, opener: Opener): Tables {
    t.(openers := t.openers[scheme := opener],
       cache := map k | k in t.cache && !HasPrefix(k, scheme + "://") :: t.cache[k])
  }

  /** What the first locked section of Resolve decides. */
  function Find(t: Tables, key: string, scheme: string): Found {
    if key in t.cache then Hit(t.cache[key])
    else if key in t.inflight then Wait(t.inflight[key])
    else if scheme in t.openers then Lead(t.openers[scheme])
    else NotRegistered
  }

  function Begun(t: Tables, key: string, call: CallId): Tables {
    t.(inflight := t.inflight[key := call])
  }

  /** The second locked section: the call is no longer in flight, and a success is cached. */
  function Settled(t: Tables, key: string, outcome: Option<Store>): Tables {
    t.(inflight := t.inflight - {key}, cache := if outcome.Some? then t.cache[key := outcome.value] else t.cache)
  }

  class RegistryState {
    var openers: map<string, Opener>
    var cache: map<string, Store>
    var inflight: map<string, CallId>

    constructor ()
      ensures Abs() == Tables(map[], map[], map[])
    {
      openers, cache, inflight := map[], map[], map[];
    }

    ghost function Abs(): Tables
      reads this
    {
      Tables(openers, cache, inflight)
    }

    method Register(scheme: string, opener: Opener) returns (ok: bool)
      modifies this`openers, this`cache
      ensures ok <==> scheme != "" && scheme != "file"
      ensures ok ==> openers == old(openers)[scheme := opener]
      ensures ok ==> forall k :: k in cache <==> k in old(cache) && !(scheme + "://" <= k)
      ensures ok ==> forall k | k in cache :: cache[k] == old(cache)[k]
      ensures !ok ==> openers == old(openers) && cache == old(cache)
      ensures Abs() == if ok then Registered(old(Abs()), scheme, opener) else old(Abs())
    {
      if scheme == "" || scheme == "file" {
        return false;
      }
      openers := openers[scheme := opener];
      var prefix := scheme + "://";
      var todo := cache.Keys;
      while todo != {}
        invariant openers == old(openers)[scheme := opener] && todo <= old(cache).Keys
        invariant cache == map k | k in old(cache) && (k in todo || !HasPrefix(k, prefix)) :: old(cache)[k]
      {
        ghost var some := Member(todo);
        var key :| key in todo;
        todo := todo - {key};
        if HasPrefix(key, prefix) {
          cache := cache - {key};
        }
      }
      assert cache == Registered(old(Abs()), scheme, opener).cache;
      ok := true;
    }

    method LookUp(key: string, scheme: string, call: CallId) returns (found: Found)
      modifies this`inflight
      ensures key in cache ==> found == Hit(cache[key])
      ensures key !in cache && key in old(inflight) ==> found == Wait(old(inflight)[key])
      ensures key !in cache && key !in old(inflight) && scheme !in openers ==> found == NotRegistered
      ensures key !in cache && key !in old(inflight) && scheme in openers ==> found == Lead(openers[scheme])
      ensures inflight == if found.Lead? then old(inflight)[key := call] else old(inflight)
      ensures found == Find(old(Abs()), key, scheme)
      ensures Abs() == if found.Lead? then Begun(old(Abs()), key, call) else old(Abs())
    {
      if key in cache {
        return Hit(cache[key]);
      }
      if key in inflight {
        return Wait(inflight[key]);
      }
      if scheme !in openers {
        return NotRegistered;
      }
      inflight := inflight[key := call];
      found := Lead(openers[scheme]);
    }

    method Settle(key: string, outcome: Option<Store>)
      modifies this`inflight, this`cache
      ensures inflight == old(inflight) - {key}
      ensures cache == if outcome.Some? then old(cache)[key := outcome.value] else old(cache)
      ensures Abs() == Settled(old(Abs()), key, outcome)
    {
      inflight := inflight - {key};
      if outcome.Some? {
        cache := cache[key := outcome.value];
      }
    }
  }
}
