/** The signing-key cache of the token validator and its key lookup
    (src/otaman_core/auth_oidc.py; key selection by `kid` as in section 4.5 of RFC 7517). The
    fetcher and the clock are inputs. */
module JwksCache {
  import opened Wrappers

  /** A key of the set; one without a `kid` matches no token. */
  datatype Jwk = Jwk(kid: Option<string>, material: string)

  type Jwks = seq<Jwk>

  /** What a fetch gives: a set, or the provider error. */
  datatype Fetch = Served(jwks: Jwks) | Failed

  /** The cached set and the clock reading it is stamped with. */
  datatype Cache = Empty | Held(jwks: Jwks, at: real)

  // ----- Getting the set -----

  predicate Fresh(c: Cache, ttl: real, now: real) {
    c.Held? && now - c.at < ttl
  }

  predicate Fetches(c: Cache, ttl: real, force: bool, now: real) {
    force || !Fresh(c, ttl, now)
  }

  function Absorb(c: Cache, next: Fetch, now: real): Cache {
    if next.Served? then Held(next.jwks, now) else c
  }

  function AfterGet(c: Cache, ttl: real, force: bool, now: real, next: Fetch): Cache {
    if Fetches(c, ttl, force, now) then Absorb(c, next, now) else c
  }

  /** The first key with that `kid`. */
  function FindKey(jwks: Jwks, kid: string): Option<Jwk> {
    if jwks == [] then None else if jwks[0].kid == Some(kid) then Some(jwks[0]) else FindKey(jwks[1..], kid)
  }

  lemma {:induction false} FindKeyMeans(jwks: Jwks, kid: string)
    ensures FindKey(jwks, kid).Some? <==> exists i :: 0 <= i < |jwks| && jwks[i].kid == Some(kid)
    ensures FindKey(jwks, kid).Some? ==> FindKey(jwks, kid).value in jwks && FindKey(jwks, kid).value.kid == Some(kid)
  {
    if jwks != [] {
      var rest := jwks[1..];
      FindKeyMeans(rest, kid);
      if exists i :: 0 <= i < |rest| && rest[i].kid == Some(kid) {
        var i :| 0 <= i < |rest| && rest[i].kid == Some(kid);
        assert jwks[i + 1].kid == Some(kid);
      }
      if exists i :: 0 < i < |jwks| && jwks[i].kid == Some(kid) {
        var i :| 0 < i < |jwks| && jwks[i].kid == Some(kid);
        assert rest[i - 1].kid == Some(kid);
      }
    }
  }

  // ----- Looking a key up -----

  /** A lookup: the `kid`, and what the clock and the fetcher say the first and second time. */
  datatype Lookup = Lookup(kid: string, now: real, next: Fetch, now2: real, next2: Fetch)

  datatype Answer = Found(key: Jwk) | KidNotFound | ProviderError

  /** A fetch that was made, and when. */
  datatype Attempt = Attempt(fetch: Fetch, at: real)

  datatype Looked = Looked(cache: Cache, answer: Answer, attempts: seq<Attempt>)

  function AnswerFrom(c: Cache, kid: string): Answer {
    if c.Empty? then ProviderError
    else if FindKey(c.jwks, kid).Some? then Found(FindKey(c.jwks, kid).value)
    else KidNotFound
  }

  /** Try the set at hand; on a miss, force one refresh and try again. */
  function Look(c: Cache, ttl: real, l: Lookup): Looked {
    var first := AfterGet(c, ttl, false, l.now, l.next);
    var tried := if Fetches(c, ttl, false, l.now) then [Attempt(l.next, l.now)] else [];
    if AnswerFrom(first, l.kid) != KidNotFound then Looked(first, AnswerFrom(first, l.kid), tried)
    else
      var second := AfterGet(first, ttl, true, l.now2, l.next2);
      Looked(second, AnswerFrom(second, l.kid), tried + [Attempt(l.next2, l.now2)])
  }

  class OIDCValidator {
    const cacheTtl: real
    var jwksCache: Option<Jwks>
    var jwksFetchedAt: real

    constructor (ttl: real)
      ensures cacheTtl == ttl && State() == Empty
    {
      cacheTtl := ttl;
      jwksCache := None;
      jwksFetchedAt := 0.0;
    }

    function State(): Cache
      reads this
    {
      if jwksCache.Some? then Held(jwksCache.value, jwksFetchedAt) else Empty
    }

    /** `_jwks`: the set, refreshed when stale or forced; a failed refresh falls back on the cache. */
    method GetJwks(force: bool, now: real, next: Fetch) returns (r: Fetch, fetched: bool)
      modifies this
      ensures State() == AfterGet(old(State()), cacheTtl, force, now, next)
      ensures fetched <==> Fetches(old(State()), cacheTtl, force, now)
      ensures r == if State().Held? then Served(State().jwks) else Failed
    {
      if !force && jwksCache.Some? && now - jwksFetchedAt < cacheTtl {
        return Served(jwksCache.value), false;
      }
      fetched := true;
      match next
      case Failed =>
        r := if jwksCache.Some? then Served(jwksCache.value) else Failed;
      case Served(renewed) =>
        jwksCache := Some(renewed);
        jwksFetchedAt := now;
        r := Served(renewed);
    }

    /** `_key_for_kid`. */
    method KeyForKid(l: Lookup) returns (answer: Answer, attempts: seq<Attempt>)
      modifies this
      ensures Looked(State(), answer, attempts) == Look(old(State()), cacheTtl, l)
    {
      var cached, fetched := GetJwks(false, l.now, l.next);
      attempts := if fetched then [Attempt(l.next, l.now)] else [];
      if cached.Failed? {
        return ProviderError, attempts;
      }
      var found := Find(cached.jwks, l.kid);
      if found.Some? {
        return Found(found.value), attempts;
      }
      var renewed, again := GetJwks(true, l.now2, l.next2);
      attempts := attempts + [Attempt(l.next2, l.now2)];
      found := Find(renewed.jwks, l.kid);
      answer := if found.Some? then Found(found.value) else KidNotFound;
    }

    method Find(jwks: Jwks, kid: string) returns (key: Option<Jwk>)
      ensures key == FindKey(jwks, kid)
    {
      for i := 0 to |jwks|
        invariant FindKey(jwks[i..], kid) == FindKey(jwks, kid)
      {
        assert jwks[i..][1..] == jwks[i + 1..];
        if jwks[i].kid == Some(kid) {
          return Some(jwks[i]);
        }
      }
      key := None;
    }
  }

  // ----- One lookup -----

  /** At most two fetches: the first exactly when nothing is cached or what is cached is as old as the
      time to live, and none exactly when the cached set is younger and has the key. */
  lemma LookupFetches(c: Cache, ttl: real, l: Lookup)
    ensures |Look(c, ttl, l).attempts| <= 2
    ensures c.Empty? || l.now - c.at >= ttl ==>
              Look(c, ttl, l).attempts != [] && Look(c, ttl, l).attempts[0] == Attempt(l.next, l.now)
    ensures c.Held? && l.now - c.at < ttl ==>
              Look(c, ttl, l).attempts ==
              if exists i :: 0 <= i < |c.jwks| && c.jwks[i].kid == Some(l.kid) then [] else [Attempt(l.next2, l.now2)]
  {
    if c.Held? {
      FindKeyMeans(c.jwks, l.kid);
    }
  }

  /** When every fetch of the call would be served the same set, a key of that set is found; and
      when the refresh after a miss is served, the answer is that set's. */
  lemma RotationFound(c: Cache, ttl: real, l: Lookup)
    ensures l.next == l.next2 && l.next.Served? && FindKey(l.next.jwks, l.kid).Some? ==>
              Look(c, ttl, l).answer.Found?
    ensures AnswerFrom(AfterGet(c, ttl, false, l.now, l.next), l.kid) == KidNotFound && l.next2.Served? ==>
              (Look(c, ttl, l).answer.Found? <==> FindKey(l.next2.jwks, l.kid).Some?)
  {
  }

  // ----- Any sequence of calls -----

  datatype Trace = Trace(cache: Cache, log: seq<Attempt>)

  function Run(t: Trace, ttl: real, calls: seq<Lookup>): Trace
    decreases |calls|
  {
    if calls == [] then t
    else
      var looked := Look(t.cache, ttl, calls[0]);
      Run(Trace(looked.cache, t.log + looked.attempts), ttl, calls[1..])
  }

  /** One more call: its cache and its fetches come behind those of the calls before. */
  lemma {:induction false} RunOneMore(t: Trace, ttl: real, calls: seq<Lookup>, l: Lookup)
    ensures var before, after := Run(t, ttl, calls), Run(t, ttl, calls + [l]);
            && after.cache == Look(before.cache, ttl, l).cache
            && after.log == before.log + Look(before.cache, ttl, l).attempts
    ensures Run(t, ttl, []) == t
    decreases |calls|
  {
    if calls == [] {
      assert calls + [l] == [l] && [l][1..] == [];
    } else {
      var looked := Look(t.cache, ttl, calls[0]);
      assert (calls + [l])[1..] == calls[1..] + [l];
      RunOneMore(Trace(looked.cache, t.log + looked.attempts), ttl, calls[1..], l);
    }
  }

  /** The last fetch of the log that was served. */
  function LastServed(log: seq<Attempt>): Cache {
    if log == [] then Empty
    else
      var last := log[|log| - 1];
      if last.fetch.Served? then Held(last.fetch.jwks, last.at) else LastServed(log[..|log| - 1])
  }

  function AbsorbAll(c: Cache, attempts: seq<Attempt>): Cache
    decreases |attempts|
  {
    if attempts == [] then c else AbsorbAll(Absorb(c, attempts[0].fetch, attempts[0].at), attempts[1..])
  }

  lemma {:induction false} LastServedAfter(log: seq<Attempt>, attempts: seq<Attempt>)
    ensures LastServed(log + attempts) == AbsorbAll(LastServed(log), attempts)
    decreases |attempts|
  {
    if attempts == [] {
      assert log + attempts == log;
    } else {
      var log' := log + [attempts[0]];
      assert log'[..|log|] == log;
      LastServedAfter(log', attempts[1..]);
      assert log + attempts == log' + attempts[1..];
    }
  }

  lemma LookAbsorbs(c: Cache, ttl: real, l: Lookup)
    ensures Look(c, ttl, l).cache == AbsorbAll(c, Look(c, ttl, l).attempts)
  {
    var a, b := Attempt(l.next, l.now), Attempt(l.next2, l.now2);
    AbsorbOne(c, a);
    AbsorbOne(c, b);
    AbsorbOne(Absorb(c, l.next, l.now), b);
    assert ([a] + [b])[1..] == [b] && [] + [b] == [b];
  }

  lemma AbsorbOne(c: Cache, a: Attempt)
    ensures AbsorbAll(c, [a]) == Absorb(c, a.fetch, a.at)
  {
    assert [a][1..] == [];
  }

  lemma LookLogged(t: Trace, ttl: real, l: Lookup)
    requires t.cache == LastServed(t.log)
    ensures Look(t.cache, ttl, l).cache == LastServed(t.log + Look(t.cache, ttl, l).attempts)
  {
    LookAbsorbs(t.cache, ttl, l);
    LastServedAfter(t.log, Look(t.cache, ttl, l).attempts);
  }

  /** After any calls the cache is the last set served, stamped with the clock of that fetch, and
      empty when none ever was. */
  lemma {:induction false} CacheIsLastServed(t: Trace, ttl: real, calls: seq<Lookup>)
    requires t.cache == LastServed(t.log)
    ensures Run(t, ttl, calls).cache == LastServed(Run(t, ttl, calls).log)
    decreases |calls|
  {
    if calls != [] {
      var looked := Look(t.cache, ttl, calls[0]);
      LookLogged(t, ttl, calls[0]);
      CacheIsLastServed(Trace(looked.cache, t.log + looked.attempts), ttl, calls[1..]);
    }
  }

  lemma {:induction false} NeverServed(log: seq<Attempt>)
    ensures LastServed(log) == Empty <==> forall i :: 0 <= i < |log| ==> log[i].fetch.Failed?
  {
    if log != [] {
      NeverServed(log[..|log| - 1]);
    }
  }

  /** A call ends in the provider error exactly when no fetch was ever served, its own included. */
  lemma ErrorMeansNeverServed(ttl: real, calls: seq<Lookup>, l: Lookup)
    ensures var t := Run(Trace(Empty, []), ttl, calls);
            Look(t.cache, ttl, l).answer == ProviderError <==>
            forall a :: a in t.log + Look(t.cache, ttl, l).attempts ==> a.fetch.Failed?
  {
    var t := Run(Trace(Empty, []), ttl, calls);
    CacheIsLastServed(Trace(Empty, []), ttl, calls);
    LookLogged(t, ttl, l);
    var log := t.log + Look(t.cache, ttl, l).attempts;
    NeverServed(log);
    assert forall i :: 0 <= i < |log| ==> log[i] in log;
    ErrorIsEmpty(t.cache, ttl, l);
  }

  lemma ErrorIsEmpty(c: Cache, ttl: real, l: Lookup)
    ensures Look(c, ttl, l).answer == ProviderError <==> Look(c, ttl, l).cache.Empty?
  {
  }
}
