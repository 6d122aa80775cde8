/**
 * The liturgical-calendar helpers: a keyed in-memory store whose entries
 * expire, the caching decisions of the generic fetch helper, and the
 * LitCal calendar URL builder. "Now" is an explicit integer parameter
 * (seconds since the epoch); the HTTP request itself is a parameter
 * standing for what the network answered.
 */
module LitUtils {
  import opened Wrappers
  import opened Text

  const LitcalBase: string := "https://litcal.johnromanodorazio.com/api/dev/calendar"
  const DefaultAccept: string := "application/json"
  const DefaultTimeout: int := 10
  /** Longest error detail copied from an HTTP error body. */
  const ErrorDetailLimit: nat := 400

  // ---------------------------------------------------------------------
  // The TTL store
  // ---------------------------------------------------------------------

  /** One cached payload with its expiry instant. */
  datatype Entry<D> = Entry(exp: int, data: D)

  type Cache<D> = map<string, Entry<D>>

  /** `max(1, int(ttl))`: a lifetime of at least one second. */
  function ClampTtl(ttl: int): (t: int)
    ensures t >= 1 && t >= ttl
    ensures ttl >= 1 ==> t == ttl
    ensures ttl < 1 ==> t == 1
  {
    if ttl < 1 then 1 else ttl
  }

  /** What a read returns: the data of an entry that has not yet expired. */
  function Lookup<D>(c: Cache<D>, key: string, now: int): Option<D> {
    if key in c && c[key].exp > now then Some(c[key].data) else None
  }

  /** The store after a read: an expired entry for the key is dropped. */
  function AfterGet<D>(c: Cache<D>, key: string, now: int): (r: Cache<D>)
    ensures r.Keys <= c.Keys
    ensures forall k :: k in r ==> r[k] == c[k]
    ensures forall k :: k in c && k != key ==> k in r
  {
    if key in c && c[key].exp <= now then c - {key} else c
  }

  /** The store after a write of `data` under `key` for `ttl` seconds. */
  function AfterSet<D>(c: Cache<D>, key: string, data: D, ttl: int, now: int): (r: Cache<D>)
    ensures r.Keys == c.Keys + {key}
    ensures forall k :: k in c && k != key ==> r[k] == c[k]
  {
    c[key := Entry(now + ClampTtl(ttl), data)]
  }

  /** A read hits exactly when the entry's expiry is strictly after now. */
  lemma LookupHitIff<D>(c: Cache<D>, key: string, now: int)
    ensures Lookup(c, key, now).Some? <==> key in c && c[key].exp > now
    ensures Lookup(c, key, now).Some? ==> Lookup(c, key, now).value == c[key].data
  {
  }

  /** A read of an expired key returns nothing and removes only that key. */
  lemma GetExpired<D>(c: Cache<D>, key: string, now: int)
    requires key in c && c[key].exp <= now
    ensures Lookup(c, key, now) == None
    ensures AfterGet(c, key, now) == c - {key}
  {
  }

  /** A read of an absent key returns nothing and changes nothing. */
  lemma GetAbsent<D>(c: Cache<D>, key: string, now: int)
    requires key !in c
    ensures Lookup(c, key, now) == None && AfterGet(c, key, now) == c
  {
  }

  /** A write stores an expiry of at least now + 1, even for ttl <= 0. */
  lemma SetExpiry<D>(c: Cache<D>, key: string, data: D, ttl: int, now: int)
    ensures AfterSet(c, key, data, ttl, now)[key].exp >= now + 1
    ensures ttl >= 1 ==> AfterSet(c, key, data, ttl, now)[key].exp == now + ttl
  {
  }

  /** A written entry is served, unchanged, at every instant before its
      expiry, and is evicted by a read at or after it. */
  lemma SetThenGet<D>(c: Cache<D>, key: string, data: D, ttl: int, now: int, later: int)
    requires now <= later
    ensures var s := AfterSet(c, key, data, ttl, now);
      if later < now + ClampTtl(ttl) then
        Lookup(s, key, later) == Some(data) && AfterGet(s, key, later) == s
      else
        Lookup(s, key, later) == None && AfterGet(s, key, later) == c - {key}
  {
    var s := AfterSet(c, key, data, ttl, now);
    if later >= now + ClampTtl(ttl) {
      assert s - {key} == c - {key};
    }
  }

  /** The module-level `_CACHE` dictionary with its two accessors. */
  class TtlCache<D> {
    var entries: Cache<D>

    constructor ()
      ensures entries == map[]
    {
      entries := map[];
    }

    /** `_cache_get(key)` at instant `now`. */
    method Get(key: string, now: int) returns (r: Option<D>)
      modifies this
      ensures r.Some? <==> key in old(entries) && old(entries)[key].exp > now
      ensures r.Some? ==> r.value == old(entries)[key].data
      ensures r == Lookup(old(entries), key, now)
      ensures entries == AfterGet(old(entries), key, now)
    {
      if key in entries {
        var item := entries[key];
        if item.exp > now {
          return Some(item.data);
        }
        entries := entries - {key};
      }
      r := None;
    }

    /** `_cache_set(key, data, ttl)` at instant `now`. */
    method Set(key: string, data: D, ttl: int, now: int)
      modifies this
      ensures key in entries && entries[key] == Entry(now + ClampTtl(ttl), data)
      ensures entries == AfterSet(old(entries), key, data, ttl, now)
    {
      entries := entries[key := Entry(now + ClampTtl(ttl), data)];
    }
  }

  // ---------------------------------------------------------------------
  // safe_fetch: request shaping and the cache around the HTTP call
  // ---------------------------------------------------------------------

  /** `timeout or DEFAULTS["timeout"]` */
  function EffectiveTimeout(timeout: Option<int>): (t: int)
    ensures IntTruthy(timeout) ==> t == timeout.value
    ensures !IntTruthy(timeout) ==> t == DefaultTimeout
  {
    if IntTruthy(timeout) then timeout.value else DefaultTimeout
  }

  /** `{"Accept": DEFAULTS["accept"], **(headers or {})}`: the caller's
      headers win over the default Accept header. */
  function RequestHeaders(user: map<string, string>): (h: map<string, string>)
    ensures h.Keys == user.Keys + {"Accept"}
    ensures forall k :: k in user ==> h[k] == user[k]
    ensures "Accept" !in user ==> h["Accept"] == DefaultAccept
  {
    map["Accept" := DefaultAccept] + user
  }

  /** The cache key: the caller's key when given (even an empty one),
      otherwise "METHOD|url|params|headers" with the two encodings
      supplied by the caller. */
  function CacheKey(explicit: Option<string>, verb: string, url: string,
                    paramsEncoded: string, headersEncoded: string): string
  {
    if explicit.Some? then explicit.value
    else Join([Upper(verb), url, paramsEncoded, headersEncoded], "|")
  }

  /** A given key is used as it is; a built key splits back at '|' into
      the upper-cased method, the url and the two encodings, as long as
      none of them holds '|'. */
  lemma CacheKeyParts(explicit: Option<string>, verb: string, url: string,
                      paramsEncoded: string, headersEncoded: string)
    ensures explicit.Some? ==> CacheKey(explicit, verb, url, paramsEncoded, headersEncoded) == explicit.value
    ensures explicit.None? && '|' !in verb && '|' !in url && '|' !in paramsEncoded && '|' !in headersEncoded ==>
      SplitOn(CacheKey(explicit, verb, url, paramsEncoded, headersEncoded), '|')
        == [Upper(verb), url, paramsEncoded, headersEncoded]
  {
    if explicit.None? && '|' !in verb && '|' !in url && '|' !in paramsEncoded && '|' !in headersEncoded {
      UpperKeepsBar(verb);
      var parts := [Upper(verb), url, paramsEncoded, headersEncoded];
      assert forall i :: 0 <= i < |parts| ==> '|' !in parts[i];
      SplitJoin(parts, '|');
    }
  }

  lemma UpperKeepsBar(s: string)
    requires '|' !in s
    ensures '|' !in Upper(s)
  {
    forall i | 0 <= i < |s| ensures Upper(s)[i] != '|' {
    }
  }

  /** Built keys of different requests differ, as long as no part holds
      the separator '|'. */
  lemma CacheKeyInjective(m1: string, u1: string, p1: string, h1: string,
                          m2: string, u2: string, p2: string, h2: string)
    requires forall x :: x in [m1, u1, p1, h1, m2, u2, p2, h2] ==> '|' !in x
    requires CacheKey(None, m1, u1, p1, h1) == CacheKey(None, m2, u2, p2, h2)
    ensures Upper(m1) == Upper(m2) && u1 == u2 && p1 == p2 && h1 == h2
  {
    assert m1 in [m1, u1, p1, h1, m2, u2, p2, h2];
    assert m2 in [m1, u1, p1, h1, m2, u2, p2, h2];
    UpperKeepsBar(m1);
    UpperKeepsBar(m2);
    var parts1 := [Upper(m1), u1, p1, h1];
    var parts2 := [Upper(m2), u2, p2, h2];
    SplitJoin(parts1, '|');
    SplitJoin(parts2, '|');
  }

  /** A parsed body: JSON when the content type says so, text otherwise. */
  datatype Payload<J> = JsonBody(value: J) | TextBody(text: string)

  /** What `resp.json()` does with a body: a value, JSON `null` (Python's
      None), or an exception with its message. */
  datatype Decoded<J> = Parsed(value: J) | ParsedNull | Raised(detail: string)

  /** What the network answered. `json` is what decoding the body gives. */
  datatype Reply<J> =
    | NetworkFailure(detail: string)
    | Response(ok: bool, status: int, contentType: string, text: string, json: Decoded<J>)

  /** The request came back with an ok status: only then is data returned
      and, with a truthy ttl, stored. */
  predicate Reached<J>(reply: Reply<J>) {
    reply.Response? && reply.ok
  }

  datatype FetchError =
    | NetworkError(detail: string)
    | HttpError(status: int, contentType: string, detail: string)
    | ParseWarning(detail: string)

  /** The first `ErrorDetailLimit` characters of an error body. */
  function Truncate(text: string): (r: string)
    ensures |r| <= ErrorDetailLimit && StartsWith(text, r)
    ensures |text| <= ErrorDetailLimit ==> r == text
    ensures |text| > ErrorDetailLimit ==> |r| == ErrorDetailLimit
  {
    if |text| <= ErrorDetailLimit then text else text[..ErrorDetailLimit]
  }

  /** The (data, error) pair the fetch helper makes of a reply. Data `None`
      is Python's None: no reply, or a JSON body that is `null`. */
  function ReplyOutcome<J>(reply: Reply<J>): (out: (Option<Payload<J>>, Option<FetchError>))
    ensures out.0.None? <==> !Reached(reply) || (reply.json == ParsedNull && Contains(reply.contentType, "application/json"))
    ensures reply.NetworkFailure? ==> out.1 == Some(NetworkError(reply.detail))
    ensures reply.Response? && !reply.ok ==>
      out.1 == Some(HttpError(reply.status, reply.contentType, Truncate(reply.text)))
    ensures Reached(reply) ==>
      (out.1.Some? <==> Contains(reply.contentType, "application/json") && reply.json.Raised?)
    ensures Reached(reply) && out.1.Some? ==>
      out.0 == Some(TextBody(reply.text)) && out.1 == Some(ParseWarning(reply.json.detail))
    ensures out.0.Some? && out.0.value.JsonBody? ==>
      Reached(reply) && reply.json == Parsed(out.0.value.value)
    ensures Reached(reply) && Contains(reply.contentType, "application/json") && reply.json.Parsed? ==>
      out == (Some(JsonBody(reply.json.value)), None)
    ensures Reached(reply) && !Contains(reply.contentType, "application/json") ==>
      out == (Some(TextBody(reply.text)), None)
  {
    match reply
    case NetworkFailure(detail) => (None, Some(NetworkError(detail)))
    case Response(ok, status, ct, text, json) =>
      if !ok then (None, Some(HttpError(status, ct, Truncate(text))))
      else if Contains(ct, "application/json") then
        match json
        case Parsed(j) => (Some(JsonBody(j)), None)
        case ParsedNull => (None, None)
        case Raised(detail) => (Some(TextBody(text)), Some(ParseWarning(detail)))
      else (Some(TextBody(text)), None)
  }

  /** `if ttl: cached = _cache_get(key); if cached is not None: return`:
      a read serves only a stored value other than None. */
  predicate Served<D>(ttl: Option<int>, hit: Option<Option<D>>) {
    IntTruthy(ttl) && hit.Some? && hit.value.Some?
  }

  /** The cache traffic of `safe_fetch` on an already chosen key. The cache
      holds Python values, None included. A truthy ttl reads the cache at
      `readNow`; a stored value other than None is returned without a
      request (`requested` is false). Otherwise the reply is shaped and, when
      it reached an ok status and ttl is truthy, its data (even None) is
      stored at `writeNow`. A falsy ttl (None or 0) neither reads nor writes
      the cache. */
  method SafeFetch<J>(cache: TtlCache<Option<Payload<J>>>, key: string, ttl: Option<int>,
                      readNow: int, writeNow: int, reply: Reply<J>)
    returns (data: Option<Payload<J>>, err: Option<FetchError>, requested: bool)
    modifies cache
    ensures var hit := Lookup(old(cache.entries), key, readNow);
      && (requested <==> !Served(ttl, hit))
      && (!requested ==> data == hit.value && err == None
                         && cache.entries == AfterGet(old(cache.entries), key, readNow))
      && (requested ==> (data, err) == ReplyOutcome(reply))
    ensures !IntTruthy(ttl) ==> cache.entries == old(cache.entries)
    ensures IntTruthy(ttl) && requested ==>
      var read := AfterGet(old(cache.entries), key, readNow);
      cache.entries == if Reached(reply) then AfterSet(read, key, data, ttl.value, writeNow) else read
  {
    if IntTruthy(ttl) {
      var cached := cache.Get(key, readNow);
      if cached.Some? && cached.value.Some? {
        return cached.value, None, false;
      }
    }
    requested := true;
    var out := ReplyOutcome(reply);
    data, err := out.0, out.1;
    if !Reached(reply) {
      return;
    }
    if IntTruthy(ttl) {
      cache.Set(key, data, ttl.value, writeNow);
    }
  }

  /** A JSON `null` that was stored is never served: the next call within
      the lifetime still finds the entry but makes the request again. */
  lemma StoredNullNotServed<D>(c: Cache<Option<D>>, key: string, ttl: int, now: int, later: int)
    requires ttl != 0 && now <= later < now + ClampTtl(ttl)
    ensures var s := AfterSet(c, key, None, ttl, now);
      Lookup(s, key, later) == Some(None) && !Served(Some(ttl), Lookup(s, key, later))
      && AfterGet(s, key, later) == s
  {
    SetThenGet(c, key, None, ttl, now, later);
  }

  /** A stored value other than None is served until it expires. */
  lemma StoredValueServed<D>(c: Cache<Option<D>>, key: string, d: D, ttl: int, now: int, later: int)
    requires ttl != 0 && now <= later
    ensures Served(Some(ttl), Lookup(AfterSet(c, key, Some(d), ttl, now), key, later))
        <==> later < now + ClampTtl(ttl)
  {
    SetThenGet(c, key, Some(d), ttl, now, later);
  }

  // ---------------------------------------------------------------------
  // litcal_url
  // ---------------------------------------------------------------------

  /** `s.rstrip("/")` */
  function RStripSlash(s: string): (r: string)
    ensures StartsWith(s, r) && (r == [] || r[|r| - 1] != '/')
    ensures forall i :: |r| <= i < |s| ==> s[i] == '/'
    decreases |s|
  {
    if s != [] && s[|s| - 1] == '/' then RStripSlash(s[..|s| - 1]) else s
  }

  /** The published base has no trailing slash, so stripping keeps it. */
  lemma BaseKept()
    ensures RStripSlash(LitcalBase) == LitcalBase
  {
    assert LitcalBase[|LitcalBase| - 1] == 'r';
  }

  /** The path without the year: nation first, then diocese, then the
      General Roman calendar. */
  function RegionPath(nation: Option<string>, diocese: Option<string>): (path: string)
    ensures StartsWith(path, LitcalBase)
    ensures StrTruthy(nation) ==> path == LitcalBase + "/nation/" + nation.value
    ensures !StrTruthy(nation) && StrTruthy(diocese) ==> path == LitcalBase + "/diocese/" + diocese.value
    ensures !StrTruthy(nation) && !StrTruthy(diocese) ==> path == LitcalBase
  {
    BaseKept();
    var base := RStripSlash(LitcalBase);
    if StrTruthy(nation) then
      StartsWithConcat(base, "/nation/" + nation.value);
      assert base + "/nation/" + nation.value == base + ("/nation/" + nation.value);
      base + "/nation/" + nation.value
    else if StrTruthy(diocese) then
      StartsWithConcat(base, "/diocese/" + diocese.value);
      assert base + "/diocese/" + diocese.value == base + ("/diocese/" + diocese.value);
      base + "/diocese/" + diocese.value
    else base
  }

  /** The LitCal calendar URL: the region path, then "/YEAR" only for a
      truthy year. */
  function LitcalUrl(nation: Option<string>, diocese: Option<string>, year: Option<int>): (r: string)
    ensures StartsWith(r, LitcalBase)
    ensures StrTruthy(nation) ==> StartsWith(r, LitcalBase + "/nation/" + nation.value)
    ensures !StrTruthy(nation) && StrTruthy(diocese) ==>
      StartsWith(r, LitcalBase + "/diocese/" + diocese.value)
    ensures IntTruthy(year) ==> EndsWith(r, "/" + IntToString(year.value))
    ensures !IntTruthy(year) ==> r == RegionPath(nation, diocese)
    ensures IntTruthy(year) ==> r == RegionPath(nation, diocese) + "/" + IntToString(year.value)
  {
    var path := RegionPath(nation, diocese);
    if IntTruthy(year) then
      var suffix := "/" + IntToString(year.value);
      StartsWithConcat(path, suffix);
      EndsWithConcat(path, suffix);
      StartsWithTrans(path + suffix, path, LitcalBase);
      path + suffix
    else path
  }

  /** A truthy nation makes the diocese irrelevant. */
  lemma LitcalUrlNationWins(nation: Option<string>, d1: Option<string>, d2: Option<string>, year: Option<int>)
    requires StrTruthy(nation)
    ensures LitcalUrl(nation, d1, year) == LitcalUrl(nation, d2, year)
  {
  }

  /** The year is a pure suffix, and a falsy year (None or 0) adds nothing. */
  lemma LitcalUrlYear(nation: Option<string>, diocese: Option<string>, year: Option<int>)
    ensures LitcalUrl(nation, diocese, year) ==
      LitcalUrl(nation, diocese, None) + (if IntTruthy(year) then "/" + IntToString(year.value) else "")
  {
    assert !IntTruthy(None);
  }

  /** Without nation or diocese the path is the base itself. */
  lemma LitcalUrlGeneralRoman(nation: Option<string>, diocese: Option<string>)
    requires !StrTruthy(nation) && !StrTruthy(diocese)
    ensures LitcalUrl(nation, diocese, None) == LitcalBase
  {
  }
}
