/**
 * The Google session-cookie layer: a one-slot cache with a 300-second
 * time-to-live, the filter that turns Chrome's cookie records into a
 * name→value map, the preference-ordered choice of the signing cookie, and
 * the assembly of the `Cookie` request header.
 *
 * Reading Chrome's encrypted cookie store is outside the model: its outcome
 * is the `ChromeRead` parameter. The clock is the `now` parameter, in
 * seconds, as `time.time()` would return it.
 */
module ChromeCookies {
  import opened Wrappers
  import opened PyText

  type CookieMap = map<string, string>

  /** How long a cookie set stays cached, in seconds. */
  const CacheTtl: real := 300.0

  /** Cookies that can sign a request, in order of preference. */
  const SigningNames: seq<string> := ["SAPISID", "__Secure-3PAPISID", "__Secure-1PAPISID"]

  /** The cookies always forwarded in the `Cookie` header when present. */
  const KnownNames: set<string> := {
    "SAPISID", "__Secure-1PAPISID", "__Secure-3PAPISID", "__Secure-1PSID",
    "__Secure-3PSID", "SID", "HSID", "SSID", "APISID", "OSID", "NID"
  }

  /** One record as Chrome's cookie store returns it; a missing field is `None`. */
  datatype RawCookie = RawCookie(name: Option<string>, value: Option<string>)

  /** What reading Chrome's cookie store for google.com produced. */
  datatype ChromeRead = Extracted(records: seq<RawCookie>) | ExtractionFailed(message: string)

  datatype CookieError =
    | DatabaseLocked
    | PermissionDenied
    | ChromeUnreadable(detail: string)
    | SessionCookiesNotFound
    | SapisidNotFound

  // ---------------------------------------------------------------------------
  // From records to a cookie map
  // ---------------------------------------------------------------------------

  /** A record is kept when both its name and its value are present and non-empty. */
  predicate Kept(c: RawCookie)
  {
    c.name.GetOr("") != "" && c.value.GetOr("") != ""
  }

  /** The map the filtering loop builds: records in order, a later name overwriting an earlier one. */
  function CookieMapOf(records: seq<RawCookie>): CookieMap
  {
    if records == [] then map[]
    else
      var c := records[|records| - 1];
      var m := CookieMapOf(records[..|records| - 1]);
      if Kept(c) then m[c.name.value := c.value.value] else m
  }

  /** Every entry of the built map has a non-empty name and a non-empty value. */
  lemma {:induction false} CookieMapEntriesNonEmpty(records: seq<RawCookie>)
    ensures forall n :: n in CookieMapOf(records) ==> n != "" && CookieMapOf(records)[n] != ""
  {
    if records != [] {
      CookieMapEntriesNonEmpty(records[..|records| - 1]);
    }
  }

  /** A name is in the built map exactly when some kept record carries it. */
  lemma {:induction false} CookieMapDomain(records: seq<RawCookie>, n: string)
    ensures n in CookieMapOf(records) <==>
            exists i :: 0 <= i < |records| && Kept(records[i]) && records[i].name.value == n
  {
    if records != [] {
      var init := records[..|records| - 1];
      CookieMapDomain(init, n);
      if exists i :: 0 <= i < |init| && Kept(init[i]) && init[i].name.value == n {
        var i :| 0 <= i < |init| && Kept(init[i]) && init[i].name.value == n;
        assert records[i] == init[i];
      }
      if exists i :: 0 <= i < |records| && Kept(records[i]) && records[i].name.value == n {
        var i :| 0 <= i < |records| && Kept(records[i]) && records[i].name.value == n;
        if i < |init| {
          assert init[i] == records[i];
        }
      }
    }
  }

  /** The value kept for a name is that of the last kept record with that name. */
  lemma {:induction false} CookieMapLastWins(records: seq<RawCookie>, i: nat)
    requires i < |records| && Kept(records[i])
    requires forall j :: i < j < |records| && Kept(records[j]) ==> records[j].name != records[i].name
    ensures records[i].name.value in CookieMapOf(records)
    ensures CookieMapOf(records)[records[i].name.value] == records[i].value.value
  {
    var init := records[..|records| - 1];
    if i < |records| - 1 {
      forall j | i < j < |init| && Kept(init[j]) ensures init[j].name != init[i].name {
        assert init[j] == records[j];
      }
      CookieMapLastWins(init, i);
    }
  }

  /** The loop at the heart of `get_google_cookies` that fills the cookie dict. */
  method BuildCookieMap(records: seq<RawCookie>) returns (cookies: CookieMap)
    ensures cookies == CookieMapOf(records)
  {
    cookies := map[];
    var i := 0;
    while i < |records|
      invariant 0 <= i <= |records|
      invariant cookies == CookieMapOf(records[..i])
    {
      var c := records[i];
      var name := c.name.GetOr("");
      var value := c.value.GetOr("");
      if name != "" && value != "" {
        cookies := cookies[name := value];
      }
      assert records[..i + 1][..i] == records[..i];
      i := i + 1;
    }
    assert records[..i] == records;
  }

  // ---------------------------------------------------------------------------
  // The signing cookie
  // ---------------------------------------------------------------------------

  /** `cookies.get(name)` is truthy. */
  predicate HasValue(cookies: CookieMap, name: string)
  {
    name in cookies && cookies[name] != ""
  }

  /** The value of the first name in `names` whose value is non-empty. */
  function FirstValue(cookies: CookieMap, names: seq<string>): (r: Option<string>)
    ensures r.None? <==> forall i :: 0 <= i < |names| ==> !HasValue(cookies, names[i])
    ensures r.Some? ==> r.value != "" && r.value in cookies.Values
    ensures r.Some? ==> exists i :: 0 <= i < |names| && HasValue(cookies, names[i]) && r.value == cookies[names[i]]
                                   && forall j :: 0 <= j < i ==> !HasValue(cookies, names[j])
  {
    if names == [] then None
    else if HasValue(cookies, names[0]) then Some(cookies[names[0]])
    else
      var r := FirstValue(cookies, names[1..]);
      assert forall i :: 1 <= i < |names| ==> names[i] == names[1..][i - 1];
      if r.Some? then
        var i :| 0 <= i < |names[1..]| && HasValue(cookies, names[1..][i]) && r.value == cookies[names[1..][i]]
                 && forall j :: 0 <= j < i ==> !HasValue(cookies, names[1..][j]);
        assert forall j :: 0 <= j < i + 1 ==> !HasValue(cookies, names[j]) by {
          forall j | 0 <= j < i + 1 ensures !HasValue(cookies, names[j]) {
            if j > 0 {
              assert names[j] == names[1..][j - 1];
            }
          }
        }
        assert names[i + 1] == names[1..][i];
        r
      else r
  }

  /** The signing credential `get_sapisid` returns, if any. */
  function SigningValue(cookies: CookieMap): Option<string>
  {
    FirstValue(cookies, SigningNames)
  }

  /** `cookies.get(name) or fallback`, Python's `or` on a dict lookup. */
  function LookupOr(cookies: CookieMap, name: string, fallback: Option<string>): Option<string>
  {
    if HasValue(cookies, name) then Some(cookies[name]) else fallback
  }

  /** The `or` chain `get_google_cookies` uses to check for a session credential. */
  function SessionCredential(cookies: CookieMap): Option<string>
  {
    var third := if HasValue(cookies, "__Secure-1PAPISID") then Some(cookies["__Secure-1PAPISID"]) else None;
    LookupOr(cookies, "SAPISID", LookupOr(cookies, "__Secure-3PAPISID", third))
  }

  /**
   * The `or` chain of `get_google_cookies` and the preference loop of
   * `get_sapisid` pick the same credential, so a cookie set that passes
   * the first check always yields a signing value.
   */
  lemma SessionCredentialIsSigningValue(cookies: CookieMap)
    ensures SessionCredential(cookies) == SigningValue(cookies)
  {
    var third := FirstValue(cookies, ["__Secure-1PAPISID"]);
    assert ["__Secure-1PAPISID"][1..] == [];
    var second := FirstValue(cookies, ["__Secure-3PAPISID", "__Secure-1PAPISID"]);
    assert ["__Secure-3PAPISID", "__Secure-1PAPISID"][1..] == ["__Secure-1PAPISID"];
    assert SigningNames[1..] == ["__Secure-3PAPISID", "__Secure-1PAPISID"];
    assert SigningValue(cookies) == LookupOr(cookies, "SAPISID", second);
  }

  /** `get_sapisid`: the first signing cookie in order of preference with a non-empty value. */
  method GetSapisid(cookies: CookieMap) returns (r: Result<string, CookieError>)
    ensures r == match SigningValue(cookies)
                 case Some(v) => Success(v)
                 case None => Failure(SapisidNotFound)
  {
    var names := SigningNames;
    var i := 0;
    while i < |names|
      invariant 0 <= i <= |names|
      invariant FirstValue(cookies, names) == FirstValue(cookies, names[i..])
    {
      var name := names[i];
      if name in cookies && cookies[name] != "" {
        return Success(cookies[name]);
      }
      assert names[i..][1..] == names[i + 1..];
      i := i + 1;
    }
    return Failure(SapisidNotFound);
  }

  // ---------------------------------------------------------------------------
  // The Cookie header
  // ---------------------------------------------------------------------------

  datatype CookiePart = CookiePart(name: string, value: string)

  /**
   * The order in which Python iterates the known-name set and the cookie
   * dict. Set order depends on string hashing; dict order is insertion
   * order, which depends on the records read. Both are inputs, and the
   * header is proved for every enumeration, insertion order included.
   */
  datatype IterationOrder = IterationOrder(knownNames: seq<string>, cookieNames: seq<string>)

  predicate Distinct(names: seq<string>)
  {
    forall i, j :: 0 <= i < j < |names| ==> names[i] != names[j]
  }

  /** `order` lists the known-name set and the keys of `cookies`, each exactly once. */
  predicate Enumerates(order: IterationOrder, cookies: CookieMap)
  {
    && Distinct(order.knownNames) && (set n | n in order.knownNames) == KnownNames
    && Distinct(order.cookieNames) && (set n | n in order.cookieNames) == cookies.Keys
  }

  predicate IsAuthPrefixed(name: string)
  {
    StartsWith(name, "__Host-") || StartsWith(name, "__Secure-")
  }

  /** The parts the first loop appends: each listed known name present in the cookies. */
  function KnownParts(cookies: CookieMap, names: seq<string>): seq<CookiePart>
  {
    if names == [] then []
    else
      var n := names[|names| - 1];
      KnownParts(cookies, names[..|names| - 1]) + (if n in cookies then [CookiePart(n, cookies[n])] else [])
  }

  /** The parts the second loop appends: each `__Host-`/`__Secure-` cookie outside the known set. */
  function PrefixedParts(cookies: CookieMap, names: seq<string>): seq<CookiePart>
  {
    if names == [] then []
    else
      var n := names[|names| - 1];
      PrefixedParts(cookies, names[..|names| - 1])
        + (if n in cookies && IsAuthPrefixed(n) && n !in KnownNames then [CookiePart(n, cookies[n])] else [])
  }

  function CookieParts(cookies: CookieMap, order: IterationOrder): seq<CookiePart>
  {
    KnownParts(cookies, order.knownNames) + PrefixedParts(cookies, order.cookieNames)
  }

  function Render(p: CookiePart): string
  {
    p.name + "=" + p.value
  }

  function RenderAll(parts: seq<CookiePart>): seq<string>
  {
    if parts == [] then [] else RenderAll(parts[..|parts| - 1]) + [Render(parts[|parts| - 1])]
  }

  /** The value of the `Cookie` header: the rendered parts joined by "; ". */
  function CookieHeader(cookies: CookieMap, order: IterationOrder): string
  {
    Join(RenderAll(CookieParts(cookies, order)), "; ")
  }

  lemma RenderAllAppend(parts: seq<CookiePart>, extra: seq<CookiePart>)
    requires |extra| <= 1
    ensures RenderAll(parts + extra) == RenderAll(parts) + RenderAll(extra)
  {
    if extra != [] {
      assert (parts + extra)[..|parts + extra| - 1] == parts;
      assert extra[..0] == [];
      assert RenderAll(extra) == [Render(extra[0])];
    } else {
      assert parts + extra == parts;
    }
  }

  /** `build_cookie_header`. */
  method BuildCookieHeader(cookies: CookieMap, order: IterationOrder) returns (header: string)
    ensures header == CookieHeader(cookies, order)
  {
    var parts: seq<string> := [];
    var known := order.knownNames;
    var i := 0;
    while i < |known|
      invariant 0 <= i <= |known|
      invariant parts == RenderAll(KnownParts(cookies, known[..i]))
    {
      var name := known[i];
      assert known[..i + 1][..i] == known[..i];
      RenderAllAppend(KnownParts(cookies, known[..i]), if name in cookies then [CookiePart(name, cookies[name])] else []);
      if name in cookies {
        parts := parts + [name + "=" + cookies[name]];
      }
      i := i + 1;
    }
    assert known[..i] == known;
    ghost var first := KnownParts(cookies, known);
    var items := order.cookieNames;
    var j := 0;
    assert items[..0] == [] && first + [] == first;
    while j < |items|
      invariant 0 <= j <= |items|
      invariant parts == RenderAll(first + PrefixedParts(cookies, items[..j]))
    {
      var name := items[j];
      assert items[..j + 1][..j] == items[..j];
      var added := if name in cookies && IsAuthPrefixed(name) && name !in KnownNames then [CookiePart(name, cookies[name])] else [];
      assert first + PrefixedParts(cookies, items[..j + 1]) == first + PrefixedParts(cookies, items[..j]) + added;
      RenderAllAppend(first + PrefixedParts(cookies, items[..j]), added);
      if name in cookies && (StartsWith(name, "__Host-") || StartsWith(name, "__Secure-")) && name !in KnownNames {
        parts := parts + [name + "=" + cookies[name]];
      }
      j := j + 1;
    }
    assert items[..j] == items;
    header := Join(parts, "; ");
  }

  lemma {:induction false} KnownPartsMembers(cookies: CookieMap, names: seq<string>, p: CookiePart)
    ensures p in KnownParts(cookies, names) <==> p.name in names && p.name in cookies && p.value == cookies[p.name]
  {
    if names != [] {
      var init := names[..|names| - 1];
      KnownPartsMembers(cookies, init, p);
      assert names == init + [names[|names| - 1]];
    }
  }

  lemma {:induction false} PrefixedPartsMembers(cookies: CookieMap, names: seq<string>, p: CookiePart)
    ensures p in PrefixedParts(cookies, names) <==>
            p.name in names && p.name in cookies && p.value == cookies[p.name]
            && IsAuthPrefixed(p.name) && p.name !in KnownNames
  {
    if names != [] {
      var init := names[..|names| - 1];
      PrefixedPartsMembers(cookies, init, p);
      assert names == init + [names[|names| - 1]];
    }
  }

  predicate DistinctNames(parts: seq<CookiePart>)
  {
    forall i, j :: 0 <= i < j < |parts| ==> parts[i].name != parts[j].name
  }

  lemma {:induction false} KnownPartsDistinct(cookies: CookieMap, names: seq<string>)
    requires Distinct(names)
    ensures DistinctNames(KnownParts(cookies, names))
  {
    if names != [] {
      var init := names[..|names| - 1];
      var n := names[|names| - 1];
      KnownPartsDistinct(cookies, init);
      if n in cookies {
        KnownPartsMembers(cookies, init, CookiePart(n, cookies[n]));
        forall p | p in KnownParts(cookies, init) ensures p.name != n {
          KnownPartsMembers(cookies, init, p);
        }
      }
    }
  }

  lemma {:induction false} PrefixedPartsDistinct(cookies: CookieMap, names: seq<string>)
    requires Distinct(names)
    ensures DistinctNames(PrefixedParts(cookies, names))
  {
    if names != [] {
      var init := names[..|names| - 1];
      var n := names[|names| - 1];
      PrefixedPartsDistinct(cookies, init);
      forall p | p in PrefixedParts(cookies, init) ensures p.name != n {
        PrefixedPartsMembers(cookies, init, p);
      }
    }
  }

  lemma DistinctNamesAppend(a: seq<CookiePart>, b: seq<CookiePart>)
    requires DistinctNames(a) && DistinctNames(b)
    requires forall x, y :: x in a && y in b ==> x.name != y.name
    ensures DistinctNames(a + b)
  {
    var ab := a + b;
    forall i, j | 0 <= i < j < |ab| ensures ab[i].name != ab[j].name {
      if j < |a| {
        assert ab[i] == a[i] && ab[j] == a[j];
      } else if i >= |a| {
        assert ab[i] == b[i - |a|] && ab[j] == b[j - |a|];
      } else {
        assert ab[i] in a && ab[j] in b;
      }
    }
  }

  /** One part is in the header exactly when its cookie is present under a known or prefixed name. */
  lemma CookiePartsMember(cookies: CookieMap, order: IterationOrder, p: CookiePart)
    requires Enumerates(order, cookies)
    ensures p in CookieParts(cookies, order) <==>
            p.name in cookies && p.value == cookies[p.name] && (p.name in KnownNames || IsAuthPrefixed(p.name))
  {
    KnownPartsMembers(cookies, order.knownNames, p);
    PrefixedPartsMembers(cookies, order.cookieNames, p);
    assert p.name in order.knownNames <==> p.name in KnownNames by {
      assert p.name in order.knownNames <==> p.name in (set n | n in order.knownNames);
    }
    assert p.name in order.cookieNames <==> p.name in cookies by {
      assert p.name in order.cookieNames <==> p.name in (set n | n in order.cookieNames);
    }
  }

  /** No cookie name appears twice in the header. */
  lemma CookiePartsDistinct(cookies: CookieMap, order: IterationOrder)
    requires Enumerates(order, cookies)
    ensures DistinctNames(CookieParts(cookies, order))
  {
    var a := KnownParts(cookies, order.knownNames);
    var b := PrefixedParts(cookies, order.cookieNames);
    KnownPartsDistinct(cookies, order.knownNames);
    PrefixedPartsDistinct(cookies, order.cookieNames);
    forall x, y | x in a && y in b ensures x.name != y.name {
      KnownPartsMembers(cookies, order.knownNames, x);
      PrefixedPartsMembers(cookies, order.cookieNames, y);
      assert x.name in (set n | n in order.knownNames);
    }
    DistinctNamesAppend(a, b);
  }

  /**
   * The `Cookie` header holds `name=value` for every present known name and
   * every present `__Host-`/`__Secure-` name outside the known set, no other
   * cookie, and no name twice.
   */
  lemma CookieHeaderParts(cookies: CookieMap, order: IterationOrder)
    requires Enumerates(order, cookies)
    ensures forall p: CookiePart :: p in CookieParts(cookies, order) <==>
              p.name in cookies && p.value == cookies[p.name] && (p.name in KnownNames || IsAuthPrefixed(p.name))
    ensures DistinctNames(CookieParts(cookies, order))
  {
    forall p: CookiePart ensures p in CookieParts(cookies, order) <==>
        p.name in cookies && p.value == cookies[p.name] && (p.name in KnownNames || IsAuthPrefixed(p.name))
    {
      CookiePartsMember(cookies, order, p);
    }
    CookiePartsDistinct(cookies, order);
  }

  // ---------------------------------------------------------------------------
  // Fetching the cookie set
  // ---------------------------------------------------------------------------

  /**
   * The wording checks applied to a failed read of Chrome's cookie store:
   * a locked database, a permission problem, or else a generic failure that
   * carries the original message.
   */
  function ClassifyReadFailure(message: string): (e: CookieError)
    ensures e.DatabaseLocked? || e.PermissionDenied? || e == ChromeUnreadable(message)
    ensures e.DatabaseLocked? <==> Contains(AsciiLower(message), "locked") || Contains(AsciiLower(message), "busy")
                                   || Contains(AsciiLower(message), "unable to open")
    ensures e.PermissionDenied? <==> !e.DatabaseLocked?
                                     && (Contains(AsciiLower(message), "permission") || Contains(AsciiLower(message), "access"))
  {
    var text := AsciiLower(message);
    if Contains(text, "locked") || Contains(text, "busy") || Contains(text, "unable to open") then DatabaseLocked
    else if Contains(text, "permission") || Contains(text, "access") then PermissionDenied
    else ChromeUnreadable(message)
  }

  /** The wording checks ignore the case of ASCII letters. */
  lemma {:induction false} ClassificationIgnoresCase(message: string)
    ensures ClassifyReadFailure(AsciiLower(message)).DatabaseLocked? == ClassifyReadFailure(message).DatabaseLocked?
    ensures ClassifyReadFailure(AsciiLower(message)).PermissionDenied? == ClassifyReadFailure(message).PermissionDenied?
  {
    assert AsciiLower(AsciiLower(message)) == AsciiLower(message);
  }

  /** A cookie set the cache may hold: non-empty entries and a signing credential. */
  predicate UsableCookies(cookies: CookieMap)
  {
    && (forall n :: n in cookies ==> n != "" && cookies[n] != "")
    && SigningValue(cookies).Some?
  }

  /** Lines 85-126 of `get_google_cookies`: read, filter, and insist on a signing credential. */
  function FetchCookies(read: ChromeRead): (r: Result<CookieMap, CookieError>)
    ensures r.Success? ==> UsableCookies(r.value)
    ensures r.Success? <==> read.Extracted? && SigningValue(CookieMapOf(read.records)).Some?
    ensures r.Success? ==> r.value == CookieMapOf(read.records)
    ensures read.Extracted? && r.Failure? ==> r.error == SessionCookiesNotFound
    ensures read.ExtractionFailed? ==> r == Failure(ClassifyReadFailure(read.message))
  {
    match read
    case ExtractionFailed(message) => Failure(ClassifyReadFailure(message))
    case Extracted(records) =>
      var cookies := CookieMapOf(records);
      SessionCredentialIsSigningValue(cookies);
      CookieMapEntriesNonEmpty(records);
      if SessionCredential(cookies).None? then Failure(SessionCookiesNotFound)
      else Success(cookies)
  }

  // ---------------------------------------------------------------------------
  // The cache
  // ---------------------------------------------------------------------------

  /** The one slot of the source's `_cache`: the stored cookie set and its expiry time. */
  datatype CacheEntry = CacheEntry(data: Option<CookieMap>, expires: real)

  /** The slot after `clear_cookie_cache`, and initially. */
  const Cleared: CacheEntry := CacheEntry(None, 0.0)

  /** The slot after `_set_cache(cookies)` at time `now`. */
  function Stored(cookies: CookieMap, now: real): CacheEntry
  {
    CacheEntry(Some(cookies), now + CacheTtl)
  }

  /** `_is_cached`: something is stored and it has not expired (strictly). */
  predicate IsHit(e: CacheEntry, now: real)
  {
    e.data.Some? && now < e.expires
  }

  /** `_get_cache`. */
  function Lookup(e: CacheEntry, now: real): Option<CookieMap>
  {
    if IsHit(e, now) then e.data else None
  }

  /** After storing at time `t`, lookups succeed for every clock value below `t + 300` and fail from then on. */
  lemma LookupAfterStore(cookies: CookieMap, t: real, now: real)
    ensures Lookup(Stored(cookies, t), now) == if now < t + CacheTtl then Some(cookies) else None
  {
  }

  /** After a clear, every lookup misses. */
  lemma LookupAfterClear(now: real)
    ensures Lookup(Cleared, now) == None
  {
  }

  predicate ValidEntry(e: CacheEntry)
  {
    e.data.Some? ==> UsableCookies(e.data.value)
  }

  /**
   * `get_google_cookies(force_refresh)` as a transition of the cache slot:
   * the result it returns and the slot it leaves behind.
   */
  function GoogleCookies(e: CacheEntry, forceRefresh: bool, now: real, read: ChromeRead): (Result<CookieMap, CookieError>, CacheEntry)
  {
    var cached := Lookup(e, now);
    if !forceRefresh && cached.Some? && |cached.value| > 0 then (Success(cached.value), e)
    else
      var r := FetchCookies(read);
      if r.Success? then (r, Stored(r.value, now)) else (r, e)
  }

  /** Without `force_refresh`, a live cached cookie set is returned and nothing is read or stored. */
  lemma CacheHitServesCachedCookies(e: CacheEntry, now: real, read: ChromeRead)
    requires ValidEntry(e) && IsHit(e, now)
    ensures GoogleCookies(e, false, now, read) == (Success(e.data.value), e)
  {
    var m := e.data.value;
    var v := SigningValue(m).value;
    assert v in m.Values;
    var n :| n in m && m[n] == v;
    assert n in m.Keys;
  }

  /**
   * With `force_refresh`, or on a miss, the result is what reading Chrome
   * gives; a failure leaves the slot as it was, a success stores exactly the
   * returned map, stamped with the current time.
   */
  lemma RefreshReadsChrome(e: CacheEntry, forceRefresh: bool, now: real, read: ChromeRead)
    requires forceRefresh || !IsHit(e, now)
    ensures GoogleCookies(e, forceRefresh, now, read).0 == FetchCookies(read)
    ensures var (r, e') := GoogleCookies(e, forceRefresh, now, read);
            if r.Success? then e' == Stored(r.value, now) else e' == e
  {
  }

  /** Every transition keeps the slot holding only usable cookie sets, and every success is usable. */
  lemma GoogleCookiesKeepsValid(e: CacheEntry, forceRefresh: bool, now: real, read: ChromeRead)
    requires ValidEntry(e)
    ensures ValidEntry(GoogleCookies(e, forceRefresh, now, read).1)
    ensures GoogleCookies(e, forceRefresh, now, read).0.Success? ==>
              UsableCookies(GoogleCookies(e, forceRefresh, now, read).0.value)
  {
  }

  /** The process-wide cookie cache: the source's `_cache["google"]` slot. */
  class CookieCache {
    var data: Option<CookieMap>
    var expires: real

    function Entry(): CacheEntry
      reads this
    {
      CacheEntry(data, expires)
    }

    /** The cache only ever holds a cookie set with a signing credential. */
    predicate Valid()
      reads this
    {
      ValidEntry(Entry())
    }

    constructor ()
      ensures Entry() == Cleared && Valid()
    {
      data := None;
      expires := 0.0;
    }

    /** `_is_cached`. */
    method IsCached(now: real) returns (hit: bool)
      ensures hit <==> data.Some? && now < expires
    {
      hit := data.Some? && now < expires;
    }

    /** `_get_cache`. */
    method GetCache(now: real) returns (r: Option<CookieMap>)
      ensures r == Lookup(Entry(), now)
    {
      var hit := IsCached(now);
      r := if hit then data else None;
    }

    /** `_set_cache`; only a usable cookie set is ever stored. */
    method SetCache(cookies: CookieMap, now: real)
      requires UsableCookies(cookies)
      modifies this
      ensures Entry() == Stored(cookies, now) && Valid()
    {
      data := Some(cookies);
      expires := now + CacheTtl;
    }

    /** `clear_cookie_cache`. */
    method ClearCookieCache()
      modifies this
      ensures Entry() == Cleared && Valid()
    {
      data := None;
      expires := 0.0;
    }

    /** `get_google_cookies`, with the outcome of reading Chrome passed in. */
    method GetGoogleCookies(forceRefresh: bool, now: real, read: ChromeRead) returns (r: Result<CookieMap, CookieError>)
      requires Valid()
      modifies this
      ensures (r, Entry()) == GoogleCookies(old(Entry()), forceRefresh, now, read)
      ensures Valid()
    {
      if !forceRefresh {
        var cached := GetCache(now);
        if cached.Some? && |cached.value| > 0 {
          return Success(cached.value);
        }
      }
      match read {
        case ExtractionFailed(message) =>
          return Failure(ClassifyReadFailure(message));
        case Extracted(records) =>
          var cookies := BuildCookieMap(records);
          SessionCredentialIsSigningValue(cookies);
          if SessionCredential(cookies).None? {
            return Failure(SessionCookiesNotFound);
          }
          CookieMapEntriesNonEmpty(records);
          SetCache(cookies, now);
          return Success(cookies);
      }
    }
  }
}
