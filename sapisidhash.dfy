/**
 * The SAPISIDHASH authorization scheme and the header set sent with every
 * Search Console request.
 *
 * The signature is `SAPISIDHASH {ts}_{sha1("{ts} {sapisid} {origin}")}`.
 * SHA-1 is not modelled: it is the `sha1` parameter, a function from the
 * message to its hex digest. The timestamp `int(time.time())` is the
 * `timestamp` parameter.
 */
module SapisidHash {
  import opened Wrappers
  import opened PyText
  import opened ChromeCookies

  /** Search Console API origin, the default `origin`. */
  const GscOrigin: string := "https://searchconsole.googleapis.com"

  const ChromeUserAgent: string :=
    "Mozilla/5.0 (Macintosh; Intel Mac OS X 10_15_7) AppleWebKit/537.36 (KHTML, like Gecko) Chrome/121.0.0.0 Safari/537.36"

  /** The scheme word that opens the `Authorization` value. */
  const Scheme: string := "SAPISIDHASH "

  /** SHA-1 of the UTF-8 encoding of a message, as `hexdigest()` prints it. */
  type Sha1Hex = string -> string

  /** 40 lowercase hexadecimal digits: the shape of a SHA-1 `hexdigest()`. */
  predicate IsHexDigest(d: string)
  {
    |d| == 40 && forall i :: 0 <= i < |d| ==> d[i] in "0123456789abcdef"
  }

  /** The message that is hashed: timestamp, space, credential, space, origin. */
  function SignedMessage(timestamp: nat, sapisid: string, origin: string): string
  {
    Decimal(timestamp) + " " + sapisid + " " + origin
  }

  /**
   * Reads an `Authorization` value back into its timestamp and digest. The
   * timestamp must be written as `str` writes it (no leading zero), so that
   * its text is the text that was signed.
   */
  function ParseSapisidhash(h: string): Option<(nat, string)>
  {
    if !StartsWith(h, Scheme) then None
    else
      var rest := h[|Scheme|..];
      var n := LeadingDigits(rest);
      if n == 0 || n == |rest| || rest[n] != '_' || (n > 1 && rest[0] == '0') then None
      else Some((DecimalValue(rest[..n]), rest[n + 1..]))
  }

  /** The scheme, the decimal timestamp, `_` and the digest, read back as written. */
  lemma ParseFormatted(timestamp: nat, digest: string)
    ensures ParseSapisidhash(Scheme + Decimal(timestamp) + "_" + digest) == Some((timestamp, digest))
  {
    var d := Decimal(timestamp);
    var h := Scheme + d + "_" + digest;
    assert h[..|Scheme|] == Scheme;
    var rest := h[|Scheme|..];
    assert rest == d + ("_" + digest);
    LeadingDigitsAfter(d, "_" + digest);
    assert rest[..|d|] == d;
    assert rest[|d| + 1..] == digest;
    DecimalRoundTrip(timestamp);
  }

  /** Every value the parser accepts is exactly `SAPISIDHASH {ts}_{digest}` for what it reads. */
  lemma ParsedIsFormatted(h: string)
    requires ParseSapisidhash(h).Some?
    ensures h == Scheme + Decimal(ParseSapisidhash(h).value.0) + "_" + ParseSapisidhash(h).value.1
  {
    var rest := h[|Scheme|..];
    var n := LeadingDigits(rest);
    var digits := rest[..n];
    assert ParseSapisidhash(h) == Some((DecimalValue(digits), rest[n + 1..]));
    assert digits[0] == rest[0];
    assert CanonicalDigits(digits);
    DecimalOfValue(digits);
    assert rest == digits + "_" + rest[n + 1..];
    assert h[..|Scheme|] == Scheme;
    assert h == h[..|Scheme|] + rest;
  }

  /** A well-formed value: `SAPISIDHASH `, decimal digits, `_`, and a SHA-1 hex digest. */
  predicate WellFormedSapisidhash(h: string)
  {
    var parsed := ParseSapisidhash(h);
    parsed.Some? && IsHexDigest(parsed.value.1)
  }

  /** `compute_sapisidhash`. */
  function ComputeSapisidhash(sapisid: string, origin: string, timestamp: nat, sha1: Sha1Hex): (r: string)
    ensures ParseSapisidhash(r) == Some((timestamp, sha1(SignedMessage(timestamp, sapisid, origin))))
    ensures IsHexDigest(sha1(SignedMessage(timestamp, sapisid, origin))) ==> WellFormedSapisidhash(r)
  {
    var digest := sha1(SignedMessage(timestamp, sapisid, origin));
    ParseFormatted(timestamp, digest);
    Scheme + Decimal(timestamp) + "_" + digest
  }

  /**
   * The parse-back contract of `ComputeSapisidhash` pins the value exactly:
   * any string that reads back as its timestamp and digest is that value.
   */
  lemma SapisidhashDeterminedByParse(h: string, sapisid: string, origin: string, timestamp: nat, sha1: Sha1Hex)
    requires ParseSapisidhash(h) == Some((timestamp, sha1(SignedMessage(timestamp, sapisid, origin))))
    ensures h == ComputeSapisidhash(sapisid, origin, timestamp, sha1)
  {
    ParsedIsFormatted(h);
  }

  /** Signatures made at different seconds differ, whatever the credential, origin and hash. */
  lemma DistinctTimestampsDistinctSignatures(sapisid: string, origin: string, t1: nat, t2: nat, sha1: Sha1Hex)
    requires t1 != t2
    ensures ComputeSapisidhash(sapisid, origin, t1, sha1) != ComputeSapisidhash(sapisid, origin, t2, sha1)
  {
  }

  /** The names of the headers `get_gsc_auth_headers` returns. */
  const HeaderNames: set<string> := {
    "Authorization", "Cookie", "X-Origin", "X-Referer", "Origin", "Referer",
    "Content-Type", "User-Agent", "Accept", "Accept-Language", "X-Goog-Authuser"
  }

  /** `get_gsc_auth_headers` for a given cookie set. */
  function GetGscAuthHeaders(cookies: CookieMap, origin: string, timestamp: nat, sha1: Sha1Hex, order: IterationOrder)
    : (r: Result<map<string, string>, CookieError>)
    ensures r.Failure? <==> forall i :: 0 <= i < |SigningNames| ==> !HasValue(cookies, SigningNames[i])
    ensures r.Failure? ==> r.error == SapisidNotFound
    ensures r.Success? ==> r.value.Keys == HeaderNames
    ensures r.Success? ==>
              ParseSapisidhash(r.value["Authorization"])
              == Some((timestamp, sha1(SignedMessage(timestamp, SigningValue(cookies).value, origin))))
    ensures r.Success? ==> r.value["Cookie"] == CookieHeader(cookies, order)
    ensures r.Success? ==>
              && r.value["X-Origin"] == origin && r.value["X-Referer"] == origin && r.value["Origin"] == origin
              && r.value["Referer"] == origin + "/search-console/"
    ensures r.Success? ==>
              && r.value["Content-Type"] == "application/json" && r.value["User-Agent"] == ChromeUserAgent
              && r.value["Accept"] == "*/*" && r.value["Accept-Language"] == "en-US,en;q=0.9"
              && r.value["X-Goog-Authuser"] == "0"
  {
    match SigningValue(cookies)
    case None => Failure(SapisidNotFound)
    case Some(sapisid) =>
      Success(HeaderMap(ComputeSapisidhash(sapisid, origin, timestamp, sha1), CookieHeader(cookies, order), origin))
  }

  /** The header dict literal of `get_gsc_auth_headers`. */
  function HeaderMap(authorization: string, cookie: string, origin: string): (h: map<string, string>)
    ensures h.Keys == HeaderNames
    ensures h["Authorization"] == authorization && h["Cookie"] == cookie
    ensures h["X-Origin"] == origin && h["X-Referer"] == origin && h["Origin"] == origin
    ensures h["Referer"] == origin + "/search-console/"
    ensures h["Content-Type"] == "application/json" && h["User-Agent"] == ChromeUserAgent
    ensures h["Accept"] == "*/*" && h["Accept-Language"] == "en-US,en;q=0.9" && h["X-Goog-Authuser"] == "0"
  {
    map[
      "Authorization" := authorization,
      "Cookie" := cookie,
      "X-Origin" := origin,
      "X-Referer" := origin,
      "Origin" := origin,
      "Referer" := origin + "/search-console/",
      "Content-Type" := "application/json",
      "User-Agent" := ChromeUserAgent,
      "Accept" := "*/*",
      "Accept-Language" := "en-US,en;q=0.9",
      "X-Goog-Authuser" := "0"
    ]
  }

  /** The `Authorization` header signs with the preferred credential of the three. */
  lemma AuthorizationUsesPreferredCredential(cookies: CookieMap, origin: string, timestamp: nat, sha1: Sha1Hex, order: IterationOrder)
    requires HasValue(cookies, "SAPISID") || HasValue(cookies, "__Secure-3PAPISID") || HasValue(cookies, "__Secure-1PAPISID")
    ensures var r := GetGscAuthHeaders(cookies, origin, timestamp, sha1, order);
            var preferred := if HasValue(cookies, "SAPISID") then cookies["SAPISID"]
                             else if HasValue(cookies, "__Secure-3PAPISID") then cookies["__Secure-3PAPISID"]
                             else cookies["__Secure-1PAPISID"];
            r.Success? && ParseSapisidhash(r.value["Authorization"])
                          == Some((timestamp, sha1(SignedMessage(timestamp, preferred, origin))))
  {
    SessionCredentialIsSigningValue(cookies);
  }

  /**
   * `validate_gsc_auth`: fetch the cookies through the cache and try to
   * build the headers; true exactly when that raises nothing.
   */
  method ValidateGscAuth(cache: CookieCache, now: real, read: ChromeRead, timestamp: nat, sha1: Sha1Hex, order: IterationOrder)
    returns (ok: bool)
    requires cache.Valid()
    modifies cache
    ensures ok == GoogleCookies(old(cache.Entry()), false, now, read).0.Success?
    ensures cache.Entry() == GoogleCookies(old(cache.Entry()), false, now, read).1 && cache.Valid()
  {
    GoogleCookiesKeepsValid(cache.Entry(), false, now, read);
    var cookies := cache.GetGoogleCookies(false, now, read);
    if cookies.Failure? {
      return false;
    }
    var headers := GetGscAuthHeaders(cookies.value, GscOrigin, timestamp, sha1, order);
    ok := headers.Success?;
  }
}
