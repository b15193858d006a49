/** Connection-parameter validation of the InfluxDB servers, and the
    query tool's rule that every failure becomes an error result. The
    database itself is a parameter: the outcome of running the query. */
module InfluxClient {
  import opened Results
  import opened Strings

  // ---------------------------------------------------------------------
  // The scheme `urllib.parse.urlparse` reports, with the rules of
  // `urlsplit` in CPython 3.11.4 and later (and the matching security
  // releases of older branches). Interpreters without those fixes do not
  // strip the leading blanks, so `" https://h"` has no scheme there, and
  // the oldest ones do not delete tab and line breaks either.

  /** The characters `urlsplit` strips from the front: C0 controls and space. */
  predicate IsC0OrSpace(c: char) {
    c <= ' '
  }

  /** Tab, carriage return and line feed, which `urlsplit` deletes everywhere. */
  predicate IsUnsafe(c: char) {
    c == '\t' || c == '\r' || c == '\n'
  }

  predicate IsAsciiLetter(c: char) {
    ('a' <= c <= 'z') || ('A' <= c <= 'Z')
  }

  /** Letters, digits, `+`, `-` and `.`. */
  predicate IsSchemeChar(c: char) {
    IsAsciiLetter(c) || IsDigit(c) || c == '+' || c == '-' || c == '.'
  }

  /** `s` with every unsafe character deleted. */
  function RemoveUnsafe(s: string): (r: string)
    ensures |r| <= |s|
    ensures forall k :: 0 <= k < |r| ==> !IsUnsafe(r[k])
    decreases |s|
  {
    if |s| == 0 then ""
    else (if IsUnsafe(s[0]) then "" else [s[0]]) + RemoveUnsafe(s[1..])
  }

  /** Deleting unsafe characters works piece by piece and keeps the others. */
  lemma {:induction false} RemoveUnsafeAppend(a: string, b: string)
    ensures RemoveUnsafe(a + b) == RemoveUnsafe(a) + RemoveUnsafe(b)
    decreases |a|
  {
    if |a| > 0 {
      assert (a + b)[0] == a[0];
      assert (a + b)[1..] == a[1..] + b;
      RemoveUnsafeAppend(a[1..], b);
    } else {
      assert a + b == b;
    }
  }

  lemma {:induction false} RemoveUnsafeKeeps(s: string)
    requires forall k :: 0 <= k < |s| ==> !IsUnsafe(s[k])
    ensures RemoveUnsafe(s) == s
    decreases |s|
  {
    if |s| > 0 {
      RemoveUnsafeKeeps(s[1..]);
    }
  }

  /** A well-formed scheme: a letter followed by scheme characters. */
  predicate IsSchemeWord(w: string) {
    |w| > 0 && IsAsciiLetter(w[0]) && forall k :: 0 <= k < |w| ==> IsSchemeChar(w[k])
  }

  /** The scheme `urlparse(url)` reports, lower-cased, when it does not
      raise (see `SplitError`); empty when the URL has none. A missing URL
      parses as the empty string. */
  function UrlScheme(url: Option<string>): (scheme: string)
    ensures scheme == "" || IsSchemeWord(scheme)
    ensures forall k :: 0 <= k < |scheme| ==> !IsAsciiUpper(scheme[k])
  {
    var u := RemoveUnsafe(TrimLeft(url.GetOr(""), IsC0OrSpace));
    if ':' in u then
      var i := IndexOf(u, ':');
      if IsSchemeWord(u[..i]) then
        Lower(u[..i])
      else ""
    else ""
  }

  /** A URL spelled `scheme:rest` that `urlsplit` accepts reports its
      scheme lower-cased (so `HTTPS://host` is `https`); leading spaces and
      control characters do not matter. */
  lemma UrlSchemeOf(lead: string, w: string, rest: string)
    requires forall k :: 0 <= k < |lead| ==> IsC0OrSpace(lead[k])
    requires IsSchemeWord(w)
    ensures UrlScheme(Some(lead + w + ":" + rest)) == Lower(w)
  {
    var t := w + ":" + rest;
    SplitLead(lead, w, rest);
    TrimLeftPrefix(lead, t);
    assert t[0] == w[0];
    assert TrimLeft(t, IsC0OrSpace) == t;
    SameTrimSameScheme(lead + t, t);
    UrlSchemeOfWord(w, rest);
  }

  lemma SplitLead(lead: string, w: string, rest: string)
    ensures lead + w + ":" + rest == lead + (w + ":" + rest)
  {
  }

  /** The scheme depends only on what remains after the leading trim. */
  lemma SameTrimSameScheme(a: string, b: string)
    requires TrimLeft(a, IsC0OrSpace) == TrimLeft(b, IsC0OrSpace)
    ensures UrlScheme(Some(a)) == UrlScheme(Some(b))
  {
  }

  /** Deleting unsafe characters leaves a scheme word and its colon alone. */
  lemma CleanSchemePrefix(w: string, rest: string)
    requires IsSchemeWord(w)
    ensures RemoveUnsafe(w + ":" + rest) == w + ":" + RemoveUnsafe(rest)
  {
    forall k | 0 <= k < |w + ":"|
      ensures !IsUnsafe((w + ":")[k])
    {
      if k < |w| {
        assert IsSchemeChar(w[k]);
      }
    }
    RemoveUnsafeKeeps(w + ":");
    RemoveUnsafeAppend(w + ":", rest);
  }

  /** In `w:x` the first colon ends the scheme word. */
  lemma SchemeColon(w: string, x: string)
    requires IsSchemeWord(w)
    ensures var u := w + ":" + x; ':' in u && IndexOf(u, ':') == |w| && u[..|w|] == w
  {
    var u := w + ":" + x;
    assert u[|w|] == ':';
    forall k | 0 <= k < |w|
      ensures u[k] != ':'
    {
      assert u[k] == w[k] && IsSchemeChar(w[k]);
    }
    IndexOfFirst(u, ':', |w|);
    assert u[..|w|] == w;
  }

  /** Trimming a prefix of trimmable characters before a non-trimmable start. */
  lemma {:induction false} TrimLeftPrefix(lead: string, t: string)
    requires forall k :: 0 <= k < |lead| ==> IsC0OrSpace(lead[k])
    requires |t| > 0 && !IsC0OrSpace(t[0])
    ensures TrimLeft(lead + t, IsC0OrSpace) == t
    decreases |lead|
  {
    if |lead| > 0 {
      assert (lead + t)[1..] == lead[1..] + t;
      TrimLeftPrefix(lead[1..], t);
    } else {
      assert lead + t == t;
    }
  }

  /** A URL without a colon has no scheme. */
  lemma NoColonNoScheme(url: string)
    requires ':' !in url
    ensures UrlScheme(Some(url)) == ""
  {
    var t := TrimLeft(url, IsC0OrSpace);
    assert ':' !in t;
    RemoveUnsafeSubset(t);
  }

  lemma {:induction false} RemoveUnsafeSubset(s: string)
    ensures forall c :: c in RemoveUnsafe(s) ==> c in s
    decreases |s|
  {
    if |s| > 0 {
      RemoveUnsafeSubset(s[1..]);
    }
  }

  /** `urlparse(None)` parses the empty string. */
  lemma MissingUrlHasNoScheme()
    ensures UrlScheme(None) == ""
  {
    assert TrimLeft("", IsC0OrSpace) == "";
    assert RemoveUnsafe("") == "";
  }

  // ---------------------------------------------------------------------
  // get_influxdb_client

  /** The arguments the client is constructed with. */
  datatype ClientConfig = ClientConfig(url: string, token: string, org: string, timeoutMs: int, verifySsl: bool)

  /** The `ValueError` message `urlsplit` raises for a URL it refuses to
      split, if any: a malformed bracketed IPv6 host, or a non-ASCII host
      part whose NFKC normal form contains `/`, `?`, `#`, `@` or `:`. NFKC
      normalisation is not modelled, so `splitError` is the outcome of that
      check on the URL text. A missing URL parses without error. */
  function SplitError(url: Option<string>, splitError: string -> Option<string>): Option<string> {
    if url.Some? then splitError(url.value) else None
  }

  const DefaultTimeoutMs: int := 10000
  const SchemeError: string := "URL must use HTTP(S) protocol"
  const TokenError: string := "Token must be provided"

  predicate IsHttpScheme(scheme: string) {
    scheme == "http" || scheme == "https"
  }

  /** A token is usable when it is present and non-empty (Python truthiness). */
  predicate HasToken(token: Option<string>) {
    token.Some? && |token.value| > 0
  }

  /** `get_influxdb_client`: `urlparse` may raise first, then the scheme
      is checked, then the token; a missing org becomes the empty string. A
      `ValueError` is a failure carrying its message. */
  function GetInfluxDbClient(url: Option<string>, token: Option<string>, org: Option<string>, timeoutMs: int, verifySsl: bool,
                             splitError: string -> Option<string>)
    : (r: Result<ClientConfig, string>)
    ensures SplitError(url, splitError).Some? ==> r == Failure(SplitError(url, splitError).value)
    ensures SplitError(url, splitError).None? ==>
              && (r == Failure(SchemeError) <==> !IsHttpScheme(UrlScheme(url)))
              && (r == Failure(TokenError) <==> IsHttpScheme(UrlScheme(url)) && !HasToken(token))
    ensures r.Failure? ==> r.error == SchemeError || r.error == TokenError || Some(r.error) == SplitError(url, splitError)
    ensures r.Success? ==>
              && Some(r.value.url) == url
              && Some(r.value.token) == token && |r.value.token| > 0
              && (org.Some? ==> r.value.org == org.value)
              && (org.None? ==> r.value.org == "")
              && r.value.timeoutMs == timeoutMs
              && r.value.verifySsl == verifySsl
  {
    var scheme := UrlScheme(url);
    if SplitError(url, splitError).Some? then Failure(SplitError(url, splitError).value)
    else if !IsHttpScheme(scheme) then Failure(SchemeError)
    else if !HasToken(token) then Failure(TokenError)
    else
      MissingUrlHasNoScheme();
      Success(ClientConfig(url.value, token.value, if org.Some? then org.value else "", timeoutMs, verifySsl))
  }

  /** The client is built exactly for a URL that `urlsplit` accepts, with an
      http(s) scheme, and a non-empty token. */
  lemma ClientAccepted(url: Option<string>, token: Option<string>, org: Option<string>, timeoutMs: int, verifySsl: bool,
                       splitError: string -> Option<string>)
    ensures GetInfluxDbClient(url, token, org, timeoutMs, verifySsl, splitError).Success? <==>
              SplitError(url, splitError).None? && IsHttpScheme(UrlScheme(url)) && HasToken(token)
  {
  }

  /** The same without leading characters. */
  lemma UrlSchemeOfWord(w: string, rest: string)
    requires IsSchemeWord(w)
    ensures UrlScheme(Some(w + ":" + rest)) == Lower(w)
  {
    var t := w + ":" + rest;
    assert t[0] == w[0];
    assert TrimLeft(t, IsC0OrSpace) == t;
    CleanSchemePrefix(w, rest);
    SchemeColon(w, RemoveUnsafe(rest));
  }

  /** An `ftp:` URL reports the scheme `ftp`. */
  lemma FtpScheme(rest: string)
    ensures UrlScheme(Some("ftp:" + rest)) == "ftp"
  {
    FtpWord(rest);
    UrlSchemeOfWord("ftp", rest);
  }

  lemma FtpWord(rest: string)
    ensures IsSchemeWord("ftp") && Lower("ftp") == "ftp"
    ensures "ftp:" + rest == "ftp" + ":" + rest
  {
    var w := "ftp";
    assert w[0] == 'f' && w[1] == 't' && w[2] == 'p';
    var l := Lower(w);
    assert l[0] == 'f' && l[1] == 't' && l[2] == 'p';
    assert "ftp:" == w + ":";
  }

  /** A bad scheme with no token reports the scheme, not the token. */
  lemma SchemeCheckedFirst(rest: string, timeoutMs: int, verifySsl: bool, splitError: string -> Option<string>)
    requires splitError("ftp:" + rest).None?
    ensures GetInfluxDbClient(Some("ftp:" + rest), Some(""), None, timeoutMs, verifySsl, splitError) == Failure(SchemeError)
  {
    FtpScheme(rest);
    assert !IsHttpScheme("ftp");
  }

  /** An upper-case HTTPS URL with a token is accepted and a missing org becomes `""`. */
  lemma UpperCaseHttpsAccepted(rest: string, token: string, splitError: string -> Option<string>)
    requires splitError("HTTPS:" + rest).None?
    requires |token| > 0
    ensures GetInfluxDbClient(Some("HTTPS:" + rest), Some(token), None, DefaultTimeoutMs, false, splitError)
              == Success(ClientConfig("HTTPS:" + rest, token, "", 10000, false))
  {
    HttpsScheme(rest);
  }

  /** An `HTTPS:` URL reports the scheme `https`. */
  lemma HttpsScheme(rest: string)
    ensures UrlScheme(Some("HTTPS:" + rest)) == "https"
  {
    HttpsWord(rest);
    UrlSchemeOfWord("HTTPS", rest);
  }

  lemma HttpsWord(rest: string)
    ensures IsSchemeWord("HTTPS") && Lower("HTTPS") == "https"
    ensures "HTTPS:" + rest == "HTTPS" + ":" + rest
  {
    var w := "HTTPS";
    assert w[0] == 'H' && w[1] == 'T' && w[2] == 'T' && w[3] == 'P' && w[4] == 'S';
    var l := Lower(w);
    assert l[0] == 'h' && l[1] == 't' && l[2] == 't' && l[3] == 'p' && l[4] == 's';
    assert "HTTPS:" == w + ":";
  }

  /** A host name alone, without a scheme, is refused. */
  lemma BareHostRefused(host: string, token: Option<string>, splitError: string -> Option<string>)
    requires splitError(host).None?
    requires ':' !in host
    ensures GetInfluxDbClient(Some(host), token, None, DefaultTimeoutMs, false, splitError) == Failure(SchemeError)
  {
    NoColonNoScheme(host);
  }

  // ---------------------------------------------------------------------
  // influxdb_query

  /** What the tool returns: the records and the `json` format tag, or the
      text of whatever went wrong. */
  datatype QueryResponse<R> = QuerySuccess(result: seq<R>, format: string) | QueryFailure(message: string)

  /** `True`/`False` where Python expects a number. */
  function BoolAsInt(b: bool): int {
    if b then 1 else 0
  }

  /** The client `influxdb_query` asks for, as written: `verify_ssl` is
      passed fourth, which is the timeout position, and the client's own
      `verify_ssl` keeps its default `False`. */
  function QueryClient(url: Option<string>, token: Option<string>, org: Option<string>, verifySsl: bool,
                       splitError: string -> Option<string>)
    : Result<ClientConfig, string>
  {
    GetInfluxDbClient(url, token, org, BoolAsInt(verifySsl), false, splitError)
  }

  /** `influxdb_query`. `run` is the outcome of running the query on the
      client, one row per record or the error it raised. No failure
      escapes: every error becomes an error result with its message. */
  function InfluxDbQuery<R>(url: Option<string>, token: Option<string>, org: Option<string>, verifySsl: bool,
                            splitError: string -> Option<string>,
                            run: ClientConfig -> Result<seq<R>, string>): (r: QueryResponse<R>)
    ensures var client := QueryClient(url, token, org, verifySsl, splitError);
            && (client.Failure? ==> r == QueryFailure(client.error))
            && (client.Success? ==>
                  match run(client.value)
                  case Failure(e) => r == QueryFailure(e)
                  case Success(rows) => r == QuerySuccess(rows, "json"))
    ensures r.QuerySuccess? ==> r.format == "json"
  {
    QueryWith(QueryClient(url, token, org, verifySsl, splitError), run)
  }

  /** Running the query on a client, or reporting why there is none. */
  function QueryWith<R>(client: Result<ClientConfig, string>, run: ClientConfig -> Result<seq<R>, string>): QueryResponse<R> {
    match client
    case Failure(e) => QueryFailure(e)
    case Success(c) =>
      match run(c)
      case Failure(e) => QueryFailure(e)
      case Success(rows) => QuerySuccess(rows, "json")
  }

  /** Validation failures reach the caller as error results, with their message. */
  lemma QueryReportsValidation(url: Option<string>, org: Option<string>, verifySsl: bool,
                               splitError: string -> Option<string>, run: ClientConfig -> Result<seq<int>, string>)
    requires SplitError(url, splitError).None?
    requires IsHttpScheme(UrlScheme(url))
    ensures InfluxDbQuery(url, None, org, verifySsl, splitError, run) == QueryFailure(TokenError)
  {
  }

  /** A URL `urlsplit` refuses reaches the caller as an error result with the
      `ValueError` message, whatever the token, and no query runs. */
  lemma QueryReportsMalformedUrl(url: string, token: Option<string>, org: Option<string>, verifySsl: bool,
                                 splitError: string -> Option<string>, run: ClientConfig -> Result<seq<int>, string>)
    requires splitError(url).Some?
    ensures InfluxDbQuery(Some(url), token, org, verifySsl, splitError, run) == QueryFailure(splitError(url).value)
  {
  }

  /** As written, asking for certificate verification yields a client that
      does not verify and times out after one millisecond. */
  lemma QueryClientDropsVerification(url: Option<string>, token: Option<string>, org: Option<string>,
                                     splitError: string -> Option<string>)
    requires SplitError(url, splitError).None?
    requires IsHttpScheme(UrlScheme(url)) && HasToken(token)
    ensures QueryClient(url, token, org, true, splitError).Success?
    ensures QueryClient(url, token, org, true, splitError).value.verifySsl == false
    ensures QueryClient(url, token, org, true, splitError).value.timeoutMs == 1
  {
  }

  /** The client evidently intended: `verify_ssl` passed by name, the
      timeout left at its default. */
  function IntendedQueryClient(url: Option<string>, token: Option<string>, org: Option<string>, verifySsl: bool,
                               splitError: string -> Option<string>)
    : Result<ClientConfig, string>
  {
    GetInfluxDbClient(url, token, org, DefaultTimeoutMs, verifySsl, splitError)
  }

  /** `influxdb_query` with the intended client. */
  function InfluxDbQueryIntended<R>(url: Option<string>, token: Option<string>, org: Option<string>, verifySsl: bool,
                                    splitError: string -> Option<string>,
                                    run: ClientConfig -> Result<seq<R>, string>): (r: QueryResponse<R>)
    ensures r.QuerySuccess? ==> r.format == "json"
    ensures r.QuerySuccess? ==>
              exists c :: IntendedQueryClient(url, token, org, verifySsl, splitError) == Success(c) && run(c) == Success(r.result)
  {
    QueryWith(IntendedQueryClient(url, token, org, verifySsl, splitError), run)
  }

  /** The intended client verifies certificates exactly when asked to and
      keeps the default ten-second timeout; validation is unchanged. */
  lemma IntendedClientKeepsVerification(url: Option<string>, token: Option<string>, org: Option<string>, verifySsl: bool,
                                        splitError: string -> Option<string>)
    ensures IntendedQueryClient(url, token, org, verifySsl, splitError).Success? <==> QueryClient(url, token, org, verifySsl, splitError).Success?
    ensures IntendedQueryClient(url, token, org, verifySsl, splitError).Success? ==>
              && IntendedQueryClient(url, token, org, verifySsl, splitError).value.verifySsl == verifySsl
              && IntendedQueryClient(url, token, org, verifySsl, splitError).value.timeoutMs == DefaultTimeoutMs
  {
  }
}
