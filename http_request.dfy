/**
 * The request parser of daemon/request.py: one raw request text becomes the
 * method, path and version of its request line, a header dict, a cookie dict,
 * the body, and the route hook registered for (method, path).
 */
module HttpRequest {
  import opened Wrappers
  import opened Text
  import opened Dicts
  import opened Fields

  /** A route is registered for a (method, path) pair; the hook is named by its handler. */
  type RouteKey = (string, string)

  datatype RequestLine = RequestLine(verb: string, path: string, version: string)

  // ---------------------------------------------------------------------------
  // The request line
  // ---------------------------------------------------------------------------

  /** The query string is cut off at the first `?`; the bare `/` is served as `/index.html`. */
  function NormalizePath(p: string): (r: string)
    ensures '?' !in r
  {
    var q := if Contains(p, "?") then Split(p, "?")[0] else p;
    assert '?' !in q by {
      ContainsChar(p, '?');
      if Contains(p, "?") {
        var parts := SplitOnce(p, "?").value;
        ContainsChar(parts.0, '?');
      }
    }
    if q == "/" then "/index.html" else q
  }

  /** A path without a query string, other than `/`, is kept as it is. */
  lemma PathKept(p: string)
    requires '?' !in p && p != "/"
    ensures NormalizePath(p) == p
  {
    ContainsChar(p, '?');
  }

  /** The query string never influences the path: `/?x=1` is `/index.html` too. */
  lemma QueryIgnored(p: string, query: string)
    requires '?' !in p
    ensures NormalizePath(p + "?" + query) == NormalizePath(p)
    ensures NormalizePath("/") == "/index.html"
  {
    var s := p + "?" + query;
    FindAfterFree(p, '?', query);
    assert s[..|p|] == p;
    ContainsChar(p, '?');
    ContainsChar("/", '?');
  }

  /**
   * `extract_request_line`: the first line of `splitlines()` must split on
   * whitespace into exactly three tokens; an empty request or any other count
   * gives `(None, None, None)`.
   */
  function ExtractRequestLine(request: string): (r: Option<RequestLine>)
    ensures r.Some? ==> IsWord(r.value.verb) && IsWord(r.value.version) && '?' !in r.value.path
  {
    if request == "" then None
    else
      var t := Tokens(FirstLine(request));
      if |t| != 3 then None else Some(RequestLine(t[0], NormalizePath(t[1]), t[2]))
  }

  lemma NoLineBreakOfWords(a: string, b: string, c: string)
    requires NoSpace(a) && NoSpace(b) && NoSpace(c)
    ensures NoLineBreak(a + " " + b + " " + c)
    ensures NoLineBreak(a + " " + b)
  {
    forall ch | ch in a + " " + b + " " + c ensures !IsLineBreak(ch) {
      LineBreakIsSpace(ch);
    }
    forall ch | ch in a + " " + b ensures !IsLineBreak(ch) {
      LineBreakIsSpace(ch);
    }
  }

  /** A well-formed request line `METHOD SP PATH SP VERSION` is read back token by token. */
  lemma RequestLineOf(m: string, p: string, v: string, rest: string)
    requires IsWord(m) && IsWord(p) && IsWord(v)
    requires rest == [] || IsLineBreak(rest[0])
    ensures ExtractRequestLine(m + " " + p + " " + v + rest) == Some(RequestLine(m, NormalizePath(p), v))
  {
    var line := m + " " + p + " " + v;
    NoLineBreakOfWords(m, p, v);
    FirstLineOf(line, rest);
    TokensOfThree(m, p, v);
    assert line + rest != "" by { assert |line + rest| >= |m| > 0; }
  }

  /** A request line without its version token is a parse failure. */
  lemma MissingVersion(m: string, p: string, rest: string)
    requires IsWord(m) && IsWord(p)
    requires rest == [] || IsLineBreak(rest[0])
    ensures ExtractRequestLine(m + " " + p + rest) == None
  {
    var line := m + " " + p;
    NoLineBreakOfWords(m, p, "");
    FirstLineOf(line, rest);
    TokensOfTwo(m, p);
  }

  // ---------------------------------------------------------------------------
  // Headers
  // ---------------------------------------------------------------------------

  /** A line holding `": "` gives (lower-cased text before it, text after it). */
  function HeaderEntry(line: string): Option<(string, string)> {
    match SplitOnce(line, ": ")
    case None => None
    case Some((k, v)) => Some((Lower(k), v))
  }

  /** Every line after the first, body lines included. */
  function HeaderLines(request: string): seq<string> {
    Split(request, "\r\n")[1..]
  }

  /** `prepare_headers`: a later line with the same key overwrites an earlier one. */
  function HeaderMap(request: string): map<string, string> {
    Assemble(HeaderEntry, HeaderLines(request))
  }

  /** The loop of `prepare_headers`. */
  method PrepareHeaders(request: string) returns (headers: map<string, string>)
    ensures headers == HeaderMap(request)
  {
    var lines := Split(request, "\r\n");
    headers := Collect(HeaderEntry, lines[1..]);
  }

  /** Header keys are lower-case, and each present key comes from some line holding `": "`. */
  lemma HeaderKeys(request: string, k: string)
    requires k in HeaderMap(request)
    ensures Lower(k) == k
    ensures exists i :: 0 <= i < |HeaderLines(request)| && Contains(HeaderLines(request)[i], ": ")
                        && Lower(SplitOnce(HeaderLines(request)[i], ": ").value.0) == k
  {
    AssembleKeys(HeaderEntry, HeaderLines(request), k);
    var i :| 0 <= i < |HeaderLines(request)| && Yields(HeaderEntry, HeaderLines(request)[i], k);
    var kv := SplitOnce(HeaderLines(request)[i], ": ").value;
    LowerProperties(kv.0);
  }

  /** The value of a header is the text after `": "` on the last line with that key. */
  lemma HeaderLastWins(request: string, i: nat)
    requires i < |HeaderLines(request)| && Contains(HeaderLines(request)[i], ": ")
    requires forall j :: i < j < |HeaderLines(request)| ==> !Yields(HeaderEntry, HeaderLines(request)[j], HeaderEntry(HeaderLines(request)[i]).value.0)
    ensures var kv := SplitOnce(HeaderLines(request)[i], ": ").value;
            Lower(kv.0) in HeaderMap(request) && HeaderMap(request)[Lower(kv.0)] == kv.1
  {
    AssembleValue(HeaderEntry, HeaderLines(request), i);
  }

  // ---------------------------------------------------------------------------
  // Cookies
  // ---------------------------------------------------------------------------

  /** One `;`-part of the cookie header: stripped, split at its first `=`, key and value stripped. */
  function CookieEntry(pair: string): Option<(string, string)> {
    var p := Strip(pair);
    match SplitOnce(p, "=")
    case None => None
    case Some((k, v)) => Some((Strip(k), Strip(v)))
  }

  /** The cookie dict of `prepare`, from the `cookie` header (none when it is missing or empty). */
  function CookieMap(headers: map<string, string>): map<string, string> {
    var h := Get(headers, "cookie", "");
    if h == "" then map[] else Assemble(CookieEntry, Split(h, ";"))
  }

  lemma StripIdempotent(s: string)
    ensures Strip(Strip(s)) == Strip(s)
  {
    StripUnchanged(Strip(s));
  }

  /** Cookie names and values carry no surrounding whitespace. */
  lemma CookiesStripped(headers: map<string, string>, k: string)
    requires k in CookieMap(headers)
    ensures Strip(k) == k && Strip(CookieMap(headers)[k]) == CookieMap(headers)[k]
  {
    var h := Get(headers, "cookie", "");
    var parts := Split(h, ";");
    AssembleKeys(CookieEntry, parts, k);
    var i :| 0 <= i < |parts| && Yields(CookieEntry, parts[i], k);
    var kv := SplitOnce(Strip(parts[i]), "=").value;
    StripIdempotent(kv.0);
    var last := LastYield(parts, k, i);
    AssembleValue(CookieEntry, parts, last);
    var kv' := SplitOnce(Strip(parts[last]), "=").value;
    StripIdempotent(kv'.1);
  }

  /** The last part that yields cookie `k`, at or after a part `i` that does. */
  lemma LastYield(parts: seq<string>, k: string, i: nat) returns (last: nat)
    requires i < |parts| && Yields(CookieEntry, parts[i], k)
    ensures i <= last < |parts| && Yields(CookieEntry, parts[last], k)
    ensures forall j :: last < j < |parts| ==> !Yields(CookieEntry, parts[j], k)
    decreases |parts| - i
  {
    if j :| i < j < |parts| && Yields(CookieEntry, parts[j], k) {
      last := LastYield(parts, k, j);
    } else {
      last := i;
    }
  }

  /** A clean `name=value` part is read back as it is. */
  lemma CookieEntryOfText(k: string, v: string)
    requires '=' !in k && Strip(k) == k && Strip(v) == v
    ensures CookieEntry(k + "=" + v) == Some((k, v))
  {
    var part := k + "=" + v;
    assert !IsSpace('=');
    if k == "" {
      assert part[0] == '=';
    } else {
      StrippedEnds(k);
      assert part[0] == k[0];
    }
    if v == "" {
      assert part[|part| - 1] == '=';
    } else {
      StrippedEnds(v);
      assert part[|part| - 1] == v[|v| - 1];
    }
    StripUnchanged(part);
    KeyValueOfText(k, v);
  }

  /** Stripped text starts and ends with a non-space character. */
  lemma StrippedEnds(s: string)
    requires Strip(s) == s
    ensures s == [] || (!IsSpace(s[0]) && !IsSpace(s[|s| - 1]))
  {
  }

  /** The parts of an encoded cookie header, each read back as its own pair. */
  lemma CookiePartsRead(kvs: seq<(string, string)>, texts: seq<string>)
    requires Encodable(kvs, ';') && |texts| == |kvs|
    requires forall i :: 0 <= i < |kvs| ==> Strip(kvs[i].0) == kvs[i].0 && Strip(kvs[i].1) == kvs[i].1
    requires forall i :: 0 <= i < |kvs| ==> texts[i] == FieldText(kvs[i])
    ensures forall i :: 0 <= i < |texts| ==> ';' !in texts[i] && CookieEntry(texts[i]) == AsPair(kvs[i])
  {
    forall i | 0 <= i < |texts| ensures ';' !in texts[i] && CookieEntry(texts[i]) == AsPair(kvs[i]) {
      CookieEntryOfText(kvs[i].0, kvs[i].1);
    }
  }

  /** A header `k1=v1;k2=v2;...` with clean names and values gives back those cookies. */
  lemma CookiesOfHeader(kvs: seq<(string, string)>, headers: map<string, string>)
    requires Encodable(kvs, ';')
    requires forall i :: 0 <= i < |kvs| ==> Strip(kvs[i].0) == kvs[i].0 && Strip(kvs[i].1) == kvs[i].1
    requires "cookie" in headers && headers["cookie"] == EncodeFields(kvs, ';')
    ensures CookieMap(headers) == Assemble(AsPair, kvs)
  {
    var texts := seq(|kvs|, i requires 0 <= i < |kvs| => FieldText(kvs[i]));
    assert Get(headers, "cookie", "") == Join(texts, [';']);
    if kvs != [] {
      CookieTextsRead(kvs, texts);
    }
  }

  /** The cookie dict read back from the joined texts of the pairs. */
  lemma CookieTextsRead(kvs: seq<(string, string)>, texts: seq<string>)
    requires Encodable(kvs, ';') && |texts| == |kvs| > 0
    requires forall i :: 0 <= i < |kvs| ==> Strip(kvs[i].0) == kvs[i].0 && Strip(kvs[i].1) == kvs[i].1
    requires forall i :: 0 <= i < |kvs| ==> texts[i] == FieldText(kvs[i])
    ensures Join(texts, [';']) != ""
    ensures Assemble(CookieEntry, Split(Join(texts, [';']), ";")) == Assemble(AsPair, kvs)
  {
    assert Join(texts, [';']) != "" by {
      JoinLength(texts, [';']);
      assert |texts[0]| > 0;
    }
    CookiePartsRead(kvs, texts);
    assert Split(Join(texts, [';']), ";") == texts by {
      SplitJoin(texts, ';');
    }
    AssembleCongruent(CookieEntry, texts, AsPair, kvs);
  }

  /** The cookie part of `prepare`. */
  method PrepareCookies(headers: map<string, string>) returns (cookies: map<string, string>)
    ensures cookies == CookieMap(headers)
  {
    var cookieHeader := Get(headers, "cookie", "");
    cookies := map[];
    if cookieHeader != "" {
      cookies := Collect(CookieEntry, Split(cookieHeader, ";"));
    }
  }

  /** The parts of `prepare` that only read the request text and the route table. */
  method ReadRequest(request: string, table: map<RouteKey, string>) returns (v: RequestView)
    ensures v == Parse(request, table)
  {
    var line := ExtractRequestLine(request);
    var headers := PrepareHeaders(request);
    var cookies := PrepareCookies(headers);
    var hook := if table == map[] then None else RouteHook(table, line);
    v := RequestView(MethodOf(line), PathOf(line), VersionOf(line), headers, cookies,
                     ExtractBody(request), hook);
  }

  lemma JoinLength(parts: seq<string>, sep: string)
    requires |parts| > 0
    ensures |Join(parts, sep)| >= |parts[0]|
  {
  }

  // ---------------------------------------------------------------------------
  // Body and route hook
  // ---------------------------------------------------------------------------

  /** `extract_body`: everything after the first blank line `\r\n\r\n`, or `""` without one. */
  function ExtractBody(request: string): (r: string)
    ensures Contains(request, "\r\n\r\n") ==>
      exists head :: request == head + "\r\n\r\n" + r && !Contains(head, "\r\n\r\n")
    ensures !Contains(request, "\r\n\r\n") ==> r == ""
  {
    match SplitOnce(request, "\r\n\r\n")
    case Some((head, b)) => b
    case None => ""
  }

  /** `routes.get((method, path))`; a failed request line never finds a route. */
  function RouteHook(routes: map<RouteKey, string>, line: Option<RequestLine>): (r: Option<string>)
    ensures r.Some? <==> line.Some? && (line.value.verb, line.value.path) in routes
    ensures r.Some? ==> r.value == routes[(line.value.verb, line.value.path)]
  {
    match line
    case None => None
    case Some(l) => Lookup(routes, (l.verb, l.path))
  }

  // ---------------------------------------------------------------------------
  // The Request object
  // ---------------------------------------------------------------------------

  /** What a prepared request holds. */
  datatype RequestView = RequestView(
    verb: Option<string>, path: Option<string>, version: Option<string>,
    headers: map<string, string>, cookies: map<string, string>, body: string,
    hook: Option<string>)

  function MethodOf(line: Option<RequestLine>): Option<string> {
    if line.Some? then Some(line.value.verb) else None
  }

  function PathOf(line: Option<RequestLine>): Option<string> {
    if line.Some? then Some(line.value.path) else None
  }

  function VersionOf(line: Option<RequestLine>): Option<string> {
    if line.Some? then Some(line.value.version) else None
  }

  /**
   * What a freshly made Request holds after `prepare(request, routes)`: the
   * hook stays `None` when the route table is empty.
   */
  function Parse(request: string, routes: map<RouteKey, string>): (v: RequestView)
    ensures v.verb.None? <==> v.path.None?
    ensures v.path.Some? ==> '?' !in v.path.value
  {
    var line := ExtractRequestLine(request);
    var headers := HeaderMap(request);
    RequestView(MethodOf(line), PathOf(line), VersionOf(line), headers, CookieMap(headers),
                ExtractBody(request), if routes == map[] then None else RouteHook(routes, line))
  }

  class Request {
    var verb: Option<string>
    var path: Option<string>
    var version: Option<string>
    var headers: map<string, string>
    var cookies: map<string, string>
    var body: string
    var routes: map<RouteKey, string>
    var hook: Option<string>

    constructor ()
      ensures verb == None && path == None && version == None
      ensures headers == map[] && cookies == map[] && body == ""
      ensures routes == map[] && hook == None
    {
      verb, path, version := None, None, None;
      headers, cookies, body := map[], map[], "";
      routes, hook := map[], None;
    }

    function View(): RequestView
      reads this
    {
      RequestView(verb, path, version, headers, cookies, body, hook)
    }

    /**
     * `prepare`: the request holds what `Parse` reads from `request`; an empty
     * route table leaves the routes and the hook as they were.
     */
    method Prepare(request: string, table: map<RouteKey, string>)
      modifies this
      ensures View() == if table == map[] then Parse(request, table).(hook := old(hook)) else Parse(request, table)
      ensures routes == if table == map[] then old(routes) else table
    {
      var v := ReadRequest(request, table);
      if table != map[] {
        routes, hook := table, v.hook;
      }
      verb, path, version, headers, cookies, body := v.verb, v.path, v.version, v.headers, v.cookies, v.body;
    }
  }
}
