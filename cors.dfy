/**
 * The request gate and the CORS headers of the API (lambda/utils/cors.ts; lambda/api/index.ts
 * carries an identical copy of both functions).
 */
module Cors {
  import opened Text

  const AllowedDomains: seq<string> := ["https://muzac.com.tr", "https://www.muzac.com.tr", "http://localhost:3000"]
  const DefaultOrigin: string := "https://muzac.com.tr"
  const LocalOrigin: string := "http://localhost:3000"
  const JsonContentType: string := "application/json"
  const AllowedMethods: string := "GET, POST, PUT, DELETE, OPTIONS"
  const AllowedHeaders: string := "Content-Type, Authorization"

  /** `domains.some(d => referer.startsWith(d))` */
  function StartsWithAny(referer: string, domains: seq<string>): (ok: bool)
    ensures ok <==> exists i :: 0 <= i < |domains| && StartsWith(referer, domains[i])
  {
    if domains == [] then false
    else StartsWith(referer, domains[0]) || StartsWithAny(referer, domains[1..])
  }

  /** Whether a request's referer is allowed: a raw prefix test against the allow-list. */
  function CheckOrigin(referer: string): (ok: bool)
    ensures ok <==> StartsWith(referer, AllowedDomains[0]) || StartsWith(referer, AllowedDomains[1])
                     || StartsWith(referer, AllowedDomains[2])
  {
    StartsWithAny(referer, AllowedDomains)
  }

  datatype CorsHeaders = CorsHeaders(contentType: string, allowOrigin: string, allowMethods: string, allowHeaders: string)

  /** The origin reflected back to the browser for a referer. */
  function ReflectedOrigin(referer: string): (origin: string)
    ensures StartsWith(referer, AllowedDomains[0]) || StartsWith(referer, AllowedDomains[1]) ==>
              origin == BeforeNth(referer, '/', 3)
  {
    if StartsWith(referer, AllowedDomains[0]) || StartsWith(referer, AllowedDomains[1]) then
      JoinTakeSplit(referer, '/', 3);
      Join(Take(Split(referer, '/'), 3), '/')
    else if StartsWith(referer, LocalOrigin) then LocalOrigin
    else DefaultOrigin
  }

  /** The headers every gated response carries. */
  function GetCorsHeaders(referer: string): (h: CorsHeaders)
    ensures h.contentType == JsonContentType && h.allowMethods == AllowedMethods
    ensures h.allowHeaders == AllowedHeaders
    ensures h.allowOrigin == ReflectedOrigin(referer)
  {
    CorsHeaders(JsonContentType, ReflectedOrigin(referer), AllowedMethods, AllowedHeaders)
  }

  /** The empty referer (no header at all) is refused. */
  lemma EmptyRefererRejected()
    ensures !CheckOrigin("")
  {
    assert !StartsWith("", AllowedDomains[0]);
  }

  /**
   * Any referer that starts with an allowed `https` domain passes the gate, even when the
   * host goes on past that domain (`https://muzac.com.tr.example/x` is let through and
   * answered with `https://muzac.com.tr.example`), and the whole extended host is reflected
   * back as the allowed origin (`https://www.muzac.com.tr/a/b` is answered with
   * `https://www.muzac.com.tr`).
   */
  lemma ExtendedHostReflected(i: nat, ext: string, path: string)
    requires i < 2 && '/' !in ext && (path == "" || path[0] == '/')
    ensures CheckOrigin(AllowedDomains[i] + ext + path)
    ensures ReflectedOrigin(AllowedDomains[i] + ext + path) == AllowedDomains[i] + ext
  {
    var domain := AllowedDomains[i];
    var r := domain + ext + path;
    assert r[..|domain|] == domain;
    OriginOfDomain(i, ext, path);
  }

  /** The origin of a URL on an allowed `https` domain, possibly with a longer host. */
  lemma OriginOfDomain(i: nat, ext: string, path: string)
    requires i < 2 && '/' !in ext && (path == "" || path[0] == '/')
    ensures BeforeNth(AllowedDomains[i] + ext + path, '/', 3) == AllowedDomains[i] + ext
  {
    DomainParts(i);
    var host := HostOf(i) + ext;
    assert '/' !in host;
    Regroup("https:", "//", HostOf(i), ext, path);
    OriginOfUrl(host, path);
  }

  lemma Regroup(a: string, b: string, h: string, ext: string, path: string)
    ensures a + b + h + ext + path == a + b + (h + ext) + path
    ensures a + b + h + ext == a + b + (h + ext)
  {
  }

  lemma DomainParts(i: nat)
    requires i < 2
    ensures AllowedDomains[i] == "https:" + "//" + HostOf(i) && '/' !in HostOf(i)
  {
    if i == 0 {
      assert AllowedDomains[0] == "https:" + "//" + "muzac.com.tr";
    } else {
      assert AllowedDomains[1] == "https:" + "//" + "www.muzac.com.tr";
    }
  }

  /** The host part of the allowed `https` domains. */
  function HostOf(i: nat): string
    requires i < 2
  {
    if i == 0 then "muzac.com.tr" else "www.muzac.com.tr"
  }

  /** A refused referer falls back to the default origin. */
  lemma RejectedGetsDefault(referer: string)
    requires !CheckOrigin(referer)
    ensures ReflectedOrigin(referer) == DefaultOrigin
  {
  }

  /** A localhost referer always gets exactly the localhost origin. */
  lemma LocalhostOrigin(referer: string)
    requires StartsWith(referer, LocalOrigin)
    ensures ReflectedOrigin(referer) == LocalOrigin
  {
    assert referer[..|LocalOrigin|][4] == referer[4];
    NotPrefixAt(referer, AllowedDomains[0], 4);
    NotPrefixAt(referer, AllowedDomains[1], 4);
  }

  /** For every allowed referer, the reflected origin is a prefix of the referer. */
  lemma ReflectedOriginIsPrefix(referer: string)
    requires CheckOrigin(referer)
    ensures StartsWith(referer, ReflectedOrigin(referer))
  {
    if StartsWith(referer, AllowedDomains[0]) || StartsWith(referer, AllowedDomains[1]) {
      BeforeNthIsPrefix(referer, '/', 3);
    }
  }

  /**
   * For an `https` URL, the origin is the scheme and the host: what comes before the
   * third slash, the path dropped.
   */
  lemma OriginOfUrl(host: string, path: string)
    requires '/' !in host && (path == "" || path[0] == '/')
    ensures BeforeNth("https:" + "//" + host + path, '/', 3) == "https://" + host
  {
    var two := ['/'] + (['/'] + (host + path));
    SlashesBeforeHost(host, path);
    SchemeBeforeRest(two, host);
    assert "https:" + "//" + host + path == "https:" + two;
  }

  /** After the two slashes of `//host/path`, the third slash ends the origin. */
  lemma SlashesBeforeHost(host: string, path: string)
    requires '/' !in host && (path == "" || path[0] == '/')
    ensures BeforeNth(['/'] + (['/'] + (host + path)), '/', 3) == ['/', '/'] + host
  {
    var tail := host + path;
    var one := ['/'] + tail;
    HostBeforePath(host, path);
    BeforeNthSeparator(tail, '/', 1);
    BeforeNthSeparator(one, '/', 2);
  }

  lemma HostBeforePath(host: string, path: string)
    requires '/' !in host && (path == "" || path[0] == '/')
    ensures BeforeNth(host + path, '/', 1) == host
  {
    BeforeNthSkips(host, path, '/', 1);
    assert BeforeNth(path, '/', 1) == "";
  }

  lemma SchemeBeforeRest(rest: string, host: string)
    requires BeforeNth(rest, '/', 3) == ['/', '/'] + host
    ensures BeforeNth("https:" + rest, '/', 3) == "https://" + host
  {
    BeforeNthSkips("https:", rest, '/', 3);
  }
}
