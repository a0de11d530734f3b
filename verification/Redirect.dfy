/**
 Following redirects over retried sends: what a redirect does to a request, and the
 chain of requests that leaves the client. Each hop meets its own trace of network
 outcomes; joining a `Location` to a URL is a parameter.
 */
module Redirecting {
  import opened Prelude
  import opened Retrying

  datatype Url = Url(scheme: string, host: Option<string>, port: Option<nat>, path: string)

  datatype Body = Replayable(bytes: Bytes) | Streaming

  type HeaderMap = map<string, seq<string>>

  datatype Request = Request(verb: string, url: Url, headers: HeaderMap, body: Option<Body>)

  const AUTHORIZATION := "authorization"
  const COOKIE := "cookie"
  const CONTENT_HEADERS: seq<string> := ["content-length", "content-type", "transfer-encoding"]

  // ---------------------------------------------------------------- one redirect

  function DefaultPort(scheme: string): Option<nat> {
    if scheme == "http" || scheme == "ws" then Some(80)
    else if scheme == "https" || scheme == "wss" then Some(443)
    else if scheme == "ftp" then Some(21)
    else None
  }

  /** `port_or_known_default` */
  function EffectivePort(url: Url): Option<nat> {
    if url.port.Some? then url.port else DefaultPort(url.scheme)
  }

  /** Origins are tuples for the schemes with a default port; any other origin equals nothing. */
  predicate SameOrigin(a: Url, b: Url) {
    && DefaultPort(a.scheme).Some?
    && a.scheme == b.scheme && a.host == b.host && EffectivePort(a) == EffectivePort(b)
  }

  function RedirectMethod(verb: string, status: nat): string {
    if (status == 302 || status == 303) && verb != "HEAD" then "GET"
    else if status == 301 && verb == "POST" then "GET"
    else verb
  }

  predicate KeepsAuthorization(from: Url, next: Url) {
    if EffectivePort(from) == Some(80) && EffectivePort(next) == Some(443)
       && from.scheme == "http" && next.scheme == "https" then
      from.host == next.host
    else SameOrigin(from, next)
  }

  function Removed(headers: HeaderMap, names: seq<string>): HeaderMap {
    headers - set name | name in names
  }

  /** The request a redirect turns `request` into. */
  function Redirected(request: Request, status: nat, url: Url): Request {
    var verb := RedirectMethod(request.verb, status);
    var (body, headers) := if verb == request.verb then (request.body, request.headers)
                         else (None, Removed(request.headers, CONTENT_HEADERS));
    var dropped := if KeepsAuthorization(request.url, url) then [COOKIE] else [COOKIE, AUTHORIZATION];
    Request(verb, url, Removed(headers, dropped), body)
  }

  method RedirectedRequest(request: Request, status: nat, url: Url) returns (out: Request)
    ensures out == Redirected(request, status, url)
  {
    out := request;
    var verb := RedirectMethod(request.verb, status);
    if verb != out.verb {
      out := out.(body := None);
      for i := 0 to |CONTENT_HEADERS|
        invariant out == request.(body := None, headers := Removed(request.headers, CONTENT_HEADERS[..i]))
      {
        out := out.(headers := out.headers - {CONTENT_HEADERS[i]});
      }
      assert CONTENT_HEADERS[..|CONTENT_HEADERS|] == CONTENT_HEADERS;
    }
    out := out.(headers := out.headers - {COOKIE});
    if !KeepsAuthorization(request.url, url) {
      out := out.(headers := out.headers - {AUTHORIZATION});
    }
    out := out.(verb := verb, url := url);
    assert out.headers == Redirected(request, status, url).headers;
  }

  // ---------------------------------------------------------------- a chain of requests

  /** The request a 3xx response made of the one before it. */
  predicate Follows(before: Request, after: Request) {
    exists status | 300 <= status < 400 :: after == Redirected(before, status, after.url)
  }

  predicate Chain(sent: seq<Request>) {
    forall i :: 0 <= i < |sent| - 1 ==> Follows(sent[i], sent[i + 1])
  }

  /** The port a URL means: the one it names, or else that of its scheme. */
  predicate MeansPort(url: Url, port: nat) {
    if url.port.Some? then url.port.value == port
    else
      || (port == 80 && url.scheme in {"http", "ws"})
      || (port == 443 && url.scheme in {"https", "wss"})
      || (port == 21 && url.scheme == "ftp")
  }

  /** Scheme, host and port alike, for a scheme that has origins. */
  ghost predicate SamePlace(a: Url, b: Url) {
    && a.scheme in {"http", "https", "ws", "wss", "ftp"}
    && a.scheme == b.scheme && a.host == b.host
    && exists port: nat :: MeansPort(a, port) && MeansPort(b, port)
  }

  /** `http` on port 80 to `https` on port 443 of the same host. */
  predicate Upgrade(from: Url, to: Url) {
    && from.scheme == "http" && to.scheme == "https" && from.host == to.host
    && MeansPort(from, 80) && MeansPort(to, 443)
  }

  /** Where `Authorization` may still be: the original origin, or its upgrade to https. */
  ghost predicate Trusted(original: Url, url: Url) {
    SamePlace(original, url) || Upgrade(original, url)
  }

  lemma PortMeant(url: Url, port: nat)
    ensures MeansPort(url, port) <==> EffectivePort(url) == Some(port)
  {
  }

  lemma SameOriginIsSamePlace(a: Url, b: Url)
    ensures SameOrigin(a, b) <==> SamePlace(a, b)
  {
    if SameOrigin(a, b) {
      PortMeant(a, EffectivePort(a).value);
      PortMeant(b, EffectivePort(a).value);
      assert SamePlace(a, b);
    }
    if SamePlace(a, b) {
      var port: nat :| MeansPort(a, port) && MeansPort(b, port);
      PortMeant(a, port);
      PortMeant(b, port);
    }
  }

  /** Headers and places of one hop, for a caller that cares about credentials. */
  ghost predicate CredentialsKept(first: Request, hop: Request) {
    AUTHORIZATION in hop.headers ==>
      && AUTHORIZATION in first.headers
      && hop.headers[AUTHORIZATION] == first.headers[AUTHORIZATION]
      && (hop.url == first.url || Trusted(first.url, hop.url))
  }

  /** Exactly these places are allowed to see the header next. */
  lemma KeepsExactly(from: Url, next: Url)
    ensures KeepsAuthorization(from, next) <==> SamePlace(from, next) || Upgrade(from, next)
  {
    SameOriginIsSamePlace(from, next);
    PortMeant(from, 80);
    PortMeant(next, 443);
    hide SamePlace, MeansPort, EffectivePort;
  }

  /** Headers a redirect may take away; every other one passes with its values. */
  lemma OtherHeadersPass(before: Request, after: Request, name: string)
    requires Follows(before, after)
    requires name !in {"content-length", "content-type", "transfer-encoding", "cookie", "authorization"}
    ensures name in after.headers <==> name in before.headers
    ensures name in after.headers ==> after.headers[name] == before.headers[name]
  {
  }

  /** One hop: the header stays exactly where it is allowed to be, with its value. */
  lemma OneHop(before: Request, after: Request)
    requires Follows(before, after)
    ensures "authorization" in after.headers <==> "authorization" in before.headers && Trusted(before.url, after.url)
    ensures "authorization" in after.headers ==> after.headers["authorization"] == before.headers["authorization"]
    ensures "cookie" !in after.headers
  {
    KeepsExactly(before.url, after.url);
    hide KeepsAuthorization, SamePlace, Upgrade;
  }

  ghost predicate StaysHome(sent: seq<Request>, i: nat)
    requires i + 1 < |sent|
  {
    Trusted(sent[i].url, sent[i + 1].url)
  }

  /** A hop carries the header exactly when the first did and no step so far left home. */
  lemma {:induction false} CarriedIffHome(sent: seq<Request>, n: nat)
    requires Chain(sent) && n < |sent|
    ensures AUTHORIZATION in sent[n].headers <==>
              AUTHORIZATION in sent[0].headers && forall i | 0 <= i < n :: StaysHome(sent, i)
    decreases n
  {
    hide Follows, Trusted;
    if n > 0 {
      assert Follows(sent[n - 1], sent[n - 1 + 1]);
      OneHop(sent[n - 1], sent[n]);
      CarriedIffHome(sent, n - 1);
      assert StaysHome(sent, n - 1) <==> Trusted(sent[n - 1].url, sent[n].url);
    }
  }

  /** A trusted step from a trusted place stays trusted, and never leaves the upgrade. */
  lemma TrustedStep(original: Url, before: Url, after: Url)
    requires before == original || Trusted(original, before)
    requires Trusted(before, after)
    ensures Trusted(original, after)
    ensures Upgrade(original, before) ==> Upgrade(original, after)
  {
    SameOriginIsSamePlace(original, before);
    SameOriginIsSamePlace(before, after);
    SameOriginIsSamePlace(original, after);
    hide SamePlace;
  }

  /**
   Authorization over a whole chain. If hop `n` still carries it, so does every hop before,
   all with the original value; every hop on the way is at the original origin or at its
   upgrade, and once at the upgrade the chain stays there.
   */
  lemma {:induction false} AuthorizationStaysHome(sent: seq<Request>, n: nat)
    requires Chain(sent) && n < |sent| && AUTHORIZATION in sent[n].headers
    ensures forall i :: 0 <= i <= n ==> CredentialsKept(sent[0], sent[i]) && AUTHORIZATION in sent[i].headers
    ensures forall i, j :: 0 <= i <= j <= n && Upgrade(sent[0].url, sent[i].url) ==> Upgrade(sent[0].url, sent[j].url)
    decreases n
  {
    hide Follows, Trusted, Upgrade;
    if n > 0 {
      assert Follows(sent[n - 1], sent[n - 1 + 1]);
      OneHop(sent[n - 1], sent[n]);
      AuthorizationStaysHome(sent, n - 1);
      assert CredentialsKept(sent[0], sent[n - 1]);
      TrustedStep(sent[0].url, sent[n - 1].url, sent[n].url);
    }
    if n == 0 {
      assert CredentialsKept(sent[0], sent[0]);
    }
  }

  /** A hand-set `Cookie` never survives the first hop. */
  lemma NoCookieAfterFirst(sent: seq<Request>, n: nat)
    requires Chain(sent) && 0 < n < |sent|
    ensures COOKIE !in sent[n].headers
  {
    assert Follows(sent[n - 1], sent[n - 1 + 1]);
    OneHop(sent[n - 1], sent[n]);
  }

  /** Body and content headers as the caller set them. */
  predicate Untouched(first: Request, hop: Request) {
    && hop.verb == first.verb && hop.body == first.body
    && forall name <- {"content-length", "content-type", "transfer-encoding"} ::
         (name in hop.headers <==> name in first.headers)
         && (name in hop.headers ==> hop.headers[name] == first.headers[name])
  }

  predicate Stripped(hop: Request) {
    && hop.verb == "GET" && hop.body == None
    && {"content-length", "content-type", "transfer-encoding"} !! hop.headers.Keys
  }

  lemma OneHopBody(first: Request, before: Request, after: Request)
    requires Follows(before, after)
    ensures Untouched(first, before) ==> Untouched(first, after) || (Stripped(after) && first.verb != "HEAD")
    ensures Stripped(before) ==> Stripped(after)
  {
    assert COOKIE !in CONTENT_HEADERS && AUTHORIZATION !in CONTENT_HEADERS;
  }

  lemma Itself(request: Request)
    ensures Untouched(request, request)
  {
  }

  /**
   Method, body and content headers over a whole chain: untouched up to some hop, and from
   there on a GET without body and content headers. HEAD is never changed.
   */
  lemma {:induction false} DowngradeIsPermanent(sent: seq<Request>, n: nat)
    requires Chain(sent) && n < |sent|
    ensures Untouched(sent[0], sent[n]) || (Stripped(sent[n]) && sent[0].verb != "HEAD")
    ensures forall i :: 0 <= i <= n && !Untouched(sent[0], sent[i]) ==> Stripped(sent[n])
    decreases n
  {
    hide Untouched, Stripped, Follows;
    if n == 0 {
      Itself(sent[0]);
    } else {
      assert Follows(sent[n - 1], sent[n - 1 + 1]);
      DowngradeIsPermanent(sent, n - 1);
      OneHopBody(sent[0], sent[n - 1], sent[n]);
    }
  }

  /** The same chain, with the status of the response behind each redirect. */
  predicate ChainBy(sent: seq<Request>, statuses: seq<nat>) {
    && |sent| == |statuses| + 1
    && forall i | 0 <= i < |statuses| :: sent[i + 1] == Redirected(sent[i], statuses[i], sent[i + 1].url)
  }

  predicate Downgrades(verb: string, status: nat) {
    verb != "HEAD" && (status == 302 || status == 303 || (status == 301 && verb == "POST"))
  }

  /** Some response on the way told the original method to become a GET. */
  predicate Downgraded(verb: string, statuses: seq<nat>) {
    exists i :: 0 <= i < |statuses| && Downgrades(verb, statuses[i])
  }

  /** What is left of a request behind a chain: all of it, or a bare GET when the method had to change. */
  predicate LeftOf(first: Request, hop: Request, downgraded: bool) {
    && hop.verb == (if downgraded then "GET" else first.verb)
    && if downgraded && first.verb != "GET" then Stripped(hop) else Untouched(first, hop)
  }

  /**
   Method and body of any hop, told from the first request and the statuses alone, in whatever
   order they came: a GET keeps its body through every redirect, HEAD stays HEAD, any other method
   is a bare GET behind its first 302 or 303, POST behind a 301 too, and itself until then.
   */
  lemma {:induction false} MethodOverChain(sent: seq<Request>, statuses: seq<nat>, n: nat)
    requires ChainBy(sent, statuses) && n < |sent|
    ensures LeftOf(sent[0], sent[n], Downgraded(sent[0].verb, statuses[..n]))
    decreases n
  {
    hide LeftOf, Downgraded, Downgrades;
    if n == 0 {
      NothingLost(sent[0], statuses);
    } else {
      MethodOverChain(sent, statuses, n - 1);
      DowngradedSoFar(sent[0].verb, statuses, n);
      var before := Downgraded(sent[0].verb, statuses[..n - 1]);
      LeftOfNext(sent[0], sent[n - 1], statuses[n - 1], sent[n - 1 + 1].url, before);
    }
  }

  lemma NothingLost(request: Request, statuses: seq<nat>)
    ensures LeftOf(request, request, Downgraded(request.verb, statuses[..0]))
  {
  }

  lemma DowngradedSoFar(verb: string, statuses: seq<nat>, n: nat)
    requires 0 < n <= |statuses|
    ensures Downgraded(verb, statuses[..n]) <==>
              Downgraded(verb, statuses[..n - 1]) || Downgrades(verb, statuses[n - 1])
  {
    hide Downgrades;
    var now, before := statuses[..n], statuses[..n - 1];
    assert now[n - 1] == statuses[n - 1] && forall i | 0 <= i < n - 1 :: now[i] == before[i];
  }

  lemma LeftOfNext(first: Request, before: Request, status: nat, url: Url, downgraded: bool)
    requires LeftOf(first, before, downgraded)
    ensures LeftOf(first, Redirected(before, status, url), downgraded || Downgrades(first.verb, status))
  {
    assert COOKIE !in CONTENT_HEADERS && AUTHORIZATION !in CONTENT_HEADERS;
  }
}
