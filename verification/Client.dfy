/**
 The client: the redirect loop around the transport, the telemetry it adds up and the
 cookie jar it fills on the way.
 */
module Following {
  import opened Prelude
  import opened Retrying
  import opened RetryPromises
  import opened Redirecting

  datatype ClientError =
    | SendFailed(error: SendError)
    | BodyNotReplayable
    | TooManyRedirects(limit: nat)
    | MissingLocation
    | BadLocation(location: string)

  type Jar = map<string, string>

  /** A client's policy, and the world one call meets: a trace for each hop, and URL joining. */
  datatype Setup = Setup(
    retry: Option<Retry>, maxRedirects: nat, raiseOnExceeded: bool,
    server: nat -> Trace, join: (Url, string) -> Option<Url>)

  predicate Clonable(request: Request) {
    request.body != Some(Streaming)
  }

  /** One `Transport::send`: its result and the attempts it made. */
  function Delivered(s: Setup, request: Request, t: Trace): (Result<Pending, SendError>, nat) {
    match s.retry
    case Some(r) => Run(r, Retryable(r, request.verb), Clonable(request), t, 0)
    case None =>
      match t.outcome(0)
      case Replied(response) => (Ok(Pending(response, 0, [])), 1)
      case Failed(_, message) => (Err(TransportError(message)), 1)
  }

  /**
   One send: without a policy a single attempt and its outcome; with one, all a retried send
   promises, for the methods the policy names and bodies that are no stream.
   */
  lemma DeliveredAsPromised(s: Setup, request: Request, t: Trace)
    ensures var (result, attempts) := Delivered(s, request, t);
            match s.retry
            case None => attempts == 1 && ComesBackPlain(t, result)
            case Some(r) =>
              Promised(r, request.verb in r.allowedMethods, request.body != Some(Streaming), t, result, attempts)
  {
    if s.retry.Some? {
      SendKeepsPromise(s.retry.value, request.verb, Clonable(request), t);
    }
    hide Run, Promised;
  }

  /** What a chain leaves behind: its result, every request sent, every response, attempts, cookies. */
  datatype Chased = Chased(
    result: Result<Pending, ClientError>, sent: seq<Request>, hops: seq<Pending>, attempts: nat, jar: Jar)

  predicate IsRedirect(response: Response) {
    300 <= response.status < 400
  }

  function After(request: Request, hop: Pending, attempts: nat, rest: Chased): Chased {
    Chased(
      if rest.result.Ok? then Ok(Added([hop], rest.result.value)) else rest.result,
      [request] + rest.sent, [hop] + rest.hops, attempts + rest.attempts, rest.jar)
  }

  /** A hop that makes the chain go on. */
  predicate Continues(s: Setup, i: nat, request: Request, hop: Pending) {
    && IsRedirect(hop.response)
    && i + 1 < s.maxRedirects
    && hop.response.location.Some?
    && s.join(request.url, hop.response.location.value).Some?
  }

  /** The request such a hop makes of the one it answers. */
  function Next(s: Setup, i: nat, request: Request, hop: Pending): Request
    requires Continues(s, i, request, hop)
  {
    Redirected(request, hop.response.status, s.join(request.url, hop.response.location.value).value)
  }

  /** What a chain comes back with at a hop that does not make it go on. */
  function Stopped(s: Setup, i: nat, request: Request, hop: Pending): Result<Pending, ClientError> {
    if !IsRedirect(hop.response) then Ok(hop)
    else if i + 1 >= s.maxRedirects then
      if s.raiseOnExceeded then Err(TooManyRedirects(s.maxRedirects)) else Ok(hop)
    else if hop.response.location.None? then Err(MissingLocation)
    else Err(BadLocation(hop.response.location.value))
  }

  function JarAfter(jar: Jar, hop: Pending): Jar {
    if IsRedirect(hop.response) then jar + hop.response.cookies else jar
  }

  /** The rest of a chain that has used `i` redirects. */
  function Follow(s: Setup, i: nat, request: Request, jar: Jar): Chased
    decreases s.maxRedirects - i
  {
    if !Clonable(request) then Chased(Err(BodyNotReplayable), [], [], 0, jar)
    else
      var (result, tries) := Delivered(s, request, s.server(i));
      match result
      case Err(error) => Chased(Err(SendFailed(error)), [request], [], tries, jar)
      case Ok(hop) =>
        var more := JarAfter(jar, hop);
        if Continues(s, i, request, hop) then
          After(request, hop, tries, Follow(s, i + 1, Next(s, i, request, hop), more))
        else Chased(Stopped(s, i, request, hop), [request], [hop], tries, more)
  }

  // ---------------------------------------------------------------- whole chains

  predicate GoesOn(s: Setup, i: nat, request: Request) {
    && Clonable(request)
    && Delivered(s, request, s.server(i)).0.Ok?
    && Continues(s, i, request, Delivered(s, request, s.server(i)).0.value)
  }

  /** One hop of a chain that goes on. */
  lemma FollowStep(s: Setup, i: nat, request: Request, jar: Jar) returns (hop: Pending, tries: nat, rest: Chased)
    requires GoesOn(s, i, request)
    ensures Clonable(request) && Delivered(s, request, s.server(i)) == (Ok(hop), tries)
    ensures Continues(s, i, request, hop)
    ensures rest == Follow(s, i + 1, Next(s, i, request, hop), JarAfter(jar, hop))
    ensures Follow(s, i, request, jar) == After(request, hop, tries, rest)
  {
    hide Delivered, Next, JarAfter, After, Stopped;
    hop, tries := Delivered(s, request, s.server(i)).0.value, Delivered(s, request, s.server(i)).1;
    rest := Follow(s, i + 1, Next(s, i, request, hop), JarAfter(jar, hop));
  }

  /** A chain that ends at once. */
  lemma FollowStop(s: Setup, i: nat, request: Request, jar: Jar)
    requires !GoesOn(s, i, request)
    ensures var (result, tries) := Delivered(s, request, s.server(i));
            Follow(s, i, request, jar)
            == if !Clonable(request) then Chased(Err(BodyNotReplayable), [], [], 0, jar)
               else if result.Err? then Chased(Err(SendFailed(result.error)), [request], [], tries, jar)
               else Chased(Stopped(s, i, request, result.value), [request], [result.value], tries,
                           JarAfter(jar, result.value))
  {
    hide Delivered, JarAfter, After, Stopped;
  }

  lemma ChainLonger(request: Request, sent: seq<Request>)
    requires Chain(sent) && (sent != [] ==> Follows(request, sent[0]))
    ensures Chain([request] + sent)
  {
    hide Follows;
  }

  lemma NextFollows(s: Setup, i: nat, request: Request, hop: Pending)
    requires Continues(s, i, request, hop)
    ensures Follows(request, Next(s, i, request, hop))
  {
    var url := s.join(request.url, hop.response.location.value).value;
    RedirectedUrl(request, hop.response.status, url);
    hide Redirected;
  }

  /** Every chain sends a chain of redirected requests, the first as built. */
  lemma {:induction false} FollowSendsChain(s: Setup, i: nat, request: Request, jar: Jar)
    ensures var sent := Follow(s, i, request, jar).sent;
            Chain(sent) && (sent == [] || sent[0] == request)
    decreases s.maxRedirects - i
  {
    hide Follow, Delivered, Chain, GoesOn;
    if GoesOn(s, i, request) {
      var hop, tries, rest := FollowStep(s, i, request, jar);
      FollowSendsChain(s, i + 1, Next(s, i, request, hop), JarAfter(jar, hop));
      NextFollows(s, i, request, hop);
      ChainLonger(request, rest.sent);
    } else {
      FollowStop(s, i, request, jar);
      ShortChain(request);
    }
  }

  lemma ShortChain(request: Request)
    ensures Chain([]) && Chain([request])
  {
  }

  /**
   What one call to the client sends, hop by hop: credentials stay at the original origin or its
   https upgrade, a hand-set cookie goes out once, and a request is either as it was built in
   method, body and content headers or a bare GET for good.
   */
  lemma ChaseIsSafe(s: Setup, request: Request, jar: Jar, n: nat)
    requires n < |Follow(s, 0, request, jar).sent|
    ensures var sent := Follow(s, 0, request, jar).sent;
            && sent[0] == request
            && (AUTHORIZATION in sent[n].headers ==>
                  forall i :: 0 <= i <= n ==> CredentialsKept(request, sent[i]) && AUTHORIZATION in sent[i].headers)
            && (n > 0 ==> COOKIE !in sent[n].headers)
            && (Untouched(request, sent[n]) || (Stripped(sent[n]) && request.verb != "HEAD"))
            && forall i :: 0 <= i <= n && !Untouched(request, sent[i]) ==> Stripped(sent[n])
  {
    hide Follow, CredentialsKept, Untouched, Stripped, Chain;
    var sent := Follow(s, 0, request, jar).sent;
    FollowSendsChain(s, 0, request, jar);
    DowngradeIsPermanent(sent, n);
    if AUTHORIZATION in sent[n].headers {
      AuthorizationStaysHome(sent, n);
    }
    if n > 0 {
      NoCookieAfterFirst(sent, n);
    }
  }

  lemma RedirectedUrl(request: Request, status: nat, url: Url)
    ensures Redirected(request, status, url).url == url
  {
  }

  /** Request `j` was delivered to hop `j`, and what that hop said made the next request. */
  predicate Linked(s: Setup, i: nat, sent: seq<Request>, hops: seq<Pending>, j: nat)
    requires j < |sent|
  {
    && (j < |hops| ==> Delivered(s, sent[j], s.server(i + j)).0 == Ok(hops[j]))
    && (j + 1 < |sent| ==>
          && j < |hops|
          && 300 <= hops[j].response.status < 400
          && hops[j].response.location.Some?
          && s.join(sent[j].url, hops[j].response.location.value) == Some(sent[j + 1].url)
          && sent[j + 1] == Redirected(sent[j], hops[j].response.status, sent[j + 1].url))
  }

  predicate AllLinked(s: Setup, i: nat, chased: Chased) {
    && |chased.hops| <= |chased.sent| <= |chased.hops| + 1
    && forall j | 0 <= j < |chased.sent| :: Linked(s, i, chased.sent, chased.hops, j)
  }

  lemma NextLinks(s: Setup, i: nat, request: Request, hop: Pending, sent: seq<Request>, hops: seq<Pending>)
    requires |sent| > 0 && |hops| > 0 && sent[0] == request && hops[0] == hop
    requires Delivered(s, request, s.server(i)).0 == Ok(hop) && Continues(s, i, request, hop)
    requires |sent| > 1 ==> sent[1] == Next(s, i, request, hop)
    ensures Linked(s, i, sent, hops, 0)
  {
    var url := s.join(request.url, hop.response.location.value).value;
    RedirectedUrl(request, hop.response.status, url);
    hide Redirected, Delivered;
  }

  lemma LinkedLater(s: Setup, i: nat, request: Request, hop: Pending, rest: Chased, j: nat)
    requires 0 < j <= |rest.sent| && Linked(s, i + 1, rest.sent, rest.hops, j - 1)
    ensures Linked(s, i, [request] + rest.sent, [hop] + rest.hops, j)
  {
    hide Delivered, Redirected, IsRedirect;
    assert i + 1 + (j - 1) == i + j;
  }

  lemma AfterLinks(s: Setup, i: nat, request: Request, hop: Pending, tries: nat, rest: Chased)
    requires AllLinked(s, i + 1, rest) && Linked(s, i, [request] + rest.sent, [hop] + rest.hops, 0)
    ensures AllLinked(s, i, After(request, hop, tries, rest))
  {
    hide Linked;
    forall j | 0 <= j < |rest.sent| + 1
      ensures Linked(s, i, [request] + rest.sent, [hop] + rest.hops, j)
    {
      if j > 0 {
        LinkedLater(s, i, request, hop, rest, j);
      }
    }
  }

  /** Each request of a chain comes of the response before it, its target joined to the URL that sent it. */
  lemma {:induction false} FollowIsLinked(s: Setup, i: nat, request: Request, jar: Jar)
    ensures AllLinked(s, i, Follow(s, i, request, jar))
    decreases s.maxRedirects - i
  {
    hide Follow, Delivered, Redirected, GoesOn;
    if GoesOn(s, i, request) {
      var hop, tries, rest := FollowStep(s, i, request, jar);
      FollowIsLinked(s, i + 1, Next(s, i, request, hop), JarAfter(jar, hop));
      FollowSendsChain(s, i + 1, Next(s, i, request, hop), JarAfter(jar, hop));
      NextLinks(s, i, request, hop, [request] + rest.sent, [hop] + rest.hops);
      hide AllLinked, Linked, Next, Continues, After, JarAfter, Chain;
      AfterLinks(s, i, request, hop, tries, rest);
    } else {
      FollowStop(s, i, request, jar);
      hide Stopped, JarAfter, IsRedirect;
    }
  }

  function Statuses(hops: seq<Pending>): (statuses: seq<nat>)
    ensures |statuses| == |hops| && forall i | 0 <= i < |hops| :: statuses[i] == hops[i].response.status
  {
    seq(|hops|, i requires 0 <= i < |hops| => hops[i].response.status)
  }

  /** Method, body and content headers of any request a call sends, told from the statuses it met. */
  lemma ChaseMethod(s: Setup, request: Request, jar: Jar, n: nat)
    requires n < |Follow(s, 0, request, jar).sent|
    ensures var chased := Follow(s, 0, request, jar);
            && n <= |chased.hops|
            && LeftOf(request, chased.sent[n], Downgraded(request.verb, Statuses(chased.hops)[..n]))
  {
    hide Follow, LeftOf, Downgraded, Redirected;
    var chased := Follow(s, 0, request, jar);
    FollowIsLinked(s, 0, request, jar);
    FollowSendsChain(s, 0, request, jar);
    var sent, statuses := chased.sent[..n + 1], Statuses(chased.hops)[..n];
    forall i | 0 <= i < n
      ensures sent[i + 1] == Redirected(sent[i], statuses[i], sent[i + 1].url)
    {
      assert Linked(s, 0, chased.sent, chased.hops, i);
    }
    MethodOverChain(sent, statuses, n);
    assert statuses[..n] == statuses;
  }

  /**
   How a chain ends. Nothing is sent exactly when the request cannot be cloned; a send that failed
   is the last, and its failure is the chain's; behind an answer that is the last it is the answer
   that counts: a response that is no redirect is returned, one at the limit is returned or raised
   as the policy says, any other had no usable location.
   */
  predicate EndsRight(s: Setup, i: nat, request: Request, chased: Chased) {
    var sent, hops := chased.sent, chased.hops;
    && |hops| <= |sent|
    && (sent == [] <==> request.body == Some(Streaming))
    && (sent == [] ==> chased.result == Err(BodyNotReplayable))
    && (|hops| < |sent| ==>
          var failed := Delivered(s, sent[|sent| - 1], s.server(i + |sent| - 1)).0;
          failed.Err? && chased.result == Err(SendFailed(failed.error)))
    && (|hops| == |sent| > 0 ==>
          var last := hops[|hops| - 1].response;
          if !(300 <= last.status < 400) then chased.result.Ok?
          else if i + |hops| >= s.maxRedirects then
            if s.raiseOnExceeded then chased.result == Err(TooManyRedirects(s.maxRedirects)) else chased.result.Ok?
          else if last.location.None? then chased.result == Err(MissingLocation)
          else
            && s.join(sent[|sent| - 1].url, last.location.value) == None
            && chased.result == Err(BadLocation(last.location.value)))
  }

  lemma {:induction false} FollowEnds(s: Setup, i: nat, request: Request, jar: Jar)
    ensures EndsRight(s, i, request, Follow(s, i, request, jar))
    decreases s.maxRedirects - i
  {
    hide Follow, Delivered, GoesOn;
    if GoesOn(s, i, request) {
      var hop, tries, rest := FollowStep(s, i, request, jar);
      NextClonable(s, i, request, hop);
      FollowEnds(s, i + 1, Next(s, i, request, hop), JarAfter(jar, hop));
      hide IsRedirect, Clonable, Next, JarAfter, Continues;
    } else {
      StopEnds(s, i, request, jar);
    }
  }

  lemma StopEnds(s: Setup, i: nat, request: Request, jar: Jar)
    requires !GoesOn(s, i, request)
    ensures EndsRight(s, i, request, Follow(s, i, request, jar))
  {
    hide Follow, Delivered;
    FollowStop(s, i, request, jar);
  }

  /** A redirect never makes a replayable request unreplayable. */
  lemma NextClonable(s: Setup, i: nat, request: Request, hop: Pending)
    requires Clonable(request) && Continues(s, i, request, hop)
    ensures Clonable(Next(s, i, request, hop))
  {
  }

  function MaxAttempts(retry: Option<Retry>): nat {
    if retry.None? || retry.value.total < 0 then 1 else 1 + retry.value.total
  }

  lemma DeliveredBounds(s: Setup, request: Request, t: Trace)
    ensures var (result, tries) := Delivered(s, request, t);
            && tries <= MaxAttempts(s.retry)
            && (result.Ok? ==> tries > 0 && result.value.numRetries == |result.value.history| == tries - 1)
  {
    if s.retry.Some? {
      RunTelemetry(s.retry.value, Retryable(s.retry.value, request.verb), Clonable(request), t, 0);
    }
  }

  /** Redirects times retries: how many sends a chain makes, and how many attempts in all. */
  lemma {:induction false} FollowBounds(s: Setup, i: nat, request: Request, jar: Jar)
    ensures var chased := Follow(s, i, request, jar);
            && |chased.sent| <= (if s.maxRedirects <= i then 1 else s.maxRedirects - i)
            && chased.attempts <= |chased.sent| * MaxAttempts(s.retry)
    decreases s.maxRedirects - i
  {
    hide Follow, Delivered, MaxAttempts, GoesOn;
    DeliveredBounds(s, request, s.server(i));
    if GoesOn(s, i, request) {
      var hop, tries, rest := FollowStep(s, i, request, jar);
      FollowBounds(s, i + 1, Next(s, i, request, hop), JarAfter(jar, hop));
      OneMoreTimes(|rest.sent|, MaxAttempts(s.retry));
    } else {
      FollowStop(s, i, request, jar);
    }
  }

  lemma OneMoreTimes(n: nat, k: nat)
    ensures (n + 1) * k == n * k + k
  {
  }

  function RetriesOf(hops: seq<Pending>): nat {
    if hops == [] then 0 else hops[0].numRetries + RetriesOf(hops[1..])
  }

  function HistoryOf(hops: seq<Pending>): History {
    if hops == [] then [] else hops[0].history + HistoryOf(hops[1..])
  }

  /** `with_retries`: the telemetry of earlier hops put in front of a response's own. */
  function Added(hops: seq<Pending>, p: Pending): Pending {
    p.(numRetries := RetriesOf(hops) + p.numRetries, history := HistoryOf(hops) + p.history)
  }

  /** A returned response that reports the retries of all hops, in order, and as many as it lists. */
  predicate Reports(chased: Chased) {
    chased.result.Ok? ==>
      && |chased.hops| == |chased.sent| > 0
      && chased.result.value.response == chased.hops[|chased.hops| - 1].response
      && chased.result.value.numRetries == RetriesOf(chased.hops) == |chased.result.value.history|
      && chased.result.value.history == HistoryOf(chased.hops)
  }

  lemma {:induction false} FollowTelemetry(s: Setup, i: nat, request: Request, jar: Jar)
    ensures Reports(Follow(s, i, request, jar))
    decreases s.maxRedirects - i
  {
    hide Follow, Delivered, Reports, After, GoesOn;
    DeliveredBounds(s, request, s.server(i));
    if GoesOn(s, i, request) {
      var hop, tries, rest := FollowStep(s, i, request, jar);
      FollowTelemetry(s, i + 1, Next(s, i, request, hop), JarAfter(jar, hop));
      AfterReports(request, hop, tries, rest);
    } else {
      StopReports(s, i, request, jar);
    }
  }

  lemma StopReports(s: Setup, i: nat, request: Request, jar: Jar)
    requires !GoesOn(s, i, request)
    ensures Reports(Follow(s, i, request, jar))
  {
    FollowStop(s, i, request, jar);
    DeliveredBounds(s, request, s.server(i));
    hide Follow, Delivered, Reports, JarAfter;
    OneHopReports(Follow(s, i, request, jar));
  }

  lemma OneHopReports(chased: Chased)
    requires chased.result.Ok? ==> chased.hops == [chased.result.value] && |chased.sent| == 1
    requires chased.result.Ok? ==> chased.result.value.numRetries == |chased.result.value.history|
    ensures Reports(chased)
  {
    if chased.result.Ok? {
      OneHopTelemetry(chased.result.value, []);
    }
  }

  lemma AfterReports(request: Request, hop: Pending, tries: nat, rest: Chased)
    requires Reports(rest) && hop.numRetries == |hop.history|
    ensures Reports(After(request, hop, tries, rest))
  {
    OneHopTelemetry(hop, rest.hops);
    hide RetriesOf, HistoryOf;
  }

  lemma OneHopTelemetry(hop: Pending, rest: seq<Pending>)
    ensures RetriesOf([hop] + rest) == hop.numRetries + RetriesOf(rest)
    ensures HistoryOf([hop] + rest) == hop.history + HistoryOf(rest)
    ensures RetriesOf([hop]) == hop.numRetries && HistoryOf([hop]) == hop.history
  {
    assert ([hop] + rest)[1..] == rest && [hop][1..] == [];
    assert hop.history + [] == hop.history;
  }

  /** The jar behind hop after hop. */
  function CookiesOf(jar: Jar, hops: seq<Pending>): Jar
    decreases |hops|
  {
    if hops == [] then jar else CookiesOf(JarAfter(jar, hops[0]), hops[1..])
  }

  lemma {:induction false} FollowJar(s: Setup, i: nat, request: Request, jar: Jar)
    ensures var chased := Follow(s, i, request, jar);
            chased.jar == CookiesOf(jar, chased.hops)
    decreases s.maxRedirects - i
  {
    hide Follow, Delivered, GoesOn, JarAfter, Stopped;
    if GoesOn(s, i, request) {
      var hop, tries, rest := FollowStep(s, i, request, jar);
      FollowJar(s, i + 1, Next(s, i, request, hop), JarAfter(jar, hop));
      assert ([hop] + rest.hops)[1..] == rest.hops;
    } else {
      FollowStop(s, i, request, jar);
    }
  }

  /** Hop `k` is a redirect that sets this cookie. */
  predicate Sets(hops: seq<Pending>, k: nat, name: string)
    requires k < |hops|
  {
    300 <= hops[k].response.status < 400 && name in hops[k].response.cookies
  }

  predicate SetBy(hops: seq<Pending>, name: string) {
    exists k :: 0 <= k < |hops| && Sets(hops, k, name)
  }

  /** Hop `k` is the last redirect that sets it. */
  predicate LastSets(hops: seq<Pending>, k: nat, name: string)
    requires k < |hops|
  {
    Sets(hops, k, name) && !SetBy(hops[k + 1..], name)
  }

  /** What a jar has for one name behind some hops: the last redirect's that set it, else what it had. */
  predicate Keeps(before: Jar, hops: seq<Pending>, name: string, after: Jar) {
    && (name in after <==> name in before || SetBy(hops, name))
    && (forall k | 0 <= k < |hops| && LastSets(hops, k, name) :: after[name] == hops[k].response.cookies[name])
    && (name in before && !SetBy(hops, name) ==> after[name] == before[name])
  }

  lemma SetByFirst(hops: seq<Pending>, name: string)
    requires hops != []
    ensures SetBy(hops, name) <==> Sets(hops, 0, name) || SetBy(hops[1..], name)
    ensures forall k | 0 < k < |hops| :: LastSets(hops, k, name) <==> LastSets(hops[1..], k - 1, name)
  {
    var rest := hops[1..];
    assert forall k | 0 <= k < |rest| :: Sets(rest, k, name) == Sets(hops, k + 1, name);
    assert forall k | 0 < k < |hops| :: Sets(hops, k, name) == Sets(rest, k - 1, name);
    forall k | 0 < k < |hops|
      ensures LastSets(hops, k, name) <==> LastSets(rest, k - 1, name)
    {
      assert hops[k + 1..] == rest[k - 1 + 1..];
    }
  }

  lemma {:induction false} CookiesKept(jar: Jar, hops: seq<Pending>, name: string)
    ensures Keeps(jar, hops, name, CookiesOf(jar, hops))
    decreases |hops|
  {
    if hops != [] {
      var rest, next := hops[1..], JarAfter(jar, hops[0]);
      CookiesKept(next, rest, name);
      SetByFirst(hops, name);
      var after := CookiesOf(jar, hops);
      hide SetBy, CookiesOf;
      forall k | 0 <= k < |hops| && LastSets(hops, k, name)
        ensures name in after && after[name] == hops[k].response.cookies[name]
      {
        if k > 0 {
          assert LastSets(rest, k - 1, name);
        }
      }
    }
  }

  /**
   Over any chain the jar ends up with a cookie if and only if it had it or some redirecting
   response set it; its value is what the last of those set, and untouched when there is none.
   */
  lemma FollowFillsJar(s: Setup, i: nat, request: Request, jar: Jar, name: string)
    ensures var chased := Follow(s, i, request, jar);
            Keeps(jar, chased.hops, name, chased.jar)
  {
    FollowJar(s, i, request, jar);
    CookiesKept(jar, Follow(s, i, request, jar).hops, name);
    hide Follow, CookiesOf, Keeps;
  }

  // ---------------------------------------------------------------- the client

  class Client {
    var cookies: Jar

    constructor ()
      ensures cookies == map[]
    {
      cookies := map[];
    }

    method AccumulateCookies(cookies: Jar)
      modifies this
      ensures this.cookies == old(this.cookies) + cookies
    {
      if cookies == map[] {
        assert this.cookies + cookies == this.cookies;
        return;
      }
      this.cookies := this.cookies + cookies;
    }

    method TransportSend(s: Setup, request: Request, t: Trace)
      returns (result: Result<Pending, SendError>, attempts: nat)
      ensures (result, attempts) == Delivered(s, request, t)
    {
      match s.retry
      case Some(r) =>
        var sleeps;
        result, attempts, sleeps := SendWithRetries(r, request.verb, Clonable(request), t);
      case None =>
        attempts := 1;
        match t.outcome(0)
        case Replied(response) => result := Ok(Pending(response, 0, []));
        case Failed(_, message) => result := Err(TransportError(message));
    }

    /** Behind a hop: the next request, or what the chain stops with. */
    method NextHop(s: Setup, used: nat, request: Request, hop: Pending)
      returns (next: Option<Request>, error: Option<ClientError>)
      ensures next.Some? <==> Continues(s, used, request, hop)
      ensures next.Some? ==> next.value == Next(s, used, request, hop)
      ensures next.None? ==> Stopped(s, used, request, hop) == if error.Some? then Err(error.value) else Ok(hop)
    {
      hide Redirected;
      next, error := None, None;
      if !IsRedirect(hop.response) {
        return;
      }
      if used + 1 >= s.maxRedirects {
        if s.raiseOnExceeded {
          error := Some(TooManyRedirects(s.maxRedirects));
        }
        return;
      }
      if hop.response.location.None? {
        return None, Some(MissingLocation);
      }
      var url := s.join(request.url, hop.response.location.value);
      if url.None? {
        return None, Some(BadLocation(hop.response.location.value));
      }
      var redirected := RedirectedRequest(request, hop.response.status, url.value);
      next := Some(redirected);
    }

    method FollowRedirects(s: Setup, first: Request) returns (chased: Chased)
      modifies this
      ensures chased == Follow(s, 0, first, old(cookies)) && cookies == chased.jar
    {
      hide Delivered, Redirected, Follow, AfterAll, After, Continues, Next, Stopped, RetriesOf, HistoryOf;
      var request, used, numRetries, history := first, 0, 0, [];
      var sent: seq<Request>, hops: seq<Pending>, attempts: nat := [], [], 0;
      NoHops();
      ghost var goal := Follow(s, 0, first, cookies);
      AfterNothing(goal);
      while true
        invariant AfterAll(sent, hops, attempts, Follow(s, used, request, cookies)) == goal
        invariant numRetries == RetriesOf(hops) && history == HistoryOf(hops)
        decreases s.maxRedirects - used
      {
        ghost var jar, done := cookies, (sent, hops, attempts);
        if !Clonable(request) {
          FollowStop(s, used, request, jar);
          AfterFailure(sent, hops, attempts, Follow(s, used, request, jar));
          return Chased(Err(BodyNotReplayable), sent, hops, attempts, cookies);
        }
        var result, tries := TransportSend(s, request, s.server(used));
        sent, attempts := sent + [request], attempts + tries;
        if result.Err? {
          FollowStop(s, used, request, jar);
          AfterFailure(done.0, done.1, done.2, Follow(s, used, request, jar));
          return Chased(Err(SendFailed(result.error)), sent, hops, attempts, cookies);
        }
        var hop := result.value;
        SnocHops(hops, hop);
        hops := hops + [hop];
        numRetries, history := numRetries + hop.numRetries, history + hop.history;
        if IsRedirect(hop.response) {
          AccumulateCookies(hop.response.cookies);
        }
        assert cookies == JarAfter(jar, hop);
        var next, error := NextHop(s, used, request, hop);
        if next.None? {
          FollowStop(s, used, request, jar);
          AfterStop(done.0, done.1, done.2, request, hop, tries, Stopped(s, used, request, hop), cookies);
          return Chased(
            if error.Some? then Err(error.value) else Ok(hop.(numRetries := numRetries, history := history)),
            sent, hops, attempts, cookies);
        }
        ghost var step, tried, rest := FollowStep(s, used, request, jar);
        AfterOneMore(done.0, done.1, done.2, request, hop, tries, rest);
        NextInLimit(s, used, request, hop);
        request := next.value;
        used := used + 1;
      }
    }

    /** The final response's cookies go into the jar as well. */
    method Send(s: Setup, request: Request, followRedirects: bool)
      returns (result: Result<Pending, ClientError>, ghost chased: Chased)
      modifies this
      ensures followRedirects ==> chased == Follow(s, 0, request, old(cookies)) && result == chased.result
      ensures !followRedirects ==>
                var (sentResult, tries) := Delivered(s, request, s.server(0));
                && chased.jar == old(cookies)
                && result == (if sentResult.Ok? then Ok(sentResult.value) else Err(SendFailed(sentResult.error)))
      ensures cookies == if result.Ok? then chased.jar + result.value.response.cookies else chased.jar
    {
      if followRedirects {
        var run := FollowRedirects(s, request);
        result, chased := run.result, run;
      } else {
        ghost var jar := cookies;
        var sentResult, tries := TransportSend(s, request, s.server(0));
        result := if sentResult.Ok? then Ok(sentResult.value) else Err(SendFailed(sentResult.error));
        chased := Chased(result, [request], [], tries, jar);
      }
      if result.Ok? {
        AccumulateCookies(result.value.response.cookies);
      }
    }
  }

  /** A chain's earlier hops put in front of the rest of it. */
  function AfterAll(sent: seq<Request>, hops: seq<Pending>, attempts: nat, rest: Chased): Chased {
    Chased(
      if rest.result.Ok? then Ok(Added(hops, rest.result.value)) else rest.result,
      sent + rest.sent, hops + rest.hops, attempts + rest.attempts, rest.jar)
  }

  lemma NextInLimit(s: Setup, i: nat, request: Request, hop: Pending)
    requires Continues(s, i, request, hop)
    ensures i + 1 < s.maxRedirects
  {
  }

  lemma AfterFailure(sent: seq<Request>, hops: seq<Pending>, attempts: nat, rest: Chased)
    requires rest.result.Err? && rest.hops == []
    ensures AfterAll(sent, hops, attempts, rest)
         == Chased(rest.result, sent + rest.sent, hops, attempts + rest.attempts, rest.jar)
  {
    assert hops + [] == hops;
  }

  lemma AfterStop(
    sent: seq<Request>, hops: seq<Pending>, attempts: nat, request: Request, hop: Pending, tries: nat,
    stopped: Result<Pending, ClientError>, jar: Jar)
    requires stopped.Ok? ==> stopped.value == hop
    ensures var all := hops + [hop];
            AfterAll(sent, hops, attempts, Chased(stopped, [request], [hop], tries, jar))
            == Chased(if stopped.Ok? then Ok(hop.(numRetries := RetriesOf(all), history := HistoryOf(all)))
                      else stopped,
                      sent + [request], all, attempts + tries, jar)
  {
    SnocHops(hops, hop);
    hide RetriesOf, HistoryOf;
  }

  lemma NoHops()
    ensures RetriesOf([]) == 0 && HistoryOf([]) == []
  {
  }

  lemma AfterNothing(rest: Chased)
    ensures AfterAll([], [], 0, rest) == rest
  {
    assert [] + rest.sent == rest.sent && [] + rest.hops == rest.hops;
    if rest.result.Ok? {
      assert [] + rest.result.value.history == rest.result.value.history;
    }
  }

  lemma {:induction false} SnocHops(hops: seq<Pending>, hop: Pending)
    ensures RetriesOf(hops + [hop]) == RetriesOf(hops) + hop.numRetries
    ensures HistoryOf(hops + [hop]) == HistoryOf(hops) + hop.history
    decreases |hops|
  {
    if hops == [] {
      assert hops + [hop] == [hop] && [hop][1..] == [];
    } else {
      assert (hops + [hop])[1..] == hops[1..] + [hop];
      SnocHops(hops[1..], hop);
    }
  }

  lemma AfterOneMore(
    sent: seq<Request>, hops: seq<Pending>, attempts: nat, request: Request, hop: Pending, tries: nat, rest: Chased)
    ensures AfterAll(sent, hops, attempts, After(request, hop, tries, rest))
         == AfterAll(sent + [request], hops + [hop], attempts + tries, rest)
  {
    hide RetriesOf, HistoryOf;
    SnocHops(hops, hop);
    OneHopTelemetry(hop, []);
    assert sent + ([request] + rest.sent) == (sent + [request]) + rest.sent;
    assert hops + ([hop] + rest.hops) == (hops + [hop]) + rest.hops;
    if rest.result.Ok? {
      var h := rest.result.value.history;
      assert HistoryOf(hops) + (hop.history + h) == (HistoryOf(hops) + hop.history) + h;
    }
  }
}
