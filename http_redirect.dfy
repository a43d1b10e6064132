/**
  The redirect loop of `AsyncHttp.post` in ouroboros/network/asynchttp.py, as
  a specification over a finite sequence of transport exchanges.

  The transport is an oracle: the i-th request the loop issues receives the
  i-th exchange. When the exchanges run out while the server is still
  redirecting, the run is `Unfinished` (the source would keep looping). A
  keyword that binds a parameter twice ends the run with `TypeError` before
  the first request.
*/
module HttpRedirect {
  import opened Wrappers
  import opened HttpOptions

  const MovedPermanently := 301
  const Found := 302
  const SeeOther := 303
  const TemporaryRedirect := 307

  /** The statuses after which `post` follows the `Location` header. */
  predicate IsRedirect(status: int)
  {
    status == Found || status == MovedPermanently || status == SeeOther || status == TemporaryRedirect
  }

  /** Status and `Location` header of a completed exchange. */
  datatype Reply = Reply(status: int, location: Option<string>)

  /** What the transport does with one request. */
  datatype Exchange =
    | Answered(reply: Reply)
    | TimedOut
    | Failed(reason: string)

  /** One request handed to the HTTP session. */
  datatype Sent = Sent(verb: string, url: Option<string>, options: Options)

  /** How a request, or a whole `post`, ends. */
  datatype Outcome =
    | Done(reply: Reply)
    | Timeout(verb: string, url: Option<string>, seconds: nat)  // the re-raised `TimeoutError`
    | TransportError(reason: string)
    | TypeError(keyword: string)  // a keyword bound twice; raised before anything is sent
    | Unfinished

  /** What `request` returns, or raises, for one exchange. */
  function RequestOutcome(verb: string, url: Option<string>, timeout: nat, e: Exchange): (o: Outcome)
    ensures o.Done? <==> e.Answered?
    ensures e.Answered? ==> o.reply == e.reply
    ensures e.TimedOut? ==> o == Timeout(verb, url, timeout)
    ensures e.Failed? ==> o == TransportError(e.reason)
  {
    match e
    case Answered(reply) => Done(reply)
    case TimedOut => Timeout(verb, url, timeout)
    case Failed(reason) => TransportError(reason)
  }

  predicate FollowsRedirect(e: Exchange)
  {
    e.Answered? && IsRedirect(e.reply.status)
  }

  predicate IsFoundAt(exchanges: seq<Exchange>, j: nat)
  {
    j < |exchanges| && exchanges[j].Answered? && exchanges[j].reply.status == Found
  }

  /** Some exchange before the i-th was answered with `302 Found`. */
  predicate FoundBefore(exchanges: seq<Exchange>, i: nat)
  {
    exists j :: 0 <= j < i && IsFoundAt(exchanges, j)
  }

  /** `kwargs.setdefault('allow_redirects', False)` */
  function WithRedirectDefault(kwargs: Options): (r: Options)
    ensures AllowRedirectsKey in r
    ensures r[AllowRedirectsKey] == if AllowRedirectsKey in kwargs then kwargs[AllowRedirectsKey] else Flag(false)
    ensures forall k :: k != AllowRedirectsKey ==> PassedOn(kwargs, r, k)
    ensures DuplicateKeyword(r) == DuplicateKeyword(kwargs)
  {
    if AllowRedirectsKey in kwargs then kwargs else kwargs[AllowRedirectsKey := Flag(false)]
  }

  /** The options left after a `302`: `data` and `headers` deleted. */
  function AfterFound(kwargs: Options): (r: Options)
    ensures WellFormed(r)
    ensures DataKey !in r && HeadersKey !in r
    ensures forall k :: k != DataKey && k != HeadersKey ==> PassedOn(kwargs, r, k)
    ensures DuplicateKeyword(r) == DuplicateKeyword(kwargs)
  {
    kwargs - {DataKey, HeadersKey}
  }

  /**
    The requests `post`'s loop issues from the given method, URL and options,
    and how it ends.
  */
  function PostRun(s: Settings, verb: string, url: Option<string>, kwargs: Options, exchanges: seq<Exchange>)
    : (run: (seq<Sent>, Outcome))
    requires WellFormed(kwargs)
    decreases |exchanges|
    ensures |run.0| <= |exchanges|
    ensures run.0 == [] <==> exchanges == [] || DuplicateKeyword(kwargs).Some?
  {
    if DuplicateKeyword(kwargs).Some? then ([], TypeError(DuplicateKeyword(kwargs).value))
    else if exchanges == [] then ([], Unfinished)
    else
      var sent := Sent(verb, url, EffectiveOptions(s, kwargs));
      var e := exchanges[0];
      if FollowsRedirect(e) then
        var verb' := if e.reply.status == Found then "get" else verb;
        var kwargs' := if e.reply.status == Found then AfterFound(kwargs) else kwargs;
        var rest := PostRun(s, verb', e.reply.location, kwargs', exchanges[1..]);
        ([sent] + rest.0, rest.1)
      else
        ([sent], RequestOutcome(verb, url, s.timeout, e))
  }

  /**
    `post(url, **kwargs)`: a `post` with `allow_redirects` defaulted to `False`.
    A keyword bound twice raises before any request; otherwise the first
    request is a `post` to `url`.
  */
  function PostSpec(s: Settings, url: string, kwargs: Options, exchanges: seq<Exchange>): (r: (seq<Sent>, Outcome))
    requires WellFormed(kwargs)
    ensures DuplicateKeyword(kwargs).Some? ==> r == ([], TypeError(DuplicateKeyword(kwargs).value))
    ensures DuplicateKeyword(kwargs).None? ==> (r.0 == [] <==> exchanges == [])
    ensures r.0 != [] ==> r.0[0].verb == "post" && r.0[0].url == Some(url)
  {
    PostRun(s, "post", Some(url), WithRedirectDefault(kwargs), exchanges)
  }

  // ---------------------------------------------------------------------
  // Lemmas
  // ---------------------------------------------------------------------

  /**
    A keyword bound twice ends the run with `TypeError` before any request.
    Otherwise the loop issues one request per exchange up to and including
    the first exchange that is not a redirect; that exchange decides the
    outcome, and the response is returned unchanged. Without one, the run is
    unfinished.
  */
  lemma {:induction false} PostRunEnds(s: Settings, verb: string, url: Option<string>, kwargs: Options, exchanges: seq<Exchange>)
    requires WellFormed(kwargs)
    decreases |exchanges|
    ensures var (sent, outcome) := PostRun(s, verb, url, kwargs, exchanges);
      && |sent| <= |exchanges|
      && (sent == [] <==> exchanges == [] || DuplicateKeyword(kwargs).Some?)
      && (outcome.TypeError? <==> DuplicateKeyword(kwargs).Some?)
      && (DuplicateKeyword(kwargs).Some? ==> outcome == TypeError(DuplicateKeyword(kwargs).value))
      && (outcome == Unfinished <==>
            DuplicateKeyword(kwargs).None? && forall i :: 0 <= i < |exchanges| ==> FollowsRedirect(exchanges[i]))
      && (outcome == Unfinished ==> |sent| == |exchanges|)
      && (outcome != Unfinished && !outcome.TypeError? ==>
            && sent != []
            && !FollowsRedirect(exchanges[|sent| - 1])
            && outcome == RequestOutcome(sent[|sent| - 1].verb, sent[|sent| - 1].url, s.timeout, exchanges[|sent| - 1]))
  {
    if DuplicateKeyword(kwargs).None? && exchanges != [] && FollowsRedirect(exchanges[0]) {
      var e := exchanges[0];
      var verb' := if e.reply.status == Found then "get" else verb;
      var kwargs' := if e.reply.status == Found then AfterFound(kwargs) else kwargs;
      PostRunEnds(s, verb', e.reply.location, kwargs', exchanges[1..]);
      PostRunStep(s, verb, url, kwargs, exchanges);
      assert forall i :: 1 <= i < |exchanges| ==> exchanges[1..][i - 1] == exchanges[i];
    }
  }

  /** One turn of `post`'s loop: the first request, then the run from the next exchange on. */
  lemma PostRunStep(s: Settings, verb: string, url: Option<string>, kwargs: Options, exchanges: seq<Exchange>)
    requires WellFormed(kwargs) && DuplicateKeyword(kwargs).None? && exchanges != []
    ensures var e := exchanges[0];
      var first := Sent(verb, url, EffectiveOptions(s, kwargs));
      var found := e.Answered? && e.reply.status == Found;
      PostRun(s, verb, url, kwargs, exchanges) ==
        if FollowsRedirect(e) then
          var rest := PostRun(s, if found then "get" else verb, e.reply.location,
                              if found then AfterFound(kwargs) else kwargs, exchanges[1..]);
          ([first] + rest.0, rest.1)
        else
          ([first], RequestOutcome(verb, url, s.timeout, e))
  {
  }

  lemma FoundBeforeStep(exchanges: seq<Exchange>, i: nat)
    requires exchanges != [] && i >= 1
    ensures FoundBefore(exchanges, i) <==> IsFoundAt(exchanges, 0) || FoundBefore(exchanges[1..], i - 1)
  {
    if FoundBefore(exchanges, i) && !IsFoundAt(exchanges, 0) {
      var j :| 0 <= j < i && IsFoundAt(exchanges, j);
      assert IsFoundAt(exchanges[1..], j - 1);
    }
    if FoundBefore(exchanges[1..], i - 1) {
      var j :| 0 <= j < i - 1 && IsFoundAt(exchanges[1..], j);
      assert IsFoundAt(exchanges, j + 1);
    }
  }

  /** The first request goes to the given URL, every later one to the `Location` of the reply before it. */
  lemma {:induction false} PostRunUrls(s: Settings, verb: string, url: Option<string>, kwargs: Options, exchanges: seq<Exchange>)
    requires WellFormed(kwargs)
    decreases |exchanges|
    ensures var sent := PostRun(s, verb, url, kwargs, exchanges).0;
      && (sent != [] ==> sent[0].url == url)
      && (forall i :: 0 <= i < |sent| - 1 ==> FollowsRedirect(exchanges[i]) && sent[i + 1].url == exchanges[i].reply.location)
  {
    if DuplicateKeyword(kwargs).None? && exchanges != [] && FollowsRedirect(exchanges[0]) {
      var e := exchanges[0];
      var verb' := if e.reply.status == Found then "get" else verb;
      var kwargs' := if e.reply.status == Found then AfterFound(kwargs) else kwargs;
      var rest := PostRun(s, verb', e.reply.location, kwargs', exchanges[1..]).0;
      var sent := PostRun(s, verb, url, kwargs, exchanges).0;
      PostRunUrls(s, verb', e.reply.location, kwargs', exchanges[1..]);
      PostRunStep(s, verb, url, kwargs, exchanges);
      assert sent == [Sent(verb, url, EffectiveOptions(s, kwargs))] + rest;
      forall i | 0 <= i < |sent| - 1
        ensures FollowsRedirect(exchanges[i]) && sent[i + 1].url == exchanges[i].reply.location
      {
        assert sent[i + 1] == rest[i];
        if i > 0 {
          assert exchanges[1..][i - 1] == exchanges[i];
        }
      }
    }
  }

  /** The i-th request uses `get` once some earlier reply was a `302`, and the starting method otherwise. */
  lemma {:induction false} PostRunVerbs(s: Settings, verb: string, url: Option<string>, kwargs: Options, exchanges: seq<Exchange>)
    requires WellFormed(kwargs)
    decreases |exchanges|
    ensures var sent := PostRun(s, verb, url, kwargs, exchanges).0;
      forall i :: 0 <= i < |sent| ==> sent[i].verb == if FoundBefore(exchanges, i) then "get" else verb
  {
    assert !FoundBefore(exchanges, 0);
    if DuplicateKeyword(kwargs).None? && exchanges != [] && FollowsRedirect(exchanges[0]) {
      var e := exchanges[0];
      var verb' := if e.reply.status == Found then "get" else verb;
      var kwargs' := if e.reply.status == Found then AfterFound(kwargs) else kwargs;
      var rest := PostRun(s, verb', e.reply.location, kwargs', exchanges[1..]).0;
      var sent := PostRun(s, verb, url, kwargs, exchanges).0;
      PostRunVerbs(s, verb', e.reply.location, kwargs', exchanges[1..]);
      PostRunStep(s, verb, url, kwargs, exchanges);
      assert sent == [Sent(verb, url, EffectiveOptions(s, kwargs))] + rest;
      forall i | 0 < i < |sent|
        ensures sent[i].verb == if FoundBefore(exchanges, i) then "get" else verb
      {
        FoundBeforeStep(exchanges, i);
        assert IsFoundAt(exchanges, 0) == (e.reply.status == Found);
        assert sent[i] == rest[i - 1];
        assert rest[i - 1].verb == if FoundBefore(exchanges[1..], i - 1) then "get" else verb';
      }
    }
  }

  /**
    The i-th request is built from the starting options, with `data` and
    `headers` deleted once some earlier reply was a `302`.
  */
  lemma {:induction false} PostRunOptions(s: Settings, verb: string, url: Option<string>, kwargs: Options, exchanges: seq<Exchange>)
    requires WellFormed(kwargs)
    decreases |exchanges|
    ensures var sent := PostRun(s, verb, url, kwargs, exchanges).0;
      forall i :: 0 <= i < |sent| ==>
        sent[i].options == EffectiveOptions(s, if FoundBefore(exchanges, i) then AfterFound(kwargs) else kwargs)
  {
    assert !FoundBefore(exchanges, 0);
    if DuplicateKeyword(kwargs).None? && exchanges != [] && FollowsRedirect(exchanges[0]) {
      var e := exchanges[0];
      var verb' := if e.reply.status == Found then "get" else verb;
      var kwargs' := if e.reply.status == Found then AfterFound(kwargs) else kwargs;
      var rest := PostRun(s, verb', e.reply.location, kwargs', exchanges[1..]).0;
      var sent := PostRun(s, verb, url, kwargs, exchanges).0;
      PostRunOptions(s, verb', e.reply.location, kwargs', exchanges[1..]);
      PostRunStep(s, verb, url, kwargs, exchanges);
      assert sent == [Sent(verb, url, EffectiveOptions(s, kwargs))] + rest;
      assert AfterFound(AfterFound(kwargs)) == AfterFound(kwargs);
      forall i | 0 < i < |sent|
        ensures sent[i].options == EffectiveOptions(s, if FoundBefore(exchanges, i) then AfterFound(kwargs) else kwargs)
      {
        FoundBeforeStep(exchanges, i);
        assert IsFoundAt(exchanges, 0) == (e.reply.status == Found);
        assert sent[i] == rest[i - 1];
      }
    }
  }

  /** Once a request of `post` uses `get`, every later one does too; no other method ever appears. */
  lemma PostMethodNeverReverts(s: Settings, url: string, kwargs: Options, exchanges: seq<Exchange>)
    requires WellFormed(kwargs)
    ensures var sent := PostSpec(s, url, kwargs, exchanges).0;
      && (sent != [] ==> sent[0].verb == "post")
      && (forall i :: 0 <= i < |sent| ==> sent[i].verb == "post" || sent[i].verb == "get")
      && (forall i, j :: 0 <= i < j < |sent| && sent[i].verb == "get" ==> sent[j].verb == "get")
  {
    var kw := WithRedirectDefault(kwargs);
    PostRunVerbs(s, "post", Some(url), kw, exchanges);
    var sent := PostSpec(s, url, kwargs, exchanges).0;
    forall i, j | 0 <= i < j < |sent| && sent[i].verb == "get"
      ensures sent[j].verb == "get"
    {
      assert sent[i].verb == if FoundBefore(exchanges, i) then "get" else "post";
      var k :| 0 <= k < i && IsFoundAt(exchanges, k);
      assert FoundBefore(exchanges, j);
    }
  }

  /**
    After a `302` the next request uses `get`, sends no `data`, and carries the
    client's default headers alone, whatever the caller passed.
  */
  lemma PostFoundStep(s: Settings, url: string, kwargs: Options, exchanges: seq<Exchange>, i: nat)
    requires WellFormed(kwargs)
    requires i + 1 < |PostSpec(s, url, kwargs, exchanges).0|
    requires exchanges[i].Answered? && exchanges[i].reply.status == Found
    ensures var next := PostSpec(s, url, kwargs, exchanges).0[i + 1];
      && next.url == exchanges[i].reply.location
      && next.verb == "get"
      && DataKey !in next.options
      && HeadersKey in next.options
      && next.options[HeadersKey] == HeaderTable(s.headers)
  {
    var kw := WithRedirectDefault(kwargs);
    var sent := PostSpec(s, url, kwargs, exchanges).0;
    PostRunUrls(s, "post", Some(url), kw, exchanges);
    PostRunVerbs(s, "post", Some(url), kw, exchanges);
    PostRunOptions(s, "post", Some(url), kw, exchanges);
    assert FoundBefore(exchanges, i + 1) by {
      assert IsFoundAt(exchanges, i);
    }
    assert sent[i + 1].options == EffectiveOptions(s, AfterFound(kw));
    DefaultsOnlyAfterFound(s, kw);
  }

  /** Options built after a `302` carry no `data` and exactly the default headers. */
  lemma DefaultsOnlyAfterFound(s: Settings, kwargs: Options)
    ensures var opts := EffectiveOptions(s, AfterFound(kwargs));
      DataKey !in opts && HeadersKey in opts && opts[HeadersKey] == HeaderTable(s.headers)
  {
    var opts := EffectiveOptions(s, AfterFound(kwargs));
    assert CallerHeaders(AfterFound(kwargs)) == map[];
    assert opts[HeadersKey].table == s.headers;
  }

  /**
    A `301`, `303` or `307` re-targets the next request to `Location` and keeps
    its method and options: a `303` does not downgrade to `get`.
  */
  lemma PostRedirectKeeps(s: Settings, url: string, kwargs: Options, exchanges: seq<Exchange>, i: nat)
    requires WellFormed(kwargs)
    requires i + 1 < |PostSpec(s, url, kwargs, exchanges).0|
    requires exchanges[i].Answered? && exchanges[i].reply.status != Found
    ensures var sent := PostSpec(s, url, kwargs, exchanges).0;
      && exchanges[i].reply.status in {MovedPermanently, SeeOther, TemporaryRedirect}
      && sent[i + 1].url == exchanges[i].reply.location
      && sent[i + 1].verb == sent[i].verb
      && sent[i + 1].options == sent[i].options
  {
    var kw := WithRedirectDefault(kwargs);
    PostRunUrls(s, "post", Some(url), kw, exchanges);
    FoundBeforeKept(exchanges, i);
    PostRunVerbs(s, "post", Some(url), kw, exchanges);
    PostRunOptions(s, "post", Some(url), kw, exchanges);
  }

  /** An exchange that is not a `302` adds nothing to `FoundBefore`. */
  lemma FoundBeforeKept(exchanges: seq<Exchange>, i: nat)
    requires i < |exchanges| && !IsFoundAt(exchanges, i)
    ensures FoundBefore(exchanges, i + 1) == FoundBefore(exchanges, i)
  {
    if FoundBefore(exchanges, i + 1) {
      var k :| 0 <= k < i + 1 && IsFoundAt(exchanges, k);
      assert k < i;
    }
  }

  /**
    Every request of `post` carries `allow_redirects`, the caller's value when
    given and `False` otherwise, and never carries `noQuotoPath`.
  */
  lemma PostOptionsDefaults(s: Settings, url: string, kwargs: Options, exchanges: seq<Exchange>)
    requires WellFormed(kwargs)
    ensures forall sent <- PostSpec(s, url, kwargs, exchanges).0 ::
      && NoQuotoPath !in sent.options
      && AllowRedirectsKey in sent.options
      && sent.options[AllowRedirectsKey] == if AllowRedirectsKey in kwargs then kwargs[AllowRedirectsKey] else Flag(false)
  {
    PostRunOptions(s, "post", Some(url), WithRedirectDefault(kwargs), exchanges);
  }
}
