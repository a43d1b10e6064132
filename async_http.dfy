/**
  The `AsyncHttp` client of ouroboros/network/asynchttp.py: persistent
  default headers and proxy settings, the option building of `request`, and
  the redirect loop of `post`.

  The HTTP session is an oracle: each request is answered by one `Exchange`
  given as a parameter.
*/
module Http {
  import opened Wrappers
  import opened HttpOptions
  import opened HttpRedirect

  class AsyncHttp {
    var headers: map<string, string>
    var proxy: Option<string>
    var proxyAuth: Option<BasicAuth>
    var timeout: nat  // whole seconds

    /** The configuration a request reads. */
    function Settings(): Settings
      reads this
    {
      HttpOptions.Settings(headers, proxy, proxyAuth, timeout)
    }

    /** A new client: no default headers, no proxy, the given timeout (30 by default in the source). */
    constructor (timeout: nat)
      ensures headers == map[] && proxy == None && proxyAuth == None
      ensures this.timeout == timeout
    {
      headers := map[];
      proxy := None;
      proxyAuth := None;
      this.timeout := timeout;
    }

    /** Replaces the default header table. */
    method SetHeaders(table: map<string, string>)
      modifies this`headers
      ensures headers == table
    {
      headers := table;
    }

    /** Overlays `table` on the default headers; on equal keys the new value wins. */
    method AddHeaders(table: map<string, string>)
      modifies this`headers
      ensures headers.Keys == old(headers).Keys + table.Keys
      ensures forall k :: k in table ==> headers[k] == table[k]
      ensures forall k :: k in old(headers) && k !in table ==> headers[k] == old(headers)[k]
    {
      headers := headers + table;
    }

    /**
      Routes requests through `http://host:port`; credentials are stored when a
      login is given and cleared otherwise.
    */
    method SetProxy(host: string, port: string, login: Option<string>, password: Option<string>, encoding: string)
      modifies this`proxy, this`proxyAuth
      ensures proxy == Some("http://" + host + ":" + port)
      ensures Truthy(proxy)
      ensures proxyAuth == if Truthy(login) then Some(BasicAuth(login.value, password, encoding)) else None
    {
      proxy := Some("http://" + host + ":" + port);
      if Truthy(login) {
        proxyAuth := Some(BasicAuth(login.value, password, encoding));
      } else {
        proxyAuth := None;
      }
    }

    /** Forgets the proxy and its credentials. */
    method ClearProxy()
      modifies this`proxy, this`proxyAuth
      ensures proxy == None && proxyAuth == None
    {
      proxy := None;
      proxyAuth := None;
    }

    /**
      `request(verb, url, **kwargs)`: builds the options step by step, hands
      the call to the session, and returns the reply or the raised error. A
      keyword that binds `self`, `method` or `url` a second time fails the call
      itself; one that binds `timeout` a second time fails the session call.
      Either way nothing is sent. `exchange` is the session's answer; `None`
      means the oracle has none left, and the model stops before sending. The
      client's own state, its default headers included, is left untouched.
    */
    method Request(verb: string, url: Option<string>, kwargs: Options, exchange: Option<Exchange>)
      returns (sent: Option<Sent>, outcome: Outcome)
      requires WellFormed(kwargs)
      ensures DuplicateKeyword(kwargs).Some? ==> sent == None && outcome == TypeError(DuplicateKeyword(kwargs).value)
      ensures DuplicateKeyword(kwargs).None? && exchange.None? ==> sent == None && outcome == Unfinished
      ensures DuplicateKeyword(kwargs).None? && exchange.Some? ==>
        && sent == Some(Sent(verb, url, EffectiveOptions(Settings(), kwargs)))
        && outcome == RequestOutcome(verb, url, timeout, exchange.value)
    {
      if SelfKey in kwargs || UrlKey in kwargs || MethodKey in kwargs {
        return None, TypeError(DuplicateKeyword(kwargs).value);
      }
      var opts := kwargs;
      if NoQuotoPath in opts {
        opts := opts - {NoQuotoPath};  // popped into a parameter bag that is never used
      }
      var hdr := headers;
      hdr := hdr + CallerHeaders(opts);
      opts := opts[HeadersKey := HeaderTable(hdr)];
      if Truthy(proxy) {
        opts := opts[ProxyKey := Text(proxy.value)];
      }
      if proxyAuth.Some? {
        opts := opts[ProxyAuthKey := Credentials(proxyAuth.value)];
      }
      assert opts == EffectiveOptions(Settings(), kwargs);
      if TimeoutKey in opts {
        // `timeout = self.timeout` and `**kwargs` both bind `timeout`
        return None, TypeError(TimeoutKey);
      }
      if exchange.None? {
        return None, Unfinished;
      }
      sent := Some(Sent(verb, url, opts));
      match exchange.value
      case Answered(reply) =>
        outcome := Done(reply);
      case TimedOut =>
        outcome := Timeout(verb, url, timeout);
      case Failed(reason) =>
        outcome := TransportError(reason);
    }

    /** `get(url, **kwargs)`: a single request with the `get` method, no redirect handling of its own. */
    method Get(url: string, kwargs: Options, exchange: Exchange) returns (sent: Option<Sent>, outcome: Outcome)
      requires WellFormed(kwargs)
      ensures DuplicateKeyword(kwargs).Some? ==> sent == None && outcome == TypeError(DuplicateKeyword(kwargs).value)
      ensures DuplicateKeyword(kwargs).None? ==>
        && sent == Some(Sent("get", Some(url), EffectiveOptions(Settings(), kwargs)))
        && outcome == RequestOutcome("get", Some(url), timeout, exchange)
    {
      sent, outcome := Request("get", Some(url), kwargs, Some(exchange));
    }

    /**
      `post(url, **kwargs)`: the redirect loop. Returns the requests issued and
      how the loop ended, exactly as `PostSpec` describes.
    */
    method Post(url: string, kwargs: Options, exchanges: seq<Exchange>)
      returns (sent: seq<Sent>, outcome: Outcome)
      requires WellFormed(kwargs)
      ensures (sent, outcome) == PostSpec(Settings(), url, kwargs, exchanges)
    {
      var kw := WithRedirectDefault(kwargs);
      var verb := "post";
      var target: Option<string> := Some(url);
      ghost var st := Settings();
      ghost var spec := PostSpec(st, url, kwargs, exchanges);
      sent := [];
      var i := 0;
      while true
        invariant i <= |exchanges|
        invariant WellFormed(kw)
        invariant spec.0 == sent + PostRun(st, verb, target, kw, exchanges[i..]).0
        invariant spec.1 == PostRun(st, verb, target, kw, exchanges[i..]).1
        decreases |exchanges| - i
      {
        var next := if i < |exchanges| then Some(exchanges[i]) else None;
        var request, result := Request(verb, target, kw, next);
        if request.None? {
          assert PostRun(st, verb, target, kw, exchanges[i..]) == ([], result);
          assert sent + [] == sent;
          outcome := result;
          assert spec == (sent, outcome);
          return;
        }
        assert exchanges[i..][0] == exchanges[i] && exchanges[i..][1..] == exchanges[i + 1..];
        PostRunStep(st, verb, target, kw, exchanges[i..]);
        sent := sent + [request.value];
        if result.Done? && result.reply.status == Found {
          verb := "get";
          kw := kw - {DataKey, HeadersKey};
        }
        if result.Done? && IsRedirect(result.reply.status) {
          target := result.reply.location;
          i := i + 1;
          continue;
        }
        outcome := result;
        assert PostRun(st, verb, target, kw, exchanges[i..]).0 == [request.value];
        return;
      }
    }
  }
}
