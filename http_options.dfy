/**
  The keyword-argument bag of ouroboros/network/asynchttp.py and the options
  `AsyncHttp.request` builds from it before handing the call to the HTTP
  session.
*/
module HttpOptions {
  import opened Wrappers

  /** `aiohttp.BasicAuth(login, password, encoding)`, kept as the three values it is built from. */
  datatype BasicAuth = BasicAuth(login: string, password: Option<string>, encoding: string)

  /** A value in a request's keyword arguments. */
  datatype Value =
    | Flag(flag: bool)
    | Text(text: string)
    | HeaderTable(table: map<string, string>)
    | Credentials(auth: BasicAuth)
    | Opaque(repr: string)  // any other pass-through value: body data, query parameters, ...

  /** The `**kwargs` dictionary. */
  type Options = map<string, Value>

  const NoQuotoPath := "noQuotoPath"
  const HeadersKey := "headers"
  const DataKey := "data"
  const ProxyKey := "proxy"
  const ProxyAuthKey := "proxy_auth"
  const AllowRedirectsKey := "allow_redirects"
  const SelfKey := "self"
  const MethodKey := "method"
  const UrlKey := "url"
  const TimeoutKey := "timeout"

  /** The client state `request` consults: default headers, proxy, proxy credentials, timeout. */
  datatype Settings = Settings(
    headers: map<string, string>,
    proxy: Option<string>,
    proxyAuth: Option<BasicAuth>,
    timeout: nat)

  /** `hdr.update(kwargs.get('headers', {}))` needs the per-call headers to be a mapping. */
  predicate WellFormed(kwargs: Options)
  {
    HeadersKey in kwargs ==> kwargs[HeadersKey].HeaderTable?
  }

  /**
    A keyword the caller gives for a parameter that is already bound, which
    makes Python raise `TypeError` before anything is sent. The binding
    happens in stages, and the model reports a keyword of the earliest stage:
    `self` and `url` are parameters of `get` and `post` themselves; `method`
    is bound again when they call `request`; `timeout` is bound again when
    `request` calls the session with `timeout = self.timeout`. For a direct
    call of `request`, `self`, `url` and `method` all belong to the first
    stage.
  */
  function DuplicateKeyword(kwargs: Options): (k: Option<string>)
    ensures k.None? <==> SelfKey !in kwargs && UrlKey !in kwargs && MethodKey !in kwargs && TimeoutKey !in kwargs
    ensures k.Some? ==> k.value in kwargs && k.value in {SelfKey, UrlKey, MethodKey, TimeoutKey}
    ensures k == Some(MethodKey) ==> SelfKey !in kwargs && UrlKey !in kwargs
    ensures k == Some(TimeoutKey) ==> SelfKey !in kwargs && UrlKey !in kwargs && MethodKey !in kwargs
  {
    if SelfKey in kwargs then Some(SelfKey)
    else if UrlKey in kwargs then Some(UrlKey)
    else if MethodKey in kwargs then Some(MethodKey)
    else if TimeoutKey in kwargs then Some(TimeoutKey)
    else None
  }

  function CallerHeaders(kwargs: Options): map<string, string>
    requires WellFormed(kwargs)
  {
    if HeadersKey in kwargs then kwargs[HeadersKey].table else map[]
  }

  /** Python truthiness of an optional string: present and non-empty. */
  predicate Truthy(s: Option<string>)
  {
    s.Some? && s.value != ""
  }

  /** Key `k` is handed on exactly as the caller gave it (or stays absent). */
  predicate PassedOn(kwargs: Options, opts: Options, k: string)
  {
    && (k in opts <==> k in kwargs)
    && (k in kwargs ==> opts[k] == kwargs[k])
  }

  /**
    The options `request` hands to the session: `noQuotoPath` removed, the
    headers the defaults overlaid by the per-call headers on exact key
    equality, the proxy and its credentials injected when configured, and
    everything else passed on untouched.
  */
  function EffectiveOptions(s: Settings, kwargs: Options): (opts: Options)
    requires WellFormed(kwargs)
    ensures NoQuotoPath !in opts
    ensures HeadersKey in opts && opts[HeadersKey].HeaderTable?
    ensures opts[HeadersKey].table.Keys == s.headers.Keys + CallerHeaders(kwargs).Keys
    ensures forall k :: k in CallerHeaders(kwargs) ==> opts[HeadersKey].table[k] == CallerHeaders(kwargs)[k]
    ensures forall k :: k in s.headers && k !in CallerHeaders(kwargs) ==> opts[HeadersKey].table[k] == s.headers[k]
    ensures Truthy(s.proxy) ==> ProxyKey in opts && opts[ProxyKey] == Text(s.proxy.value)
    ensures !Truthy(s.proxy) ==> PassedOn(kwargs, opts, ProxyKey)
    ensures s.proxyAuth.Some? ==> ProxyAuthKey in opts && opts[ProxyAuthKey] == Credentials(s.proxyAuth.value)
    ensures s.proxyAuth.None? ==> PassedOn(kwargs, opts, ProxyAuthKey)
    ensures forall k :: k !in {NoQuotoPath, HeadersKey, ProxyKey, ProxyAuthKey} ==> PassedOn(kwargs, opts, k)
  {
    var popped := kwargs - {NoQuotoPath};
    var withHeaders := popped[HeadersKey := HeaderTable(s.headers + CallerHeaders(kwargs))];
    var withProxy := if Truthy(s.proxy) then withHeaders[ProxyKey := Text(s.proxy.value)] else withHeaders;
    if s.proxyAuth.Some? then withProxy[ProxyAuthKey := Credentials(s.proxyAuth.value)] else withProxy
  }

  /**
    Header keys collide only when they are equal: a per-call `x-token` does
    not replace a default `X-Token`, both are sent.
  */
  lemma ExactKeyCollision(s: Settings)
    requires s.headers == map["X-Token" := "abc"]
    ensures var opts := EffectiveOptions(s, map[HeadersKey := HeaderTable(map["x-token" := "xyz"])]);
      opts[HeadersKey].table == map["X-Token" := "abc", "x-token" := "xyz"]
  {
  }
}
