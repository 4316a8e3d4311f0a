/**
 * The `Client` class of the SDK: composes request URIs from the configured
 * base URL and a resource section, and issues the four HTTP verbs through a
 * transport. The transport (`RestClient.request`) is a parameter: any total
 * function from a request to a response.
 */
module IrisClient {
  import opened Wrappers
  import opened Trim

  /** The success status the SDK compares against (`HTTP_OK` of the REST helper). */
  const HTTP_OK: int := 200

  /** Path separator trimmed from the base URL and the section. */
  const Slash: char := '/'

  /** Connection settings; only `url`, `username` and `password` are read here. */
  datatype Config = Config(url: string, accountId: string, username: string, password: string)

  datatype Client = Client(config: Config)

  datatype Verb = DELETE | GET | POST | PUT

  /** Query parameters, passed through untouched. */
  type Params = map<string, string>

  /** One call of the transport: verb, URL, basic-auth pair, query, body. */
  datatype Request = Request(
    verb: Verb,
    uri: string,
    auth: (string, string),
    params: Option<Params>,
    data: Option<string>)

  /** The transport's answer; `content` is the already decoded body text. */
  datatype Response = Response(status: int, content: string)

  type Transport = Request -> Response

  /** What a verb returns to its caller, together with the requests it sent. */
  datatype Exchange<T> = Exchange(value: T, sent: seq<Request>)

  /** `Client.get` returns the status code or the body, depending on a flag. */
  datatype GetResult = StatusCode(code: int) | Content(text: string)

  /** The basic-auth pair every verb sends. */
  function Credentials(config: Config): (string, string) {
    (config.username, config.password)
  }

  /**
   * `_section` in `get_uri`: the section with its slash runs removed at both
   * ends, empty exactly when the section is absent or made only of '/'.
   */
  function SectionPath(section: Option<string>): (r: string)
    ensures r == [] <==> section.None? || AllChar(section.value, Slash)
    ensures r == [] || (r[0] != Slash && r[|r| - 1] != Slash)
    ensures section.Some? ==> |r| <= |section.value|
  {
    match section
    case None => ""
    case Some(s) => Strip(s, Slash)
  }

  /**
   * `Client.get_uri`: the base URL without its trailing slashes, then, when the
   * section names a sub-path, one '/' and the section without its end slashes.
   */
  function GetUri(client: Client, section: Option<string>): (r: string)
    ensures r == [] || r[|r| - 1] != Slash
    ensures var base := StripRight(client.config.url, Slash);
      |base| <= |r| && r[..|base|] == base
    ensures section.None? || AllChar(section.value, Slash) ==>
      r == StripRight(client.config.url, Slash)
    ensures section.Some? && !AllChar(section.value, Slash) ==>
      var base := StripRight(client.config.url, Slash);
      && r == base + [Slash] + Strip(section.value, Slash)
      && r[|base| + 1] != Slash
      && (base == [] || r[|base| - 1] != Slash)
  {
    var base := StripRight(client.config.url, Slash);
    var path := SectionPath(section);
    if path == [] then base
    else
      assert section.Some? && path == Strip(section.value, Slash);
      JoinShape(base, path);
      base + [Slash] + path
  }

  /** Joining with one '/' two parts that have no '/' at the seam or at the end. */
  lemma JoinShape(base: string, path: string)
    requires base == [] || base[|base| - 1] != Slash
    requires path != [] && path[0] != Slash && path[|path| - 1] != Slash
    ensures var r := base + [Slash] + path;
      && r[..|base|] == base
      && r[|base|] == Slash
      && r[|base| + 1] != Slash
      && r[|r| - 1] != Slash
      && (base == [] || r[|base| - 1] != Slash)
  {
    var r := base + [Slash] + path;
    assert r[|base| + 1] == path[0];
    assert r[|r| - 1] == path[|path| - 1];
  }

  /** Whether a request goes out with `verb` to `GetUri(section)` under the configured credentials. */
  predicate Targets(req: Request, client: Client, verb: Verb, section: Option<string>) {
    && req.verb == verb
    && req.uri == GetUri(client, section)
    && req.auth == Credentials(client.config)
  }

  /** `Client.delete`: one DELETE; a non-OK status is reported as false, not raised. */
  function Delete(client: Client, transport: Transport, section: Option<string>, params: Option<Params>)
    : (x: Exchange<bool>)
    ensures |x.sent| == 1 && Targets(x.sent[0], client, DELETE, section)
    ensures x.sent[0].params == params && x.sent[0].data == None
    ensures x.value <==> transport(x.sent[0]).status == HTTP_OK
  {
    var req := Request(DELETE, GetUri(client, section), Credentials(client.config), params, None);
    Exchange(transport(req).status == HTTP_OK, [req])
  }

  /** `Client.get`: one GET; the status code when asked for, the body text otherwise. */
  function Get(
    client: Client, transport: Transport, section: Option<string>, params: Option<Params>,
    returnStatus: bool)
    : (x: Exchange<GetResult>)
    ensures |x.sent| == 1 && Targets(x.sent[0], client, GET, section)
    ensures x.sent[0].params == params && x.sent[0].data == None
    ensures returnStatus ==> x.value == StatusCode(transport(x.sent[0]).status)
    ensures !returnStatus ==> x.value == Content(transport(x.sent[0]).content)
  {
    var req := Request(GET, GetUri(client, section), Credentials(client.config), params, None);
    var response := transport(req);
    Exchange(if returnStatus then StatusCode(response.status) else Content(response.content), [req])
  }

  /** `Client.post`: one POST carrying `data`; the raw response is handed back. */
  function Post(
    client: Client, transport: Transport, section: Option<string>, params: Option<Params>,
    data: Option<string>)
    : (x: Exchange<Response>)
    ensures |x.sent| == 1 && Targets(x.sent[0], client, POST, section)
    ensures x.sent[0].params == params && x.sent[0].data == data
    ensures x.value == transport(x.sent[0])
  {
    var req := Request(POST, GetUri(client, section), Credentials(client.config), params, data);
    Exchange(transport(req), [req])
  }

  /** `Client.put`: one PUT carrying `data`; the raw response is handed back. */
  function Put(
    client: Client, transport: Transport, section: Option<string>, params: Option<Params>,
    data: Option<string>)
    : (x: Exchange<Response>)
    ensures |x.sent| == 1 && Targets(x.sent[0], client, PUT, section)
    ensures x.sent[0].params == params && x.sent[0].data == data
    ensures x.value == transport(x.sent[0])
  {
    var req := Request(PUT, GetUri(client, section), Credentials(client.config), params, data);
    Exchange(transport(req), [req])
  }

  /** Slashes added at either end of the section do not change the URI. */
  lemma SectionSlashesIrrelevant(client: Client, p: string, s: string, q: string)
    requires AllChar(p, Slash) && AllChar(q, Slash)
    ensures GetUri(client, Some(p + s + q)) == GetUri(client, Some(s))
  {
    StripRunEnds(p, s, q, Slash);
  }

  /** Slashes added at the end of the base URL do not change the URI. */
  lemma UrlSlashesIrrelevant(client: Client, q: string, section: Option<string>)
    requires AllChar(q, Slash)
    ensures GetUri(Client(client.config.(url := client.config.url + q)), section)
         == GetUri(client, section)
  {
    StripRightRunSuffix(client.config.url, q, Slash);
  }

  /** Feeding a composed URI back in as the base URL, with no section, returns it unchanged. */
  lemma GetUriIdempotent(client: Client, section: Option<string>)
    ensures var r := GetUri(client, section);
      GetUri(Client(client.config.(url := r)), None) == r
  {
    var r := GetUri(client, section);
    StripRightUnique(r, Slash, |r|);
  }

  /**
   * Only the two ends are trimmed: a section that neither starts nor ends with
   * '/' is appended verbatim, inner slashes (even doubled ones) included.
   */
  lemma InteriorSlashesKept(client: Client, s: string)
    requires |s| > 0 && s[0] != Slash && s[|s| - 1] != Slash
    ensures GetUri(client, Some(s)) == StripRight(client.config.url, Slash) + [Slash] + s
  {
    StripLeftUnique(s, Slash, 0);
    StripRightUnique(s, Slash, |s|);
  }

  /**
   * The docstring of `get_uri` says a base URL `http://foo/bar///` and a
   * section `///bar///` give `http://foo/bar`; the code keeps the section.
   * Stated for every base `h` and section core `b` of that shape.
   */
  lemma DocstringExample(client: Client, h: string, run: string, b: string)
    requires |h| > 0 && h[|h| - 1] != Slash
    requires |b| > 0 && b[0] != Slash && b[|b| - 1] != Slash
    requires AllChar(run, Slash)
    requires client.config.url == h + run
    ensures GetUri(client, Some(run + b + run)) == h + [Slash] + b
    ensures GetUri(client, Some(run + b + run)) != h
  {
    SectionSlashesIrrelevant(client, run, b, run);
    InteriorSlashesKept(client, b);
    StripRightRunSuffix(h, run, Slash);
    StripRightUnique(h, Slash, |h|);
  }

  /** Both flavours of `get` send the same single request and read the same response. */
  lemma GetFlavoursAgree(client: Client, transport: Transport, section: Option<string>, params: Option<Params>)
    ensures var byStatus := Get(client, transport, section, params, true);
      var byBody := Get(client, transport, section, params, false);
      && byStatus.sent == byBody.sent
      && byStatus.value.code == transport(byBody.sent[0]).status
      && byBody.value.text == transport(byStatus.sent[0]).content
  {
  }

  /**
   * The four verbs address the same URI with the same credentials and query;
   * their requests differ only in the verb and, for `post`/`put`, the body.
   */
  lemma VerbsShareTarget(
    client: Client, transport: Transport, section: Option<string>, params: Option<Params>,
    data: Option<string>)
    ensures var del := Delete(client, transport, section, params).sent[0];
      && Get(client, transport, section, params, false).sent[0] == del.(verb := GET)
      && Post(client, transport, section, params, data).sent[0] == del.(verb := POST, data := data)
      && Put(client, transport, section, params, data).sent[0] == del.(verb := PUT, data := data)
  {
  }

  /** Passing the already trimmed section gives the same URI. */
  lemma SectionPathSameUri(client: Client, s: string)
    ensures GetUri(client, Some(SectionPath(Some(s)))) == GetUri(client, Some(s))
  {
    StripIdempotent(s, Slash);
  }
}
