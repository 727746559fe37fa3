/** The pure rules inside `request`: method normalisation, the JSON body
    rule for PUT and POST, the wire path, and how a response settles the
    returned promise. */
module Request {
  import opened Wrappers
  import opened Strings
  import opened QueryParams

  /** Every wire path starts with this root. */
  const ApiRoot: string := "/api/atelier/"

  /** The connection settings, read afresh on every request. */
  datatype Config = Config(host: string, port: int, username: string, password: string, ns: string, https: bool)

  /** The `body` argument of `request`: none, a list of document names
      (the actions), or a document (`putDoc`). */
  datatype Body = NoBody | Docs(names: seq<string>) | Document(enc: bool, content: seq<string>)

  /** What `request` hands to the transport. `written` is the value whose
      JSON text is written before the request ends, if any. */
  datatype WireRequest = WireRequest(
    verb: string,
    encrypted: bool,
    host: string,
    port: int,
    path: string,
    auth: string,
    accept: string,
    cookie: seq<string>,
    contentType: Option<string>,
    written: Option<Body>)

  /** The upper-cased method is one of the two that carry a JSON body. */
  predicate SendsJson(verb: string)
  {
    Upper(verb) == "PUT" || Upper(verb) == "POST"
  }

  lemma UpperCharIs(c: char, u: char)
    requires 'A' <= u <= 'Z'
    ensures UpperChar(c) == u <==> c == u || c as int == u as int + 32
  {
  }

  /** The JSON body rule is case-insensitive and admits exactly the
      spellings of PUT and POST. */
  lemma SendsJsonIff(verb: string)
    ensures SendsJson(verb) <==>
      || (|verb| == 3 && verb[0] in "pP" && verb[1] in "uU" && verb[2] in "tT")
      || (|verb| == 4 && verb[0] in "pP" && verb[1] in "oO" && verb[2] in "sS" && verb[3] in "tT")
  {
    var u := Upper(verb);
    if |verb| == 3 {
      UpperCharIs(verb[0], 'P');
      UpperCharIs(verb[1], 'U');
      UpperCharIs(verb[2], 'T');
      assert u == "PUT" <==> u[0] == 'P' && u[1] == 'U' && u[2] == 'T';
    } else if |verb| == 4 {
      UpperCharIs(verb[0], 'P');
      UpperCharIs(verb[1], 'O');
      UpperCharIs(verb[2], 'S');
      UpperCharIs(verb[3], 'T');
      assert u == "POST" <==> u[0] == 'P' && u[1] == 'O' && u[2] == 'S' && u[3] == 'T';
    }
  }

  /** `path || ''`. */
  function PathOrEmpty(path: Option<string>): string
  {
    match path
    case None => ""
    case Some(p) => p
  }

  /** The root, the relative path (empty when absent), a `?` and the query
      string, in that order. */
  function RequestPath(path: Option<string>, query: string): string
  {
    ApiRoot + PathOrEmpty(path) + "?" + query
  }

  /** Reads a wire path back into its relative path and its query: the text
      between the root and the first `?`, and the text after it. */
  function ParsePath(wire: string): Option<(string, string)>
  {
    if !StartsWith(wire, ApiRoot) then None
    else
      var rest := wire[|ApiRoot|..];
      match FirstIndex(rest, '?')
      case None => None
      case Some(i) => Some((rest[..i], rest[i + 1..]))
  }

  /** The `?` is always there, even for an empty query, and when the
      relative path has no `?` of its own the wire path reads back into the
      path and the query. */
  lemma PathRoundTrip(path: Option<string>, query: string)
    requires '?' !in PathOrEmpty(path)
    ensures RequestPath(path, query)[|ApiRoot| + |PathOrEmpty(path)|] == '?'
    ensures ParsePath(RequestPath(path, query)) == Some((PathOrEmpty(path), query))
  {
    var p := PathOrEmpty(path);
    var wire := RequestPath(path, query);
    assert wire[..|ApiRoot|] == ApiRoot;
    var rest := wire[|ApiRoot|..];
    assert rest == p + "?" + query;
    assert rest[|p|] == '?';
    assert rest[..|p|] == p;
    assert FirstIndex(rest, '?') == Some(|p|);
    assert rest[|p| + 1..] == query;
  }

  /** The request a call hands to the transport, for a cookie jar and a
      query string already built. */
  function Prepare(config: Config, jar: seq<string>, verb: string, path: Option<string>, query: string, body: Body): WireRequest
  {
    var m := Upper(verb);
    var json := m == "PUT" || m == "POST";
    WireRequest(
      m, config.https, config.host, config.port, RequestPath(path, query),
      config.username + ":" + config.password, "application/json", jar,
      if json then Some("application/json") else None,
      if json then Some(body) else None)
  }

  /** A GET never carries a body or a content type, whatever body it is
      given; a PUT or POST (in any letter case) always has both. */
  lemma PrepareBodyRule(config: Config, jar: seq<string>, verb: string, path: Option<string>, query: string, body: Body)
    ensures var r := Prepare(config, jar, verb, path, query, body);
      && (r.written.Some? <==> SendsJson(verb))
      && (r.contentType.Some? <==> SendsJson(verb))
      && (r.written.Some? ==> r.written.value == body && r.contentType == Some("application/json"))
      && (Upper(verb) == "GET" ==> r.written.None? && r.contentType.None?)
      && r.verb == Upper(verb)
      && (forall i :: 0 <= i < |r.verb| ==> !('a' <= r.verb[i] <= 'z'))
  {
    UpperIdempotent(verb);
  }

  /** The server's answer. `console` stands for the `console` member that
      parsing `body` as JSON would find. */
  datatype Response = Response(status: int, contentType: string, setCookie: seq<string>, body: string, console: Option<seq<string>>)

  /** The value a successful request resolves to: the parsed JSON document
      (represented by its text) or the raw body text. */
  datatype Envelope = Json(text: string) | Text(text: string)

  /** How the promise returned by `request` settles. */
  datatype Outcome = Resolved(value: Envelope) | Rejected(path: string, status: int, message: string)

  /** The message of the rejection error: it names the path and ends with
      the decimal status code. */
  function ErrorMessage(path: string, status: int): (m: string)
    ensures StartsWith(m, "Failed to load page \"" + path + "\"")
    ensures |m| >= |IntToDecimal(status)| && m[|m| - |IntToDecimal(status)|..] == IntToDecimal(status)
  {
    "Failed to load page \"" + path + "\", status code: " + IntToDecimal(status)
  }

  /** The response handler: a status outside 200..299 rejects at once, and
      the later `resolve` has no effect on a promise already rejected;
      otherwise the body resolves as JSON when the content type mentions
      "json", as text else. */
  function Settle(path: string, resp: Response): (r: Outcome)
    ensures r.Rejected? <==> !(200 <= resp.status <= 299)
    ensures r.Rejected? ==> r.path == path && r.status == resp.status
    ensures r.Rejected? ==> r.message == ErrorMessage(path, resp.status)
    ensures r.Resolved? ==> r.value.text == resp.body
    ensures r.Resolved? ==> (r.value.Json? <==> exists i :: OccursAt(resp.contentType, "json", i))
  {
    ContainsIff(resp.contentType, "json");
    if resp.status < 200 || resp.status > 299 then Rejected(path, resp.status, ErrorMessage(path, resp.status))
    else if Contains(resp.contentType, "json") then Resolved(Json(resp.body))
    else Resolved(Text(resp.body))
  }

  /** The lines passed to the console sink: the `console` member of a JSON
      body, whether or not the status rejected the promise. */
  function ConsoleOutput(resp: Response): (lines: Option<seq<string>>)
    ensures lines.Some? ==> exists i :: OccursAt(resp.contentType, "json", i)
    ensures lines.Some? ==> lines == resp.console
    ensures (exists i :: OccursAt(resp.contentType, "json", i)) ==> lines == resp.console
  {
    ContainsIff(resp.contentType, "json");
    if Contains(resp.contentType, "json") then resp.console else None
  }

  /** The status boundaries: 200 and 299 resolve, 199 and 300 reject with
      their own status code. */
  lemma StatusBoundaries(path: string, resp: Response)
    ensures resp.status in {200, 299} ==> Settle(path, resp).Resolved?
    ensures resp.status in {199, 300} ==> Settle(path, resp) == Rejected(path, resp.status, ErrorMessage(path, resp.status))
  {
  }

  /** A JSON response yields the console lines it carries, a text response
      none; the console sink is fed even when the status rejects. */
  lemma ConsoleForwarding(path: string, resp: Response)
    requires resp.console.Some?
    ensures StartsWith(resp.contentType, "application/json") ==> ConsoleOutput(resp) == resp.console
    ensures resp.contentType == "text/plain" ==> ConsoleOutput(resp).None?
  {
    ContainsIff(resp.contentType, "json");
    if StartsWith(resp.contentType, "application/json") {
      assert resp.contentType[12..16] == "json";
      assert OccursAt(resp.contentType, "json", 12);
    }
    if resp.contentType == "text/plain" {
      assert forall k :: 0 <= k < |resp.contentType| ==> resp.contentType[k] != 'j';
      MissingFirstChar(resp.contentType, "json");
    }
  }
}
