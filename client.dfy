/** The `AtelierAPI` object: its one field, the cookie array, is updated in
    place by `updateCookies`, read by every request, and fed by every
    response. */
module Client {
  import opened Wrappers
  import opened Strings
  import opened Cookies
  import opened QueryParams
  import opened Request

  class AtelierClient {
    /** The elements of `this.cookies`, sent as the `Cookie` header. */
    var cookies: seq<string>
    /** The property `this.cookies[-1]` that a not-found cookie is written to. */
    ghost var minusOne: Option<string>

    /** The array as a value. */
    ghost function State(): Jar
      reads this
    {
      Jar(cookies, minusOne)
    }

    constructor ()
      ensures cookies == [] && minusOne == None
    {
      cookies := [];
      minusOne := None;
    }

    /** `updateCookies`: for each incoming cookie, find the first stored entry
        that starts with its name and branch on the truthiness of that index. */
    method UpdateCookies(incoming: seq<string>)
      modifies this
      ensures State() == UpdateAll(old(State()), incoming)
      ensures old(cookies) == [] ==> cookies == []
    {
      ghost var start := State();
      for k := 0 to |incoming|
        invariant State() == UpdateAll(start, incoming[..k])
      {
        var cookie := incoming[k];
        var name := Split(cookie, '=')[0];
        var index := FindIndex(cookies, name);
        if index != 0 {
          if index == -1 {
            minusOne := Some(cookie);
          } else {
            cookies := cookies[index := cookie];
          }
        } else {
          cookies := cookies + [cookie];
        }
        assert incoming[..k + 1][..k] == incoming[..k];
      }
      assert incoming[..|incoming|] == incoming;
      if old(cookies) == [] {
        EmptyJarStaysEmpty(old(minusOne), incoming);
      }
    }

    /** The corrected update: replace the entry of the same name in place,
        or append, so the names stay unique and the latest value wins. */
    method UpsertCookies(incoming: seq<string>)
      requires UniqueNames(cookies)
      modifies this
      ensures cookies == UpsertAll(old(cookies), incoming)
      ensures UniqueNames(cookies)
      ensures minusOne == old(minusOne)
    {
      ghost var start := cookies;
      for k := 0 to |incoming|
        invariant cookies == UpsertAll(start, incoming[..k])
        invariant minusOne == old(minusOne)
      {
        var cookie := incoming[k];
        assert incoming[..k + 1][..k] == incoming[..k];
        match FindByName(cookies, CookieName(cookie)) {
          case Some(i) => cookies := cookies[i := cookie];
          case None => cookies := cookies + [cookie];
        }
      }
      assert incoming[..|incoming|] == incoming;
      UpsertAllUnique(start, incoming);
    }

    /** The request that `request(method, path, params, body)` sends: the
        method upper-cased, the wire path with the query string, the current
        cookies, and the JSON content type and body only for PUT and POST. */
    method Send(config: Config, verb: string, path: Option<string>, params: Option<Params>, body: Body)
      returns (req: WireRequest)
      ensures req == Prepare(config, cookies, verb, path, Query(params), body)
      ensures req.path == RequestPath(path, Query(params))
      ensures req.cookie == cookies
      ensures req.written.Some? <==> SendsJson(verb)
    {
      var query := BuildParams(params);
      req := Prepare(config, cookies, verb, path, query, body);
    }

    /** The response handler: the cookies are updated before the body is
        classified, whether or not the status rejects the request. */
    method Receive(path: string, resp: Response) returns (outcome: Outcome, console: Option<seq<string>>)
      modifies this
      ensures State() == UpdateAll(old(State()), resp.setCookie)
      ensures old(cookies) == [] ==> cookies == []
      ensures outcome == Settle(path, resp)
      ensures console == ConsoleOutput(resp)
    {
      UpdateCookies(resp.setCookie);
      outcome := Settle(path, resp);
      console := ConsoleOutput(resp);
    }
  }

  /** From a fresh client, any run of responses leaves the cookie list
      empty, so every request goes out with an empty `Cookie` header. */
  method SessionNeverSent(config: Config, responses: seq<Response>) returns (req: WireRequest)
    ensures req.cookie == []
  {
    var client := new AtelierClient();
    for k := 0 to |responses|
      invariant client.cookies == []
    {
      var _, _ := client.Receive("", responses[k]);
    }
    req := client.Send(config, "GET", None, None, NoBody);
  }
}
