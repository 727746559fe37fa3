/** The document operations of `AtelierAPI`: each is one `request` call
    with a fixed method, a path under the namespace, a params object and a
    body. `ns` is the namespace read from the connection settings. */
module Calls {
  import opened Wrappers
  import opened Strings
  import opened QueryParams
  import opened Request

  /** The arguments of one `request` call. */
  datatype Call = Call(verb: string, path: Option<string>, params: Option<Params>, body: Body)

  /** The wire path the call produces. */
  function WirePath(c: Call): string
  {
    RequestPath(c.path, Query(c.params))
  }

  /** `serverInfo()`: a GET of the bare root, with no params object. */
  function ServerInfo(): Call
  {
    Call("GET", None, None, NoBody)
  }

  /** `getDocNames({generated = false, category = '*', type = '*', filter = ''})`;
      `None` stands for a property left undefined, which takes its default. */
  function GetDocNames(ns: string, generated: Option<bool>, category: Option<string>,
                       docType: Option<string>, filter: Option<string>): Call
  {
    var g := match generated case None => false case Some(b) => b;
    var c := match category case None => "*" case Some(s) => s;
    var t := match docType case None => "*" case Some(s) => s;
    var f := match filter case None => "" case Some(s) => s;
    Call("GET", Some("v2/" + ns + "/docnames/" + c + "/" + t),
         Some([("filter", Str(f)), ("generated", Bool(g))]), NoBody)
  }

  /** `getDoc(name, format?)`: the params object is empty unless a truthy
      format is given. */
  function GetDoc(ns: string, name: string, format: Option<string>): Call
  {
    var params := if format.Some? && format.value != "" then [("format", Str(format.value))] else [];
    Call("GET", Some("v2/" + ns + "/doc/" + name), Some(params), NoBody)
  }

  /** `putDoc(name, data, ignoreConflict?)`. */
  function PutDoc(ns: string, name: string, enc: bool, content: seq<string>, ignoreConflict: Option<bool>): Call
  {
    var ic := match ignoreConflict case None => Undefined case Some(b) => Bool(b);
    Call("PUT", Some("v2/" + ns + "/doc/" + name), Some([("ignoreConflict", ic)]), Document(enc, content))
  }

  /** `actionIndex(docs)`. */
  function ActionIndex(ns: string, docs: seq<string>): Call
  {
    Call("POST", Some("v2/" + ns + "/action/index"), Some([]), Docs(docs))
  }

  /** `actionCompile(docs, flags?, source = false)`. */
  function ActionCompile(ns: string, docs: seq<string>, flags: Option<string>, source: Option<bool>): Call
  {
    var fl := match flags case None => Undefined case Some(s) => Str(s);
    var src := match source case None => false case Some(b) => b;
    Call("POST", Some("v2/" + ns + "/action/compile"), Some([("flags", fl), ("source", Bool(src))]), Docs(docs))
  }

  /** `serverInfo()` asks for the bare root with an empty query. */
  lemma ServerInfoPath()
    ensures WirePath(ServerInfo()) == "/api/atelier/?"
    ensures !SendsJson(ServerInfo().verb)
  {
  }

  /** With every property defaulted, `getDocNames` lists all categories and
      types and sends neither `filter` nor `generated`. */
  lemma GetDocNamesDefaults(ns: string)
    ensures WirePath(GetDocNames(ns, None, None, None, None)) == ApiRoot + "v2/" + ns + "/docnames/*/*" + "?"
  {
    QueryOfTwo(("filter", Str("")), ("generated", Bool(false)));
  }

  /** A non-empty filter and `generated: true` are both sent, `true` as `1`;
      an empty filter or a false `generated` is left out. */
  lemma GetDocNamesQuery(ns: string, generated: Option<bool>, f: string)
    ensures Query(GetDocNames(ns, generated, None, None, Some(f)).params) ==
        if f != "" && generated == Some(true) then "filter=" + f + "&generated=1"
        else if f != "" then "filter=" + f
        else if generated == Some(true) then "generated=1"
        else ""
  {
    var g := generated == Some(true);
    assert GetDocNames(ns, generated, None, None, Some(f)).params == Some([("filter", Str(f)), ("generated", Bool(g))]);
    QueryOfTwo(("filter", Str(f)), ("generated", Bool(g)));
    assert Pair(("generated", Bool(true))) == "generated=1";
    assert Pair(("filter", Str(f))) == "filter=" + f;
  }

  /** `getDoc(name)` without a format ends in a bare `?`; with a format the
      query is `format=<format>`. */
  lemma GetDocPath(ns: string, name: string, format: Option<string>)
    ensures WirePath(GetDoc(ns, name, format)) ==
      ApiRoot + "v2/" + ns + "/doc/" + name + "?" +
        (if format.Some? && format.value != "" then "format=" + format.value else "")
  {
    if format.Some? && format.value != "" {
      QueryOfOne(("format", Str(format.value)));
    }
  }

  /** `putDoc` is a PUT that writes the document as its JSON body and sends
      `ignoreConflict=1` only when asked to. */
  lemma PutDocRequest(ns: string, name: string, enc: bool, content: seq<string>, ignoreConflict: Option<bool>)
    ensures var c := PutDoc(ns, name, enc, content, ignoreConflict);
      && SendsJson(c.verb) && c.body == Document(enc, content)
      && WirePath(c) == ApiRoot + "v2/" + ns + "/doc/" + name + "?" +
           (if ignoreConflict == Some(true) then "ignoreConflict=1" else "")
  {
    var ic := match ignoreConflict case None => Undefined case Some(b) => Bool(b);
    QueryOfOne(("ignoreConflict", ic));
    assert Pair(("ignoreConflict", Bool(true))) == "ignoreConflict=1";
  }

  /** `actionIndex` is a POST of the document list with the JSON content
      type and an empty query. */
  lemma ActionIndexRequest(ns: string, docs: seq<string>)
    ensures var c := ActionIndex(ns, docs);
      SendsJson(c.verb) && c.body == Docs(docs) && WirePath(c) == ApiRoot + "v2/" + ns + "/action/index" + "?"
  {
  }

  /** `actionCompile` is a POST of the document list; its query carries a
      non-empty `flags` and `source=1` only when `source` is true. */
  lemma ActionCompileRequest(ns: string, docs: seq<string>, f: string, source: Option<bool>)
    ensures var c := ActionCompile(ns, docs, Some(f), source);
      && SendsJson(c.verb) && c.body == Docs(docs)
      && Query(c.params) ==
           if f != "" && source == Some(true) then "flags=" + f + "&source=1"
           else if f != "" then "flags=" + f
           else if source == Some(true) then "source=1"
           else ""
  {
    var src := source == Some(true);
    assert ActionCompile(ns, docs, Some(f), source).params == Some([("flags", Str(f)), ("source", Bool(src))]);
    QueryOfTwo(("flags", Str(f)), ("source", Bool(src)));
    assert Pair(("source", Bool(true))) == "source=1";
    assert Pair(("flags", Str(f))) == "flags=" + f;
  }

  /** Without flags only `source` can appear in the query. */
  lemma ActionCompileNoFlags(ns: string, docs: seq<string>, source: Option<bool>)
    ensures Query(ActionCompile(ns, docs, None, source).params) == if source == Some(true) then "source=1" else ""
  {
    var src := source == Some(true);
    assert ActionCompile(ns, docs, None, source).params == Some([("flags", Undefined), ("source", Bool(src))]);
    QueryOfTwo(("flags", Undefined), ("source", Bool(src)));
    assert Pair(("source", Bool(true))) == "source=1";
  }
}
