/** The query string that `request` builds from its `params` object
    (`buildParams`): every key whose value is truthy, in key order, as
    `key=value`, joined by `&`, with `true` written as `1`. */
module QueryParams {
  import opened Wrappers
  import opened Strings

  /** A property value of `params`: `undefined`, a string, a boolean or an
      integer number. */
  datatype Value = Undefined | Str(s: string) | Bool(b: bool) | Num(n: int)

  /** The properties of `params` in `Object.keys` order. */
  type Params = seq<(string, Value)>

  /** The filter on values: JavaScript truthiness (the extra comparison with
      the empty string adds nothing), so
      `undefined`, `""`, `false` and `0` fail it. */
  predicate Truthy(v: Value)
  {
    match v
    case Undefined => false
    case Str(s) => s != ""
    case Bool(b) => b
    case Num(n) => n != 0
  }

  /** `${value}` once a boolean has been replaced by `'1'` or `'0'`. */
  function Render(v: Value): string
  {
    match v
    case Undefined => "undefined"
    case Str(s) => s
    case Bool(b) => if b then "1" else "0"
    case Num(n) => IntToDecimal(n)
  }

  /** `${key}=${value}` for one property. */
  function Pair(p: (string, Value)): string
  {
    p.0 + "=" + Render(p.1)
  }

  /** The properties that survive the truthiness test, in order. */
  function Kept(ps: Params): Params
    decreases |ps|
  {
    if ps == [] then []
    else Kept(ps[..|ps| - 1]) + (if Truthy(ps[|ps| - 1].1) then [ps[|ps| - 1]] else [])
  }

  /** The `result` array of `buildParams` after the whole `forEach`. */
  function Pairs(ps: Params): seq<string>
    decreases |ps|
  {
    if ps == [] then []
    else Pairs(ps[..|ps| - 1]) + (if Truthy(ps[|ps| - 1].1) then [Pair(ps[|ps| - 1])] else [])
  }

  /** The query string: empty when `params` is absent, otherwise the pairs
      joined by `&`. */
  function Query(params: Option<Params>): string
  {
    match params
    case None => ""
    case Some(ps) => Join(Pairs(ps), '&')
  }

  /** `buildParams`, walking the keys and pushing onto `result`. */
  method BuildParams(params: Option<Params>) returns (query: string)
    ensures query == Query(params)
  {
    if params.None? {
      return "";
    }
    var ps := params.value;
    var result: seq<string> := [];
    for k := 0 to |ps|
      invariant result == Pairs(ps[..k])
    {
      var key, value := ps[k].0, ps[k].1;
      if Truthy(value) {
        if value.Bool? {
          value := Str(if value.b then "1" else "0");
        }
        result := result + [key + "=" + Render(value)];
      }
      assert ps[..k + 1][..k] == ps[..k];
    }
    assert ps[..|ps|] == ps;
    query := Join(result, '&');
  }

  /** A property is kept exactly when it is one of `ps` and its value is truthy. */
  lemma {:induction false} KeptIff(ps: Params, p: (string, Value))
    ensures p in Kept(ps) <==> p in ps && Truthy(p.1)
    decreases |ps|
  {
    if ps != [] {
      var init := ps[..|ps| - 1];
      KeptIff(init, p);
      assert ps == init + [ps[|ps| - 1]];
    }
  }

  /** Filtering keeps the key order: the kept properties of `a + b` are those
      of `a` followed by those of `b`. */
  lemma {:induction false} KeptConcat(a: Params, b: Params)
    ensures Kept(a + b) == Kept(a) + Kept(b)
    decreases |b|
  {
    if b != [] {
      var init := b[..|b| - 1];
      var last := b[|b| - 1];
      KeptConcat(a, init);
      assert (a + b)[..|a + b| - 1] == a + init;
      assert (a + b)[|a + b| - 1] == last;
      var tail := if Truthy(last.1) then [last] else [];
      calc {
        Kept(a + b);
        Kept(a + init) + tail;
        Kept(a) + Kept(init) + tail;
        Kept(a) + (Kept(init) + tail);
        Kept(a) + Kept(b);
      }
    } else {
      assert a + b == a;
    }
  }

  /** The emitted pairs are exactly the kept properties, one pair each, in order. */
  lemma {:induction false} PairsOfKept(ps: Params)
    ensures |Pairs(ps)| == |Kept(ps)|
    ensures forall i :: 0 <= i < |Pairs(ps)| ==> Pairs(ps)[i] == Pair(Kept(ps)[i])
    decreases |ps|
  {
    if ps != [] {
      PairsOfKept(ps[..|ps| - 1]);
    }
  }

  /** A boolean that reaches the query string is `true`, written `1`: the
      branch that would write `0` is never taken. */
  lemma NoBooleanZero(ps: Params)
    ensures forall i :: 0 <= i < |Kept(ps)| && Kept(ps)[i].1.Bool? ==>
      Kept(ps)[i].1 == Bool(true) && Render(Kept(ps)[i].1) == "1"
  {
    forall i | 0 <= i < |Kept(ps)| && Kept(ps)[i].1.Bool?
      ensures Kept(ps)[i].1 == Bool(true)
    {
      KeptIff(ps, Kept(ps)[i]);
    }
  }

  /** The query string is empty exactly when `params` is absent or none of
      its values is truthy. */
  lemma QueryEmptyIff(params: Option<Params>)
    ensures Query(params) == "" <==> params.None? || Kept(params.value) == []
  {
    if params.Some? {
      var ps := params.value;
      PairsOfKept(ps);
      JoinEmptyIff(Pairs(ps), '&');
      if |Pairs(ps)| == 1 {
        assert |Pairs(ps)[0]| >= 1;
      }
    }
  }

  /** Splitting the query string at `&` gives back one `key=value` pair per
      kept property, in key order, when neither keys nor values contain `&`. */
  lemma QueryRoundTrip(ps: Params)
    requires Kept(ps) != []
    requires forall i :: 0 <= i < |Kept(ps)| ==> '&' !in Kept(ps)[i].0 && '&' !in Render(Kept(ps)[i].1)
    ensures Split(Query(Some(ps)), '&') == Pairs(ps)
    ensures |Split(Query(Some(ps)), '&')| == |Kept(ps)|
  {
    PairsOfKept(ps);
    forall k | 0 <= k < |Pairs(ps)| ensures '&' !in Pairs(ps)[k] {
      assert Pairs(ps)[k] == Kept(ps)[k].0 + "=" + Render(Kept(ps)[k].1);
    }
    SplitJoin(Pairs(ps), '&');
  }

  /** The query string of a one-property object. */
  lemma QueryOfOne(p: (string, Value))
    ensures Query(Some([p])) == if Truthy(p.1) then Pair(p) else ""
  {
    assert [p][..0] == [];
    assert Pairs([p]) == if Truthy(p.1) then [Pair(p)] else [];
  }

  /** The query string of a two-property object: the truthy ones, in order,
      joined by `&`. */
  lemma QueryOfTwo(p: (string, Value), q: (string, Value))
    ensures Query(Some([p, q])) ==
      if Truthy(p.1) && Truthy(q.1) then Pair(p) + "&" + Pair(q)
      else if Truthy(p.1) then Pair(p)
      else if Truthy(q.1) then Pair(q)
      else ""
  {
    assert [p, q][..1] == [p];
    assert [p][..0] == [];
    var a := if Truthy(p.1) then [Pair(p)] else [];
    var b := if Truthy(q.1) then [Pair(q)] else [];
    assert Pairs([p]) == a;
    assert Pairs([p, q]) == Pairs([p]) + b;
    if Truthy(p.1) && Truthy(q.1) {
      assert (a + b)[1..] == [Pair(q)];
      assert Join(a + b, '&') == Pair(p) + "&" + Pair(q);
    }
  }

  /** Empty strings and `false` are dropped, so
      `{filter: "", generated: false, category: c}` yields `category=c` alone. */
  lemma FalsyDropped(c: string)
    requires c != ""
    ensures Query(Some([("filter", Str("")), ("generated", Bool(false)), ("category", Str(c))])) == "category=" + c
  {
    var ps := [("filter", Str("")), ("generated", Bool(false)), ("category", Str(c))];
    assert ps[..2][..1] == [("filter", Str(""))];
    assert ps[..2] == [("filter", Str("")), ("generated", Bool(false))];
    assert Pairs(ps[..2]) == [] by {
      assert [("filter", Str(""))][..0] == [];
    }
    assert Pair(("category", Str(c))) == "category=" + c;
    assert Pairs(ps) == ["category=" + c];
  }
}
