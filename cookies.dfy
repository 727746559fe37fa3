/** The cookie jar of the Atelier client: the list of raw `Set-Cookie`
    strings it keeps and sends back on every request.

    `Step` and `UpdateAll` follow `updateCookies` exactly as it is written,
    with its prefix match and its truthiness test on the found index.
    `Upsert` and `UpsertAll` are the replace-or-append jar that keeps at
    most one entry per cookie name, keyed by the exact cookie name with an
    explicit "not found". */
module Cookies {
  import opened Wrappers
  import opened Strings

  /** The first piece of the cookie split at `=`: the text before the first `=`, or the whole
      string when it has none. */
  function CookieName(cookie: string): (name: string)
    ensures StartsWith(cookie, name)
    ensures '=' !in name
    ensures |name| < |cookie| ==> cookie[|name|] == '='
  {
    Split(cookie, '=')[0]
  }

  /** The name of `name=value` is `name`, whenever `name` has no `=`. */
  lemma NameOfPair(name: string, value: string)
    requires '=' !in name
    ensures CookieName(name + "=" + value) == name
  {
    var c := name + "=" + value;
    assert c[|name|] == '=';
    assert forall k :: 0 <= k < |name| ==> c[k] == name[k];
  }

  /** The `findIndex` search with a `startsWith` test: the first entry that
      starts with `name`, or -1 when there is none. */
  function FindIndex(jar: seq<string>, name: string): (i: int)
    ensures -1 <= i < |jar|
    ensures 0 <= i ==> StartsWith(jar[i], name)
    ensures forall j :: 0 <= j < |jar| && (i == -1 || j < i) ==> !StartsWith(jar[j], name)
  {
    if jar == [] then -1
    else if StartsWith(jar[0], name) then 0
    else
      var k := FindIndex(jar[1..], name);
      if k == -1 then -1 else k + 1
  }

  /** The JavaScript array `this.cookies`: its elements, and the ordinary
      property under the key "-1" that `cookies[-1] = cookie` creates. That
      property is not an element: it is neither counted by `length` nor
      sent in the `Cookie` header. */
  datatype Jar = Jar(elements: seq<string>, minusOne: Option<string>)

  /** One iteration of `updateCookies` as written: `if (index)` is false only
      for index 0, so a match at 0 appends, a match further on is
      overwritten, and "not found" (-1) writes the stray "-1" property. */
  function Step(jar: Jar, cookie: string): Jar
  {
    var index := FindIndex(jar.elements, CookieName(cookie));
    if index != 0 then
      if index == -1 then jar.(minusOne := Some(cookie))
      else jar.(elements := jar.elements[index := cookie])
    else
      jar.(elements := jar.elements + [cookie])
  }

  /** `updateCookies(cookies)` as written: `Step` for each incoming cookie in order. */
  function UpdateAll(jar: Jar, cookies: seq<string>): Jar
    decreases |cookies|
  {
    if cookies == [] then jar
    else Step(UpdateAll(jar, cookies[..|cookies| - 1]), cookies[|cookies| - 1])
  }

  /** No two entries carry the same cookie name. */
  predicate UniqueNames(jar: seq<string>)
  {
    forall i, j :: 0 <= i < j < |jar| ==> CookieName(jar[i]) != CookieName(jar[j])
  }

  /** A first match at a position after 0 is overwritten in place: the
      length and every other entry stay as they were. */
  lemma StepReplacesLaterMatch(jar: Jar, cookie: string, i: int)
    requires 0 < i < |jar.elements|
    requires StartsWith(jar.elements[i], CookieName(cookie))
    requires forall j :: 0 <= j < i ==> !StartsWith(jar.elements[j], CookieName(cookie))
    ensures |Step(jar, cookie).elements| == |jar.elements|
    ensures Step(jar, cookie).elements[i] == cookie
    ensures forall j :: 0 <= j < |jar.elements| && j != i ==> Step(jar, cookie).elements[j] == jar.elements[j]
    ensures Step(jar, cookie).minusOne == jar.minusOne
  {
    assert FindIndex(jar.elements, CookieName(cookie)) == i;
  }

  /** A first match at position 0 is taken for "not found": the cookie is
      appended and the old entry 0 stays. */
  lemma StepAppendsOnMatchAtZero(jar: Jar, cookie: string)
    requires |jar.elements| > 0
    requires StartsWith(jar.elements[0], CookieName(cookie))
    ensures Step(jar, cookie).elements == jar.elements + [cookie]
    ensures |Step(jar, cookie).elements| == |jar.elements| + 1
    ensures Step(jar, cookie).elements[0] == jar.elements[0]
    ensures Step(jar, cookie).minusOne == jar.minusOne
  {
  }

  /** Without any match the elements are untouched; only the stray "-1"
      property receives the cookie. */
  lemma StepIgnoresNewName(jar: Jar, cookie: string)
    requires forall j :: 0 <= j < |jar.elements| ==> !StartsWith(jar.elements[j], CookieName(cookie))
    ensures Step(jar, cookie).elements == jar.elements
    ensures Step(jar, cookie).minusOne == Some(cookie)
  {
  }

  /** The match is by prefix: a stored cookie whose name merely begins with
      the incoming name matches it. */
  lemma PrefixNameMatches(stored: string, cookie: string)
    requires StartsWith(CookieName(stored), CookieName(cookie))
    ensures StartsWith(stored, CookieName(cookie))
  {
    var n, m := CookieName(cookie), CookieName(stored);
    assert stored[..|n|] == m[..|n|];
  }

  /** Exactly where "at most one entry per name" breaks: starting from a jar
      with unique names, one step keeps the names unique if and only if no
      stored entry other than the one overwritten in place (a first match
      after position 0) already carries the incoming name. */
  lemma {:induction false} StepUniqueIff(jar: Jar, cookie: string)
    requires UniqueNames(jar.elements)
    ensures
      var e, name, i := jar.elements, CookieName(cookie), FindIndex(jar.elements, CookieName(cookie));
      UniqueNames(Step(jar, cookie).elements) <==>
        forall j :: 0 <= j < |e| && !(0 < i && j == i) ==> CookieName(e[j]) != name
  {
    var e, name, i := jar.elements, CookieName(cookie), FindIndex(jar.elements, CookieName(cookie));
    var r := Step(jar, cookie).elements;
    if i == -1 {
      assert forall j :: 0 <= j < |e| ==> StartsWith(e[j], CookieName(e[j]));
    } else if i == 0 {
      assert r == e + [cookie];
      if exists j :: 0 <= j < |e| && CookieName(e[j]) == name {
        var j :| 0 <= j < |e| && CookieName(e[j]) == name;
        assert CookieName(r[j]) == CookieName(r[|e|]);
      } else {
        forall a, b | 0 <= a < b < |r| ensures CookieName(r[a]) != CookieName(r[b]) {
          if b < |e| {
            assert r[a] == e[a] && r[b] == e[b];
          }
        }
      }
    } else {
      assert r == e[i := cookie];
      if exists j :: 0 <= j < |e| && j != i && CookieName(e[j]) == name {
        var j :| 0 <= j < |e| && j != i && CookieName(e[j]) == name;
        assert StartsWith(e[j], CookieName(e[j]));
        assert i < j;
        assert CookieName(r[i]) == CookieName(r[j]);
      }
    }
  }

  /** The jar starts out empty and, as written, never gains an element:
      every cookie of an empty jar lands on the stray "-1" property, the last
      one overwriting the others. */
  lemma {:induction false} EmptyJarStaysEmpty(stray: Option<string>, cookies: seq<string>)
    ensures UpdateAll(Jar([], stray), cookies).elements == []
    ensures UpdateAll(Jar([], stray), cookies).minusOne ==
      if cookies == [] then stray else Some(cookies[|cookies| - 1])
    decreases |cookies|
  {
    if cookies != [] {
      EmptyJarStaysEmpty(stray, cookies[..|cookies| - 1]);
    }
  }

  /** A matching first entry is duplicated instead of replaced: the jar
      then holds two cookies of the same name. */
  lemma MatchAtZeroDuplicates(name: string, old_value: string, new_value: string)
    requires '=' !in name
    ensures var stored, cookie := name + "=" + old_value, name + "=" + new_value;
      && Step(Jar([stored], None), cookie).elements == [stored, cookie]
      && !UniqueNames([stored, cookie])
  {
    NameOfPair(name, old_value);
    NameOfPair(name, new_value);
    var r := [name + "=" + old_value, name + "=" + new_value];
    assert CookieName(r[0]) == CookieName(r[1]);
  }

  /** In the jar as written no stored entry is ever found: from the initial
      empty jar, after any cookies, the search for any name gives -1. So the
      match-at-0 and prefix defects only show once the jar can grow. */
  lemma AsWrittenNeverMatches(cookies: seq<string>, cookie: string)
    ensures FindIndex(UpdateAll(Jar([], None), cookies).elements, CookieName(cookie)) == -1
  {
    EmptyJarStaysEmpty(None, cookies);
  }

  /** A new cookie never reaches the element list. */
  lemma NewCookieDropped()
    ensures Step(Jar([], None), "session=abc").elements == []
  {
  }

  /** A shorter name overwrites an unrelated longer one: with `ab=1` stored
      before `a=1`, the cookie `a=2` replaces `ab=1`, leaving two entries
      named `a`. */
  lemma PrefixOverwrites(first: string, name: string, suffix: string, v1: string, v2: string, v3: string)
    requires '=' !in name + suffix && suffix != []
    requires !StartsWith(first, name)
    ensures var longer, shorter, cookie := name + suffix + "=" + v1, name + "=" + v2, name + "=" + v3;
      && CookieName(longer) != CookieName(shorter)
      && Step(Jar([first, longer, shorter], None), cookie).elements == [first, cookie, shorter]
      && !UniqueNames([first, cookie, shorter])
  {
    var longer, shorter, cookie := name + suffix + "=" + v1, name + "=" + v2, name + "=" + v3;
    NameOfPair(name + suffix, v1);
    NameOfPair(name, v2);
    NameOfPair(name, v3);
    assert longer == (name + suffix) + "=" + v1;
    var jar := [first, longer, shorter];
    assert longer[..|name|] == name;
    assert FindIndex(jar, name) == 1 by {
      assert jar[1..] == [longer, shorter];
    }
    var r := [first, cookie, shorter];
    assert CookieName(r[1]) == CookieName(r[2]);
  }

  // ----- the replace-or-append jar: at most one entry per cookie name -----

  /** The position of the entry whose name is exactly `name`, or `None`. */
  function FindByName(jar: seq<string>, name: string): (r: Option<nat>)
    ensures r.Some? ==> r.value < |jar| && CookieName(jar[r.value]) == name
    ensures r.Some? ==> forall j :: 0 <= j < r.value ==> CookieName(jar[j]) != name
    ensures r.None? ==> forall j :: 0 <= j < |jar| ==> CookieName(jar[j]) != name
  {
    if jar == [] then None
    else if CookieName(jar[0]) == name then Some(0)
    else match FindByName(jar[1..], name)
      case None => None
      case Some(k) => Some(k + 1)
  }

  /** The stored cookie named `name`, if any. */
  function Lookup(jar: seq<string>, name: string): Option<string>
  {
    match FindByName(jar, name)
    case None => None
    case Some(i) => Some(jar[i])
  }

  /** Replace the entry with the same name in place, or append. */
  function Upsert(jar: seq<string>, cookie: string): seq<string>
  {
    match FindByName(jar, CookieName(cookie))
    case Some(i) => jar[i := cookie]
    case None => jar + [cookie]
  }

  /** `Upsert` for each incoming cookie in order. */
  function UpsertAll(jar: seq<string>, cookies: seq<string>): seq<string>
    decreases |cookies|
  {
    if cookies == [] then jar
    else Upsert(UpsertAll(jar, cookies[..|cookies| - 1]), cookies[|cookies| - 1])
  }

  /** The last of `cookies` named `name`, if any. */
  function LastNamed(cookies: seq<string>, name: string): Option<string>
    decreases |cookies|
  {
    if cookies == [] then None
    else if CookieName(cookies[|cookies| - 1]) == name then Some(cookies[|cookies| - 1])
    else LastNamed(cookies[..|cookies| - 1], name)
  }

  /** `Upsert` keeps every entry where it was: each old position holds its
      old cookie or, for the entry of the same name, the new one; the jar
      grows by one exactly when the name was absent. */
  lemma UpsertKeepsPositions(jar: seq<string>, cookie: string)
    ensures var r := Upsert(jar, cookie);
      && |r| == (if Lookup(jar, CookieName(cookie)).None? then |jar| + 1 else |jar|)
      && (forall j :: 0 <= j < |jar| ==>
            r[j] == jar[j] || (r[j] == cookie && CookieName(jar[j]) == CookieName(cookie)))
      && cookie in r
  {
  }

  /** `Upsert` keeps the names unique, including when the match is entry 0. */
  lemma UpsertKeepsUnique(jar: seq<string>, cookie: string)
    requires UniqueNames(jar)
    ensures UniqueNames(Upsert(jar, cookie))
  {
    var r := Upsert(jar, cookie);
    match FindByName(jar, CookieName(cookie))
    case Some(i) =>
      forall a, b | 0 <= a < b < |r| ensures CookieName(r[a]) != CookieName(r[b]) {
        if a != i && b != i {
          assert r[a] == jar[a] && r[b] == jar[b];
        }
      }
    case None =>
      forall a, b | 0 <= a < b < |r| ensures CookieName(r[a]) != CookieName(r[b]) {
        if b < |jar| {
          assert r[a] == jar[a] && r[b] == jar[b];
        }
      }
  }

  /** After `Upsert` the incoming cookie is what its name looks up to, and
      every other name looks up to what it did before. */
  lemma UpsertLookup(jar: seq<string>, cookie: string, name: string)
    requires UniqueNames(jar)
    ensures Lookup(Upsert(jar, cookie), name) ==
      if name == CookieName(cookie) then Some(cookie) else Lookup(jar, name)
  {
    var r := Upsert(jar, cookie);
    UpsertKeepsUnique(jar, cookie);
    UniqueLookup(r, name);
    UniqueLookup(jar, name);
    match FindByName(jar, CookieName(cookie))
    case Some(i) =>
      assert r[i] == cookie;
      assert forall j :: 0 <= j < |jar| && j != i ==> r[j] == jar[j];
    case None =>
      assert r[|jar|] == cookie;
      assert forall j :: 0 <= j < |jar| ==> r[j] == jar[j];
  }

  /** In a jar with unique names, `Lookup` finds the one entry with that name. */
  lemma UniqueLookup(jar: seq<string>, name: string)
    requires UniqueNames(jar)
    ensures forall j :: 0 <= j < |jar| && CookieName(jar[j]) == name ==> Lookup(jar, name) == Some(jar[j])
    ensures Lookup(jar, name).None? <==> forall j :: 0 <= j < |jar| ==> CookieName(jar[j]) != name
  {
  }

  /** Applying a sequence of cookies to a jar with unique names keeps the
      names unique. */
  lemma {:induction false} UpsertAllUnique(jar: seq<string>, cookies: seq<string>)
    requires UniqueNames(jar)
    ensures UniqueNames(UpsertAll(jar, cookies))
    decreases |cookies|
  {
    if cookies != [] {
      UpsertAllUnique(jar, cookies[..|cookies| - 1]);
      UpsertKeepsUnique(UpsertAll(jar, cookies[..|cookies| - 1]), cookies[|cookies| - 1]);
    }
  }

  /** The latest value wins: after a sequence of cookies, each name looks up
      to the last incoming cookie of that name, or to its old entry. */
  lemma {:induction false} UpsertAllLatest(jar: seq<string>, cookies: seq<string>, name: string)
    requires UniqueNames(jar)
    ensures Lookup(UpsertAll(jar, cookies), name) ==
      match LastNamed(cookies, name)
      case Some(c) => Some(c)
      case None => Lookup(jar, name)
    decreases |cookies|
  {
    if cookies != [] {
      var init := cookies[..|cookies| - 1];
      UpsertAllLatest(jar, init, name);
      UpsertAllUnique(jar, init);
      UpsertLookup(UpsertAll(jar, init), cookies[|cookies| - 1], name);
    }
  }

  /** The session scenario: a second cookie of the same name replaces the
      first, whereas the code as written keeps neither. */
  lemma SessionReplaced(name: string, first: string, second: string)
    requires '=' !in name
    ensures var c1, c2 := name + "=" + first, name + "=" + second;
      && UpsertAll([], [c1, c2]) == [c2]
      && UpdateAll(Jar([], None), [c1, c2]).elements == []
  {
    var c1, c2 := name + "=" + first, name + "=" + second;
    NameOfPair(name, first);
    NameOfPair(name, second);
    assert [c1, c2][..1] == [c1];
    assert UpsertAll([], [c1]) == [c1] by {
      assert [c1][..0] == [];
    }
    EmptyJarStaysEmpty(None, [c1, c2]);
  }
}
