/**
 Route and Match: a route holds the URL of a request, and its match object tests
 templates against that URL and keeps the bindings of the last one.
 */
module Routing {
  import opened Wrappers
  import opened Regex
  import opened Template

  /** The pattern that finds keys in a template. */
  const PATH_PATTERN: string := ":([^\\/]+)?"

  // ---- the library of regular expressions ----

  /** What becomes of `regex_match(url, regex(text))`. */
  datatype Verdict = BadPattern | NoMatch | Captured(caps: seq<string>)

  type Library = (string, string) -> Verdict

  function Anchored(text: string): string {
    "^" + text + "$"
  }

  function Answer(found: Option<seq<string>>): Verdict {
    if found.Some? then Captured(found.value) else NoMatch
  }

  /** On the expressions of this model the library does what the matcher does; on others, anything. */
  ghost predicate Standard(library: Library) {
    forall text, url :: ParseRegex(text).Some? ==>
      library(Anchored(text), url) == Answer(Exec(ParseRegex(text).value, url, true))
  }

  /** There are such libraries. */
  lemma SomeLibrary() returns (library: Library)
    ensures Standard(library)
  {
    var inside := (text: string) => if |text| < 2 then "" else text[1..|text| - 1];
    library := (text, url) =>
      var re := ParseRegex(inside(text));
      if re.None? then BadPattern else Answer(Exec(re.value, url, true));
    forall text, url | ParseRegex(text).Some?
      ensures library(Anchored(text), url) == Answer(Exec(ParseRegex(text).value, url, true))
    {
      assert Anchored(text)[1..|Anchored(text)| - 1] == text;
    }
  }

  // ---- templates and URLs ----

  /** The text of a template's expression, and its keys. */
  datatype Path = Path(re: string, keys: seq<string>)

  function PathOf(t: string): Path {
    Path(Anchored(Rewrite(t)), Keys(t))
  }

  /** How a test ends; a missing key is an access out of range. */
  datatype Tested = Accepted | Rejected | Thrown | KeyMissing

  predicate Accepts(t: string, url: string) {
    Scan(Atoms(t), url).Some?
  }

  function Captures(t: string, url: string): (caps: seq<string>)
    requires Accepts(t, url)
    ensures |caps| == |Keys(t)|
  {
    KeysAreGroups(t);
    ScanSound(Atoms(t), url);
    Scan(Atoms(t), url).value
  }

  /** `map::insert`: an existing binding stays. */
  function Insert(pairs: map<string, string>, key: string, value: string): map<string, string> {
    if key in pairs then pairs else pairs[key := value]
  }

  /** The bindings after the first `n` captures have been inserted, one by one. */
  function Bind(keys: seq<string>, caps: seq<string>, n: nat): map<string, string>
    requires n <= |keys| && n <= |caps|
  {
    if n == 0 then map[] else Insert(Bind(keys, caps, n - 1), keys[n - 1], caps[n - 1])
  }

  function Bindings(t: string, url: string): map<string, string>
    requires Accepts(t, url)
  {
    Bind(Keys(t), Captures(t, url), |Keys(t)|)
  }

  class Route {
    const library: Library
    var url: string
    var pathToRegex: string
    var cache: map<string, Path>

    /** A cached path, if there ever is one, is that of its template. */
    ghost predicate Valid()
      reads this
    {
      && Standard(library)
      && forall t :: t in cache ==> cache[t] == PathOf(t)
    }

    constructor (library: Library)
      requires Standard(library)
      ensures Valid() && this.library == library && cache == map[]
    {
      this.library := library;
      url, pathToRegex, cache := "", "", map[];
    }

    method Set(u: string) returns (m: Match)
      modifies `url, `pathToRegex
      ensures url == u && pathToRegex == ":([^\\/]+)?"
      ensures fresh(m) && m.route == this && m.pairs == map[]
    {
      url := u;
      pathToRegex := PATH_PATTERN;
      m := new Match(this);
    }
  }

  class Match {
    const route: Route
    var pairs: map<string, string>
    var keys: int

    /** `keys` is left as it is found. */
    constructor (r: Route)
      ensures route == r && pairs == map[]
    {
      route, pairs := r, map[];
    }

    function Get(key: string): string
      reads this
    {
      if key in pairs then pairs[key] else ""
    }

    /**
     Nothing of an earlier test remains, whatever this one comes to. For a template
     that is not plain, all depends on what the library makes of the expression.
     */
    method Test(tmpl: string) returns (r: Tested)
      requires route.Valid() && route.pathToRegex == ":([^\\/]+)?"
      modifies this
      ensures TestedWith(route.library("^" + Rewrite(tmpl) + "$", route.url), Keys(tmpl), r, pairs, keys)
      ensures Plain(tmpl) ==>
        && r == (if Accepts(tmpl, route.url) then Accepted else Rejected)
        && pairs == (if Accepts(tmpl, route.url) then Bindings(tmpl, route.url) else map[])
        && keys == if Accepts(tmpl, route.url) then |Keys(tmpl)| else 0
    {
      hide Keys, Atoms, Rewrite, Plain, Scan, Exec, Bind, Standard;
      PlainVerdict(route.library, tmpl, route.url);
      pairs, keys := map[], 0;
      var path;
      if tmpl in route.cache {
        path := route.cache[tmpl];
      } else {
        var pathKeys := CollectKeys(tmpl);
        var exp := ReplaceKeys(tmpl);
        path := Path(Anchored(exp), pathKeys);
      }

      var verdict := route.library(path.re, route.url);
      if verdict.BadPattern? {
        return Thrown;
      }
      if verdict.NoMatch? {
        return Rejected;
      }
      var smValues := [route.url] + verdict.caps;
      NothingBound(path.keys, verdict.caps);
      for i := 0 to |smValues| - 1
        invariant i <= |path.keys| && keys == i && pairs == Bind(path.keys, verdict.caps, i)
      {
        if i == |path.keys| {
          return KeyMissing;
        }
        OneMoreBound(path.keys, verdict.caps, i);
        var key := path.keys[i];
        pairs := Insert(pairs, key, smValues[i + 1]);
        keys := keys + 1;
      }
      return Accepted;
    }
  }

  /** How a test must end when the library gives that verdict. */
  ghost predicate TestedWith(v: Verdict, keys: seq<string>, r: Tested, pairs: map<string, string>, bound: int) {
    match v
    case BadPattern => r == Thrown && pairs == map[] && bound == 0
    case NoMatch => r == Rejected && pairs == map[] && bound == 0
    case Captured(caps) =>
      var n := if |caps| <= |keys| then |caps| else |keys|;
      && r == (if |caps| <= |keys| then Accepted else KeyMissing)
      && pairs == Bind(keys, caps, n) && bound == n
  }

  lemma PlainVerdict(library: Library, t: string, url: string)
    requires Standard(library)
    ensures Plain(t) ==>
      library(Anchored(Rewrite(t)), url) == (if Accepts(t, url) then Captured(Captures(t, url)) else NoMatch)
  {
    hide Keys, Atoms, Rewrite, Plain, Exec, Scan;
    if Plain(t) {
      ParseOfRewrite(t);
      KeysAreGroups(t);
      ThreeViews(Atoms(t), url, true);
    }
  }

  lemma NothingBound(keys: seq<string>, caps: seq<string>)
    ensures Bind(keys, caps, 0) == map[]
  {
  }

  lemma OneMoreBound(keys: seq<string>, caps: seq<string>, n: nat)
    requires n < |keys| && n < |caps|
    ensures Bind(keys, caps, n + 1) == Insert(Bind(keys, caps, n), keys[n], caps[n])
  {
  }

  // ---- what a test means ----

  /** Acceptance is the existence of a whole-URL match, and its captures are the only ones. */
  lemma AcceptsMeansMatches(t: string, url: string)
    ensures Accepts(t, url) <==> exists caps :: Matches(Atoms(t), url, caps)
    ensures Accepts(t, url) ==> forall caps :: Matches(Atoms(t), url, caps) <==> caps == Captures(t, url)
  {
    KeysAreGroups(t);
    ThreeViews(Atoms(t), url, true);
    if Accepts(t, url) {
      assert Matches(Atoms(t), url, Captures(t, url));
    }
  }

  /** The bound keys are those of the template, each with its first capture. */
  lemma {:induction false} FirstCaptureWins(keys: seq<string>, caps: seq<string>, n: nat, i: nat)
    requires i < n <= |keys| == |caps|
    requires forall j :: 0 <= j < i ==> keys[j] != keys[i]
    ensures keys[i] in Bind(keys, caps, n) && Bind(keys, caps, n)[keys[i]] == caps[i]
  {
    if i < n - 1 {
      FirstCaptureWins(keys, caps, n - 1, i);
    } else {
      BoundKeys(keys, caps, n - 1);
    }
  }

  lemma {:induction false} BoundKeys(keys: seq<string>, caps: seq<string>, n: nat)
    requires n <= |keys| == |caps|
    ensures forall k :: k in Bind(keys, caps, n) <==> k in keys[..n]
  {
    if n > 0 {
      BoundKeys(keys, caps, n - 1);
      assert keys[..n] == keys[..n - 1] + [keys[n - 1]];
    }
  }
}
