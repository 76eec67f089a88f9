/** Filling a template and matching it undo each other. */
module RoundTrip {
  import opened Regex
  import opened Template
  import opened Routing

  function ValuesOf(keys: seq<string>, values: map<string, string>): (caps: seq<string>)
    requires forall k :: k in keys ==> k in values
    ensures |caps| == |keys| && forall i :: 0 <= i < |keys| ==> caps[i] == values[keys[i]]
  {
    if keys == [] then [] else [values[keys[0]]] + ValuesOf(keys[1..], values)
  }

  lemma ExpandGroup(key: string, keys: seq<string>, re: seq<Atom>, values: map<string, string>)
    requires key in values && (forall k :: k in keys ==> k in values) && Groups(re) == |keys|
    ensures Groups([Group] + re) == |[key] + keys|
    ensures Expand([Group] + re, ValuesOf([key] + keys, values)) == values[key] + Expand(re, ValuesOf(keys, values))
  {
    assert ([Group] + re)[1..] == re && ([key] + keys)[1..] == keys;
    assert ([values[key]] + ValuesOf(keys, values))[1..] == ValuesOf(keys, values);
  }

  lemma ExpandLit(c: char, re: seq<Atom>, caps: seq<string>)
    requires Groups(re) == |caps|
    ensures Groups([Lit(c)] + re) == |caps| && Expand([Lit(c)] + re, caps) == [c] + Expand(re, caps)
  {
    assert ([Lit(c)] + re)[1..] == re;
  }

  lemma ExpandNothing(values: map<string, string>)
    ensures Groups([]) == 0 && Expand([], ValuesOf([], values)) == ""
  {
  }

  lemma {:induction false} FillIsExpand(t: string, values: map<string, string>)
    requires forall k :: k in Keys(t) ==> k in values
    ensures Groups(Atoms(t)) == |Keys(t)|
    ensures Fill(t, values) == Expand(Atoms(t), ValuesOf(Keys(t), values))
    decreases |t|
  {
    hide Expand, Groups, ValuesOf;
    if t == "" {
      ExpandNothing(values);
    } else if t[0] == ':' {
      var n := Run(t[1..]);
      var key, rest := t[1..1 + n], t[1 + n..];
      assert Keys(t) == [key] + Keys(rest);
      FillIsExpand(rest, values);
      ExpandGroup(key, Keys(rest), Atoms(rest), values);
    } else {
      FillIsExpand(t[1..], values);
      ExpandLit(t[0], Atoms(t[1..]), ValuesOf(Keys(t), values));
    }
  }

  lemma {:induction false} BindOfValues(keys: seq<string>, values: map<string, string>, n: nat)
    requires n <= |keys| && forall k :: k in keys ==> k in values
    ensures forall k :: k in Bind(keys, ValuesOf(keys, values), n) ==>
      k in values && Bind(keys, ValuesOf(keys, values), n)[k] == values[k]
  {
    hide ValuesOf;
    if n > 0 {
      BindOfValues(keys, values, n - 1);
    }
  }

  /** A filled template is accepted, and every key is bound to what was filled in. */
  lemma FillThenMatch(t: string, values: map<string, string>)
    requires forall k :: k in Keys(t) ==> k in values && Capturable(values[k])
    ensures Accepts(t, Fill(t, values))
    ensures Bindings(t, Fill(t, values)) == map k | k in Keys(t) :: values[k]
  {
    hide Keys, Atoms, Fill, Expand, Groups, Scan, Bind;
    var caps := ValuesOf(Keys(t), values);
    FillIsExpand(t, values);
    KeysAreGroups(t);
    assert Matches(Atoms(t), Fill(t, values), caps);
    ScanComplete(Atoms(t), Fill(t, values), caps);
    BindOfValues(Keys(t), values, |Keys(t)|);
    BoundKeys(Keys(t), caps, |Keys(t)|);
    assert Keys(t)[..|Keys(t)|] == Keys(t);
  }

  /** The same through the objects: set the URL, test the template, get a key. */
  method FillTestGet(library: Library, t: string, values: map<string, string>, key: string)
    returns (r: Tested, value: string)
    requires Standard(library)
    requires forall k :: k in Keys(t) ==> k in values && Capturable(values[k])
    ensures Plain(t) ==> r == Accepted && value == if key in Keys(t) then values[key] else ""
  {
    hide Keys, Plain, Fill, Accepts, Bindings, TestedWith;
    var route := new Route(library);
    var m := route.Set(Fill(t, values));
    FillThenMatch(t, values);
    r := m.Test(t);
    value := m.Get(key);
  }

  /** Exactly the keys of the template are bound, each to something that can be a segment. */
  lemma BoundValues(t: string, url: string)
    requires Accepts(t, url)
    ensures forall k :: k in Bindings(t, url) <==> k in Keys(t)
    ensures forall k :: k in Bindings(t, url) ==> Capturable(Bindings(t, url)[k])
  {
    hide Keys, Atoms, Scan;
    var keys, caps := Keys(t), Captures(t, url);
    AcceptsMeansMatches(t, url);
    assert Matches(Atoms(t), url, caps);
    BoundKeys(keys, caps, |keys|);
    assert keys[..|keys|] == keys;
    BoundFromCaptures(keys, caps, |keys|);
  }

  lemma {:induction false} BoundFromCaptures(keys: seq<string>, caps: seq<string>, n: nat)
    requires n <= |keys| == |caps|
    ensures forall k :: k in Bind(keys, caps, n) ==> Bind(keys, caps, n)[k] in caps
  {
    if n > 0 {
      BoundFromCaptures(keys, caps, n - 1);
    }
  }

  /** Occurrences of one key that captured the same text. */
  ghost predicate RepeatsAgree(keys: seq<string>, caps: seq<string>)
    requires |keys| == |caps|
  {
    forall i, j :: 0 <= i < j < |keys| && keys[i] == keys[j] ==> caps[i] == caps[j]
  }

  lemma {:induction false} LeastIndex(keys: seq<string>, key: string, j: nat) returns (i: nat)
    requires j < |keys| && keys[j] == key
    ensures i <= j && keys[i] == key && forall k :: 0 <= k < i ==> keys[k] != key
  {
    if k :| 0 <= k < j && keys[k] == key {
      i := LeastIndex(keys, key, k);
    } else {
      i := j;
    }
  }

  lemma ReadBack(keys: seq<string>, caps: seq<string>)
    requires |keys| == |caps|
    ensures forall k :: k in keys ==> k in Bind(keys, caps, |keys|)
    ensures ValuesOf(keys, Bind(keys, caps, |keys|)) == caps <==> RepeatsAgree(keys, caps)
  {
    hide Bind;
    var b := Bind(keys, caps, |keys|);
    BoundKeys(keys, caps, |keys|);
    assert keys[..|keys|] == keys;
    forall j | 0 <= j < |keys|
      ensures exists i :: 0 <= i <= j && keys[i] == keys[j] && b[keys[j]] == caps[i]
    {
      var i := LeastIndex(keys, keys[j], j);
      FirstCaptureWins(keys, caps, |keys|, i);
    }
  }

  /** The template filled with the bindings of a URL it accepts. */
  function Refill(t: string, url: string): string
    requires Accepts(t, url)
  {
    BoundValues(t, url);
    Fill(t, Bindings(t, url))
  }

  /** Gives the URL back exactly when no key that occurs twice captured two different texts. */
  lemma MatchThenFill(t: string, url: string)
    requires Accepts(t, url)
    ensures Refill(t, url) == url <==> RepeatsAgree(Keys(t), Captures(t, url))
  {
    hide Keys, Atoms, Fill, Expand, Groups, Scan, Bind, RepeatsAgree;
    var keys, caps, b := Keys(t), Captures(t, url), Bindings(t, url);
    ReadBack(keys, caps);
    BoundValues(t, url);
    AcceptsMeansMatches(t, url);
    FillIsExpand(t, b);
    var again := ValuesOf(keys, b);
    assert url == Expand(Atoms(t), caps);
    if Fill(t, b) == url {
      assert Matches(Atoms(t), url, again);
    }
  }

  ghost predicate Distinct(keys: seq<string>) {
    forall i, j :: 0 <= i < j < |keys| ==> keys[i] != keys[j]
  }

  /** A URL that gives one occurrence of a repeated key a text of its own. */
  lemma RepeatedKeyLosesText(t: string, i: nat, j: nat) returns (url: string)
    requires i < j < |Keys(t)| && Keys(t)[i] == Keys(t)[j]
    ensures Accepts(t, url) && Refill(t, url) != url
  {
    hide Keys, Atoms, Fill, Expand, Groups, Scan, Bind, Refill, Captures;
    var caps := seq(|Keys(t)|, k => if k == j then "y" else "x");
    KeysAreGroups(t);
    url := Expand(Atoms(t), caps);
    assert Matches(Atoms(t), url, caps);
    AcceptsMeansMatches(t, url);
    assert caps[i] != caps[j];
    MatchThenFill(t, url);
  }

  /** Refilling always gives the URL back exactly for the templates whose keys are distinct. */
  lemma RefillsExactly(t: string)
    ensures (forall url :: Accepts(t, url) ==> Refill(t, url) == url) <==> Distinct(Keys(t))
  {
    hide Keys, Accepts, Refill, Captures;
    if Distinct(Keys(t)) {
      forall url | Accepts(t, url)
        ensures Refill(t, url) == url
      {
        MatchThenFill(t, url);
      }
    } else {
      var i, j :| 0 <= i < j < |Keys(t)| && Keys(t)[i] == Keys(t)[j];
      var url := RepeatedKeyLosesText(t, i, j);
    }
  }

  lemma EmptyTemplate()
    ensures Keys("") == [] && Atoms("") == []
  {
  }

  lemma TwiceTheSameKey()
    ensures Keys("/:a/:a") == ["a", "a"]
    ensures Atoms("/:a/:a") == [Lit('/'), Group, Lit('/'), Group]
  {
    hide Keys, Atoms, Plain, Rewrite;
    EmptyTemplate();
    KeyFirst("a", "");
    LiteralFirst('/', ":a");
    KeyFirst("a", "/:a");
    LiteralFirst('/', ":a/:a");
    assert ":" + "a" + "" == ":a" && "/" + ":a" == "/:a";
    assert ":" + "a" + "/:a" == ":a/:a" && "/" + ":a/:a" == "/:a/:a";
  }

  lemma TwoDifferentTexts()
    ensures Matches([Lit('/'), Group, Lit('/'), Group], "/x/y", ["x", "y"])
  {
    assert Expand([Group], ["y"]) == "y";
    assert Expand([Lit('/'), Group], ["y"]) == "/y";
    assert Expand([Group, Lit('/'), Group], ["x", "y"]) == "x/y";
  }

  /** An example: of the two segments, only the first comes back. */
  lemma SegmentLost()
    ensures Accepts("/:a/:a", "/x/y") && "a" in Bindings("/:a/:a", "/x/y")
    ensures Bindings("/:a/:a", "/x/y")["a"] == "x"
    ensures Refill("/:a/:a", "/x/y") != "/x/y"
  {
    hide Keys, Atoms, Scan, Fill, Bind, Matches, Refill;
    var t, url, caps := "/:a/:a", "/x/y", ["x", "y"];
    TwiceTheSameKey();
    TwoDifferentTexts();
    AcceptsMeansMatches(t, url);
    MatchThenFill(t, url);
    assert Keys(t)[0] == Keys(t)[1] && caps[0] != caps[1];
    FirstCaptureWins(Keys(t), caps, 2, 0);
  }
}
