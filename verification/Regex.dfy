/**
 The part of ECMAScript regular expressions that route templates compile to:
 literal characters and the lazy group of one or more non-slash characters,
 matched against a whole string.

 Three views of a match are given, and shown to agree: a declarative relation, a
 backtracking matcher that tries the lengths of a group in a given order (section
 15.10.2 of ECMA-262, 3rd edition), and a scanner that never goes back.
 */
module Regex {
  import opened Wrappers

  /** `Group` stands for the group that captures `[^/]+?`. */
  datatype Atom = Lit(c: char) | Group

  predicate SlashFree(s: string) {
    '/' !in s
  }

  predicate Capturable(s: string) {
    s != "" && SlashFree(s)
  }

  function Groups(re: seq<Atom>): nat {
    if re == [] then 0 else (if re[0].Group? then 1 else 0) + Groups(re[1..])
  }

  /** The string obtained by putting `caps` in the place of the groups. */
  function Expand(re: seq<Atom>, caps: seq<string>): string
    requires |caps| == Groups(re)
  {
    if re == [] then ""
    else if re[0].Lit? then [re[0].c] + Expand(re[1..], caps)
    else caps[0] + Expand(re[1..], caps[1..])
  }

  /** `url` as a whole matches `re`, with the groups capturing `caps`. */
  ghost predicate Matches(re: seq<Atom>, url: string, caps: seq<string>) {
    && |caps| == Groups(re)
    && (forall i :: 0 <= i < |caps| ==> Capturable(caps[i]))
    && url == Expand(re, caps)
  }

  /** Every group is followed by a slash or by nothing. */
  predicate Separated(re: seq<Atom>) {
    re == [] || (Separated(re[1..]) && (re[0].Group? && |re| > 1 ==> re[1] == Lit('/')))
  }

  /** The length of the longest slash-free prefix. */
  function Run(s: string): (n: nat)
    ensures n <= |s| && SlashFree(s[..n])
    ensures n < |s| ==> s[n] == '/'
  {
    if s == "" || s[0] == '/' then 0
    else
      var n := Run(s[1..]);
      assert s[..n + 1] == [s[0]] + s[1..][..n];
      n + 1
  }

  // ---- the scanner ----

  function Scan(re: seq<Atom>, url: string): Option<seq<string>> {
    if re == [] then
      if url == "" then Some([]) else None
    else if re[0].Lit? then
      if url != "" && url[0] == re[0].c then Scan(re[1..], url[1..]) else None
    else
      var n := Run(url);
      if n == 0 then None
      else
        match Scan(re[1..], url[n..])
        case None => None
        case Some(caps) => Some([url[..n]] + caps)
  }

  // ---- the backtracking matcher ----

  /** `lazy` says whether shorter captures are tried first. */
  function Exec(re: seq<Atom>, url: string, lazy: bool): Option<seq<string>>
    decreases |re|, 1
  {
    if re == [] then
      if url == "" then Some([]) else None
    else if re[0].Lit? then
      if url != "" && url[0] == re[0].c then Exec(re[1..], url[1..], lazy) else None
    else
      Try(re, url, lazy, Run(url))
  }

  /** Tries the `left` capture lengths that remain: the last ones if lazy, the first ones if greedy. */
  function Try(re: seq<Atom>, url: string, lazy: bool, left: nat): Option<seq<string>>
    requires re != [] && left <= Run(url)
    decreases |re|, 0, left
  {
    if left == 0 then None
    else
      var n := if lazy then Run(url) - left + 1 else left;
      match Exec(re[1..], url[n..], lazy)
      case Some(caps) => Some([url[..n]] + caps)
      case None => Try(re, url, lazy, left - 1)
  }

  // ---- soundness ----

  lemma MatchesGroup(re: seq<Atom>, url: string, n: nat, caps: seq<string>)
    requires re != [] && re[0].Group? && 0 < n <= Run(url)
    requires Matches(re[1..], url[n..], caps)
    ensures Matches(re, url, [url[..n]] + caps)
  {
    var all := [url[..n]] + caps;
    assert all[1..] == caps;
    assert SlashFree(url[..n]) by {
      assert url[..n] == url[..Run(url)][..n];
    }
    assert url == url[..n] + url[n..];
  }

  lemma {:induction false} ScanSound(re: seq<Atom>, url: string)
    ensures Scan(re, url).Some? ==> Matches(re, url, Scan(re, url).value)
  {
    if re == [] {
    } else if re[0].Lit? {
      if url != "" {
        ScanSound(re[1..], url[1..]);
        assert url == [url[0]] + url[1..];
      }
    } else {
      var n := Run(url);
      if 0 < n && Scan(re[1..], url[n..]).Some? {
        ScanSound(re[1..], url[n..]);
        MatchesGroup(re, url, n, Scan(re[1..], url[n..]).value);
      }
    }
  }

  lemma {:induction false} ExecSound(re: seq<Atom>, url: string, lazy: bool)
    ensures Exec(re, url, lazy).Some? ==> Matches(re, url, Exec(re, url, lazy).value)
    decreases |re|, 1
  {
    if re == [] {
    } else if re[0].Lit? {
      if url != "" {
        ExecSound(re[1..], url[1..], lazy);
        assert url == [url[0]] + url[1..];
      }
    } else {
      TrySound(re, url, lazy, Run(url));
    }
  }

  lemma {:induction false} TrySound(re: seq<Atom>, url: string, lazy: bool, left: nat)
    requires re != [] && re[0].Group? && left <= Run(url)
    ensures Try(re, url, lazy, left).Some? ==> Matches(re, url, Try(re, url, lazy, left).value)
    decreases |re|, 0, left
  {
    if left != 0 {
      var n := if lazy then Run(url) - left + 1 else left;
      ExecSound(re[1..], url[n..], lazy);
      if Exec(re[1..], url[n..], lazy).Some? {
        MatchesGroup(re, url, n, Exec(re[1..], url[n..], lazy).value);
      } else {
        TrySound(re, url, lazy, left - 1);
      }
    }
  }

  // ---- completeness ----

  /** A match of an expression that starts with a group captures a prefix of the run. */
  lemma FirstCapture(re: seq<Atom>, url: string, caps: seq<string>)
    requires re != [] && re[0].Group? && Matches(re, url, caps)
    ensures var n := |caps[0]|;
      && 0 < n <= Run(url) && caps[0] == url[..n]
      && Matches(re[1..], url[n..], caps[1..])
  {
    var n := |caps[0]|;
    assert Capturable(caps[0]);
    assert url == caps[0] + Expand(re[1..], caps[1..]);
    assert url[..n] == caps[0] && url[n..] == Expand(re[1..], caps[1..]);
    RunCovers(url, n);
    forall i | 0 <= i < |caps[1..]|
      ensures Capturable(caps[1..][i])
    {
      assert Capturable(caps[i + 1]);
    }
  }

  lemma SlashInside(s: string, k: nat)
    requires k < |s| && s[k] == '/'
    ensures forall n :: k < n <= |s| ==> !SlashFree(s[..n])
  {
    forall n | k < n <= |s|
      ensures !SlashFree(s[..n])
    {
      assert s[..n][k] == '/';
    }
  }

  lemma RunCovers(s: string, n: nat)
    requires n <= |s| && SlashFree(s[..n])
    ensures n <= Run(s)
  {
    if Run(s) < |s| {
      SlashInside(s, Run(s));
    }
  }

  predicate SegmentEnd(rest: string) {
    rest == "" || rest[0] == '/'
  }

  lemma RunOfSegment(s: string, rest: string)
    requires SlashFree(s) && SegmentEnd(rest)
    ensures Run(s + rest) == |s| && (s + rest)[..|s|] == s && (s + rest)[|s|..] == rest
  {
    assert (s + rest)[..|s|] == s;
    RunCovers(s + rest, |s|);
    if rest != "" {
      assert (s + rest)[|s|] == '/';
      SlashInside(s + rest, |s|);
    }
  }

  /** The matcher finds a match whenever there is one, in either order. */
  lemma {:induction false} ExecComplete(re: seq<Atom>, url: string, lazy: bool, caps: seq<string>)
    requires Matches(re, url, caps)
    ensures Exec(re, url, lazy).Some?
    decreases |re|, 1
  {
    if re == [] {
    } else if re[0].Lit? {
      assert url == [re[0].c] + Expand(re[1..], caps);
      assert url[1..] == Expand(re[1..], caps);
      ExecComplete(re[1..], url[1..], lazy, caps);
    } else {
      FirstCapture(re, url, caps);
      TryComplete(re, url, lazy, Run(url), caps);
    }
  }

  lemma {:induction false} TryComplete(re: seq<Atom>, url: string, lazy: bool, left: nat, caps: seq<string>)
    requires re != [] && re[0].Group? && Matches(re, url, caps) && left <= Run(url)
    requires 0 < |caps[0]| <= Run(url)
    requires if lazy then Run(url) - left < |caps[0]| else |caps[0]| <= left
    ensures Try(re, url, lazy, left).Some?
    decreases |re|, 0, left
  {
    var n := if lazy then Run(url) - left + 1 else left;
    if n == |caps[0]| {
      FirstCapture(re, url, caps);
      ExecComplete(re[1..], url[n..], lazy, caps[1..]);
    } else {
      TryComplete(re, url, lazy, left - 1, caps);
    }
  }

  // ---- no ambiguity ----

  /** With groups separated by slashes, a group can only capture the whole run. */
  lemma WholeRun(re: seq<Atom>, url: string, caps: seq<string>)
    requires re != [] && re[0].Group? && Separated(re) && Matches(re, url, caps)
    ensures |caps[0]| == Run(url)
  {
    FirstCapture(re, url, caps);
    var n := |caps[0]|;
    var rest := Expand(re[1..], caps[1..]);
    assert url[n..] == rest;
    if |re| > 1 {
      assert rest[0] == '/';
      assert url[n] == '/';
      SlashInside(url, n);
    }
  }

  lemma {:induction false} ScanComplete(re: seq<Atom>, url: string, caps: seq<string>)
    requires Separated(re) && Matches(re, url, caps)
    ensures Scan(re, url) == Some(caps)
  {
    if re == [] {
    } else if re[0].Lit? {
      assert url == [re[0].c] + Expand(re[1..], caps);
      assert url[1..] == Expand(re[1..], caps);
      ScanComplete(re[1..], url[1..], caps);
    } else {
      FirstCapture(re, url, caps);
      WholeRun(re, url, caps);
      ScanComplete(re[1..], url[Run(url)..], caps[1..]);
      assert caps == [caps[0]] + caps[1..];
    }
  }

  /** All three views agree, so laziness does not show. */
  lemma ThreeViews(re: seq<Atom>, url: string, lazy: bool)
    requires Separated(re)
    ensures Exec(re, url, lazy) == Scan(re, url)
    ensures forall caps :: Matches(re, url, caps) <==> Scan(re, url) == Some(caps)
  {
    ScanSound(re, url);
    forall caps | Matches(re, url, caps)
      ensures Scan(re, url) == Some(caps)
    {
      ScanComplete(re, url, caps);
    }
    ExecSound(re, url, lazy);
    if Scan(re, url).Some? {
      ExecComplete(re, url, lazy, Scan(re, url).value);
    }
  }
}
