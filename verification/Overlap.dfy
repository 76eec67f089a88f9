/** When two templates can both accept one URL. */
module Overlap {
  import opened Regex
  import opened Template
  import opened Routing

  /** What follows the current segment. */
  function DropSegment(re: seq<Atom>): (r: seq<Atom>)
    ensures |r| <= |re| && (r != [] ==> r[0] == Lit('/'))
  {
    if re == [] || re[0] == Lit('/') then re else DropSegment(re[1..])
  }

  /** Segment by segment; a group stands against any nonempty rest of a segment. */
  predicate CanOverlap(a: seq<Atom>, b: seq<Atom>)
    decreases |a| + |b|
  {
    if a == [] || b == [] then a == b
    else if a[0].Lit? && b[0].Lit? then a[0] == b[0] && CanOverlap(a[1..], b[1..])
    else if a[0].Group? && b[0].Group? then CanOverlap(a[1..], b[1..])
    else if a[0].Group? then b[0] != Lit('/') && CanOverlap(a[1..], DropSegment(b))
    else a[0] != Lit('/') && CanOverlap(DropSegment(a), b[1..])
  }

  // ---- a common URL implies overlap ----

  lemma {:induction false} SeparatedDrop(re: seq<Atom>)
    requires Separated(re)
    ensures Separated(DropSegment(re))
  {
    if re != [] && re[0] != Lit('/') {
      SeparatedDrop(re[1..]);
    }
  }

  lemma RunOfTail(url: string)
    requires url != "" && url[0] != '/'
    ensures Run(url) == 1 + Run(url[1..]) && url[Run(url)..] == url[1..][Run(url[1..])..]
  {
  }

  lemma {:induction false} SegmentAccepted(re: seq<Atom>, url: string)
    requires Separated(re) && Scan(re, url).Some?
    ensures Scan(DropSegment(re), url[Run(url)..]).Some?
  {
    if re == [] || re[0] == Lit('/') {
      assert url[0..] == url;
    } else if re[0].Lit? {
      RunOfTail(url);
      SegmentAccepted(re[1..], url[1..]);
    } else {
      assert re[1..] != [] ==> re[1..][0] == Lit('/');
    }
  }

  lemma {:induction false} CommonUrlOverlaps(a: seq<Atom>, b: seq<Atom>, url: string)
    requires Separated(a) && Separated(b)
    requires Scan(a, url).Some? && Scan(b, url).Some?
    ensures CanOverlap(a, b)
    decreases |a| + |b|
  {
    if a == [] || b == [] {
    } else if a[0].Lit? && b[0].Lit? {
      CommonUrlOverlaps(a[1..], b[1..], url[1..]);
    } else if a[0].Group? && b[0].Group? {
      CommonUrlOverlaps(a[1..], b[1..], url[Run(url)..]);
    } else if a[0].Group? {
      SegmentAccepted(b, url);
      SeparatedDrop(b);
      CommonUrlOverlaps(a[1..], DropSegment(b), url[Run(url)..]);
    } else {
      SegmentAccepted(a, url);
      SeparatedDrop(a);
      CommonUrlOverlaps(DropSegment(a), b[1..], url[Run(url)..]);
    }
  }

  // ---- overlap yields a common URL ----

  /** A text for the rest of the current segment. */
  function SegmentText(re: seq<Atom>): (s: string)
    ensures SlashFree(s)
    ensures re != [] && re[0] != Lit('/') ==> s != ""
  {
    if re == [] || re[0] == Lit('/') then ""
    else (if re[0].Lit? then [re[0].c] else "x") + SegmentText(re[1..])
  }

  lemma AcceptGroup(re: seq<Atom>, s: string, rest: string)
    requires re != [] && re[0].Group? && Capturable(s) && SegmentEnd(rest) && Scan(re[1..], rest).Some?
    ensures Scan(re, s + rest).Some?
  {
    RunOfSegment(s, rest);
  }

  lemma AcceptLit(re: seq<Atom>, rest: string)
    requires re != [] && re[0].Lit? && Scan(re[1..], rest).Some?
    ensures Scan(re, [re[0].c] + rest).Some?
  {
    assert ([re[0].c] + rest)[1..] == rest;
  }

  lemma NoSegment(re: seq<Atom>)
    requires re == [] || re[0] == Lit('/')
    ensures DropSegment(re) == re && SegmentText(re) == ""
  {
  }

  lemma SegmentOfLit(re: seq<Atom>)
    requires re != [] && re[0].Lit? && re[0] != Lit('/') && Separated(re)
    ensures Separated(re[1..]) && DropSegment(re) == DropSegment(re[1..])
    ensures SegmentText(re) == [re[0].c] + SegmentText(re[1..])
  {
  }

  lemma SegmentOfGroup(re: seq<Atom>)
    requires re != [] && re[0].Group? && Separated(re)
    ensures DropSegment(re) == re[1..] && SegmentText(re) == "x"
  {
    assert re[1..] != [] ==> re[1..][0] == Lit('/');
  }

  lemma {:induction false} AcceptSegment(re: seq<Atom>, rest: string)
    requires Separated(re) && SegmentEnd(rest) && Scan(DropSegment(re), rest).Some?
    ensures Scan(re, SegmentText(re) + rest).Some?
  {
    hide Scan, SegmentEnd, Separated, DropSegment, SegmentText;
    if re == [] || re[0] == Lit('/') {
      NoSegment(re);
      assert "" + rest == rest;
    } else if re[0].Lit? {
      SegmentOfLit(re);
      var tail := SegmentText(re[1..]);
      AcceptSegment(re[1..], rest);
      AcceptLit(re, tail + rest);
      assert [re[0].c] + tail + rest == [re[0].c] + (tail + rest);
    } else {
      SegmentOfGroup(re);
      AcceptGroup(re, "x", rest);
    }
  }

  /** What accepts a URL from the end of a segment on begins with a slash or is empty. */
  lemma RestIsSegmentEnd(re: seq<Atom>, rest: string)
    requires (re != [] ==> re[0] == Lit('/')) && Scan(re, rest).Some?
    ensures SegmentEnd(rest)
  {
  }

  lemma {:induction false} OverlapHasCommonUrl(a: seq<Atom>, b: seq<Atom>) returns (url: string)
    requires Separated(a) && Separated(b) && CanOverlap(a, b)
    ensures Scan(a, url).Some? && Scan(b, url).Some?
    decreases |a| + |b|
  {
    if a == [] || b == [] {
      url := "";
    } else if a[0].Lit? && b[0].Lit? {
      var rest := OverlapHasCommonUrl(a[1..], b[1..]);
      url := [a[0].c] + rest;
    } else if a[0].Group? && b[0].Group? {
      var rest := OverlapHasCommonUrl(a[1..], b[1..]);
      RestIsSegmentEnd(a[1..], rest);
      AcceptGroup(a, "x", rest);
      AcceptGroup(b, "x", rest);
      url := "x" + rest;
    } else if a[0].Group? {
      SeparatedDrop(b);
      var rest := OverlapHasCommonUrl(a[1..], DropSegment(b));
      RestIsSegmentEnd(a[1..], rest);
      AcceptGroup(a, SegmentText(b), rest);
      AcceptSegment(b, rest);
      url := SegmentText(b) + rest;
    } else {
      SeparatedDrop(a);
      var rest := OverlapHasCommonUrl(DropSegment(a), b[1..]);
      RestIsSegmentEnd(b[1..], rest);
      AcceptGroup(b, SegmentText(a), rest);
      AcceptSegment(a, rest);
      url := SegmentText(a) + rest;
    }
  }

  /** Two templates can be told apart by every URL exactly when they do not overlap. */
  lemma OverlapDecided(t: string, u: string)
    ensures CanOverlap(Atoms(t), Atoms(u)) <==> exists url :: Accepts(t, url) && Accepts(u, url)
  {
    hide Atoms, Scan, CanOverlap;
    KeysAreGroups(t);
    KeysAreGroups(u);
    if CanOverlap(Atoms(t), Atoms(u)) {
      var url := OverlapHasCommonUrl(Atoms(t), Atoms(u));
      assert Accepts(t, url) && Accepts(u, url);
    }
    if url :| Accepts(t, url) && Accepts(u, url) {
      CommonUrlOverlaps(Atoms(t), Atoms(u), url);
    }
  }
}
