/**
 URL templates such as `/player/kick/:name`: the search for keys, the rewriting
 of keys into capture groups, and the regular expression that results.
 */
module Template {
  import opened Wrappers
  import opened Regex

  /** The text that `regex_replace` puts in the place of every key. */
  const CAPTURE_PATTERN: string := "(?:([^\\/]+?))"

  predicate Meta(c: char) {
    c in "^$\\.*+?()[]{}|"
  }

  /** They are the syntax characters of ECMAScript. */
  lemma SyntaxCharacters(c: char)
    ensures Meta(c) <==>
      || c == '^' || c == '$' || c == '\\' || c == '.' || c == '*' || c == '+' || c == '?'
      || c == '(' || c == ')' || c == '[' || c == ']' || c == '{' || c == '}' || c == '|'
  {
  }

  // ---- templates read from left to right ----

  /** The keys: a colon and all that follows it up to a slash or the end. */
  function Keys(t: string): seq<string>
    decreases |t|
  {
    if t == "" then []
    else if t[0] == ':' then
      var n := Run(t[1..]);
      [t[1..1 + n]] + Keys(t[1 + n..])
    else Keys(t[1..])
  }

  /** The text of the expression: literals stay, keys become capture groups. */
  function Rewrite(t: string): string
    decreases |t|
  {
    if t == "" then ""
    else if t[0] == ':' then CAPTURE_PATTERN + Rewrite(t[1 + Run(t[1..])..])
    else [t[0]] + Rewrite(t[1..])
  }

  /** The expression itself. */
  function Atoms(t: string): seq<Atom>
    decreases |t|
  {
    if t == "" then []
    else if t[0] == ':' then [Group] + Atoms(t[1 + Run(t[1..])..])
    else [Lit(t[0])] + Atoms(t[1..])
  }

  /** Outside keys, no character has a meaning of its own in an expression. */
  predicate Plain(t: string)
    decreases |t|
  {
    t == "" ||
    (if t[0] == ':' then Plain(t[1 + Run(t[1..])..]) else !Meta(t[0]) && Plain(t[1..]))
  }

  /** The template with `values[k]` in the place of every key `k`. */
  function Fill(t: string, values: map<string, string>): string
    requires forall k :: k in Keys(t) ==> k in values
    decreases |t|
  {
    if t == "" then ""
    else if t[0] == ':' then
      var n := Run(t[1..]);
      assert Keys(t) == [t[1..1 + n]] + Keys(t[1 + n..]);
      values[t[1..1 + n]] + Fill(t[1 + n..], values)
    else [t[0]] + Fill(t[1..], values)
  }

  /** One capture for every key, and captures end where a segment ends. */
  lemma {:induction false} KeysAreGroups(t: string)
    ensures Groups(Atoms(t)) == |Keys(t)|
    ensures Separated(Atoms(t))
    ensures t != "" && t[0] == '/' ==> Atoms(t) != [] && Atoms(t)[0] == Lit('/')
    decreases |t|
  {
    if t == "" {
    } else if t[0] == ':' {
      var rest := t[1 + Run(t[1..])..];
      KeysAreGroups(rest);
      assert Atoms(t)[1..] == Atoms(rest);
      assert rest == "" || rest[0] == '/';
    } else {
      KeysAreGroups(t[1..]);
      assert Atoms(t)[1..] == Atoms(t[1..]);
    }
  }

  /** A template taken apart: a key and what follows it, or a literal and what follows it. */
  lemma KeyFirst(key: string, rest: string)
    requires SlashFree(key) && SegmentEnd(rest)
    ensures Keys(":" + key + rest) == [key] + Keys(rest)
    ensures Atoms(":" + key + rest) == [Group] + Atoms(rest)
    ensures Rewrite(":" + key + rest) == "(?:([^\\/]+?))" + Rewrite(rest)
    ensures Plain(":" + key + rest) == Plain(rest)
  {
    var t := ":" + key + rest;
    RunOfSegment(key, rest);
    assert t[0] == ':' && t[1..] == key + rest;
    assert t[1..1 + |key|] == key && t[1 + |key|..] == rest;
  }

  lemma LiteralFirst(c: char, rest: string)
    requires c != ':'
    ensures Keys([c] + rest) == Keys(rest)
    ensures Atoms([c] + rest) == [Lit(c)] + Atoms(rest)
    ensures Rewrite([c] + rest) == [c] + Rewrite(rest)
    ensures Plain([c] + rest) == (!Meta(c) && Plain(rest))
  {
    assert ([c] + rest)[1..] == rest;
  }

  // ---- the text of the expression, read back ----

  /** The expressions of this model, as text; None for any other text. */
  function ParseRegex(text: string): Option<seq<Atom>>
    decreases |text|
  {
    if text == "" then Some([])
    else if CAPTURE_PATTERN <= text then
      match ParseRegex(text[|CAPTURE_PATTERN|..])
      case None => None
      case Some(re) => Some([Group] + re)
    else if Meta(text[0]) then None
    else
      match ParseRegex(text[1..])
      case None => None
      case Some(re) => Some([Lit(text[0])] + re)
  }

  lemma FirstOfRewrite(t: string)
    requires t != ""
    ensures Rewrite(t) != "" && Rewrite(t)[0] == if t[0] == ':' then '(' else t[0]
  {
  }

  /** No literal of a template can be taken for the beginning of a capture group. */
  lemma LiteralIsNoCapture(t: string)
    requires t != "" && t[0] != ':'
    ensures !(CAPTURE_PATTERN <= Rewrite(t))
  {
    var text := Rewrite(t);
    assert CAPTURE_PATTERN[1] == '?' && CAPTURE_PATTERN[2] == ':';
    if |t| > 1 {
      FirstOfRewrite(t[1..]);
      if t[1] == '?' && |t| > 2 {
        assert text == [t[0]] + ([t[1]] + Rewrite(t[1..][1..]));
        FirstOfRewrite(t[1..][1..]);
      }
    }
  }

  /**
   Compiling the rewritten template yields its atoms; the compiled expression is
   one of this model exactly when the template is plain.
   */
  lemma {:induction false} ParseOfRewrite(t: string)
    ensures ParseRegex(Rewrite(t)) == if Plain(t) then Some(Atoms(t)) else None
    decreases |t|
  {
    if t == "" {
    } else if t[0] == ':' {
      var rest := t[1 + Run(t[1..])..];
      ParseOfRewrite(rest);
      assert Rewrite(t)[|CAPTURE_PATTERN|..] == Rewrite(rest);
    } else {
      LiteralIsNoCapture(t);
      ParseOfRewrite(t[1..]);
      assert Rewrite(t)[1..] == Rewrite(t[1..]);
    }
  }

  // ---- the searches of the source ----

  /** The leftmost match of `:([^/]+)?` at or after `from`, as a range. */
  function SearchKey(t: string, from': nat): (r: Option<(nat, nat)>)
    requires from' <= |t|
    ensures r.None? ==> forall i :: from' <= i < |t| ==> t[i] != ':'
    ensures r.Some? ==>
      var (a, b) := r.value;
      && from' <= a < b <= |t| && t[a] == ':' && b == a + 1 + Run(t[a + 1..])
      && forall i :: from' <= i < a ==> t[i] != ':'
    decreases |t| - from'
  {
    if from' == |t| then None
    else if t[from'] == ':' then Some((from', from' + 1 + Run(t[from' + 1..])))
    else SearchKey(t, from' + 1)
  }

  lemma SkipOne(t: string, a: nat)
    requires a < |t| && t[a] != ':'
    ensures Keys(t[a..]) == Keys(t[a + 1..]) && Rewrite(t[a..]) == [t[a]] + Rewrite(t[a + 1..])
  {
    assert t[a..][1..] == t[a + 1..];
  }

  /** Literal characters carry no key and are copied. */
  lemma {:induction false} SkipLiterals(t: string, a: nat, b: nat)
    requires a <= b <= |t| && forall i :: a <= i < b ==> t[i] != ':'
    ensures Keys(t[a..]) == Keys(t[b..])
    ensures Rewrite(t[a..]) == t[a..b] + Rewrite(t[b..])
    decreases b - a
  {
    hide Keys, Rewrite;
    if a < b {
      SkipOne(t, a);
      SkipLiterals(t, a + 1, b);
      assert t[a..b] == [t[a]] + t[a + 1..b];
    } else {
      assert t[a..b] == "";
    }
  }

  lemma OneKey(t: string, a: nat, b: nat)
    requires a < b <= |t| && t[a] == ':' && b == a + 1 + Run(t[a + 1..])
    ensures Keys(t[a..]) == [t[a + 1..b]] + Keys(t[b..])
    ensures Rewrite(t[a..]) == CAPTURE_PATTERN + Rewrite(t[b..])
  {
    assert t[a..][1..] == t[a + 1..];
    assert t[a..][1..b - a] == t[a + 1..b];
    assert t[a..][b - a..] == t[b..];
  }

  /** From one position of the search to the next. */
  lemma NextKey(t: string, pos: nat, a: nat, b: nat)
    requires pos <= |t| && SearchKey(t, pos) == Some((a, b))
    ensures pos <= a < b <= |t|
    ensures Keys(t[pos..]) == [t[a..b][1..]] + Keys(t[b..])
    ensures Rewrite(t[pos..]) == t[pos..a] + CAPTURE_PATTERN + Rewrite(t[b..])
  {
    hide Keys, Rewrite, Run, SearchKey;
    SkipLiterals(t, pos, a);
    OneKey(t, a, b);
    assert t[a..b][1..] == t[a + 1..b];
  }

  lemma NoMoreKeys(t: string, pos: nat)
    requires pos <= |t| && SearchKey(t, pos).None?
    ensures Keys(t[pos..]) == []
    ensures Rewrite(t[pos..]) == t[pos..]
  {
    SkipLiterals(t, pos, |t|);
  }

  /** The token iterator: every match, without its colon. */
  method CollectKeys(t: string) returns (keys: seq<string>)
    ensures keys == Keys(t)
  {
    hide Keys, Rewrite;
    keys := [];
    var pos := 0;
    assert t[0..] == t;
    while SearchKey(t, pos).Some?
      invariant pos <= |t| && keys + Keys(t[pos..]) == Keys(t)
      decreases |t| - pos
    {
      var (a, b) := SearchKey(t, pos).value;
      NextKey(t, pos, a, b);
      var key := t[a..b];
      keys := keys + [key[1..]];
      pos := b;
    }
    NoMoreKeys(t, pos);
  }

  lemma OneKeyAlone(t: string)
    ensures t != "" && t[0] == ':' && SlashFree(t) ==> Rewrite(t) == "(?:([^\\/]+?))"
  {
    if t != "" && t[0] == ':' && SlashFree(t) {
      KeyFirst(t[1..], "");
      assert t == ":" + t[1..] + "";
    }
  }

  /** `regex_replace` of every match by the capture pattern. */
  method ReplaceKeys(t: string) returns (text: string)
    ensures text == Rewrite(t)
    ensures t != "" && t[0] == ':' && SlashFree(t) ==> text == "(?:([^\\/]+?))"
  {
    hide Keys, Rewrite, SlashFree, SearchKey, Run;
    OneKeyAlone(t);
    text := "";
    var pos := 0;
    assert t[0..] == t;
    while SearchKey(t, pos).Some?
      invariant pos <= |t| && text + Rewrite(t[pos..]) == Rewrite(t)
      decreases |t| - pos
    {
      var (a, b) := SearchKey(t, pos).value;
      NextKey(t, pos, a, b);
      text := text + t[pos..a] + CAPTURE_PATTERN;
      pos := b;
    }
    NoMoreKeys(t, pos);
    text := text + t[pos..];
  }
}
