/** The route table of Handler and its first-match dispatch. */
module Dispatch {
  import opened Wrappers
  import opened Inputs
  import Xxh32
  import opened Authorization
  import opened Regex
  import opened Template
  import opened Routing
  import opened Overlap

  /** The handler functions of the table. */
  datatype Endpoint =
    | PlayerList | PlayerKick | PlayerBan
    | MiscSay | MiscEcho | MiscIpBan | MiscIpUnban
    | SettingsGamemodeText | SettingsGravity | SettingsWeather | SettingsList

  /** A handler function says yes, or no, or cannot decode the request. */
  datatype Reply = Done | Failed | Undecodable

  /** What the handler functions do: they are given the match and what it has bound. */
  type Handlers = (Endpoint, map<string, string>) -> Reply

  datatype Outcome = Error(code: nat, message: string) | Handled(endpoint: Endpoint, code: nat)

  /** RouteHandler::HandleRequest: the response code. */
  function CodeOf(reply: Reply): nat {
    match reply
    case Done => 200
    case Failed => 417
    case Undecodable => 500
  }

  const TABLE: seq<(string, Endpoint)> := [
    ("/player/list", PlayerList),
    ("/player/kick/:name", PlayerKick),
    ("/player/ban/:name", PlayerBan),
    ("/misc/say", MiscSay),
    ("/misc/echo", MiscEcho),
    ("/misc/ip/ban", MiscIpBan),
    ("/misc/ip/unban", MiscIpUnban),
    ("/settings/gamemodetext", SettingsGamemodeText),
    ("/settings/gravity", SettingsGravity),
    ("/settings/weather", SettingsWeather),
    ("/settings/list", SettingsList)
  ]

  /** `map::emplace`: an existing entry stays. */
  function Emplace(routes: map<string, Endpoint>, path: string, endpoint: Endpoint): map<string, Endpoint> {
    if path in routes then routes else routes[path := endpoint]
  }

  /** The path is an entry, those that were there keep their endpoints, and there are no others. */
  ghost predicate HasEntered(path: string, endpoint: Endpoint, before: map<string, Endpoint>,
                             after: map<string, Endpoint>) {
    && after.Keys == before.Keys + {path}
    && (forall t :: t in before ==> after[t] == before[t])
    && (path !in before ==> after[path] == endpoint)
  }

  /** The first `n` entries of the table, emplaced one after another. */
  function Register(routes: map<string, Endpoint>, n: nat): map<string, Endpoint>
    requires n <= |TABLE|
  {
    if n == 0 then routes else Emplace(Register(routes, n - 1), TABLE[n - 1].0, TABLE[n - 1].1)
  }

  ghost predicate FirstAt(order: seq<string>, url: string, i: int) {
    0 <= i < |order| && Accepts(order[i], url) && forall j :: 0 <= j < i ==> !Accepts(order[j], url)
  }

  /** The first template of `order` that accepts the URL. */
  function FirstMatch(order: seq<string>, url: string): (r: Option<string>)
    ensures r.None? <==> forall t :: t in order ==> !Accepts(t, url)
    ensures r.Some? ==> r.value in order && Accepts(r.value, url)
    ensures r.Some? ==> exists i :: FirstAt(order, url, i) && order[i] == r.value
  {
    if order == [] then None
    else if Accepts(order[0], url) then
      assert FirstAt(order, url, 0);
      Some(order[0])
    else
      var rest := order[1..];
      assert forall i {:trigger FirstAt(rest, url, i)} :: FirstAt(rest, url, i) ==> FirstAt(order, url, i + 1);
      FirstMatch(rest, url)
  }

  lemma NextInOrder(order: seq<string>, url: string, i: nat)
    requires i < |order|
    ensures FirstMatch(order[i..], url) ==
      if Accepts(order[i], url) then Some(order[i]) else FirstMatch(order[i + 1..], url)
  {
    assert order[i..][0] == order[i] && order[i..][1..] == order[i + 1..];
  }

  /** `order` lists the keys of the map, as its iterator would. */
  ghost predicate Enumerates(order: seq<string>, routes: map<string, Endpoint>) {
    && (forall t :: t in order <==> t in routes)
    && forall i, j :: 0 <= i < j < |order| ==> order[i] != order[j]
  }

  /** No URL is accepted by two templates of the table. */
  ghost predicate Unambiguous(routes: map<string, Endpoint>) {
    forall t, u :: t in routes && u in routes && t != u ==> !CanOverlap(Atoms(t), Atoms(u))
  }

  /** What an authorized request for `url` is answered. */
  function Response(routes: map<string, Endpoint>, handlers: Handlers, order: seq<string>, url: string): Outcome
    requires forall t :: t in order ==> t in routes
  {
    match FirstMatch(order, url)
    case None => Error(404, "Invalid route")
    case Some(t) => Handled(routes[t], CodeOf(handlers(routes[t], Bindings(t, url))))
  }

  function RouteAt(routes: map<string, Endpoint>, path: string): Option<Endpoint> {
    if path in routes then Some(routes[path]) else None
  }

  class Handler {
    var routes: map<string, Endpoint>
    const route: Route
    const secret: Secret

    ghost predicate Valid()
      reads this, route
    {
      && route.Valid()
      && forall t :: t in routes ==> Plain(t)
    }

    constructor (library: Library, secret: Secret)
      requires Standard(library)
      ensures Valid() && routes == map[] && this.secret == secret && fresh(route)
    {
      routes := map[];
      this.secret := secret;
      route := new Route(library);
    }

    method CreateRoute(path: string, endpoint: Endpoint)
      modifies `routes
      ensures routes == Emplace(old(routes), path, endpoint)
      ensures HasEntered(path, endpoint, old(routes), routes)
    {
      if path !in routes {
        routes := routes[path := endpoint];
      }
    }

    method RegisterFunctions()
      requires Valid()
      modifies `routes
      ensures Valid() && routes == Register(old(routes), |TABLE|)
      ensures old(routes) == map[] ==>
        && RouteAt(routes, "/player/list") == Some(PlayerList)
        && RouteAt(routes, "/player/kick/:name") == Some(PlayerKick)
        && RouteAt(routes, "/player/ban/:name") == Some(PlayerBan)
        && RouteAt(routes, "/misc/say") == Some(MiscSay)
        && RouteAt(routes, "/misc/echo") == Some(MiscEcho)
        && RouteAt(routes, "/misc/ip/ban") == Some(MiscIpBan)
        && RouteAt(routes, "/misc/ip/unban") == Some(MiscIpUnban)
        && RouteAt(routes, "/settings/gamemodetext") == Some(SettingsGamemodeText)
        && RouteAt(routes, "/settings/gravity") == Some(SettingsGravity)
        && RouteAt(routes, "/settings/weather") == Some(SettingsWeather)
        && RouteAt(routes, "/settings/list") == Some(SettingsList)
    {
      hide Plain, Register, Standard, RouteAt;
      ghost var before := routes;
      PlayerRegistered();
      MiscRegistered();
      SettingsRegistered();
      RegisterNone(before);
      RegisterPlayer(before);
      RegisterMisc(before);
      RegisterSettings(before);
      RegisteredArePlain(before, |TABLE|);
    }

    method RegisterPlayer(ghost before: map<string, Endpoint>)
      requires routes == Register(before, 0)
      modifies `routes
      ensures routes == Register(before, 3)
    {
      hide Register, Emplace, HasEntered;
      CreateRoute("/player/list", PlayerList);
      RegisterRow(before, 0);
      CreateRoute("/player/kick/:name", PlayerKick);
      RegisterRow(before, 1);
      CreateRoute("/player/ban/:name", PlayerBan);
      RegisterRow(before, 2);
    }

    method RegisterMisc(ghost before: map<string, Endpoint>)
      requires routes == Register(before, 3)
      modifies `routes
      ensures routes == Register(before, 7)
    {
      hide Register, Emplace, HasEntered;
      CreateRoute("/misc/say", MiscSay);
      RegisterRow(before, 3);
      CreateRoute("/misc/echo", MiscEcho);
      RegisterRow(before, 4);
      CreateRoute("/misc/ip/ban", MiscIpBan);
      RegisterRow(before, 5);
      CreateRoute("/misc/ip/unban", MiscIpUnban);
      RegisterRow(before, 6);
    }

    method RegisterSettings(ghost before: map<string, Endpoint>)
      requires routes == Register(before, 7)
      modifies `routes
      ensures routes == Register(before, 11)
    {
      hide Register, Emplace, HasEntered;
      CreateRoute("/settings/gamemodetext", SettingsGamemodeText);
      RegisterRow(before, 7);
      CreateRoute("/settings/gravity", SettingsGravity);
      RegisterRow(before, 8);
      CreateRoute("/settings/weather", SettingsWeather);
      RegisterRow(before, 9);
      CreateRoute("/settings/list", SettingsList);
      RegisterRow(before, 10);
    }

    method Authorize(machine: Machine, whitelist: seq<string>, request: Request) returns (ok: bool)
      ensures ok == Authorized(whitelist, secret, request)
      ensures ok <==>
        && (whitelist == [] || request.remote in whitelist)
        && request.body.Some?
        && request.body.value.password == secret.password
        && request.body.value.hash == Xxh32.Hash(secret.seed, BytesOf(request.target))
    {
      hide Xxh32.Hash, BytesOf;
      var ready := |whitelist| == 0;
      for i := 0 to |whitelist|
        invariant ready == (whitelist == [] || request.remote in whitelist[..i])
      {
        if whitelist[i] == request.remote {
          ready := true;
        }
      }
      if !ready {
        return false;
      }
      if request.body.None? {
        return false;
      }
      var body := request.body.value;
      var uri := BytesOf(request.target);
      var h := Xxh32.OneShot(machine.cpu, machine.forceAlignCheck, machine.address, uri, secret.seed);
      return !(secret.password != body.password || h != body.hash);
    }

    /** The dispatch loop. `order` is the order of iteration over the map. */
    method HandleRequest(machine: Machine, whitelist: seq<string>, handlers: Handlers, order: seq<string>,
                         request: Request)
      returns (outcome: Outcome, m: Match)
      requires Valid() && Enumerates(order, routes)
      modifies route
      ensures Valid() && routes == old(routes) && fresh(m) && m.route == route && route.url == request.target
      ensures outcome ==
        if !Authorized(whitelist, secret, request) then Error(401, "Unauthorized")
        else Response(routes, handlers, order, request.target)
      ensures outcome.Handled? ==>
        var t := FirstMatch(order, request.target).value;
        m.pairs == Bindings(t, request.target) && m.keys == |Keys(t)|
      ensures outcome.Error? ==> m.pairs == map[]
    {
      hide Accepts, Bindings, Keys, Plain, FirstMatch, Authorized, TestedWith, CodeOf, Standard, BytesOf, Xxh32.Hash;
      var target := request.target;
      m := route.Set(target);
      var ok := Authorize(machine, whitelist, request);
      if !ok {
        outcome, m := ShowError(target, 401, "Unauthorized");
        return;
      }
      assert order[0..] == order;
      for i := 0 to |order|
        invariant FirstMatch(order, target) == FirstMatch(order[i..], target)
        invariant route.url == target && route.pathToRegex == PATH_PATTERN && route.Valid()
        invariant fresh(m) && m.route == route
      {
        NextInOrder(order, target, i);
        var tested := m.Test(order[i]);
        if tested.Accepted? {
          var endpoint := routes[order[i]];
          return Handled(endpoint, CodeOf(handlers(endpoint, m.pairs))), m;
        }
      }
      assert FirstMatch(order[|order|..], target).None?;
      outcome, m := ShowError(target, 404, "Invalid route");
    }

    /** Sets the route again and answers with the error; no template is tested. */
    method ShowError(target: string, code: nat, message: string) returns (outcome: Outcome, m: Match)
      requires route.Valid()
      modifies route
      ensures route.Valid() && route.url == target
      ensures outcome == Error(code, message) && fresh(m) && m.route == route && m.pairs == map[]
    {
      m := route.Set(target);
      outcome := Error(code, message);
    }
  }

  // ---- the table ----

  lemma RegisterNone(routes: map<string, Endpoint>)
    ensures Register(routes, 0) == routes
  {
  }

  lemma RegisterRow(routes: map<string, Endpoint>, n: nat)
    requires n < |TABLE|
    ensures Register(routes, n + 1) == Emplace(Register(routes, n), TABLE[n].0, TABLE[n].1)
  {
  }

  predicate Letter(c: char) {
    'a' <= c <= 'z' || c == '/' || c == ':'
  }

  ghost predicate Letters(t: string) {
    forall c :: c in t ==> Letter(c)
  }

  lemma {:induction false} LettersArePlain(t: string)
    requires Letters(t)
    ensures Plain(t)
    decreases |t|
  {
    if t == "" {
    } else if t[0] == ':' {
      LettersArePlain(t[1 + Run(t[1..])..]);
    } else {
      assert Letter(t[0]);
      LettersArePlain(t[1..]);
    }
  }

  lemma PlayerLetters()
    ensures Letters("/player/list") && Letters("/player/kick/:name") && Letters("/player/ban/:name")
  {
  }

  lemma MiscLetters()
    ensures Letters("/misc/say") && Letters("/misc/echo") && Letters("/misc/ip/ban") && Letters("/misc/ip/unban")
  {
  }

  lemma SettingsLetters()
    ensures Letters("/settings/gamemodetext") && Letters("/settings/gravity")
    ensures Letters("/settings/weather") && Letters("/settings/list")
  {
  }

  lemma TableIsPlain(i: nat)
    requires i < |TABLE|
    ensures Plain(TABLE[i].0)
  {
    hide Plain, Letters;
    PlayerLetters();
    MiscLetters();
    SettingsLetters();
    LettersArePlain(TABLE[i].0);
  }

  lemma {:induction false} RegisteredArePlain(routes: map<string, Endpoint>, n: nat)
    requires n <= |TABLE| && forall t :: t in routes ==> Plain(t)
    ensures forall t :: t in Register(routes, n) ==> Plain(t)
  {
    hide Plain;
    if n > 0 {
      RegisteredArePlain(routes, n - 1);
      TableIsPlain(n - 1);
    }
  }

  /** A template without keys accepts itself and nothing else. */
  lemma {:induction false} LiteralRoute(t: string, url: string)
    requires ':' !in t
    ensures Accepts(t, url) <==> url == t
    ensures Keys(t) == []
    decreases |t|
  {
    if t != "" {
      hide Keys, Atoms;
      var rest := t[1..];
      assert t == [t[0]] + rest && t[0] in t && forall c :: c in rest ==> c in t;
      LiteralFirst(t[0], rest);
      assert ([Lit(t[0])] + Atoms(rest))[1..] == Atoms(rest);
      LiteralRoute(rest, if url != "" then url[1..] else "");
      assert url != "" ==> url == [url[0]] + url[1..];
    }
  }

  /** A template with one key at its end accepts its prefix with any segment behind it. */
  lemma {:induction false} PrefixRoute(prefix: string, key: string, url: string)
    requires ':' !in prefix && SlashFree(key)
    ensures Keys(prefix + ":" + key) == [key]
    ensures Accepts(prefix + ":" + key, url) <==>
      prefix <= url && Capturable(url[|prefix|..])
    ensures Accepts(prefix + ":" + key, url) ==>
      Captures(prefix + ":" + key, url) == [url[|prefix|..]]
    decreases |prefix|
  {
    var t := prefix + ":" + key;
    if prefix == "" {
      KeyFirst(key, "");
      assert t == ":" + key + "";
      assert Atoms(t) == [Group] && Keys(t) == [key];
      LastSegment(url);
    } else {
      var p := prefix[1..];
      assert prefix[0] in prefix && forall c :: c in p ==> c in prefix;
      assert t == [prefix[0]] + (p + ":" + key);
      LiteralFirst(prefix[0], p + ":" + key);
      assert Atoms(t)[1..] == Atoms(p + ":" + key);
      if url != "" {
        PrefixRoute(p, key, url[1..]);
        assert prefix == [prefix[0]] + p && url == [url[0]] + url[1..];
        if |prefix| <= |url| {
          assert url[|prefix|..] == url[1..][|p|..];
        }
      } else {
        PrefixRoute(p, key, "");
      }
    }
  }

  lemma LastSegment(url: string)
    ensures Scan([Group], url) == if Capturable(url) then Some([url]) else None
  {
    assert [Group][1..] == [] && url[..|url|] == url && [url] + [] == [url];
    if SlashFree(url) {
      RunCovers(url, |url|);
    }
    assert Run(url) == |url| <==> SlashFree(url);
  }

  function At(url: string, i: nat): char {
    if i < |url| then url[i] else ' '
  }

  /** Three characters tell which entry of the table can accept a URL. */
  function Candidate(url: string): (i: nat)
    ensures i < |TABLE|
  {
    if At(url, 1) == 'p' then
      if At(url, 8) == 'l' then 0 else if At(url, 8) == 'k' then 1 else 2
    else if At(url, 1) == 'm' then
      if At(url, 6) == 's' then 3 else if At(url, 6) == 'e' then 4
      else if At(url, 9) == 'b' then 5 else 6
    else if At(url, 10) == 'g' then
      if At(url, 11) == 'a' then 7 else 8
    else if At(url, 10) == 'w' then 9 else 10
  }

  const KICK: string := "/player/kick/"
  const BAN: string := "/player/ban/"

  predicate IsLiteral(i: nat)
    requires i < |TABLE|
  {
    i != 1 && i != 2
  }

  lemma CandidateOfLiteral(i: nat)
    requires i < |TABLE| && IsLiteral(i)
    ensures ':' !in TABLE[i].0 && Candidate(TABLE[i].0) == i
  {
  }

  lemma KickAndBan()
    ensures TABLE[1].0 == KICK + ":" + "name" && ':' !in KICK
    ensures TABLE[2].0 == BAN + ":" + "name" && ':' !in BAN
    ensures SlashFree("name")
    ensures forall url: string :: KICK <= url ==> Candidate(url) == 1
    ensures forall url: string :: BAN <= url ==> Candidate(url) == 2
  {
    forall url: string | KICK <= url
      ensures Candidate(url) == 1
    {
      assert url[1] == KICK[1] && url[8] == KICK[8];
    }
    forall url: string | BAN <= url
      ensures Candidate(url) == 2
    {
      assert url[1] == BAN[1] && url[8] == BAN[8];
    }
  }

  /** Any URL is accepted by at most one entry of the table, its candidate. */
  lemma OnlyTheCandidate(i: nat, url: string)
    requires i < |TABLE| && Accepts(TABLE[i].0, url)
    ensures i == Candidate(url)
  {
    hide Accepts, Candidate;
    if IsLiteral(i) {
      CandidateOfLiteral(i);
      LiteralRoute(TABLE[i].0, url);
    } else {
      KickAndBan();
      PrefixRoute(KICK, "name", url);
      PrefixRoute(BAN, "name", url);
    }
  }

  lemma CandidateOfEntry(i: nat)
    requires i < |TABLE|
    ensures Candidate(TABLE[i].0) == i
  {
    hide Candidate;
    if IsLiteral(i) {
      CandidateOfLiteral(i);
    } else {
      KickAndBan();
    }
  }

  function Routes(): map<string, Endpoint> {
    Register(map[], |TABLE|)
  }

  lemma DistinctEntries(n: nat)
    requires n < |TABLE|
    ensures forall i :: 0 <= i < n ==> TABLE[i].0 != TABLE[n].0
  {
    hide Candidate;
    CandidateOfEntry(n);
    forall i | 0 <= i < n
      ensures TABLE[i].0 != TABLE[n].0
    {
      CandidateOfEntry(i);
    }
  }

  /** Each of the first `n` entries is in the map with its own endpoint, and nothing else is. */
  ghost predicate Holds(routes: map<string, Endpoint>, table: seq<(string, Endpoint)>, n: nat)
    requires n <= |table|
  {
    && (forall i :: 0 <= i < n ==> table[i].0 in routes && routes[table[i].0] == table[i].1)
    && forall t :: t in routes ==> exists i :: 0 <= i < n && table[i].0 == t
  }

  lemma HoldsOneMore(routes: map<string, Endpoint>, table: seq<(string, Endpoint)>, n: nat)
    requires n < |table| && Holds(routes, table, n) && forall i :: 0 <= i < n ==> table[i].0 != table[n].0
    ensures Holds(Emplace(routes, table[n].0, table[n].1), table, n + 1)
  {
  }

  lemma {:induction false} RegisteredRows(n: nat)
    requires n <= |TABLE|
    ensures Holds(Register(map[], n), TABLE, n)
  {
    hide Candidate, Register, Emplace;
    if n == 0 {
      RegisterNone(map[]);
    } else {
      hide Holds;
      RegisteredRows(n - 1);
      RegisterRow(map[], n - 1);
      DistinctEntries(n - 1);
      HoldsOneMore(Register(map[], n - 1), TABLE, n - 1);
    }
  }

  /** Every entry is registered with its own endpoint, and nothing else is. */
  lemma RegisteredEntries()
    ensures forall i :: 0 <= i < |TABLE| ==> TABLE[i].0 in Routes() && Routes()[TABLE[i].0] == TABLE[i].1
    ensures forall t :: t in Routes() ==> exists i :: 0 <= i < |TABLE| && TABLE[i].0 == t
  {
    hide Register;
    RegisteredRows(|TABLE|);
  }

  lemma RowRegistered(i: nat)
    requires i < |TABLE|
    ensures RouteAt(Routes(), TABLE[i].0) == Some(TABLE[i].1)
  {
    hide Register, Routes;
    RegisteredEntries();
  }

  lemma PlayerRegistered()
    ensures var routes := Routes();
      && RouteAt(routes, "/player/list") == Some(PlayerList)
      && RouteAt(routes, "/player/kick/:name") == Some(PlayerKick)
      && RouteAt(routes, "/player/ban/:name") == Some(PlayerBan)
  {
    hide RouteAt, Routes;
    RowRegistered(0);
    RowRegistered(1);
    RowRegistered(2);
  }

  lemma MiscRegistered()
    ensures var routes := Routes();
      && RouteAt(routes, "/misc/say") == Some(MiscSay)
      && RouteAt(routes, "/misc/echo") == Some(MiscEcho)
      && RouteAt(routes, "/misc/ip/ban") == Some(MiscIpBan)
      && RouteAt(routes, "/misc/ip/unban") == Some(MiscIpUnban)
  {
    hide RouteAt, Routes;
    RowRegistered(3);
    RowRegistered(4);
    RowRegistered(5);
    RowRegistered(6);
  }

  lemma SettingsRegistered()
    ensures var routes := Routes();
      && RouteAt(routes, "/settings/gamemodetext") == Some(SettingsGamemodeText)
      && RouteAt(routes, "/settings/gravity") == Some(SettingsGravity)
      && RouteAt(routes, "/settings/weather") == Some(SettingsWeather)
      && RouteAt(routes, "/settings/list") == Some(SettingsList)
  {
    hide RouteAt, Routes;
    RowRegistered(7);
    RowRegistered(8);
    RowRegistered(9);
    RowRegistered(10);
  }

  lemma TableIsUnambiguous()
    ensures Unambiguous(Routes())
  {
    hide Accepts, Candidate, Register, CanOverlap, Atoms;
    RegisteredEntries();
    forall t, u | t in Routes() && u in Routes() && t != u
      ensures !CanOverlap(Atoms(t), Atoms(u))
    {
      var i :| 0 <= i < |TABLE| && TABLE[i].0 == t;
      var j :| 0 <= j < |TABLE| && TABLE[j].0 == u;
      OverlapDecided(t, u);
      if url :| Accepts(t, url) && Accepts(u, url) {
        OnlyTheCandidate(i, url);
        OnlyTheCandidate(j, url);
      }
    }
  }

  // ---- the order of iteration ----

  /** The order in which the map is walked does not matter. */
  lemma OrderIndependent(routes: map<string, Endpoint>, order: seq<string>, order': seq<string>, url: string)
    requires Unambiguous(routes) && Enumerates(order, routes) && Enumerates(order', routes)
    ensures FirstMatch(order, url) == FirstMatch(order', url)
  {
    hide Accepts, CanOverlap, Atoms;
    var r, r' := FirstMatch(order, url), FirstMatch(order', url);
    if r.Some? && r'.Some? {
      OverlapDecided(r.value, r'.value);
    }
  }

  lemma {:induction false} SomeOrder(keys: set<string>) returns (order: seq<string>)
    ensures forall t :: t in order <==> t in keys
    ensures forall i, j :: 0 <= i < j < |order| ==> order[i] != order[j]
    decreases keys
  {
    if keys == {} {
      order := [];
    } else {
      var t :| t in keys;
      var rest := SomeOrder(keys - {t});
      order := [t] + rest;
    }
  }

  lemma OrderFrom(routes: map<string, Endpoint>, first: string) returns (order: seq<string>)
    requires first in routes
    ensures Enumerates(order, routes) && order != [] && order[0] == first
  {
    var rest := SomeOrder(routes.Keys - {first});
    order := [first] + rest;
  }

  /** For an ambiguous map it can: some URL goes to one route or to another. */
  lemma AmbiguityShows(routes: map<string, Endpoint>)
    requires !Unambiguous(routes)
    ensures exists order, order', url ::
      Enumerates(order, routes) && Enumerates(order', routes) && FirstMatch(order, url) != FirstMatch(order', url)
  {
    hide Accepts, CanOverlap, Atoms, Enumerates;
    var t, u :| t in routes && u in routes && t != u && CanOverlap(Atoms(t), Atoms(u));
    OverlapDecided(t, u);
    var url :| Accepts(t, url) && Accepts(u, url);
    var order := OrderFrom(routes, t);
    var order' := OrderFrom(routes, u);
    assert FirstMatch(order, url) == Some(t) && FirstMatch(order', url) == Some(u);
  }

  // ---- what the registered table serves ----

  /** The loop finds the one entry that accepts the URL, wherever it stands in the order. */
  lemma TableDispatch(order: seq<string>, url: string, i: nat)
    requires Enumerates(order, Routes()) && i < |TABLE|
    ensures Accepts(TABLE[i].0, url) <==> FirstMatch(order, url) == Some(TABLE[i].0)
    ensures TABLE[i].0 in Routes() && Routes()[TABLE[i].0] == TABLE[i].1
  {
    hide Accepts, Candidate, Register;
    RegisteredEntries();
    if Accepts(TABLE[i].0, url) {
      var t := FirstMatch(order, url).value;
      var j :| 0 <= j < |TABLE| && TABLE[j].0 == t;
      OnlyTheCandidate(i, url);
      OnlyTheCandidate(j, url);
    }
  }

  lemma OneBinding(key: string, value: string)
    ensures Bind([key], [value], 1) == map[key := value]
  {
    NothingBound([key], [value]);
    OneMoreBound([key], [value], 0);
  }

  /** Nine entries serve one URL each. */
  lemma LiteralServes(i: nat, url: string)
    requires i < |TABLE| && IsLiteral(i)
    ensures Accepts(TABLE[i].0, url) <==> url == TABLE[i].0
  {
    hide Accepts, Candidate;
    CandidateOfLiteral(i);
    LiteralRoute(TABLE[i].0, url);
  }

  /** A kick or a ban serves its prefix followed by a name, and binds that name. */
  lemma KickServes(url: string)
    ensures Accepts(TABLE[1].0, url) <==> KICK <= url && Capturable(url[|KICK|..])
    ensures Accepts(TABLE[1].0, url) ==> Bindings(TABLE[1].0, url) == map["name" := url[|KICK|..]]
  {
    hide Accepts, Captures, Keys, Candidate, Capturable;
    KickAndBan();
    PrefixRoute(KICK, "name", url);
    if Accepts(TABLE[1].0, url) {
      OneBinding("name", url[|KICK|..]);
    }
  }

  lemma BanServes(url: string)
    ensures Accepts(TABLE[2].0, url) <==> BAN <= url && Capturable(url[|BAN|..])
    ensures Accepts(TABLE[2].0, url) ==> Bindings(TABLE[2].0, url) == map["name" := url[|BAN|..]]
  {
    hide Accepts, Captures, Keys, Candidate, Capturable;
    KickAndBan();
    PrefixRoute(BAN, "name", url);
    if Accepts(TABLE[2].0, url) {
      OneBinding("name", url[|BAN|..]);
    }
  }

  /** The one entry that accepts the URL is served. */
  lemma TableResponse(handlers: Handlers, order: seq<string>, url: string)
    requires Enumerates(order, Routes())
    ensures forall i :: 0 <= i < |TABLE| && Accepts(TABLE[i].0, url) ==>
      Response(Routes(), handlers, order, url) ==
        Handled(TABLE[i].1, CodeOf(handlers(TABLE[i].1, Bindings(TABLE[i].0, url))))
  {
    hide Accepts, Bindings, Register, FirstMatch, CodeOf;
    forall i | 0 <= i < |TABLE| && Accepts(TABLE[i].0, url)
      ensures FirstMatch(order, url) == Some(TABLE[i].0) && TABLE[i].0 in Routes() && Routes()[TABLE[i].0] == TABLE[i].1
    {
      TableDispatch(order, url, i);
    }
  }

  lemma OwnEndpoint(i: nat, j: nat)
    requires i < |TABLE| && j < |TABLE| && TABLE[i].1 == TABLE[j].1
    ensures i == j
  {
  }

  /** Without one it is an error, and a response comes from the entry with its endpoint. */
  lemma ResponseFromTable(handlers: Handlers, order: seq<string>, url: string)
    requires Enumerates(order, Routes())
    ensures (forall i :: 0 <= i < |TABLE| ==> !Accepts(TABLE[i].0, url)) ==>
      Response(Routes(), handlers, order, url) == Error(404, "Invalid route")
    ensures forall i :: 0 <= i < |TABLE| ==>
      var r := Response(Routes(), handlers, order, url);
      r.Handled? && r.endpoint == TABLE[i].1 ==>
        Accepts(TABLE[i].0, url) && FirstMatch(order, url) == Some(TABLE[i].0)
  {
    hide Accepts, Bindings, Register, FirstMatch, CodeOf;
    RegisteredEntries();
    var found := FirstMatch(order, url);
    if found.Some? {
      var j :| 0 <= j < |TABLE| && TABLE[j].0 == found.value;
      forall i | 0 <= i < |TABLE| && TABLE[i].1 == TABLE[j].1
        ensures i == j
      {
        OwnEndpoint(i, j);
      }
    }
  }
}
