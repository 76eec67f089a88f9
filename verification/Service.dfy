/**
 What the server answers: one request to a new handler with its routes
 registered, with every path written out.
 */
module Service {
  import opened Inputs
  import opened Regex
  import opened Template
  import opened Routing
  import opened Authorization
  import opened Dispatch
  import Xxh32

  predicate IsFor(r: Outcome, endpoint: Endpoint) {
    r.Handled? && r.endpoint == endpoint
  }

  /** What the first accepting template binds. */
  function Bound(order: seq<string>, url: string): map<string, string> {
    match FirstMatch(order, url)
    case None => map[]
    case Some(t) => Bindings(t, url)
  }

  lemma LiteralResponse(handlers: Handlers, order: seq<string>, url: string, i: nat)
    requires Enumerates(order, Routes()) && i < |TABLE| && IsLiteral(i)
    ensures IsFor(Response(Routes(), handlers, order, url), TABLE[i].1) <==> url == TABLE[i].0
    ensures url == TABLE[i].0 ==> Bound(order, url) == map[]
  {
    hide Accepts, Captures, FirstMatch, Response, Enumerates, Routes, Candidate, Keys;
    TableResponse(handlers, order, url);
    ResponseFromTable(handlers, order, url);
    LiteralServes(i, url);
    CandidateOfLiteral(i);
    LiteralRoute(TABLE[i].0, url);
  }

  lemma KickResponse(handlers: Handlers, order: seq<string>, url: string)
    requires Enumerates(order, Routes())
    ensures IsFor(Response(Routes(), handlers, order, url), PlayerKick) <==>
      KICK <= url && Capturable(url[|KICK|..])
    ensures IsFor(Response(Routes(), handlers, order, url), PlayerKick) ==>
      Bound(order, url) == map["name" := url[|KICK|..]]
  {
    hide Accepts, Bindings, FirstMatch, Response, Enumerates, Routes, Capturable;
    TableResponse(handlers, order, url);
    ResponseFromTable(handlers, order, url);
    KickServes(url);
    assert TABLE[1].1 == PlayerKick;
  }

  lemma BanResponse(handlers: Handlers, order: seq<string>, url: string)
    requires Enumerates(order, Routes())
    ensures IsFor(Response(Routes(), handlers, order, url), PlayerBan) <==>
      BAN <= url && Capturable(url[|BAN|..])
    ensures IsFor(Response(Routes(), handlers, order, url), PlayerBan) ==>
      Bound(order, url) == map["name" := url[|BAN|..]]
  {
    hide Accepts, Bindings, FirstMatch, Response, Enumerates, Routes, Capturable;
    TableResponse(handlers, order, url);
    ResponseFromTable(handlers, order, url);
    BanServes(url);
    assert TABLE[2].1 == PlayerBan;
  }

  lemma PlayerResponses(handlers: Handlers, order: seq<string>, url: string)
    requires Enumerates(order, Routes())
    ensures var r := Response(Routes(), handlers, order, url);
      && (IsFor(r, PlayerList) <==> url == "/player/list")
      && (IsFor(r, PlayerList) ==> Bound(order, url) == map[])
      && (IsFor(r, PlayerKick) <==> "/player/kick/" <= url && |url| > 13 && '/' !in url[13..])
      && (IsFor(r, PlayerKick) ==> Bound(order, url) == map["name" := url[13..]])
      && (IsFor(r, PlayerBan) <==> "/player/ban/" <= url && |url| > 12 && '/' !in url[12..])
      && (IsFor(r, PlayerBan) ==> Bound(order, url) == map["name" := url[12..]])
  {
    hide Response, Bound, Enumerates, Routes;
    LiteralResponse(handlers, order, url, 0);
    KickResponse(handlers, order, url);
    BanResponse(handlers, order, url);
  }

  lemma MiscResponses(handlers: Handlers, order: seq<string>, url: string)
    requires Enumerates(order, Routes())
    ensures var r := Response(Routes(), handlers, order, url);
      && (IsFor(r, MiscSay) <==> url == "/misc/say")
      && (IsFor(r, MiscSay) ==> Bound(order, url) == map[])
      && (IsFor(r, MiscEcho) <==> url == "/misc/echo")
      && (IsFor(r, MiscEcho) ==> Bound(order, url) == map[])
      && (IsFor(r, MiscIpBan) <==> url == "/misc/ip/ban")
      && (IsFor(r, MiscIpBan) ==> Bound(order, url) == map[])
      && (IsFor(r, MiscIpUnban) <==> url == "/misc/ip/unban")
      && (IsFor(r, MiscIpUnban) ==> Bound(order, url) == map[])
  {
    hide Response, Bound, Enumerates, Routes;
    LiteralResponse(handlers, order, url, 3);
    LiteralResponse(handlers, order, url, 4);
    LiteralResponse(handlers, order, url, 5);
    LiteralResponse(handlers, order, url, 6);
  }

  lemma SettingsResponses(handlers: Handlers, order: seq<string>, url: string)
    requires Enumerates(order, Routes())
    ensures var r := Response(Routes(), handlers, order, url);
      && (IsFor(r, SettingsGamemodeText) <==> url == "/settings/gamemodetext")
      && (IsFor(r, SettingsGamemodeText) ==> Bound(order, url) == map[])
      && (IsFor(r, SettingsGravity) <==> url == "/settings/gravity")
      && (IsFor(r, SettingsGravity) ==> Bound(order, url) == map[])
      && (IsFor(r, SettingsWeather) <==> url == "/settings/weather")
      && (IsFor(r, SettingsWeather) ==> Bound(order, url) == map[])
      && (IsFor(r, SettingsList) <==> url == "/settings/list")
      && (IsFor(r, SettingsList) ==> Bound(order, url) == map[])
  {
    hide Response, Bound, Enumerates, Routes;
    LiteralResponse(handlers, order, url, 7);
    LiteralResponse(handlers, order, url, 8);
    LiteralResponse(handlers, order, url, 9);
    LiteralResponse(handlers, order, url, 10);
  }

  /** The response code goes by the reply of the handler function. */
  lemma ResponseCode(handlers: Handlers, order: seq<string>, url: string)
    requires Enumerates(order, Routes())
    ensures var r := Response(Routes(), handlers, order, url);
      if r.Error? then r == Error(404, "Invalid route")
      else
        r.code ==
          match handlers(r.endpoint, Bound(order, url))
          case Done => 200
          case Failed => 417
          case Undecodable => 500
  {
    hide FirstMatch, Bindings, Routes;
  }

  method AnswerOf(library: Library, secret: Secret, machine: Machine, whitelist: seq<string>, handlers: Handlers,
                  order: seq<string>, request: Request)
    returns (outcome: Outcome, bound: map<string, string>)
    requires Standard(library) && Enumerates(order, Routes())
    ensures outcome ==
      if !Authorized(whitelist, secret, request) then Error(401, "Unauthorized")
      else Response(Routes(), handlers, order, request.target)
    ensures outcome.Handled? ==> bound == Bound(order, request.target)
  {
    hide Authorized, FirstMatch, Bindings, Register, Standard, Enumerates, CodeOf;
    var handler := new Handler(library, secret);
    handler.RegisterFunctions();
    var m;
    outcome, m := handler.HandleRequest(machine, whitelist, handlers, order, request);
    bound := m.pairs;
  }

  /** A request is answered by the endpoint of its path, or with 401 or 404. */
  method Serve(library: Library, secret: Secret, machine: Machine, whitelist: seq<string>, handlers: Handlers,
               order: seq<string>, request: Request)
    returns (outcome: Outcome, bound: map<string, string>)
    requires Standard(library) && Enumerates(order, Routes())
    ensures outcome != Error(401, "Unauthorized") <==>
      && (whitelist == [] || request.remote in whitelist)
      && request.body.Some?
      && request.body.value.password == secret.password
      && request.body.value.hash == Xxh32.Hash(secret.seed, BytesOf(request.target))
    ensures outcome.Error? ==> outcome == Error(401, "Unauthorized") || outcome == Error(404, "Invalid route")
    ensures outcome.Handled? ==>
      outcome.code ==
        match handlers(outcome.endpoint, bound)
        case Done => 200
        case Failed => 417
        case Undecodable => 500
    ensures outcome != Error(401, "Unauthorized") ==>
      var url := request.target;
      && (IsFor(outcome, PlayerList) <==> url == "/player/list")
      && (IsFor(outcome, PlayerKick) <==> "/player/kick/" <= url && |url| > 13 && '/' !in url[13..])
      && (IsFor(outcome, PlayerBan) <==> "/player/ban/" <= url && |url| > 12 && '/' !in url[12..])
      && (IsFor(outcome, MiscSay) <==> url == "/misc/say")
      && (IsFor(outcome, MiscEcho) <==> url == "/misc/echo")
      && (IsFor(outcome, MiscIpBan) <==> url == "/misc/ip/ban")
      && (IsFor(outcome, MiscIpUnban) <==> url == "/misc/ip/unban")
      && (IsFor(outcome, SettingsGamemodeText) <==> url == "/settings/gamemodetext")
      && (IsFor(outcome, SettingsGravity) <==> url == "/settings/gravity")
      && (IsFor(outcome, SettingsWeather) <==> url == "/settings/weather")
      && (IsFor(outcome, SettingsList) <==> url == "/settings/list")
    ensures IsFor(outcome, PlayerKick) ==> bound == map["name" := request.target[13..]]
    ensures IsFor(outcome, PlayerBan) ==> bound == map["name" := request.target[12..]]
    ensures outcome.Handled? && outcome.endpoint != PlayerKick && outcome.endpoint != PlayerBan ==> bound == map[]
  {
    hide Response, Bound, Enumerates, Routes, Standard, BytesOf, Xxh32.Hash;
    outcome, bound := AnswerOf(library, secret, machine, whitelist, handlers, order, request);
    ResponseCode(handlers, order, request.target);
    PlayerResponses(handlers, order, request.target);
    MiscResponses(handlers, order, request.target);
    SettingsResponses(handlers, order, request.target);
  }
}
