/**
The route part of configuration validation (src/config/mod.rs), and the lookup order of
src/gateway/listener.rs over the three tables it builds.
*/
module Config {
  import opened Wrappers
  import opened HttpPath
  import RouteTables
  import HttpRoutes

  type Host = seq<byte>
  type RouteKey = (Host, Path)

  datatype Tables = Tables(
    routes: RouteTables.RouteTable, grpc: RouteTables.RouteTable, http: HttpRoutes.HttpRouteTable, hosts: set<Host>)

  datatype ConfigError =
    | TooManyRoutes | ReservedHealthPath | BadRoutePath | BadRouteHost | Conflict
    | Routes(route: RouteTables.RouteError) | Grpc(grpc: RouteTables.RouteError) | Http(http: HttpRoutes.BuildError)

  const MAX_ROUTES: nat := 4096

  predicate WebsocketRowOk(spec: RouteTables.RouteSpec) {
    && spec.path != HttpRoutes.HEALTH_LIVE && spec.path != HttpRoutes.HEALTH_READY
    && ValidPath(spec.path)
    && spec.host.Some?
  }

  function KeyOf(spec: RouteTables.RouteSpec): RouteKey
    requires spec.host.Some?
  {
    (spec.host.value, spec.path)
  }

  /** The keys of all rows, enabled or not. */
  function Keys(specs: seq<RouteTables.RouteSpec>): set<RouteKey> {
    set spec | spec in specs && spec.host.Some? :: KeyOf(spec)
  }

  function EnabledHosts(specs: seq<RouteTables.RouteSpec>): set<Host> {
    set spec | spec in specs && spec.enabled && spec.host.Some? :: spec.host.value
  }

  /** A gRPC row whose key is taken by a WebSocket row or an earlier gRPC row. */
  predicate GrpcRowOk(websocket: seq<RouteTables.RouteSpec>, grpc: seq<RouteTables.RouteSpec>, i: nat)
    requires i < |grpc|
  {
    && grpc[i].host.Some?
    && KeyOf(grpc[i]) !in Keys(websocket)
    && forall j | 0 <= j < i && grpc[j].host.Some? :: KeyOf(grpc[j]) != KeyOf(grpc[i])
  }

  /** Exactly what makes a route configuration acceptable. */
  predicate Acceptable(websocket: seq<RouteTables.RouteSpec>, grpc: seq<RouteTables.RouteSpec>,
    http: seq<HttpRoutes.HttpRouteSpec>)
  {
    && |websocket| + |grpc| + |http| <= MAX_ROUTES
    && (forall spec | spec in websocket :: WebsocketRowOk(spec))
    && RouteTables.RowsOk(websocket)
    && (forall i | 0 <= i < |grpc| :: GrpcRowOk(websocket, grpc, i))
    && RouteTables.RowsOk(grpc)
    && HttpRoutes.RowsOk(http, Keys(websocket) + Keys(grpc))
  }

  /** The keys and hosts collected so far. */
  datatype Claimed = Claimed(paths: set<RouteKey>, hosts: set<Host>)

  method CheckWebsocketRows(websocket: seq<RouteTables.RouteSpec>) returns (r: Result<Claimed, ConfigError>)
    ensures r.Ok? <==> forall spec | spec in websocket :: WebsocketRowOk(spec)
    ensures r.Ok? ==> r.value == Claimed(Keys(websocket), EnabledHosts(websocket))
  {
    var hosts: set<Host> := {};
    var websocketPaths: set<RouteKey> := {};
    for i := 0 to |websocket|
      invariant forall spec | spec in websocket[..i] :: WebsocketRowOk(spec)
      invariant websocketPaths == Keys(websocket[..i])
      invariant hosts == EnabledHosts(websocket[..i])
    {
      var route := websocket[i];
      assert websocket[..i + 1] == websocket[..i] + [route] && route in websocket;
      if route.path == HttpRoutes.HEALTH_LIVE || route.path == HttpRoutes.HEALTH_READY {
        return Err(ReservedHealthPath);
      }
      var validated := ValidateHttpPath(route.path);
      if validated.Err? {
        return Err(BadRoutePath);
      }
      if route.host.None? {
        return Err(BadRouteHost);
      }
      websocketPaths := websocketPaths + {KeyOf(route)};
      if route.enabled {
        hosts := hosts + {route.host.value};
      }
    }
    assert websocket[..|websocket|] == websocket;
    return Ok(Claimed(websocketPaths, hosts));
  }

  method CheckGrpcRows(websocket: seq<RouteTables.RouteSpec>, grpc: seq<RouteTables.RouteSpec>, claimed: Claimed)
    returns (r: Result<Claimed, ConfigError>)
    requires claimed.paths == Keys(websocket)
    ensures r.Ok? <==> forall i | 0 <= i < |grpc| :: GrpcRowOk(websocket, grpc, i)
    ensures r.Ok? ==> r.value == Claimed(claimed.paths + Keys(grpc), claimed.hosts + EnabledHosts(grpc))
  {
    var Claimed(websocketPaths, hosts) := claimed;
    for i := 0 to |grpc|
      invariant forall j | 0 <= j < i :: GrpcRowOk(websocket, grpc, j)
      invariant websocketPaths == claimed.paths + Keys(grpc[..i])
      invariant hosts == claimed.hosts + EnabledHosts(grpc[..i])
    {
      var route := grpc[i];
      assert grpc[..i + 1] == grpc[..i] + [route];
      if route.host.None? {
        assert !GrpcRowOk(websocket, grpc, i);
        return Err(BadRouteHost);
      }
      assert KeyOf(route) in Keys(grpc[..i]) <==>
        exists j | 0 <= j < i && grpc[j].host.Some? :: KeyOf(grpc[j]) == KeyOf(route);
      if KeyOf(route) in websocketPaths {
        assert !GrpcRowOk(websocket, grpc, i);
        return Err(Conflict);
      }
      websocketPaths := websocketPaths + {KeyOf(route)};
      if route.enabled {
        hosts := hosts + {route.host.value};
      }
    }
    assert grpc[..|grpc|] == grpc;
    return Ok(Claimed(websocketPaths, hosts));
  }

  method ValidateRoutes(websocket: seq<RouteTables.RouteSpec>, grpc: seq<RouteTables.RouteSpec>,
    http: seq<HttpRoutes.HttpRouteSpec>) returns (r: Result<Tables, ConfigError>)
    ensures r.Ok? <==> Acceptable(websocket, grpc, http)
    ensures r.Ok? ==>
      && (forall spec | spec in websocket + grpc :: spec.host.Some?)
      && (forall spec | spec in http :: spec.host.Some?)
      && r.value.routes.enabledByHost == RouteTables.TableAfter(websocket)
      && r.value.routes.enabledCount == RouteTables.EnabledCount(websocket)
      && r.value.grpc.enabledByHost == RouteTables.TableAfter(grpc)
      && r.value.grpc.enabledCount == RouteTables.EnabledCount(grpc)
      && r.value.http.byHost == HttpRoutes.TableAfter(http)
      && r.value.http.enabledCount == HttpRoutes.EnabledCount(http)
      && r.value.hosts == EnabledHosts(websocket) + EnabledHosts(grpc) + HttpRoutes.TableAfter(http).Keys
  {
    if |websocket| + |grpc| + |http| > MAX_ROUTES {
      return Err(TooManyRoutes);
    }
    var rows := CheckWebsocketRows(websocket);
    if rows.Err? {
      return Err(rows.error);
    }
    var Claimed(websocketPaths, hosts) := rows.value;
    var routes := RouteTables.Build(websocket);
    if routes.Err? {
      return Err(Routes(routes.error));
    }
    rows := CheckGrpcRows(websocket, grpc, Claimed(websocketPaths, hosts));
    if rows.Err? {
      return Err(rows.error);
    }
    websocketPaths, hosts := rows.value.paths, rows.value.hosts;
    var grpcRoutes := RouteTables.Build(grpc);
    if grpcRoutes.Err? {
      return Err(Grpc(grpcRoutes.error));
    }
    var httpRoutes := HttpRoutes.Build(http, websocketPaths);
    if httpRoutes.Err? {
      return Err(Http(httpRoutes.error));
    }
    hosts := hosts + httpRoutes.value.byHost.Keys;
    return Ok(Tables(routes.value, grpcRoutes.value, httpRoutes.value, hosts));
  }

  // ---- the three tables are disjoint ----

  ghost predicate Built(tables: Tables, websocket: seq<RouteTables.RouteSpec>, grpc: seq<RouteTables.RouteSpec>,
    http: seq<HttpRoutes.HttpRouteSpec>)
  {
    && Acceptable(websocket, grpc, http)
    && (forall spec | spec in websocket :: spec.host.Some?)
    && (forall spec | spec in grpc :: spec.host.Some?)
    && (forall spec | spec in http :: spec.host.Some?)
    && tables.routes.enabledByHost == RouteTables.TableAfter(websocket)
    && tables.grpc.enabledByHost == RouteTables.TableAfter(grpc)
    && tables.http.byHost == HttpRoutes.TableAfter(http)
  }

  datatype Kind = WebsocketKind | GrpcKind | HttpKind

  datatype Choice =
    | Websocket(route: RouteTables.Route) | GrpcCall(call: RouteTables.Route) | Proxied(http: HttpRoutes.HttpRoute)

  /** The exact route of one kind. */
  function ExactOf(tables: Tables, kind: Kind, host: Host, path: Path): Option<Choice> {
    match kind
    case WebsocketKind =>
      (match RouteTables.Resolve(tables.routes.enabledByHost, host, path)
       case None => None
       case Some(route) => Some(Websocket(route)))
    case GrpcKind =>
      (match RouteTables.Resolve(tables.grpc.enabledByHost, host, path)
       case None => None
       case Some(route) => Some(GrpcCall(route)))
    case HttpKind =>
      (match HttpRoutes.ExactAt(tables.http.byHost, host, path)
       case None => None
       case Some(route) => Some(Proxied(route)))
  }

  /** The first kind in this order that has an exact route. */
  function Pick(tables: Tables, order: seq<Kind>, host: Host, path: Path): Option<Choice> {
    if order == [] then None
    else if ExactOf(tables, order[0], host, path).Some? then ExactOf(tables, order[0], host, path)
    else Pick(tables, order[1..], host, path)
  }

  lemma WebsocketKeyReserved(specs: seq<RouteTables.RouteSpec>, host: Host, path: Path)
    requires RouteTables.RowsOk(specs) && forall spec | spec in specs :: spec.host.Some?
    requires RouteTables.Resolve(RouteTables.TableAfter(specs), host, path).Some?
    ensures exists i: nat :: i < |specs| && RouteTables.Serves(specs[i], host, path)
    ensures (host, path) in Keys(specs)
  {
    RouteTables.ResolveIsScan(specs, host, path);
    RouteTables.ScanFinds(specs, host, path);
    var i: nat :| i < |specs| && RouteTables.Serves(specs[i], host, path);
    assert specs[i] in specs && KeyOf(specs[i]) == (host, path);
  }

  /** No (host, path) is an exact route of two kinds. */
  lemma KeysDisjoint(tables: Tables, websocket: seq<RouteTables.RouteSpec>, grpc: seq<RouteTables.RouteSpec>,
    http: seq<HttpRoutes.HttpRouteSpec>, host: Host, path: Path, a: Kind, b: Kind)
    requires Built(tables, websocket, grpc, http) && a != b
    ensures ExactOf(tables, a, host, path).None? || ExactOf(tables, b, host, path).None?
  {
    var reserved := Keys(websocket) + Keys(grpc);
    if ExactOf(tables, WebsocketKind, host, path).Some? {
      WebsocketKeyReserved(websocket, host, path);
    }
    if ExactOf(tables, GrpcKind, host, path).Some? {
      WebsocketKeyReserved(grpc, host, path);
      var i: nat :| i < |grpc| && RouteTables.Serves(grpc[i], host, path);
      assert GrpcRowOk(websocket, grpc, i);
    }
    if ExactOf(tables, HttpKind, host, path).Some? {
      HttpRoutes.TableIsRows(http, reserved, host, path);
      var i: nat :| HttpRoutes.Stores(http, i, HttpRoutes.Exact, host, path);
      assert HttpRoutes.RowError(http, i, reserved).None?;
    }
  }

  lemma {:induction false} PickFinds(tables: Tables, order: seq<Kind>, kind: Kind, host: Host, path: Path)
    requires kind in order && ExactOf(tables, kind, host, path).Some?
    requires forall other: Kind | other != kind :: ExactOf(tables, other, host, path).None?
    ensures Pick(tables, order, host, path) == ExactOf(tables, kind, host, path)
    decreases |order|
  {
    if order[0] != kind {
      PickFinds(tables, order[1..], kind, host, path);
    }
  }

  lemma {:induction false} PickNothing(tables: Tables, order: seq<Kind>, host: Host, path: Path)
    requires forall kind: Kind :: ExactOf(tables, kind, host, path).None?
    ensures Pick(tables, order, host, path).None?
    decreases |order|
  {
    if order != [] {
      PickNothing(tables, order[1..], host, path);
    }
  }

  /** For every accepted configuration the order of the lookups cannot change which exact route is chosen. */
  lemma OrderIrrelevant(tables: Tables, websocket: seq<RouteTables.RouteSpec>, grpc: seq<RouteTables.RouteSpec>,
    http: seq<HttpRoutes.HttpRouteSpec>, host: Host, path: Path, first: seq<Kind>, second: seq<Kind>)
    requires Built(tables, websocket, grpc, http)
    requires forall kind: Kind :: kind in first && kind in second
    ensures Pick(tables, first, host, path) == Pick(tables, second, host, path)
  {
    if kind: Kind :| ExactOf(tables, kind, host, path).Some? {
      forall other: Kind | other != kind
        ensures ExactOf(tables, other, host, path).None?
      {
        KeysDisjoint(tables, websocket, grpc, http, host, path, kind, other);
      }
      PickFinds(tables, first, kind, host, path);
      PickFinds(tables, second, kind, host, path);
    } else {
      PickNothing(tables, first, host, path);
      PickNothing(tables, second, host, path);
    }
  }

  /** Reported enabled counts are the table sizes. */
  lemma CountsAreSizes(tables: Tables, websocket: seq<RouteTables.RouteSpec>, grpc: seq<RouteTables.RouteSpec>,
    http: seq<HttpRoutes.HttpRouteSpec>)
    requires Built(tables, websocket, grpc, http)
    ensures |RouteTables.Entries(tables.routes.enabledByHost)| == RouteTables.EnabledCount(websocket)
    ensures |RouteTables.Entries(tables.grpc.enabledByHost)| == RouteTables.EnabledCount(grpc)
    ensures |HttpRoutes.Entries(tables.http.byHost)| == HttpRoutes.EnabledCount(http)
  {
    RouteTables.EnabledCountIsSize(websocket);
    RouteTables.EnabledCountIsSize(grpc);
    HttpRoutes.EnabledCountIsSize(http, Keys(websocket) + Keys(grpc));
  }
}
