/**
The exact-match tables of the WebSocket and gRPC routes (src/routes/table.rs, src/grpc/routes.rs).
Both builders make the same checks in the same order over (host, path) keys, so they are one model;
the form of the path and of the backend is an outcome recorded in the row.
*/
module RouteTables {
  import opened Wrappers
  import opened HttpPath

  type Host = seq<byte>

  /** A configuration row; `host` is the normalised host, `None` when normalisation refuses it. */
  datatype RouteSpec = RouteSpec(
    id: string, idOk: bool, host: Option<Host>, path: Path, pathFormOk: bool, backendOk: bool, enabled: bool)

  datatype Route = Route(id: string, host: Host, path: Path)

  type ByHost = map<Host, map<Path, Route>>

  datatype RouteTable = RouteTable(enabledByHost: ByHost, configuredCount: nat, enabledCount: nat)

  datatype RouteError = BadId | BadHost | BadPath | DuplicateId | DuplicateHostPath | BadBackend

  function RowError(specs: seq<RouteSpec>, i: nat): Option<RouteError>
    requires i < |specs|
  {
    var spec := specs[i];
    if !spec.idOk then Some(BadId)
    else if spec.host.None? then Some(BadHost)
    else if !spec.pathFormOk then Some(BadPath)
    else if exists j | 0 <= j < i :: specs[j].id == spec.id then Some(DuplicateId)
    else if exists j | 0 <= j < i :: specs[j].host == spec.host && specs[j].path == spec.path then
      Some(DuplicateHostPath)
    else if !spec.backendOk then Some(BadBackend)
    else None
  }

  function FirstRowError(specs: seq<RouteSpec>, i: nat): Option<RouteError>
    requires i <= |specs|
    decreases |specs| - i
  {
    if i == |specs| then None
    else if RowError(specs, i).Some? then RowError(specs, i)
    else FirstRowError(specs, i + 1)
  }

  predicate RowsOk(specs: seq<RouteSpec>) {
    forall i | 0 <= i < |specs| :: RowError(specs, i).None?
  }

  lemma {:induction false} NoRowError(specs: seq<RouteSpec>, i: nat)
    requires i <= |specs|
    ensures FirstRowError(specs, i).None? <==> forall k | i <= k < |specs| :: RowError(specs, k).None?
    decreases |specs| - i
  {
    if i < |specs| {
      NoRowError(specs, i + 1);
    }
  }

  /** A row that can stand in a configuration, as far as the other rows are concerned. */
  predicate FitsAlone(spec: RouteSpec) {
    spec.idOk && spec.host.Some? && spec.pathFormOk && spec.backendOk
  }

  predicate Clash(a: RouteSpec, b: RouteSpec) {
    a.id == b.id || (a.host == b.host && a.path == b.path)
  }

  /** What the checks accept: rows that each fit, no two with the same id or the same host and path. */
  lemma RowsOkExactly(specs: seq<RouteSpec>)
    ensures RowsOk(specs) <==>
      && (forall i: nat | i < |specs| :: FitsAlone(specs[i]))
      && (forall i: nat, j: nat | i < j < |specs| :: !Clash(specs[i], specs[j]))
  {
    if RowsOk(specs) {
      forall i: nat | i < |specs|
        ensures FitsAlone(specs[i])
        ensures forall j: nat | j < i :: !Clash(specs[j], specs[i])
      {
        assert RowError(specs, i).None?;
      }
    }
    if (forall i: nat | i < |specs| :: FitsAlone(specs[i]))
      && (forall i: nat, j: nat | i < j < |specs| :: !Clash(specs[i], specs[j]))
    {
      forall i: nat | i < |specs|
        ensures RowError(specs, i).None?
      {
        assert forall j: nat | j < i :: !Clash(specs[j], specs[i]);
      }
    }
  }

  function RouteOf(spec: RouteSpec): Route
    requires spec.host.Some?
  {
    Route(spec.id, spec.host.value, spec.path)
  }

  function Insert(byHost: ByHost, route: Route): ByHost {
    var routes := if route.host in byHost then byHost[route.host] else map[];
    byHost[route.host := routes[route.path := route]]
  }

  function TableAfter(specs: seq<RouteSpec>): ByHost
    requires forall spec | spec in specs :: spec.host.Some?
  {
    if specs == [] then map[]
    else
      var last := specs[|specs| - 1];
      var before := TableAfter(specs[..|specs| - 1]);
      if last.enabled then Insert(before, RouteOf(last)) else before
  }

  function EnabledCount(specs: seq<RouteSpec>): nat {
    if specs == [] then 0
    else EnabledCount(specs[..|specs| - 1]) + (if specs[|specs| - 1].enabled then 1 else 0)
  }

  method Build(specs: seq<RouteSpec>) returns (r: Result<RouteTable, RouteError>)
    ensures FirstRowError(specs, 0).Some? ==> r == Err(FirstRowError(specs, 0).value)
    ensures r.Ok? <==> RowsOk(specs)
    ensures r.Ok? ==>
      && (forall spec | spec in specs :: spec.host.Some?)
      && r.value == RouteTable(TableAfter(specs), |specs|, EnabledCount(specs))
  {
    NoRowError(specs, 0);
    var ids: set<string> := {};
    var paths: set<(Host, Path)> := {};
    var byHost: ByHost := map[];
    var enabledCount := 0;
    for i := 0 to |specs|
      invariant FirstRowError(specs, 0) == FirstRowError(specs, i)
      invariant forall spec | spec in specs[..i] :: spec.host.Some?
      invariant ids == set j | 0 <= j < i :: specs[j].id
      invariant forall h, p ::
        (h, p) in paths <==> exists j | 0 <= j < i :: specs[j].host == Some(h) && specs[j].path == p
      invariant byHost == TableAfter(specs[..i]) && enabledCount == EnabledCount(specs[..i])
    {
      var spec := specs[i];
      assert specs[..i + 1][..i] == specs[..i];
      if !spec.idOk {
        return Err(BadId);
      }
      if spec.host.None? {
        return Err(BadHost);
      }
      var host := spec.host.value;
      if !spec.pathFormOk {
        return Err(BadPath);
      }
      if spec.id in ids {
        return Err(DuplicateId);
      }
      ids := ids + {spec.id};
      if (host, spec.path) in paths {
        return Err(DuplicateHostPath);
      }
      paths := paths + {(host, spec.path)};
      if !spec.backendOk {
        return Err(BadBackend);
      }
      if spec.enabled {
        byHost := Insert(byHost, RouteOf(spec));
        enabledCount := enabledCount + 1;
      }
    }
    assert specs[..|specs|] == specs;
    return Ok(RouteTable(byHost, |specs|, enabledCount));
  }

  /** The lookup of both tables. */
  function Resolve(byHost: ByHost, host: Host, path: Path): Option<Route> {
    if host in byHost && path in byHost[host] then Some(byHost[host][path]) else None
  }

  /** The simple form: the first enabled row with this host and path. */
  function Scan(specs: seq<RouteSpec>, host: Host, path: Path): Option<Route> {
    if specs == [] then None
    else if Serves(specs[0], host, path) then Some(RouteOf(specs[0]))
    else Scan(specs[1..], host, path)
  }

  predicate Serves(spec: RouteSpec, host: Host, path: Path) {
    spec.enabled && spec.host == Some(host) && spec.path == path
  }

  lemma RowsOkBefore(specs: seq<RouteSpec>)
    requires RowsOk(specs) && specs != []
    ensures RowsOk(specs[..|specs| - 1])
  {
    var before := specs[..|specs| - 1];
    forall i | 0 <= i < |before|
      ensures RowError(before, i).None?
    {
      assert RowError(specs, i).None?;
      assert forall j | 0 <= j <= i :: before[j] == specs[j];
    }
  }

  lemma {:induction false} ScanAppend(specs: seq<RouteSpec>, last: RouteSpec, host: Host, path: Path)
    ensures Scan(specs + [last], host, path) ==
      if Scan(specs, host, path).Some? then Scan(specs, host, path)
      else if Serves(last, host, path) then Some(RouteOf(last)) else None
    decreases |specs|
  {
    if specs == [] {
      assert (specs + [last])[1..] == [];
    } else {
      assert (specs + [last])[1..] == specs[1..] + [last];
      ScanAppend(specs[1..], last, host, path);
    }
  }

  lemma {:induction false} ScanFinds(specs: seq<RouteSpec>, host: Host, path: Path)
    ensures Scan(specs, host, path).Some? ==> exists i: nat :: i < |specs| && Serves(specs[i], host, path)
    ensures Scan(specs, host, path).None? ==> forall i: nat | i < |specs| :: !Serves(specs[i], host, path)
    decreases |specs|
  {
    if specs != [] && !Serves(specs[0], host, path) {
      ScanFinds(specs[1..], host, path);
      if Scan(specs, host, path).Some? {
        var i: nat :| i < |specs[1..]| && Serves(specs[1..][i], host, path);
        assert Serves(specs[i + 1], host, path);
      }
    }
  }

  /** No earlier row can answer for an accepted last row. */
  lemma LastRowIsNew(specs: seq<RouteSpec>, host: Host, path: Path)
    requires RowsOk(specs) && specs != []
    requires specs[|specs| - 1].host == Some(host) && specs[|specs| - 1].path == path
    ensures Scan(specs[..|specs| - 1], host, path).None?
  {
    var before := specs[..|specs| - 1];
    assert RowError(specs, |specs| - 1).None?;
    forall i: nat | i < |before|
      ensures !Serves(before[i], host, path)
    {
      assert before[i] == specs[i];
    }
    ScanFinds(before, host, path);
  }

  /** For accepted rows, lookup in the built table is the scan. */
  lemma {:induction false} ResolveIsScan(specs: seq<RouteSpec>, host: Host, path: Path)
    requires RowsOk(specs) && forall spec | spec in specs :: spec.host.Some?
    ensures Resolve(TableAfter(specs), host, path) == Scan(specs, host, path)
    decreases |specs|
  {
    if specs != [] {
      var before, last := specs[..|specs| - 1], specs[|specs| - 1];
      assert specs == before + [last];
      RowsOkBefore(specs);
      ResolveIsScan(before, host, path);
      ScanAppend(before, last, host, path);
      if Serves(last, host, path) {
        LastRowIsNew(specs, host, path);
      }
    }
  }

  /** The route holds what its configuration row says, and the row is enabled. */
  predicate HoldsRow(route: Route, spec: RouteSpec) {
    spec.enabled && route.id == spec.id && Some(route.host) == spec.host && route.path == spec.path
  }

  /** What a lookup returns is, field by field, exactly one enabled row with the host and path asked for. */
  lemma ResolvedRouteIsRow(specs: seq<RouteSpec>, host: Host, path: Path) returns (i: nat)
    requires RowsOk(specs) && forall spec | spec in specs :: spec.host.Some?
    requires Resolve(TableAfter(specs), host, path).Some?
    ensures i < |specs| && HoldsRow(Resolve(TableAfter(specs), host, path).value, specs[i])
    ensures specs[i].host == Some(host) && specs[i].path == path
    ensures forall j: nat | j < |specs| && HoldsRow(Resolve(TableAfter(specs), host, path).value, specs[j]) :: j == i
  {
    ResolveIsScan(specs, host, path);
    i := ScanIsRow(specs, host, path);
    RowsOkExactly(specs);
    assert forall j: nat | j < |specs| && j != i :: !Clash(if j < i then specs[j] else specs[i],
                                                           if j < i then specs[i] else specs[j]);
  }

  lemma {:induction false} ScanIsRow(specs: seq<RouteSpec>, host: Host, path: Path) returns (i: nat)
    requires Scan(specs, host, path).Some?
    ensures i < |specs| && specs[i].host == Some(host) && specs[i].path == path
    ensures HoldsRow(Scan(specs, host, path).value, specs[i])
    decreases |specs|
  {
    if Serves(specs[0], host, path) {
      i := 0;
    } else {
      i := ScanIsRow(specs[1..], host, path);
      i := i + 1;
    }
  }

  ghost function Entries(byHost: ByHost): set<(Host, Path)> {
    set host, path | host in byHost && path in byHost[host] :: (host, path)
  }

  lemma InsertAddsEntry(byHost: ByHost, route: Route)
    ensures Entries(Insert(byHost, route)) == Entries(byHost) + {(route.host, route.path)}
  {
    forall host, path
      ensures (host, path) in Entries(Insert(byHost, route)) <==>
        (host, path) in Entries(byHost) + {(route.host, route.path)}
    {
    }
  }

  /** The reported count of enabled routes is the number of routes stored. */
  lemma {:induction false} EnabledCountIsSize(specs: seq<RouteSpec>)
    requires RowsOk(specs) && forall spec | spec in specs :: spec.host.Some?
    ensures |Entries(TableAfter(specs))| == EnabledCount(specs)
    decreases |specs|
  {
    if specs == [] {
      assert Entries(map[]) == {};
    } else {
      var before, last := specs[..|specs| - 1], specs[|specs| - 1];
      RowsOkBefore(specs);
      EnabledCountIsSize(before);
      if last.enabled {
        InsertAddsEntry(TableAfter(before), RouteOf(last));
        LastRowIsNew(specs, last.host.value, last.path);
        ResolveIsScan(before, last.host.value, last.path);
        assert (last.host.value, last.path) !in Entries(TableAfter(before));
      }
    }
  }
}
