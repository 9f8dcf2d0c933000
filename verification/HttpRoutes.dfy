/**
HTTP route tables (src/http_proxy/routes.rs): building them from configuration rows, segment-prefix
lookup by chopping the path, and target rewriting.
*/
module HttpRoutes {
  import opened Wrappers
  import opened HttpPath

  type Host = seq<byte>

  datatype PathMatch = Exact | Prefix
  datatype Rewrite = Preserve | StripPrefix | ReplacePrefix

  /**
  A configuration row.  `host` is the normalised host, `None` when normalisation refuses it; `idOk`
  and `upstreamOk` are the outcomes of the id and upstream checks.
  */
  datatype HttpRouteSpec = HttpRouteSpec(
    id: string, idOk: bool, host: Option<Host>, path: Path, pathMatch: PathMatch, rewrite: Rewrite,
    replacement: Option<Path>, upstreamOk: bool, enabled: bool)

  datatype HttpRoute = HttpRoute(
    id: string, host: Host, path: Path, pathMatch: PathMatch, rewrite: Rewrite, replacement: Option<Path>)

  datatype HostRoutes = HostRoutes(exact: map<Path, HttpRoute>, prefixes: map<Path, HttpRoute>)

  datatype HttpRouteTable = HttpRouteTable(byHost: map<Host, HostRoutes>, configuredCount: nat, enabledCount: nat)

  datatype BuildError =
    | TooManyRoutes | BadId | DuplicateId | BadHost | BadPath | ReservedHealthPath | TrailingSlash | DuplicateMatch
    | ShadowedByExplicitRoute | StripNeedsPrefix | BadReplacement | AmbiguousReplacement | MissingReplacement
    | UnexpectedReplacement | BadUpstream

  const MAX_ROUTES: nat := 4096
  const ROOT: Path := [SLASH]
  /** `/health/live` and `/health/ready`. */
  const HEALTH_LIVE: Path := [47, 104, 101, 97, 108, 116, 104, 47, 108, 105, 118, 101]
  const HEALTH_READY: Path := [47, 104, 101, 97, 108, 116, 104, 47, 114, 101, 97, 100, 121]

  predicate EndsInSlash(path: Path) {
    path != [] && path[|path| - 1] == SLASH
  }

  // ---- one row ----

  function Key(spec: HttpRouteSpec): (Option<Host>, Path, PathMatch) {
    (spec.host, spec.path, spec.pathMatch)
  }

  function ReplacementError(spec: HttpRouteSpec): Option<BuildError> {
    if spec.rewrite == ReplacePrefix then
      if spec.replacement.None? then Some(MissingReplacement)
      else
        var prefix := spec.replacement.value;
        if !ValidPath(prefix) then Some(BadReplacement)
        else if EndsInSlash(prefix) && !(prefix == ROOT && spec.pathMatch == Exact) then Some(BadReplacement)
        else if spec.path == ROOT && spec.pathMatch == Prefix then Some(AmbiguousReplacement)
        else None
    else if spec.replacement.Some? then Some(UnexpectedReplacement)
    else None
  }

  /** The verdict on row `i`, given the rows before it and the keys of the WebSocket and gRPC rows. */
  function RowError(specs: seq<HttpRouteSpec>, i: nat, reserved: set<(Host, Path)>): Option<BuildError>
    requires i < |specs|
  {
    var spec := specs[i];
    if !spec.idOk then Some(BadId)
    else if exists j | 0 <= j < i :: specs[j].id == spec.id then Some(DuplicateId)
    else if spec.host.None? then Some(BadHost)
    else if !ValidPath(spec.path) then Some(BadPath)
    else if spec.path == HEALTH_LIVE || spec.path == HEALTH_READY then Some(ReservedHealthPath)
    else if spec.pathMatch == Prefix && spec.path != ROOT && EndsInSlash(spec.path) then Some(TrailingSlash)
    else if exists j | 0 <= j < i :: Key(specs[j]) == Key(spec) then Some(DuplicateMatch)
    else if spec.pathMatch == Exact && (spec.host.value, spec.path) in reserved then Some(ShadowedByExplicitRoute)
    else if spec.rewrite == StripPrefix && (spec.pathMatch != Prefix || spec.path == ROOT) then Some(StripNeedsPrefix)
    else if ReplacementError(spec).Some? then ReplacementError(spec)
    else if !spec.upstreamOk then Some(BadUpstream)
    else None
  }

  function FirstRowError(specs: seq<HttpRouteSpec>, i: nat, reserved: set<(Host, Path)>): Option<BuildError>
    requires i <= |specs|
    decreases |specs| - i
  {
    if i == |specs| then None
    else if RowError(specs, i, reserved).Some? then RowError(specs, i, reserved)
    else FirstRowError(specs, i + 1, reserved)
  }

  predicate RowsOk(specs: seq<HttpRouteSpec>, reserved: set<(Host, Path)>) {
    forall i | 0 <= i < |specs| :: RowError(specs, i, reserved).None?
  }

  lemma {:induction false} NoRowError(specs: seq<HttpRouteSpec>, i: nat, reserved: set<(Host, Path)>)
    requires i <= |specs|
    ensures FirstRowError(specs, i, reserved).None? <==>
      forall k | i <= k < |specs| :: RowError(specs, k, reserved).None?
    decreases |specs| - i
  {
    if i < |specs| {
      NoRowError(specs, i + 1, reserved);
    }
  }

  /** A row that can stand in a configuration, as far as the other HTTP rows are concerned. */
  predicate FitsAlone(spec: HttpRouteSpec, reserved: set<(Host, Path)>) {
    && spec.idOk && spec.host.Some? && spec.upstreamOk
    && ValidPath(spec.path) && spec.path != HEALTH_LIVE && spec.path != HEALTH_READY
    && (spec.pathMatch == Prefix ==> spec.path == ROOT || !EndsInSlash(spec.path))
    && (spec.pathMatch == Exact ==> (spec.host.value, spec.path) !in reserved)
    && (spec.rewrite == StripPrefix ==> spec.pathMatch == Prefix && spec.path != ROOT)
    && (spec.replacement.Some? <==> spec.rewrite == ReplacePrefix)
    && (spec.replacement.Some? ==>
          && ValidPath(spec.replacement.value)
          && (EndsInSlash(spec.replacement.value) ==> spec.replacement.value == ROOT && spec.pathMatch == Exact)
          && (spec.pathMatch == Prefix ==> spec.path != ROOT))
  }

  predicate Clash(a: HttpRouteSpec, b: HttpRouteSpec) {
    a.id == b.id || (a.host == b.host && a.path == b.path && a.pathMatch == b.pathMatch)
  }

  /**
  What the checks accept, in whatever order they are made: rows that each fit, no two with the same id or
  the same host, path and kind of match.
  */
  lemma RowsOkExactly(specs: seq<HttpRouteSpec>, reserved: set<(Host, Path)>)
    ensures RowsOk(specs, reserved) <==>
      && (forall i: nat | i < |specs| :: FitsAlone(specs[i], reserved))
      && (forall i: nat, j: nat | i < j < |specs| :: !Clash(specs[i], specs[j]))
  {
    if RowsOk(specs, reserved) {
      forall i: nat | i < |specs|
        ensures FitsAlone(specs[i], reserved)
        ensures forall j: nat | j < i :: !Clash(specs[j], specs[i])
      {
        assert RowError(specs, i, reserved).None?;
      }
    }
    if (forall i: nat | i < |specs| :: FitsAlone(specs[i], reserved))
      && (forall i: nat, j: nat | i < j < |specs| :: !Clash(specs[i], specs[j]))
    {
      forall i: nat | i < |specs|
        ensures RowError(specs, i, reserved).None?
      {
        assert forall j: nat | j < i :: !Clash(specs[j], specs[i]);
      }
    }
  }

  // ---- the table ----

  function RouteOf(spec: HttpRouteSpec): HttpRoute
    requires spec.host.Some?
  {
    HttpRoute(spec.id, spec.host.value, spec.path, spec.pathMatch, spec.rewrite, spec.replacement)
  }

  function Insert(byHost: map<Host, HostRoutes>, route: HttpRoute): map<Host, HostRoutes> {
    var routes := if route.host in byHost then byHost[route.host] else HostRoutes(map[], map[]);
    byHost[route.host :=
      match route.pathMatch
      case Exact => routes.(exact := routes.exact[route.path := route])
      case Prefix => routes.(prefixes := routes.prefixes[route.path := route])]
  }

  function TableAfter(specs: seq<HttpRouteSpec>): map<Host, HostRoutes>
    requires forall spec | spec in specs :: spec.host.Some?
  {
    if specs == [] then map[]
    else
      var last := specs[|specs| - 1];
      var before := TableAfter(specs[..|specs| - 1]);
      if last.enabled then Insert(before, RouteOf(last)) else before
  }

  function EnabledCount(specs: seq<HttpRouteSpec>): nat {
    if specs == [] then 0
    else EnabledCount(specs[..|specs| - 1]) + (if specs[|specs| - 1].enabled then 1 else 0)
  }

  method Build(specs: seq<HttpRouteSpec>, reserved: set<(Host, Path)>) returns (r: Result<HttpRouteTable, BuildError>)
    ensures |specs| > MAX_ROUTES ==> r == Err(TooManyRoutes)
    ensures |specs| <= MAX_ROUTES && FirstRowError(specs, 0, reserved).Some? ==>
      r == Err(FirstRowError(specs, 0, reserved).value)
    ensures r.Ok? <==> |specs| <= MAX_ROUTES && RowsOk(specs, reserved)
    ensures r.Ok? ==>
      && (forall spec | spec in specs :: spec.host.Some?)
      && r.value == HttpRouteTable(TableAfter(specs), |specs|, EnabledCount(specs))
  {
    NoRowError(specs, 0, reserved);
    if |specs| > MAX_ROUTES {
      return Err(TooManyRoutes);
    }
    var ids: set<string> := {};
    var keys: set<(Option<Host>, Path, PathMatch)> := {};
    var byHost: map<Host, HostRoutes> := map[];
    var enabledCount := 0;
    for i := 0 to |specs|
      invariant FirstRowError(specs, 0, reserved) == FirstRowError(specs, i, reserved)
      invariant ids == set j | 0 <= j < i :: specs[j].id
      invariant keys == set j | 0 <= j < i :: Key(specs[j])
      invariant forall spec | spec in specs[..i] :: spec.host.Some?
      invariant byHost == TableAfter(specs[..i]) && enabledCount == EnabledCount(specs[..i])
    {
      var spec := specs[i];
      assert specs[..i + 1][..i] == specs[..i];
      if !spec.idOk {
        return Err(BadId);
      }
      if spec.id in ids {
        return Err(DuplicateId);
      }
      ids := ids + {spec.id};
      if spec.host.None? {
        return Err(BadHost);
      }
      var host := spec.host.value;
      var validated := ValidateHttpPath(spec.path);
      if validated.Err? {
        return Err(BadPath);
      }
      if spec.path == HEALTH_LIVE || spec.path == HEALTH_READY {
        return Err(ReservedHealthPath);
      }
      if spec.pathMatch == Prefix && spec.path != ROOT && EndsInSlash(spec.path) {
        return Err(TrailingSlash);
      }
      if Key(spec) in keys {
        return Err(DuplicateMatch);
      }
      keys := keys + {Key(spec)};
      if spec.pathMatch == Exact && (host, spec.path) in reserved {
        return Err(ShadowedByExplicitRoute);
      }
      if spec.rewrite == StripPrefix && (spec.pathMatch != Prefix || spec.path == ROOT) {
        return Err(StripNeedsPrefix);
      }
      if ReplacementError(spec).Some? {
        return Err(ReplacementError(spec).value);
      }
      if !spec.upstreamOk {
        return Err(BadUpstream);
      }
      if spec.enabled {
        byHost := Insert(byHost, RouteOf(spec));
        enabledCount := enabledCount + 1;
      }
    }
    assert specs[..|specs|] == specs;
    return Ok(HttpRouteTable(byHost, |specs|, enabledCount));
  }

  // ---- lookup ----

  function ExactAt(byHost: map<Host, HostRoutes>, host: Host, path: Path): Option<HttpRoute> {
    if host in byHost && path in byHost[host].exact then Some(byHost[host].exact[path]) else None
  }

  function PrefixAt(byHost: map<Host, HostRoutes>, host: Host, path: Path): Option<HttpRoute> {
    if host in byHost && path in byHost[host].prefixes then Some(byHost[host].prefixes[path]) else None
  }

  /** `prefix` covers `path` at a segment boundary. */
  predicate Covers(prefix: Path, path: Path) {
    || prefix == path
    || (prefix == ROOT && path != [] && path[0] == SLASH)
    || prefix + [SLASH] <= path
  }

  predicate ExactHit(spec: HttpRouteSpec, host: Host, path: Path) {
    spec.enabled && spec.host == Some(host) && spec.pathMatch == Exact && spec.path == path
  }

  predicate PrefixHit(spec: HttpRouteSpec, host: Host, path: Path) {
    spec.enabled && spec.host == Some(host) && spec.pathMatch == Prefix && Covers(spec.path, path)
  }

  /** The simple form: scan the rows for the exact path, then for the longest covering prefix. */
  function ScanExact(specs: seq<HttpRouteSpec>, host: Host, path: Path): Option<HttpRoute> {
    if specs == [] then None
    else if ExactHit(specs[0], host, path) then Some(RouteOf(specs[0]))
    else ScanExact(specs[1..], host, path)
  }

  function ScanPrefix(specs: seq<HttpRouteSpec>, host: Host, path: Path): Option<HttpRoute> {
    if specs == [] then None
    else
      var rest := ScanPrefix(specs[1..], host, path);
      if PrefixHit(specs[0], host, path) && (rest.None? || |rest.value.path| <= |specs[0].path|)
      then Some(RouteOf(specs[0])) else rest
  }

  function LinearScan(specs: seq<HttpRouteSpec>, host: Host, path: Path): Option<HttpRoute> {
    if ScanExact(specs, host, path).Some? then ScanExact(specs, host, path) else ScanPrefix(specs, host, path)
  }

  /** The longest stored prefix that covers the path. */
  ghost predicate LongestPrefix(byHost: map<Host, HostRoutes>, host: Host, path: Path, r: Option<HttpRoute>) {
    match r
    case None => forall p: Path | Covers(p, path) :: PrefixAt(byHost, host, p).None?
    case Some(route) =>
      exists p: Path | Covers(p, path) ::
        && PrefixAt(byHost, host, p) == r
        && forall q: Path | Covers(q, path) && PrefixAt(byHost, host, q).Some? :: |q| <= |p|
  }

  /** What a lookup must return. */
  ghost predicate Resolved(byHost: map<Host, HostRoutes>, host: Host, path: Path, r: Option<HttpRoute>) {
    if ExactAt(byHost, host, path).Some? then r == ExactAt(byHost, host, path)
    else LongestPrefix(byHost, host, path, r)
  }

  function LastSlash(s: seq<byte>): (r: Option<nat>)
    ensures r.None? ==> SLASH !in s
    ensures r.Some? ==> r.value < |s| && s[r.value] == SLASH && SLASH !in s[r.value + 1..]
  {
    if s == [] then None
    else if s[|s| - 1] == SLASH then Some(|s| - 1)
    else
      var r := LastSlash(s[..|s| - 1]);
      assert s == s[..|s| - 1] + [s[|s| - 1]];
      r
  }

  /** Table prefixes are never empty: every stored path passed the validator. */
  ghost predicate NoEmptyPrefix(byHost: map<Host, HostRoutes>) {
    forall host | host in byHost :: [] !in byHost[host].prefixes
  }

  method Resolve(table: HttpRouteTable, host: Host, path: Path) returns (r: Option<HttpRoute>)
    requires NoEmptyPrefix(table.byHost)
    ensures Resolved(table.byHost, host, path, r)
  {
    if host !in table.byHost {
      return None;
    }
    var routes := table.byHost[host];
    if path in routes.exact {
      return Some(routes.exact[path]);
    }
    var candidate := path;
    while true
      invariant candidate <= path
      invariant candidate != path ==> candidate != [] && path[|candidate|] == SLASH
      invariant forall q: Path | Covers(q, path) && q in routes.prefixes :: |q| <= |candidate|
      decreases |candidate|
    {
      if candidate in routes.prefixes {
        CandidateCovers(candidate, path);
        return Some(routes.prefixes[candidate]);
      }
      var slash := LastSlash(candidate);
      if slash.None? {
        NothingShorter(candidate, path, routes.prefixes.Keys);
        return None;
      }
      if slash.value == 0 {
        OnlyRootLeft(candidate, path, routes.prefixes.Keys);
        return if ROOT in routes.prefixes then Some(routes.prefixes[ROOT]) else None;
      }
      ChopSkipsNothing(candidate, slash.value, path, routes.prefixes.Keys);
      candidate := candidate[..slash.value];
    }
  }

  lemma CandidateCovers(candidate: Path, path: Path)
    requires candidate <= path && (candidate != path ==> path[|candidate|] == SLASH)
    ensures Covers(candidate, path)
  {
  }

  /** A covering prefix shorter than the candidate ends at one of the candidate's separators. */
  lemma ShorterEndsAtSlash(q: Path, candidate: Path, path: Path)
    requires candidate <= path && Covers(q, path) && |q| <= |candidate| && q != candidate
    requires candidate != path ==> candidate != []
    ensures (q == ROOT && candidate != [] && candidate[0] == SLASH)
      || (|q| < |candidate| && candidate[|q|] == SLASH && candidate[..|q|] == q)
  {
    if q + [SLASH] <= path {
      assert q == path[..|q|] == (q + [SLASH])[..|q|];
      assert path[|q|] == SLASH;
    }
  }

  lemma NothingShorter(candidate: Path, path: Path, prefixes: set<Path>)
    requires candidate <= path && (candidate != path ==> candidate != []) && SLASH !in candidate
    requires candidate !in prefixes && [] !in prefixes
    requires forall q: Path | Covers(q, path) && q in prefixes :: |q| <= |candidate|
    ensures forall q: Path | Covers(q, path) :: q !in prefixes
  {
    forall q: Path | Covers(q, path)
      ensures q !in prefixes
    {
      if q in prefixes {
        ShorterEndsAtSlash(q, candidate, path);
      }
    }
  }

  lemma NoSlashAfter(s: seq<byte>, slash: nat, k: nat)
    requires slash < k < |s| && SLASH !in s[slash + 1..]
    ensures s[k] != SLASH
  {
    assert s[k] == s[slash + 1..][k - slash - 1];
  }

  lemma OnlyRootLeft(candidate: Path, path: Path, prefixes: set<Path>)
    requires candidate <= path && (candidate != path ==> candidate != [])
    requires candidate != [] && candidate[0] == SLASH && SLASH !in candidate[1..]
    requires candidate !in prefixes && [] !in prefixes
    requires forall q: Path | Covers(q, path) && q in prefixes :: |q| <= |candidate|
    ensures Covers(ROOT, path)
    ensures forall q: Path | Covers(q, path) && q in prefixes :: q == ROOT
  {
    forall q: Path | Covers(q, path) && q in prefixes
      ensures q == ROOT
    {
      if 0 < |q| < |candidate| {
        NoSlashAfter(candidate, 0, |q|);
      }
      ShorterEndsAtSlash(q, candidate, path);
    }
  }

  lemma ChopSkipsNothing(candidate: Path, slash: nat, path: Path, prefixes: set<Path>)
    requires candidate <= path && (candidate != path ==> candidate != [])
    requires 0 < slash < |candidate| && candidate[slash] == SLASH && SLASH !in candidate[slash + 1..]
    requires candidate !in prefixes
    requires forall q: Path | Covers(q, path) && q in prefixes :: |q| <= |candidate|
    ensures forall q: Path | Covers(q, path) && q in prefixes :: |q| <= slash
  {
    forall q: Path | Covers(q, path) && q in prefixes
      ensures |q| <= slash
    {
      if slash < |q| < |candidate| {
        NoSlashAfter(candidate, slash, |q|);
      }
      ShorterEndsAtSlash(q, candidate, path);
    }
  }

  // ---- the table is the rows ----

  lemma InsertLooksUp(byHost: map<Host, HostRoutes>, route: HttpRoute, host: Host, path: Path)
    ensures ExactAt(Insert(byHost, route), host, path) ==
      if route.pathMatch == Exact && route.host == host && route.path == path then Some(route)
      else ExactAt(byHost, host, path)
    ensures PrefixAt(Insert(byHost, route), host, path) ==
      if route.pathMatch == Prefix && route.host == host && route.path == path then Some(route)
      else PrefixAt(byHost, host, path)
  {
  }

  lemma RowsOkBefore(specs: seq<HttpRouteSpec>, reserved: set<(Host, Path)>)
    requires RowsOk(specs, reserved) && specs != []
    ensures RowsOk(specs[..|specs| - 1], reserved)
  {
    var before := specs[..|specs| - 1];
    forall i | 0 <= i < |before|
      ensures RowError(before, i, reserved).None?
    {
      assert RowError(specs, i, reserved).None?;
      assert forall j | 0 <= j <= i :: before[j] == specs[j];
    }
  }

  /** A row of the table's kind with this host and path. */
  ghost predicate Stores(specs: seq<HttpRouteSpec>, i: nat, kind: PathMatch, host: Host, path: Path) {
    && i < |specs| && specs[i].enabled && specs[i].pathMatch == kind
    && specs[i].host == Some(host) && specs[i].path == path
  }

  lemma {:induction false} TableIsRows(specs: seq<HttpRouteSpec>, reserved: set<(Host, Path)>, host: Host, path: Path)
    requires RowsOk(specs, reserved) && forall spec | spec in specs :: spec.host.Some?
    ensures forall i: nat | Stores(specs, i, Exact, host, path) ::
      ExactAt(TableAfter(specs), host, path) == Some(RouteOf(specs[i]))
    ensures forall i: nat | Stores(specs, i, Prefix, host, path) ::
      PrefixAt(TableAfter(specs), host, path) == Some(RouteOf(specs[i]))
    ensures ExactAt(TableAfter(specs), host, path).Some? ==> exists i: nat :: Stores(specs, i, Exact, host, path)
    ensures PrefixAt(TableAfter(specs), host, path).Some? ==> exists i: nat :: Stores(specs, i, Prefix, host, path)
    decreases |specs|
  {
    if specs != [] {
      var n := |specs| - 1;
      var before := specs[..n];
      RowsOkBefore(specs, reserved);
      TableIsRows(before, reserved, host, path);
      assert RowError(specs, n, reserved).None?;
      if specs[n].enabled {
        InsertLooksUp(TableAfter(before), RouteOf(specs[n]), host, path);
      }
      forall kind, i: nat | Stores(specs, i, kind, host, path)
        ensures i < n ==> Stores(before, i, kind, host, path) && specs[i] == before[i]
        ensures i < n ==> Key(specs[i]) != Key(specs[n])
      {
      }
      forall kind, i: nat | Stores(before, i, kind, host, path)
        ensures Stores(specs, i, kind, host, path)
      {
      }
      if specs[n].enabled && specs[n].host == Some(host) && specs[n].path == path {
        assert Stores(specs, n, specs[n].pathMatch, host, path);
      }
    }
  }

  /** The keys stored in a table. */
  ghost function Entries(byHost: map<Host, HostRoutes>): set<(Host, Path, PathMatch)> {
    (set host, path | host in byHost && path in byHost[host].exact :: (host, path, Exact)) +
    (set host, path | host in byHost && path in byHost[host].prefixes :: (host, path, Prefix))
  }

  lemma InsertAddsEntry(byHost: map<Host, HostRoutes>, route: HttpRoute)
    ensures Entries(Insert(byHost, route)) == Entries(byHost) + {(route.host, route.path, route.pathMatch)}
  {
    forall host, path, kind
      ensures (host, path, kind) in Entries(Insert(byHost, route)) <==>
        (host, path, kind) in Entries(byHost) + {(route.host, route.path, route.pathMatch)}
    {
      InsertLooksUp(byHost, route, host, path);
    }
  }

  /** The reported count of enabled routes is the number of routes stored. */
  lemma {:induction false} EnabledCountIsSize(specs: seq<HttpRouteSpec>, reserved: set<(Host, Path)>)
    requires RowsOk(specs, reserved) && forall spec | spec in specs :: spec.host.Some?
    ensures |Entries(TableAfter(specs))| == EnabledCount(specs)
    decreases |specs|
  {
    if specs == [] {
      assert Entries(map[]) == {};
    } else {
      var n := |specs| - 1;
      var before, last := specs[..n], specs[n];
      RowsOkBefore(specs, reserved);
      EnabledCountIsSize(before, reserved);
      if last.enabled {
        InsertAddsEntry(TableAfter(before), RouteOf(last));
        NewKey(specs, reserved);
      }
    }
  }

  lemma NewKey(specs: seq<HttpRouteSpec>, reserved: set<(Host, Path)>)
    requires RowsOk(specs, reserved) && specs != [] && forall spec | spec in specs :: spec.host.Some?
    ensures var last := specs[|specs| - 1];
      (last.host.value, last.path, last.pathMatch) !in Entries(TableAfter(specs[..|specs| - 1]))
  {
    var n := |specs| - 1;
    var before, last := specs[..n], specs[n];
    RowsOkBefore(specs, reserved);
    TableIsRows(before, reserved, last.host.value, last.path);
    assert RowError(specs, n, reserved).None?;
    forall i: nat
      ensures !Stores(before, i, last.pathMatch, last.host.value, last.path)
    {
      assert i < n ==> before[i] == specs[i] && Key(specs[i]) != Key(last);
    }
  }

  /** Every stored route came from a checked row and carries its own key. */
  ghost predicate StoredRoute(route: HttpRoute, host: Host, path: Path, kind: PathMatch) {
    route.host == host && route.path == path && route.pathMatch == kind && RouteOk(route)
  }

  /** What the build checks guarantee of a route. */
  predicate RouteOk(route: HttpRoute) {
    && ValidPath(route.path)
    && (route.pathMatch == Prefix && route.path != ROOT ==> !EndsInSlash(route.path))
    && (route.rewrite == StripPrefix ==> route.pathMatch == Prefix && route.path != ROOT)
    && (route.rewrite == ReplacePrefix ==>
          && route.replacement.Some? && ValidPath(route.replacement.value)
          && (EndsInSlash(route.replacement.value) ==> route.replacement.value == ROOT && route.pathMatch == Exact)
          && (route.pathMatch == Prefix ==> route.path != ROOT))
  }

  lemma TableRoutesOk(specs: seq<HttpRouteSpec>, reserved: set<(Host, Path)>)
    requires RowsOk(specs, reserved) && forall spec | spec in specs :: spec.host.Some?
    ensures forall host, path | ExactAt(TableAfter(specs), host, path).Some? ::
      StoredRoute(ExactAt(TableAfter(specs), host, path).value, host, path, Exact)
    ensures forall host, path | PrefixAt(TableAfter(specs), host, path).Some? ::
      StoredRoute(PrefixAt(TableAfter(specs), host, path).value, host, path, Prefix)
    ensures NoEmptyPrefix(TableAfter(specs))
  {
    forall host, path | ExactAt(TableAfter(specs), host, path).Some?
      ensures StoredRoute(ExactAt(TableAfter(specs), host, path).value, host, path, Exact)
    {
      TableIsRows(specs, reserved, host, path);
      var i: nat :| Stores(specs, i, Exact, host, path);
      assert RowError(specs, i, reserved).None?;
    }
    forall host, path | PrefixAt(TableAfter(specs), host, path).Some?
      ensures StoredRoute(PrefixAt(TableAfter(specs), host, path).value, host, path, Prefix)
    {
      TableIsRows(specs, reserved, host, path);
      var i: nat :| Stores(specs, i, Prefix, host, path);
      assert RowError(specs, i, reserved).None?;
    }
    forall host | host in TableAfter(specs)
      ensures [] !in TableAfter(specs)[host].prefixes
    {
      assert [] in TableAfter(specs)[host].prefixes <==> PrefixAt(TableAfter(specs), host, []).Some?;
    }
  }

  // ---- lookup equals the linear scan ----

  /** The row a scan must return: the only exact hit, or a prefix hit no other one is longer than. */
  ghost predicate IsBest(specs: seq<HttpRouteSpec>, host: Host, path: Path, r: Option<HttpRoute>) {
    if exists i: nat :: i < |specs| && ExactHit(specs[i], host, path) then
      exists i: nat :: i < |specs| && ExactHit(specs[i], host, path) && r == Some(RouteOf(specs[i]))
    else LongestHit(specs, host, path, r)
  }

  ghost predicate LongestHit(specs: seq<HttpRouteSpec>, host: Host, path: Path, r: Option<HttpRoute>) {
    match r
    case None => forall i: nat | i < |specs| :: !PrefixHit(specs[i], host, path)
    case Some(route) =>
      && (exists i: nat :: i < |specs| && PrefixHit(specs[i], host, path) && route == RouteOf(specs[i]))
      && (forall j: nat | j < |specs| && PrefixHit(specs[j], host, path) :: |specs[j].path| <= |route.path|)
  }

  lemma {:induction false} ScanExactFinds(specs: seq<HttpRouteSpec>, host: Host, path: Path)
    ensures ScanExact(specs, host, path).None? ==> forall i: nat | i < |specs| :: !ExactHit(specs[i], host, path)
    ensures ScanExact(specs, host, path).Some? ==> exists i: nat ::
      i < |specs| && ExactHit(specs[i], host, path) && ScanExact(specs, host, path) == Some(RouteOf(specs[i]))
    decreases |specs|
  {
    if specs != [] && !ExactHit(specs[0], host, path) {
      ScanExactFinds(specs[1..], host, path);
      if ScanExact(specs, host, path).Some? {
        var i: nat :| i < |specs[1..]| && ExactHit(specs[1..][i], host, path)
          && ScanExact(specs[1..], host, path) == Some(RouteOf(specs[1..][i]));
        assert specs[i + 1] == specs[1..][i];
      }
    }
  }

  lemma {:induction false} ScanPrefixFinds(specs: seq<HttpRouteSpec>, host: Host, path: Path)
    ensures LongestHit(specs, host, path, ScanPrefix(specs, host, path))
    decreases |specs|
  {
    if specs != [] {
      var rest := ScanPrefix(specs[1..], host, path);
      ScanPrefixFinds(specs[1..], host, path);
      if rest.Some? {
        var i: nat :| i < |specs[1..]| && PrefixHit(specs[1..][i], host, path) && rest.value == RouteOf(specs[1..][i]);
        assert specs[i + 1] == specs[1..][i];
      }
      if PrefixHit(specs[0], host, path) && (rest.None? || |rest.value.path| <= |specs[0].path|) {
        assert ScanPrefix(specs, host, path) == Some(RouteOf(specs[0]));
      }
      forall j: nat | j < |specs| && PrefixHit(specs[j], host, path)
        ensures j > 0 ==> PrefixHit(specs[1..][j - 1], host, path)
      {
      }
    }
  }

  /** Two covering prefixes of the same length are the same prefix. */
  lemma CoversSameLength(p: Path, q: Path, path: Path)
    requires Covers(p, path) && Covers(q, path) && |p| == |q|
    ensures p == q
  {
    if p + [SLASH] <= path {
      assert p == path[..|p|];
    }
    if q + [SLASH] <= path {
      assert q == path[..|q|];
    }
  }

  lemma DistinctKeys(specs: seq<HttpRouteSpec>, reserved: set<(Host, Path)>, i: nat, j: nat)
    requires RowsOk(specs, reserved) && i < |specs| && j < |specs|
    requires Key(specs[i]) == Key(specs[j])
    ensures i == j
  {
    assert RowError(specs, i, reserved).None? && RowError(specs, j, reserved).None?;
  }

  lemma BestIsUnique(specs: seq<HttpRouteSpec>, reserved: set<(Host, Path)>, host: Host, path: Path,
    a: Option<HttpRoute>, b: Option<HttpRoute>)
    requires RowsOk(specs, reserved)
    requires IsBest(specs, host, path, a) && IsBest(specs, host, path, b)
    ensures a == b
  {
    if exists i: nat :: i < |specs| && ExactHit(specs[i], host, path) {
      var i: nat :| i < |specs| && ExactHit(specs[i], host, path) && a == Some(RouteOf(specs[i]));
      var j: nat :| j < |specs| && ExactHit(specs[j], host, path) && b == Some(RouteOf(specs[j]));
      DistinctKeys(specs, reserved, i, j);
    } else if a.Some? && b.Some? {
      var i: nat :| i < |specs| && PrefixHit(specs[i], host, path) && a.value == RouteOf(specs[i]);
      var j: nat :| j < |specs| && PrefixHit(specs[j], host, path) && b.value == RouteOf(specs[j]);
      CoversSameLength(specs[i].path, specs[j].path, path);
      DistinctKeys(specs, reserved, i, j);
    }
  }

  lemma ResolvedIsBest(specs: seq<HttpRouteSpec>, reserved: set<(Host, Path)>, host: Host, path: Path,
    r: Option<HttpRoute>)
    requires RowsOk(specs, reserved) && forall spec | spec in specs :: spec.host.Some?
    requires Resolved(TableAfter(specs), host, path, r)
    ensures IsBest(specs, host, path, r)
  {
    var table := TableAfter(specs);
    TableIsRows(specs, reserved, host, path);
    forall i: nat | i < |specs|
      ensures ExactHit(specs[i], host, path) <==> Stores(specs, i, Exact, host, path)
    {
    }
    if ExactAt(table, host, path).None? {
      forall j: nat | j < |specs| && PrefixHit(specs[j], host, path)
        ensures PrefixAt(table, host, specs[j].path).Some? && Covers(specs[j].path, path)
      {
        TableIsRows(specs, reserved, host, specs[j].path);
        assert Stores(specs, j, Prefix, host, specs[j].path);
      }
      if r.Some? {
        var p: Path :| Covers(p, path) && PrefixAt(table, host, p) == r
          && forall q: Path | Covers(q, path) && PrefixAt(table, host, q).Some? :: |q| <= |p|;
        TableIsRows(specs, reserved, host, p);
        var i: nat :| Stores(specs, i, Prefix, host, p);
        assert PrefixHit(specs[i], host, path) && r.value == RouteOf(specs[i]);
      }
    }
  }

  /** For every accepted configuration, lookup in the built table is the linear scan of its rows. */
  lemma ResolveIsLinearScan(specs: seq<HttpRouteSpec>, reserved: set<(Host, Path)>, host: Host, path: Path,
    r: Option<HttpRoute>)
    requires RowsOk(specs, reserved) && forall spec | spec in specs :: spec.host.Some?
    requires Resolved(TableAfter(specs), host, path, r)
    ensures r == LinearScan(specs, host, path)
  {
    ResolvedIsBest(specs, reserved, host, path, r);
    ScanExactFinds(specs, host, path);
    ScanPrefixFinds(specs, host, path);
    BestIsUnique(specs, reserved, host, path, r, LinearScan(specs, host, path));
  }

  // ---- rewriting ----

  datatype RewriteError = InvalidTarget(error: PathError) | RouteDoesNotMatch

  /** `strip_prefix` of the library. */
  function Suffix(path: Path, prefix: Path): Option<Path> {
    if prefix <= path then Some(path[|prefix|..]) else None
  }

  function RewrittenPath(route: HttpRoute, path: Path): Result<Path, RewriteError> {
    if route.rewrite == Preserve then Ok(path)
    else if Suffix(path, route.path).None? then Err(RouteDoesNotMatch)
    else
      var prefix := if route.rewrite == ReplacePrefix && route.replacement.Some? then route.replacement.value else [];
      var result := prefix + Suffix(path, route.path).value;
      Ok(if result == [] then ROOT else result)
  }

  function WithQuery(path: Path, query: Option<seq<byte>>): seq<byte> {
    match query
    case None => path
    case Some(text) => path + [QUESTION] + text
  }

  /**
  What the path part of a target is, in terms of the request path.  Preserved, it is the path.
  Stripped, putting the route's path back in front gives the path, except that the bare prefix
  becomes the root.  Replaced, the two differ in the front only.
  */
  ghost predicate ReadsBack(route: HttpRoute, path: Path, target: Path) {
    match route.rewrite
    case Preserve => target == path
    case StripPrefix => if path == route.path then target == ROOT else route.path + target == path
    case ReplacePrefix =>
      route.replacement.Some? &&
      exists rest: seq<byte> :: path == route.path + rest && target == route.replacement.value + rest
  }

  /** A whole target: its path part, then `?` and the query if there is one. */
  ghost predicate Targets(route: HttpRoute, path: Path, query: Option<seq<byte>>, target: Path, whole: seq<byte>) {
    && ReadsBack(route, path, target)
    && whole == (if query.None? then target else target + [QUESTION] + query.value)
  }

  /** Rewriting a matched, accepted path succeeds, and the path can be read back from route and target. */
  lemma RewriteReadsBack(route: HttpRoute, path: Path)
    requires RouteOk(route) && Matches(route, path) && ValidPath(path)
    ensures RewrittenPath(route, path).Ok?
    ensures ReadsBack(route, path, RewrittenPath(route, path).value)
  {
    if route.rewrite != Preserve {
      SuffixShape(route, path);
      var suffix := Suffix(path, route.path).value;
      if route.rewrite == ReplacePrefix {
        assert RewrittenPath(route, path) == Ok(route.replacement.value + suffix);
      } else {
        assert [] + suffix == suffix;
      }
    }
  }

  method RewriteTarget(route: HttpRoute, path: Path, query: Option<seq<byte>>)
    returns (r: Result<seq<byte>, RewriteError>)
    ensures r.Err? && r.error.InvalidTarget? <==> !ValidPath(path)
    ensures ValidPath(path) ==>
      match RewrittenPath(route, path)
      case Ok(rewritten) => r == Ok(WithQuery(rewritten, query))
      case Err(error) => r == Err(error)
    ensures r == Err(RouteDoesNotMatch) <==>
      ValidPath(path) && route.rewrite != Preserve && !(route.path <= path)
    ensures RouteOk(route) && Matches(route, path) && ValidPath(path) ==>
      r.Ok? && exists target: Path :: Targets(route, path, query, target, r.value)
  {
    if RouteOk(route) && Matches(route, path) && ValidPath(path) {
      RewriteReadsBack(route, path);
      assert Targets(route, path, query, RewrittenPath(route, path).value,
        WithQuery(RewrittenPath(route, path).value, query));
    }
    var validated := ValidateHttpPath(path);
    if validated.Err? {
      return Err(InvalidTarget(validated.error));
    }
    match RewrittenPath(route, path) {
      case Err(error) => return Err(error);
      case Ok(rewritten) => return Ok(WithQuery(rewritten, query));
    }
  }

  /** The paths a lookup sends to this route. */
  predicate Matches(route: HttpRoute, path: Path) {
    if route.pathMatch == Exact then route.path == path else Covers(route.path, path)
  }

  /** A lookup only returns checked routes that match. */
  lemma ResolvedRouteMatches(specs: seq<HttpRouteSpec>, reserved: set<(Host, Path)>, host: Host, path: Path,
    r: Option<HttpRoute>)
    requires RowsOk(specs, reserved) && forall spec | spec in specs :: spec.host.Some?
    requires Resolved(TableAfter(specs), host, path, r) && r.Some?
    ensures RouteOk(r.value) && Matches(r.value, path) && r.value.host == host
  {
    TableRoutesOk(specs, reserved);
    if ExactAt(TableAfter(specs), host, path).Some? {
      assert StoredRoute(r.value, host, path, Exact);
    } else {
      var p: Path :| Covers(p, path) && PrefixAt(TableAfter(specs), host, p) == r;
      assert StoredRoute(r.value, host, p, Prefix);
    }
  }

  /** The route holds what its configuration row says, and the row is enabled. */
  predicate HoldsRow(route: HttpRoute, spec: HttpRouteSpec) {
    && spec.enabled
    && route.id == spec.id && Some(route.host) == spec.host && route.path == spec.path
    && route.pathMatch == spec.pathMatch && route.rewrite == spec.rewrite && route.replacement == spec.replacement
  }

  /** What a lookup returns is, field by field, exactly one enabled row of the configuration. */
  lemma ResolvedRouteIsRow(specs: seq<HttpRouteSpec>, reserved: set<(Host, Path)>, host: Host, path: Path,
    r: Option<HttpRoute>) returns (i: nat)
    requires RowsOk(specs, reserved) && forall spec | spec in specs :: spec.host.Some?
    requires Resolved(TableAfter(specs), host, path, r) && r.Some?
    ensures i < |specs| && HoldsRow(r.value, specs[i]) && specs[i].host == Some(host)
    ensures forall j: nat | j < |specs| && HoldsRow(r.value, specs[j]) :: j == i
  {
    ResolvedIsBest(specs, reserved, host, path, r);
    if exists k: nat :: k < |specs| && ExactHit(specs[k], host, path) {
      i :| i < |specs| && ExactHit(specs[i], host, path) && r == Some(RouteOf(specs[i]));
    } else {
      i :| i < |specs| && PrefixHit(specs[i], host, path) && r.value == RouteOf(specs[i]);
    }
    forall j: nat | j < |specs| && HoldsRow(r.value, specs[j])
      ensures j == i
    {
      DistinctKeys(specs, reserved, i, j);
    }
  }

  lemma {:induction false} SplitJoin(a: seq<byte>, b: seq<byte>)
    ensures Split(a + [SLASH] + b) == Split(a) + Split(b)
    decreases |a|
  {
    var s := a + [SLASH] + b;
    if a == [] {
      assert s[1..] == b;
    } else {
      assert s[1..] == a[1..] + [SLASH] + b;
      SplitJoin(a[1..], b);
    }
  }

  /** What a route's suffix of a matched, accepted path can be: nothing, or a slash and more. */
  lemma SuffixShape(route: HttpRoute, path: Path)
    requires RouteOk(route) && Matches(route, path) && WellFormed(path)
    requires route.rewrite != Preserve
    ensures Suffix(path, route.path).Some?
    ensures var suffix := Suffix(path, route.path).value;
      && path == route.path + suffix
      && (suffix == [] || (suffix[0] == SLASH && route.pathMatch == Prefix))
  {
    if route.pathMatch == Prefix && route.path != path && route.path != ROOT {
      assert path[|route.path|] == (route.path + [SLASH])[|route.path|];
    }
  }

  /** The segments of a suffix are segments of the whole path. */
  lemma SuffixSegments(front: Path, suffix: Path)
    requires suffix != [] && suffix[0] == SLASH
    ensures forall segment | segment in Split(suffix) :: segment == [] || segment in Split(front + suffix)
  {
    assert suffix == [] + [SLASH] + suffix[1..];
    assert front + suffix == front + [SLASH] + suffix[1..];
    SplitJoin([], suffix[1..]);
    SplitJoin(front, suffix[1..]);
    assert Split([]) == [[]];
  }

  /** A well-formed path cut at a separator leaves a well-formed path. */
  lemma SuffixWellFormed(front: Path, suffix: Path)
    requires WellFormed(front + suffix) && suffix != [] && suffix[0] == SLASH
    ensures WellFormed(suffix)
  {
    var path, k := front + suffix, |front|;
    SuffixSegments(front, suffix);
    assert forall i | 0 <= i < |suffix| :: suffix[i] == path[k + i];
    forall i | 0 <= i < |suffix| && suffix[i] == PERCENT
      ensures EncodedAt(suffix, i)
    {
      assert EncodedAt(path, k + i);
    }
  }

  /** A new front that does not end in a separator can be put before such a suffix. */
  lemma JoinWellFormed(front: Path, suffix: Path)
    requires WellFormed(front) && !EndsInSlash(front)
    requires WellFormed(suffix)
    ensures WellFormed(front + suffix)
  {
    var path := front + suffix;
    assert suffix == [] + [SLASH] + suffix[1..];
    assert path == front + [SLASH] + suffix[1..];
    SplitJoin([], suffix[1..]);
    SplitJoin(front, suffix[1..]);
    assert Split([]) == [[]];
    forall segment | segment in Split(path)
      ensures !IsDotSegment(segment)
    {
      assert segment in Split(front) || segment in Split(suffix);
    }
    forall i | 0 <= i < |path| && path[i] == PERCENT
      ensures EncodedAt(path, i)
    {
      if i < |front| {
        assert EncodedAt(front, i);
      } else {
        assert EncodedAt(suffix, i - |front|);
      }
    }
  }

  lemma RootWellFormed()
    ensures WellFormed(ROOT)
  {
    assert ROOT[1..] == [];
    assert Split(ROOT) == [[], []];
  }

  /**
  Rewriting the path of a matched route never fails and yields a path that meets every rule but
  possibly the length limit; stripping and preserving meet that one too.
  */
  lemma RewriteKeepsRules(route: HttpRoute, path: Path)
    requires RouteOk(route) && Matches(route, path) && ValidPath(path)
    ensures RewrittenPath(route, path).Ok?
    ensures WellFormed(RewrittenPath(route, path).value)
    ensures route.rewrite != ReplacePrefix ==> ValidPath(RewrittenPath(route, path).value)
  {
    if route.rewrite != Preserve {
      SuffixShape(route, path);
      var suffix := Suffix(path, route.path).value;
      RootWellFormed();
      if suffix != [] {
        SuffixWellFormed(route.path, suffix);
      }
      if route.rewrite == ReplacePrefix {
        if suffix == [] {
          assert route.replacement.value + suffix == route.replacement.value;
        } else {
          JoinWellFormed(route.replacement.value, suffix);
        }
      } else {
        assert [] + suffix == suffix;
      }
    }
  }

  /** Only the length limit can fail: a replacement may be longer than the prefix it replaces. */
  lemma RewrittenLength(route: HttpRoute, path: Path)
    requires RouteOk(route) && Matches(route, path) && ValidPath(path) && route.rewrite == ReplacePrefix
    ensures RewrittenPath(route, path).Ok?
    ensures ValidPath(RewrittenPath(route, path).value) <==>
      |path| - |route.path| + |route.replacement.value| <= MAX_PATH_BYTES
  {
    RewriteKeepsRules(route, path);
    SuffixShape(route, path);
  }

  /** A segment of so many letters. */
  function Letters(n: nat): seq<byte> {
    seq(n, i => 97)
  }

  lemma LettersValid(n: nat)
    requires 1 <= n < MAX_PATH_BYTES
    ensures ValidPath([SLASH] + Letters(n))
  {
    var path := [SLASH] + Letters(n);
    assert path[1..] == Letters(n);
    SplitWithoutSlash(Letters(n));
    assert Split(path) == [[], Letters(n)];
    assert Letters(n)[0] == 97;
  }

  /** A route for `/a` that replaces it by `/aa`. */
  const DOUBLING: HttpRouteSpec :=
    HttpRouteSpec("doubling", true, Some([97]), [SLASH, 97], Prefix, ReplacePrefix, Some([SLASH, 97, 97]), true, true)

  /** The limit can be passed: an accepted table sends a valid path to a target of more than 8192 bytes. */
  lemma RewriteCanOverflow() returns (path: Path, route: HttpRoute)
    ensures RowsOk([DOUBLING], {}) && DOUBLING.host == Some([97])
    ensures ValidPath(path)
    ensures Resolved(TableAfter([DOUBLING]), [97], path, Some(route))
    ensures RewrittenPath(route, path).Ok? && WellFormed(RewrittenPath(route, path).value)
    ensures |RewrittenPath(route, path).value| == MAX_PATH_BYTES + 1
  {
    var specs := [DOUBLING];
    route := RouteOf(DOUBLING);
    path := [SLASH, 97] + ([SLASH] + Letters(MAX_PATH_BYTES - 3));
    DoublingAccepted();
    LettersValid(MAX_PATH_BYTES - 3);
    assert Letters(1) == [97];
    LettersValid(1);
    assert [SLASH] + Letters(1) == [SLASH, 97];
    JoinWellFormed([SLASH, 97], [SLASH] + Letters(MAX_PATH_BYTES - 3));
    DoublingResolves(path);
    ResolvedRouteMatches(specs, {}, [97], path, Some(route));
    RewriteKeepsRules(route, path);
    SuffixShape(route, path);
  }

  lemma DoublingAccepted()
    ensures RowsOk([DOUBLING], {})
  {
    LettersValid(1);
    LettersValid(2);
    assert [SLASH] + Letters(1) == [SLASH, 97] && [SLASH] + Letters(2) == [SLASH, 97, 97];
    assert RowError([DOUBLING], 0, {}).None?;
  }

  lemma DoublingResolves(path: Path)
    requires [SLASH, 97, SLASH] <= path
    ensures Resolved(TableAfter([DOUBLING]), [97], path, Some(RouteOf(DOUBLING)))
  {
    var specs := [DOUBLING];
    var table := TableAfter(specs);
    assert specs[..|specs| - 1] == [] && TableAfter([]) == map[];
    assert specs[|specs| - 1].enabled;
    assert table == Insert(map[], RouteOf(DOUBLING));
    assert Covers([SLASH, 97], path);
    assert PrefixAt(table, [97], [SLASH, 97]) == Some(RouteOf(DOUBLING));
  }

  /** `replace_prefix` sends different paths to different targets. */
  lemma ReplaceIsInjective(route: HttpRoute, a: Path, b: Path)
    requires RouteOk(route) && route.rewrite == ReplacePrefix
    requires Matches(route, a) && WellFormed(a) && Matches(route, b) && WellFormed(b)
    requires RewrittenPath(route, a) == RewrittenPath(route, b)
    ensures a == b
  {
    SuffixShape(route, a);
    SuffixShape(route, b);
    var prefix := route.replacement.value;
    var x, y := Suffix(a, route.path).value, Suffix(b, route.path).value;
    assert (prefix + x)[|prefix|..] == x && (prefix + y)[|prefix|..] == y;
  }

  /** `strip_prefix` merges the prefix and the prefix with a slash, and nothing else. */
  lemma StripMergesOnlySlash(route: HttpRoute, a: Path, b: Path)
    requires RouteOk(route) && route.rewrite == StripPrefix
    requires Matches(route, a) && WellFormed(a) && Matches(route, b) && WellFormed(b)
    ensures RewrittenPath(route, a).Ok? && RewrittenPath(route, b).Ok?
    ensures RewrittenPath(route, a) == RewrittenPath(route, b) <==>
      || a == b
      || (a == route.path && b == route.path + ROOT)
      || (b == route.path && a == route.path + ROOT)
  {
    SuffixShape(route, a);
    SuffixShape(route, b);
    var x, y := Suffix(a, route.path).value, Suffix(b, route.path).value;
    assert [] + x == x && [] + y == y;
  }

  /** The query is carried over untouched and cannot be confused with the rewritten path. */
  lemma QueryPreserved(path: Path, query: Option<seq<byte>>, path2: Path, query2: Option<seq<byte>>)
    requires WellFormed(path) && WellFormed(path2)
    requires WithQuery(path, query) == WithQuery(path2, query2)
    ensures path == path2 && query == query2
  {
    var t := WithQuery(path, query);
    assert query.Some? ==> t[|path|] == QUESTION;
    assert query2.Some? ==> t[|path2|] == QUESTION;
    assert forall i | 0 <= i < |path| :: t[i] == path[i] && t[i] != QUESTION;
    assert forall i | 0 <= i < |path2| :: t[i] == path2[i] && t[i] != QUESTION;
    assert |path| == |path2|;
    assert path == t[..|path|] && path2 == t[..|path|];
    if query.Some? {
      assert t[|path| + 1..] == query.value && t[|path| + 1..] == query2.value;
    }
  }
}
