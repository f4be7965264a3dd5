/** Waypoint files: actions and waypoints to dictionaries and back, and what the loader accepts. */
module WaypointFiles {
  import opened Options
  import opened Yamls
  import opened StableSorts

  // ----- actions -----

  /** Fields hold whatever the file had: nothing but validate looks at their types. */
  datatype ActionConfig = ActionConfig(
    kind: Yaml,
    service: Yaml, srvModule: Yaml, srvClass: Yaml, request: Yaml,
    topic: Yaml, msgModule: Yaml, msgClass: Yaml, data: Yaml,
    localization: Yaml, planning: Yaml,
    countdownMs: Yaml,
    mode: Yaml)

  const NOTHING := Str("")
  const EMPTY := Dict([])

  /** An action of the kind with the default in every other field */
  function Blank(kind: Yaml): ActionConfig {
    ActionConfig(kind, NOTHING, NOTHING, NOTHING, EMPTY, NOTHING, NOTHING, NOTHING, EMPTY, NOTHING, NOTHING, Int(3000), Str("normal"))
  }

  function ToDict(a: ActionConfig): seq<(Yaml, Yaml)> {
    var d := [(Str("type"), a.kind)];
    if a.kind == Str("service") then
      d + [(Str("service"), a.service), (Str("srv_module"), a.srvModule), (Str("srv_class"), a.srvClass)]
        + if Truthy(a.request) then [(Str("request"), a.request)] else []
    else if a.kind == Str("publish") then
      d + [(Str("topic"), a.topic), (Str("msg_module"), a.msgModule), (Str("msg_class"), a.msgClass)]
        + if Truthy(a.data) then [(Str("data"), a.data)] else []
    else if a.kind == Str("load_map") then
      d + [(Str("localization"), a.localization), (Str("planning"), a.planning)]
    else if a.kind == Str("wait") then
      d + [(Str("countdown_ms"), a.countdownMs)]
    else if a.kind == Str("set_navigation_mode") then
      d + [(Str("mode"), a.mode)]
    else
      d
  }

  /** Fails only when there is no type. */
  function FromDict(d: seq<(Yaml, Yaml)>): Option<ActionConfig> {
    match Find(d, "type")
    case None => None
    case Some(kind) =>
      var a := Blank(kind);
      Some(
        if kind == Str("service") then
          a.(service := Get(d, "service", NOTHING), srvModule := Get(d, "srv_module", NOTHING),
             srvClass := Get(d, "srv_class", NOTHING), request := Get(d, "request", EMPTY))
        else if kind == Str("publish") then
          a.(topic := Get(d, "topic", NOTHING), msgModule := Get(d, "msg_module", NOTHING),
             msgClass := Get(d, "msg_class", NOTHING), data := Get(d, "data", EMPTY))
        else if kind == Str("load_map") then
          a.(localization := Get(d, "localization", NOTHING), planning := Get(d, "planning", NOTHING))
        else if kind == Str("wait") then
          a.(countdownMs := Get(d, "countdown_ms", Int(3000)))
        else if kind == Str("set_navigation_mode") then
          a.(mode := Get(d, "mode", Str("normal")))
        else
          a)
  }

  /** What the kind of the action gives no meaning to is at its default, and an empty request or data is an empty dict. */
  predicate Canonical(a: ActionConfig) {
    var b := Blank(a.kind);
    if a.kind == Str("service") then
      && (Truthy(a.request) || a.request == EMPTY)
      && a == b.(service := a.service, srvModule := a.srvModule, srvClass := a.srvClass, request := a.request)
    else if a.kind == Str("publish") then
      && (Truthy(a.data) || a.data == EMPTY)
      && a == b.(topic := a.topic, msgModule := a.msgModule, msgClass := a.msgClass, data := a.data)
    else if a.kind == Str("load_map") then
      a == b.(localization := a.localization, planning := a.planning)
    else if a.kind == Str("wait") then
      a == b.(countdownMs := a.countdownMs)
    else if a.kind == Str("set_navigation_mode") then
      a == b.(mode := a.mode)
    else
      a == b
  }

  const ACTION_TYPES: set<Yaml> := {
    Str("service"), Str("publish"), Str("load_map"), Str("amcl_reset"), Str("wait"), Str("wait_trigger"), Str("set_navigation_mode")}
  const NAVIGATION_MODES: set<Yaml> := {Str("normal"), Str("queue_wait")}

  /** The action passes validate; importable tells which module has which class. */
  predicate Validates(a: ActionConfig, importable: (Yaml, Yaml) -> bool) {
    && a.kind in ACTION_TYPES
    && (a.kind == Str("service") ==>
          Truthy(a.service) && Truthy(a.srvModule) && Truthy(a.srvClass) && importable(a.srvModule, a.srvClass))
    && (a.kind == Str("publish") ==>
          Truthy(a.topic) && Truthy(a.msgModule) && Truthy(a.msgClass) && importable(a.msgModule, a.msgClass))
    && (a.kind == Str("load_map") ==> Truthy(a.localization) || Truthy(a.planning))
    && (a.kind == Str("wait") ==> a.countdownMs.Bool? || (a.countdownMs.Int? && a.countdownMs.i >= 0))
    && (a.kind == Str("set_navigation_mode") ==> a.mode in NAVIGATION_MODES)
  }

  /** The action with nothing but what its kind gives a meaning to */
  function Normal(a: ActionConfig): ActionConfig {
    var b := Blank(a.kind);
    if a.kind == Str("service") then
      b.(service := a.service, srvModule := a.srvModule, srvClass := a.srvClass, request := if Truthy(a.request) then a.request else EMPTY)
    else if a.kind == Str("publish") then
      b.(topic := a.topic, msgModule := a.msgModule, msgClass := a.msgClass, data := if Truthy(a.data) then a.data else EMPTY)
    else if a.kind == Str("load_map") then
      b.(localization := a.localization, planning := a.planning)
    else if a.kind == Str("wait") then
      b.(countdownMs := a.countdownMs)
    else if a.kind == Str("set_navigation_mode") then
      b.(mode := a.mode)
    else
      b
  }

  /** A dict gives back what the kind gives a meaning to, and nothing else. */
  lemma RereadIsNormal(a: ActionConfig)
    ensures FromDict(ToDict(a)) == Some(Normal(a))
  {
    hide Find;
    var d := ToDict(a);
    FindAt(d, "type", 0);
    if a.kind == Str("service") {
      FindAt(d, "service", 1);
      FindAt(d, "srv_module", 2);
      FindAt(d, "srv_class", 3);
      if Truthy(a.request) {
        FindAt(d, "request", 4);
      } else {
        FindNone(d, "request");
      }
    } else if a.kind == Str("publish") {
      FindAt(d, "topic", 1);
      FindAt(d, "msg_module", 2);
      FindAt(d, "msg_class", 3);
      if Truthy(a.data) {
        FindAt(d, "data", 4);
      } else {
        FindNone(d, "data");
      }
    } else if a.kind == Str("load_map") {
      FindAt(d, "localization", 1);
      FindAt(d, "planning", 2);
    } else if a.kind == Str("wait") {
      FindAt(d, "countdown_ms", 1);
    } else if a.kind == Str("set_navigation_mode") {
      FindAt(d, "mode", 1);
    }
  }

  /** An action survives being saved and loaded exactly when it is canonical. */
  lemma ActionRoundTrip(a: ActionConfig)
    ensures FromDict(ToDict(a)) == Some(a) <==> Canonical(a)
  {
    RereadIsNormal(a);
  }

  /** Saving what was loaded writes the same dict, canonical or not. */
  lemma SavedAgain(a: ActionConfig)
    ensures ToDict(Normal(a)) == ToDict(a) && Canonical(Normal(a))
  {
  }

  lemma NormalValidates(a: ActionConfig, importable: (Yaml, Yaml) -> bool)
    ensures Validates(Normal(a), importable) <==> Validates(a, importable)
  {
  }

  // ----- waypoints -----

  datatype Pose = Pose(x: real, y: real, z: real, qx: real, qy: real, qz: real, qw: real)

  datatype NavigationConfig = NavigationConfig(reachTolerance: Yaml, throughTolerance: Yaml, isThroughPoint: Yaml)

  const DEFAULT_NAVIGATION := NavigationConfig(Float(0.5), Float(3.0), Bool(true))

  /** An index as the file spells it: any number that equals an integer will do. */
  datatype Index = Whole(n: int) | Decimal(n: int) | Truth(b: bool)

  function Value(i: Index): int {
    match i
    case Whole(n) => n
    case Decimal(n) => n
    case Truth(b) => if b then 1 else 0
  }

  datatype Waypoint = Waypoint(index: Index, pose: Pose, navigation: NavigationConfig, actions: seq<ActionConfig>)

  function IndexOf(w: Waypoint): int {
    Value(w.index)
  }

  function IndexYaml(i: Index): Yaml {
    match i
    case Whole(n) => Int(n)
    case Decimal(n) => Float(n as real)
    case Truth(b) => Bool(b)
  }

  function PositionDict(p: Pose): seq<(Yaml, Yaml)> {
    [(Str("x"), Float(p.x)), (Str("y"), Float(p.y)), (Str("z"), Float(p.z))]
  }

  function OrientationDict(p: Pose): seq<(Yaml, Yaml)> {
    [(Str("x"), Float(p.qx)), (Str("y"), Float(p.qy)), (Str("z"), Float(p.qz)), (Str("w"), Float(p.qw))]
  }

  function PoseDict(p: Pose): seq<(Yaml, Yaml)> {
    [(Str("position"), Dict(PositionDict(p))), (Str("orientation"), Dict(OrientationDict(p)))]
  }

  function NavigationDict(n: NavigationConfig): seq<(Yaml, Yaml)> {
    [(Str("reach_tolerance"), n.reachTolerance), (Str("through_tolerance"), n.throughTolerance), (Str("is_through_point"), n.isThroughPoint)]
  }

  function ActionDicts(actions: seq<ActionConfig>): seq<Yaml> {
    seq(|actions|, i requires 0 <= i < |actions| => Dict(ToDict(actions[i])))
  }

  function WaypointDict(w: Waypoint): seq<(Yaml, Yaml)> {
    [(Str("index"), IndexYaml(w.index)), (Str("pose"), Dict(PoseDict(w.pose))), (Str("navigation"), Dict(NavigationDict(w.navigation))),
     (Str("on_reached_actions"), List(ActionDicts(w.actions)))]
  }

  function WaypointDicts(ws: seq<Waypoint>): seq<Yaml> {
    seq(|ws|, i requires 0 <= i < |ws| => Dict(WaypointDict(ws[i])))
  }

  /** The document that the saver writes */
  function Saved(ws: seq<Waypoint>): Yaml {
    Dict([(Str("version"), Str("2.0")), (Str("waypoints"), List(WaypointDicts(ws)))])
  }

  // ----- the loader; None where it raises -----

  predicate OnlyKeys(d: seq<(Yaml, Yaml)>, keys: set<string>) {
    forall i :: 0 <= i < |d| ==> d[i].0.Str? && d[i].0.s in keys
  }

  /** A field of a message built from keyword arguments: a float, or the default of the message type */
  function Coordinate(d: seq<(Yaml, Yaml)>, key: string, otherwise: real): Option<real> {
    match Find(d, key)
    case None => Some(otherwise)
    case Some(v) => if v.Float? then Some(v.r) else None
  }

  /** Whatever z the file has, it becomes 1. */
  function ParsePose(raw: Yaml): Option<Pose> {
    if !raw.Dict? then None
    else
      var position, orientation := Get(raw.entries, "position", Null), Get(raw.entries, "orientation", Null);
      if !position.Dict? || !orientation.Dict? then None
      else
        var p, o := position.entries, orientation.entries;
        var x, y, z := Coordinate(p, "x", 0.0), Coordinate(p, "y", 0.0), Coordinate(p, "z", 0.0);
        var qx, qy, qz, qw := Coordinate(o, "x", 0.0), Coordinate(o, "y", 0.0), Coordinate(o, "z", 0.0), Coordinate(o, "w", 1.0);
        if && OnlyKeys(p, {"x", "y", "z"}) && OnlyKeys(o, {"x", "y", "z", "w"})
           && Find(p, "x").Some? && Find(p, "y").Some?
           && x.Some? && y.Some? && z.Some? && qx.Some? && qy.Some? && qz.Some? && qw.Some?
        then Some(Pose(x.value, y.value, 1.0, qx.value, qy.value, qz.value, qw.value))
        else None
  }

  function ParseNavigation(raw: Yaml, otherwise: NavigationConfig): Option<NavigationConfig> {
    if !raw.Dict? then None
    else
      var d := raw.entries;
      Some(NavigationConfig(
        Get(d, "reach_tolerance", otherwise.reachTolerance),
        Get(d, "through_tolerance", otherwise.throughTolerance),
        Get(d, "is_through_point", otherwise.isThroughPoint)))
  }

  function ParseActions(raws: seq<Yaml>, importable: (Yaml, Yaml) -> bool): Option<seq<ActionConfig>> {
    if raws == [] then Some([])
    else if !raws[0].Dict? then None
    else
      var a, rest := FromDict(raws[0].entries), ParseActions(raws[1..], importable);
      if a.Some? && Validates(a.value, importable) && rest.Some? then Some([a.value] + rest.value) else None
  }

  /** With an index that equals no integer the loader raises in the end. */
  function ParseIndex(raw: Yaml): Option<Index> {
    match raw
    case Int(i) => Some(Whole(i))
    case Float(r) => if r.Floor as real == r then Some(Decimal(r.Floor)) else None
    case Bool(b) => Some(Truth(b))
    case _ => None
  }

  function ParseWaypoint(raw: Yaml, otherwise: NavigationConfig, importable: (Yaml, Yaml) -> bool): Option<Waypoint> {
    if !raw.Dict? then None
    else
      var d := raw.entries;
      var navigation := ParseNavigation(Get(d, "navigation", EMPTY), otherwise);
      var pose := ParsePose(Get(d, "pose", Null));
      var index := ParseIndex(Get(d, "index", Null));
      var raws := Iterate(Get(d, "on_reached_actions", List([])));
      var actions := if raws.Some? then ParseActions(raws.value, importable) else None;
      if navigation.Some? && pose.Some? && index.Some? && actions.Some?
      then Some(Waypoint(index.value, pose.value, navigation.value, actions.value))
      else None
  }

  function ParseWaypoints(raws: seq<Yaml>, otherwise: NavigationConfig, importable: (Yaml, Yaml) -> bool): Option<seq<Waypoint>> {
    if raws == [] then Some([])
    else
      var init, w := ParseWaypoints(raws[..|raws| - 1], otherwise, importable), ParseWaypoint(raws[|raws| - 1], otherwise, importable);
      if init.Some? && w.Some? then Some(init.value + [w.value]) else None
  }

  /** Index equal to position */
  predicate InOrder(ws: seq<Waypoint>) {
    forall i :: 0 <= i < |ws| ==> IndexOf(ws[i]) == i
  }

  /** A through point has to have a tolerance that a distance can be compared with. */
  predicate Comparable(w: Waypoint) {
    Truthy(w.navigation.isThroughPoint) ==> Number(w.navigation.throughTolerance).Some?
  }

  /** The first waypoint is compared with none before it. */
  predicate AllComparable(ws: seq<Waypoint>) {
    forall i :: 0 < i < |ws| ==> Comparable(ws[i])
  }

  /** What loading the document gives */
  function Loaded(raw: Yaml, importable: (Yaml, Yaml) -> bool): Option<seq<Waypoint>> {
    if !(raw.Dict? && Find(raw.entries, "version") == Some(Str("2.0"))) then None
    else
      var defaults := ParseNavigation(Get(raw.entries, "defaults", EMPTY), DEFAULT_NAVIGATION);
      var raws := Iterate(Get(raw.entries, "waypoints", List([])));
      if defaults.None? || raws.None? then None
      else
        var ws := ParseWaypoints(raws.value, defaults.value, importable);
        if ws.Some? && InOrder(Sort(IndexOf, ws.value)) && AllComparable(Sort(IndexOf, ws.value))
        then Some(Sort(IndexOf, ws.value)) else None
  }

  method Load(raw: Yaml, importable: (Yaml, Yaml) -> bool) returns (loaded: Option<seq<Waypoint>>)
    ensures loaded == Loaded(raw, importable)
  {
    hide Find, Get, ParseNavigation, ParseWaypoint, Iterate, Sort, InOrder, AllComparable, Warnings;
    if !(raw.Dict? && Find(raw.entries, "version") == Some(Str("2.0"))) {
      return None;
    }
    var defaults := ParseNavigation(Get(raw.entries, "defaults", EMPTY), DEFAULT_NAVIGATION);
    var raws := Iterate(Get(raw.entries, "waypoints", List([])));
    if defaults.None? || raws.None? {
      return None;
    }
    var waypoints: seq<Waypoint> := [];
    for i := 0 to |raws.value|
      invariant ParseWaypoints(raws.value[..i], defaults.value, importable) == Some(waypoints)
    {
      var w := ParseWaypoint(raws.value[i], defaults.value, importable);
      assert raws.value[..i + 1][..i] == raws.value[..i];
      if w.None? {
        PrefixFails(raws.value, i + 1, defaults.value, importable);
        return None;
      }
      waypoints := waypoints + [w.value];
    }
    assert raws.value[..|raws.value|] == raws.value;
    waypoints := Sort(IndexOf, waypoints);
    var valid := ValidateIndices(waypoints);
    if !valid {
      return None;
    }
    var warnings := CollectWarnings(waypoints);
    WarningsExact(waypoints);
    return if warnings.Some? then Some(waypoints) else None;
  }

  /** The indices are those of range(len). */
  method ValidateIndices(ws: seq<Waypoint>) returns (valid: bool)
    ensures valid == InOrder(ws)
  {
    for i := 0 to |ws|
      invariant InOrder(ws[..i])
    {
      if IndexOf(ws[i]) != i {
        return false;
      }
    }
    assert ws[..|ws|] == ws;
    return true;
  }

  // ----- warnings -----

  datatype Warning = TooClose(at: nat) | ActsOnTheWay(at: nat) | EndsOnTheWay(at: nat)

  /** The distance in the plane is below the tolerance. */
  predicate Within(p: Pose, q: Pose, tolerance: real) {
    tolerance > 0.0 && (q.x - p.x) * (q.x - p.x) + (q.y - p.y) * (q.y - p.y) < tolerance * tolerance
  }

  predicate Crowds(ws: seq<Waypoint>, i: nat)
    requires i < |ws|
  {
    && i > 0 && Number(ws[i].navigation.throughTolerance).Some?
    && Within(ws[i - 1].pose, ws[i].pose, Number(ws[i].navigation.throughTolerance).value)
  }

  /** What is wrong with the waypoint at i, unless the comparison raises */
  function WarningsAt(ws: seq<Waypoint>, i: nat): Option<seq<Warning>>
    requires i < |ws|
  {
    if !Truthy(ws[i].navigation.isThroughPoint) then Some([])
    else if i > 0 && Number(ws[i].navigation.throughTolerance).None? then None
    else
      Some((if Crowds(ws, i) then [TooClose(i)] else []) +
           (if ws[i].actions != [] then [ActsOnTheWay(i)] else []) +
           (if i == |ws| - 1 then [EndsOnTheWay(i)] else []))
  }

  function Warnings(ws: seq<Waypoint>, n: nat): Option<seq<Warning>>
    requires n <= |ws|
  {
    if n == 0 then Some([])
    else
      var init, last := Warnings(ws, n - 1), WarningsAt(ws, n - 1);
      if init.Some? && last.Some? then Some(init.value + last.value) else None
  }

  method CollectWarnings(ws: seq<Waypoint>) returns (warnings: Option<seq<Warning>>)
    ensures warnings == Warnings(ws, |ws|)
  {
    var collected: seq<Warning> := [];
    for i := 0 to |ws|
      invariant Warnings(ws, i) == Some(collected)
    {
      var w := WarningsAt(ws, i);
      if w.None? {
        WarningsFail(ws, i + 1, |ws|);
        return None;
      }
      collected := collected + w.value;
    }
    return Some(collected);
  }

  lemma {:induction false} WarningsFail(ws: seq<Waypoint>, i: nat, n: nat)
    requires i <= n <= |ws| && Warnings(ws, i).None?
    ensures Warnings(ws, n).None?
  {
    if i < n {
      WarningsFail(ws, i, n - 1);
    }
  }

  lemma {:induction false} WarningsUpTo(ws: seq<Waypoint>, n: nat)
    requires n <= |ws|
    ensures Warnings(ws, n).Some? <==> forall i :: 0 < i < n ==> Comparable(ws[i])
    ensures Warnings(ws, n) == Some([]) <==> forall i :: 0 <= i < n ==> WarningsAt(ws, i) == Some([])
  {
    if n > 0 {
      WarningsUpTo(ws, n - 1);
      var init, last := Warnings(ws, n - 1), WarningsAt(ws, n - 1);
      hide WarningsAt;
      if init.Some? && last.Some? {
        assert init.value + last.value == [] <==> init.value == [] && last.value == [];
      }
    }
  }

  lemma NothingToWarnOf(ws: seq<Waypoint>, i: nat)
    requires i < |ws|
    ensures WarningsAt(ws, i) == Some([]) <==>
      (Truthy(ws[i].navigation.isThroughPoint) ==>
         (i > 0 ==> Comparable(ws[i])) && i < |ws| - 1 && ws[i].actions == [] && !Crowds(ws, i))
  {
    hide Crowds, Truthy, Number;
  }

  /** Collecting raises exactly when a later through point has a tolerance that is no number; and there is nothing
      to warn of exactly when no through point is last, has actions, or is within its tolerance of its predecessor. */
  lemma WarningsExact(ws: seq<Waypoint>)
    ensures Warnings(ws, |ws|).Some? <==> AllComparable(ws)
    ensures Warnings(ws, |ws|) == Some([]) <==>
      AllComparable(ws) && forall i :: 0 <= i < |ws| && Truthy(ws[i].navigation.isThroughPoint) ==>
        i < |ws| - 1 && ws[i].actions == [] && !Crowds(ws, i)
  {
    hide Warnings, WarningsAt, Crowds, Comparable;
    WarningsUpTo(ws, |ws|);
    forall i | 0 <= i < |ws|
      ensures WarningsAt(ws, i) == Some([]) <==>
        (Truthy(ws[i].navigation.isThroughPoint) ==>
           (i > 0 ==> Comparable(ws[i])) && i < |ws| - 1 && ws[i].actions == [] && !Crowds(ws, i))
    {
      NothingToWarnOf(ws, i);
    }
    forall i | 0 <= i < |ws| && !Truthy(ws[i].navigation.isThroughPoint)
      ensures Comparable(ws[i])
    {
      OnlyThroughPoints(ws[i]);
    }
  }

  /** Squared distance in the plane */
  function Distance2(p: Pose, q: Pose): real {
    (q.x - p.x) * (q.x - p.x) + (q.y - p.y) * (q.y - p.y)
  }

  /** What is warned of at a waypoint: only a through point is; and it is if it is closer to its predecessor than its
      tolerance, if it has actions, or if it is the last. */
  lemma WarnedExactly(ws: seq<Waypoint>, i: nat, w: Warning)
    requires i < |ws| && WarningsAt(ws, i).Some?
    ensures w in WarningsAt(ws, i).value <==>
      && Truthy(ws[i].navigation.isThroughPoint) && w.at == i
      && match w
         case TooClose(_) =>
           i > 0 && var r := Number(ws[i].navigation.throughTolerance);
                    r.Some? && 0.0 < r.value && Distance2(ws[i - 1].pose, ws[i].pose) < r.value * r.value
         case ActsOnTheWay(_) => ws[i].actions != []
         case EndsOnTheWay(_) => i == |ws| - 1
  {
    hide Truthy, Number;
  }

  lemma OnlyThroughPoints(w: Waypoint)
    ensures !Truthy(w.navigation.isThroughPoint) ==> Comparable(w)
  {
  }

  lemma {:induction false} PrefixFails(raws: seq<Yaml>, i: nat, otherwise: NavigationConfig, importable: (Yaml, Yaml) -> bool)
    requires i <= |raws| && ParseWaypoints(raws[..i], otherwise, importable).None?
    ensures ParseWaypoints(raws, otherwise, importable).None?
  {
    if i == |raws| {
      assert raws[..i] == raws;
    } else {
      assert raws[..|raws| - 1][..i] == raws[..i];
      PrefixFails(raws[..|raws| - 1], i, otherwise, importable);
    }
  }

  // ----- saved and loaded -----

  function NormalActions(actions: seq<ActionConfig>): seq<ActionConfig> {
    seq(|actions|, i requires 0 <= i < |actions| => Normal(actions[i]))
  }

  /** The waypoint with z at 1 and its actions normal */
  function Reread(w: Waypoint): Waypoint {
    w.(pose := w.pose.(z := 1.0), actions := NormalActions(w.actions))
  }

  function RereadAll(ws: seq<Waypoint>): seq<Waypoint> {
    seq(|ws|, i requires 0 <= i < |ws| => Reread(ws[i]))
  }

  predicate Performable(w: Waypoint, importable: (Yaml, Yaml) -> bool) {
    forall i :: 0 <= i < |w.actions| ==> Validates(w.actions[i], importable)
  }

  lemma {:induction false} ActionsReread(actions: seq<ActionConfig>, importable: (Yaml, Yaml) -> bool)
    ensures ParseActions(ActionDicts(actions), importable) ==
      if forall i :: 0 <= i < |actions| ==> Validates(actions[i], importable) then Some(NormalActions(actions)) else None
  {
    hide Validates, FromDict, ToDict, Normal;
    if actions != [] {
      var rest := actions[1..];
      ActionsReread(rest, importable);
      assert ActionDicts(actions)[1..] == ActionDicts(rest);
      RereadIsNormal(actions[0]);
      NormalValidates(actions[0], importable);
      assert NormalActions(actions) == [Normal(actions[0])] + NormalActions(rest);
      assert forall i :: 0 <= i < |rest| ==> rest[i] == actions[i + 1];
      assert forall i :: 0 < i < |actions| ==> actions[i] == rest[i - 1];
    }
  }

  lemma PoseReread(p: Pose)
    ensures ParsePose(Dict(PoseDict(p))) == Some(p.(z := 1.0))
  {
    hide Find;
    FindAt(PoseDict(p), "position", 0);
    FindAt(PoseDict(p), "orientation", 1);
    FindAt(PositionDict(p), "x", 0);
    FindAt(PositionDict(p), "y", 1);
    FindAt(PositionDict(p), "z", 2);
    FindAt(OrientationDict(p), "x", 0);
    FindAt(OrientationDict(p), "y", 1);
    FindAt(OrientationDict(p), "z", 2);
    FindAt(OrientationDict(p), "w", 3);
  }

  lemma NavigationReread(n: NavigationConfig, otherwise: NavigationConfig)
    ensures ParseNavigation(Dict(NavigationDict(n)), otherwise) == Some(n)
  {
    hide Find;
    FindAt(NavigationDict(n), "reach_tolerance", 0);
    FindAt(NavigationDict(n), "through_tolerance", 1);
    FindAt(NavigationDict(n), "is_through_point", 2);
  }

  lemma WaypointReread(w: Waypoint, otherwise: NavigationConfig, importable: (Yaml, Yaml) -> bool)
    ensures ParseWaypoint(Dict(WaypointDict(w)), otherwise, importable) == if Performable(w, importable) then Some(Reread(w)) else None
  {
    hide Find, ParsePose, ParseNavigation, ParseActions, PoseDict, NavigationDict, ActionDicts, Validates;
    var d := WaypointDict(w);
    FindAt(d, "index", 0);
    FindAt(d, "pose", 1);
    FindAt(d, "navigation", 2);
    FindAt(d, "on_reached_actions", 3);
    PoseReread(w.pose);
    NavigationReread(w.navigation, otherwise);
    ActionsReread(w.actions, importable);
    assert ParseIndex(IndexYaml(w.index)) == Some(w.index);
  }

  lemma {:induction false} WaypointsReread(ws: seq<Waypoint>, otherwise: NavigationConfig, importable: (Yaml, Yaml) -> bool)
    ensures ParseWaypoints(WaypointDicts(ws), otherwise, importable) ==
      if forall i :: 0 <= i < |ws| ==> Performable(ws[i], importable) then Some(RereadAll(ws)) else None
  {
    hide ParseWaypoint, WaypointDict, Reread, Performable;
    if ws != [] {
      var init, w := ws[..|ws| - 1], ws[|ws| - 1];
      WaypointsReread(init, otherwise, importable);
      WaypointReread(w, otherwise, importable);
      assert WaypointDicts(ws)[..|ws| - 1] == WaypointDicts(init);
      assert RereadAll(ws) == RereadAll(init) + [Reread(w)];
    }
  }

  // ----- which indices sort into the positions -----

  function Indices(ws: seq<Waypoint>): seq<int> {
    seq(|ws|, i requires 0 <= i < |ws| => IndexOf(ws[i]))
  }

  function Range(n: nat): seq<int> {
    seq(n, i => i)
  }

  /** The indices are 0 up to the length, in any order. */
  ghost predicate Numbered(ws: seq<Waypoint>) {
    multiset(Indices(ws)) == multiset(Range(|ws|))
  }

  lemma IndicesCons(w: Waypoint, ws: seq<Waypoint>)
    ensures multiset(Indices([w] + ws)) == multiset{IndexOf(w)} + multiset(Indices(ws))
  {
    assert Indices([w] + ws) == [IndexOf(w)] + Indices(ws);
  }

  lemma {:induction false} InsertIndices(w: Waypoint, ws: seq<Waypoint>)
    ensures multiset(Indices(Insert(IndexOf, w, ws))) == multiset(Indices(ws)) + multiset{IndexOf(w)}
  {
    IndicesCons(w, []);
    if ws == [] {
      assert [w] + [] == [w];
    } else {
      InsertIndices(w, ws[1..]);
      HeadTail(ws);
      hide Indices;
      IndicesCons(ws[0], ws[1..]);
      IndicesCons(ws[0], Insert(IndexOf, w, ws[1..]));
      IndicesCons(w, ws);
    }
  }

  lemma {:induction false} SortIndices(ws: seq<Waypoint>)
    ensures multiset(Indices(Sort(IndexOf, ws))) == multiset(Indices(ws))
  {
    if ws != [] {
      var init, w := ws[..|ws| - 1], ws[|ws| - 1];
      SortIndices(init);
      InsertIndices(w, Sort(IndexOf, init));
      IndicesSnoc(init, w);
      assert ws == init + [w];
      hide Indices, Insert;
    }
  }

  lemma IndicesSnoc(ws: seq<Waypoint>, w: Waypoint)
    ensures multiset(Indices(ws + [w])) == multiset(Indices(ws)) + multiset{IndexOf(w)}
  {
    assert Indices(ws + [w]) == Indices(ws) + [IndexOf(w)];
  }

  lemma SortLength(ws: seq<Waypoint>)
    ensures |Sort(IndexOf, ws)| == |ws|
  {
    SortIsStable(IndexOf, ws);
    assert |multiset(Sort(IndexOf, ws))| == |multiset(ws)|;
  }

  lemma CutLast(s: seq<int>, t: seq<int>, x: int)
    requires multiset(s + [x]) == multiset(t + [x])
    ensures multiset(s) == multiset(t)
  {
    assert multiset(s) == multiset(s + [x]) - multiset{x};
    assert multiset(t) == multiset(t + [x]) - multiset{x};
  }

  /** An ascending list with the elements of the range is the range. */
  lemma {:induction false} AscendingRange(s: seq<int>, n: nat)
    requires multiset(s) == multiset(Range(n)) && |s| == n
    requires forall i, j :: 0 <= i < j < |s| ==> s[i] <= s[j]
    ensures s == Range(n)
  {
    if n > 0 {
      var init, last := s[..n - 1], s[n - 1];
      assert s == init + [last];
      assert Range(n) == Range(n - 1) + [n - 1];
      LastOfRange(s, n);
      CutLast(init, Range(n - 1), last);
      AscendingRange(init, n - 1);
    }
  }

  lemma LastOfRange(s: seq<int>, n: nat)
    requires multiset(s) == multiset(Range(n)) && |s| == n > 0
    requires forall i, j :: 0 <= i < j < |s| ==> s[i] <= s[j]
    ensures s[n - 1] == n - 1
  {
    assert s[n - 1] in multiset(s) && Range(n)[n - 1] in multiset(Range(n));
    assert s[n - 1] in Range(n) && n - 1 in s;
  }

  lemma SortedIsNumbered(ws: seq<Waypoint>)
    ensures InOrder(Sort(IndexOf, ws)) <==> Numbered(ws)
  {
    hide Sort;
    var r := Sort(IndexOf, ws);
    SortIndices(ws);
    SortLength(ws);
    SortIsStable(IndexOf, ws);
    if Numbered(ws) {
      AscendingRange(Indices(r), |ws|);
      forall i | 0 <= i < |r|
        ensures IndexOf(r[i]) == i
      {
        assert Indices(r)[i] == Range(|ws|)[i];
      }
    }
    if InOrder(r) {
      assert Indices(r) == Range(|ws|);
    }
  }

  /** The waypoint is not first, and it cannot be compared. */
  predicate Spoils(w: Waypoint) {
    IndexOf(w) != 0 && !Comparable(w)
  }

  lemma SpoilsLater(ws: seq<Waypoint>)
    requires InOrder(Sort(IndexOf, ws))
    ensures AllComparable(Sort(IndexOf, ws)) <==> forall i :: 0 <= i < |ws| ==> !Spoils(ws[i])
  {
    hide Sort, Comparable;
    var r := Sort(IndexOf, ws);
    SortIsStable(IndexOf, ws);
    if AllComparable(r) {
      forall i | 0 <= i < |ws|
        ensures !Spoils(ws[i])
      {
        SameMembers(ws, r, i);
      }
    } else {
      var j :| 0 < j < |r| && !Comparable(r[j]);
      assert Spoils(r[j]);
      SameMembers(r, ws, j);
    }
  }

  lemma SameMembers(s: seq<Waypoint>, t: seq<Waypoint>, i: nat)
    requires multiset(s) == multiset(t) && i < |s|
    ensures exists j :: 0 <= j < |t| && t[j] == s[i]
  {
    assert s[i] in multiset(s);
    assert s[i] in multiset(t);
  }

  /** A list is loaded back exactly when its actions all validate, its indices are 0 up to its length in some order,
      and none but the first of them is a through point with a tolerance that is no number; and then it comes
      back sorted, with z at 1 and the actions normal. */
  lemma LoadOfSaved(ws: seq<Waypoint>, importable: (Yaml, Yaml) -> bool)
    ensures Loaded(Saved(ws), importable) ==
      if && (forall i :: 0 <= i < |ws| ==> Performable(ws[i], importable))
         && Numbered(ws) && (forall i :: 0 <= i < |ws| ==> !Spoils(ws[i]))
      then Some(Sort(IndexOf, RereadAll(ws))) else None
  {
    LoadParsesSaved(ws, importable);
    RereadNumbers(ws);
    hide Loaded, Saved, Performable, RereadAll, Sort, InOrder, AllComparable, Spoils, Numbered;
    var r := RereadAll(ws);
    SortedIsNumbered(r);
    if InOrder(Sort(IndexOf, r)) {
      SpoilsLater(r);
    }
  }

  lemma RereadNumbers(ws: seq<Waypoint>)
    ensures Numbered(RereadAll(ws)) <==> Numbered(ws)
    ensures |RereadAll(ws)| == |ws| && forall i :: 0 <= i < |ws| ==> Spoils(RereadAll(ws)[i]) == Spoils(ws[i])
  {
    assert Indices(RereadAll(ws)) == Indices(ws);
  }

  lemma LoadParsesSaved(ws: seq<Waypoint>, importable: (Yaml, Yaml) -> bool)
    ensures var r := Sort(IndexOf, RereadAll(ws));
            Loaded(Saved(ws), importable) ==
              if (forall i :: 0 <= i < |ws| ==> Performable(ws[i], importable)) && InOrder(r) && AllComparable(r) then Some(r) else None
  {
    hide Find, ParseWaypoints, Performable, WaypointDicts, RereadAll, Sort, InOrder, AllComparable;
    var d := Saved(ws).entries;
    FindAt(d, "version", 0);
    FindAt(d, "waypoints", 1);
    FindNone(d, "defaults");
    assert ParseNavigation(EMPTY, DEFAULT_NAVIGATION) == Some(DEFAULT_NAVIGATION) by {
      FindNone([], "reach_tolerance");
      FindNone([], "through_tolerance");
      FindNone([], "is_through_point");
    }
    WaypointsReread(ws, DEFAULT_NAVIGATION, importable);
  }

  /** The waypoint comes back as it is but for z. */
  predicate KeepsActions(w: Waypoint) {
    forall i :: 0 <= i < |w.actions| ==> Canonical(w.actions[i])
  }

  lemma RereadKeeps(w: Waypoint)
    ensures Reread(w) == w.(pose := w.pose.(z := 1.0)) <==> KeepsActions(w)
  {
    hide Canonical, Normal;
    forall i | 0 <= i < |w.actions|
      ensures Normal(w.actions[i]) == w.actions[i] <==> Canonical(w.actions[i])
    {
      NormalIsCanonical(w.actions[i]);
    }
    if NormalActions(w.actions) == w.actions {
      assert forall i :: 0 <= i < |w.actions| ==> w.actions[i] == NormalActions(w.actions)[i] == Normal(w.actions[i]);
    }
  }

  lemma NormalIsCanonical(a: ActionConfig)
    ensures Normal(a) == a <==> Canonical(a)
  {
  }

  /** A list whose indices are its positions is loaded back, waypoint by waypoint, exactly when its actions
      validate and none but the first waypoint is a through point with a tolerance that is no number. */
  lemma InOrderLoads(ws: seq<Waypoint>, importable: (Yaml, Yaml) -> bool)
    requires InOrder(ws)
    ensures Loaded(Saved(ws), importable) ==
      if (forall i :: 0 <= i < |ws| ==> Performable(ws[i], importable)) && AllComparable(ws) then Some(RereadAll(ws)) else None
    ensures forall i :: 0 <= i < |ws| ==>
      (RereadAll(ws)[i] == ws[i].(pose := ws[i].pose.(z := 1.0)) <==> KeepsActions(ws[i]))
  {
    hide Performable, Loaded, Saved, KeepsActions, Comparable;
    LoadParsesSaved(ws, importable);
    SortOfSorted(IndexOf, RereadAll(ws));
    RereadCompares(ws);
    forall i | 0 <= i < |ws|
      ensures RereadAll(ws)[i] == ws[i].(pose := ws[i].pose.(z := 1.0)) <==> KeepsActions(ws[i])
    {
      RereadKeeps(ws[i]);
    }
  }

  lemma RereadCompares(ws: seq<Waypoint>)
    ensures AllComparable(RereadAll(ws)) <==> AllComparable(ws)
  {
    assert forall i :: 0 <= i < |ws| ==> Comparable(RereadAll(ws)[i]) == Comparable(ws[i]);
  }

  lemma {:induction false} ParsedActionsValidate(raws: seq<Yaml>, importable: (Yaml, Yaml) -> bool)
    requires ParseActions(raws, importable).Some?
    ensures forall i :: 0 <= i < |ParseActions(raws, importable).value| ==> Validates(ParseActions(raws, importable).value[i], importable)
  {
    hide Validates, FromDict;
    if raws != [] {
      ParsedActionsValidate(raws[1..], importable);
    }
  }

  lemma ParsedIsPerformable(raw: Yaml, otherwise: NavigationConfig, importable: (Yaml, Yaml) -> bool)
    requires ParseWaypoint(raw, otherwise, importable).Some?
    ensures Performable(ParseWaypoint(raw, otherwise, importable).value, importable)
  {
    hide ParsePose, ParseNavigation, ParseIndex, Validates, Get;
    ParsedActionsValidate(Iterate(Get(raw.entries, "on_reached_actions", List([]))).value, importable);
  }

  lemma {:induction false} ParsedArePerformable(raws: seq<Yaml>, otherwise: NavigationConfig, importable: (Yaml, Yaml) -> bool)
    requires ParseWaypoints(raws, otherwise, importable).Some?
    ensures forall w :: w in ParseWaypoints(raws, otherwise, importable).value ==> Performable(w, importable)
  {
    hide ParseWaypoint, Performable;
    if raws != [] {
      ParsedArePerformable(raws[..|raws| - 1], otherwise, importable);
      ParsedIsPerformable(raws[|raws| - 1], otherwise, importable);
    }
  }

  lemma LoadedIsPerformable(raw: Yaml, importable: (Yaml, Yaml) -> bool)
    requires Loaded(raw, importable).Some?
    ensures var ws := Loaded(raw, importable).value;
            InOrder(ws) && AllComparable(ws) && forall i :: 0 <= i < |ws| ==> Performable(ws[i], importable)
  {
    hide ParseWaypoints, ParseNavigation, Sort, Performable, InOrder, AllComparable;
    var defaults := ParseNavigation(Get(raw.entries, "defaults", EMPTY), DEFAULT_NAVIGATION).value;
    var raws := Iterate(Get(raw.entries, "waypoints", List([]))).value;
    var ws := ParseWaypoints(raws, defaults, importable).value;
    ParsedArePerformable(raws, defaults, importable);
    SortIsStable(IndexOf, ws);
    forall i | 0 <= i < |Sort(IndexOf, ws)|
      ensures Performable(Sort(IndexOf, ws)[i], importable)
    {
      assert Sort(IndexOf, ws)[i] in multiset(ws);
    }
  }

  lemma RereadTwice(ws: seq<Waypoint>)
    ensures RereadAll(RereadAll(ws)) == RereadAll(ws)
  {
    hide Normal, Canonical;
    forall i | 0 <= i < |ws|
      ensures Reread(Reread(ws[i])) == Reread(ws[i])
    {
      forall j | 0 <= j < |ws[i].actions|
        ensures Normal(Normal(ws[i].actions[j])) == Normal(ws[i].actions[j])
      {
        SavedAgain(ws[i].actions[j]);
        NormalIsCanonical(Normal(ws[i].actions[j]));
      }
      assert NormalActions(NormalActions(ws[i].actions)) == NormalActions(ws[i].actions);
    }
  }

  /** Every document that loads can be loaded, saved and loaded again, and saving and loading once
      more changes nothing. */
  lemma LoadedStaysLoadable(raw: Yaml, importable: (Yaml, Yaml) -> bool)
    requires Loaded(raw, importable).Some?
    ensures var ws := Loaded(raw, importable).value;
            && Loaded(Saved(ws), importable) == Some(RereadAll(ws))
            && Loaded(Saved(RereadAll(ws)), importable) == Some(RereadAll(ws))
  {
    hide Loaded, Saved, Performable, RereadAll, InOrder, AllComparable;
    var ws := Loaded(raw, importable).value;
    LoadedIsPerformable(raw, importable);
    InOrderLoads(ws, importable);
    LoadedIsPerformable(Saved(ws), importable);
    InOrderLoads(RereadAll(ws), importable);
    RereadTwice(ws);
  }
}
