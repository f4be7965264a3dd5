/** What a loaded waypoint has, said of the document that it was loaded from. */
module WaypointContents {
  import opened Options
  import opened Yamls
  import opened StableSorts
  import opened WaypointFiles

  /** The value under a path of keys */
  function Under(v: Yaml, path: seq<string>): Option<Yaml>
    decreases |path|
  {
    if path == [] then Some(v)
    else if !v.Dict? then None
    else
      match Find(v.entries, path[0])
      case Some(w) => Under(w, path[1..])
      case None => None
  }

  lemma UnderOne(v: Yaml, k: string)
    ensures Under(v, [k]) == if v.Dict? then Find(v.entries, k) else None
  {
    assert [k][1..] == [];
  }

  lemma UnderTwo(v: Yaml, k: string, l: string)
    ensures Under(v, [k, l]) == if v.Dict? && Find(v.entries, k).Some? then Under(Find(v.entries, k).value, [l]) else None
  {
    assert [k, l][1..] == [l];
  }

  lemma UnderThree(v: Yaml, k: string, l: string, m: string)
    ensures Under(v, [k, l, m]) == if v.Dict? && Find(v.entries, k).Some? then Under(Find(v.entries, k).value, [l, m]) else None
  {
    assert [k, l, m][1..] == [l, m];
  }

  // ----- actions -----

  predicate TruthyAt(d: seq<(Yaml, Yaml)>, key: string) {
    Find(d, key).Some? && Truthy(Find(d, key).value)
  }

  predicate ImportableAt(d: seq<(Yaml, Yaml)>, module_: string, class_: string, importable: (Yaml, Yaml) -> bool) {
    Find(d, module_).Some? && Find(d, class_).Some? && importable(Find(d, module_).value, Find(d, class_).value)
  }

  /** What each type of action has to have in the file */
  predicate Describes(d: seq<(Yaml, Yaml)>, importable: (Yaml, Yaml) -> bool) {
    match Find(d, "type")
    case Some(Str(kind)) =>
      if kind == "service" then
        TruthyAt(d, "service") && TruthyAt(d, "srv_module") && TruthyAt(d, "srv_class") && ImportableAt(d, "srv_module", "srv_class", importable)
      else if kind == "publish" then
        TruthyAt(d, "topic") && TruthyAt(d, "msg_module") && TruthyAt(d, "msg_class") && ImportableAt(d, "msg_module", "msg_class", importable)
      else if kind == "load_map" then
        TruthyAt(d, "localization") || TruthyAt(d, "planning")
      else if kind == "wait" then
        (match Find(d, "countdown_ms")
         case None => true
         case Some(Int(ms)) => ms >= 0
         case Some(Bool(_)) => true
         case _ => false)
      else if kind == "set_navigation_mode" then
        Find(d, "mode") in {None, Some(Str("normal")), Some(Str("queue_wait"))}
      else
        kind == "amcl_reset" || kind == "wait_trigger"
    case _ => false
  }

  lemma DefaultIsFalsy(d: seq<(Yaml, Yaml)>, key: string)
    ensures Truthy(Get(d, key, NOTHING)) <==> TruthyAt(d, key)
    ensures TruthyAt(d, key) ==> Find(d, key) == Some(Get(d, key, NOTHING))
  {
  }

  lemma CallDescribed(d: seq<(Yaml, Yaml)>, importable: (Yaml, Yaml) -> bool)
    requires Find(d, "type") in {Some(Str("service")), Some(Str("publish"))}
    ensures Validates(FromDict(d).value, importable) <==> Describes(d, importable)
  {
    hide Find, Get, Truthy, TruthyAt;
    DefaultIsFalsy(d, "service");
    DefaultIsFalsy(d, "srv_module");
    DefaultIsFalsy(d, "srv_class");
    DefaultIsFalsy(d, "topic");
    DefaultIsFalsy(d, "msg_module");
    DefaultIsFalsy(d, "msg_class");
  }

  lemma OtherDescribed(d: seq<(Yaml, Yaml)>, importable: (Yaml, Yaml) -> bool)
    requires Find(d, "type").Some? && Find(d, "type") !in {Some(Str("service")), Some(Str("publish"))}
    ensures Validates(FromDict(d).value, importable) <==> Describes(d, importable)
  {
    hide Find, Get, Truthy, TruthyAt;
    DefaultIsFalsy(d, "localization");
    DefaultIsFalsy(d, "planning");
    GetIs(d, "countdown_ms", Int(3000));
    GetIs(d, "mode", Str("normal"));
  }

  /** An action is accepted exactly when the file describes it so. */
  lemma ActionLoadsExactly(d: seq<(Yaml, Yaml)>, importable: (Yaml, Yaml) -> bool)
    ensures FromDict(d).Some? && Validates(FromDict(d).value, importable) <==> Describes(d, importable)
  {
    hide Find, Validates, Get;
    if Find(d, "type") in {Some(Str("service")), Some(Str("publish"))} {
      CallDescribed(d, importable);
    } else if Find(d, "type").Some? {
      OtherDescribed(d, importable);
    }
  }

  /** The field has what the file has under the key, or its default. */
  predicate FieldFrom(d: seq<(Yaml, Yaml)>, key: string, otherwise: Yaml, v: Yaml) {
    match Find(d, key)
    case Some(w) => v == w
    case None => v == otherwise
  }

  /** The action has what its dict says. */
  predicate ActionFrom(d: seq<(Yaml, Yaml)>, a: ActionConfig) {
    && Find(d, "type") == Some(a.kind)
    && (a.kind == Str("service") ==>
          FieldFrom(d, "service", Str(""), a.service) && FieldFrom(d, "srv_module", Str(""), a.srvModule) &&
          FieldFrom(d, "srv_class", Str(""), a.srvClass) && FieldFrom(d, "request", Dict([]), a.request))
    && (a.kind == Str("publish") ==>
          FieldFrom(d, "topic", Str(""), a.topic) && FieldFrom(d, "msg_module", Str(""), a.msgModule) &&
          FieldFrom(d, "msg_class", Str(""), a.msgClass) && FieldFrom(d, "data", Dict([]), a.data))
    && (a.kind == Str("load_map") ==> FieldFrom(d, "localization", Str(""), a.localization) && FieldFrom(d, "planning", Str(""), a.planning))
    && (a.kind == Str("wait") ==> FieldFrom(d, "countdown_ms", Int(3000), a.countdownMs))
    && (a.kind == Str("set_navigation_mode") ==> FieldFrom(d, "mode", Str("normal"), a.mode))
  }

  lemma FieldRead(d: seq<(Yaml, Yaml)>, key: string, otherwise: Yaml)
    ensures FieldFrom(d, key, otherwise, Get(d, key, otherwise))
  {
  }

  lemma ActionRead(d: seq<(Yaml, Yaml)>)
    requires FromDict(d).Some?
    ensures ActionFrom(d, FromDict(d).value)
  {
    hide Find, Get, FieldFrom;
    FieldRead(d, "service", NOTHING);
    FieldRead(d, "srv_module", NOTHING);
    FieldRead(d, "srv_class", NOTHING);
    FieldRead(d, "request", EMPTY);
    FieldRead(d, "topic", NOTHING);
    FieldRead(d, "msg_module", NOTHING);
    FieldRead(d, "msg_class", NOTHING);
    FieldRead(d, "data", EMPTY);
    FieldRead(d, "localization", NOTHING);
    FieldRead(d, "planning", NOTHING);
    FieldRead(d, "countdown_ms", Int(3000));
    FieldRead(d, "mode", Str("normal"));
  }

  /** The actions are those of the list, in their order, each described as it has to be. */
  ghost predicate ActionsFrom(raws: seq<Yaml>, actions: seq<ActionConfig>, importable: (Yaml, Yaml) -> bool) {
    |actions| == |raws| && forall i :: 0 <= i < |raws| ==>
      raws[i].Dict? && ActionFrom(raws[i].entries, actions[i]) && Describes(raws[i].entries, importable)
  }

  lemma {:induction false} ActionsRead(raws: seq<Yaml>, importable: (Yaml, Yaml) -> bool)
    requires ParseActions(raws, importable).Some?
    ensures ActionsFrom(raws, ParseActions(raws, importable).value, importable)
  {
    hide ActionFrom, Describes, FromDict, Validates;
    if raws != [] {
      ActionsRead(raws[1..], importable);
      ActionRead(raws[0].entries);
      ActionLoadsExactly(raws[0].entries, importable);
    }
  }

  lemma GetIs(d: seq<(Yaml, Yaml)>, key: string, otherwise: Yaml)
    ensures Find(d, key) == None ==> Get(d, key, otherwise) == otherwise
    ensures Find(d, key).Some? ==> Get(d, key, otherwise) == Find(d, key).value
  {
  }

  // ----- waypoints -----

  /** The coordinate is the float under the path, or the default of the message where there is none. */
  ghost predicate CoordinateFrom(raw: Yaml, path: seq<string>, otherwise: real, x: real) {
    match Under(raw, path)
    case Some(v) => v == Float(x)
    case None => x == otherwise
  }

  /** The setting is the waypoint's own, or else the file's, or else the built-in one. */
  ghost predicate SettingFrom(raw: Yaml, file: Yaml, key: string, otherwise: Yaml, v: Yaml) {
    if Under(raw, ["navigation", key]).Some? then Under(raw, ["navigation", key]) == Some(v)
    else if Under(file, ["defaults", key]).Some? then Under(file, ["defaults", key]) == Some(v)
    else v == otherwise
  }

  ghost predicate PoseFrom(raw: Yaml, p: Pose) {
    && Under(raw, ["pose", "position", "x"]) == Some(Float(p.x)) && Under(raw, ["pose", "position", "y"]) == Some(Float(p.y)) && p.z == 1.0
    && CoordinateFrom(raw, ["pose", "orientation", "x"], 0.0, p.qx) && CoordinateFrom(raw, ["pose", "orientation", "y"], 0.0, p.qy)
    && CoordinateFrom(raw, ["pose", "orientation", "z"], 0.0, p.qz) && CoordinateFrom(raw, ["pose", "orientation", "w"], 1.0, p.qw)
  }

  /** The waypoint has what the entry of the file says. */
  ghost predicate ReadFrom(raw: Yaml, file: Yaml, w: Waypoint, importable: (Yaml, Yaml) -> bool) {
    && Under(raw, ["index"]).Some? && Number(Under(raw, ["index"]).value) == Some(IndexOf(w) as real)
    && PoseFrom(raw, w.pose)
    && (match Under(raw, ["on_reached_actions"])
        case Some(raws) => Iterate(raws).Some? && ActionsFrom(Iterate(raws).value, w.actions, importable)
        case None => w.actions == [])
    && SettingFrom(raw, file, "reach_tolerance", Float(0.5), w.navigation.reachTolerance)
    && SettingFrom(raw, file, "through_tolerance", Float(3.0), w.navigation.throughTolerance)
    && SettingFrom(raw, file, "is_through_point", Bool(true), w.navigation.isThroughPoint)
  }

  lemma PoseRead(raw: Yaml, p: Pose)
    requires raw.Dict? && ParsePose(Get(raw.entries, "pose", Null)) == Some(p)
    ensures PoseFrom(raw, p)
  {
    hide Find, Under, OnlyKeys;
    var pose := Get(raw.entries, "pose", Null);
    PartRead(raw, pose, "position", "x");
    PartRead(raw, pose, "position", "y");
    PartRead(raw, pose, "orientation", "x");
    PartRead(raw, pose, "orientation", "y");
    PartRead(raw, pose, "orientation", "z");
    PartRead(raw, pose, "orientation", "w");
  }

  lemma PartRead(raw: Yaml, pose: Yaml, part: string, axis: string)
    requires raw.Dict? && pose == Get(raw.entries, "pose", Null) && pose.Dict? && Get(pose.entries, part, Null).Dict?
    ensures Under(raw, ["pose", part, axis]) == Find(Get(pose.entries, part, Null).entries, axis)
  {
    UnderThree(raw, "pose", part, axis);
    UnderTwo(pose, part, axis);
    UnderOne(Get(pose.entries, part, Null), axis);
    hide Find, Under;
  }

  ghost predicate DefaultsFrom(file: Yaml, n: NavigationConfig) {
    file.Dict? && ParseNavigation(Get(file.entries, "defaults", EMPTY), DEFAULT_NAVIGATION) == Some(n)
  }

  lemma SectionRead(v: Yaml, section: string, key: string, otherwise: Yaml)
    requires v.Dict? && Get(v.entries, section, EMPTY).Dict?
    ensures Get(Get(v.entries, section, EMPTY).entries, key, otherwise) ==
      match Under(v, [section, key]) case Some(x) => x case None => otherwise
  {
    UnderTwo(v, section, key);
    UnderOne(Get(v.entries, section, EMPTY), key);
    FindNone([], key);
  }

  lemma SettingsRead(raw: Yaml, file: Yaml, otherwise: NavigationConfig, n: NavigationConfig)
    requires raw.Dict? && DefaultsFrom(file, otherwise) && ParseNavigation(Get(raw.entries, "navigation", EMPTY), otherwise) == Some(n)
    ensures SettingFrom(raw, file, "reach_tolerance", Float(0.5), n.reachTolerance)
    ensures SettingFrom(raw, file, "through_tolerance", Float(3.0), n.throughTolerance)
    ensures SettingFrom(raw, file, "is_through_point", Bool(true), n.isThroughPoint)
  {
    hide Find, Under, Get;
    SectionRead(raw, "navigation", "reach_tolerance", otherwise.reachTolerance);
    SectionRead(raw, "navigation", "through_tolerance", otherwise.throughTolerance);
    SectionRead(raw, "navigation", "is_through_point", otherwise.isThroughPoint);
    SectionRead(file, "defaults", "reach_tolerance", Float(0.5));
    SectionRead(file, "defaults", "through_tolerance", Float(3.0));
    SectionRead(file, "defaults", "is_through_point", Bool(true));
  }

  lemma IndexRead(raw: Yaml, index: Index)
    requires raw.Dict? && ParseIndex(Get(raw.entries, "index", Null)) == Some(index)
    ensures Under(raw, ["index"]).Some? && Number(Under(raw, ["index"]).value) == Some(Value(index) as real)
  {
    UnderOne(raw, "index");
  }

  lemma WaypointRead(raw: Yaml, file: Yaml, otherwise: NavigationConfig, importable: (Yaml, Yaml) -> bool)
    requires DefaultsFrom(file, otherwise) && ParseWaypoint(raw, otherwise, importable).Some?
    ensures ReadFrom(raw, file, ParseWaypoint(raw, otherwise, importable).value, importable)
  {
    hide ParsePose, ParseNavigation, ParseIndex, ParseActions, PoseFrom, SettingFrom, Under, DefaultsFrom, Get, ActionsFrom, Iterate;
    var w := ParseWaypoint(raw, otherwise, importable).value;
    PoseRead(raw, w.pose);
    SettingsRead(raw, file, otherwise, w.navigation);
    IndexRead(raw, w.index);
    NothingIterates();
    ActionsRead(Iterate(Get(raw.entries, "on_reached_actions", List([]))).value, importable);
    UnderOne(raw, "on_reached_actions");
    GetIs(raw.entries, "on_reached_actions", List([]));
    NoActions(importable);
  }

  lemma NoActions(importable: (Yaml, Yaml) -> bool)
    ensures ParseActions([], importable) == Some([])
  {
  }

  lemma {:induction false} WaypointsRead(raws: seq<Yaml>, file: Yaml, otherwise: NavigationConfig, importable: (Yaml, Yaml) -> bool)
    requires DefaultsFrom(file, otherwise) && ParseWaypoints(raws, otherwise, importable).Some?
    ensures var ws := ParseWaypoints(raws, otherwise, importable).value;
            |ws| == |raws| && forall i :: 0 <= i < |ws| ==> ReadFrom(raws[i], file, ws[i], importable)
  {
    hide ParseWaypoint, ReadFrom, DefaultsFrom;
    if raws != [] {
      WaypointsRead(raws[..|raws| - 1], file, otherwise, importable);
      WaypointRead(raws[|raws| - 1], file, otherwise, importable);
    }
  }

  /** Every loaded waypoint has what some entry of the file says: its position, heading, index and settings. */
  lemma LoadedIsRead(file: Yaml, importable: (Yaml, Yaml) -> bool, w: Waypoint)
    requires Loaded(file, importable).Some? && w in Loaded(file, importable).value
    ensures Under(file, ["version"]) == Some(Str("2.0"))
    ensures exists raws, i :: Under(file, ["waypoints"]) == Some(raws) && Iterate(raws).Some? && 0 <= i < |Iterate(raws).value|
              && ReadFrom(Iterate(raws).value[i], file, w, importable)
  {
    hide ParseWaypoints, ParseNavigation, Sort, InOrder, AllComparable, ReadFrom, Iterate, Under;
    UnderOne(file, "version");
    UnderOne(file, "waypoints");
    var defaults := ParseNavigation(Get(file.entries, "defaults", EMPTY), DEFAULT_NAVIGATION).value;
    var raws := Get(file.entries, "waypoints", List([]));
    var items := Iterate(raws).value;
    var ws := ParseWaypoints(items, defaults, importable).value;
    assert DefaultsFrom(file, defaults);
    WaypointsRead(items, file, defaults, importable);
    SortIsStable(IndexOf, ws);
    assert w in multiset(Sort(IndexOf, ws));
    assert w in multiset(ws);
    var i :| 0 <= i < |ws| && ws[i] == w;
    NothingIterates();
    assert ReadFrom(items[i], file, w, importable);
  }

  lemma NothingIterates()
    ensures Iterate(List([])) == Some([])
  {
  }
}
