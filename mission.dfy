/**
 * The mission session: the planner's global state (the `let` globals at the top
 * of app.js and `missionNodes`, `safetyDocks`, `homeNode`) as one value, and each
 * event handler as a transition on it. The class in planner.dfy holds the same
 * state in fields and runs the handlers step by step; its methods are specified
 * by these functions.
 */
module Mission {
  import opened Wrappers
  import opened Geometry
  import opened Text
  import WorkZone

  // ---------------------------------------------------------------------------
  // Entities
  // ---------------------------------------------------------------------------

  /** The node category chosen in the form. The form offers the five named ones;
      any other label is kept as it is. */
  datatype NodeType = Home | Waypoint | Special | Hold | Safety | Other(category: string)

  function ParseNodeType(cat: string): NodeType {
    if cat == "home" then Home
    else if cat == "waypoint" then Waypoint
    else if cat == "special" then Special
    else if cat == "hold" then Hold
    else if cat == "safety" then Safety
    else Other(cat)
  }

  /** The string stored in `node.type` and exported. */
  function TypeName(t: NodeType): string {
    match t
    case Home => "home"
    case Waypoint => "waypoint"
    case Special => "special"
    case Hold => "hold"
    case Safety => "safety"
    case Other(c) => c
  }

  /** `Other` never carries one of the five names. */
  predicate WellTyped(t: NodeType) {
    t.Other? ==> t.category !in {"home", "waypoint", "special", "hold", "safety"}
  }

  /** The category string and the node type convert into each other without loss. */
  lemma NodeTypeRoundTrip(cat: string, t: NodeType)
    ensures TypeName(ParseNodeType(cat)) == cat && WellTyped(ParseNodeType(cat))
    ensures WellTyped(t) ==> ParseNodeType(TypeName(t)) == t
  {
  }

  /** A node as `createNodeBtn.onclick` builds it (the Leaflet marker left out). */
  datatype MissionNode = MissionNode(
    id: string,
    name: string,
    task: string,
    nodeType: NodeType,
    pos: LatLng,
    holdTime: int,
    taskDuration: Option<int>)

  /** `missionMetadata.missionType`: `kind` is the exported `type` field. */
  datatype MissionType = MissionType(kind: string, serviceLocation: Option<LatLng>)

  datatype Metadata = Metadata(
    date: string,
    missionName: string,
    version: string,
    author: string,
    missionType: MissionType)

  /** The metadata a session starts with and is reset to; `isoNow` is
      `new Date().toISOString()`. */
  function DefaultMetadata(isoNow: string): Metadata {
    Metadata(DatePart(isoNow), "", "1.0", "Unknown", MissionType("", None))
  }

  /** The whole session state. `missionPathLine` is the point list of the mission
      polyline on the map, `None` when no line is shown. */
  datatype Session = Session(
    missionModeEnabled: bool,
    missionEnded: bool,
    loopDetected: bool,
    pendingLatLng: Option<LatLng>,
    missionPathLine: Option<seq<LatLng>>,
    zone: WorkZone.Zone,
    metadata: Metadata,
    missionNodes: seq<MissionNode>,
    safetyDocks: seq<MissionNode>,
    homeNode: Option<MissionNode>)

  function InitialSession(isoNow: string): Session {
    Session(false, false, false, None, None, WorkZone.Initial, DefaultMetadata(isoNow), [], [], None)
  }

  // ---------------------------------------------------------------------------
  // The session invariant
  // ---------------------------------------------------------------------------

  /** No two entries share an id. */
  predicate UniqueIds(ns: seq<MissionNode>) {
    forall i, j :: 0 <= i < j < |ns| ==> ns[i].id != ns[j].id
  }

  /** `isUniqueId(id)`: no path node and no dock has this id. */
  predicate IsUniqueId(id: string, nodes: seq<MissionNode>, docks: seq<MissionNode>) {
    && (forall i :: 0 <= i < |nodes| ==> nodes[i].id != id)
    && (forall i :: 0 <= i < |docks| ==> docks[i].id != id)
  }

  /** What a node created by the form satisfies. */
  predicate WellFormedNode(n: MissionNode) {
    && IsValidText(n.id) && IsValidText(n.task) && n.name != ""
    && WellTyped(n.nodeType)
    && n.holdTime >= 0 && (!n.nodeType.Hold? ==> n.holdTime == 0)
    && (n.taskDuration.None? <==> n.nodeType.Home? || n.nodeType.Safety?)
    && (n.taskDuration.Some? ==> n.taskDuration.value >= 0)
  }

  /** `homeNode` is set exactly when the path holds a home node, and is that node. */
  predicate HomeTracked(nodes: seq<MissionNode>, home: Option<MissionNode>) {
    && (forall i :: 0 <= i < |nodes| && nodes[i].nodeType.Home? ==> home == Some(nodes[i]))
    && (home.Some? ==> home.value in nodes && home.value.nodeType.Home?)
  }

  /** A service location, once written by an export, is the first node's position
      of an "infinity" mission. */
  predicate ServiceLocationTracked(meta: Metadata, nodes: seq<MissionNode>) {
    meta.missionType.serviceLocation.Some? ==>
      |nodes| > 0 && meta.missionType.serviceLocation.value == nodes[0].pos
      && meta.missionType.kind == "infinity"
  }

  ghost predicate Valid(s: Session) {
    && UniqueIds(s.missionNodes + s.safetyDocks)
    && (forall i :: 0 <= i < |s.missionNodes| ==>
          WellFormedNode(s.missionNodes[i]) && !s.missionNodes[i].nodeType.Safety?)
    && (forall i :: 0 <= i < |s.safetyDocks| ==>
          WellFormedNode(s.safetyDocks[i]) && s.safetyDocks[i].nodeType.Safety?)
    && HomeTracked(s.missionNodes, s.homeNode)
    && ServiceLocationTracked(s.metadata, s.missionNodes)
    && WorkZone.Valid(s.zone)
  }

  lemma InitialSessionIsValid(isoNow: string)
    ensures Valid(InitialSession(isoNow))
  {
  }

  /** Clearing gives a valid session from any session. */
  lemma ClearedSessionIsValid(s: Session, isoNow: string)
    ensures Valid(Clear(s, isoNow))
  {
    InitialSessionIsValid(isoNow);
  }

  /** In a valid session at most one path node is a home node, and no dock is. */
  lemma {:induction false} AtMostOneHome(s: Session)
    requires Valid(s)
    ensures forall i, j :: 0 <= i < j < |s.missionNodes| ==>
              !(s.missionNodes[i].nodeType.Home? && s.missionNodes[j].nodeType.Home?)
    ensures forall i :: 0 <= i < |s.safetyDocks| ==> !s.safetyDocks[i].nodeType.Home?
  {
    var all := s.missionNodes + s.safetyDocks;
    forall i, j | 0 <= i < j < |s.missionNodes|
      ensures !(s.missionNodes[i].nodeType.Home? && s.missionNodes[j].nodeType.Home?)
    {
      assert all[i] == s.missionNodes[i] && all[j] == s.missionNodes[j];
    }
  }

  /** Inserting an entry whose id is new keeps the ids distinct. */
  lemma {:induction false} InsertKeepsIdsUnique(xs: seq<MissionNode>, p: nat, n: MissionNode)
    requires p <= |xs|
    requires UniqueIds(xs)
    requires forall i :: 0 <= i < |xs| ==> xs[i].id != n.id
    ensures UniqueIds(xs[..p] + [n] + xs[p..])
  {
    var ys := xs[..p] + [n] + xs[p..];
    assert |ys| == |xs| + 1;
    forall i, j | 0 <= i < j < |ys|
      ensures ys[i].id != ys[j].id
    {
      var oi := if i < p then i else i - 1;
      var oj := if j < p then j else j - 1;
      assert i != p ==> ys[i] == xs[oi];
      assert j != p ==> ys[j] == xs[oj];
      assert i == p ==> ys[i] == n;
      assert j == p ==> ys[j] == n;
    }
  }

  /** A node with a fresh id can join the path or the docks without an id clash. */
  lemma AppendKeepsIdsUnique(nodes: seq<MissionNode>, docks: seq<MissionNode>, n: MissionNode)
    requires UniqueIds(nodes + docks)
    requires IsUniqueId(n.id, nodes, docks)
    ensures UniqueIds((nodes + [n]) + docks)
    ensures UniqueIds(nodes + (docks + [n]))
  {
    var xs := nodes + docks;
    forall i | 0 <= i < |xs| ensures xs[i].id != n.id {
      if i < |nodes| {
        assert xs[i] == nodes[i];
      } else {
        assert xs[i] == docks[i - |nodes|];
      }
    }
    InsertKeepsIdsUnique(xs, |nodes|, n);
    assert xs[..|nodes|] == nodes && xs[|nodes|..] == docks;
    assert (nodes + [n]) + docks == xs[..|nodes|] + [n] + xs[|nodes|..];
    InsertKeepsIdsUnique(xs, |xs|, n);
    assert xs[..|xs|] == xs && xs[|xs|..] == [];
    assert nodes + (docks + [n]) == xs[..|xs|] + [n] + xs[|xs|..];
  }

  // ---------------------------------------------------------------------------
  // The mission polyline and the double-click search
  // ---------------------------------------------------------------------------

  /** The point list `updateMissionPath(closeIdx)` draws: the node positions in path
      order, then the position of node `closeIdx` again when one is given; no line
      at all with fewer than two nodes. */
  function PathPoints(nodes: seq<MissionNode>, closeIdx: Option<nat>): (r: Option<seq<LatLng>>)
    requires closeIdx.Some? ==> closeIdx.value < |nodes|
    ensures r.None? <==> |nodes| < 2
    ensures r.Some? ==>
              && |r.value| == |nodes| + (if closeIdx.Some? then 1 else 0)
              && (forall i :: 0 <= i < |nodes| ==> r.value[i] == nodes[i].pos)
              && (closeIdx.Some? ==> r.value[|nodes|] == r.value[closeIdx.value])
  {
    if |nodes| < 2 then None
    else
      var pts := seq(|nodes|, i requires 0 <= i < |nodes| => nodes[i].pos);
      Some(if closeIdx.Some? then pts + [pts[closeIdx.value]] else pts)
  }

  /** `missionNodes.findIndex(n => map.distance(click, n) < 20)` from index `from` on. */
  function FirstNearFrom(nodes: seq<MissionNode>, click: LatLng, near: (LatLng, LatLng) -> bool, from: nat): (r: Option<nat>)
    requires from <= |nodes|
    ensures r.Some? ==>
              && from <= r.value < |nodes| && near(click, nodes[r.value].pos)
              && forall j :: from <= j < r.value ==> !near(click, nodes[j].pos)
    ensures r.None? ==> forall j :: from <= j < |nodes| ==> !near(click, nodes[j].pos)
    decreases |nodes| - from
  {
    if from == |nodes| then None
    else if near(click, nodes[from].pos) then Some(from)
    else FirstNearFrom(nodes, click, near, from + 1)
  }

  function FirstNear(nodes: seq<MissionNode>, click: LatLng, near: (LatLng, LatLng) -> bool): Option<nat> {
    FirstNearFrom(nodes, click, near, 0)
  }

  datatype DoubleClickOutcome =
    | Ignored                  // mission mode off, or the mission has ended
    | EndedAtHome(index: nat)  // "Mission Ended at Home"
    | ClosedAtLast(index: nat) // "Closed Loop Mission Created"
    | LoopAt(index: nat)       // "Infinity Working Loop Detected"
    | OutsideWorkZone          // "Point outside WorkZone"
    | PositionPending          // the side panel opens for a new node here

  /** The `dblclick` handler. */
  function DoubleClick(s: Session, click: LatLng, near: (LatLng, LatLng) -> bool): (r: (Session, DoubleClickOutcome))
    ensures r.1 == Ignored <==> !s.missionModeEnabled || s.missionEnded
    ensures r.1 == Ignored || r.1 == OutsideWorkZone ==> r.0 == s
    ensures r.1.EndedAtHome? || r.1.ClosedAtLast? || r.1.LoopAt? ==>
              && r.1.index < |s.missionNodes|
              && near(click, s.missionNodes[r.1.index].pos)
              && (forall j :: 0 <= j < r.1.index ==> !near(click, s.missionNodes[j].pos))
    ensures r.1.EndedAtHome? ==>
              && s.missionNodes[r.1.index].nodeType.Home?
              && r.0 == s.(missionEnded := true, missionPathLine := PathPoints(s.missionNodes, Some(0)))
    ensures r.1.ClosedAtLast? ==>
              && !s.missionNodes[r.1.index].nodeType.Home? && r.1.index == |s.missionNodes| - 1
              && r.0 == s.(missionPathLine := PathPoints(s.missionNodes, Some(r.1.index)))
    ensures r.1.LoopAt? ==>
              && !s.missionNodes[r.1.index].nodeType.Home? && r.1.index < |s.missionNodes| - 1
              && r.0 == s.(loopDetected := true, missionPathLine := PathPoints(s.missionNodes, Some(r.1.index)))
    ensures r.1 == OutsideWorkZone || r.1 == PositionPending ==>
              forall j :: 0 <= j < |s.missionNodes| ==> !near(click, s.missionNodes[j].pos)
    ensures r.1 == OutsideWorkZone ==> !InsideWorkZone(s.zone.polygon, click)
    ensures r.1 == PositionPending ==>
              InsideWorkZone(s.zone.polygon, click) && r.0 == s.(pendingLatLng := Some(click))
  {
    if !s.missionModeEnabled || s.missionEnded then (s, Ignored)
    else
      match FirstNear(s.missionNodes, click, near)
      case Some(i) =>
        if s.missionNodes[i].nodeType.Home? then
          (s.(missionEnded := true, missionPathLine := PathPoints(s.missionNodes, Some(0))), EndedAtHome(i))
        else if i == |s.missionNodes| - 1 then
          (s.(missionPathLine := PathPoints(s.missionNodes, Some(i))), ClosedAtLast(i))
        else
          (s.(loopDetected := true, missionPathLine := PathPoints(s.missionNodes, Some(i))), LoopAt(i))
      case None =>
        if !InsideWorkZone(s.zone.polygon, click) then (s, OutsideWorkZone)
        else (s.(pendingLatLng := Some(click)), PositionPending)
  }

  /** A double-click changes only the closure flags, the drawn line and the pending
      position, so it keeps the invariant. */
  lemma DoubleClickPreservesValid(s: Session, click: LatLng, near: (LatLng, LatLng) -> bool)
    requires Valid(s)
    ensures Valid(DoubleClick(s, click, near).0)
  {
  }

  /** The closure flags are not exclusive: after a loop is detected a double-click on
      the home node still ends the mission, and both flags are then set. */
  lemma ClosureFlagsNotExclusive()
    ensures var w0 := MissionNode("W0", "a", "t", Waypoint, LatLng(0, 0), 0, Some(0));
            var w1 := MissionNode("W1", "b", "t", Waypoint, LatLng(0, 100), 0, Some(0));
            var h := MissionNode("H", "c", "t", Home, LatLng(0, 200), 0, None);
            var s := Session(true, false, false, None, None, WorkZone.Initial, DefaultMetadata(""),
                             [w0, w1, h], [], Some(h));
            var near := (a: LatLng, b: LatLng) => a == b;
            var s1 := DoubleClick(s, LatLng(0, 0), near);
            var s2 := DoubleClick(s1.0, LatLng(0, 200), near);
            s1.1 == LoopAt(0) && s2.1 == EndedAtHome(2) && s2.0.missionEnded && s2.0.loopDetected
  {
    var w0 := MissionNode("W0", "a", "t", Waypoint, LatLng(0, 0), 0, Some(0));
    var w1 := MissionNode("W1", "b", "t", Waypoint, LatLng(0, 100), 0, Some(0));
    var h := MissionNode("H", "c", "t", Home, LatLng(0, 200), 0, None);
    var nodes := [w0, w1, h];
    var near := (a: LatLng, b: LatLng) => a == b;
    assert near(LatLng(0, 0), w0.pos);
    assert FirstNear(nodes, LatLng(0, 0), near) == Some(0);
    assert !near(LatLng(0, 200), w0.pos) && !near(LatLng(0, 200), w1.pos) && near(LatLng(0, 200), h.pos);
    assert FirstNearFrom(nodes, LatLng(0, 200), near, 2) == Some(2);
    assert FirstNearFrom(nodes, LatLng(0, 200), near, 1) == Some(2);
    assert FirstNear(nodes, LatLng(0, 200), near) == Some(2);
  }

  // ---------------------------------------------------------------------------
  // Node creation
  // ---------------------------------------------------------------------------

  /** The side-panel form and the two mission fields, as `createNodeBtn.onclick`
      reads them. */
  datatype NodeForm = NodeForm(
    category: string,
    id: string,
    name: string,
    task: string,
    holdHH: string, holdMM: string, holdSS: string,
    taskHH: string, taskMM: string, taskSS: string,
    missionName: string,
    missionType: string)

  /** Why a submission was refused, one per notification. */
  datatype Rejection =
    | MissingField        // "All fields required"
    | InvalidText         // "ID & Task: A-Z a-z 0-9 _ - only"
    | DuplicateId         // "ID must be unique"
    | SecondHome          // "Only one Home allowed"
    | InvalidHoldTime     // "Invalid time format (HH:MM:SS)"
    | InvalidTaskDuration // "Invalid task duration format (HH:MM:SS)"

  /** Whether the submission passes the check that `e` names. */
  predicate Passes(f: NodeForm, nodes: seq<MissionNode>, docks: seq<MissionNode>, home: Option<MissionNode>, e: Rejection) {
    match e
    case MissingField => f.category != "" && Trim(f.id) != "" && Trim(f.name) != "" && Trim(f.task) != ""
    case InvalidText => IsValidText(Trim(f.id)) && IsValidText(Trim(f.task))
    case DuplicateId => IsUniqueId(Trim(f.id), nodes, docks)
    case SecondHome => !(f.category == "home" && home.Some?)
    case InvalidHoldTime => f.category != "hold" || ParseTime(f.holdHH, f.holdMM, f.holdSS).Some?
    case InvalidTaskDuration =>
      f.category == "home" || f.category == "safety" || ParseTime(f.taskHH, f.taskMM, f.taskSS).Some?
  }

  /** The checks that come before `e` in the handler, in order. */
  function ChecksBefore(e: Rejection): seq<Rejection> {
    match e
    case MissingField => []
    case InvalidText => [MissingField]
    case DuplicateId => [MissingField, InvalidText]
    case SecondHome => [MissingField, InvalidText, DuplicateId]
    case InvalidHoldTime => [MissingField, InvalidText, DuplicateId, SecondHome]
    case InvalidTaskDuration => [MissingField, InvalidText, DuplicateId, SecondHome, InvalidHoldTime]
  }

  /** `e` is the first check, in the handler's order, that the submission fails. */
  predicate FailsFirst(f: NodeForm, nodes: seq<MissionNode>, docks: seq<MissionNode>, home: Option<MissionNode>, e: Rejection) {
    && !Passes(f, nodes, docks, home, e)
    && forall k :: 0 <= k < |ChecksBefore(e)| ==> Passes(f, nodes, docks, home, ChecksBefore(e)[k])
  }

  /** The submission passes every check. */
  predicate PassesAll(f: NodeForm, nodes: seq<MissionNode>, docks: seq<MissionNode>, home: Option<MissionNode>) {
    && Passes(f, nodes, docks, home, MissingField)
    && Passes(f, nodes, docks, home, InvalidText)
    && Passes(f, nodes, docks, home, DuplicateId)
    && Passes(f, nodes, docks, home, SecondHome)
    && Passes(f, nodes, docks, home, InvalidHoldTime)
    && Passes(f, nodes, docks, home, InvalidTaskDuration)
  }

  /** The validation chain of the node form: the node it builds when every check
      passes, otherwise the first failing check. */
  function CheckSubmission(f: NodeForm, nodes: seq<MissionNode>, docks: seq<MissionNode>, home: Option<MissionNode>, pos: LatLng)
    : (r: Result<MissionNode, Rejection>)
    ensures r.Err? ==> FailsFirst(f, nodes, docks, home, r.error)
    ensures r.Ok? ==> PassesAll(f, nodes, docks, home)
    ensures r.Ok? ==>
              var n := r.value;
              && n.id == Trim(f.id) && n.name == Trim(f.name) && n.task == Trim(f.task)
              && n.nodeType == ParseNodeType(f.category) && n.pos == pos
              && (n.nodeType == Hold ==> ParseTime(f.holdHH, f.holdMM, f.holdSS) == Some(n.holdTime))
              && (n.taskDuration.Some? ==> ParseTime(f.taskHH, f.taskMM, f.taskSS) == n.taskDuration)
              && WellFormedNode(n)
              && IsUniqueId(n.id, nodes, docks)
              && (n.nodeType.Home? ==> home.None?)
  {
    var cat := f.category;
    var id := Trim(f.id);
    var name := Trim(f.name);
    var task := Trim(f.task);
    if cat == "" || id == "" || name == "" || task == "" then Err(MissingField)
    else if !IsValidText(id) || !IsValidText(task) then Err(InvalidText)
    else if !IsUniqueId(id, nodes, docks) then Err(DuplicateId)
    else if cat == "home" && home.Some? then Err(SecondHome)
    else
      var holdTime := if cat == "hold" then ParseTime(f.holdHH, f.holdMM, f.holdSS) else Some(0);
      if holdTime.None? then Err(InvalidHoldTime)
      else
        var taskDuration := if cat != "home" && cat != "safety" then ParseTime(f.taskHH, f.taskMM, f.taskSS) else Some(0);
        if taskDuration.None? then Err(InvalidTaskDuration)
        else
          NodeTypeRoundTrip(cat, Home);
          Ok(MissionNode(id, name, task, ParseNodeType(cat), pos, holdTime.value,
                         if cat != "home" && cat != "safety" then taskDuration else None))
  }

  /** A submission that passes every check is accepted, so together with the
      contract of `CheckSubmission` the result is determined by `Passes`: the node
      when all checks pass, else the first failing one. */
  lemma {:induction false} PassingSubmissionIsAccepted(f: NodeForm, nodes: seq<MissionNode>, docks: seq<MissionNode>, home: Option<MissionNode>, pos: LatLng)
    requires PassesAll(f, nodes, docks, home)
    ensures CheckSubmission(f, nodes, docks, home, pos).Ok?
  {
    var r := CheckSubmission(f, nodes, docks, home, pos);
    if r.Err? {
      assert !Passes(f, nodes, docks, home, r.error);
      match r.error
      case MissingField =>
      case InvalidText =>
      case DuplicateId =>
      case SecondHome =>
      case InvalidHoldTime =>
      case InvalidTaskDuration =>
    }
  }

  /** On the first attempt of a mission (no path node yet) the mission name and
      type are copied from the form. */
  function CaptureMetadata(m: Metadata, f: NodeForm): Metadata {
    m.(missionName := Trim(f.missionName), missionType := m.missionType.(kind := f.missionType))
  }

  datatype CreateOutcome =
    | NoPendingPosition        // no position chosen: the button does nothing
    | Rejected(reason: Rejection)
    | DockAdded(node: MissionNode)   // "Safety Dock Added"
    | NodeAdded(node: MissionNode)   // "Node Added"

  /** `createNodeBtn.onclick`. */
  function CreateNode(s: Session, f: NodeForm): (r: (Session, CreateOutcome))
    ensures r.1 == NoPendingPosition <==> s.pendingLatLng.None?
    ensures s.pendingLatLng.None? ==> r == (s, NoPendingPosition)
    ensures s.pendingLatLng.Some? ==>
              r.0.metadata == if |s.missionNodes| == 0 then CaptureMetadata(s.metadata, f) else s.metadata
    ensures r.1.Rejected? ==>
              && r.0 == s.(metadata := r.0.metadata)
              && CheckSubmission(f, s.missionNodes, s.safetyDocks, s.homeNode, s.pendingLatLng.value) == Err(r.1.reason)
    ensures r.1.DockAdded? || r.1.NodeAdded? ==>
              && s.pendingLatLng.Some? && r.1.node.pos == s.pendingLatLng.value
              && CheckSubmission(f, s.missionNodes, s.safetyDocks, s.homeNode, s.pendingLatLng.value) == Ok(r.1.node)
    ensures r.1.DockAdded? ==>
              && r.1.node.nodeType.Safety?
              && r.0 == s.(metadata := r.0.metadata, safetyDocks := s.safetyDocks + [r.1.node], pendingLatLng := None)
    ensures r.1.NodeAdded? ==>
              && !r.1.node.nodeType.Safety?
              && r.0 == s.(metadata := r.0.metadata,
                           missionNodes := s.missionNodes + [r.1.node],
                           homeNode := if r.1.node.nodeType.Home? then Some(r.1.node) else s.homeNode,
                           missionPathLine := PathPoints(s.missionNodes + [r.1.node], None),
                           pendingLatLng := None)
  {
    if s.pendingLatLng.None? then (s, NoPendingPosition)
    else
      var meta := if |s.missionNodes| == 0 then CaptureMetadata(s.metadata, f) else s.metadata;
      var s1 := s.(metadata := meta);
      match CheckSubmission(f, s.missionNodes, s.safetyDocks, s.homeNode, s.pendingLatLng.value)
      case Err(e) => (s1, Rejected(e))
      case Ok(n) =>
        if n.nodeType.Safety? then
          (s1.(safetyDocks := s.safetyDocks + [n], pendingLatLng := None), DockAdded(n))
        else
          var nodes := s.missionNodes + [n];
          (s1.(missionNodes := nodes,
               homeNode := if n.nodeType.Home? then Some(n) else s.homeNode,
               missionPathLine := PathPoints(nodes, None),
               pendingLatLng := None),
           NodeAdded(n))
  }

  /** Node creation keeps ids distinct across path and docks, at most one home
      node, and every node well formed. */
  lemma CreateNodePreservesValid(s: Session, f: NodeForm)
    requires Valid(s)
    ensures Valid(CreateNode(s, f).0)
  {
    var r := CreateNode(s, f);
    if r.1.DockAdded? || r.1.NodeAdded? {
      var n := r.1.node;
      AppendKeepsIdsUnique(s.missionNodes, s.safetyDocks, n);
      if r.1.NodeAdded? {
        var nodes := s.missionNodes + [n];
        assert forall i :: 0 <= i < |s.missionNodes| ==> nodes[i] == s.missionNodes[i];
        assert nodes[|s.missionNodes|] == n;
        if n.nodeType.Home? {
          assert s.homeNode.None?;
          assert forall i :: 0 <= i < |s.missionNodes| ==> !s.missionNodes[i].nodeType.Home?;
        }
        assert HomeTracked(nodes, r.0.homeNode);
      } else {
        var docks := s.safetyDocks + [n];
        assert forall i :: 0 <= i < |s.safetyDocks| ==> docks[i] == s.safetyDocks[i];
      }
    }
  }

  // ---------------------------------------------------------------------------
  // The other handlers
  // ---------------------------------------------------------------------------

  /** `missionToggleBtn.onclick` */
  function ToggleMissionMode(s: Session): Session {
    s.(missionModeEnabled := !s.missionModeEnabled)
  }

  /** `resetSidePanel()` (the Cancel button): the pending position is dropped. */
  function ResetSidePanel(s: Session): Session {
    s.(pendingLatLng := None)
  }

  /** `clearMissionBtn.onclick`: everything back to a fresh session except the
      mission-mode switch. */
  function Clear(s: Session, isoNow: string): Session {
    InitialSession(isoNow).(missionModeEnabled := s.missionModeEnabled)
  }

  /** The metadata write at the start of `exportBtn.onclick`: an "infinity" mission
      with at least one node records the first node's position as its service
      location. */
  function WithServiceLocation(m: Metadata, nodes: seq<MissionNode>): (r: Metadata)
    ensures r.date == m.date && r.missionName == m.missionName && r.version == m.version
            && r.author == m.author && r.missionType.kind == m.missionType.kind
    ensures m.missionType.kind == "infinity" && |nodes| > 0 ==> r.missionType.serviceLocation == Some(nodes[0].pos)
    ensures !(m.missionType.kind == "infinity" && |nodes| > 0) ==> r == m
  {
    if m.missionType.kind == "infinity" && |nodes| > 0 then
      m.(missionType := m.missionType.(serviceLocation := Some(nodes[0].pos)))
    else m
  }

  /** The state change of `exportBtn.onclick`: the service location is written. */
  function RecordServiceLocation(s: Session): Session {
    s.(metadata := WithServiceLocation(s.metadata, s.missionNodes))
  }

  /** `workZoneBtn.onclick` */
  function ToggleWorkZone(s: Session): Session {
    s.(zone := WorkZone.Toggle(s.zone))
  }

  /** A single click on the map: both click handlers. */
  function MapClick(s: Session, click: LatLng, near: (LatLng, LatLng) -> bool): Session {
    s.(zone := WorkZone.Click(s.zone, click, near).0)
  }

  // ---------------------------------------------------------------------------
  // Whole sessions
  // ---------------------------------------------------------------------------

  /** Every event a session reacts to. */
  datatype Event =
    | MissionToggle
    | DoubleClickAt(click: LatLng)
    | Submit(form: NodeForm)
    | Cancel
    | ClearMission(isoNow: string)
    | ExportMission
    | WorkZoneToggle
    | ClickAt(click: LatLng)

  function Apply(s: Session, e: Event, near: (LatLng, LatLng) -> bool): Session {
    match e
    case MissionToggle => ToggleMissionMode(s)
    case DoubleClickAt(c) => DoubleClick(s, c, near).0
    case Submit(f) => CreateNode(s, f).0
    case Cancel => ResetSidePanel(s)
    case ClearMission(t) => Clear(s, t)
    case ExportMission => RecordServiceLocation(s)
    case WorkZoneToggle => ToggleWorkZone(s)
    case ClickAt(c) => MapClick(s, c, near)
  }

  function Replay(s: Session, events: seq<Event>, near: (LatLng, LatLng) -> bool): Session
    decreases |events|
  {
    if events == [] then s else Replay(Apply(s, events[0], near), events[1..], near)
  }

  lemma ApplyPreservesValid(s: Session, e: Event, near: (LatLng, LatLng) -> bool)
    requires Valid(s)
    ensures Valid(Apply(s, e, near))
  {
    match e
    case DoubleClickAt(c) => DoubleClickPreservesValid(s, c, near);
    case Submit(f) => CreateNodePreservesValid(s, f);
    case ClearMission(t) => InitialSessionIsValid(t);
    case _ =>
  }

  lemma {:induction false} ReplayPreservesValid(s: Session, events: seq<Event>, near: (LatLng, LatLng) -> bool)
    requires Valid(s)
    ensures Valid(Replay(s, events, near))
    decreases |events|
  {
    if events != [] {
      ApplyPreservesValid(s, events[0], near);
      ReplayPreservesValid(Apply(s, events[0], near), events[1..], near);
    }
  }

  /** Whatever the operator does from a fresh session, no two nodes or docks share
      an id and there is at most one home node. */
  lemma ReachableSessionsKeepIdsAndHome(isoNow: string, events: seq<Event>, near: (LatLng, LatLng) -> bool)
    ensures var s := Replay(InitialSession(isoNow), events, near);
            && UniqueIds(s.missionNodes + s.safetyDocks)
            && forall i, j :: 0 <= i < j < |s.missionNodes| ==>
                 !(s.missionNodes[i].nodeType.Home? && s.missionNodes[j].nodeType.Home?)
  {
    InitialSessionIsValid(isoNow);
    ReplayPreservesValid(InitialSession(isoNow), events, near);
    AtMostOneHome(Replay(InitialSession(isoNow), events, near));
  }

  /** Once the mission has ended and no position is pending, the path is frozen:
      double-clicks and submissions change nothing. */
  lemma EndedMissionIsFrozen(s: Session, click: LatLng, f: NodeForm, near: (LatLng, LatLng) -> bool)
    requires s.missionEnded && s.pendingLatLng.None?
    ensures DoubleClick(s, click, near) == (s, Ignored)
    ensures CreateNode(s, f) == (s, NoPendingPosition)
  {
  }

  /** An event that leaves the session as it is once the mission has ended:
      everything except clearing. */
  predicate KeepsEndedMission(e: Event) {
    !e.ClearMission?
  }

  /** Once the mission has ended with no position pending, no sequence of events
      short of a clear changes the path, the docks or the home node, reopens the
      mission or picks a position. */
  lemma {:induction false} EndedMissionStaysFrozen(s: Session, events: seq<Event>, near: (LatLng, LatLng) -> bool)
    requires s.missionEnded && s.pendingLatLng.None?
    requires forall k :: 0 <= k < |events| ==> KeepsEndedMission(events[k])
    ensures var r := Replay(s, events, near);
            && r.missionEnded && r.pendingLatLng.None?
            && r.missionNodes == s.missionNodes && r.safetyDocks == s.safetyDocks && r.homeNode == s.homeNode
    decreases |events|
  {
    if events != [] {
      EndedMissionIsFrozen(s, LatLng(0, 0), NodeForm("", "", "", "", "", "", "", "", "", "", "", ""), near);
      var s1 := Apply(s, events[0], near);
      assert KeepsEndedMission(events[0]);
      assert s1.missionEnded && s1.pendingLatLng.None?
             && s1.missionNodes == s.missionNodes && s1.safetyDocks == s.safetyDocks && s1.homeNode == s.homeNode;
      assert forall k :: 0 <= k < |events[1..]| ==> KeepsEndedMission(events[1..][k]);
      EndedMissionStaysFrozen(s1, events[1..], near);
    }
  }
}
