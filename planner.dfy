/**
 * The planner page as a stateful object: the globals of the script are the fields
 * of `MissionPlanner`, and every event handler is a method that updates them in
 * place, statement by statement as the handler does. Each method's contract ties
 * the new state to the transition of the same name in `Mission`, whose properties
 * (the session invariant, the closure search, the submission checks) are proved
 * there.
 */
module Planner {
  import opened Wrappers
  import opened Geometry
  import Text
  import WorkZone
  import Mission
  import Exporter

  class MissionPlanner {
    var missionModeEnabled: bool
    var missionEnded: bool
    var loopDetected: bool
    var pendingLatLng: Option<LatLng>
    /** The points of the polyline on the map, `None` when none is shown. */
    var missionPathLine: Option<seq<LatLng>>
    var workZoneMode: bool
    var workZonePoints: seq<LatLng>
    /** The vertices of `workZonePolygon`, `None` when there is none. */
    var workZonePolygon: Option<seq<LatLng>>
    var missionMetadata: Mission.Metadata
    var missionNodes: seq<Mission.MissionNode>
    var safetyDocks: seq<Mission.MissionNode>
    var homeNode: Option<Mission.MissionNode>

    /** The globals as one value. */
    function Snapshot(): Mission.Session
      reads this
    {
      Mission.Session(missionModeEnabled, missionEnded, loopDetected, pendingLatLng, missionPathLine,
                      WorkZone.Zone(workZoneMode, workZonePoints, workZonePolygon),
                      missionMetadata, missionNodes, safetyDocks, homeNode)
    }

    ghost predicate Valid()
      reads this
    {
      Mission.Valid(Snapshot())
    }

    /** The state when the page loads; `isoNow` is the load time. */
    constructor(isoNow: string)
      ensures Snapshot() == Mission.InitialSession(isoNow)
      ensures Valid()
    {
      missionModeEnabled := false;
      missionEnded := false;
      loopDetected := false;
      pendingLatLng := None;
      missionPathLine := None;
      workZoneMode := false;
      workZonePoints := [];
      workZonePolygon := None;
      missionMetadata := Mission.DefaultMetadata(isoNow);
      missionNodes := [];
      safetyDocks := [];
      homeNode := None;
      new;
      Mission.InitialSessionIsValid(isoNow);
    }

    /** `resetSidePanel()`: only the pending position is state; the rest clears the form. */
    method ResetSidePanel()
      modifies this
      ensures Snapshot() == Mission.ResetSidePanel(old(Snapshot()))
      ensures old(Valid()) ==> Valid()
    {
      pendingLatLng := None;
    }

    /** `missionToggleBtn.onclick` */
    method ToggleMissionMode()
      modifies this
      ensures Snapshot() == Mission.ToggleMissionMode(old(Snapshot()))
      ensures old(Valid()) ==> Valid()
    {
      missionModeEnabled := !missionModeEnabled;
    }

    /** `updateMissionPath(closeIdx)` */
    method UpdateMissionPath(closeIdx: Option<nat>)
      requires closeIdx.Some? ==> closeIdx.value < |missionNodes|
      modifies this
      ensures Snapshot() == old(Snapshot()).(missionPathLine := Mission.PathPoints(old(missionNodes), closeIdx))
      ensures old(Valid()) ==> Valid()
    {
      if |missionNodes| < 2 {
        missionPathLine := None;
        return;
      }
      var nodes := missionNodes;
      var pts := seq(|nodes|, i requires 0 <= i < |nodes| => nodes[i].pos);
      if closeIdx.Some? {
        pts := pts + [pts[closeIdx.value]];
      }
      missionPathLine := Some(pts);
    }

    /** The `dblclick` handler; `near` stands for `map.distance(a, b) < 20`. */
    method DoubleClick(click: LatLng, near: (LatLng, LatLng) -> bool) returns (outcome: Mission.DoubleClickOutcome)
      modifies this
      ensures (Snapshot(), outcome) == Mission.DoubleClick(old(Snapshot()), click, near)
      ensures old(Valid()) ==> Valid()
    {
      ghost var s := Snapshot();
      if Mission.Valid(s) {
        Mission.DoubleClickPreservesValid(s, click, near);
      }
      if !missionModeEnabled || missionEnded {
        return Mission.Ignored;
      }
      var clickedIndex := Mission.FirstNear(missionNodes, click, near);
      if clickedIndex.Some? {
        var i := clickedIndex.value;
        if missionNodes[i].nodeType.Home? {
          missionEnded := true;
          UpdateMissionPath(Some(0));
          outcome := Mission.EndedAtHome(i);
        } else if i == |missionNodes| - 1 {
          UpdateMissionPath(Some(i));
          outcome := Mission.ClosedAtLast(i);
        } else {
          loopDetected := true;
          UpdateMissionPath(Some(i));
          outcome := Mission.LoopAt(i);
        }
        return;
      }
      if !InsideWorkZone(workZonePolygon, click) {
        return Mission.OutsideWorkZone;
      }
      pendingLatLng := Some(click);
      outcome := Mission.PositionPending;
    }

    /** The checks of `createNodeBtn.onclick`, in order, ending in the node they
        build; reads the form and the current nodes and changes nothing. */
    method CheckForm(form: Mission.NodeForm, pos: LatLng) returns (r: Result<Mission.MissionNode, Mission.Rejection>)
      ensures r == Mission.CheckSubmission(form, missionNodes, safetyDocks, homeNode, pos)
    {
      var cat := form.category;
      var id := Text.Trim(form.id);
      var name := Text.Trim(form.name);
      var task := Text.Trim(form.task);
      if cat == "" || id == "" || name == "" || task == "" {
        return Err(Mission.MissingField);
      }
      if !Text.IsValidText(id) || !Text.IsValidText(task) {
        return Err(Mission.InvalidText);
      }
      if !Mission.IsUniqueId(id, missionNodes, safetyDocks) {
        return Err(Mission.DuplicateId);
      }
      if cat == "home" && homeNode.Some? {
        return Err(Mission.SecondHome);
      }
      var holdTime := 0;
      if cat == "hold" {
        var parsed := Text.ParseTime(form.holdHH, form.holdMM, form.holdSS);
        if parsed.None? {
          return Err(Mission.InvalidHoldTime);
        }
        holdTime := parsed.value;
      }
      var taskDuration := None;
      if cat != "home" && cat != "safety" {
        var parsed := Text.ParseTime(form.taskHH, form.taskMM, form.taskSS);
        if parsed.None? {
          return Err(Mission.InvalidTaskDuration);
        }
        taskDuration := parsed;
      }
      r := Ok(Mission.MissionNode(id, name, task, Mission.ParseNodeType(cat), pos, holdTime, taskDuration));
    }

    /** `createNodeBtn.onclick`, with the form's fields as `form`. */
    method CreateNode(form: Mission.NodeForm) returns (outcome: Mission.CreateOutcome)
      modifies this
      ensures (Snapshot(), outcome) == Mission.CreateNode(old(Snapshot()), form)
      ensures old(Valid()) ==> Valid()
    {
      ghost var s := Snapshot();
      outcome := Submit(form);
      if Mission.Valid(s) {
        Mission.CreateNodePreservesValid(s, form);
      }
    }

    /** The body of `createNodeBtn.onclick`. */
    method Submit(form: Mission.NodeForm) returns (outcome: Mission.CreateOutcome)
      modifies this
      ensures (Snapshot(), outcome) == Mission.CreateNode(old(Snapshot()), form)
    {
      ghost var s := Snapshot();
      if pendingLatLng.None? {
        return Mission.NoPendingPosition;
      }
      if |missionNodes| == 0 {
        missionMetadata := Mission.CaptureMetadata(missionMetadata, form);
      }
      ghost var s1 := Snapshot();
      assert s1 == s.(metadata := missionMetadata);
      var checked := CheckForm(form, pendingLatLng.value);
      if checked.Err? {
        return Mission.Rejected(checked.error);
      }
      var node := checked.value;
      if node.nodeType.Safety? {
        safetyDocks := safetyDocks + [node];
        assert Snapshot() == s1.(safetyDocks := s.safetyDocks + [node]);
        ResetSidePanel();
        return Mission.DockAdded(node);
      }
      if node.nodeType.Home? {
        homeNode := Some(node);
      }
      missionNodes := missionNodes + [node];
      ghost var s2 := Snapshot();
      assert s2 == s1.(missionNodes := s.missionNodes + [node],
                       homeNode := if node.nodeType.Home? then Some(node) else s.homeNode);
      UpdateMissionPath(None);
      ResetSidePanel();
      outcome := Mission.NodeAdded(node);
    }

    /** `clearMissionBtn.onclick`; `isoNow` is the time of the click. */
    method Clear(isoNow: string)
      modifies this
      ensures Snapshot() == Mission.Clear(old(Snapshot()), isoNow)
      ensures Valid()
    {
      missionNodes := [];
      safetyDocks := [];
      homeNode := None;
      missionEnded := false;
      loopDetected := false;
      missionPathLine := None;
      workZonePoints := [];
      workZonePolygon := None;
      workZoneMode := false;
      missionMetadata := Mission.DefaultMetadata(isoNow);
      assert Snapshot() == Mission.Clear(old(Snapshot()), isoNow).(pendingLatLng := pendingLatLng);
      ResetSidePanel();
      Mission.ClearedSessionIsValid(old(Snapshot()), isoNow);
    }

    /** `exportBtn.onclick`: records the service location, then returns the
        document to be written and the download's file name. */
    method Export() returns (doc: Exporter.ExportDocument, fileName: string)
      modifies this
      ensures (Snapshot(), doc) == Exporter.ExportMission(old(Snapshot()))
      ensures fileName == Exporter.ExportFileName(missionMetadata.missionName)
      ensures old(Valid()) ==> Valid()
    {
      if missionMetadata.missionType.kind == "infinity" && |missionNodes| > 0 {
        missionMetadata := missionMetadata.(missionType := missionMetadata.missionType.(serviceLocation := Some(missionNodes[0].pos)));
      }
      doc := Exporter.BuildExport(Snapshot());
      fileName := "mission-plan-" + (if missionMetadata.missionName == "" then "unnamed" else missionMetadata.missionName) + ".json";
    }

    /** `workZoneBtn.onclick` */
    method ToggleWorkZone()
      modifies this
      ensures Snapshot() == Mission.ToggleWorkZone(old(Snapshot()))
      ensures old(Valid()) ==> Valid()
    {
      workZoneMode := !workZoneMode;
      if workZoneMode {
        workZonePoints := [];
        workZonePolygon := None;
      }
    }

    /** The first `map.on("click")` handler (yellow preview line). */
    method WorkZonePreviewClick(click: LatLng)
      modifies this
      ensures Snapshot() == old(Snapshot()).(zone := WorkZone.PreviewClick(old(Snapshot()).zone, click))
      ensures old(Valid()) ==> Valid()
    {
      if !workZoneMode {
        return;
      }
      workZonePoints := workZonePoints + [click];
    }

    /** The second `map.on("click")` handler (green line, closes the polygon). */
    method WorkZoneCloseClick(click: LatLng, near: (LatLng, LatLng) -> bool) returns (outcome: WorkZone.ClickOutcome)
      modifies this
      ensures (Snapshot().zone, outcome) == WorkZone.CloseClick(old(Snapshot()).zone, click, near)
      ensures Snapshot() == old(Snapshot()).(zone := Snapshot().zone)
      ensures old(Valid()) ==> Valid()
    {
      if !workZoneMode {
        return WorkZone.NotDrawing;
      }
      if |workZonePoints| >= 3 {
        var start := workZonePoints[0];
        if near(click, start) {
          workZonePolygon := Some(workZonePoints);
          workZoneMode := false;
          return WorkZone.ZoneClosed;
        }
      }
      workZonePoints := workZonePoints + [click];
      outcome := WorkZone.PointAdded;
    }

    /** A single click on the map: Leaflet runs both handlers in registration order. */
    method MapClick(click: LatLng, near: (LatLng, LatLng) -> bool) returns (outcome: WorkZone.ClickOutcome)
      modifies this
      ensures Snapshot() == Mission.MapClick(old(Snapshot()), click, near)
      ensures outcome == WorkZone.Click(old(Snapshot()).zone, click, near).1
      ensures old(Valid()) ==> Valid()
    {
      WorkZonePreviewClick(click);
      outcome := WorkZoneCloseClick(click, near);
    }
  }
}
