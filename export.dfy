/**
 * The record `exportBtn.onclick` writes to the JSON file, and the file's name.
 * Field names follow the exported keys; `nodeType` is the key `type`.
 */
module Exporter {
  import opened Wrappers
  import opened Geometry
  import opened Mission

  datatype Duration = Duration(duration: int, unit: string)
  datatype ExpectedTime = ExpectedTime(expectedTime: int, unit: string)

  datatype PathEntry = PathEntry(
    id: string,
    name: string,
    nodeType: string,
    coordinates: LatLng,
    task: string,
    holdTime: Duration,
    taskDuration: Option<ExpectedTime>)

  datatype DockEntry = DockEntry(id: string, name: string, coordinates: LatLng, holdTime: Duration)

  datatype MissionStatus = MissionStatus(missionEnded: bool, loopDetected: bool, hasWorkZone: bool)

  datatype WorkZoneEntry = WorkZoneEntry(enabled: bool, points: seq<LatLng>)

  datatype ExportDocument = ExportDocument(
    metadata: Metadata,
    missionStatus: MissionStatus,
    workZone: WorkZoneEntry,
    missionPath: seq<PathEntry>,
    safetyDocks: seq<DockEntry>)

  /** One entry of `missionPath`; a task duration of 0 is falsy in JavaScript and is
      exported as `null`, like a missing one. */
  function PathEntryOf(n: MissionNode): PathEntry {
    PathEntry(n.id, n.name, TypeName(n.nodeType), n.pos, n.task,
              Duration(n.holdTime, "seconds"),
              if n.taskDuration.None? || n.taskDuration.value == 0 then None
              else Some(ExpectedTime(n.taskDuration.value, "seconds")))
  }

  /** One entry of `safetyDocks` (`n.holdTime || 0` is `n.holdTime` for a number). */
  function DockEntryOf(n: MissionNode): DockEntry {
    DockEntry(n.id, n.name, n.pos, Duration(n.holdTime, "seconds"))
  }

  /** Reads a path entry back into a node. */
  function NodeOfPathEntry(e: PathEntry): MissionNode {
    MissionNode(e.id, e.name, e.task, ParseNodeType(e.nodeType), e.coordinates, e.holdTime.duration,
                if e.taskDuration.None? then None else Some(e.taskDuration.value.expectedTime))
  }

  /** Exporting a node loses nothing except the difference between a task duration
      of zero and none: the entry reads back as the node exactly when its task
      duration is not zero. */
  lemma PathEntryRoundTrip(n: MissionNode)
    requires WellTyped(n.nodeType)
    ensures NodeOfPathEntry(PathEntryOf(n)) == n <==> n.taskDuration != Some(0)
    ensures NodeOfPathEntry(PathEntryOf(n)) == n.(taskDuration := if n.taskDuration == Some(0) then None else n.taskDuration)
  {
    NodeTypeRoundTrip("", n.nodeType);
  }

  /** The record built from the session after the service-location update. */
  function BuildExport(s: Session): (d: ExportDocument)
    ensures d.metadata == s.metadata
    ensures d.missionStatus == MissionStatus(s.missionEnded, s.loopDetected, s.zone.polygon.Some?)
    ensures d.workZone.enabled == s.zone.polygon.Some?
    ensures d.workZone.points == if s.zone.polygon.Some? then s.zone.polygon.value else []
    ensures |d.missionPath| == |s.missionNodes| && |d.safetyDocks| == |s.safetyDocks|
    ensures forall i :: 0 <= i < |s.missionNodes| ==>
              && d.missionPath[i].id == s.missionNodes[i].id
              && d.missionPath[i].name == s.missionNodes[i].name
              && d.missionPath[i].nodeType == TypeName(s.missionNodes[i].nodeType)
              && d.missionPath[i].coordinates == s.missionNodes[i].pos
              && d.missionPath[i].task == s.missionNodes[i].task
              && d.missionPath[i].holdTime == Duration(s.missionNodes[i].holdTime, "seconds")
              && (d.missionPath[i].taskDuration.None? <==>
                    s.missionNodes[i].taskDuration.None? || s.missionNodes[i].taskDuration == Some(0))
              && (d.missionPath[i].taskDuration.Some? ==>
                    && Some(d.missionPath[i].taskDuration.value.expectedTime) == s.missionNodes[i].taskDuration
                    && d.missionPath[i].taskDuration.value.unit == "seconds")
    ensures forall i :: 0 <= i < |s.safetyDocks| ==>
              && d.safetyDocks[i].id == s.safetyDocks[i].id
              && d.safetyDocks[i].name == s.safetyDocks[i].name
              && d.safetyDocks[i].coordinates == s.safetyDocks[i].pos
              && d.safetyDocks[i].holdTime == Duration(s.safetyDocks[i].holdTime, "seconds")
  {
    ExportDocument(
      s.metadata,
      MissionStatus(s.missionEnded, s.loopDetected, s.zone.polygon.Some?),
      if s.zone.polygon.Some? then WorkZoneEntry(true, s.zone.polygon.value) else WorkZoneEntry(false, []),
      seq(|s.missionNodes|, i requires 0 <= i < |s.missionNodes| => PathEntryOf(s.missionNodes[i])),
      seq(|s.safetyDocks|, i requires 0 <= i < |s.safetyDocks| => DockEntryOf(s.safetyDocks[i])))
  }

  /** The whole export: the session with its service location written, and the
      record built from it. */
  function ExportMission(s: Session): (r: (Session, ExportDocument)) {
    var s1 := RecordServiceLocation(s);
    (s1, BuildExport(s1))
  }

  /** In a reachable session the exported service location is the first node's
      position exactly for an "infinity" mission with at least one node, and
      `null` otherwise. */
  lemma ExportedServiceLocation(s: Session)
    requires Valid(s)
    ensures ExportMission(s).1.metadata.missionType.serviceLocation ==
              if s.metadata.missionType.kind == "infinity" && |s.missionNodes| > 0
              then Some(s.missionNodes[0].pos) else None
  {
  }

  /** The path entries read back into the session's nodes, up to zero task durations. */
  lemma ExportedPathReadsBack(s: Session, i: nat)
    requires Valid(s) && i < |s.missionNodes|
    ensures s.missionNodes[i].taskDuration != Some(0) ==>
              NodeOfPathEntry(BuildExport(s).missionPath[i]) == s.missionNodes[i]
  {
    assert WellFormedNode(s.missionNodes[i]);
    PathEntryRoundTrip(s.missionNodes[i]);
  }

  /** A hold node H1 with a 90-second hold exports `holdTime: {duration: 90, unit: "seconds"}`. */
  lemma HoldNodeExport(s: Session, pos: LatLng)
    requires |s.missionNodes| == 1
    requires s.missionNodes[0] == MissionNode("H1", "Hold one", "wait", Hold, pos, 90, Some(30))
    ensures BuildExport(s).missionPath[0].holdTime == Duration(90, "seconds")
    ensures BuildExport(s).missionPath[0].nodeType == "hold"
    ensures BuildExport(s).missionPath[0].taskDuration == Some(ExpectedTime(30, "seconds"))
  {
  }

  /** After a clear the export is the empty mission with default metadata. */
  lemma ExportAfterClear(s: Session, isoNow: string)
    ensures ExportMission(Clear(s, isoNow)).1 ==
              ExportDocument(DefaultMetadata(isoNow), MissionStatus(false, false, false),
                             WorkZoneEntry(false, []), [], [])
  {
  }

  /** `mission-plan-${missionName || 'unnamed'}.json` */
  function ExportFileName(missionName: string): (r: string)
    ensures |r| == 18 + (if missionName == "" then 7 else |missionName|)
    ensures r[..13] == "mission-plan-" && r[|r| - 5..] == ".json"
    ensures r[13..|r| - 5] == if missionName == "" then "unnamed" else missionName
  {
    "mission-plan-" + (if missionName == "" then "unnamed" else missionName) + ".json"
  }

  /** The mission name read back from a file name. */
  function MissionNameOfFileName(file: string): string
    requires |file| >= 18
  {
    file[13..|file| - 5]
  }

  /** The file name gives back any non-empty mission name; an empty one becomes
      "unnamed". */
  lemma FileNameRoundTrip(missionName: string)
    ensures MissionNameOfFileName(ExportFileName(missionName)) == if missionName == "" then "unnamed" else missionName
  {
  }
}
