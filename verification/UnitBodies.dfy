/**
 * The generated unit files and the validator of their bodies (build*UnitContent and
 * validate*UnitBody in src/core/unitspec.cpp).
 */
module UnitBodies {
  import opened Types
  import opened Strings
  import opened UnitValue
  import opened UnitSpec
  import opened Sections

  // --- generation --------------------------------------------------------------------------

  const EM_DASH := '\U{2014}'

  const HEADER := "# Managed by nasmount " + [EM_DASH] + " do not edit by hand;" + " use the KCM or the dialog."

  function EscapeChar(c: char): string {
    match c
    case '&' => "&amp;"
    case '<' => "&lt;"
    case '>' => "&gt;"
    case '"' => "&quot;"
    case _ => [c]
  }

  /** QString::toHtmlEscaped */
  function HtmlEscaped(s: string): string {
    if s == "" then "" else EscapeChar(s[0]) + HtmlEscaped(s[1..])
  }

  /** A unit file: header, marker block, [Unit] and one more section. */
  function UnitFile(m: Marker, unit: seq<Pair>, section: string, pairs: seq<Pair>): seq<string> {
    TwoSections([HEADER] + MarkerLines(m), "Unit", AssignLines(unit) + [""], section, AssignLines(pairs))
  }

  function MountPairs(what: string, location: string, options: string): seq<Pair> {
    [("What", what), ("Where", location), ("Type", "cifs"), ("Options", options), ("TimeoutSec", "30")]
  }

  function MountUnitPairs(unc: string): seq<Pair> {
    [("Description", "nasmount: " + HtmlEscaped(unc))]
  }

  function AutomountPairs(location: string): seq<Pair> {
    [("Where", location), ("TimeoutIdleSec", "60"), ("DirectoryMode", "0700")]
  }

  function AutomountUnitPairs(mountPoint: string, location: string): seq<Pair> {
    [("Description", "nasmount automount: " + HtmlEscaped(mountPoint)), ("ConditionPathIsDirectory", location)]
  }

  function BuildMountUnitContent(m: Marker, unc: string, mountPoint: string): Option<string> {
    var what, location, options :=
      EncodeUnitValue(unc), EncodeUnitValue(mountPoint), EncodeUnitValue(MountOptionsFor(m));
    if what.None? || location.None? || options.None? then None
    else Some(Unlines(UnitFile(m, MountUnitPairs(unc), "Mount",
                               MountPairs(what.value, location.value, options.value))))
  }

  function BuildAutomountUnitContent(m: Marker, mountPoint: string): Option<string> {
    match EncodeUnitValue(mountPoint)
    case None => None
    case Some(location) => Some(Unlines(UnitFile(m, AutomountUnitPairs(mountPoint, location), "Automount",
                                                 AutomountPairs(location))))
  }

  // --- validation ----------------------------------------------------------------------------

  const MOUNT_KEYS := ["What", "Where", "Type", "Options", "TimeoutSec"]
  const AUTOMOUNT_KEYS := ["Where", "TimeoutIdleSec", "DirectoryMode"]
  const UNIT_KEYS := ["Description", "ConditionPathIsDirectory"]

  predicate HasLineContinuation(lines: seq<string>) {
    exists line | line in lines :: EndsWith(line, '\\')
  }

  /** The section is there, assigns only these keys, and these required ones exactly once. */
  predicate SectionFits(lines: seq<string>, section: string, allowed: seq<string>, needed: seq<string>) {
    var body := Body(lines, section, false);
    Headed(lines, section) && WellFormed(body, allowed) && Once(body, needed)
  }

  /** What a mount unit's values must be; two of them only up to percent doubling. */
  predicate MountValuesFit(body: seq<string>, m: Marker, mountPoint: string) {
    && Assigned(body, "Type") == ["cifs"]
    && Assigned(body, "TimeoutSec") == ["30"]
    && EncodeUnitValue(MountOptionsFor(m)).Some?
    && Assigned(body, "Options") == [EncodeUnitValue(MountOptionsFor(m)).value]
    && |Assigned(body, "Where")| == 1 == |Assigned(body, "What")|
    && UndoublePercent(Assigned(body, "Where")[0]) == mountPoint
    && ValidateUnc(UndoublePercent(Assigned(body, "What")[0])).Some?
  }

  /** The address in an accepted mount unit. */
  function AcceptedMount(lines: seq<string>, m: Marker, mountPoint: string): Option<string> {
    var body := Body(lines, "Mount", false);
    if !HasLineContinuation(lines) && SectionFits(lines, "Mount", MOUNT_KEYS, MOUNT_KEYS)
       && MountValuesFit(body, m, mountPoint)
    then Some(UndoublePercent(Assigned(body, "What")[0]))
    else None
  }

  predicate AcceptedAutomount(lines: seq<string>, mountPoint: string) {
    var body, unit := Body(lines, "Automount", false), Body(lines, "Unit", false);
    && !HasLineContinuation(lines)
    && SectionFits(lines, "Automount", AUTOMOUNT_KEYS, AUTOMOUNT_KEYS)
    && SectionFits(lines, "Unit", UNIT_KEYS, UNIT_KEYS[1..])
    && EncodeUnitValue(mountPoint).Some?
    && Assigned(body, "Where") == [EncodeUnitValue(mountPoint).value]
    && Assigned(unit, "ConditionPathIsDirectory") == [EncodeUnitValue(mountPoint).value]
    && Assigned(body, "TimeoutIdleSec") == ["60"]
    && Assigned(body, "DirectoryMode") == ["0700"]
  }

  /** Extraction followed by the check that no required key is missing. */
  method ExtractNeeded(content: string, section: string, allowed: seq<string>, needed: seq<string>)
      returns (r: Option<map<string, string>>)
    ensures r.Some? <==> SectionFits(Lines(content), section, allowed, needed)
    ensures r.Some? ==> Holds(r.value, Body(Lines(content), section, false)) && forall k :: k in needed ==> k in r.value
  {
    r := ExtractSectionAssignments(content, section, allowed);
    ghost var body := Body(Lines(content), section, false);
    if r.Some? && !(forall k | k in needed :: k in r.value) {
      var k :| k in needed && k !in r.value;
      assert Assigned(body, k) == [];
      r := None;
    }
  }

  lemma HeldValue(values: map<string, string>, body: seq<string>, key: string)
    requires Holds(values, body) && key in values
    ensures Assigned(body, key) == [values[key]]
  {
  }

  method ValidateMountUnitBody(content: string, m: Marker, mountPoint: string) returns (what: Option<string>)
    ensures what == AcceptedMount(Lines(content), m, mountPoint)
  {
    if HasLineContinuation(Lines(content)) { return None; }
    var extracted := ExtractNeeded(content, "Mount", MOUNT_KEYS, MOUNT_KEYS);
    if extracted.None? { return None; }
    what := CheckMountValues(extracted.value, Body(Lines(content), "Mount", false), m, mountPoint);
  }

  method CheckMountValues(values: map<string, string>, ghost body: seq<string>, m: Marker, mountPoint: string)
      returns (what: Option<string>)
    requires Holds(values, body) && forall k :: k in MOUNT_KEYS ==> k in values
    ensures what == if MountValuesFit(body, m, mountPoint)
                    then Some(UndoublePercent(Assigned(body, "What")[0])) else None
  {
    MountKeysHeld(values, body);
    if values["Type"] != "cifs" || values["TimeoutSec"] != "30" { return None; }
    if UndoublePercent(values["Where"]) != mountPoint { return None; }
    var decodedUnc := UndoublePercent(values["What"]);
    if ValidateUnc(decodedUnc).None? { return None; }
    var expected := EncodeUnitValue(MountOptionsFor(m));
    if expected.None? || values["Options"] != expected.value { return None; }
    what := Some(decodedUnc);
  }

  lemma MountKeysHeld(values: map<string, string>, body: seq<string>)
    requires Holds(values, body) && forall k :: k in MOUNT_KEYS ==> k in values
    ensures "What" in values && "Where" in values && "Type" in values && "Options" in values && "TimeoutSec" in values
    ensures Assigned(body, "What") == [values["What"]] && Assigned(body, "Where") == [values["Where"]]
    ensures Assigned(body, "Type") == [values["Type"]] && Assigned(body, "Options") == [values["Options"]]
    ensures Assigned(body, "TimeoutSec") == [values["TimeoutSec"]]
  {
    forall i | 0 <= i < |MOUNT_KEYS|
      ensures MOUNT_KEYS[i] in values && Assigned(body, MOUNT_KEYS[i]) == [values[MOUNT_KEYS[i]]]
    {
      HeldValue(values, body, MOUNT_KEYS[i]);
    }
    assert MOUNT_KEYS[0] == "What" && MOUNT_KEYS[1] == "Where" && MOUNT_KEYS[2] == "Type"
           && MOUNT_KEYS[3] == "Options" && MOUNT_KEYS[4] == "TimeoutSec";
  }

  method ValidateAutomountUnitBody(content: string, m: Marker, mountPoint: string) returns (ok: bool)
    ensures ok <==> AcceptedAutomount(Lines(content), mountPoint)
  {
    if HasLineContinuation(Lines(content)) { return false; }
    var values := ExtractNeeded(content, "Automount", AUTOMOUNT_KEYS, AUTOMOUNT_KEYS);
    if values.None? { return false; }
    var unitValues := ExtractNeeded(content, "Unit", UNIT_KEYS, UNIT_KEYS[1..]);
    if unitValues.None? { return false; }
    var expected := EncodeUnitValue(mountPoint);
    AutomountKeysHeld(values.value, Body(Lines(content), "Automount", false),
                      unitValues.value, Body(Lines(content), "Unit", false));
    if expected.None? { return false; }
    ok := values.value["Where"] == expected.value && unitValues.value["ConditionPathIsDirectory"] == expected.value
          && values.value["TimeoutIdleSec"] == "60" && values.value["DirectoryMode"] == "0700";
  }

  lemma AutomountKeysHeld(values: map<string, string>, body: seq<string>, unitValues: map<string, string>,
                          unit: seq<string>)
    requires Holds(values, body) && forall k :: k in AUTOMOUNT_KEYS ==> k in values
    requires Holds(unitValues, unit) && forall k :: k in UNIT_KEYS[1..] ==> k in unitValues
    ensures "Where" in values && "TimeoutIdleSec" in values && "DirectoryMode" in values
    ensures "ConditionPathIsDirectory" in unitValues
    ensures Assigned(body, "Where") == [values["Where"]]
    ensures Assigned(body, "TimeoutIdleSec") == [values["TimeoutIdleSec"]]
    ensures Assigned(body, "DirectoryMode") == [values["DirectoryMode"]]
    ensures Assigned(unit, "ConditionPathIsDirectory") == [unitValues["ConditionPathIsDirectory"]]
  {
    forall i | 0 <= i < |AUTOMOUNT_KEYS|
      ensures AUTOMOUNT_KEYS[i] in values && Assigned(body, AUTOMOUNT_KEYS[i]) == [values[AUTOMOUNT_KEYS[i]]]
    {
      HeldValue(values, body, AUTOMOUNT_KEYS[i]);
    }
    assert AUTOMOUNT_KEYS[0] == "Where" && AUTOMOUNT_KEYS[1] == "TimeoutIdleSec";
    assert AUTOMOUNT_KEYS[2] == "DirectoryMode";
    assert UNIT_KEYS[1..][0] == "ConditionPathIsDirectory";
    HeldValue(unitValues, unit, "ConditionPathIsDirectory");
  }
}
