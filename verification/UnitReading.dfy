/**
 * From the bytes of a unit file to what the protocol model keeps of them: the marker, the
 * whole-file search for Where= and What=, and the validated body (src/core/verify.cpp).
 */
module UnitReading {
  import opened Types
  import opened Strings
  import opened UnitValue
  import opened UnitSpec
  import opened Sections
  import opened UnitBodies
  import opened RoundTrip
  import World
  import Operations

  // --- the whole-file search ---------------------------------------------------------------

  /** The last assignment to the key, in whatever section it stands. */
  function LastAssigned(lines: seq<string>, key: string): Option<string> {
    var vs := Assigned(lines, key);
    if vs == [] then None else Some(vs[|vs| - 1])
  }

  lemma StartsIsAssigned(line: string, key: string)
    requires IsKey(key)
    ensures AssignedBy(line, key) == if key + "=" <= line then [line[|key| + 1..]] else []
  {
    if key + "=" <= line {
      var value := line[|key| + 1..];
      assert line == Assign(key, value);
      AssignIsRead(key, value);
    }
  }

  lemma OneLineMore(lines: seq<string>, i: nat, key: string)
    requires IsKey(key) && i < |lines|
    ensures LastAssigned(lines[..i + 1], key) ==
            if key + "=" <= lines[i] then Some(lines[i][|key| + 1..]) else LastAssigned(lines[..i], key)
  {
    assert lines[..i + 1] == lines[..i] + [lines[i]];
    AssignedConcat(lines[..i], [lines[i]], key);
    AssignedOne(lines[i], key);
    StartsIsAssigned(lines[i], key);
  }

  /** extractAssignment: a plain prefix match finds exactly the assignments. */
  method ExtractAssignment(content: string, key: string) returns (value: Option<string>)
    requires IsKey(key)
    ensures value == LastAssigned(Lines(content), key)
  {
    value := None;
    var lines, prefix := Lines(content), key + "=";
    for i := 0 to |lines|
      invariant value == LastAssigned(lines[..i], key)
    {
      OneLineMore(lines, i, key);
      if prefix <= lines[i] {
        value := Some(lines[i][|prefix|..]);
      }
    }
    assert lines[..|lines|] == lines;
  }

  lemma {:induction false} SectionAssignsInFile(lines: seq<string>, section: string, inside: bool, key: string)
    ensures Assigned(Body(lines, section, inside), key) != [] ==> Assigned(lines, key) != []
    decreases |lines|
  {
    if lines != [] {
      var rest := lines[1..];
      match Header(lines[0]) {
        case Some(h) => SectionAssignsInFile(rest, section, h == section, key);
        case None =>
          SectionAssignsInFile(rest, section, inside, key);
          if inside && !Blank(lines[0]) {
            AssignedConcat([lines[0]], Body(rest, section, inside), key);
            AssignedOne(lines[0], key);
          } else {
            assert Body(lines, section, inside) == Body(rest, section, inside);
          }
      }
      assert Assigned(lines, key) == AssignedBy(lines[0], key) + Assigned(rest, key);
    }
  }

  // --- the abstraction -------------------------------------------------------------------------

  /** The one mount point and address a mount body is valid for. */
  function MountBodyOf(lines: seq<string>, m: Marker): Option<World.Body> {
    var ws := Assigned(Body(lines, "Mount", false), "Where");
    if |ws| != 1 then None
    else match AcceptedMount(lines, m, UndoublePercent(ws[0]))
      case Some(what) => Some(World.Body(UndoublePercent(ws[0]), what))
      case None => None
  }

  function AutomountBodyOf(lines: seq<string>): Option<World.Body> {
    var ws := Assigned(Body(lines, "Automount", false), "Where");
    if |ws| == 1 && AcceptedAutomount(lines, UndoublePercent(ws[0]))
    then Some(World.Body(UndoublePercent(ws[0]), ""))
    else None
  }

  function ScannedWhat(lines: seq<string>, half: World.Half): string {
    match LastAssigned(lines, "What")
    case Some(v) => if half == World.MountHalf then UndoublePercent(v) else ""
    case None => ""
  }

  function PlacesOf(lines: seq<string>, m: Marker, half: World.Half): Option<World.Places> {
    match LastAssigned(lines, "Where")
    case None => None
    case Some(v) =>
      var body := if half == World.MountHalf then MountBodyOf(lines, m) else AutomountBodyOf(lines);
      Some(World.Places(UndoublePercent(v), ScannedWhat(lines, half), body))
  }

  /** What the protocol model keeps of a unit file's text. */
  function TextOf(content: string, half: World.Half): World.Text {
    var lines := Lines(content);
    if !HasMarker(lines) then World.NoMarker
    else match MarkerOf(lines)
      case None => World.BadMarker
      case Some(m) => World.Marked(m, PlacesOf(lines, m, half))
  }

  /** One half, judged from its text for an owner and a mount point. */
  function SideOfText(content: string, half: World.Half, uid: nat, mountPoint: string): World.Side {
    var lines := Lines(content);
    if !HasMarker(lines) then World.Unmarked
    else match MarkerOf(lines)
      case None => World.Broken
      case Some(m) => if m.uid != uid then World.Broken else BodySide(lines, m, half, mountPoint)
  }

  function BodySide(lines: seq<string>, m: Marker, half: World.Half, mountPoint: string): World.Side {
    if half == World.MountHalf then
      match AcceptedMount(lines, m, mountPoint)
      case Some(what) => World.Valid(m, what)
      case None => World.Broken
    else if AcceptedAutomount(lines, mountPoint) then World.Valid(m, "")
    else World.Broken
  }

  /**
   * evaluateMountSide and evaluateAutomountSide, on a file that is there: parsing and
   * validating its text comes to what the protocol reads off its own picture of that file.
   */
  method EvaluateSide(content: string, half: World.Half, uid: nat, mountPoint: string,
                      ghost units: map<World.File, World.UnitFile>)
    returns (side: World.Side)
    requires var f := World.File(mountPoint, half); f in units && units[f].text == TextOf(content, half)
    ensures side == World.SideOf(units, World.File(mountPoint, half), uid)
  {
    SideAgrees(units, World.File(mountPoint, half), content, uid);
    if !HasMarker(Lines(content)) { return World.Unmarked; }
    var marker := ParseMarker(content);
    if marker.None? || marker.value.uid != uid { return World.Broken; }
    if half == World.MountHalf {
      var what := ValidateMountUnitBody(content, marker.value, mountPoint);
      return if what.Some? then World.Valid(marker.value, what.value) else World.Broken;
    }
    var ok := ValidateAutomountUnitBody(content, marker.value, mountPoint);
    return if ok then World.Valid(marker.value, "") else World.Broken;
  }

  lemma AcceptedMountPlace(lines: seq<string>, m: Marker, p: string)
    ensures AcceptedMount(lines, m, p).Some? ==>
              MountBodyOf(lines, m) == Some(World.Body(p, AcceptedMount(lines, m, p).value))
    ensures AcceptedMount(lines, m, p).Some? ==> LastAssigned(lines, "Where").Some?
    ensures MountBodyOf(lines, m).Some? && MountBodyOf(lines, m).value.where == p ==>
              AcceptedMount(lines, m, p) == Some(MountBodyOf(lines, m).value.what)
  {
    SectionAssignsInFile(lines, "Mount", false, "Where");
  }

  lemma AcceptedAutomountPlace(lines: seq<string>, p: string)
    ensures AcceptedAutomount(lines, p) ==> AutomountBodyOf(lines) == Some(World.Body(p, ""))
    ensures AcceptedAutomount(lines, p) ==> LastAssigned(lines, "Where").Some?
    ensures AutomountBodyOf(lines).Some? && AutomountBodyOf(lines).value.where == p ==> AcceptedAutomount(lines, p)
    ensures AutomountBodyOf(lines).Some? ==> AutomountBodyOf(lines).value.what == ""
  {
    SectionAssignsInFile(lines, "Automount", false, "Where");
    if AcceptedAutomount(lines, p) { EncodedValue(p); }
  }

  /** The picture of the text holds a valid body for the mount point p. */
  predicate BodyAt(places: Option<World.Places>, p: string) {
    places.Some? && places.value.body.Some? && places.value.body.value.where == p
  }

  lemma MountJudged(lines: seq<string>, m: Marker, p: string)
    ensures var places := PlacesOf(lines, m, World.MountHalf);
            BodySide(lines, m, World.MountHalf, p) ==
            if BodyAt(places, p) then World.Valid(m, places.value.body.value.what) else World.Broken
  {
    AcceptedMountPlace(lines, m, p);
  }

  lemma AutomountJudged(lines: seq<string>, m: Marker, p: string)
    ensures BodySide(lines, m, World.AutomountHalf, p) ==
            if BodyAt(PlacesOf(lines, m, World.AutomountHalf), p) then World.Valid(m, "") else World.Broken
  {
    AcceptedAutomountPlace(lines, p);
  }

  /** What the protocol reads off its picture of a marked file. */
  lemma MarkedSide(units: map<World.File, World.UnitFile>, f: World.File, m: Marker, places: Option<World.Places>,
                   uid: nat)
    requires f in units && units[f].text == World.Marked(m, places) && m.uid == uid
    ensures World.SideOf(units, f, uid) ==
            if BodyAt(places, f.name)
            then World.Valid(m, if f.half == World.MountHalf then places.value.body.value.what else "")
            else World.Broken
  {
  }

  /** The abstraction loses nothing the inspection looks at: judging it is judging the text. */
  lemma SideAgrees(units: map<World.File, World.UnitFile>, f: World.File, content: string, uid: nat)
    requires f in units && units[f].text == TextOf(content, f.half)
    ensures World.SideOf(units, f, uid) == SideOfText(content, f.half, uid, f.name)
  {
    var lines := Lines(content);
    if HasMarker(lines) && MarkerOf(lines).Some? && MarkerOf(lines).value.uid == uid {
      var m := MarkerOf(lines).value;
      MarkedSide(units, f, m, PlacesOf(lines, m, f.half), uid);
      match f.half
      case MountHalf => MountJudged(lines, m, f.name);
      case AutomountHalf => AutomountJudged(lines, m, f.name);
    }
  }

  // --- what define writes -----------------------------------------------------------------------

  lemma NotAnAssignment(line: string, key: string)
    requires line == "" || line[0] == '#' || line[0] == '['
    ensures AssignedBy(line, key) == []
  {
  }

  lemma {:induction false} NoneAssigned(lines: seq<string>, key: string)
    requires forall line :: line in lines ==> line == "" || line[0] == '#' || line[0] == '['
    ensures Assigned(lines, key) == []
    decreases |lines|
  {
    if lines != [] {
      NotAnAssignment(lines[0], key);
      NoneAssigned(lines[1..], key);
    }
  }

  lemma {:induction false} FieldLinesAreComments(fields: seq<FieldValue>)
    ensures forall line :: line in FieldLines(fields) ==> line != "" && line[0] == '#'
    decreases |fields|
  {
    if fields != [] {
      FieldLinesAreComments(fields[1..]);
      assert FieldLine(fields[0].0, fields[0].1)[0] == PREFIX[0];
    }
  }

  /** In a generated file a key is assigned by its two sections and by nothing else. */
  lemma FileAssigns(m: Marker, unit: seq<Pair>, section: string, pairs: seq<Pair>, key: string)
    requires ValidMarker(m) && PlainPairs(unit) && PlainPairs(pairs) && IsName(section)
    ensures Assigned(Lines(Unlines(UnitFile(m, unit, section, pairs))), key) ==
            Assigned(AssignLines(unit), key) + Assigned(AssignLines(pairs), key)
  {
    FileLines(m, unit, section, pairs);
    BeforeAssignsNothing(m, key);
    SectionsAssign([HEADER] + MarkerLines(m), "Unit", AssignLines(unit), section, AssignLines(pairs), key);
  }

  lemma SectionsAssign(before: seq<string>, n1: string, b1: seq<string>, n2: string, b2: seq<string>, key: string)
    requires Assigned(before, key) == []
    ensures Assigned(before + ([Bracketed(n1)] + ((b1 + [""]) + ([Bracketed(n2)] + (b2 + [""])))), key) ==
            Assigned(b1, key) + Assigned(b2, key)
  {
    var second := [Bracketed(n2)] + (b2 + [""]);
    AssignedConcat(before, [Bracketed(n1)] + ((b1 + [""]) + second), key);
    SectionAssigns(n1, b1, second, key);
    SectionAssigns(n2, b2, [], key);
    assert b2 + [""] + [] == b2 + [""];
  }

  lemma BeforeAssignsNothing(m: Marker, key: string)
    ensures Assigned([HEADER] + MarkerLines(m), key) == []
  {
    FieldLinesAreComments(Printed(m));
    HeaderStartsWithHash();
    NoneAssigned([HEADER] + MarkerLines(m), key);
  }

  /** A key of the second section that the first does not use has the value it was written with. */
  lemma FileAssignsAt(m: Marker, unit: seq<Pair>, section: string, pairs: seq<Pair>, i: nat)
    requires ValidMarker(m) && PlainPairs(unit) && PlainPairs(pairs) && IsName(section) && i < |pairs|
    requires forall p :: p in unit ==> p.0 != pairs[i].0
    ensures LastAssigned(Lines(Unlines(UnitFile(m, unit, section, pairs))), pairs[i].0) == Some(pairs[i].1)
  {
    FileAssigns(m, unit, section, pairs, pairs[i].0);
    AssignedAbsent(unit, pairs[i].0);
    AssignedWritten(pairs, i);
  }

  lemma SectionAssigns(name: string, body: seq<string>, rest: seq<string>, key: string)
    ensures Assigned([Bracketed(name)] + ((body + [""]) + rest), key) == Assigned(body, key) + Assigned(rest, key)
  {
    NoneAssigned([Bracketed(name)], key);
    NoneAssigned([""], key);
    AssignedConcat([Bracketed(name)], (body + [""]) + rest, key);
    AssignedConcat(body + [""], rest, key);
    AssignedConcat(body, [""], key);
  }

  lemma HeaderStartsWithHash()
    ensures HEADER != "" && HEADER[0] == '#'
  {
    assert "# Managed by nasmount "[0] == '#';
  }

  lemma GeneratedHasMarker(m: Marker, unit: seq<Pair>, section: string, pairs: seq<Pair>)
    requires ValidMarker(m) && PlainPairs(unit) && PlainPairs(pairs) && IsName(section)
    ensures HasMarker(Lines(Unlines(UnitFile(m, unit, section, pairs))))
  {
    FileLines(m, unit, section, pairs);
    PrintedAdmitted(m);
    var line := FieldLine(Managed, "1");
    assert Printed(m)[0] == (Managed, "1");
    GivenFieldLine(Managed, "1", Managed);
    assert FieldLines(Printed(m))[0] == line;
    assert line in [HEADER] + MarkerLines(m) + AfterMarker(unit, section, pairs);
  }

  lemma MountFileAssigns(m: Marker, unc: string, w: string, e: string, o: string)
    requires ValidMarker(m) && EncodeUnitValue(unc).Some? && Plain(w) && Plain(e) && Plain(o)
    ensures var lines := Lines(Unlines(UnitFile(m, MountUnitPairs(unc), "Mount", MountPairs(w, e, o))));
            LastAssigned(lines, "What") == Some(w) && LastAssigned(lines, "Where") == Some(e)
  {
    var unit, pairs := MountUnitPairs(unc), MountPairs(w, e, o);
    MountUnitIsPlain(unc);
    MountPairsArePlain(w, e, o);
    assert IsName("Mount");
    assert "Description"[0] == 'D' && pairs[0].0 == "What" && pairs[1].0 == "Where";
    FileAssignsAt(m, unit, "Mount", pairs, 0);
    FileAssignsAt(m, unit, "Mount", pairs, 1);
  }

  lemma AutomountFileAssigns(m: Marker, mountPoint: string, e: string)
    requires ValidMarker(m) && EncodeUnitValue(mountPoint) == Some(e)
    ensures var lines := Lines(Unlines(UnitFile(m, AutomountUnitPairs(mountPoint, e), "Automount", AutomountPairs(e))));
            LastAssigned(lines, "Where") == Some(e)
  {
    var unit, pairs := AutomountUnitPairs(mountPoint, e), AutomountPairs(e);
    AutomountUnitIsPlain(mountPoint);
    EncodedIsPlain(mountPoint);
    AutomountPairsArePlain(e);
    assert IsName("Automount");
    assert "Description"[0] == 'D' && "ConditionPathIsDirectory"[0] == 'C' && pairs[0].0 == "Where";
    FileAssignsAt(m, unit, "Automount", pairs, 0);
  }

  /** What the reader sees, put together. */
  lemma TextFrom(content: string, half: World.Half, m: Marker, location: string, body: World.Body)
    requires HasMarker(Lines(content)) && MarkerOf(Lines(content)) == Some(m)
    requires LastAssigned(Lines(content), "Where") == Some(location)
    requires Some(body) ==
             if half == World.MountHalf then MountBodyOf(Lines(content), m) else AutomountBodyOf(Lines(content))
    ensures TextOf(content, half) ==
            World.Marked(m, Some(World.Places(UndoublePercent(location), ScannedWhat(Lines(content), half),
                                              Some(body))))
  {
  }

  lemma MountFileText(m: Marker, unc: string, w: string, e: string, o: string)
    requires ValidMarker(m) && EncodeUnitValue(unc).Some? && Plain(w) && Plain(e) && Plain(o)
    ensures HasMarker(Lines(Unlines(UnitFile(m, MountUnitPairs(unc), "Mount", MountPairs(w, e, o)))))
  {
    MountUnitIsPlain(unc);
    MountPairsArePlain(w, e, o);
    assert IsName("Mount");
    GeneratedHasMarker(m, MountUnitPairs(unc), "Mount", MountPairs(w, e, o));
  }

  lemma MountTextIsRead(m: Marker, unc: string, mountPoint: string)
    requires ValidMarker(m) && ValidateUnc(unc).Some?
    requires BuildMountUnitContent(m, unc, mountPoint).Some?
    ensures TextOf(BuildMountUnitContent(m, unc, mountPoint).value, World.MountHalf) ==
            World.Marked(m, Some(World.Places(mountPoint, unc, Some(World.Body(mountPoint, unc)))))
  {
    var content := BuildMountUnitContent(m, unc, mountPoint).value;
    var w, e := EncodeUnitValue(unc).value, EncodeUnitValue(mountPoint).value;
    var o := EncodeUnitValue(MountOptionsFor(m)).value;
    MountRoundTrip(m, unc, mountPoint);
    AcceptedMountPlace(Lines(content), m, mountPoint);
    EncodedIsPlain(unc);
    EncodedIsPlain(mountPoint);
    EncodedIsPlain(MountOptionsFor(m));
    EncodedValue(unc);
    EncodedValue(mountPoint);
    MountFileText(m, unc, w, e, o);
    MountFileAssigns(m, unc, w, e, o);
    TextFrom(content, World.MountHalf, m, e, World.Body(mountPoint, unc));
  }

  lemma AutomountFileText(m: Marker, mountPoint: string, e: string)
    requires ValidMarker(m) && EncodeUnitValue(mountPoint) == Some(e)
    ensures HasMarker(Lines(Unlines(UnitFile(m, AutomountUnitPairs(mountPoint, e), "Automount", AutomountPairs(e)))))
  {
    AutomountUnitIsPlain(mountPoint);
    EncodedIsPlain(mountPoint);
    AutomountPairsArePlain(e);
    assert IsName("Automount");
    GeneratedHasMarker(m, AutomountUnitPairs(mountPoint, e), "Automount", AutomountPairs(e));
  }

  lemma AutomountTextIsRead(m: Marker, mountPoint: string)
    requires ValidMarker(m) && BuildAutomountUnitContent(m, mountPoint).Some?
    ensures TextOf(BuildAutomountUnitContent(m, mountPoint).value, World.AutomountHalf) ==
            World.Marked(m, Some(World.Places(mountPoint, "", Some(World.Body(mountPoint, "")))))
  {
    var content := BuildAutomountUnitContent(m, mountPoint).value;
    var e := EncodeUnitValue(mountPoint).value;
    AutomountRoundTrip(m, mountPoint);
    AcceptedAutomountPlace(Lines(content), mountPoint);
    EncodedValue(mountPoint);
    AutomountFileText(m, mountPoint, e);
    AutomountFileAssigns(m, mountPoint, e);
    TextFrom(content, World.AutomountHalf, m, e, World.Body(mountPoint, ""));
  }

  /** The two files define writes in the protocol model are the two files the generator produces. */
  lemma GeneratedFilesAreTheNewHalves(input: Operations.DefineInput, id: string)
    requires ValidMarker(Operations.NewMarker(input, id)) && ValidateUnc(input.unc).Some?
    requires Operations.Encodable(input)
    ensures var m := Operations.NewMarker(input, id);
            var mount := BuildMountUnitContent(m, input.unc, input.name);
            var automount := BuildAutomountUnitContent(m, input.name);
            && mount.Some? && automount.Some?
            && TextOf(mount.value, World.MountHalf) == Operations.NewHalf(input, id, World.MountHalf).text
            && TextOf(automount.value, World.AutomountHalf) == Operations.NewHalf(input, id, World.AutomountHalf).text
  {
    var m := Operations.NewMarker(input, id);
    MountRoundTrip(m, input.unc, input.name);
    MountTextIsRead(m, input.unc, input.name);
    AutomountTextIsRead(m, input.name);
  }
}
