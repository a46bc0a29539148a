/** Printer and validator of unit files against each other. */
module RoundTrip {
  import opened Types
  import opened Strings
  import opened UnitValue
  import opened UnitSpec
  import opened Sections
  import opened UnitBodies

  /** One line that does not continue on the next. */
  predicate Plain(s: string) {
    OneLine(s) && !EndsWith(s, '\\')
  }

  predicate PlainPairs(pairs: seq<Pair>) {
    DistinctKeys(pairs) && forall p | p in pairs :: Plain(p.1)
  }

  lemma AssignIsPlain(key: string, value: string)
    requires IsKey(key) && Plain(value)
    ensures Plain(Assign(key, value)) && !IsMarkerLine(Assign(key, value))
  {
    var line := Assign(key, value);
    assert line[0] == key[0];
    assert forall c :: c in key ==> IsKeyChar(c);
  }

  lemma AssignLinesArePlain(pairs: seq<Pair>)
    requires PlainPairs(pairs)
    ensures forall line :: line in AssignLines(pairs) ==>
              Plain(line) && !IsMarkerLine(line) && Header(line).None? && !Blank(line)
  {
    forall line | line in AssignLines(pairs)
      ensures Plain(line) && !IsMarkerLine(line) && Header(line).None? && !Blank(line)
    {
      var i :| 0 <= i < |pairs| && AssignLines(pairs)[i] == line;
      assert pairs[i] in pairs;
      AssignIsPlain(pairs[i].0, pairs[i].1);
      AssignIsRead(pairs[i].0, pairs[i].1);
    }
  }

  lemma BracketedIsPlain(name: string)
    requires IsName(name)
    ensures Plain(Bracketed(name)) && !IsMarkerLine(Bracketed(name))
  {
    assert Bracketed(name)[0] == '[';
    assert forall c :: c in name ==> IsLetter(c);
  }

  lemma AdmittedIsPlain(f: Field, v: string)
    requires Admits(f, v)
    ensures Plain(v) && v != ""
  {
    if f == OwnerUid || f == OwnerGid || f == Id {
      assert forall c :: c in v ==> IsLowerHex(c);
      assert v[|v| - 1] in v;
    }
  }

  lemma FieldLineIsPlain(f: Field, v: string)
    requires Admits(f, v)
    ensures Plain(FieldLine(f, v)) && Header(FieldLine(f, v)).None?
  {
    AdmittedIsPlain(f, v);
    var head := PREFIX + KeyOf(f);
    assert OneLine(PREFIX) && OneLine(KeyOf(f));
    assert FieldLine(f, v)[0] == PREFIX[0];
    assert FieldLine(f, v)[|FieldLine(f, v)| - 1] == v[|v| - 1];
  }

  lemma {:induction false} FieldLinesArePlain(fields: seq<FieldValue>)
    requires forall p :: p in fields ==> Admits(p.0, p.1)
    ensures forall line :: line in FieldLines(fields) ==> Plain(line) && Header(line).None?
    decreases |fields|
  {
    if fields != [] {
      assert fields[0] in fields;
      FieldLineIsPlain(fields[0].0, fields[0].1);
      FieldLinesArePlain(fields[1..]);
    }
  }

  lemma HeaderLineIsPlain()
    ensures Plain(HEADER) && Header(HEADER).None? && !IsMarkerLine(HEADER)
  {
    var head, middle, tail := "# Managed by nasmount ", " do not edit by hand;", " use the KCM or the dialog.";
    assert HEADER == head + [EM_DASH] + middle + tail;
    assert head[0] == '#' && head[2] == 'M' && PREFIX[2] == 'X';
    assert OneLine(head) && OneLine(middle);
    assert OneLine(tail) && !EndsWith(tail, '\\');
  }

  // --- reading a generated file ------------------------------------------------------------

  lemma BeforeIsPlain(m: Marker)
    requires ValidMarker(m)
    ensures forall line :: line in [HEADER] + MarkerLines(m) ==> Plain(line) && Header(line).None?
  {
    HeaderLineIsPlain();
    PrintedAdmitted(m);
    FieldLinesArePlain(Printed(m));
  }

  ghost function AfterMarker(unit: seq<Pair>, section: string, pairs: seq<Pair>): seq<string> {
    [Bracketed("Unit")] + ((AssignLines(unit) + [""]) + ([Bracketed(section)] + (AssignLines(pairs) + [""])))
  }

  lemma AfterIsPlain(unit: seq<Pair>, section: string, pairs: seq<Pair>)
    requires PlainPairs(unit) && PlainPairs(pairs) && IsName(section)
    ensures forall line :: line in AfterMarker(unit, section, pairs) ==> Plain(line) && !IsMarkerLine(line)
  {
    AssignLinesArePlain(unit);
    AssignLinesArePlain(pairs);
    assert IsName("Unit");
    BracketedIsPlain("Unit");
    BracketedIsPlain(section);
    assert Plain("") && !IsMarkerLine("");
  }

  /** The lines of a generated file are the lines it was made of, and one empty one at the end. */
  lemma FileLines(m: Marker, unit: seq<Pair>, section: string, pairs: seq<Pair>)
    requires ValidMarker(m) && PlainPairs(unit) && PlainPairs(pairs) && IsName(section)
    ensures Lines(Unlines(UnitFile(m, unit, section, pairs))) ==
            [HEADER] + MarkerLines(m) + AfterMarker(unit, section, pairs)
    ensures !HasLineContinuation(Lines(Unlines(UnitFile(m, unit, section, pairs))))
  {
    var file := UnitFile(m, unit, section, pairs);
    BeforeIsPlain(m);
    AfterIsPlain(unit, section, pairs);
    var whole := [HEADER] + MarkerLines(m) + AfterMarker(unit, section, pairs);
    assert file + [""] == whole;
    assert forall line :: line in file ==> line in whole;
    LinesUnlines(file);
  }

  lemma FileMarker(m: Marker, unit: seq<Pair>, section: string, pairs: seq<Pair>)
    requires ValidMarker(m) && PlainPairs(unit) && PlainPairs(pairs) && IsName(section)
    ensures MarkerOf(Lines(Unlines(UnitFile(m, unit, section, pairs)))) == Some(m)
  {
    FileLines(m, unit, section, pairs);
    AfterIsPlain(unit, section, pairs);
    HeaderLineIsPlain();
    assert forall line :: line in [HEADER] ==> !IsMarkerLine(line);
    PrintedMarkerIsRead([HEADER], m, AfterMarker(unit, section, pairs));
  }

  lemma FileBodies(m: Marker, unit: seq<Pair>, section: string, pairs: seq<Pair>)
    requires ValidMarker(m) && PlainPairs(unit) && PlainPairs(pairs) && IsName(section) && section != "Unit"
    ensures var lines := Lines(Unlines(UnitFile(m, unit, section, pairs)));
            && Headed(lines, "Unit") && Body(lines, "Unit", false) == AssignLines(unit)
            && Headed(lines, section) && Body(lines, section, false) == AssignLines(pairs)
  {
    FileLines(m, unit, section, pairs);
    BeforeIsPlain(m);
    AssignLinesArePlain(unit);
    AssignLinesArePlain(pairs);
    assert IsName("Unit") && Header("").None?;
    TwoBodies([HEADER] + MarkerLines(m), "Unit", AssignLines(unit) + [""], section, AssignLines(pairs) + [""]);
    NonBlankAll(AssignLines(unit));
    NonBlankAll(AssignLines(pairs));
  }

  /** Reading a generated file: its marker, and the assignments of each of its two sections. */
  lemma FileIsRead(m: Marker, unit: seq<Pair>, section: string, pairs: seq<Pair>)
    requires ValidMarker(m) && PlainPairs(unit) && PlainPairs(pairs) && IsName(section) && section != "Unit"
    ensures var lines := Lines(Unlines(UnitFile(m, unit, section, pairs)));
            && MarkerOf(lines) == Some(m) && !HasLineContinuation(lines)
            && Headed(lines, "Unit") && Body(lines, "Unit", false) == AssignLines(unit)
            && Headed(lines, section) && Body(lines, section, false) == AssignLines(pairs)
  {
    FileLines(m, unit, section, pairs);
    FileMarker(m, unit, section, pairs);
    FileBodies(m, unit, section, pairs);
  }

  lemma WrittenFits(lines: seq<string>, section: string, pairs: seq<Pair>)
    requires DistinctKeys(pairs) && Headed(lines, section) && Body(lines, section, false) == AssignLines(pairs)
    ensures SectionFits(lines, section, KeysOf(pairs), KeysOf(pairs))
    ensures forall p :: p in pairs ==> Assigned(Body(lines, section, false), p.0) == [p.1]
  {
    WrittenIsWellFormed(pairs);
    forall p | p in pairs ensures Assigned(Body(lines, section, false), p.0) == [p.1] {
      var i :| 0 <= i < |pairs| && pairs[i] == p;
      AssignedWritten(pairs, i);
    }
  }

  // --- escaping ----------------------------------------------------------------------------------

  lemma EscapeCharIsPlain(c: char)
    requires c != '\n' && c != '\\'
    ensures Plain(EscapeChar(c)) && EscapeChar(c) != ""
  {
  }

  lemma {:induction false} EscapedIsPlain(s: string)
    requires Plain(s)
    ensures Plain(HtmlEscaped(s)) && (s != "" ==> HtmlEscaped(s) != "")
    decreases |s|
  {
    if s != "" {
      assert s[0] in s;
      if s[0] != '\\' { EscapeCharIsPlain(s[0]); }
      EscapedIsPlain(s[1..]);
    }
  }

  lemma DescriptionIsPlain(head: string, value: string)
    requires Plain(head) && EncodeUnitValue(value).Some?
    ensures Plain(head + HtmlEscaped(value))
  {
    assert forall c :: c in value ==> !(c < ' ');
    assert '\n' < ' ';
    EscapedIsPlain(value);
  }

  // --- the mount unit ------------------------------------------------------------------------------

  lemma MountKeysDistinct(w: string, e: string, o: string)
    ensures DistinctKeys(MountPairs(w, e, o)) && KeysOf(MountPairs(w, e, o)) == MOUNT_KEYS
  {
    var ks := MOUNT_KEYS;
    assert IsKey("What") && IsKey("Where") && IsKey("Type") && IsKey("Options") && IsKey("TimeoutSec");
    assert |ks[0]| == 4 && |ks[1]| == 5 && |ks[3]| == 7 && |ks[4]| == 10 && ks[2][0] == 'T' && ks[0][0] == 'W';
  }

  lemma MountPairsArePlain(w: string, e: string, o: string)
    requires Plain(w) && Plain(e) && Plain(o)
    ensures PlainPairs(MountPairs(w, e, o))
  {
    MountKeysDistinct(w, e, o);
    assert Plain("cifs") && Plain("30");
  }

  lemma MountUnitIsPlain(unc: string)
    requires EncodeUnitValue(unc).Some?
    ensures PlainPairs(MountUnitPairs(unc))
  {
    var head := "nasmount: ";
    assert Plain(head) && IsKey("Description");
    DescriptionIsPlain(head, unc);
  }

  lemma EncodedIsPlain(value: string)
    requires EncodeUnitValue(value).Some?
    ensures Plain(EncodeUnitValue(value).value)
  {
    EncodedValue(value);
  }

  lemma MountPairAt(w: string, e: string, o: string, body: seq<string>)
    requires forall p :: p in MountPairs(w, e, o) ==> Assigned(body, p.0) == [p.1]
    ensures Assigned(body, "What") == [w] && Assigned(body, "Where") == [e] && Assigned(body, "Type") == ["cifs"]
    ensures Assigned(body, "Options") == [o] && Assigned(body, "TimeoutSec") == ["30"]
  {
    var ps := MountPairs(w, e, o);
    assert ps[0] in ps && ps[1] in ps && ps[2] in ps && ps[3] in ps && ps[4] in ps;
  }

  /**
   * What the mount validator checks of What= and Where=: a file the generator could have
   * written but for those two values is accepted exactly when they decode to the mount
   * point and to an acceptable address. How their percent signs were written is not looked at.
   */
  lemma AcceptedUpToUndoubling(m: Marker, unc: string, w: string, e: string, mountPoint: string)
    requires ValidMarker(m) && EncodeUnitValue(unc).Some? && Plain(w) && Plain(e)
    ensures var pairs := MountPairs(w, e, MountOptionsFor(m));
            var lines := Lines(Unlines(UnitFile(m, MountUnitPairs(unc), "Mount", pairs)));
            && MarkerOf(lines) == Some(m) && Assigned(Body(lines, "Mount", false), "Where") == [e]
            && AcceptedMount(lines, m, mountPoint) ==
                 if UndoublePercent(e) == mountPoint && ValidateUnc(UndoublePercent(w)).Some?
                 then Some(UndoublePercent(w)) else None
  {
    var o := MountOptionsFor(m);
    var lines := Lines(Unlines(UnitFile(m, MountUnitPairs(unc), "Mount", MountPairs(w, e, o))));
    OptionsAlwaysEncode(m);
    EncodedIsPlain(MountOptionsFor(m));
    MountUnitIsPlain(unc);
    MountPairsArePlain(w, e, o);
    assert IsName("Mount") && "Mount"[0] != "Unit"[0];
    FileIsRead(m, MountUnitPairs(unc), "Mount", MountPairs(w, e, o));
    MountKeysDistinct(w, e, o);
    WrittenFits(lines, "Mount", MountPairs(w, e, o));
    MountPairAt(w, e, o, Body(lines, "Mount", false));
  }

  /**
   * A mount unit is generated exactly when the address and the mount point can be encoded;
   * it gives back its marker and its address, and is accepted.
   */
  lemma MountRoundTrip(m: Marker, unc: string, mountPoint: string)
    requires ValidMarker(m) && ValidateUnc(unc).Some?
    ensures BuildMountUnitContent(m, unc, mountPoint).Some? <==>
            EncodeUnitValue(unc).Some? && EncodeUnitValue(mountPoint).Some?
    ensures BuildMountUnitContent(m, unc, mountPoint).Some? ==>
            var lines := Lines(BuildMountUnitContent(m, unc, mountPoint).value);
            MarkerOf(lines) == Some(m) && AcceptedMount(lines, m, mountPoint) == Some(unc)
  {
    OptionsAlwaysEncode(m);
    if EncodeUnitValue(unc).Some? && EncodeUnitValue(mountPoint).Some? {
      EncodedValue(unc);
      EncodedValue(mountPoint);
      AcceptedUpToUndoubling(m, unc, EncodeUnitValue(unc).value, EncodeUnitValue(mountPoint).value, mountPoint);
    }
  }

  // --- the automount unit ----------------------------------------------------------------------------

  lemma AutomountKeysDistinct(e: string)
    ensures DistinctKeys(AutomountPairs(e)) && KeysOf(AutomountPairs(e)) == AUTOMOUNT_KEYS
  {
    var ks := AUTOMOUNT_KEYS;
    assert IsKey("Where") && IsKey("TimeoutIdleSec") && IsKey("DirectoryMode");
    assert |ks[0]| == 5 && |ks[1]| == 14 && |ks[2]| == 13;
  }

  lemma UnitKeysDistinct(d: string, e: string)
    ensures DistinctKeys([("Description", d), ("ConditionPathIsDirectory", e)])
    ensures KeysOf([("Description", d), ("ConditionPathIsDirectory", e)]) == UNIT_KEYS
  {
    assert IsKey("Description") && IsKey("ConditionPathIsDirectory");
    assert UNIT_KEYS[0][0] == 'D' && UNIT_KEYS[1][0] == 'C';
  }

  lemma AutomountUnitIsPlain(mountPoint: string)
    requires EncodeUnitValue(mountPoint).Some?
    ensures PlainPairs(AutomountUnitPairs(mountPoint, EncodeUnitValue(mountPoint).value))
    ensures KeysOf(AutomountUnitPairs(mountPoint, EncodeUnitValue(mountPoint).value)) == UNIT_KEYS
  {
    var head := "nasmount automount: ";
    assert Plain(head);
    DescriptionIsPlain(head, mountPoint);
    EncodedIsPlain(mountPoint);
    UnitKeysDistinct(head + HtmlEscaped(mountPoint), EncodeUnitValue(mountPoint).value);
  }

  lemma AutomountPairAt(e: string, body: seq<string>)
    requires forall p :: p in AutomountPairs(e) ==> Assigned(body, p.0) == [p.1]
    ensures Assigned(body, "Where") == [e] && Assigned(body, "TimeoutIdleSec") == ["60"]
    ensures Assigned(body, "DirectoryMode") == ["0700"]
  {
    var ps := AutomountPairs(e);
    assert ps[0] in ps && ps[1] in ps && ps[2] in ps;
  }

  lemma AutomountPairsArePlain(e: string)
    requires Plain(e)
    ensures PlainPairs(AutomountPairs(e))
  {
    AutomountKeysDistinct(e);
    assert Plain("60") && Plain("0700");
  }

  lemma AutomountSectionFits(lines: seq<string>, e: string)
    requires Headed(lines, "Automount") && Body(lines, "Automount", false) == AssignLines(AutomountPairs(e))
    ensures SectionFits(lines, "Automount", AUTOMOUNT_KEYS, AUTOMOUNT_KEYS)
    ensures var body := Body(lines, "Automount", false);
            Assigned(body, "Where") == [e] && Assigned(body, "TimeoutIdleSec") == ["60"]
            && Assigned(body, "DirectoryMode") == ["0700"]
  {
    AutomountKeysDistinct(e);
    WrittenFits(lines, "Automount", AutomountPairs(e));
    AutomountPairAt(e, Body(lines, "Automount", false));
  }

  lemma UnitSectionFits(lines: seq<string>, mountPoint: string)
    requires EncodeUnitValue(mountPoint).Some? && Headed(lines, "Unit")
    requires Body(lines, "Unit", false) ==
             AssignLines(AutomountUnitPairs(mountPoint, EncodeUnitValue(mountPoint).value))
    ensures SectionFits(lines, "Unit", UNIT_KEYS, UNIT_KEYS[1..])
    ensures Assigned(Body(lines, "Unit", false), "ConditionPathIsDirectory") == [EncodeUnitValue(mountPoint).value]
  {
    var unit := AutomountUnitPairs(mountPoint, EncodeUnitValue(mountPoint).value);
    AutomountUnitIsPlain(mountPoint);
    WrittenFits(lines, "Unit", unit);
    assert unit[1] in unit && unit[1].0 == "ConditionPathIsDirectory";
    assert forall k :: k in UNIT_KEYS[1..] ==> k in UNIT_KEYS;
  }

  /** A generated automount unit gives back its marker and is accepted for its mount point. */
  lemma AutomountRoundTrip(m: Marker, mountPoint: string)
    requires ValidMarker(m) && BuildAutomountUnitContent(m, mountPoint).Some?
    ensures var lines := Lines(BuildAutomountUnitContent(m, mountPoint).value);
            MarkerOf(lines) == Some(m) && AcceptedAutomount(lines, mountPoint)
  {
    var e := EncodeUnitValue(mountPoint).value;
    var lines := Lines(BuildAutomountUnitContent(m, mountPoint).value);
    AutomountUnitIsPlain(mountPoint);
    EncodedIsPlain(mountPoint);
    AutomountPairsArePlain(e);
    assert IsName("Automount") && "Automount"[0] != "Unit"[0];
    FileIsRead(m, AutomountUnitPairs(mountPoint, e), "Automount", AutomountPairs(e));
    UnitSectionFits(lines, mountPoint);
    AutomountSectionFits(lines, e);
  }

  // --- what an accepted body is --------------------------------------------------------------------------

  lemma PairsAssigned(body: seq<string>, pairs: seq<Pair>)
    requires forall p :: p in pairs ==> Assigned(body, p.0) == [p.1]
    ensures Once(body, KeysOf(pairs)) && PairsOf(body, KeysOf(pairs)) == pairs
  {
    var keys := KeysOf(pairs);
    forall i | 0 <= i < |keys| ensures Assigned(body, keys[i]) == [pairs[i].1] {
      assert pairs[i] in pairs;
    }
  }

  /**
   * An accepted mount unit has exactly the five lines the generator writes, over all its
   * [Mount] sections and in any order; only What= and Where= may spell their percent signs
   * differently.
   */
  lemma MountBodyIsDetermined(lines: seq<string>, m: Marker, mountPoint: string)
    requires AcceptedMount(lines, m, mountPoint).Some?
    ensures var body := Body(lines, "Mount", false);
            exists w, e :: && UndoublePercent(w) == AcceptedMount(lines, m, mountPoint).value
                           && UndoublePercent(e) == mountPoint
                           && multiset(body) ==
                              multiset(AssignLines(MountPairs(w, e, EncodeUnitValue(MountOptionsFor(m)).value)))
  {
    var body := Body(lines, "Mount", false);
    var w, e := Assigned(body, "What")[0], Assigned(body, "Where")[0];
    var pairs := MountPairs(w, e, EncodeUnitValue(MountOptionsFor(m)).value);
    MountKeysDistinct(w, e, EncodeUnitValue(MountOptionsFor(m)).value);
    DistinctKeysDiffer(pairs);
    PairsAssigned(body, pairs);
    ExactlyTheseLines(body, MOUNT_KEYS);
  }

  lemma DistinctKeysDiffer(pairs: seq<Pair>)
    requires DistinctKeys(pairs)
    ensures Distinct(KeysOf(pairs))
  {
  }

  /** An accepted automount unit has exactly the three lines the generator writes, in some order. */
  lemma AutomountBodyIsDetermined(lines: seq<string>, mountPoint: string)
    requires AcceptedAutomount(lines, mountPoint)
    ensures multiset(Body(lines, "Automount", false)) ==
            multiset(AssignLines(AutomountPairs(EncodeUnitValue(mountPoint).value)))
  {
    var body := Body(lines, "Automount", false);
    var e := EncodeUnitValue(mountPoint).value;
    AutomountKeysDistinct(e);
    DistinctKeysDiffer(AutomountPairs(e));
    PairsAssigned(body, AutomountPairs(e));
    ExactlyTheseLines(body, AUTOMOUNT_KEYS);
  }

  /** No text is an acceptable mount unit of two shares that differ in what their options say. */
  lemma AcceptedForOneMarkerOnly(lines: seq<string>, m: Marker, p: string, o: Marker, q: string)
    requires IsValidShareId(m.id) && IsValidShareId(o.id)
    requires AcceptedMount(lines, m, p).Some? && AcceptedMount(lines, o, q).Some?
    ensures p == q && m.uid == o.uid && m.gid == o.gid && m.access == o.access && m.authentication == o.authentication
    ensures m.authentication == Credentials ==> m == o
  {
    EncodedValue(MountOptionsFor(m));
    EncodedValue(MountOptionsFor(o));
    OptionsDetermineMarker(m, o);
  }

  /** Different shares are never generated into the same mount unit. */
  lemma GenerationIsInjective(m: Marker, unc: string, p: string, o: Marker, und: string, q: string)
    requires ValidMarker(m) && ValidMarker(o) && ValidateUnc(unc).Some? && ValidateUnc(und).Some?
    requires BuildMountUnitContent(m, unc, p).Some?
    requires BuildMountUnitContent(m, unc, p) == BuildMountUnitContent(o, und, q)
    ensures m == o && unc == und && p == q
  {
    MountRoundTrip(m, unc, p);
    MountRoundTrip(o, und, q);
  }

  /**
   * The mount validator accepts more than the generator writes: a mount point whose lone
   * percent signs are not doubled passes in Where= as it stands.
   */
  lemma LonePercentIsAccepted(m: Marker, unc: string, p: string)
    requires ValidMarker(m) && ValidateUnc(unc).Some? && EncodeUnitValue(unc).Some? && EncodeUnitValue(p).Some?
    requires UndoublePercent(p) == p != DoublePercent(p)
    ensures exists lines :: && AcceptedMount(lines, m, p) == Some(unc)
                            && Assigned(Body(lines, "Mount", false), "Where") != [EncodeUnitValue(p).value]
  {
    EncodedValue(unc);
    assert Plain(p) by { assert '\n' < ' '; }
    var w := EncodeUnitValue(unc).value;
    AcceptedUpToUndoubling(m, unc, w, p, p);
    var lines := Lines(Unlines(UnitFile(m, MountUnitPairs(unc), "Mount", MountPairs(w, p, MountOptionsFor(m)))));
    assert AcceptedMount(lines, m, p) == Some(unc) && Assigned(Body(lines, "Mount", false), "Where") == [p];
  }

  /** Such mount points exist: one with a single percent sign is accepted undoubled. */
  lemma LonePercentExample(m: Marker, unc: string)
    requires ValidMarker(m) && ValidateUnc(unc).Some? && EncodeUnitValue(unc).Some?
    ensures exists lines :: && AcceptedMount(lines, m, "/m%n") == Some(unc)
                            && Assigned(Body(lines, "Mount", false), "Where") != [EncodeUnitValue("/m%n").value]
  {
    LonePercentIsLone();
    LonePercentIsAccepted(m, unc, "/m%n");
  }

  lemma LonePercentIsLone()
    ensures EncodeUnitValue("/m%n").Some? && UndoublePercent("/m%n") == "/m%n" != DoublePercent("/m%n")
  {
    assert UndoublePercent("%n") == "%" + UndoublePercent("n");
    assert |DoublePercent("/m%n")| == 5;
  }
}
