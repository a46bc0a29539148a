/**
 * The marker comment block of a managed unit, and the one encoder for values
 * (src/core/unitvalue.cpp).
 */
module UnitValue {
  import opened Types
  import opened Strings

  /** encodeUnitValue: refuses what systemd could read as anything but the value itself. */
  function EncodeUnitValue(value: string): (r: Option<string>)
  {
    if HasControlChars(value) || !Trimmed(value) || value == "" || EndsWith(value, '\\')
       || value[0] == '"' || value[0] == '\''
    then None
    else Some(DoublePercent(value))
  }

  /** An encoded value is one line that cannot continue, and undoubling gives the value back. */
  lemma EncodedValue(value: string)
    requires EncodeUnitValue(value).Some?
    ensures var e := EncodeUnitValue(value).value;
            OneLine(e) && !EndsWith(e, '\\') && e != "" && UndoublePercent(e) == value
  {
    DoubleKeeps(value);
    UndoubleDouble(value);
    assert '\n' < ' ';
  }

  // --- the marker block --------------------------------------------------------------------

  const PREFIX := "# X-Nasmount-"

  datatype Field = Managed | OwnerUid | OwnerGid | Id | Mode | Auth | AccessField

  const ALL_FIELDS := [Managed, OwnerUid, OwnerGid, Id, Mode, Auth, AccessField]

  const REQUIRED_FIELDS := {Managed, OwnerUid, OwnerGid, Id, Mode, Auth}

  function KeyOf(f: Field): string {
    match f
    case Managed => "Managed="
    case OwnerUid => "Owner-Uid="
    case OwnerGid => "Owner-Gid="
    case Id => "Id="
    case Mode => "Mode="
    case Auth => "Authentication="
    case AccessField => "Access="
  }

  predicate IsValidShareId(id: string) {
    |id| == 32 && forall c | c in id :: IsLowerHex(c)
  }

  /** The value grammar of each field. */
  predicate Admits(f: Field, v: string) {
    match f
    case Managed => v == "1"
    case OwnerUid => v != "" && forall c | c in v :: IsDigit(c)
    case OwnerGid => v != "" && forall c | c in v :: IsDigit(c)
    case Id => IsValidShareId(v)
    case Mode => v == "system"
    case Auth => v == "credentials" || v == "guest"
    case AccessField => v == "readwrite-executable" || v == "readwrite" || v == "readonly"
  }

  function AccessModeToString(a: Access): string {
    match a
    case ReadOnly => "readonly"
    case ReadWriteExecutable => "readwrite-executable"
    case ReadWrite => "readwrite"
  }

  function AccessModeFromString(text: string): Option<Access> {
    if text == "readwrite" then Some(ReadWrite)
    else if text == "readonly" then Some(ReadOnly)
    else if text == "readwrite-executable" then Some(ReadWriteExecutable)
    else None
  }

  predicate IsMarkerLine(line: string) {
    PREFIX <= line
  }

  function FieldLine(f: Field, v: string): string {
    PREFIX + KeyOf(f) + v
  }

  /** The value this line gives the field, if it is a line of that field at all. */
  function Match(line: string, f: Field): Option<string> {
    var head := PREFIX + KeyOf(f);
    if head <= line && Admits(f, line[|head|..]) then Some(line[|head|..]) else None
  }

  function Given(line: string, f: Field): seq<string> {
    match Match(line, f)
    case Some(v) => [v]
    case None => []
  }

  /** The values a field is given, line by line. */
  function Values(lines: seq<string>, f: Field): seq<string> {
    if lines == [] then [] else Given(lines[0], f) + Values(lines[1..], f)
  }

  predicate Understood(line: string) {
    IsMarkerLine(line) ==> exists f: Field :: Match(line, f).Some?
  }

  /** A complete block: only known fields, each required one once, Access at most once. */
  predicate Complete(lines: seq<string>) {
    && (forall line | line in lines :: Understood(line))
    && (forall f | f in REQUIRED_FIELDS :: |Values(lines, f)| == 1)
    && |Values(lines, AccessField)| <= 1
  }

  function BuildMarker(uid: nat, gid: nat, id: string, auth: string, access: string): Option<Marker> {
    match if access == "" then Some(ReadWrite) else AccessModeFromString(access)
    case None => None
    case Some(a) => Some(Marker(uid, gid, id, if auth == "guest" then Guest else Credentials, a))
  }

  /** What a marker block means, whatever order its lines come in and whatever surrounds them. */
  function MarkerOf(lines: seq<string>): Option<Marker> {
    if !Complete(lines) then None
    else
      var uid, gid := ToUInt(Values(lines, OwnerUid)[0]), ToUInt(Values(lines, OwnerGid)[0]);
      if uid.None? || gid.None? then None
      else BuildMarker(uid.value, gid.value, Values(lines, Id)[0], Values(lines, Auth)[0],
                       if Values(lines, AccessField) == [] then "" else Values(lines, AccessField)[0])
  }

  predicate HasMarker(lines: seq<string>) {
    exists line | line in lines :: IsMarkerLine(line)
  }

  /** A line belongs to one field at most. */
  lemma OneField(line: string, f: Field, g: Field)
    requires Match(line, f).Some? && Match(line, g).Some?
    ensures f == g
  {
    var n := |PREFIX|;
    var rest := line[n..];
    assert KeyOf(f) <= rest && KeyOf(g) <= rest by {
      assert (PREFIX + KeyOf(f))[n..] == KeyOf(f) && (PREFIX + KeyOf(g))[n..] == KeyOf(g);
    }
    KeysDiffer(f, g, rest);
  }

  lemma KeysDiffer(f: Field, g: Field, rest: string)
    requires KeyOf(f) <= rest && KeyOf(g) <= rest
    ensures f == g
  {
    // The first two characters tell the keys apart, except Owner-Uid and Owner-Gid, and Authentication and Access.
    assert rest[0] == KeyOf(f)[0] == KeyOf(g)[0] && rest[1] == KeyOf(f)[1] == KeyOf(g)[1];
    if f in {OwnerUid, OwnerGid} && g in {OwnerUid, OwnerGid} {
      assert rest[6] == KeyOf(f)[6] == KeyOf(g)[6];
    }
  }

  // --- the parser --------------------------------------------------------------------------

  lemma {:induction false} ValuesConcat(a: seq<string>, b: seq<string>, f: Field)
    ensures Values(a + b, f) == Values(a, f) + Values(b, f)
    decreases |a|
  {
    if a == [] {
      assert a + b == b;
    } else {
      ValuesConcat(a[1..], b, f);
      assert (a + b)[1..] == a[1..] + b && (a + b)[0] == a[0];
      Assoc(Given(a[0], f), Values(a[1..], f), Values(b, f));
    }
  }

  lemma Assoc(a: seq<string>, b: seq<string>, c: seq<string>)
    ensures a + (b + c) == a + b + c
  {
  }

  lemma ValuesStep(lines: seq<string>, i: nat, f: Field)
    requires i < |lines|
    ensures Values(lines[..i + 1], f) ==
            Values(lines[..i], f) + Given(lines[i], f)
    ensures |Values(lines[..i + 1], f)| <= |Values(lines, f)|
  {
    assert lines[..i + 1] == lines[..i] + [lines[i]] && lines == lines[..i + 1] + lines[i + 1..];
    ValuesConcat(lines[..i], [lines[i]], f);
    ValuesConcat(lines[..i + 1], lines[i + 1..], f);
    assert [lines[i]][1..] == [];
  }

  /** The inner loop: the first field whose pattern matches. */
  method MatchField(line: string) returns (m: Option<(Field, string)>)
    ensures m.None? ==> forall f :: Match(line, f).None?
    ensures m.Some? ==> forall f :: Match(line, f) == if f == m.value.0 then Some(m.value.1) else None
  {
    for k := 0 to |ALL_FIELDS|
      invariant forall j :: 0 <= j < k ==> Match(line, ALL_FIELDS[j]).None?
    {
      var f := ALL_FIELDS[k];
      var v := Match(line, f);
      if v.Some? {
        forall g | g != f ensures Match(line, g).None? {
          if Match(line, g).Some? { OneField(line, f, g); }
        }
        return Some((f, v.value));
      }
    }
    m := None;
    forall f ensures Match(line, f).None? {
      assert f == ALL_FIELDS[0] || f == ALL_FIELDS[1] || f == ALL_FIELDS[2] || f == ALL_FIELDS[3]
             || f == ALL_FIELDS[4] || f == ALL_FIELDS[5] || f == ALL_FIELDS[6];
    }
  }

  ghost predicate FieldRead(lines: seq<string>, values: map<Field, string>, f: Field) {
    Values(lines, f) == if f in values then [values[f]] else []
  }

  ghost predicate AllRead(lines: seq<string>, values: map<Field, string>) {
    forall f: Field :: FieldRead(lines, values, f)
  }

  predicate AllUnderstood(lines: seq<string>) {
    forall line | line in lines :: Understood(line)
  }

  /** The fields read so far, each with its one value. */
  ghost predicate ReadSoFar(lines: seq<string>, i: nat, values: map<Field, string>)
    requires i <= |lines|
  {
    AllUnderstood(lines[..i]) && AllRead(lines[..i], values)
  }

  lemma UnderstoodStep(lines: seq<string>, i: nat)
    requires i < |lines| && AllUnderstood(lines[..i]) && Understood(lines[i])
    ensures AllUnderstood(lines[..i + 1])
  {
    assert lines[..i + 1] == lines[..i] + [lines[i]];
  }

  /** A line that belongs to no field leaves what was read as it is. */
  lemma ReadPast(lines: seq<string>, i: nat, values: map<Field, string>)
    requires i < |lines| && ReadSoFar(lines, i, values)
    requires !IsMarkerLine(lines[i])
    ensures ReadSoFar(lines, i + 1, values)
  {
    UnderstoodStep(lines, i);
    var next := lines[..i + 1];
    forall f: Field ensures FieldRead(next, values, f) {
      assert FieldRead(lines[..i], values, f);
      ValuesStep(lines, i, f);
      MatchedIsMarkerLine(lines[i], f);
    }
  }

  /** A second value for a field cannot be completed. */
  lemma ReadTwice(lines: seq<string>, i: nat, values: map<Field, string>, g: Field)
    requires i < |lines| && ReadSoFar(lines, i, values)
    requires Match(lines[i], g).Some? && g in values
    ensures !Complete(lines)
  {
    assert FieldRead(lines[..i], values, g);
    ValuesStep(lines, i, g);
    assert g in REQUIRED_FIELDS || g == AccessField;
  }

  lemma ReadField(lines: seq<string>, i: nat, values: map<Field, string>, g: Field, v: string)
    requires i < |lines| && ReadSoFar(lines, i, values)
    requires forall f :: Match(lines[i], f) == if f == g then Some(v) else None
    requires g !in values
    ensures ReadSoFar(lines, i + 1, values[g := v])
  {
    assert Match(lines[i], g).Some?;
    UnderstoodStep(lines, i);
    var next, after := lines[..i + 1], values[g := v];
    forall f: Field ensures FieldRead(next, after, f) {
      assert FieldRead(lines[..i], values, f);
      FieldAfter(lines, i, values, g, v, f);
    }
  }

  lemma FieldAfter(lines: seq<string>, i: nat, values: map<Field, string>, g: Field, v: string, f: Field)
    requires i < |lines| && FieldRead(lines[..i], values, f)
    requires Match(lines[i], f) == if f == g then Some(v) else None
    requires g !in values
    ensures FieldRead(lines[..i + 1], values[g := v], f)
  {
    ValuesStep(lines, i, f);
  }

  /** parseMarker: stops at the first thing it does not accept, and decides exactly completeness. */
  method ParseMarker(content: string) returns (r: Option<Marker>)
    ensures r == MarkerOf(Lines(content))
  {
    r := ParseLines(Lines(content));
  }

  method ParseLines(lines: seq<string>) returns (r: Option<Marker>)
    ensures r == MarkerOf(lines)
  {
    var values: map<Field, string> := map[];
    for i := 0 to |lines|
      invariant ReadSoFar(lines, i, values)
    {
      var line := lines[i];
      if IsMarkerLine(line) {
        var m := MatchField(line);
        if m.None? {
          assert !Understood(line) && line in lines;
          return None;
        }
        var (f, v) := m.value;
        if f in values {
          ReadTwice(lines, i, values, f);
          return None;
        }
        ReadField(lines, i, values, f, v);
        values := values[f := v];
      } else {
        ReadPast(lines, i, values);
      }
    }
    r := Conclude(lines, values);
  }

  /** The checks after the loop. */
  method Conclude(lines: seq<string>, values: map<Field, string>) returns (r: Option<Marker>)
    requires ReadSoFar(lines, |lines|, values)
    ensures r == MarkerOf(lines)
  {
    assert lines[..|lines|] == lines;
    forall f ensures Values(lines, f) == if f in values then [values[f]] else [] {
      assert FieldRead(lines, values, f);
    }
    if !(REQUIRED_FIELDS <= values.Keys) {
      var f :| f in REQUIRED_FIELDS && f !in values;
      assert Values(lines, f) == [];
      return None;
    }
    assert Complete(lines);
    var uid, gid := ToUInt(values[OwnerUid]), ToUInt(values[OwnerGid]);
    if uid.None? || gid.None? { return None; }
    r := BuildMarker(uid.value, gid.value, values[Id], values[Auth],
                     if AccessField in values then values[AccessField] else "");
  }

  // --- order does not matter -----------------------------------------------------------------

  function Bag(lines: seq<string>, f: Field): multiset<string> {
    multiset(Values(lines, f))
  }

  lemma BagConcat(a: seq<string>, b: seq<string>, f: Field)
    ensures Bag(a + b, f) == Bag(a, f) + Bag(b, f)
  {
    ValuesConcat(a, b, f);
  }

  lemma BagRemove(b: seq<string>, j: nat, f: Field)
    requires j < |b|
    ensures Bag(b, f) == Bag([b[j]], f) + Bag(b[..j] + b[j + 1..], f)
  {
    assert b == b[..j] + ([b[j]] + b[j + 1..]);
    BagConcat(b[..j], [b[j]] + b[j + 1..], f);
    BagConcat([b[j]], b[j + 1..], f);
    BagConcat(b[..j], b[j + 1..], f);
  }

  lemma WithoutOne(s: seq<string>, j: nat)
    requires j < |s|
    ensures multiset(s[..j] + s[j + 1..]) == multiset(s) - multiset{s[j]}
  {
    assert s == s[..j] + [s[j]] + s[j + 1..];
  }

  lemma RemoveFirst(a: seq<string>, b: seq<string>, j: nat)
    requires multiset(a) == multiset(b) && a != [] && j < |b| && b[j] == a[0]
    ensures multiset(a[1..]) == multiset(b[..j] + b[j + 1..])
  {
    assert a == a[..0] + [a[0]] + a[1..] && a[..0] + a[1..] == a[1..];
    WithoutOne(a, 0);
    WithoutOne(b, j);
  }

  lemma {:induction false} BagShuffle(a: seq<string>, b: seq<string>, f: Field)
    requires multiset(a) == multiset(b)
    ensures Bag(a, f) == Bag(b, f)
    decreases |a|
  {
    if a == [] {
      assert |multiset(a)| == |a| && |multiset(b)| == |b|;
    } else {
      assert a[0] in multiset(b);
      var j :| 0 <= j < |b| && b[j] == a[0];
      RemoveFirst(a, b, j);
      BagShuffle(a[1..], b[..j] + b[j + 1..], f);
      BagRemove(b, j, f);
      BagConcat([a[0]], a[1..], f);
      assert a == [a[0]] + a[1..];
    }
  }

  /** The meaning of a marker block is independent of the order of its lines. */
  lemma LineOrderIrrelevant(a: seq<string>, b: seq<string>)
    requires multiset(a) == multiset(b)
    ensures MarkerOf(a) == MarkerOf(b) && HasMarker(a) == HasMarker(b)
  {
    forall line ensures line in a <==> line in b {
      assert line in multiset(a) <==> line in multiset(b);
    }
    forall f
      ensures |Values(a, f)| == |Values(b, f)|
      ensures |Values(a, f)| == 1 ==> Values(a, f) == Values(b, f)
    {
      BagShuffle(a, b, f);
      SameBag(Values(a, f), Values(b, f));
    }
    assert Complete(a) <==> Complete(b);
  }

  lemma SameBag(u: seq<string>, v: seq<string>)
    requires multiset(u) == multiset(v)
    ensures |u| == |v| && (|u| == 1 ==> u == v)
  {
    assert |multiset(u)| == |u| && |multiset(v)| == |v|;
    if |u| == 1 {
      assert u == [u[0]] && v == [v[0]];
      assert v[0] in multiset(u);
    }
  }

  lemma {:induction false} ValuesAdmitted(lines: seq<string>, f: Field)
    ensures forall v :: v in Values(lines, f) ==> Admits(f, v)
    decreases |lines|
  {
    if lines != [] { ValuesAdmitted(lines[1..], f); }
  }

  lemma CompleteAdmits(lines: seq<string>, f: Field)
    requires Complete(lines)
    ensures f != AccessField ==> |Values(lines, f)| == 1 && Admits(f, Values(lines, f)[0])
    ensures f == AccessField && Values(lines, f) != [] ==> Admits(f, Values(lines, f)[0])
  {
    ValuesAdmitted(lines, f);
    assert f != AccessField ==> f in REQUIRED_FIELDS;
  }

  /**
   * Acceptance, spelled out: a complete block whose two numbers fit 32 bits. Nothing else
   * is checked after the block is complete, and nothing less is enough.
   */
  lemma AcceptedExactlyWhenComplete(lines: seq<string>)
    ensures MarkerOf(lines).Some? <==>
            Complete(lines) && ToUInt(Values(lines, OwnerUid)[0]).Some? && ToUInt(Values(lines, OwnerGid)[0]).Some?
    ensures MarkerOf(lines).Some? ==> ValidMarker(MarkerOf(lines).value)
  {
    if Complete(lines) {
      CompleteAdmits(lines, AccessField);
      CompleteAdmits(lines, Id);
    }
  }

  // --- the printer ---------------------------------------------------------------------------

  predicate ValidMarker(m: Marker) {
    m.uid < UINT32 && m.gid < UINT32 && IsValidShareId(m.id)
  }

  function AuthText(a: Authentication): string {
    if a == Guest then "guest" else "credentials"
  }

  type FieldValue = (Field, string)

  /** What markerComment writes, field by field; read-write is not written at all. */
  function Printed(m: Marker): seq<FieldValue> {
    [(Managed, "1"), (OwnerUid, Decimal(m.uid)), (OwnerGid, Decimal(m.gid)), (Id, m.id), (Mode, "system"),
     (Auth, AuthText(m.authentication))]
    + (if m.access == ReadWrite then [] else [(AccessField, AccessModeToString(m.access))])
  }

  function FieldLines(fields: seq<FieldValue>): seq<string> {
    if fields == [] then [] else [FieldLine(fields[0].0, fields[0].1)] + FieldLines(fields[1..])
  }

  function MarkerLines(m: Marker): seq<string> {
    FieldLines(Printed(m))
  }

  function Pick(fields: seq<FieldValue>, f: Field): seq<string> {
    if fields == [] then []
    else (if fields[0].0 == f then [fields[0].1] else []) + Pick(fields[1..], f)
  }

  lemma GivenFieldLine(f: Field, v: string, g: Field)
    requires Admits(f, v)
    ensures Given(FieldLine(f, v), g) == if g == f then [v] else []
    ensures IsMarkerLine(FieldLine(f, v)) && Understood(FieldLine(f, v))
  {
    var line := FieldLine(f, v);
    assert line == (PREFIX + KeyOf(f)) + v;
    assert Match(line, f) == Some(v) by {
      assert line[|PREFIX + KeyOf(f)|..] == v;
    }
    if g != f && Match(line, g).Some? {
      OneField(line, f, g);
    }
  }

  /** Lines printed from field values give back those values. */
  lemma {:induction false} ValuesOfFieldLines(fields: seq<FieldValue>, f: Field)
    requires forall p :: p in fields ==> Admits(p.0, p.1)
    ensures Values(FieldLines(fields), f) == Pick(fields, f)
    ensures forall line :: line in FieldLines(fields) ==> Understood(line)
    decreases |fields|
  {
    if fields != [] {
      GivenFieldLine(fields[0].0, fields[0].1, f);
      ValuesOfFieldLines(fields[1..], f);
      var line := FieldLine(fields[0].0, fields[0].1);
      assert ([line] + FieldLines(fields[1..]))[1..] == FieldLines(fields[1..]);
    }
  }

  lemma PrintedAdmitted(m: Marker)
    requires ValidMarker(m)
    ensures forall p :: p in Printed(m) ==> Admits(p.0, p.1)
  {
  }

  lemma {:induction false} PickAbsent(fields: seq<FieldValue>, f: Field)
    requires forall p :: p in fields ==> p.0 != f
    ensures Pick(fields, f) == []
    decreases |fields|
  {
    if fields != [] {
      assert fields[0] in fields;
      PickAbsent(fields[1..], f);
    }
  }

  lemma {:induction false} PickAt(fields: seq<FieldValue>, i: nat)
    requires i < |fields| && forall j :: 0 <= j < |fields| && j != i ==> fields[j].0 != fields[i].0
    ensures Pick(fields, fields[i].0) == [fields[i].1]
    decreases |fields|
  {
    if i == 0 {
      PickAbsent(fields[1..], fields[0].0);
    } else {
      PickAt(fields[1..], i - 1);
    }
  }

  function PlaceOf(f: Field): nat {
    match f
    case Managed => 0
    case OwnerUid => 1
    case OwnerGid => 2
    case Id => 3
    case Mode => 4
    case Auth => 5
    case AccessField => 6
  }

  lemma PrintedPlaces(m: Marker)
    ensures 6 <= |Printed(m)| <= 7 && (|Printed(m)| == 7 <==> m.access != ReadWrite)
    ensures forall i :: 0 <= i < |Printed(m)| ==> PlaceOf(Printed(m)[i].0) == i
  {
  }

  /** The printed block gives each field its value once, and Access only when it is not read-write. */
  lemma PickPrinted(m: Marker, f: Field)
    ensures Pick(Printed(m), f) == match f
      case Managed => ["1"]
      case OwnerUid => [Decimal(m.uid)]
      case OwnerGid => [Decimal(m.gid)]
      case Id => [m.id]
      case Mode => ["system"]
      case Auth => [AuthText(m.authentication)]
      case AccessField => if m.access == ReadWrite then [] else [AccessModeToString(m.access)]
  {
    var fields := Printed(m);
    PrintedPlaces(m);
    if PlaceOf(f) < |fields| {
      assert fields[PlaceOf(f)].0 == f;
      PickAt(fields, PlaceOf(f));
    } else {
      PickAbsent(fields, f);
    }
  }

  lemma MatchedIsMarkerLine(line: string, f: Field)
    ensures Match(line, f).Some? ==> IsMarkerLine(line)
  {
    if Match(line, f).Some? {
      assert PREFIX <= PREFIX + KeyOf(f);
    }
  }

  lemma {:induction false} NoMarkerNoValues(lines: seq<string>, f: Field)
    requires forall line :: line in lines ==> !IsMarkerLine(line)
    ensures Values(lines, f) == []
    decreases |lines|
  {
    if lines != [] {
      NoMarkerNoValues(lines[1..], f);
      assert lines[0] in lines;
      MatchedIsMarkerLine(lines[0], f);
    }
  }

  lemma ValuesAround(before: seq<string>, m: Marker, after: seq<string>, f: Field)
    requires ValidMarker(m)
    requires forall line :: line in before || line in after ==> !IsMarkerLine(line)
    ensures Values(before + MarkerLines(m) + after, f) == Pick(Printed(m), f)
  {
    ValuesConcat(before + MarkerLines(m), after, f);
    ValuesConcat(before, MarkerLines(m), f);
    NoMarkerNoValues(before, f);
    NoMarkerNoValues(after, f);
    PrintedAdmitted(m);
    ValuesOfFieldLines(Printed(m), f);
  }

  lemma PrintedOnce(before: seq<string>, m: Marker, after: seq<string>, f: Field)
    requires ValidMarker(m)
    requires forall line :: line in before || line in after ==> !IsMarkerLine(line)
    ensures |Values(before + MarkerLines(m) + after, f)| <= 1
    ensures f != AccessField ==> |Values(before + MarkerLines(m) + after, f)| == 1
  {
    ValuesAround(before, m, after, f);
    PickPrinted(m, f);
  }

  lemma PrintedUnderstood(before: seq<string>, m: Marker, after: seq<string>, line: string)
    requires ValidMarker(m) && line in before + MarkerLines(m) + after
    requires forall line :: line in before || line in after ==> !IsMarkerLine(line)
    ensures Understood(line)
  {
    PrintedAdmitted(m);
    ValuesOfFieldLines(Printed(m), Id);
    assert line in before || line in MarkerLines(m) || line in after;
  }

  lemma PrintedIsComplete(before: seq<string>, m: Marker, after: seq<string>)
    requires ValidMarker(m)
    requires forall line :: line in before || line in after ==> !IsMarkerLine(line)
    ensures Complete(before + MarkerLines(m) + after)
  {
    var lines := before + MarkerLines(m) + after;
    forall f | f in REQUIRED_FIELDS ensures |Values(lines, f)| == 1 {
      PrintedOnce(before, m, after, f);
    }
    PrintedOnce(before, m, after, AccessField);
    forall line | line in lines ensures Understood(line) {
      PrintedUnderstood(before, m, after, line);
    }
  }

  /** Whatever unmanaged lines surround it, a printed block is read back as the marker it was printed from. */
  lemma PrintedMarkerIsRead(before: seq<string>, m: Marker, after: seq<string>)
    requires ValidMarker(m)
    requires forall line :: line in before || line in after ==> !IsMarkerLine(line)
    ensures MarkerOf(before + MarkerLines(m) + after) == Some(m)
  {
    var lines := before + MarkerLines(m) + after;
    PrintedIsComplete(before, m, after);
    forall f ensures Values(lines, f) == Pick(Printed(m), f) {
      ValuesAround(before, m, after, f);
    }
    PickPrinted(m, OwnerUid);
    PickPrinted(m, OwnerGid);
    PickPrinted(m, Id);
    PickPrinted(m, Auth);
    PickPrinted(m, AccessField);
    BuildPrinted(m);
  }

  lemma BuildPrinted(m: Marker)
    requires ValidMarker(m)
    ensures ToUInt(Decimal(m.uid)) == Some(m.uid) && ToUInt(Decimal(m.gid)) == Some(m.gid)
    ensures BuildMarker(m.uid, m.gid, m.id, AuthText(m.authentication),
                        if m.access == ReadWrite then "" else AccessModeToString(m.access)) == Some(m)
  {
    ValueDecimal(m.uid);
    ValueDecimal(m.gid);
    assert AccessModeFromString(AccessModeToString(m.access)) == Some(m.access);
  }
}
