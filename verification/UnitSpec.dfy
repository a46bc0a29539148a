/**
 * Unit bodies: generated from a marker, and accepted only when a marker determines
 * them (src/core/unitspec.cpp).
 */
module UnitSpec {
  import opened Types
  import opened Strings
  import opened UnitValue

  // --- addresses ---------------------------------------------------------------------------

  function ChopSlashes(s: string): (r: string)
    ensures r <= s && !EndsWith(r, '/')
  {
    if EndsWith(s, '/') then ChopSlashes(s[..|s| - 1]) else s
  }

  predicate IsHostChar(c: char) {
    IsLetter(c) || IsDigit(c) || c == '.' || c == '_' || c == '-'
  }

  /** How many characters from position i on belong to a host name. */
  function HostLength(s: string, i: nat): (n: nat)
    requires i <= |s|
    ensures i + n <= |s|
    decreases |s| - i
  {
    if i < |s| && IsHostChar(s[i]) then 1 + HostLength(s, i + 1) else 0
  }

  /** //host/share with a non-empty host and a share that does not begin with a slash or step upwards. */
  predicate IsUnc(s: string) {
    && |s| >= 2 && s[0] == '/' && s[1] == '/'
    && var n := HostLength(s, 2);
       n > 0 && 2 + n + 1 < |s| && s[2 + n] == '/' && s[2 + n + 1] != '/' && ".." !in Split(s[2 + n + 1..], '/')
  }

  /** validateUnc: the normalised address. */
  function ValidateUnc(unc: string): (r: Option<string>)
  {
    if HasControlChars(unc) || ',' in unc || !IsUnc(ChopSlashes(unc)) then None else Some(ChopSlashes(unc))
  }

  /** Normalising is final: what came out once is accepted as it is. */
  lemma NormalisedStays(unc: string)
    requires ValidateUnc(unc).Some?
    ensures ValidateUnc(ValidateUnc(unc).value) == ValidateUnc(unc)
  {
    var n := ChopSlashes(unc);
    assert ChopSlashes(n) == n;
    assert forall c :: c in n ==> c in unc;
  }

  /**
   * Which accepted addresses cannot be written into a unit: exactly those that end in a
   * backslash or in white space. Acceptance alone does not rule them out.
   */
  lemma AcceptedAddressEncodes(unc: string)
    requires ValidateUnc(unc).Some?
    ensures var n := ValidateUnc(unc).value;
            n != "" && (EncodeUnitValue(n).Some? <==> !EndsWith(n, '\\') && !IsSpace(n[|n| - 1]))
  {
    assert forall c :: c in ChopSlashes(unc) ==> c in unc;
  }

  lemma BackslashAddressIsAcceptedNotEncoded()
    ensures ValidateUnc("//h/s\\") == Some("//h/s\\") && EncodeUnitValue("//h/s\\").None?
  {
    var unc := "//h/s\\";
    assert HostLength(unc, 3) == 0 && HostLength(unc, 2) == 1;
    var tail := "s\\";
    assert unc[4..] == tail;
    OnePiece(tail, '/');
    assert ".." != tail;
  }

  // --- mount options -----------------------------------------------------------------------------

  function CredentialPathFor(id: string): string {
    "/etc/nasmount/" + id + ".cred"
  }

  function AccessOptions(access: Access): seq<string> {
    match access
    case ReadWrite => ["file_mode=0600", "dir_mode=0700"]
    case ReadOnly => ["ro", "file_mode=0400", "dir_mode=0500"]
    case ReadWriteExecutable => ["file_mode=0700", "dir_mode=0700"]
  }

  function FirstOption(m: Marker): string {
    if m.authentication == Guest then "guest" else "credentials=" + CredentialPathFor(m.id)
  }

  function OptionList(m: Marker): seq<string> {
    [FirstOption(m), "nosuid", "nodev", "forceuid", "forcegid", "uid=" + Decimal(m.uid), "gid=" + Decimal(m.gid),
     "nounix", "iocharset=utf8"] + AccessOptions(m.access)
  }

  function MountOptionsFor(m: Marker): string {
    Join(OptionList(m), ',')
  }

  predicate OptionChar(c: char) {
    IsLetter(c) || IsDigit(c) || c == '=' || c == '_' || c == '/' || c == '.'
  }

  predicate OptionText(s: string) {
    forall c | c in s :: OptionChar(c)
  }

  lemma FirstOptionText(m: Marker)
    requires IsValidShareId(m.id)
    ensures OptionText(FirstOption(m)) && FirstOption(m) != ""
  {
    assert forall c :: c in m.id ==> IsLowerHex(c);
    var head, directory := "credentials=", "/etc/nasmount/";
    assert OptionText(head) && OptionText(directory) && OptionText(".cred") && OptionText("guest");
  }

  lemma OwnerOptionText(n: nat)
    ensures OptionText("uid=" + Decimal(n)) && OptionText("gid=" + Decimal(n))
  {
    assert forall c :: c in Decimal(n) ==> IsDigit(c);
  }

  lemma FixedOptionText(access: Access)
    ensures forall o :: o in ["nosuid", "nodev", "forceuid", "forcegid"] ==> OptionText(o)
    ensures forall o :: o in ["nounix", "iocharset=utf8"] ==> OptionText(o)
    ensures forall o :: o in AccessOptions(access) ==> OptionText(o)
  {
  }

  lemma OptionsAreOptionText(m: Marker)
    requires IsValidShareId(m.id)
    ensures forall o :: o in OptionList(m) ==> OptionText(o)
  {
    FirstOptionText(m);
    OwnerOptionText(m.uid);
    OwnerOptionText(m.gid);
    FixedOptionText(m.access);
    assert OptionList(m) == [FirstOption(m)] + ["nosuid", "nodev", "forceuid", "forcegid"]
                            + ["uid=" + Decimal(m.uid), "gid=" + Decimal(m.gid)]
                            + ["nounix", "iocharset=utf8"] + AccessOptions(m.access);
  }

  lemma OptionsHaveNoComma(m: Marker)
    requires IsValidShareId(m.id)
    ensures forall o :: o in OptionList(m) ==> ',' !in o
  {
    OptionsAreOptionText(m);
    forall o | o in OptionList(m) ensures ',' !in o {
      assert OptionText(o) && !OptionChar(',');
    }
  }

  lemma {:induction false} JoinedText(options: seq<string>)
    requires options != [] && forall o :: o in options ==> OptionText(o)
    ensures forall c :: c in Join(options, ',') ==> OptionChar(c) || c == ','
    ensures options[0] <= Join(options, ',')
    decreases |options|
  {
    if |options| > 1 {
      JoinedText(options[1..]);
      assert OptionText(options[0]);
    } else {
      assert options[0] in options;
    }
  }

  /** The options of a valid marker are written as they are: encoding them never fails and changes nothing. */
  lemma OptionsAlwaysEncode(m: Marker)
    requires IsValidShareId(m.id)
    ensures EncodeUnitValue(MountOptionsFor(m)) == Some(MountOptionsFor(m))
  {
    var s := MountOptionsFor(m);
    OptionsAreOptionText(m);
    JoinedText(OptionList(m));
    FirstOptionText(m);
    assert s != "" && s[0] in s && s[|s| - 1] in s;
    forall c | c in s
      ensures !IsSpace(c) && c != '%' && c != '\\' && c != '"' && c != '\'' && ' ' <= c && c != '\U{7F}'
    {
    }
    DoubleIdentity(s);
  }

  lemma SameTail(head: string, a: string, b: string)
    requires head + a == head + b
    ensures a == b
  {
    assert (head + a)[|head|..] == a && (head + b)[|head|..] == b;
  }

  /** The option string determines the owner, the group, the access mode, the authentication and the credential. */
  lemma OptionsDetermineMarker(m: Marker, o: Marker)
    requires IsValidShareId(m.id) && IsValidShareId(o.id)
    requires MountOptionsFor(m) == MountOptionsFor(o)
    ensures m.uid == o.uid && m.gid == o.gid && m.access == o.access && m.authentication == o.authentication
    ensures m.authentication == Credentials ==> m.id == o.id
  {
    OptionsHaveNoComma(m);
    OptionsHaveNoComma(o);
    SplitJoin(OptionList(m), ',');
    SplitJoin(OptionList(o), ',');
    var a, b := OptionList(m), OptionList(o);
    assert a == b;
    assert a[0] == FirstOption(m) && b[0] == FirstOption(o);
    SameOwner(m, o, a, b);
    SameFirstOption(m, o);
  }

  lemma SameOwner(m: Marker, o: Marker, a: seq<string>, b: seq<string>)
    requires a == OptionList(m) && b == OptionList(o) && a == b
    ensures m.uid == o.uid && m.gid == o.gid && m.access == o.access
  {
    assert a[5] == "uid=" + Decimal(m.uid) && b[5] == "uid=" + Decimal(o.uid);
    assert a[6] == "gid=" + Decimal(m.gid) && b[6] == "gid=" + Decimal(o.gid);
    SameTail("uid=", Decimal(m.uid), Decimal(o.uid));
    SameTail("gid=", Decimal(m.gid), Decimal(o.gid));
    DecimalInjective(m.uid, o.uid);
    DecimalInjective(m.gid, o.gid);
    assert a[9] == AccessOptions(m.access)[0] && b[9] == AccessOptions(o.access)[0];
    assert AccessOptions(ReadWrite)[0][11] == '6' && AccessOptions(ReadWriteExecutable)[0][11] == '7';
  }

  lemma SameFirstOption(m: Marker, o: Marker)
    requires FirstOption(m) == FirstOption(o)
    ensures m.authentication == o.authentication
    ensures m.authentication == Credentials ==> m.id == o.id
  {
    if m.authentication == Credentials && o.authentication == Credentials {
      SameTail("credentials=", CredentialPathFor(m.id), CredentialPathFor(o.id));
      var head := "/etc/nasmount/";
      assert CredentialPathFor(m.id) == head + (m.id + ".cred") && CredentialPathFor(o.id) == head + (o.id + ".cred");
      SameTail(head, m.id + ".cred", o.id + ".cred");
      assert (m.id + ".cred")[..|m.id|] == m.id && (o.id + ".cred")[..|o.id|] == o.id;
    } else {
      assert "guest"[0] == 'g' && ("credentials=" + CredentialPathFor(m.id))[0] == 'c'
             && ("credentials=" + CredentialPathFor(o.id))[0] == 'c';
    }
  }
}
