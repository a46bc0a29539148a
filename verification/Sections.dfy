/**
 * Sections of a unit file: which lines belong to one, and what they assign
 * (extractSectionAssignments in src/core/unitspec.cpp).
 */
module Sections {
  import opened Types
  import opened Strings

  // --- one line ----------------------------------------------------------------------------

  predicate IsName(s: string) {
    s != "" && forall c | c in s :: IsLetter(c)
  }

  /** The section a header line opens: a name of letters in brackets and nothing else. */
  function Header(line: string): Option<string> {
    if |line| >= 3 && line[0] == '[' && line[|line| - 1] == ']' && IsName(line[1..|line| - 1])
    then Some(line[1..|line| - 1])
    else None
  }

  predicate IsKeyChar(c: char) {
    IsLetter(c) || IsDigit(c)
  }

  predicate IsKey(k: string) {
    k != "" && IsLetter(k[0]) && forall c | c in k :: IsKeyChar(c)
  }

  function KeyLength(line: string): (n: nat)
    ensures n <= |line|
  {
    if line != "" && IsKeyChar(line[0]) then 1 + KeyLength(line[1..]) else 0
  }

  /** Key and value of an assignment line. */
  function Assignment(line: string): (r: Option<(string, string)>)
    ensures r.Some? ==> line == r.value.0 + "=" + r.value.1
  {
    var n := KeyLength(line);
    if 0 < n < |line| && IsLetter(line[0]) && line[n] == '=' then Some((line[..n], line[n + 1..])) else None
  }

  function Assign(key: string, value: string): string {
    key + "=" + value
  }

  lemma {:induction false} KeyLengthOf(key: string, rest: string)
    requires (forall c :: c in key ==> IsKeyChar(c)) && rest != "" && !IsKeyChar(rest[0])
    ensures KeyLength(key + rest) == |key|
    decreases |key|
  {
    if key != "" {
      assert (key + rest)[1..] == key[1..] + rest;
      KeyLengthOf(key[1..], rest);
    } else {
      assert key + rest == rest;
    }
  }

  /** A written assignment is read as what was assigned, and is neither a header nor blank. */
  lemma AssignIsRead(key: string, value: string)
    requires IsKey(key)
    ensures Assignment(Assign(key, value)) == Some((key, value))
    ensures Header(Assign(key, value)).None? && !Blank(Assign(key, value))
  {
    var line := Assign(key, value);
    assert line == key + ("=" + value);
    KeyLengthOf(key, "=" + value);
    assert line[..|key|] == key && line[|key| + 1..] == value;
    assert line[0] == key[0] && line[0] in line;
  }

  function Bracketed(name: string): string {
    "[" + name + "]"
  }

  lemma BracketedIsHeader(name: string)
    requires IsName(name)
    ensures Header(Bracketed(name)) == Some(name)
  {
    assert Bracketed(name)[1..|name| + 1] == name;
  }

  // --- the lines of a section ------------------------------------------------------------------

  /** The non-blank lines inside every section of this name, in order. */
  function Body(lines: seq<string>, section: string, inside: bool): seq<string> {
    if lines == [] then []
    else match Header(lines[0])
      case Some(h) => Body(lines[1..], section, h == section)
      case None => (if inside && !Blank(lines[0]) then [lines[0]] else []) + Body(lines[1..], section, inside)
  }

  predicate Headed(lines: seq<string>, section: string) {
    exists line | line in lines :: Header(line) == Some(section)
  }

  function AssignedBy(line: string, key: string): seq<string> {
    match Assignment(line)
    case Some((k, v)) => if k == key then [v] else []
    case None => []
  }

  /** The values a key is given, line by line. */
  function Assigned(body: seq<string>, key: string): seq<string> {
    if body == [] then [] else AssignedBy(body[0], key) + Assigned(body[1..], key)
  }

  predicate Allowed(line: string, keys: seq<string>) {
    Assignment(line).Some? && Assignment(line).value.0 in keys
  }

  /** Only assignments, only to these keys, and none of them twice. */
  predicate WellFormed(body: seq<string>, keys: seq<string>) {
    && (forall line | line in body :: Allowed(line, keys))
    && forall k | k in keys :: |Assigned(body, k)| <= 1
  }

  ghost predicate Holds(values: map<string, string>, body: seq<string>) {
    forall k: string :: Assigned(body, k) == if k in values then [values[k]] else []
  }

  lemma {:induction false} AssignedConcat(a: seq<string>, b: seq<string>, key: string)
    ensures Assigned(a + b, key) == Assigned(a, key) + Assigned(b, key)
    decreases |a|
  {
    if a == [] {
      assert a + b == b;
    } else {
      AssignedConcat(a[1..], b, key);
      assert (a + b)[1..] == a[1..] + b && (a + b)[0] == a[0];
    }
  }

  lemma AssignedOne(line: string, key: string)
    ensures Assigned([line], key) == AssignedBy(line, key)
  {
    assert [line][1..] == [];
  }

  lemma {:induction false} AssignedOnlyTo(body: seq<string>, keys: seq<string>, key: string)
    requires (forall line :: line in body ==> Allowed(line, keys)) && key !in keys
    ensures Assigned(body, key) == []
    decreases |body|
  {
    if body != [] {
      assert Allowed(body[0], keys);
      AssignedOnlyTo(body[1..], keys, key);
    }
  }

  lemma HoldsIsWellFormed(values: map<string, string>, body: seq<string>, keys: seq<string>)
    requires Holds(values, body) && forall line :: line in body ==> Allowed(line, keys)
    ensures WellFormed(body, keys) && forall k :: k in values ==> k in keys
  {
    forall k | k in values ensures k in keys {
      if k !in keys { AssignedOnlyTo(body, keys, k); }
    }
  }

  lemma HoldsMore(values: map<string, string>, body: seq<string>, line: string, after: map<string, string>)
    requires Holds(values, body) && Assignment(line).Some?
    requires var (k, v) := Assignment(line).value; k !in values && after == values[k := v]
    ensures Holds(after, body + [line])
  {
    forall k: string ensures Assigned(body + [line], k) == if k in after then [after[k]] else [] {
      AssignedConcat(body, [line], k);
      AssignedOne(line, k);
    }
  }

  /** A rejected line makes the section ill-formed, whatever follows it. */
  lemma Rejected(values: map<string, string>, done: seq<string>, line: string, rest: seq<string>, keys: seq<string>)
    requires Holds(values, done)
    requires Allowed(line, keys) ==> Assignment(line).value.0 in values
    ensures !WellFormed(done + [line] + rest, keys)
  {
    var body := done + [line] + rest;
    assert line in body;
    if Allowed(line, keys) {
      var k := Assignment(line).value.0;
      AssignedConcat(done + [line], rest, k);
      AssignedConcat(done, [line], k);
      AssignedOne(line, k);
      assert |Assigned(body, k)| >= 2;
    }
  }

  /** One line of the file: it opens a section, or it is skipped, or it joins the body. */
  lemma BodyStep(lines: seq<string>, i: nat, section: string, inside: bool)
    requires i < |lines|
    ensures var line, rest := lines[i], lines[i + 1..];
            Body(lines[i..], section, inside) ==
              if Header(line).Some? then Body(rest, section, Header(line).value == section)
              else if inside && !Blank(line) then [line] + Body(rest, section, inside)
              else Body(rest, section, inside)
    ensures Headed(lines[..i + 1], section) <==> Headed(lines[..i], section) || Header(lines[i]) == Some(section)
  {
    assert lines[i..][1..] == lines[i + 1..] && lines[..i + 1] == lines[..i] + [lines[i]];
  }

  /** extractSectionAssignments */
  method ExtractSectionAssignments(content: string, section: string, allowedKeys: seq<string>)
      returns (r: Option<map<string, string>>)
    ensures var body := Body(Lines(content), section, false);
            && (r.Some? <==> Headed(Lines(content), section) && WellFormed(body, allowedKeys))
            && (r.Some? ==> Holds(r.value, body))
  {
    var lines := Lines(content);
    var values: map<string, string>, inSection, sectionSeen := map[], false, false;
    ghost var all, done := Body(lines, section, false), [];
    assert lines[0..] == lines;
    for i := 0 to |lines|
      invariant all == done + Body(lines[i..], section, inSection)
      invariant sectionSeen <==> Headed(lines[..i], section)
      invariant Holds(values, done) && forall line :: line in done ==> Allowed(line, allowedKeys)
    {
      var line := lines[i];
      BodyStep(lines, i, section, inSection);
      var header := Header(line);
      if header.Some? {
        inSection := header.value == section;
        sectionSeen := sectionSeen || inSection;
      } else if inSection && !Blank(line) {
        assert all == done + [line] + Body(lines[i + 1..], section, true);
        var m := Assignment(line);
        if m.None? || m.value.0 !in allowedKeys || m.value.0 in values {
          Rejected(values, done, line, Body(lines[i + 1..], section, true), allowedKeys);
          return None;
        }
        HoldsMore(values, done, line, values[m.value.0 := m.value.1]);
        values := values[m.value.0 := m.value.1];
        done := done + [line];
      }
    }
    assert lines[..|lines|] == lines && all == done;
    HoldsIsWellFormed(values, done, allowedKeys);
    r := if sectionSeen then Some(values) else None;
  }

  // --- what a well-formed section says ---------------------------------------------------------

  type Pair = (string, string)

  function AssignLines(pairs: seq<Pair>): (lines: seq<string>)
    ensures |lines| == |pairs| && forall i :: 0 <= i < |pairs| ==> lines[i] == Assign(pairs[i].0, pairs[i].1)
  {
    seq(|pairs|, i requires 0 <= i < |pairs| => Assign(pairs[i].0, pairs[i].1))
  }

  predicate Distinct(keys: seq<string>) {
    forall i, j | 0 <= i < j < |keys| :: keys[i] != keys[j]
  }

  predicate Once(body: seq<string>, keys: seq<string>) {
    forall k | k in keys :: |Assigned(body, k)| == 1
  }

  /** The one value of each key, in the order of the keys. */
  function PairsOf(body: seq<string>, keys: seq<string>): seq<Pair>
    requires Once(body, keys)
  {
    seq(|keys|, i requires 0 <= i < |keys| => (keys[i], Assigned(body, keys[i])[0]))
  }

  /** All lines of the keys, key by key. */
  function Sorted(body: seq<string>, keys: seq<string>): seq<string> {
    if keys == [] then [] else Written(keys[0], Assigned(body, keys[0])) + Sorted(body, keys[1..])
  }

  function Written(key: string, values: seq<string>): seq<string> {
    if values == [] then [] else [Assign(key, values[0])] + Written(key, values[1..])
  }

  /** One more line in front: its own key has one more value, the others have what they had. */
  lemma AssignedNext(line: string, body: seq<string>, key: string)
    requires Assignment(line).Some?
    ensures var (k, v) := Assignment(line).value;
            Assigned([line] + body, key) == if key == k then [v] + Assigned(body, key) else Assigned(body, key)
  {
    assert ([line] + body)[1..] == body;
  }

  lemma {:induction false} SortedOtherLine(line: string, body: seq<string>, keys: seq<string>)
    requires Assignment(line).Some? && Assignment(line).value.0 !in keys
    ensures Sorted([line] + body, keys) == Sorted(body, keys)
    decreases |keys|
  {
    if keys != [] {
      assert keys[0] in keys;
      AssignedNext(line, body, keys[0]);
      SortedOtherLine(line, body, keys[1..]);
    }
  }

  lemma WrittenNext(key: string, v: string, values: seq<string>)
    ensures Written(key, [v] + values) == [Assign(key, v)] + Written(key, values)
  {
    assert ([v] + values)[1..] == values;
  }

  lemma {:induction false} SortedNextLine(line: string, body: seq<string>, keys: seq<string>)
    requires Distinct(keys) && Allowed(line, keys)
    ensures multiset(Sorted([line] + body, keys)) == multiset{line} + multiset(Sorted(body, keys))
    decreases |keys|
  {
    var (k, v) := Assignment(line).value;
    var key, others := keys[0], keys[1..];
    var here := Written(key, Assigned(body, key));
    AssignedNext(line, body, key);
    if k == key {
      SortedOtherLine(line, body, others);
      WrittenNext(k, v, Assigned(body, k));
      assert line == Assign(k, v);
      InFront(line, here, Sorted(body, others));
    } else {
      SortedNextLine(line, body, others);
      InRest(line, here, Sorted([line] + body, others), Sorted(body, others));
    }
  }

  lemma InRest(line: string, here: seq<string>, more: seq<string>, rest: seq<string>)
    requires multiset(more) == multiset{line} + multiset(rest)
    ensures multiset(here + more) == multiset{line} + multiset(here + rest)
  {
  }

  lemma InFront(line: string, here: seq<string>, rest: seq<string>)
    ensures multiset([line] + here + rest) == multiset{line} + multiset(here + rest)
  {
    assert [line] + here + rest == [line] + (here + rest);
  }

  /** Sorting the lines of a section by key neither adds nor loses a line. */
  lemma {:induction false} SortedKeepsLines(body: seq<string>, keys: seq<string>)
    requires Distinct(keys) && forall line :: line in body ==> Allowed(line, keys)
    ensures multiset(Sorted(body, keys)) == multiset(body)
    decreases |body|
  {
    if body == [] {
      SortedNothing(keys);
    } else {
      SortedKeepsLines(body[1..], keys);
      assert body == [body[0]] + body[1..] && Allowed(body[0], keys);
      SortedNextLine(body[0], body[1..], keys);
    }
  }

  lemma {:induction false} SortedNothing(keys: seq<string>)
    ensures Sorted([], keys) == []
    decreases |keys|
  {
    if keys != [] { SortedNothing(keys[1..]); }
  }

  lemma {:induction false} SortedOnce(body: seq<string>, keys: seq<string>)
    requires Once(body, keys)
    ensures Sorted(body, keys) == AssignLines(PairsOf(body, keys))
    decreases |keys|
  {
    if keys != [] {
      SortedOnce(body, keys[1..]);
      var vs := Assigned(body, keys[0]);
      assert keys[0] in keys && |vs| == 1;
      assert vs[1..] == [] && Written(keys[0], vs) == [Assign(keys[0], vs[0])];
    }
  }

  /** A section that gives every allowed key one value has exactly those lines, in some order. */
  lemma ExactlyTheseLines(body: seq<string>, keys: seq<string>)
    requires Distinct(keys) && WellFormed(body, keys) && Once(body, keys)
    ensures multiset(body) == multiset(AssignLines(PairsOf(body, keys)))
  {
    SortedKeepsLines(body, keys);
    SortedOnce(body, keys);
  }

  // --- reading what was written --------------------------------------------------------------------

  predicate DistinctKeys(pairs: seq<Pair>) {
    && (forall p | p in pairs :: IsKey(p.0))
    && forall i, j | 0 <= i < j < |pairs| :: pairs[i].0 != pairs[j].0
  }

  lemma {:induction false} AssignedAbsent(pairs: seq<Pair>, key: string)
    requires DistinctKeys(pairs) && forall p :: p in pairs ==> p.0 != key
    ensures Assigned(AssignLines(pairs), key) == []
    decreases |pairs|
  {
    if pairs != [] {
      assert AssignLines(pairs)[1..] == AssignLines(pairs[1..]);
      assert pairs[0] in pairs;
      AssignIsRead(pairs[0].0, pairs[0].1);
      AssignedAbsent(pairs[1..], key);
    }
  }

  /** Each written key is read with the value it was written with, and only that. */
  lemma {:induction false} AssignedWritten(pairs: seq<Pair>, i: nat)
    requires DistinctKeys(pairs) && i < |pairs|
    ensures Assigned(AssignLines(pairs), pairs[i].0) == [pairs[i].1]
    decreases |pairs|
  {
    assert AssignLines(pairs)[1..] == AssignLines(pairs[1..]);
    assert pairs[0] in pairs;
    AssignIsRead(pairs[0].0, pairs[0].1);
    if i == 0 {
      AssignedAbsent(pairs[1..], pairs[0].0);
    } else {
      AssignedWritten(pairs[1..], i - 1);
    }
  }

  function KeysOf(pairs: seq<Pair>): (keys: seq<string>)
    ensures |keys| == |pairs| && forall i :: 0 <= i < |pairs| ==> keys[i] == pairs[i].0
  {
    seq(|pairs|, i requires 0 <= i < |pairs| => pairs[i].0)
  }

  lemma WrittenIsWellFormed(pairs: seq<Pair>)
    requires DistinctKeys(pairs)
    ensures WellFormed(AssignLines(pairs), KeysOf(pairs)) && Once(AssignLines(pairs), KeysOf(pairs))
  {
    var body, keys := AssignLines(pairs), KeysOf(pairs);
    forall line | line in body ensures Allowed(line, keys) {
      var i :| 0 <= i < |body| && body[i] == line;
      assert pairs[i] in pairs && keys[i] in keys;
      AssignIsRead(pairs[i].0, pairs[i].1);
    }
    forall k | k in keys ensures |Assigned(body, k)| == 1 {
      var i :| 0 <= i < |keys| && keys[i] == k;
      AssignedWritten(pairs, i);
    }
  }

  predicate NoHeader(lines: seq<string>) {
    forall line | line in lines :: Header(line).None?
  }

  function NonBlank(lines: seq<string>): seq<string> {
    if lines == [] then [] else (if Blank(lines[0]) then [] else [lines[0]]) + NonBlank(lines[1..])
  }

  lemma {:induction false} BodyPrefix(a: seq<string>, b: seq<string>, section: string, inside: bool)
    requires NoHeader(a)
    ensures Body(a + b, section, inside) == (if inside then NonBlank(a) else []) + Body(b, section, inside)
    decreases |a|
  {
    if a == [] {
      assert a + b == b;
    } else {
      assert a[0] in a && (a + b)[0] == a[0] && (a + b)[1..] == a[1..] + b;
      BodyPrefix(a[1..], b, section, inside);
    }
  }

  lemma BodyHeader(name: string, rest: seq<string>, section: string, inside: bool)
    requires IsName(name)
    ensures Body([Bracketed(name)] + rest, section, inside) == Body(rest, section, name == section)
  {
    BracketedIsHeader(name);
    assert ([Bracketed(name)] + rest)[1..] == rest;
  }

  function TwoSections(before: seq<string>, n1: string, b1: seq<string>, n2: string, b2: seq<string>): seq<string> {
    before + ([Bracketed(n1)] + (b1 + ([Bracketed(n2)] + b2)))
  }

  /** In a file of two sections each one has its own lines and nothing of the other. */
  lemma TwoBodies(before: seq<string>, n1: string, b1: seq<string>, n2: string, b2: seq<string>)
    requires IsName(n1) && IsName(n2) && n1 != n2 && NoHeader(before) && NoHeader(b1) && NoHeader(b2)
    ensures Body(TwoSections(before, n1, b1, n2, b2), n1, false) == NonBlank(b1)
    ensures Body(TwoSections(before, n1, b1, n2, b2), n2, false) == NonBlank(b2)
    ensures Headed(TwoSections(before, n1, b1, n2, b2), n1) && Headed(TwoSections(before, n1, b1, n2, b2), n2)
  {
    var last := [Bracketed(n2)] + b2;
    var first := [Bracketed(n1)] + (b1 + last);
    var lines := TwoSections(before, n1, b1, n2, b2);
    assert b2 + [] == b2;
    forall n | n == n1 || n == n2
      ensures Body(lines, n, false) == (if n == n1 then NonBlank(b1) else []) + (if n == n2 then NonBlank(b2) else [])
    {
      BodyPrefix(before, first, n, false);
      BodyHeader(n1, b1 + last, n, false);
      BodyPrefix(b1, last, n, n == n1);
      BodyHeader(n2, b2, n, n == n1);
      BodyPrefix(b2, [], n, n == n2);
    }
    BracketedIsHeader(n1);
    BracketedIsHeader(n2);
    assert Bracketed(n1) in lines && Bracketed(n2) in lines;
  }

  lemma {:induction false} NonBlankAll(lines: seq<string>)
    requires forall line :: line in lines ==> !Blank(line)
    ensures NonBlank(lines) == lines && NonBlank(lines + [""]) == lines
    decreases |lines|
  {
    if lines == [] {
      assert NonBlank([""]) == NonBlank([""][1..]);
    } else {
      assert lines[0] in lines && (lines + [""])[1..] == lines[1..] + [""];
      NonBlankAll(lines[1..]);
    }
  }
}
