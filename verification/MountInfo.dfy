/**
 * Reading /proc/self/mountinfo (src/core/verify.cpp): undoing the kernel's escapes,
 * and singling out the visible mount of a stack.
 */
module MountInfo {
  import opened Types
  import opened Strings

  // --- escapes -------------------------------------------------------------------------

  datatype Escape = Code(text: string, plain: char)

  /** An escape: a backslash, three digits, and the character they stand for. */
  type Code = e: Escape |
    |e.text| == 4 && e.text[0] == '\\' && IsDigit(e.text[1]) && IsDigit(e.text[2]) && IsDigit(e.text[3])
    witness Code("\\040", ' ')

  const SPACE: Code := Code("\\040", ' ')
  const TAB: Code := Code("\\011", '\t')
  const NEWLINE: Code := Code("\\012", '\n')
  const BACKSLASH: Code := Code("\\134", '\\')

  /** QString::replace: left to right, never looking again at what it has just written. */
  function Replace(s: string, code: Code): string
    decreases |s|
  {
    if s == "" then ""
    else if code.text <= s then [code.plain] + Replace(s[4..], code)
    else [s[0]] + Replace(s[1..], code)
  }

  /** unescapeMountinfoField: four passes, the backslash last. */
  function Unescape(field: string): string {
    Replace(Replace(Replace(Replace(field, SPACE), TAB), NEWLINE), BACKSLASH)
  }

  /** How the kernel writes a path: proc(5), /proc/pid/mountinfo. */
  function Escaped(path: string): string {
    if path == "" then ""
    else EscapeChar(path[0]) + Escaped(path[1..])
  }

  function EscapeChar(c: char): string {
    if c == ' ' then SPACE.text
    else if c == '\t' then TAB.text
    else if c == '\n' then NEWLINE.text
    else if c == '\\' then BACKSLASH.text
    else [c]
  }

  /** A single left-to-right pass that knows the given codes. */
  function Decode(s: string, codes: seq<Code>): string
    decreases |s|
  {
    if s == "" then ""
    else match First(s, codes)
      case Some(code) => [code.plain] + Decode(s[4..], codes)
      case None => [s[0]] + Decode(s[1..], codes)
  }

  function First(s: string, codes: seq<Code>): (r: Option<Code>)
    ensures r.Some? ==> r.value in codes && r.value.text <= s
    ensures r.None? ==> forall code :: code in codes ==> !(code.text <= s)
  {
    if codes == [] then None
    else if codes[0].text <= s then Some(codes[0])
    else First(s, codes[1..])
  }

  /** A code that cannot fabricate part of another one. */
  predicate Harmless(code: Code) {
    code.plain != '\\' && !IsDigit(code.plain)
  }

  /** Digits that a decoded string starts with were there before decoding. */
  lemma {:induction false} DigitsWereThere(s: string, codes: seq<Code>, digits: string)
    requires forall code :: code in codes ==> Harmless(code)
    requires forall i :: 0 <= i < |digits| ==> IsDigit(digits[i])
    ensures digits <= Decode(s, codes) ==> digits <= s
    decreases |digits|
  {
    if digits != "" && s != "" {
      var d := Decode(s, codes);
      match First(s, codes)
      case Some(code) => assert d[0] == code.plain && digits[0] != code.plain;
      case None =>
        DigitsWereThere(s[1..], codes, digits[1..]);
        assert d[0] == s[0] && d[1..] == Decode(s[1..], codes);
        assert digits <= d ==> digits[1..] <= d[1..];
        assert s == [s[0]] + s[1..] && digits == [digits[0]] + digits[1..];
    }
  }

  lemma NoCodeAtDigit(s: string, codes: seq<Code>)
    requires s != "" && IsDigit(s[0])
    ensures First(s, codes).None?
  {
  }

  /** Decoding keeps a leading run of digits, since no escape starts with one. */
  lemma {:induction false} DigitsStay(digits: string, tail: string, codes: seq<Code>)
    requires forall i :: 0 <= i < |digits| ==> IsDigit(digits[i])
    ensures Decode(digits + tail, codes) == digits + Decode(tail, codes)
    decreases |digits|
  {
    if digits == "" {
      assert digits + tail == tail;
    } else {
      var rest := digits[1..];
      assert (digits + tail)[1..] == rest + tail;
      NoCodeAtDigit(digits + tail, codes);
      DigitsStay(rest, tail, codes);
      assert digits == [digits[0]] + rest;
      assert [digits[0]] + (rest + Decode(tail, codes)) == digits + Decode(tail, codes);
    }
  }

  /** Text no earlier code decodes is kept as it stands until the next escape. */
  lemma TextStays(s: string, codes: seq<Code>, code: Code)
    requires code.text <= s && First(s, codes).None?
    ensures Decode(s, codes) == code.text + Decode(s[4..], codes)
  {
    var digits := code.text[1..];
    assert s[1..] == digits + s[4..];
    DigitsStay(digits, s[4..], codes);
    assert code.text == [s[0]] + digits;
    assert [s[0]] + (digits + Decode(s[4..], codes)) == code.text + Decode(s[4..], codes);
  }

  /** One more replacement pass is one more code in the single pass. */
  lemma {:induction false} OneMorePass(s: string, codes: seq<Code>, code: Code)
    requires forall c :: c in codes ==> Harmless(c) && c.text != code.text
    ensures Replace(Decode(s, codes), code) == Decode(s, codes + [code])
    decreases |s|
  {
    if s != "" {
      FirstOfMore(s, codes, code);
      var d := Decode(s, codes);
      match First(s, codes)
      case Some(c) =>
        OneMorePass(s[4..], codes, code);
        assert d[0] != code.text[0];
        assert d[1..] == Decode(s[4..], codes);
      case None =>
        if code.text <= s {
          TextStays(s, codes, code);
          assert code.text <= d && d[4..] == Decode(s[4..], codes);
          OneMorePass(s[4..], codes, code);
        } else {
          NotFabricated(s, codes, code);
          assert d[1..] == Decode(s[1..], codes);
          OneMorePass(s[1..], codes, code);
        }
    }
  }

  lemma FirstOfMore(s: string, codes: seq<Code>, code: Code)
    ensures First(s, codes + [code]) ==
            if First(s, codes).Some? then First(s, codes) else if code.text <= s then Some(code) else None
  {
    if codes == [] {
      assert codes + [code] == [code];
      assert First(s, [code][1..]) == None;
    } else {
      assert (codes + [code])[1..] == codes[1..] + [code];
      FirstOfMore(s, codes[1..], code);
    }
  }

  /** Decoding never creates an escape that was not in the text. */
  lemma NotFabricated(s: string, codes: seq<Code>, code: Code)
    requires forall c :: c in codes ==> Harmless(c)
    requires s != "" && First(s, codes).None?
    ensures code.text <= Decode(s, codes) ==> code.text <= s
  {
    var digits := code.text[1..];
    DigitsWereThere(s[1..], codes, digits);
    assert Decode(s, codes)[1..] == Decode(s[1..], codes);
    assert code.text <= Decode(s, codes) ==> digits <= Decode(s[1..], codes);
    assert s == [s[0]] + s[1..] && code.text == [code.text[0]] + digits;
  }

  const ALL_CODES := [SPACE, TAB, NEWLINE, BACKSLASH]

  lemma FourPasses(s: string, a: Code, b: Code, c: Code, d: Code)
    requires Harmless(a) && Harmless(b) && Harmless(c)
    requires a.text != b.text && a.text != c.text && a.text != d.text
    requires b.text != c.text && b.text != d.text && c.text != d.text
    ensures Replace(Replace(Replace(Replace(s, a), b), c), d) == Decode(s, [a, b, c, d])
  {
    NothingToDecode(s);
    OneMorePass(s, [], a);
    OneMorePass(s, [a], b);
    OneMorePass(s, [a, b], c);
    OneMorePass(s, [a, b, c], d);
    assert [] + [a] == [a] && [a] + [b] == [a, b];
    assert [a, b] + [c] == [a, b, c] && [a, b, c] + [d] == [a, b, c, d];
  }

  /** The four passes are one left-to-right decoding, for every string whatever it contains. */
  lemma FourPassesAreOne(field: string)
    ensures Unescape(field) == Decode(field, ALL_CODES)
  {
    assert SPACE.text[2] != TAB.text[2] && SPACE.text[2] != NEWLINE.text[2] && TAB.text[3] != NEWLINE.text[3];
    assert BACKSLASH.text[2] == '3';
    FourPasses(field, SPACE, TAB, NEWLINE, BACKSLASH);
  }

  lemma {:induction false} NothingToDecode(s: string)
    ensures Decode(s, []) == s
    decreases |s|
  {
    if s != "" { NothingToDecode(s[1..]); }
  }

  /** Every path the kernel can print is read back exactly, escapes-like text in it included. */
  lemma {:induction false} UnescapeEscape(path: string)
    ensures Unescape(Escaped(path)) == path
  {
    FourPassesAreOne(Escaped(path));
    DecodeEscape(path);
  }

  lemma {:induction false} DecodeEscape(path: string)
    ensures Decode(Escaped(path), ALL_CODES) == path
  {
    if path != "" {
      DecodeEscape(path[1..]);
      DecodeEscaped(path[0], Escaped(path[1..]));
      assert path == [path[0]] + path[1..];
    }
  }

  lemma DecodeEscaped(c: char, rest: string)
    ensures Decode(EscapeChar(c) + rest, ALL_CODES) == [c] + Decode(rest, ALL_CODES)
  {
    var e := EscapeChar(c) + rest;
    if c in {' ', '\t', '\n', '\\'} {
      EscapedIsFirst(e, c);
      assert e[4..] == rest;
    } else {
      assert e[0] == c && e[1..] == rest;
      assert forall code :: code in ALL_CODES ==> code.text[0] == '\\';
    }
  }

  lemma EscapedIsFirst(e: string, c: char)
    requires c in {' ', '\t', '\n', '\\'} && EscapeChar(c) <= e
    ensures First(e, ALL_CODES).Some? && First(e, ALL_CODES).value.plain == c
  {
    var code := if c == ' ' then SPACE else if c == '\t' then TAB else if c == '\n' then NEWLINE else BACKSLASH;
    assert code in ALL_CODES && code.text <= e;
    var found := First(e, ALL_CODES);
    assert found.value in [SPACE, TAB, NEWLINE, BACKSLASH];
    assert found.value.text[2] == e[2] && found.value.text[3] == e[3];
  }

  lemma {:induction false} DigitsUntouched(digits: string, code: Code)
    requires forall i :: 0 <= i < |digits| ==> IsDigit(digits[i])
    ensures Escaped(digits) == digits && Replace(digits, code) == digits
    decreases |digits|
  {
    if digits != "" {
      DigitsUntouched(digits[1..], code);
      assert digits == [digits[0]] + digits[1..];
    }
  }

  lemma ReplaceHead(code: Code, rest: string)
    ensures Replace(code.text + rest, code) == [code.plain] + Replace(rest, code)
  {
    var s := code.text + rest;
    assert code.text <= s && s[4..] == rest;
  }

  lemma EscapedHead(c: char, rest: string)
    ensures Escaped([c] + rest) == EscapeChar(c) + Escaped(rest)
  {
    assert ([c] + rest)[1..] == rest;
  }

  lemma SlashFirst(code: Code, slash: Code, escaped: string)
    requires slash.plain == '\\' && escaped == slash.text + code.text[1..]
    ensures Replace(Replace(escaped, slash), code) == [code.plain]
  {
    var path := code.text;
    var digits := path[1..];
    DigitsUntouched(digits, slash);
    ReplaceHead(slash, digits);
    assert [slash.plain] + digits == path;
    assert path == path + "";
    ReplaceHead(code, "");
  }

  /**
   * Decoding the backslash first is wrong for every name that spells an escape: its own
   * four characters come back as one, where the real order gives the name back.
   */
  lemma BackslashFirstIsWrong(code: Code)
    ensures Replace(Replace(Escaped(code.text), BACKSLASH), code) == [code.plain] != code.text
  {
    var digits := code.text[1..];
    assert code.text == [code.text[0]] + digits;
    EscapedHead(code.text[0], digits);
    DigitsUntouched(digits, code);
    SlashFirst(code, BACKSLASH, Escaped(code.text));
  }
}
