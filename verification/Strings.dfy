/** The string operations unit files are written and read with. */
module Strings {
  import opened Types

  // --- pieces and lines ------------------------------------------------------------------

  /** Split at every separator; n separators make n + 1 pieces. */
  function Split(s: string, sep: char): (pieces: seq<string>)
    ensures pieces != []
    decreases |s|
  {
    if s == "" then [""]
    else if s[0] == sep then [""] + Split(s[1..], sep)
    else var rest := Split(s[1..], sep); [[s[0]] + rest[0]] + rest[1..]
  }

  function Join(pieces: seq<string>, sep: char): string
    requires pieces != []
  {
    if |pieces| == 1 then pieces[0] else pieces[0] + [sep] + Join(pieces[1..], sep)
  }

  function Lines(s: string): (ls: seq<string>)
    ensures ls != []
  {
    Split(s, '\n')
  }

  function Unlines(ls: seq<string>): string {
    if ls == [] then "" else ls[0] + "\n" + Unlines(ls[1..])
  }

  predicate OneLine(s: string) {
    '\n' !in s
  }

  lemma {:induction false} FirstPiece(piece: string, sep: char, rest: string)
    requires sep !in piece
    ensures Split(piece + [sep] + rest, sep) == [piece] + Split(rest, sep)
    decreases |piece|
  {
    var s := piece + [sep] + rest;
    if piece == "" {
      assert s[0] == sep && s[1..] == rest;
    } else {
      assert s[0] == piece[0] && s[1..] == piece[1..] + [sep] + rest;
      FirstPiece(piece[1..], sep, rest);
      assert piece == [piece[0]] + piece[1..];
    }
  }

  lemma {:induction false} OnePiece(piece: string, sep: char)
    requires sep !in piece
    ensures Split(piece, sep) == [piece]
    decreases |piece|
  {
    if piece != "" {
      OnePiece(piece[1..], sep);
      assert piece == [piece[0]] + piece[1..];
    }
  }

  /** Pieces that do not contain the separator survive joining. */
  lemma {:induction false} SplitJoin(pieces: seq<string>, sep: char)
    requires pieces != [] && forall p :: p in pieces ==> sep !in p
    ensures Split(Join(pieces, sep), sep) == pieces
    decreases |pieces|
  {
    if |pieces| == 1 {
      OnePiece(pieces[0], sep);
    } else {
      FirstPiece(pieces[0], sep, Join(pieces[1..], sep));
      SplitJoin(pieces[1..], sep);
      assert pieces == [pieces[0]] + pieces[1..];
    }
  }

  /** What was written line by line is read back line by line. */
  lemma {:induction false} LinesUnlines(ls: seq<string>)
    requires forall l :: l in ls ==> OneLine(l)
    ensures Lines(Unlines(ls)) == ls + [""]
    decreases |ls|
  {
    if ls != [] {
      assert OneLine(ls[0]) && "\n" == ['\n'];
      FirstPiece(ls[0], '\n', Unlines(ls[1..]));
      LinesUnlines(ls[1..]);
      assert ls == [ls[0]] + ls[1..];
    }
  }

  // --- characters ------------------------------------------------------------------------

  predicate HasControlChars(s: string) {
    exists c | c in s :: c < ' ' || c == '\U{7F}'
  }

  /** QChar::isSpace */
  predicate IsSpace(c: char) {
    || c == ' ' || '\t' <= c <= '\r' || c == '\U{85}' || c == '\U{A0}' || c == '\U{1680}'
    || '\U{2000}' <= c <= '\U{200A}' || c == '\U{2028}' || c == '\U{2029}' || c == '\U{202F}'
    || c == '\U{205F}' || c == '\U{3000}'
  }

  predicate IsDigit(c: char) {
    '0' <= c <= '9'
  }

  predicate IsLetter(c: char) {
    'A' <= c <= 'Z' || 'a' <= c <= 'z'
  }

  predicate IsLowerHex(c: char) {
    IsDigit(c) || 'a' <= c <= 'f'
  }

  /** value == value.trimmed() */
  predicate Trimmed(s: string) {
    s == "" || (!IsSpace(s[0]) && !IsSpace(s[|s| - 1]))
  }

  /** line.trimmed().isEmpty() */
  predicate Blank(s: string) {
    forall c | c in s :: IsSpace(c)
  }

  predicate EndsWith(s: string, c: char) {
    s != "" && s[|s| - 1] == c
  }

  // --- percent signs -------------------------------------------------------------------------

  function DoublePercent(s: string): string {
    if s == "" then "" else (if s[0] == '%' then "%%" else [s[0]]) + DoublePercent(s[1..])
  }

  /** Every "%%" becomes "%", left to right. */
  function UndoublePercent(s: string): string
    decreases |s|
  {
    if s == "" then ""
    else if |s| >= 2 && s[0] == '%' && s[1] == '%' then "%" + UndoublePercent(s[2..])
    else [s[0]] + UndoublePercent(s[1..])
  }

  lemma {:induction false} UndoubleDouble(s: string)
    ensures UndoublePercent(DoublePercent(s)) == s
    decreases |s|
  {
    if s != "" {
      UndoubleDouble(s[1..]);
      var d := DoublePercent(s);
      if s[0] == '%' {
        assert d[2..] == DoublePercent(s[1..]);
      } else {
        assert d[1..] == DoublePercent(s[1..]);
      }
      assert s == [s[0]] + s[1..];
    }
  }

  /** Doubling neither adds nor loses characters other than percent signs, and keeps the ends. */
  lemma {:induction false} DoubleKeeps(s: string)
    ensures forall c :: c in DoublePercent(s) <==> c in s
    ensures s != "" ==> DoublePercent(s) != "" && DoublePercent(s)[0] == s[0]
                        && DoublePercent(s)[|DoublePercent(s)| - 1] == s[|s| - 1]
    ensures s == "" ==> DoublePercent(s) == ""
    decreases |s|
  {
    if s != "" {
      DoubleKeeps(s[1..]);
      assert s == [s[0]] + s[1..];
    }
  }

  lemma {:induction false} DoubleIdentity(s: string)
    requires '%' !in s
    ensures DoublePercent(s) == s
    decreases |s|
  {
    if s != "" {
      DoubleIdentity(s[1..]);
      assert s == [s[0]] + s[1..];
    }
  }

  // --- decimal numbers ---------------------------------------------------------------------------

  const UINT32 := 0x1_0000_0000

  function Digit(d: nat): char
    requires d < 10
  {
    '0' + d as char
  }

  function Decimal(n: nat): (s: string)
    ensures s != "" && forall c :: c in s ==> IsDigit(c)
  {
    if n < 10 then [Digit(n)] else Decimal(n / 10) + [Digit(n % 10)]
  }

  function DigitValue(c: char): nat
    requires IsDigit(c)
  {
    (c as int) - ('0' as int)
  }

  function Value(s: string): nat
    requires forall c :: c in s ==> IsDigit(c)
  {
    if s == "" then 0
    else
      assert s[|s| - 1] in s;
      Value(s[..|s| - 1]) * 10 + DigitValue(s[|s| - 1])
  }

  /** QString::toUInt on a string of digits: leading zeros are fine, 32 bits are not exceeded. */
  function ToUInt(s: string): Option<nat> {
    if s != "" && (forall c | c in s :: IsDigit(c)) && Value(s) < UINT32 then Some(Value(s)) else None
  }

  lemma {:induction false} ValueDecimal(n: nat)
    ensures Value(Decimal(n)) == n
    decreases n
  {
    if n >= 10 {
      ValueDecimal(n / 10);
      var s := Decimal(n);
      assert s[..|s| - 1] == Decimal(n / 10);
    }
  }

  lemma DecimalInjective(a: nat, b: nat)
    requires Decimal(a) == Decimal(b)
    ensures a == b
  {
    ValueDecimal(a);
    ValueDecimal(b);
  }
}
