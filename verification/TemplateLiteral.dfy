/**
 * The escaping of the docs generator against its reader: the template-literal scanner of ECMA-262 (2023),
 * section 12.9.6, on UTF-16 code units.
 */
module TemplateLiteral {
  import opened Text

  type CodeUnit = n: int | 0 <= n < 0x1_0000
  type Str = seq<CodeUnit>

  const BACKSLASH: CodeUnit := 0x5C
  const BACKTICK: CodeUnit := 0x60
  const DOLLAR: CodeUnit := 0x24
  const OPEN_BRACE: CodeUnit := 0x7B
  const CLOSE_BRACE: CodeUnit := 0x7D
  const QUOTE: CodeUnit := 0x22
  const AMPERSAND: CodeUnit := 0x26
  const SEMICOLON: CodeUnit := 0x3B
  const LF: CodeUnit := 0x0A
  const CR: CodeUnit := 0x0D
  const LETTER_U: CodeUnit := 0x75
  const LETTER_X: CodeUnit := 0x78
  const DIGIT_0: CodeUnit := 0x30

  // ---------- the printer ----------

  /** `s.replace(/u/g, sub)` for a single code unit `u`. */
  function ReplaceUnit(s: Str, u: CodeUnit, sub: Str): Str {
    if s == [] then [] else (if s[0] == u then sub else [s[0]]) + ReplaceUnit(s[1..], u, sub)
  }

  predicate StartsSubstitution(s: Str) {
    |s| > 1 && s[0] == DOLLAR && s[1] == OPEN_BRACE
  }

  /** A backslash put before every dollar sign that an opening brace follows. */
  function EscapeSubstitutions(s: Str): Str {
    if s == [] then []
    else if StartsSubstitution(s) then [BACKSLASH, DOLLAR, OPEN_BRACE] + EscapeSubstitutions(s[2..])
    else [s[0]] + EscapeSubstitutions(s[1..])
  }

  function UpperHexDigit(d: int): CodeUnit
    requires 0 <= d < 16
  {
    if d < 10 then DIGIT_0 + d else 0x41 + (d - 10)
  }

  /** Backslash, `u`, and the code unit as four upper-case hexadecimal digits. */
  function UnicodeEscape(u: CodeUnit): Str {
    [BACKSLASH, LETTER_U, UpperHexDigit(u / 4096), UpperHexDigit(u / 256 % 16),
     UpperHexDigit(u / 16 % 16), UpperHexDigit(u % 16)]
  }

  /** Without the `u` flag the pattern matches code units, so surrogates are escaped one by one. */
  function EscapeUnicodeCharacters(s: Str): Str {
    if s == [] then []
    else (if s[0] > 0x7F then UnicodeEscape(s[0]) else [s[0]]) + EscapeUnicodeCharacters(s[1..])
  }

  function EscapeTemplateString(s: Str): Str {
    EscapeUnicodeCharacters(
      EscapeSubstitutions(
        ReplaceUnit(ReplaceUnit(s, BACKSLASH, [BACKSLASH, BACKSLASH]), BACKTICK, [BACKSLASH, BACKTICK])))
  }

  // ---------- the scanner ----------

  /** Where scanning stops: at the closing backtick, at a substitution, or with an error. */
  datatype Scan = Closed(cooked: Str, rest: Str) | Substitution(cooked: Str, rest: Str) | Malformed | Unterminated

  function Before(units: Str, scan: Scan): Scan {
    if scan.Closed? || scan.Substitution? then scan.(cooked := units + scan.cooked) else scan
  }

  function HexValue(u: CodeUnit): (v: int)
    ensures -1 <= v < 16
  {
    if 0x30 <= u <= 0x39 then u - 0x30
    else if 0x41 <= u <= 0x46 then u - 0x41 + 10
    else if 0x61 <= u <= 0x66 then u - 0x61 + 10
    else -1
  }

  predicate HexAt(s: Str, from: nat, n: nat) {
    from + n <= |s| && forall k | from <= k < from + n :: HexValue(s[k]) >= 0
  }

  predicate IsLineTerminator(u: CodeUnit) {
    u == LF || u == CR || u == 0x2028 || u == 0x2029
  }

  /** The value of a single-character escape, or of any other character standing for itself. */
  function SingleEscape(u: CodeUnit): CodeUnit {
    if u == 0x62 then 0x08
    else if u == 0x66 then 0x0C
    else if u == 0x6E then LF
    else if u == 0x72 then CR
    else if u == 0x74 then 0x09
    else if u == 0x76 then 0x0B
    else u
  }

  /** The digits of a braced code point: its value and the index of the closing brace. */
  function BracedCodePoint(s: Str, i: nat, value: nat): (r: (int, nat))
    ensures r.0 >= 0 ==> i <= r.1 < |s| && s[r.1] == CLOSE_BRACE && r.0 <= 0x10_FFFF
    decreases |s| - i
  {
    if i >= |s| || value > 0x10_FFFF then (-1, 0)
    else if s[i] == CLOSE_BRACE then (value, i)
    else if HexValue(s[i]) < 0 then (-1, 0)
    else BracedCodePoint(s, i + 1, 16 * value + HexValue(s[i]))
  }

  function Utf16(codePoint: int): Str
    requires 0 <= codePoint <= 0x10_FFFF
  {
    if codePoint < 0x1_0000 then [codePoint]
    else [0xD800 + (codePoint - 0x1_0000) / 0x400, 0xDC00 + (codePoint - 0x1_0000) % 0x400]
  }

  /** Template characters from inside a template literal, with their cooked values. */
  function ScanTemplate(s: Str): Scan
    decreases |s|
  {
    if s == [] then Unterminated
    else if s[0] == BACKTICK then Closed([], s[1..])
    else if StartsSubstitution(s) then Substitution([], s[2..])
    else if s[0] == BACKSLASH then ScanEscape(s)
    else if s[0] == CR then Before([LF], ScanTemplate(if |s| > 1 && s[1] == LF then s[2..] else s[1..]))
    else Before([s[0]], ScanTemplate(s[1..]))
  }

  function ScanEscape(s: Str): Scan
    requires s != [] && s[0] == BACKSLASH
    decreases |s|, 0
  {
    if |s| < 2 then Unterminated
    else if s[1] == CR then ScanTemplate(if |s| > 2 && s[2] == LF then s[3..] else s[2..])
    else if IsLineTerminator(s[1]) then ScanTemplate(s[2..])
    else if s[1] == LETTER_U then
      if |s| > 3 && s[2] == OPEN_BRACE && s[3] != CLOSE_BRACE then
        var (value, end) := BracedCodePoint(s, 3, 0);
        if value < 0 then Malformed else Before(Utf16(value), ScanTemplate(s[end + 1..]))
      else if HexAt(s, 2, 4) then
        Before([4096 * HexValue(s[2]) + 256 * HexValue(s[3]) + 16 * HexValue(s[4]) + HexValue(s[5])],
               ScanTemplate(s[6..]))
      else Malformed
    else if s[1] == LETTER_X then
      if HexAt(s, 2, 2) then Before([16 * HexValue(s[2]) + HexValue(s[3])], ScanTemplate(s[4..])) else Malformed
    else if s[1] == DIGIT_0 && (|s| == 2 || !(0x30 <= s[2] <= 0x39)) then Before([0], ScanTemplate(s[2..]))
    else if 0x30 <= s[1] <= 0x39 then Malformed
    else Before([SingleEscape(s[1])], ScanTemplate(s[2..]))
  }

  // ---------- the printer in one pass ----------

  /** What one code unit becomes, given the text it starts. */
  function Piece(s: Str): Str
    requires s != []
  {
    if s[0] == BACKSLASH then [BACKSLASH, BACKSLASH]
    else if s[0] == BACKTICK then [BACKSLASH, BACKTICK]
    else if StartsSubstitution(s) then [BACKSLASH, DOLLAR]
    else if s[0] > 0x7F then UnicodeEscape(s[0])
    else [s[0]]
  }

  function OnePass(s: Str): Str {
    if s == [] then [] else Piece(s) + OnePass(s[1..])
  }

  lemma {:induction false} UnicodeAppend(a: Str, b: Str)
    ensures EscapeUnicodeCharacters(a + b) == EscapeUnicodeCharacters(a) + EscapeUnicodeCharacters(b)
  {
    if a == [] {
      assert a + b == b;
    } else {
      assert (a + b)[1..] == a[1..] + b;
      UnicodeAppend(a[1..], b);
    }
  }

  /** The two single-unit replacements. */
  function Backslashed(s: Str): Str {
    ReplaceUnit(ReplaceUnit(s, BACKSLASH, [BACKSLASH, BACKSLASH]), BACKTICK, [BACKSLASH, BACKTICK])
  }

  lemma {:induction false} ReplaceAppend(a: Str, b: Str, u: CodeUnit, sub: Str)
    ensures ReplaceUnit(a + b, u, sub) == ReplaceUnit(a, u, sub) + ReplaceUnit(b, u, sub)
  {
    if a == [] {
      assert a + b == b;
    } else {
      assert (a + b)[1..] == a[1..] + b;
      ReplaceAppend(a[1..], b, u, sub);
    }
  }

  /** The units the first two replacements leave in place of one. */
  function FirstStage(u: CodeUnit): Str {
    if u == BACKSLASH then [BACKSLASH, BACKSLASH] else if u == BACKTICK then [BACKSLASH, BACKTICK] else [u]
  }

  lemma BackslashedStep(s: Str)
    requires s != []
    ensures Backslashed(s) == FirstStage(s[0]) + Backslashed(s[1..])
  {
    var head := if s[0] == BACKSLASH then [BACKSLASH, BACKSLASH] else [s[0]];
    var tail := ReplaceUnit(s[1..], BACKSLASH, [BACKSLASH, BACKSLASH]);
    ReplaceAppend(head, tail, BACKTICK, [BACKSLASH, BACKTICK]);
    assert head[1..] == if s[0] == BACKSLASH then [BACKSLASH] else [];
    if s[0] == BACKSLASH {
      assert [BACKSLASH][1..] == [];
    }
    assert ReplaceUnit(head, BACKTICK, [BACKSLASH, BACKTICK]) == FirstStage(s[0]);
  }

  /** An opening brace starts what follows exactly when it starts the original. */
  lemma BackslashedHead(s: Str)
    ensures Backslashed(s) == [] <==> s == []
    ensures s != [] ==> (Backslashed(s)[0] == OPEN_BRACE <==> s[0] == OPEN_BRACE)
  {
    if s != [] {
      BackslashedStep(s);
    }
  }

  lemma SubstitutionsStep(u: CodeUnit, t: Str)
    requires u != DOLLAR || t == [] || t[0] != OPEN_BRACE
    ensures EscapeSubstitutions([u] + t) == [u] + EscapeSubstitutions(t)
  {
    assert ([u] + t)[1..] == t;
  }

  lemma SubstitutionsAfterStage(u: CodeUnit, t: Str)
    requires u != DOLLAR || t == [] || t[0] != OPEN_BRACE
    ensures EscapeSubstitutions(FirstStage(u) + t) == FirstStage(u) + EscapeSubstitutions(t)
  {
    hide EscapeSubstitutions;
    SubstitutionsStep(u, t);
    if u == BACKSLASH || u == BACKTICK {
      SubstitutionsStep(BACKSLASH, [u] + t);
      assert FirstStage(u) + t == [BACKSLASH] + ([u] + t);
    }
  }

  /** The chain of replacements is the one-pass printer. */
  lemma {:induction false} EscapeIsOnePass(s: Str)
    ensures EscapeTemplateString(s) == OnePass(s)
  {
    if s == [] {
    } else {
      var t := Backslashed(s[1..]);
      EscapeIsOnePass(s[1..]);
      BackslashedStep(s);
      BackslashedHead(s[1..]);
      if StartsSubstitution(s) {
        BackslashedStep(s[1..]);
        var after := Backslashed(s[1..][1..]);
        assert t == [OPEN_BRACE] + after;
        assert Backslashed(s) == [DOLLAR, OPEN_BRACE] + after;
        assert Backslashed(s)[2..] == after && t[1..] == after;
        assert EscapeSubstitutions(Backslashed(s)) == [BACKSLASH, DOLLAR] + EscapeSubstitutions(t);
        StageUnicode([BACKSLASH, DOLLAR], EscapeSubstitutions(t));
      } else {
        SubstitutionsAfterStage(s[0], t);
        if s[0] <= 0x7F {
          StageUnicode(FirstStage(s[0]), EscapeSubstitutions(t));
        }
      }
    }
  }

  lemma StageUnicode(head: Str, t: Str)
    requires |head| <= 2 && forall k | 0 <= k < |head| :: head[k] <= 0x7F
    ensures EscapeUnicodeCharacters(head + t) == head + EscapeUnicodeCharacters(t)
  {
    UnicodeAppend(head, t);
    if |head| > 0 {
      assert head[1..] == [] || head[1..][1..] == [];
    }
  }

  // ---------- the round trip ----------

  /** Line breaks as template values see them: CR and CRLF become LF. */
  function NormalizeNewlines(s: Str): Str
    decreases |s|
  {
    if s == [] then []
    else if s[0] == CR then [LF] + NormalizeNewlines(if |s| > 1 && s[1] == LF then s[2..] else s[1..])
    else [s[0]] + NormalizeNewlines(s[1..])
  }

  lemma {:induction false} NewlinesKeptIff(s: Str)
    ensures |NormalizeNewlines(s)| <= |s|
    ensures NormalizeNewlines(s) == s <==> CR !in s
    decreases |s|
  {
    if s == [] {
    } else if s[0] == CR {
      NewlinesKeptIff(if |s| > 1 && s[1] == LF then s[2..] else s[1..]);
    } else {
      NewlinesKeptIff(s[1..]);
      assert s == [s[0]] + s[1..];
    }
  }

  lemma HexDigitReadsBack(d: int)
    requires 0 <= d < 16
    ensures HexValue(UpperHexDigit(d)) == d
  {
  }

  lemma FourDigits(u: CodeUnit)
    ensures u == 4096 * (u / 4096) + 256 * (u / 256 % 16) + 16 * (u / 16 % 16) + u % 16
  {
    var v := u / 16;
    assert u == 16 * v + u % 16;
    var w := v / 16;
    assert v == 16 * w + v % 16;
    assert u / 256 == w;
    assert u / 4096 == w / 16;
    assert w == 16 * (w / 16) + w % 16;
  }

  /** Four hexadecimal digits after backslash and `u` are one code unit. */
  lemma ScanFourDigits(s: Str, a: int, b: int, c: int, d: int)
    requires |s| >= 6 && s[0] == BACKSLASH && s[1] == LETTER_U
    requires 0 <= a < 16 && 0 <= b < 16 && 0 <= c < 16 && 0 <= d < 16
    requires s[2] == UpperHexDigit(a) && s[3] == UpperHexDigit(b)
    requires s[4] == UpperHexDigit(c) && s[5] == UpperHexDigit(d)
    ensures ScanTemplate(s) == Before([4096 * a + 256 * b + 16 * c + d], ScanTemplate(s[6..]))
  {
    HexDigitReadsBack(a);
    HexDigitReadsBack(b);
    HexDigitReadsBack(c);
    HexDigitReadsBack(d);
    assert HexAt(s, 2, 4);
    assert ScanTemplate(s) == ScanEscape(s);
    hide ScanTemplate, HexValue;
  }

  lemma UnicodeEscapeReadsBack(u: CodeUnit, t: Str)
    ensures ScanTemplate(UnicodeEscape(u) + t) == Before([u], ScanTemplate(t))
  {
    hide ScanTemplate, UpperHexDigit;
    var s := UnicodeEscape(u) + t;
    FourDigits(u);
    assert s[6..] == t;
    ScanFourDigits(s, u / 4096, u / 256 % 16, u / 16 % 16, u % 16);
  }

  /** A backslash before one of the three characters that the printer escapes. */
  lemma BackslashReadsBack(u: CodeUnit, t: Str)
    requires u == BACKSLASH || u == BACKTICK || u == DOLLAR
    ensures ScanTemplate([BACKSLASH, u] + t) == Before([u], ScanTemplate(t))
  {
    var s := [BACKSLASH, u] + t;
    assert s[2..] == t;
    assert ScanTemplate(s) == ScanEscape(s);
    hide ScanTemplate;
  }

  /** A character that stands for itself. */
  lemma PlainReadsBack(u: CodeUnit, t: Str)
    requires u != BACKSLASH && u != BACKTICK && u != CR
    requires u == DOLLAR ==> t == [] || t[0] != OPEN_BRACE
    ensures ScanTemplate([u] + t) == Before([u], ScanTemplate(t))
  {
    var s := [u] + t;
    assert s[1..] == t;
    hide ScanEscape;
  }

  lemma PieceReadsBack(s: Str, t: Str)
    requires s != [] && s[0] != CR
    requires s[0] == DOLLAR && !StartsSubstitution(s) ==> t != [] && t[0] != OPEN_BRACE
    ensures ScanTemplate(Piece(s) + t) == Before([s[0]], ScanTemplate(t))
  {
    hide ScanTemplate, UnicodeEscape;
    if s[0] == BACKSLASH || s[0] == BACKTICK || StartsSubstitution(s) {
      BackslashReadsBack(s[0], t);
    } else if s[0] > 0x7F {
      UnicodeEscapeReadsBack(s[0], t);
    } else {
      PlainReadsBack(s[0], t);
    }
  }

  /** The printed rest starts with an opening brace, or a line feed, only where the original does. */
  lemma PrintedHead(s: Str, rest: Str)
    ensures var t := OnePass(s) + [BACKTICK] + rest;
      && t != []
      && (t[0] == OPEN_BRACE <==> s != [] && s[0] == OPEN_BRACE)
      && (t[0] == LF <==> s != [] && s[0] == LF)
  {
  }

  /**
   * Scanning the printed text of any string, with a backtick after it, stops exactly at that backtick, meets no
   * substitution, and cooks back to the string with its line breaks normalized.
   */
  lemma {:induction false} ScanOfPrinted(s: Str, rest: Str)
    ensures ScanTemplate(OnePass(s) + [BACKTICK] + rest) == Closed(NormalizeNewlines(s), rest)
    decreases |s|
  {
    var whole := OnePass(s) + [BACKTICK] + rest;
    if s == [] {
      assert whole == [BACKTICK] + rest;
    } else {
      var t := OnePass(s[1..]) + [BACKTICK] + rest;
      assert whole == Piece(s) + t;
      PrintedHead(s[1..], rest);
      ScanOfPrinted(s[1..], rest);
      if s[0] == CR {
        if |s| > 1 && s[1] == LF {
          ScanOfPrinted(s[2..], rest);
        }
        hide OnePass, NormalizeNewlines;
        CarriageReturnReadsBack(s, rest, t);
      } else {
        PieceReadsBack(s, t);
      }
    }
  }

  /** A carriage return, with a line feed after it or not, is read as one line feed. */
  lemma CarriageReturnReadsBack(s: Str, rest: Str, t: Str)
    requires s != [] && s[0] == CR && t == OnePass(s[1..]) + [BACKTICK] + rest
    ensures ScanTemplate([CR] + t)
         == Before([LF], ScanTemplate(if |s| > 1 && s[1] == LF then OnePass(s[2..]) + [BACKTICK] + rest else t))
  {
    var whole := [CR] + t;
    assert whole[1..] == t;
    PrintedHead(s[1..], rest);
    if |s| > 1 && s[1] == LF {
      var after := OnePass(s[2..]) + [BACKTICK] + rest;
      assert s[1..][1..] == s[2..];
      assert t == [LF] + after;
      assert whole[2..] == after;
    }
  }

  /** The round trip of the generator's escaping, and exactly when it gives the string back unchanged. */
  lemma RoundTrip(s: Str, rest: Str)
    ensures ScanTemplate(EscapeTemplateString(s) + [BACKTICK] + rest) == Closed(NormalizeNewlines(s), rest)
    ensures ScanTemplate(EscapeTemplateString(s) + [BACKTICK] + rest) == Closed(s, rest) <==> CR !in s
  {
    EscapeIsOnePass(s);
    ScanOfPrinted(s, rest);
    NewlinesKeptIff(s);
  }

  /** The printed text is ASCII. */
  lemma {:induction false} EscapedIsAscii(s: Str)
    ensures forall k | 0 <= k < |EscapeTemplateString(s)| :: EscapeTemplateString(s)[k] <= 0x7F
  {
    EscapeIsOnePass(s);
    OnePassIsAscii(s);
  }

  lemma {:induction false} OnePassIsAscii(s: Str)
    ensures forall k | 0 <= k < |OnePass(s)| :: OnePass(s)[k] <= 0x7F
  {
    if s != [] {
      OnePassIsAscii(s[1..]);
      assert forall k | 0 <= k < |Piece(s)| :: Piece(s)[k] <= 0x7F;
    }
  }

  // ---------- what is escaped, and how ----------

  /** Hexadecimal digits are printed in upper case. */
  lemma UpperCaseDigits(d: int)
    requires 0 <= d < 16
    ensures UpperHexDigit(d) == if d < 10 then 0x30 + d else 0x41 + d - 10
    ensures 0x30 <= UpperHexDigit(d) <= 0x39 || 0x41 <= UpperHexDigit(d) <= 0x46
  {
  }

  /** Only what has to be is escaped: a dollar sign without a brace, a brace alone, quotes and line breaks are not. */
  lemma PlainUnitsStay(u: CodeUnit, rest: Str)
    requires u <= 0x7F && u != BACKSLASH && u != BACKTICK && (u == DOLLAR ==> rest == [] || rest[0] != OPEN_BRACE)
    ensures EscapeTemplateString([u] + rest) == [u] + EscapeTemplateString(rest)
  {
    EscapeIsOnePass([u] + rest);
    EscapeIsOnePass(rest);
    assert ([u] + rest)[1..] == rest;
  }

  /** A unit that is escaped, and what is written for it. */
  lemma EscapedUnit(u: CodeUnit, rest: Str, written: Str)
    requires Piece([u] + rest) == written
    ensures EscapeTemplateString([u] + rest) == written + EscapeTemplateString(rest)
  {
    EscapeIsOnePass(rest);
    EscapeIsOnePass([u] + rest);
    hide EscapeTemplateString, Piece;
    assert ([u] + rest)[1..] == rest;
  }

  /** Backslash, backtick, dollar before a brace, and e with an acute accent (U+00E9), each as the printer writes it. */
  lemma EscapedSamples(rest: Str)
    ensures EscapeTemplateString([0x5C] + rest) == [0x5C, 0x5C] + EscapeTemplateString(rest)
    ensures EscapeTemplateString([0x60] + rest) == [0x5C, 0x60] + EscapeTemplateString(rest)
    ensures EscapeTemplateString([0x24] + ([0x7B] + rest)) == [0x5C, 0x24] + ([0x7B] + EscapeTemplateString(rest))
    ensures EscapeTemplateString([0xE9] + rest) == [0x5C, 0x75, 0x30, 0x30, 0x45, 0x39] + EscapeTemplateString(rest)
  {
    hide EscapeTemplateString;
    assert 0xE9 / 4096 == 0 && 0xE9 / 256 % 16 == 0 && 0xE9 / 16 % 16 == 14 && 0xE9 % 16 == 9;
    EscapedUnit(0x5C, rest, [0x5C, 0x5C]);
    EscapedUnit(0x60, rest, [0x5C, 0x60]);
    EscapedUnit(0x24, [0x7B] + rest, [0x5C, 0x24]);
    PlainUnitsStay(0x7B, rest);
    EscapedUnit(0xE9, rest, [0x5C, 0x75, 0x30, 0x30, 0x45, 0x39]);
  }

  // ---------- the same escaping in a quoted attribute ----------

  /** Nothing in the string is escaped: no backslash, backtick or substitution, and only ASCII. */
  predicate NothingToEscape(s: Str) {
    s != [] ==>
      && s[0] != BACKSLASH && s[0] != BACKTICK && s[0] <= 0x7F && !StartsSubstitution(s)
      && NothingToEscape(s[1..])
  }

  lemma {:induction false} UnchangedIff(s: Str)
    ensures |OnePass(s)| >= |s|
    ensures OnePass(s) == s <==> NothingToEscape(s)
  {
    if s != [] {
      UnchangedIff(s[1..]);
      assert s == [s[0]] + s[1..];
      if |Piece(s)| == 1 {
        assert OnePass(s)[1..] == OnePass(s[1..]);
      }
    }
  }

  /** A quoted attribute runs to the next quote, with no escapes. */
  function ScanAttribute(s: Str): Scan {
    if s == [] then Unterminated
    else if s[0] == QUOTE then Closed([], s[1..])
    else Before([s[0]], ScanAttribute(s[1..]))
  }

  /** What character references stand for, by the text between the ampersand and the semicolon. */
  type References = Str -> Option<Str>

  /** As in HTML: names and numbers hold no backslash, and a reference stands for fewer units than it is written with. */
  ghost predicate ProperReferences(refs: References) {
    forall body: Str | refs(body).Some? :: BACKSLASH !in body && |refs(body).value| < |body| + 2
  }

  function FirstIndex(s: Str, u: CodeUnit): (i: nat)
    ensures i <= |s| && u !in s[..i]
    ensures i < |s| ==> s[i] == u
  {
    if s == [] || s[0] == u then 0
    else
      var i := FirstIndex(s[1..], u) + 1;
      assert s[..i] == [s[0]] + s[1..][..i - 1];
      i
  }

  /** The length of the reference at the start of `s`, or 0. */
  function ReferenceLength(refs: References, s: Str): (n: nat)
    ensures n <= |s|
    ensures n > 0 ==> n >= 2 && s[0] == AMPERSAND && s[n - 1] == SEMICOLON && refs(s[1..n - 1]).Some?
  {
    var end := FirstIndex(s, SEMICOLON);
    if s != [] && s[0] == AMPERSAND && end < |s| && refs(s[1..end]).Some? then end + 1 else 0
  }

  function DecodeReferences(refs: References, s: Str): Str
    decreases |s|
  {
    var n := ReferenceLength(refs, s);
    if s == [] then []
    else if n > 0 then refs(s[1..n - 1]).value + DecodeReferences(refs, s[n..])
    else [s[0]] + DecodeReferences(refs, s[1..])
  }

  predicate HoldsNoReference(refs: References, s: Str) {
    s != [] ==> ReferenceLength(refs, s) == 0 && HoldsNoReference(refs, s[1..])
  }

  /** The value of a quoted attribute: what stands between the quotes, with its references decoded. */
  function ReadAttribute(refs: References, s: Str): Scan {
    match ScanAttribute(s)
    case Closed(raw, rest) => Closed(DecodeReferences(refs, raw), rest)
    case other => other
  }

  lemma {:induction false} AttributeUpToQuote(a: Str, rest: Str)
    requires QUOTE !in a
    ensures ScanAttribute(a + [QUOTE] + rest) == Closed(a, rest)
  {
    var whole := a + [QUOTE] + rest;
    if a == [] {
      assert whole[1..] == rest;
    } else {
      assert whole[1..] == a[1..] + [QUOTE] + rest;
      AttributeUpToQuote(a[1..], rest);
    }
  }

  lemma {:induction false} AttributeHasNoQuote(s: Str)
    ensures ScanAttribute(s).Closed? ==> QUOTE !in ScanAttribute(s).cooked
    ensures ScanAttribute(s).Closed? ==> s == ScanAttribute(s).cooked + [QUOTE] + ScanAttribute(s).rest
  {
    if s != [] {
      AttributeHasNoQuote(s[1..]);
      assert s == [s[0]] + s[1..];
    }
  }

  /** Decoding changes nothing exactly when there is no reference. */
  lemma {:induction false} DecodedIff(refs: References, s: Str)
    requires ProperReferences(refs)
    ensures |DecodeReferences(refs, s)| <= |s|
    ensures DecodeReferences(refs, s) == s <==> HoldsNoReference(refs, s)
    decreases |s|
  {
    if s != [] {
      var n := ReferenceLength(refs, s);
      if n > 0 {
        DecodedIff(refs, s[n..]);
      } else {
        DecodedIff(refs, s[1..]);
        assert s == [s[0]] + s[1..];
      }
    }
  }

  function Backslashes(s: Str): nat {
    if s == [] then 0 else (if s[0] == BACKSLASH then 1 else 0) + Backslashes(s[1..])
  }

  lemma {:induction false} BackslashesAppend(a: Str, b: Str)
    ensures Backslashes(a + b) == Backslashes(a) + Backslashes(b)
  {
    if a == [] {
      assert a + b == b;
    } else {
      assert (a + b)[1..] == a[1..] + b;
      BackslashesAppend(a[1..], b);
    }
  }

  lemma {:induction false} NoBackslashes(s: Str)
    requires BACKSLASH !in s
    ensures Backslashes(s) == 0
  {
    if s != [] {
      NoBackslashes(s[1..]);
    }
  }

  lemma ReferenceHasNoBackslash(refs: References, s: Str)
    requires ProperReferences(refs) && ReferenceLength(refs, s) > 0
    ensures Backslashes(s) == Backslashes(s[ReferenceLength(refs, s)..])
  {
    var n := ReferenceLength(refs, s);
    hide ReferenceLength, Backslashes;
    var body := s[1..n - 1];
    assert s[..n] == [AMPERSAND] + body + [SEMICOLON];
    assert BACKSLASH !in body;
    NoBackslashes(s[..n]);
    BackslashesAppend(s[..n], s[n..]);
    assert s[..n] + s[n..] == s;
  }

  lemma DecodeStep(refs: References, s: Str)
    requires s != []
    ensures var n := ReferenceLength(refs, s);
      DecodeReferences(refs, s)
        == if n > 0 then refs(s[1..n - 1]).value + DecodeReferences(refs, s[n..])
           else [s[0]] + DecodeReferences(refs, s[1..])
  {
  }

  /** Decoding takes no backslash away. */
  lemma {:induction false} DecodingKeepsBackslashes(refs: References, s: Str)
    requires ProperReferences(refs)
    ensures Backslashes(DecodeReferences(refs, s)) >= Backslashes(s)
    decreases |s|
  {
    if s != [] {
      hide DecodeReferences, ReferenceLength, Backslashes, ProperReferences;
      DecodeStep(refs, s);
      var n := ReferenceLength(refs, s);
      if n > 0 {
        DecodingKeepsBackslashes(refs, s[n..]);
        BackslashesAppend(refs(s[1..n - 1]).value, DecodeReferences(refs, s[n..]));
        ReferenceHasNoBackslash(refs, s);
      } else {
        DecodingKeepsBackslashes(refs, s[1..]);
        BackslashesAppend([s[0]], DecodeReferences(refs, s[1..]));
        BackslashesAppend([s[0]], s[1..]);
        assert s == [s[0]] + s[1..];
      }
    }
  }

  lemma PieceAddsBackslashes(s: Str)
    requires s != []
    ensures Backslashes(Piece(s)) >= Backslashes([s[0]])
    ensures Backslashes(Piece(s)) == Backslashes([s[0]]) <==> Piece(s) == [s[0]]
  {
    hide UpperHexDigit;
    var piece := Piece(s);
    assert |piece| > 1 ==> piece == [piece[0]] + piece[1..];
    if |piece| > 1 {
      BackslashesAppend([piece[0]], piece[1..]);
      if s[0] == BACKSLASH {
        assert piece[1..] == [BACKSLASH];
      }
    }
  }

  /** Escaping adds a backslash wherever it changes anything. */
  lemma {:induction false} EscapingAddsBackslashes(s: Str)
    ensures Backslashes(OnePass(s)) >= Backslashes(s)
    ensures Backslashes(OnePass(s)) == Backslashes(s) <==> OnePass(s) == s
  {
    if s != [] {
      EscapingAddsBackslashes(s[1..]);
      PieceAddsBackslashes(s);
      BackslashesAppend(Piece(s), OnePass(s[1..]));
      BackslashesAppend([s[0]], s[1..]);
      assert s == [s[0]] + s[1..];
      UnchangedIff(s);
      UnchangedIff(s[1..]);
      assert NothingToEscape(s) <==> Piece(s) == [s[0]] && NothingToEscape(s[1..]);
    }
  }

  /**
   * A deprecation reason put in a quoted attribute with the same escaping reads back exactly when there was nothing to
   * escape and it holds neither a quote nor a character reference.
   */
  lemma AttributeReadsBackIff(refs: References, reason: Str, rest: Str)
    requires ProperReferences(refs)
    ensures ReadAttribute(refs, EscapeTemplateString(reason) + [QUOTE] + rest) == Closed(reason, rest)
       <==> NothingToEscape(reason) && QUOTE !in reason && HoldsNoReference(refs, reason)
  {
    hide ProperReferences, DecodeReferences, OnePass, EscapeTemplateString, NothingToEscape, HoldsNoReference,
         ScanAttribute;
    EscapeIsOnePass(reason);
    UnchangedIff(reason);
    DecodedIff(refs, reason);
    var escaped := OnePass(reason);
    var whole := escaped + [QUOTE] + rest;
    if escaped == reason && QUOTE !in reason {
      AttributeUpToQuote(reason, rest);
    }
    AttributeHasNoQuote(whole);
    if ReadAttribute(refs, whole) == Closed(reason, rest) {
      var raw := ScanAttribute(whole).cooked;
      assert whole == raw + [QUOTE] + rest;
      assert |raw| == |escaped|;
      assert raw == whole[..|raw|] && escaped == whole[..|escaped|];
      DecodingKeepsBackslashes(refs, escaped);
      EscapingAddsBackslashes(reason);
    }
  }
}
