/**
 * Text helpers with the meaning of the Python built-ins the pipeline relies on:
 * str.strip, str.lower/str.upper (ASCII letters), the `in` substring test,
 * str.split on one character, str.splitlines, and int()/int(x, 16)/float()
 * applied to text.
 */
module Text {

  datatype Option<T> = None | Some(value: T)

  function GetOr<T>(o: Option<T>, default: T): T
  {
    match o
    case Some(v) => v
    case None => default
  }

  /** Python's min() of two integers. */
  function Min(a: int, b: int): int
  {
    if a < b then a else b
  }

  /** No element is listed twice. */
  predicate Distinct<T(==)>(s: seq<T>)
  {
    forall i, j :: 0 <= i < j < |s| ==> s[i] != s[j]
  }

  // ---------------------------------------------------------------------------
  // Sequence facts used by the step lemmas
  // ---------------------------------------------------------------------------

  /** A non-empty sequence is its front followed by its last element. */
  lemma InitLast<T>(s: seq<T>)
    requires s != []
    ensures s[..|s| - 1] + [s[|s| - 1]] == s
  {
  }

  /** The front of a sequence with one element appended is the sequence. */
  lemma SnocInit<T>(s: seq<T>, x: T)
    ensures (s + [x])[..|s + [x]| - 1] == s && (s + [x])[|s + [x]| - 1] == x
  {
  }

  /** The empty sequence is a left unit of concatenation. */
  lemma EmptyAppend<T>(s: seq<T>)
    ensures [] + s == s
  {
  }

  /** Concatenation is associative. */
  lemma AppendAssoc<T>(a: seq<T>, b: seq<T>, c: seq<T>)
    ensures a + b + c == a + (b + c)
  {
  }

  /** The multiset of a sequence with one more element. */
  lemma MultisetSnoc<T>(init: seq<T>, x: T)
    ensures multiset(init + [x]) == multiset(init) + multiset{x}
  {
  }

  /** Adding one element raises its count by one and leaves the others. */
  lemma MultisetAddCount<T>(m: multiset<T>, x: T, y: T)
    ensures (m + multiset{x})[y] == m[y] + (if x == y then 1 else 0)
  {
  }

  // ---------------------------------------------------------------------------
  // Whitespace and str.strip()
  // ---------------------------------------------------------------------------

  /** The characters for which Python's str.isspace() holds; str.strip() removes exactly these. */
  predicate IsSpace(c: char)
  {
    ('\t' <= c <= '\r') || ('\U{1C}' <= c <= ' ') || c == '\U{85}' || c == '\U{A0}'
    || c == '\U{1680}' || ('\U{2000}' <= c <= '\U{200A}') || c == '\U{2028}' || c == '\U{2029}'
    || c == '\U{202F}' || c == '\U{205F}' || c == '\U{3000}'
  }

  function StripLeft(s: string): string
  {
    if s != [] && IsSpace(s[0]) then StripLeft(s[1..]) else s
  }

  function StripRight(s: string): string
  {
    if s != [] && IsSpace(s[|s| - 1]) then StripRight(s[..|s| - 1]) else s
  }

  lemma {:induction false} StripLeftFacts(s: string)
    ensures var r := StripLeft(s);
      |r| <= |s| && r == s[|s| - |r|..] && (r == [] || !IsSpace(r[0]))
      && forall i :: 0 <= i < |s| - |r| ==> IsSpace(s[i])
    decreases |s|
  {
    if s != [] && IsSpace(s[0]) {
      StripLeftFacts(s[1..]);
    }
  }

  lemma {:induction false} StripRightFacts(s: string)
    ensures var r := StripRight(s);
      |r| <= |s| && r == s[..|r|] && (r == [] || !IsSpace(r[|r| - 1]))
      && forall i :: |r| <= i < |s| ==> IsSpace(s[i])
    decreases |s|
  {
    if s != [] && IsSpace(s[|s| - 1]) {
      StripRightFacts(s[..|s| - 1]);
    }
  }

  /** Neither end of `s` is whitespace. */
  predicate Stripped(s: string)
  {
    s == [] || (!IsSpace(s[0]) && !IsSpace(s[|s| - 1]))
  }

  /** Python's str.strip() with no argument. */
  function Strip(s: string): string
  {
    StripRight(StripLeft(s))
  }

  /**
   * str.strip() removes whitespace at both ends and nothing else: the result
   * has no whitespace at either end, is empty exactly when the text is all
   * whitespace, and is left as it was when already stripped.
   */
  lemma StripFacts(s: string)
    ensures var r := Strip(s);
      Stripped(r) && |r| <= |s|
      && (r == [] <==> forall i :: 0 <= i < |s| ==> IsSpace(s[i]))
      && (forall c :: c in r ==> c in s)
      && (Stripped(s) ==> r == s)
  {
    var t := StripLeft(s);
    var r := StripRight(t);
    StripLeftFacts(s);
    StripRightFacts(t);
    var d := |s| - |t|;
    if r != [] {
      assert r[0] == t[0] == s[d];
    }
    forall c | c in r ensures c in s {
      var k :| 0 <= k < |r| && r[k] == c;
      assert s[d + k] == c;
    }
  }

  lemma StripIdempotent(s: string)
    ensures Strip(Strip(s)) == Strip(s)
  {
    StripFacts(s);
    StripFacts(Strip(s));
  }

  // ---------------------------------------------------------------------------
  // ASCII case mapping and substring search
  // ---------------------------------------------------------------------------

  function LowerChar(c: char): char
  {
    if 'A' <= c <= 'Z' then (c as int + 32) as char else c
  }

  function UpperChar(c: char): char
  {
    if 'a' <= c <= 'z' then (c as int - 32) as char else c
  }

  /** str.lower() on ASCII letters. */
  function Lower(s: string): (r: string)
    ensures |r| == |s|
  {
    seq(|s|, i requires 0 <= i < |s| => LowerChar(s[i]))
  }

  /** str.upper() on ASCII letters. */
  function Upper(s: string): (r: string)
    ensures |r| == |s|
  {
    seq(|s|, i requires 0 <= i < |s| => UpperChar(s[i]))
  }

  /** Python's `t in s` for two strings: `t` occurs as a contiguous block of `s`. */
  predicate IsSubstring(t: string, s: string)
    decreases |s|
  {
    t <= s || (s != [] && IsSubstring(t, s[1..]))
  }

  // ---------------------------------------------------------------------------
  // str.split(sep) for a one-character separator, and its inverse sep.join
  // ---------------------------------------------------------------------------

  /** Python's s.split(sep): the pieces between separators, in order (at least one piece). */
  function SplitOn(s: string, sep: char): (r: seq<string>)
    ensures |r| >= 1
    ensures forall i :: 0 <= i < |r| ==> sep !in r[i]
  {
    if s == [] then [""]
    else if s[0] == sep then [""] + SplitOn(s[1..], sep)
    else
      var t := SplitOn(s[1..], sep);
      assert sep !in [s[0]] + t[0];
      [[s[0]] + t[0]] + t[1..]
  }

  /** Python's sep.join(pieces). */
  function Join(pieces: seq<string>, sep: char): string
  {
    if pieces == [] then ""
    else if |pieces| == 1 then pieces[0]
    else pieces[0] + [sep] + Join(pieces[1..], sep)
  }

  lemma {:induction false} JoinSplit(s: string, sep: char)
    ensures Join(SplitOn(s, sep), sep) == s
  {
    if s == [] {
    } else if s[0] == sep {
      JoinSplit(s[1..], sep);
    } else {
      JoinSplit(s[1..], sep);
      var t := SplitOn(s[1..], sep);
      if |t| > 1 {
        assert Join(t, sep) == t[0] + [sep] + Join(t[1..], sep);
        assert ([[s[0]] + t[0]] + t[1..])[1..] == t[1..];
      }
    }
  }

  lemma {:induction false} SplitJoin(pieces: seq<string>, sep: char)
    requires |pieces| >= 1
    requires forall i :: 0 <= i < |pieces| ==> sep !in pieces[i]
    ensures SplitOn(Join(pieces, sep), sep) == pieces
    decreases |pieces|, |pieces[0]|
  {
    var p := pieces[0];
    if p == [] {
      if |pieces| > 1 {
        SplitJoin(pieces[1..], sep);
        var j := Join(pieces, sep);
        assert j == [sep] + Join(pieces[1..], sep);
        assert j[1..] == Join(pieces[1..], sep);
      }
    } else {
      var rest := [p[1..]] + pieces[1..];
      SplitJoin(rest, sep);
      if |pieces| > 1 {
        assert Join(rest, sep) == p[1..] + [sep] + Join(pieces[1..], sep);
        assert Join(pieces, sep) == [p[0]] + Join(rest, sep);
      } else {
        assert Join(pieces, sep) == [p[0]] + Join(rest, sep);
      }
      assert p[0] != sep by { assert p[0] in pieces[0]; }
      var j := Join(pieces, sep);
      assert j[0] == p[0] && j[1..] == Join(rest, sep);
      assert [p[0]] + p[1..] == p;
    }
  }

  // ---------------------------------------------------------------------------
  // str.splitlines()
  // ---------------------------------------------------------------------------

  /** The line boundaries recognised by Python's str.splitlines(). */
  predicate IsLineBreak(c: char)
  {
    c == '\n' || c == '\r' || c == '\U{0B}' || c == '\U{0C}' || c == '\U{1C}' || c == '\U{1D}'
    || c == '\U{1E}' || c == '\U{85}' || c == '\U{2028}' || c == '\U{2029}'
  }

  predicate NoBreaks(s: string)
  {
    forall i :: 0 <= i < |s| ==> !IsLineBreak(s[i])
  }

  /**
   * The state of splitlines after a prefix of the text: the lines closed so
   * far, the text of the open line, and whether the last character was "\r"
   * (a "\n" right after it belongs to the same boundary).
   */
  datatype LineScan = LineScan(closed: seq<string>, open: string, afterCR: bool)

  const NoLines := LineScan([], [], false)

  /** The reaction of splitlines to one character. */
  function LineStep(st: LineScan, c: char): LineScan
  {
    if c == '\n' && st.afterCR then LineScan(st.closed, st.open, false)
    else if IsLineBreak(c) then LineScan(st.closed + [st.open], [], c == '\r')
    else LineScan(st.closed, st.open + [c], false)
  }

  /** The state after reading `s` from state `st`. */
  function LineFeed(st: LineScan, s: string): LineScan
    decreases |s|
  {
    if s == [] then st else LineStep(LineFeed(st, s[..|s| - 1]), s[|s| - 1])
  }

  /**
   * Python's str.splitlines(): the text between boundaries, where "\r\n" is one
   * boundary and a boundary at the very end does not open another line.
   */
  function SplitLines(s: string): seq<string>
  {
    var st := LineFeed(NoLines, s);
    if st.open == [] then st.closed else st.closed + [st.open]
  }

  lemma {:induction false} LineFeedConcat(st: LineScan, a: string, b: string)
    ensures LineFeed(st, a + b) == LineFeed(LineFeed(st, a), b)
    decreases |b|
  {
    if b == [] {
      assert a + b == a;
    } else {
      assert (a + b)[..|a + b| - 1] == a + b[..|b| - 1];
      assert (a + b)[|a + b| - 1] == b[|b| - 1];
      LineFeedConcat(st, a, b[..|b| - 1]);
    }
  }

  /** The lines closed before the scan starts stay in front, untouched. */
  lemma {:induction false} LineFeedClosed(d: seq<string>, open: string, afterCR: bool, s: string)
    ensures var f := LineFeed(LineScan([], open, afterCR), s);
      LineFeed(LineScan(d, open, afterCR), s) == LineScan(d + f.closed, f.open, f.afterCR)
    decreases |s|
  {
    if s == [] {
      assert d + [] == d;
    } else {
      LineFeedClosed(d, open, afterCR, s[..|s| - 1]);
      var f := LineFeed(LineScan([], open, afterCR), s[..|s| - 1]);
      assert (d + f.closed) + [f.open] == d + (f.closed + [f.open]);
    }
  }

  /** Right after "\r" the open line is empty. */
  lemma {:induction false} LineFeedAfterCR(s: string)
    ensures LineFeed(NoLines, s).afterCR ==> LineFeed(NoLines, s).open == []
    decreases |s|
  {
    if s != [] {
      LineFeedAfterCR(s[..|s| - 1]);
    }
  }

  /** Text without boundaries is added to the open line. */
  lemma {:induction false} LineFeedPlain(st: LineScan, s: string)
    requires s != [] && NoBreaks(s)
    ensures LineFeed(st, s) == LineScan(st.closed, st.open + s, false)
    decreases |s|
  {
    var init := s[..|s| - 1];
    if init != [] {
      assert NoBreaks(init) by {
        assert forall i :: 0 <= i < |init| ==> init[i] == s[i];
      }
      LineFeedPlain(st, init);
      assert (st.open + init) + [s[|s| - 1]] == st.open + s;
    } else {
      assert s == [s[0]];
      assert LineFeed(st, init) == st;
    }
  }

  /** A text ending at a line boundary leaves no open line. */
  lemma EndedScan(t: string)
    requires t == [] || IsLineBreak(t[|t| - 1])
    ensures LineFeed(NoLines, t).open == []
  {
    if t != [] {
      LineFeedAfterCR(t[..|t| - 1]);
    }
  }

  /** The first character of `x`, when it is no boundary, is read the same after any boundary. */
  lemma ScanFromBoundary(afterCR: bool, x: string)
    requires x != [] && !IsLineBreak(x[0])
    ensures LineFeed(LineScan([], [], afterCR), x) == LineFeed(NoLines, x)
  {
    assert x == [x[0]] + x[1..];
    LineFeedConcat(LineScan([], [], afterCR), [x[0]], x[1..]);
    LineFeedConcat(NoLines, [x[0]], x[1..]);
    assert [x[0]][..0] == [];
  }

  /** Lines of `t` followed by lines of `x` when `t` ends at a line boundary. */
  lemma SplitLinesConcat(t: string, x: string)
    requires t == [] || IsLineBreak(t[|t| - 1])
    requires x == [] || !IsLineBreak(x[0])
    ensures SplitLines(t + x) == SplitLines(t) + SplitLines(x)
  {
    var a := LineFeed(NoLines, t);
    EndedScan(t);
    LineFeedConcat(NoLines, t, x);
    LineFeedClosed(a.closed, [], a.afterCR, x);
    if x == [] {
      assert t + x == t;
    } else {
      ScanFromBoundary(a.afterCR, x);
      var f := LineFeed(NoLines, x);
      assert a.closed + (f.closed + [f.open]) == (a.closed + f.closed) + [f.open];
    }
  }

  /** A final newline after a line that has none does not add a line. */
  lemma SplitLinesTerminate(t: string)
    requires t != [] && !IsLineBreak(t[|t| - 1])
    ensures SplitLines(t + "\n") == SplitLines(t)
  {
    var s := t + "\n";
    assert s[..|s| - 1] == t && s[|s| - 1] == '\n';
    assert LineFeed(NoLines, t).open != [];
  }

  /** A line without boundaries, terminated by "\n", reads back as that single line. */
  lemma SplitLinesOne(l: string)
    requires l != [] && NoBreaks(l)
    ensures SplitLines(l + "\n") == [l]
  {
    LineFeedPlain(NoLines, l);
    assert [] + l == l;
    SplitLinesTerminate(l);
  }

  // ---------------------------------------------------------------------------
  // int(text), int(text, 16) and float(text)
  // ---------------------------------------------------------------------------

  predicate IsDigit(c: char)
  {
    '0' <= c <= '9'
  }

  predicate AllDigits(s: string)
  {
    forall i :: 0 <= i < |s| ==> IsDigit(s[i])
  }

  function DigitValue(c: char): nat
    requires IsDigit(c)
  {
    c as int - '0' as int
  }

  function DigitChar(d: nat): char
    requires d < 10
  {
    (d + '0' as int) as char
  }

  /** The value of a run of decimal digits, most significant first. */
  function DecimalValue(s: string): nat
    requires AllDigits(s)
  {
    if s == [] then 0 else DecimalValue(s[..|s| - 1]) * 10 + DigitValue(s[|s| - 1])
  }

  /** Python's int(text) in base 10: surrounding whitespace, an optional sign, one or more ASCII digits. */
  function ParseInt(text: string): Option<int>
  {
    IntLiteral(Strip(text))
  }

  /** An optional sign followed by one or more ASCII digits. */
  function IntLiteral(t: string): Option<int>
  {
    var body := if t != [] && (t[0] == '-' || t[0] == '+') then t[1..] else t;
    if body != [] && AllDigits(body) then
      var v := DecimalValue(body);
      Some(if t[0] == '-' then -(v as int) else v)
    else None
  }

  /** The digits of a natural number, as str(n) writes them. */
  function FormatNat(n: nat): (r: string)
    ensures r != [] && AllDigits(r)
  {
    if n < 10 then [DigitChar(n)] else FormatNat(n / 10) + [DigitChar(n % 10)]
  }

  /** Python's str(n) for an int. */
  function FormatInt(n: int): string
  {
    if n < 0 then "-" + FormatNat(-n) else FormatNat(n)
  }

  lemma {:induction false} DecimalValueOfFormat(n: nat)
    ensures DecimalValue(FormatNat(n)) == n
  {
    if n >= 10 {
      var s := FormatNat(n);
      assert s[..|s| - 1] == FormatNat(n / 10);
      DecimalValueOfFormat(n / 10);
    }
  }

  /** int(str(n)) == n. */
  lemma ParseFormatInt(n: int)
    ensures ParseInt(FormatInt(n)) == Some(n)
  {
    var s := FormatInt(n);
    if n < 0 {
      DecimalValueOfFormat(-n);
      assert s[1..] == FormatNat(-n);
    } else {
      DecimalValueOfFormat(n);
    }
    assert Stripped(s);
    StripFacts(s);
  }

  predicate IsHexDigit(c: char)
  {
    ('0' <= c <= '9') || ('a' <= c <= 'f') || ('A' <= c <= 'F')
  }

  predicate AllHex(s: string)
  {
    forall i :: 0 <= i < |s| ==> IsHexDigit(s[i])
  }

  function HexDigitValue(c: char): (v: nat)
    requires IsHexDigit(c)
    ensures v < 16
  {
    if '0' <= c <= '9' then c as int - '0' as int
    else if 'a' <= c <= 'f' then c as int - 'a' as int + 10
    else c as int - 'A' as int + 10
  }

  /** The upper-case hex digit for 0..15. */
  function HexDigitChar(d: nat): (c: char)
    requires d < 16
    ensures IsHexDigit(c) && HexDigitValue(c) == d
  {
    if d < 10 then (d + '0' as int) as char else (d - 10 + 'A' as int) as char
  }

  /** Reading a hex digit and writing it back gives its upper-case form. */
  lemma HexDigitRoundTrip(c: char)
    requires IsHexDigit(c)
    ensures HexDigitChar(HexDigitValue(c)) == UpperChar(c)
  {
  }

  function HexValue(s: string): nat
    requires AllHex(s)
  {
    if s == [] then 0 else HexValue(s[..|s| - 1]) * 16 + HexDigitValue(s[|s| - 1])
  }

  /** Python's int(text, 16) on a non-empty run of hex digits; anything else raises (None). */
  function ParseHex(text: string): Option<nat>
  {
    if text != [] && AllHex(text) then Some(HexValue(text)) else None
  }

  /** Four upper-case hex digits, as '%04X' % v writes them. */
  function FormatHex4(v: nat): (r: string)
    requires v < 0x1_0000
    ensures |r| == 4 && AllHex(r)
  {
    [HexDigitChar(v / 0x1000), HexDigitChar(v / 0x100 % 16), HexDigitChar(v / 0x10 % 16), HexDigitChar(v % 16)]
  }

  /** The value of four hex digits, spelled out. */
  lemma HexValue4(s: string)
    requires |s| == 4 && AllHex(s)
    ensures HexValue(s) == HexDigitValue(s[0]) * 0x1000 + HexDigitValue(s[1]) * 0x100
                           + HexDigitValue(s[2]) * 0x10 + HexDigitValue(s[3])
  {
    assert s[..1][..0] == [];
    assert HexValue(s[..1]) == HexDigitValue(s[0]);
    assert s[..2][..1] == s[..1];
    assert HexValue(s[..2]) == HexDigitValue(s[0]) * 0x10 + HexDigitValue(s[1]);
    assert s[..3][..2] == s[..2];
    assert HexValue(s[..3]) == HexDigitValue(s[0]) * 0x100 + HexDigitValue(s[1]) * 0x10 + HexDigitValue(s[2]);
    assert s[..3] == s[..|s| - 1];
  }

  /** One base-16 digit split off: the quotient and remainder by 16. */
  lemma DigitSplit(v: nat, q: nat, r: nat)
    requires r < 16
    ensures v == 16 * q + r <==> (q == v / 16 && r == v % 16)
  {
  }

  /** Dividing by 16 twice is dividing by 0x100; three times, by 0x1000. */
  lemma DivDiv16(v: nat)
    ensures v / 16 / 16 == v / 0x100 && v / 0x100 / 16 == v / 0x1000
  {
    var q := v / 16;
    var s := q / 16;
    assert v == 0x100 * s + (16 * (q % 16) + v % 16);
    var t := v / 0x100;
    assert v == 0x1000 * (t / 16) + (0x100 * (t % 16) + v % 0x100);
  }

  /** Base-16 digits of a number below 0x10000, most significant first. */
  lemma Base16Digits(v: nat, a: nat, b: nat, c: nat, d: nat)
    requires a < 16 && b < 16 && c < 16 && d < 16
    ensures v == a * 0x1000 + b * 0x100 + c * 0x10 + d
        <==> (v < 0x1_0000 && a == v / 0x1000 && b == v / 0x100 % 16 && c == v / 0x10 % 16 && d == v % 16)
  {
    DivDiv16(v);
    if v == a * 0x1000 + b * 0x100 + c * 0x10 + d {
      DigitSplit(v, 16 * (16 * a + b) + c, d);
      DigitSplit(16 * (16 * a + b) + c, 16 * a + b, c);
      DigitSplit(16 * a + b, a, b);
    }
    if v < 0x1_0000 && a == v / 0x1000 && b == v / 0x100 % 16 && c == v / 0x10 % 16 && d == v % 16 {
      DigitSplit(v, v / 16, d);
      DigitSplit(v / 16, v / 0x100, c);
      DigitSplit(v / 0x100, a, b);
    }
  }

  /** '%04X' % v read back with int(_, 16) gives v. */
  lemma HexValueOfFormat4(v: nat)
    requires v < 0x1_0000
    ensures HexValue(FormatHex4(v)) == v
  {
    var s := FormatHex4(v);
    HexValue4(s);
    Base16Digits(v, v / 0x1000, v / 0x100 % 16, v / 0x10 % 16, v % 16);
  }

  /** '%04X' of a number given by its four base-16 digits writes those digits. */
  lemma FormatHex4Digits(v: nat, a: nat, b: nat, c: nat, d: nat)
    requires a < 16 && b < 16 && c < 16 && d < 16
    requires v == a * 0x1000 + b * 0x100 + c * 0x10 + d
    ensures v < 0x1_0000 && FormatHex4(v) == [HexDigitChar(a), HexDigitChar(b), HexDigitChar(c), HexDigitChar(d)]
  {
    Base16Digits(v, a, b, c, d);
  }

  /** Upper-casing four characters, spelled out. */
  lemma Upper4(s: string)
    requires |s| == 4
    ensures Upper(s) == [UpperChar(s[0]), UpperChar(s[1]), UpperChar(s[2]), UpperChar(s[3])]
  {
  }

  /** Four hex digits read with int(_, 16) and written back with '%04X' give their upper-case form. */
  lemma FormatOfHexValue4(s: string)
    requires |s| == 4 && AllHex(s)
    ensures HexValue(s) < 0x1_0000 && FormatHex4(HexValue(s)) == Upper(s)
  {
    HexValue4(s);
    FormatHex4Digits(HexValue(s), HexDigitValue(s[0]), HexDigitValue(s[1]), HexDigitValue(s[2]), HexDigitValue(s[3]));
    HexDigitRoundTrip(s[0]);
    HexDigitRoundTrip(s[1]);
    HexDigitRoundTrip(s[2]);
    HexDigitRoundTrip(s[3]);
    Upper4(s);
  }

  /** The value of a Python float. */
  datatype Float = Finite(value: real) | Infinity(negative: bool) | NaN

  function Pow10(n: nat): (p: nat)
    ensures p >= 1
  {
    if n == 0 then 1 else 10 * Pow10(n - 1)
  }

  function IndexOf(s: string, c: char): (i: nat)
    ensures i <= |s| && c !in s[..i]
    ensures i < |s| ==> s[i] == c
  {
    if s == [] || s[0] == c then 0
    else
      var j := IndexOf(s[1..], c);
      assert s[..1 + j] == [s[0]] + s[1..][..j];
      1 + j
  }

  /** digits [ '.' digits ] or '.' digits, with at least one digit. */
  function ParseMantissa(m: string): Option<real>
  {
    var d := IndexOf(m, '.');
    var ip := m[..d];
    var fp := if d < |m| then m[d + 1..] else "";
    if AllDigits(ip) && AllDigits(fp) && |ip| + |fp| > 0 then
      Some(DecimalValue(ip) as real + DecimalValue(fp) as real / Pow10(|fp|) as real)
    else None
  }

  /** [ '+' | '-' ] digits */
  function ParseExponent(e: string): Option<int>
  {
    var body := if e != [] && (e[0] == '-' || e[0] == '+') then e[1..] else e;
    if body != [] && AllDigits(body) then
      Some(if e[0] == '-' then -(DecimalValue(body) as int) else DecimalValue(body))
    else None
  }

  /** An unsigned decimal literal: mantissa, then an optional exponent introduced by 'e' or 'E'. */
  function ParseDecimal(s: string): Option<real>
  {
    var e := if IndexOf(s, 'e') < IndexOf(s, 'E') then IndexOf(s, 'e') else IndexOf(s, 'E');
    match ParseMantissa(s[..e])
    case None => None
    case Some(m) =>
      if e == |s| then Some(m)
      else
        match ParseExponent(s[e + 1..])
        case None => None
        case Some(k) =>
          Some(if k >= 0 then m * Pow10(k) as real else m / Pow10(-k) as real)
  }

  /**
   * Python's float(text) on ASCII text: surrounding whitespace, an optional sign,
   * then a decimal literal, or "inf", "infinity" or "nan" in any letter case.
   */
  function ParseFloat(text: string): Option<Float>
  {
    FloatLiteral(Strip(text))
  }

  /** An optional sign, then a decimal literal or one of float()'s special words. */
  function FloatLiteral(t: string): Option<Float>
  {
    var negative := t != [] && t[0] == '-';
    var body := if t != [] && (t[0] == '-' || t[0] == '+') then t[1..] else t;
    var word := Lower(body);
    if word == "inf" || word == "infinity" then Some(Infinity(negative))
    else if word == "nan" then Some(NaN)
    else
      match ParseDecimal(body)
      case Some(r) => Some(Finite(if negative then -r else r))
      case None => None
  }

  /** Python's `x < bound` for a float x and a finite bound (false for NaN). */
  predicate FloatLess(x: Float, bound: real)
  {
    match x
    case Finite(r) => r < bound
    case Infinity(negative) => negative
    case NaN => false
  }

  lemma {:induction false} IndexOfIs(s: string, c: char, i: nat)
    requires i <= |s| && c !in s[..i]
    requires i < |s| ==> s[i] == c
    ensures IndexOf(s, c) == i
  {
    if i > 0 {
      assert s[..i][0] == s[0];
      assert s[1..][..i - 1] == s[..i][1..];
      IndexOfIs(s[1..], c, i - 1);
    }
  }

  lemma MantissaOfDigits(body: string)
    requires body != [] && AllDigits(body)
    ensures ParseMantissa(body) == Some(DecimalValue(body) as real)
  {
    assert body[..|body|] == body;
    IndexOfIs(body, '.', |body|);
  }

  /** A run of digits read by float() has the value int() gives it. */
  lemma DigitsAsDecimal(body: string)
    requires body != [] && AllDigits(body)
    ensures ParseDecimal(body) == Some(DecimalValue(body) as real)
  {
    assert body[..|body|] == body;
    IndexOfIs(body, 'e', |body|);
    IndexOfIs(body, 'E', |body|);
    MantissaOfDigits(body);
  }

  /** A word starting with a digit is none of float()'s special words. */
  lemma NotSpecialWord(body: string)
    requires body != [] && IsDigit(body[0])
    ensures Lower(body) != "inf" && Lower(body) != "infinity" && Lower(body) != "nan"
  {
    assert Lower(body)[0] == LowerChar(body[0]);
  }

  /** Whatever int() accepts, float() accepts too, with the same value. */
  lemma {:induction false} ParseIntThenFloat(text: string)
    requires ParseInt(text).Some?
    ensures ParseFloat(text) == Some(Finite(ParseInt(text).value as real))
  {
    LiteralIntThenFloat(Strip(text));
  }

  lemma {:induction false} LiteralIntThenFloat(t: string)
    requires IntLiteral(t).Some?
    ensures FloatLiteral(t) == Some(Finite(IntLiteral(t).value as real))
  {
    var body := if t != [] && (t[0] == '-' || t[0] == '+') then t[1..] else t;
    DigitsAsDecimal(body);
    NotSpecialWord(body);
  }
}
