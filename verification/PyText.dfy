/** The Python text operations the parsers rely on: strip, and int() on decimal text. */
module PyText {
  import opened Prelude

  /** The characters str.strip removes. */
  predicate IsSpace(c: char) {
    var n := c as int;
    || 9 <= n <= 13 || 28 <= n <= 32 || n == 0x85 || n == 0xA0 || n == 0x1680 || 0x2000 <= n <= 0x200A
    || n == 0x2028 || n == 0x2029 || n == 0x202F || n == 0x205F || n == 0x3000
  }

  function StripLeft(s: string): (r: string)
    ensures r != "" ==> !IsSpace(r[0])
  {
    if s != "" && IsSpace(s[0]) then StripLeft(s[1..]) else s
  }

  function StripRight(s: string): (r: string)
    ensures r <= s
    ensures r != "" ==> !IsSpace(r[|r| - 1])
  {
    if s != "" && IsSpace(s[|s| - 1]) then StripRight(s[..|s| - 1]) else s
  }

  function Strip(s: string): string {
    StripRight(StripLeft(s))
  }

  /** Text without space at either end. */
  ghost predicate Trimmed(s: string) {
    s != "" ==> !IsSpace(s[0]) && !IsSpace(s[|s| - 1])
  }

  lemma StripTrimmed(s: string)
    requires Trimmed(s)
    ensures Strip(s) == s
  {
  }

  ghost predicate AllSpace(s: string) {
    forall i | 0 <= i < |s| :: IsSpace(s[i])
  }

  lemma {:induction false} StripLeftParts(s: string) returns (before: string)
    ensures AllSpace(before) && s == before + StripLeft(s)
  {
    hide IsSpace;
    if s == "" || !IsSpace(s[0]) {
      before := "";
    } else {
      var rest := StripLeftParts(s[1..]);
      before := [s[0]] + rest;
      HeadTail(s);
      ConcatAssociative([s[0]], rest, StripLeft(s[1..]));
    }
  }

  lemma {:induction false} StripRightParts(s: string) returns (after: string)
    ensures AllSpace(after) && s == StripRight(s) + after
  {
    hide IsSpace;
    if s == "" || !IsSpace(s[|s| - 1]) {
      after := "";
    } else {
      var rest := StripRightParts(s[..|s| - 1]);
      after := rest + [s[|s| - 1]];
      assert s == s[..|s| - 1] + [s[|s| - 1]];
      ConcatAssociative(StripRight(s[..|s| - 1]), rest, [s[|s| - 1]]);
    }
  }

  /** Stripping takes away space at both ends, all of it, and nothing else. */
  lemma StripMeans(s: string) returns (before: string, after: string)
    ensures s == before + Strip(s) + after && AllSpace(before) && AllSpace(after) && Trimmed(Strip(s))
  {
    hide IsSpace, StripLeft, StripRight, AllSpace;
    before := StripLeftParts(s);
    after := StripRightParts(StripLeft(s));
    ConcatAssociative(before, Strip(s), after);
    if Strip(s) != "" {
      FirstOfPrefix(Strip(s), StripLeft(s));
    }
  }

  lemma FirstOfPrefix<T>(a: seq<T>, b: seq<T>)
    requires a <= b && a != []
    ensures b != [] && a[0] == b[0]
  {
  }

  predicate IsDigit(c: char) {
    '0' <= c <= '9'
  }

  function DigitValue(c: char): (d: int)
    requires IsDigit(c)
    ensures 0 <= d < 10
  {
    (c as int) - ('0' as int)
  }

  function DigitChar(d: nat): (c: char)
    requires d < 10
    ensures IsDigit(c) && DigitValue(c) == d
  {
    '0' + d as char
  }

  /** int() past the sign: digits, single underscores between digits allowed. */
  function ReadDigits(s: string, value: nat, afterDigit: bool): Option<nat>
    decreases |s|
  {
    if s == "" then (if afterDigit then Some(value) else None)
    else if IsDigit(s[0]) then ReadDigits(s[1..], 10 * value + DigitValue(s[0]), true)
    else if s[0] == '_' && afterDigit then ReadDigits(s[1..], value, false)
    else None
  }

  /** The characters int() skips around a number, fewer than str.strip does. */
  predicate IsAsciiSpace(c: char) {
    '\t' <= c <= '\r' || c == ' '
  }

  function StripAscii(s: string): string
    decreases |s|
  {
    if s != "" && IsAsciiSpace(s[0]) then StripAscii(s[1..])
    else if s != "" && IsAsciiSpace(s[|s| - 1]) then StripAscii(s[..|s| - 1])
    else s
  }

  /** Python's int() on ASCII text, None where it raises. */
  function ReadInt(text: string): Option<int> {
    var s := StripAscii(text);
    if s != "" && s[0] == '-' then
      match ReadDigits(s[1..], 0, false)
      case None => None
      case Some(n) => Some(-(n as int))
    else if s != "" && s[0] == '+' then ReadDigits(s[1..], 0, false)
    else ReadDigits(s, 0, false)
  }

  ghost predicate AllDigits(s: string) {
    forall i | 0 <= i < |s| :: IsDigit(s[i])
  }

  function ShowNat(n: nat): (s: string)
    ensures s != "" && AllDigits(s)
  {
    if n < 10 then [DigitChar(n)] else ShowNat(n / 10) + [DigitChar(n % 10)]
  }

  /** Python's str() on an int. */
  function ShowInt(n: int): (s: string)
    ensures s != "" && forall i | 0 <= i < |s| :: IsDigit(s[i]) || s[i] == '-'
  {
    if n < 0 then "-" + ShowNat(-n) else ShowNat(n)
  }

  // ---- what the digits mean ----

  ghost function Power(n: nat): nat {
    if n == 0 then 1 else 10 * Power(n - 1)
  }

  /** The number a string of digits stands for, each digit by its place. */
  ghost function Positional(s: string): int
    requires AllDigits(s)
  {
    if s == "" then 0
    else assert IsDigit(s[0]); ((s[0] as int) - ('0' as int)) * Power(|s| - 1) + Positional(s[1..])
  }

  /** Digits, single underscores between them; `afterDigit` says whether one came just before. */
  ghost predicate DigitGroups(s: string, afterDigit: bool) {
    && (if s == "" then afterDigit else IsDigit(s[|s| - 1]))
    && (s != "" ==> IsDigit(s[0]) || (s[0] == '_' && afterDigit))
    && forall i | 0 < i < |s| :: IsDigit(s[i]) || (s[i] == '_' && IsDigit(s[i - 1]))
  }

  /** The text without its underscores. */
  ghost function Digits(s: string): string {
    if s == "" then "" else (if s[0] == '_' then "" else [s[0]]) + Digits(s[1..])
  }

  lemma {:induction false} DigitsOnly(s: string, afterDigit: bool)
    requires DigitGroups(s, afterDigit)
    ensures AllDigits(Digits(s))
  {
    if s == "" {
    } else {
      DigitsOnly(s[1..], IsDigit(s[0]));
    }
  }

  lemma GroupsOfRest(s: string, afterDigit: bool)
    requires s != ""
    ensures DigitGroups(s, afterDigit) <==>
            (IsDigit(s[0]) || (s[0] == '_' && afterDigit)) && DigitGroups(s[1..], IsDigit(s[0]))
  {
    var rest := s[1..];
    assert rest != "" ==> rest[|rest| - 1] == s[|s| - 1] && rest[0] == s[1];
    if (IsDigit(s[0]) || (s[0] == '_' && afterDigit)) && DigitGroups(rest, IsDigit(s[0])) {
      forall i | 0 < i < |s|
        ensures IsDigit(s[i]) || (s[i] == '_' && IsDigit(s[i - 1]))
      {
        assert rest[i - 1] == s[i] && (i > 1 ==> rest[i - 2] == s[i - 1]);
      }
    }
    if DigitGroups(s, afterDigit) {
      forall i | 0 < i < |rest|
        ensures IsDigit(rest[i]) || (rest[i] == '_' && IsDigit(rest[i - 1]))
      {
        assert rest[i] == s[i + 1] && rest[i - 1] == s[i];
      }
    }
  }

  lemma Shifted(value: nat, digit: nat, power: nat, rest: int)
    ensures (10 * value + digit) * power + rest == value * (10 * power) + (digit * power + rest)
  {
  }

  /** Digits read after a number. */
  ghost function ValueOf(value: nat, digits: string): int
    requires AllDigits(digits)
  {
    value * Power(|digits|) + Positional(digits)
  }

  lemma ValueStep(value: nat, c: char, rest: string)
    requires IsDigit(c) && AllDigits(rest)
    ensures AllDigits([c] + rest) && ValueOf(10 * value + DigitValue(c), rest) == ValueOf(value, [c] + rest)
  {
    OneMoreDigit(c, rest);
    Shifted(value, DigitValue(c), Power(|rest|), Positional(rest));
  }

  /** Which texts int() reads past the sign, and as what. */
  lemma {:induction false} ReadDigitsMeans(s: string, value: nat, afterDigit: bool)
    ensures ReadDigits(s, value, afterDigit).Some? <==> DigitGroups(s, afterDigit)
    ensures DigitGroups(s, afterDigit) ==>
              && AllDigits(Digits(s))
              && ReadDigits(s, value, afterDigit).value == ValueOf(value, Digits(s))
    decreases |s|
  {
    if s == "" {
      assert value * 1 == value;
    } else {
      hide DigitGroups, ValueOf, AllDigits, Positional, Power, DigitValue, ReadDigits, Digits;
      GroupsOfRest(s, afterDigit);
      ReadStep(s, value, afterDigit);
      if IsDigit(s[0]) {
        ReadDigitsMeans(s[1..], 10 * value + DigitValue(s[0]), true);
        if DigitGroups(s, afterDigit) {
          ValueStep(value, s[0], Digits(s[1..]));
        }
      } else if s[0] == '_' && afterDigit {
        ReadDigitsMeans(s[1..], value, false);
      }
    }
  }

  lemma ReadStep(s: string, value: nat, afterDigit: bool)
    requires s != ""
    ensures ReadDigits(s, value, afterDigit) ==
            if IsDigit(s[0]) then ReadDigits(s[1..], 10 * value + DigitValue(s[0]), true)
            else if s[0] == '_' && afterDigit then ReadDigits(s[1..], value, false) else None
    ensures Digits(s) == if s[0] == '_' then Digits(s[1..]) else [s[0]] + Digits(s[1..])
  {
  }

  lemma OneMoreDigit(c: char, rest: string)
    requires IsDigit(c) && AllDigits(rest)
    ensures AllDigits([c] + rest) && Power(|[c] + rest|) == 10 * Power(|rest|)
    ensures Positional([c] + rest) == DigitValue(c) * Power(|rest|) + Positional(rest)
  {
    assert ([c] + rest)[1..] == rest;
  }

  /** The sign, and what follows it. */
  ghost predicate SignedDigits(s: string, negative: bool, digits: string) {
    DigitGroups(digits, false) && (if negative then s == "-" + digits else s == digits || s == "+" + digits)
  }

  /** int() reads exactly space, an optional sign, digit groups and space, as the number of the digits. */
  lemma ReadIntMeans(text: string, negative: bool, digits: string)
    ensures SignedDigits(StripAscii(text), negative, digits) ==>
              && AllDigits(Digits(digits))
              && ReadInt(text) == Some(if negative then -Positional(Digits(digits)) else Positional(Digits(digits)))
    ensures ReadInt(text).Some? ==> exists n: bool, d: string :: SignedDigits(StripAscii(text), n, d)
  {
    hide StripAscii, ReadDigits, Positional, Power, Digits, AllDigits;
    var s := StripAscii(text);
    ReadDigitsMeans(digits, 0, false);
    ReadDigitsMeans(s, 0, false);
    if SignedDigits(s, negative, digits) {
      assert IsDigit(digits[0]) && ValueOf(0, Digits(digits)) == Positional(Digits(digits));
      assert s != digits ==> s[1..] == digits;
    }
    if ReadInt(text).Some? {
      if s != "" && s[0] == '-' {
        ReadDigitsMeans(s[1..], 0, false);
        assert s == "-" + s[1..] && SignedDigits(s, true, s[1..]);
      } else if s != "" && s[0] == '+' {
        ReadDigitsMeans(s[1..], 0, false);
        assert s == "+" + s[1..] && SignedDigits(s, false, s[1..]);
      } else {
        assert SignedDigits(s, false, s);
      }
    }
  }

  /** The characters meant, by their code points. */
  lemma SpacesAndBreaks(c: char)
    ensures IsAsciiSpace(c) <==> c as int in {0x09, 0x0A, 0x0B, 0x0C, 0x0D, 0x20}
    ensures IsBreak(c) <==> c as int in {0x0A, 0x0B, 0x0C, 0x0D, 0x1C, 0x1D, 0x1E, 0x85, 0x2028, 0x2029}
    ensures IsSpace(c) <==>
            IsAsciiSpace(c) || IsBreak(c) || c as int in {0x1F, 0xA0, 0x1680, 0x202F, 0x205F, 0x3000} ||
            c as int in {0x2000, 0x2001, 0x2002, 0x2003, 0x2004, 0x2005, 0x2006, 0x2007, 0x2008, 0x2009, 0x200A}
  {
  }

  ghost predicate AllAsciiSpace(s: string) {
    forall i | 0 <= i < |s| :: IsAsciiSpace(s[i])
  }

  ghost predicate AsciiTrimmed(s: string) {
    s != "" ==> !IsAsciiSpace(s[0]) && !IsAsciiSpace(s[|s| - 1])
  }

  /** What int() skips around a number: ASCII space at both ends, all of it. */
  lemma {:induction false} StripAsciiParts(s: string) returns (before: string, after: string)
    ensures s == before + StripAscii(s) + after
    ensures AllAsciiSpace(before) && AllAsciiSpace(after) && AsciiTrimmed(StripAscii(s))
    decreases |s|
  {
    hide IsAsciiSpace, AllAsciiSpace;
    if s != "" && IsAsciiSpace(s[0]) {
      var b, a := StripAsciiParts(s[1..]);
      before, after := [s[0]] + b, a;
      SpaceOutside(s[0], b, a);
      PutBefore(s, b, StripAscii(s), a);
    } else if s != "" && IsAsciiSpace(s[|s| - 1]) {
      var b, a := StripAsciiParts(s[..|s| - 1]);
      before, after := b, a + [s[|s| - 1]];
      SpaceOutside(s[|s| - 1], b, a);
      PutAfter(s, b, StripAscii(s), a);
    } else {
      before, after := "", "";
      assert s == "" + s + "";
      NoSpace();
    }
  }

  lemma NoSpace()
    ensures AllAsciiSpace("")
  {
  }

  lemma SpaceOutside(c: char, b: string, a: string)
    requires IsAsciiSpace(c) && AllAsciiSpace(b) && AllAsciiSpace(a)
    ensures AllAsciiSpace([c] + b) && AllAsciiSpace(a + [c])
  {
    hide IsAsciiSpace;
  }

  lemma PutBefore<T>(s: seq<T>, b: seq<T>, t: seq<T>, a: seq<T>)
    requires s != [] && s[1..] == b + t + a
    ensures s == ([s[0]] + b) + t + a
  {
    assert s == [s[0]] + s[1..];
  }

  lemma PutAfter<T>(s: seq<T>, b: seq<T>, t: seq<T>, a: seq<T>)
    requires s != [] && s[..|s| - 1] == b + t + a
    ensures s == b + t + (a + [s[|s| - 1]])
  {
    assert s == s[..|s| - 1] + [s[|s| - 1]];
  }

  lemma {:induction false} PositionalAppend(s: string, c: char)
    requires AllDigits(s) && IsDigit(c)
    ensures AllDigits(s + [c]) && Positional(s + [c]) == 10 * Positional(s) + DigitValue(c)
  {
    if s == "" {
      assert s + [c] == [c] && [c][1..] == "";
    } else {
      PositionalAppend(s[1..], c);
      assert (s + [c])[1..] == s[1..] + [c];
      Shifted(0, DigitValue(s[0]), Power(|s| - 1), 0);
      TenTimes(DigitValue(s[0]), Power(|s| - 1));
    }
  }

  lemma TenTimes(d: nat, power: nat)
    ensures d * (10 * power) == 10 * (d * power)
  {
  }

  /** str() writes the number's digits, most significant first, without leading zeros. */
  lemma {:induction false} ShowNatMeans(n: nat)
    ensures Positional(ShowNat(n)) == n && (|ShowNat(n)| > 1 ==> ShowNat(n)[0] != '0')
  {
    var last := DigitChar(n % 10);
    if n < 10 {
      PositionalAppend("", last);
      assert "" + [last] == [last];
    } else {
      ShowNatMeans(n / 10);
      PositionalAppend(ShowNat(n / 10), last);
      assert |ShowNat(n / 10)| == 1 ==> Positional(ShowNat(n / 10)) == DigitValue(ShowNat(n / 10)[0]) by {
        if |ShowNat(n / 10)| == 1 {
          PositionalAppend("", ShowNat(n / 10)[0]);
          assert "" + [ShowNat(n / 10)[0]] == ShowNat(n / 10);
        }
      }
    }
  }

  lemma ShowIntMeans(n: int) returns (digits: string)
    ensures AllDigits(digits) && Positional(digits) == (if n < 0 then -n else n)
    ensures |digits| > 1 ==> digits[0] != '0'
    ensures digits != "" && ShowInt(n) == if n < 0 then "-" + digits else digits
  {
    digits := ShowNat(if n < 0 then -n else n);
    ShowNatMeans(if n < 0 then -n else n);
  }

  lemma {:induction false} ReadShownDigits(n: nat, rest: string, afterDigit: bool)
    ensures ReadDigits(ShowNat(n) + rest, 0, afterDigit) == ReadDigits(rest, n, true)
  {
    var last := [DigitChar(n % 10)];
    if n < 10 {
      assert (last + rest)[1..] == rest;
    } else {
      ReadShownDigits(n / 10, last + rest, afterDigit);
      ConcatAssociative(ShowNat(n / 10), last, rest);
      assert (last + rest)[1..] == rest;
      assert 10 * (n / 10) + n % 10 == n;
    }
  }

  lemma ReadShownInt(n: int)
    ensures ReadInt(ShowInt(n)) == Some(n)
  {
    var s := ShowInt(n);
    assert StripAscii(s) == s;
    var digits := ShowNat(if n < 0 then -n else n);
    ReadShownDigits(if n < 0 then -n else n, "", false);
    assert digits + "" == digits;
    if n < 0 {
      assert s[1..] == digits;
    }
  }

  /** The index of the first `c` in `s`, or the length. */
  function Find(s: string, c: char): (i: nat)
    ensures i <= |s|
    ensures c !in s[..i]
    ensures i < |s| ==> s[i] == c
  {
    if s == "" || s[0] == c then 0
    else
      var rest := Find(s[1..], c);
      assert s[..1 + rest] == [s[0]] + s[1..][..rest];
      1 + rest
  }

  lemma {:induction false} FindAfter(before: string, c: char, after: string)
    requires c !in before
    ensures Find(before + [c] + after, c) == |before|
  {
    if before == "" {
    } else {
      FindAfter(before[1..], c, after);
      assert (before + [c] + after)[1..] == before[1..] + [c] + after;
    }
  }

  // ---- lines ----

  /** The characters str.splitlines breaks at. */
  predicate IsBreak(c: char) {
    var n := c as int;
    10 <= n <= 13 || 28 <= n <= 30 || n == 0x85 || n == 0x2028 || n == 0x2029
  }

  ghost predicate NoBreak(s: string) {
    forall i | 0 <= i < |s| :: !IsBreak(s[i])
  }

  /** Where the first line of a text ends. */
  function LineEnd(s: string): (i: nat)
    ensures i <= |s| && NoBreak(s[..i])
    ensures i < |s| ==> IsBreak(s[i])
  {
    if s == "" || IsBreak(s[0]) then 0
    else
      var rest := LineEnd(s[1..]);
      assert s[..1 + rest] == [s[0]] + s[1..][..rest];
      1 + rest
  }

  /** Python's str.splitlines(): a carriage return and the line feed behind it are one break, and a break at
      the end of the text starts no further line. */
  function SplitLines(s: string): (rows: seq<string>)
    ensures forall r | r in rows :: NoBreak(r)
    decreases |s|
  {
    if s == "" then []
    else
      var i := LineEnd(s);
      if i == |s| then assert s[..i] == s; [s]
      else [s[..i]] + SplitLines(s[i + (if s[i] == '\r' && i + 1 < |s| && s[i + 1] == '\n' then 2 else 1)..])
  }

  /** A way to end a line: "\n", "\r\n", or any other single break. */
  ghost predicate LineBreak(eol: string) {
    eol == "\r\n" || (|eol| == 1 && IsBreak(eol[0]))
  }

  /** The rows as a text, each ended by `eol`. */
  function JoinLines(rows: seq<string>, eol: string): string {
    if rows == [] then "" else rows[0] + eol + JoinLines(rows[1..], eol)
  }

  /** Splitting joined rows gives the rows back. */
  lemma {:induction false} SplitJoined(rows: seq<string>, eol: string)
    requires LineBreak(eol) && forall r | r in rows :: NoBreak(r)
    ensures SplitLines(JoinLines(rows, eol)) == rows
  {
    if rows == [] {
    } else {
      var rest := JoinLines(rows[1..], eol);
      SplitJoined(rows[1..], eol);
      SplitFirst(rows[0], eol, rest) by {
        assert rows[1..] != [] ==> rows[1] == rows[1..][0];
      }
      assert rows == [rows[0]] + rows[1..];
    }
  }

  /** Text without a break is one row, and no text is none; with `SplitFirst` this decides every text. */
  lemma SplitLast(row: string)
    requires NoBreak(row)
    ensures SplitLines(row) == if row == "" then [] else [row]
  {
  }

  lemma {:induction false} EndOfFirst(row: string, after: string)
    requires NoBreak(row) && (after != "" ==> IsBreak(after[0]))
    ensures LineEnd(row + after) == |row|
  {
    if row == "" {
      assert row + after == after;
    } else {
      EndOfFirst(row[1..], after);
      assert (row + after)[1..] == row[1..] + after;
    }
  }

  lemma SplitFirst(row: string, eol: string, rest: string)
    requires NoBreak(row) && LineBreak(eol) && (eol == "\r" ==> !("\n" <= rest))
    ensures SplitLines(row + eol + rest) == [row] + SplitLines(rest)
  {
    hide NoBreak, LineEnd;
    var s := row + (eol + rest);
    assert row + eol + rest == s;
    EndOfFirst(row, eol + rest);
    assert s[..|row|] == row && s[|row| + |eol|..] == rest;
    assert s[|row|] == eol[0];
  }
}
