/** Timestamps as text: the one shape that is printed, and the wider set that is read, after section 5.6 of RFC 3339. */
module Rfc3339 {
  import opened Calendar
  import opened Numerals
  import opened Options

  // ------------------------------------------------------------- printing

  /** A date and a time of day, as read: not every value is a real one. */
  datatype Fields = Fields(date: Date, h: int, mi: int, s: int)

  predicate Printable(f: Fields) {
    && 0 <= f.date.y && 0 <= f.date.m < 100 && 0 <= f.date.d < 100
    && 0 <= f.h < 100 && 0 <= f.mi < 100 && 0 <= f.s < 100
  }

  function DateText(c: Date): string
    requires 0 <= c.y && 0 <= c.m && 0 <= c.d
  {
    Pad(c.y, 4) + "-" + Pad(c.m, 2) + "-" + Pad(c.d, 2)
  }

  function TimeText(f: Fields): string
    requires Printable(f)
  {
    Pad(f.h, 2) + ":" + Pad(f.mi, 2) + ":" + Pad(f.s, 2)
  }

  function Split(secs: int): Fields {
    var rem := secs % 86_400;
    Fields(CivilFromDays(secs / 86_400), rem / 3600, rem % 3600 / 60, rem % 60)
  }

  function Print(secs: nat): string {
    PrintableSplit(secs);
    var f := Split(secs);
    DateText(f.date) + "T" + TimeText(f) + "Z"
  }

  lemma PrintableSplit(secs: int)
    requires secs >= 0
    ensures Printable(Split(secs))
  {
    hide CivilFromDays, YearStart, MonthStart;
    var days := secs / 86_400;
    var era, yoe, mp, d := CivilParts(days);
    NotBeforeEpoch(days, era, yoe, mp, d);
  }

  // ------------------------------------------------------------- reading

  predicate White(c: char) {
    c in " \t\n\r" || c as int == 0x0B || c as int == 0x0C
  }

  function TrimStart(s: string): string {
    if s != [] && White(s[0]) then TrimStart(s[1..]) else s
  }

  function TrimEnd(s: string): string {
    if s != [] && White(s[|s| - 1]) then TrimEnd(s[..|s| - 1]) else s
  }

  /** An optional sign, minus only for a signed type, and at least one digit. */
  function ReadInt(s: string, signed: bool): Option<int> {
    var minus := signed && s != [] && s[0] == '-';
    var digits := if s != [] && (s[0] == '+' || minus) then s[1..] else s;
    if digits == [] || !AllDigits(digits, 10) then None
    else
      var magnitude: int := Value(digits, 10);
      Some(if minus then -magnitude else magnitude)
  }

  function CountDigits(s: string): (n: nat)
    ensures n <= |s|
  {
    if s != [] && '0' <= s[0] <= '9' then 1 + CountDigits(s[1..]) else 0
  }

  /** What follows the fraction, which may be absent but not empty. */
  function DropFraction(s: string): Option<string> {
    if s == [] || s[0] != '.' then Some(s)
    else
      var n := CountDigits(s[1..]);
      if n == 0 then None else Some(s[1..][n..])
  }

  /** The offset from UTC in seconds; a text without a zone is refused. */
  function ReadZone(s: string): Option<int> {
    if s == "Z" || s == "z" then Some(0)
    else if |s| == 6 && s[0] in "+-" && s[3] == ':' then
      var h :- ReadInt(s[1..3], true);
      var m :- ReadInt(s[4..6], true);
      var magnitude := h * 3600 + m * 60;
      Some(if s[0] == '+' then magnitude else -magnitude)
    else None
  }

  function ReadFields(s: string): Option<Fields>
    requires |s| >= 19
  {
    if s[4] != '-' || s[7] != '-' then None
    else if s[10] !in "Tt " || s[13] != ':' || s[16] != ':' then None
    else
      var year :- ReadInt(s[0..4], true);
      var month :- ReadInt(s[5..7], false);
      var day :- ReadInt(s[8..10], false);
      var hour :- ReadInt(s[11..13], false);
      var minute :- ReadInt(s[14..16], false);
      var second :- ReadInt(s[17..19], false);
      if !(1 <= month <= 12) || !(1 <= day <= 31) then None
      else if hour > 23 || minute > 59 || second > 60 then None
      else Some(Fields(Date(year, month, day), hour, minute, second))
  }

  function Instant(f: Fields): int {
    DaysFromCivil(f.date.y, f.date.m, f.date.d) * 86_400 + f.h * 3600 + f.mi * 60 + f.s
  }

  function Parse(text: string): Option<nat> {
    var s := TrimEnd(TrimStart(text));
    if |s| < 19 then None
    else
      var f :- ReadFields(s);
      var rest :- DropFraction(s[19..]);
      var offset :- ReadZone(rest);
      var utc := Instant(f) - offset;
      if utc < 0 then None else Some(utc)
  }

  // ------------------------------------------------------------- pieces of a text and what they read as

  datatype Zone = Utc(z: char) | Offset(east: bool, h: nat, m: nat)
  {
    predicate Valid() {
      match this
      case Utc(z) => z in "Zz"
      case Offset(_, h, m) => h < 100 && m < 100
    }

    function Text(): string {
      match this
      case Utc(z) => [z]
      case Offset(east, h, m) => (if east then "+" else "-") + Pad(h, 2) + ":" + Pad(m, 2)
    }

    function Seconds(): int {
      match this
      case Utc(_) => 0
      case Offset(east, h, m) => if east then h * 3600 + m * 60 else -(h * 3600 + m * 60)
    }
  }

  /** Absent, or a point and at least one digit. */
  predicate IsFraction(s: string) {
    s == [] || (|s| >= 2 && s[0] == '.' && AllDigits(s[1..], 10))
  }

  predicate InRange(f: Fields) {
    && 1 <= f.date.m <= 12 && 1 <= f.date.d <= 31
    && 0 <= f.h <= 23 && 0 <= f.mi <= 59 && 0 <= f.s <= 60
  }

  function Written(f: Fields, sep: char, fraction: string, zone: Zone): string
    requires Printable(f)
  {
    DateText(f.date) + [sep] + TimeText(f) + fraction + zone.Text()
  }

  /** Tabs, feeds, returns and blanks. */
  ghost predicate AllWhite(s: string) {
    forall i :: 0 <= i < |s| ==> 9 <= s[i] as int <= 13 || s[i] == ' '
  }

  lemma Digit(s: string, i: nat)
    requires AllDigits(s, 10) && i < |s|
    ensures '0' <= s[i] <= '9' && !White(s[i])
  {
  }

  lemma PadIsRead(n: nat, width: nat, signed: bool)
    requires width >= 1 && n < Power(10, width)
    ensures |Pad(n, width)| == width && AllDigits(Pad(n, width), 10) && ReadInt(Pad(n, width), signed) == Some(n)
  {
    PadReads(n, width);
    Digit(Pad(n, width), 0);
  }

  lemma Powers()
    ensures Power(10, 2) == 100 && Power(10, 4) == 10_000
  {
  }

  // ------------------------------------------------------------- the texts that are read

  ghost predicate IsSigned(s: string, sign: string, digits: string, signed: bool, n: int) {
    && s == sign + digits && digits != [] && AllDigits(digits, 10)
    && if sign == "-" then signed && n == 0 - Value(digits, 10) else sign in {"", "+"} && n == Value(digits, 10)
  }

  /** `s` is a number in decimal, with a sign of its own if it likes; a minus only where the type has one. */
  ghost predicate IsInt(s: string, signed: bool, n: int) {
    exists sign: string, digits: string :: IsSigned(s, sign, digits, signed, n)
  }

  lemma ReadIntExactly(s: string, signed: bool, n: int)
    ensures IsInt(s, signed, n) <==> ReadInt(s, signed) == Some(n)
  {
    hide Value, AllDigits;
    if IsInt(s, signed, n) {
      var sign: string, digits: string :| IsSigned(s, sign, digits, signed, n);
      Digit(digits, 0);
      if sign == "" { assert s == digits; } else { assert s[1..] == digits; }
    }
    if ReadInt(s, signed) == Some(n) {
      if s[0] == '+' || (signed && s[0] == '-') {
        assert s == [s[0]] + s[1..] && ([s[0]] == "-" || [s[0]] == "+");
        assert IsSigned(s, [s[0]], s[1..], signed, n);
      } else {
        assert s == "" + s;
        assert IsSigned(s, "", s, signed, n);
      }
    }
  }

  /** A text in pieces. */
  datatype Pieces = Pieces(
    y: string, mo: string, d: string, sep: char, h: string, mi: string, s: string, fraction: string, zone: string)
  {
    function Date(): string { y + "-" + mo + "-" + d }

    function Time(): string { h + ":" + mi + ":" + s }

    function Text(): string { Date() + [sep] + Time() + fraction + zone }

    predicate Shaped() {
      && |y| == 4 && |mo| == |d| == |h| == |mi| == |s| == 2
      && sep in "Tt " && IsFraction(fraction)
    }

    /** Each number reads as that of `f`. */
    ghost predicate Denotes(f: Fields) {
      && IsInt(y, true, f.date.y) && IsInt(mo, false, f.date.m) && IsInt(d, false, f.date.d)
      && IsInt(h, false, f.h) && IsInt(mi, false, f.mi) && IsInt(s, false, f.s)
    }
  }

  ghost predicate IsOffset(s: string, hs: string, ms: string, offset: int) {
    && |hs| == 2 && |ms| == 2 && s in {"+" + hs + ":" + ms, "-" + hs + ":" + ms}
    && exists h, m :: IsInt(hs, true, h) && IsInt(ms, true, m)
                      && offset == if s[0] == '+' then h * 3600 + m * 60 else -(h * 3600 + m * 60)
  }

  /** `Z`, or a sign and two numbers, which may have signs of their own. */
  ghost predicate IsZone(s: string, offset: int) {
    || (s in {"Z", "z"} && offset == 0)
    || exists hs: string, ms: string :: IsOffset(s, hs, ms, offset)
  }

  lemma ReadZoneExactly(s: string, offset: int)
    ensures IsZone(s, offset) <==> ReadZone(s) == Some(offset)
  {
    hide IsInt, ReadInt;
    if IsZone(s, offset) && s !in {"Z", "z"} {
      var hs: string, ms: string :| IsOffset(s, hs, ms, offset);
      var h, m :| IsInt(hs, true, h) && IsInt(ms, true, m)
                  && offset == if s[0] == '+' then h * 3600 + m * 60 else -(h * 3600 + m * 60);
      assert s[1..3] == hs && s[4..6] == ms && s[3] == ':';
      ReadIntExactly(hs, true, h);
      ReadIntExactly(ms, true, m);
    }
    if ReadZone(s) == Some(offset) && s !in {"Z", "z"} {
      var hs, ms := s[1..3], s[4..6];
      var h, m := ReadInt(hs, true).value, ReadInt(ms, true).value;
      assert s == [s[0]] + hs + ":" + ms;
      assert [s[0]] == "+" || [s[0]] == "-";
      ReadIntExactly(hs, true, h);
      ReadIntExactly(ms, true, m);
      assert IsOffset(s, hs, ms, offset);
    }
  }

  /** A number starts and ends with something to see. */
  lemma IntSeen(s: string, signed: bool, n: int)
    requires IsInt(s, signed, n)
    ensures s != [] && !White(s[0]) && !White(s[|s| - 1])
  {
    hide Value, AllDigits;
    var sign: string, digits: string :| IsSigned(s, sign, digits, signed, n);
    Digit(digits, 0);
    Digit(digits, |digits| - 1);
  }

  lemma ZoneSeen(s: string, offset: int)
    requires IsZone(s, offset)
    ensures s != [] && s[0] in "Zz+-" && !White(s[|s| - 1])
  {
    hide IsInt;
    if s !in {"Z", "z"} {
      var hs: string, ms: string :| IsOffset(s, hs, ms, offset);
      var h, m :| IsInt(hs, true, h) && IsInt(ms, true, m)
                  && offset == if s[0] == '+' then h * 3600 + m * 60 else -(h * 3600 + m * 60);
      IntSeen(ms, true, m);
    }
  }

  lemma PiecesRead(p: Pieces, f: Fields)
    requires p.Shaped() && p.Denotes(f)
    ensures var s := p.Text();
            && |s| >= 19 && s[19..] == p.fraction + p.zone
            && ReadFields(s) == (if InRange(f) then Some(f) else None)
            && !White(s[0]) && !White(s[18])
  {
    hide IsInt, ReadInt, White, IsFraction;
    var s := p.Text();
    PiecesAt(p);
    ReadIntExactly(p.y, true, f.date.y);
    ReadIntExactly(p.mo, false, f.date.m);
    ReadIntExactly(p.d, false, f.date.d);
    ReadIntExactly(p.h, false, f.h);
    ReadIntExactly(p.mi, false, f.mi);
    ReadIntExactly(p.s, false, f.s);
    NotNegative(p, f);
    IntSeen(p.y, true, f.date.y);
    IntSeen(p.s, false, f.s);
    assert s[0] == s[0..4][0] && s[18] == s[17..19][1];
  }

  lemma NotNegative(p: Pieces, f: Fields)
    requires IsInt(p.h, false, f.h) && IsInt(p.mi, false, f.mi) && IsInt(p.s, false, f.s)
    ensures 0 <= f.h && 0 <= f.mi && 0 <= f.s
  {
  }

  /** Where the pieces of a text are. */
  lemma PiecesAt(p: Pieces)
    requires p.Shaped()
    ensures var s := p.Text();
            && |s| >= 19 && s[19..] == p.fraction + p.zone
            && s[0..4] == p.y && s[4] == '-' && s[5..7] == p.mo && s[7] == '-' && s[8..10] == p.d && s[10] == p.sep
            && s[11..13] == p.h && s[13] == ':' && s[14..16] == p.mi && s[16] == ':' && s[17..19] == p.s
  {
    var d, t, s := p.Date(), p.Time(), p.Text();
    assert |d| == 10 && d[0..4] == p.y && d[4] == '-' && d[5..7] == p.mo && d[7] == '-' && d[8..10] == p.d;
    assert |t| == 8 && t[0..2] == p.h && t[2] == ':' && t[3..5] == p.mi && t[5] == ':' && t[6..8] == p.s;
    assert s == d + [p.sep] + t + (p.fraction + p.zone);
    assert s[0..4] == d[0..4] && s[5..7] == d[5..7] && s[8..10] == d[8..10];
    assert s[11..13] == t[0..2] && s[14..16] == t[3..5] && s[17..19] == t[6..8];
    assert s[4] == d[4] && s[7] == d[7] && s[10] == p.sep && s[13] == t[2] && s[16] == t[5];
  }

  lemma {:induction false} DigitsCounted(s: string, rest: string)
    requires AllDigits(s, 10) && (rest == [] || !('0' <= rest[0] <= '9'))
    ensures CountDigits(s + rest) == |s|
  {
    if s == [] {
      assert s + rest == rest;
    } else {
      Digit(s, 0);
      DigitsCounted(s[1..], rest);
      assert (s + rest)[1..] == s[1..] + rest;
    }
  }

  lemma FractionIsDropped(fraction: string, rest: string)
    requires IsFraction(fraction) && rest != [] && rest[0] in "Zz+-"
    ensures DropFraction(fraction + rest) == Some(rest)
  {
    if fraction == [] {
      assert fraction + rest == rest;
    } else {
      DigitsCounted(fraction[1..], rest);
      assert (fraction + rest)[1..] == fraction[1..] + rest;
    }
  }

  lemma {:induction false} TrimmedStart(white: string, s: string)
    requires AllWhite(white) && s != [] && !White(s[0])
    ensures TrimStart(white + s) == s
  {
    if white == [] {
      assert white + s == s;
    } else {
      assert white[0] in white;
      TrimmedStart(white[1..], s);
      assert (white + s)[1..] == white[1..] + s;
    }
  }

  lemma {:induction false} TrimmedEnd(s: string, white: string)
    requires AllWhite(white) && s != [] && !White(s[|s| - 1])
    ensures TrimEnd(s + white) == s
  {
    if white == [] {
      assert s + white == s;
    } else {
      var n := |white| - 1;
      assert white[n] in white;
      TrimmedEnd(s, white[..n]);
      assert (s + white)[..|s + white| - 1] == s + white[..n];
    }
  }

  // ------------------------------------------------------------- what is read

  /** With any white space around, a text of the right shape is read as the instant it denotes, exactly if its fields
      are in range and that instant is not before the epoch. */
  lemma ParseOfPieces(p: Pieces, f: Fields, offset: int, before: string, after: string)
    requires p.Shaped() && p.Denotes(f) && IsZone(p.zone, offset) && AllWhite(before) && AllWhite(after)
    ensures var utc := Instant(f) - offset;
            Parse(before + p.Text() + after) == if InRange(f) && utc >= 0 then Some(utc) else None
  {
    hide ReadFields, ReadZone, IsFraction, TrimStart, TrimEnd, InRange, White, IsInt, IsZone, Pieces.Text, Instant;
    PiecesRead(p, f);
    ZoneSeen(p.zone, offset);
    assert p.Text()[|p.Text()| - 1] == p.zone[|p.zone| - 1] by { EndsWithZone(p); }
    FractionIsDropped(p.fraction, p.zone);
    ReadZoneExactly(p.zone, offset);
    var s := p.Text();
    TrimmedStart(before, s + after);
    assert before + s + after == before + (s + after);
    TrimmedEnd(s, after);
  }

  lemma EndsWithZone(p: Pieces)
    requires p.zone != []
    ensures p.Text() != [] && p.Text()[|p.Text()| - 1] == p.zone[|p.zone| - 1]
  {
  }

  /** The text has the shape of a timestamp, white space around it, that denotes `utc`. */
  ghost predicate Stands(text: string, utc: nat) {
    exists p: Pieces, f: Fields, offset: int, before: string, after: string ::
      StandsAs(text, utc, p, f, offset, before, after)
  }

  ghost predicate StandsAs(text: string, utc: nat, p: Pieces, f: Fields, offset: int, before: string, after: string) {
    && text == before + p.Text() + after && AllWhite(before) && AllWhite(after)
    && p.Shaped() && p.Denotes(f) && IsZone(p.zone, offset) && InRange(f) && utc == Instant(f) - offset
  }

  /** What is accepted, and as what: the texts of that shape and no other. */
  lemma ParseExactly(text: string, utc: nat)
    ensures Parse(text) == Some(utc) <==> Stands(text, utc)
  {
    hide Parse, StandsAs, IsInt, IsZone, AllWhite;
    if Stands(text, utc) {
      var p, f, offset, before, after :| StandsAs(text, utc, p, f, offset, before, after);
      StandsParses(text, utc, p, f, offset, before, after);
    }
    if Parse(text) == Some(utc) { ParsedStands(text, utc); }
  }

  lemma StandsParses(text: string, utc: nat, p: Pieces, f: Fields, offset: int, before: string, after: string)
    requires StandsAs(text, utc, p, f, offset, before, after)
    ensures Parse(text) == Some(utc)
  {
    hide Parse, IsInt, IsZone, AllWhite, InRange, Instant, Pieces.Text;
    ParseOfPieces(p, f, offset, before, after);
  }

  lemma ParsedStands(text: string, utc: nat)
    requires Parse(text) == Some(utc)
    ensures Stands(text, utc)
  {
    hide TrimStart, TrimEnd, ReadFields, DropFraction, ReadZone, IsInt, IsZone, Instant, InRange, AllWhite,
      IsFraction, Pieces.Text;
    var s := TrimEnd(TrimStart(text));
    var before := TrimSplitsStart(text);
    var after := TrimSplitsEnd(TrimStart(text));
    var f := ReadFields(s).value;
    var zone := DropFraction(s[19..]).value;
    var fraction := FractionSplits(s[19..], zone);
    var p := Pieces(s[0..4], s[5..7], s[8..10], s[10], s[11..13], s[14..16], s[17..19], fraction, zone);
    FieldsSplit(s, p, f);
    ReadZoneExactly(zone, ReadZone(zone).value);
    assert text == before + p.Text() + after;
    assert StandsAs(text, utc, p, f, ReadZone(zone).value, before, after);
  }

  lemma FieldsSplit(s: string, p: Pieces, f: Fields)
    requires |s| >= 19 && ReadFields(s) == Some(f) && s[19..] == p.fraction + p.zone && IsFraction(p.fraction)
    requires p.y == s[0..4] && p.mo == s[5..7] && p.d == s[8..10] && p.sep == s[10]
    requires p.h == s[11..13] && p.mi == s[14..16] && p.s == s[17..19]
    ensures p.Shaped() && p.Text() == s && InRange(f)
    ensures IsInt(p.y, true, f.date.y) && IsInt(p.mo, false, f.date.m) && IsInt(p.d, false, f.date.d)
    ensures IsInt(p.h, false, f.h) && IsInt(p.mi, false, f.mi) && IsInt(p.s, false, f.s)
  {
    hide IsInt, ReadInt, IsFraction;
    ReadIntExactly(p.y, true, f.date.y);
    ReadIntExactly(p.mo, false, f.date.m);
    ReadIntExactly(p.d, false, f.date.d);
    ReadIntExactly(p.h, false, f.h);
    ReadIntExactly(p.mi, false, f.mi);
    ReadIntExactly(p.s, false, f.s);
    NotNegative(p, f);
    assert p.Date() == s[..10] && p.Time() == s[11..19];
    assert s == s[..10] + [s[10]] + s[11..19] + s[19..];
    assert p.Text() == p.Date() + [p.sep] + p.Time() + (p.fraction + p.zone);
  }

  lemma {:induction false} TrimSplitsStart(s: string) returns (before: string)
    ensures s == before + TrimStart(s) && AllWhite(before)
  {
    if s != [] && White(s[0]) {
      before := TrimSplitsStart(s[1..]);
      before := [s[0]] + before;
      assert s == [s[0]] + s[1..];
    } else {
      before := "";
    }
  }

  lemma {:induction false} TrimSplitsEnd(s: string) returns (after: string)
    ensures s == TrimEnd(s) + after && AllWhite(after)
  {
    if s != [] && White(s[|s| - 1]) {
      after := TrimSplitsEnd(s[..|s| - 1]);
      after := after + [s[|s| - 1]];
      assert s == s[..|s| - 1] + [s[|s| - 1]];
    } else {
      after := "";
    }
  }

  lemma FractionSplits(s: string, rest: string) returns (fraction: string)
    requires DropFraction(s) == Some(rest)
    ensures s == fraction + rest && IsFraction(fraction)
  {
    if s == [] || s[0] != '.' {
      fraction := "";
    } else {
      var n := CountDigits(s[1..]);
      fraction := s[..n + 1];
      DigitsAreCounted(s[1..]);
      assert s[1..][..n] == fraction[1..];
    }
  }

  lemma {:induction false} DigitsAreCounted(s: string)
    ensures AllDigits(s[..CountDigits(s)], 10)
  {
    if s != [] && '0' <= s[0] <= '9' {
      DigitsAreCounted(s[1..]);
      assert s[..CountDigits(s)] == [s[0]] + s[1..][..CountDigits(s[1..])];
    }
  }

  // ------------------------------------------------------------- texts written with padded numbers

  function PiecesOf(f: Fields, sep: char, fraction: string, zone: Zone): Pieces
    requires Printable(f)
  {
    Pieces(Pad(f.date.y, 4), Pad(f.date.m, 2), Pad(f.date.d, 2), sep, Pad(f.h, 2), Pad(f.mi, 2), Pad(f.s, 2), fraction,
          zone.Text())
  }

  lemma PadDenotes(n: nat, width: nat, signed: bool)
    requires width >= 1 && n < Power(10, width)
    ensures |Pad(n, width)| == width && IsInt(Pad(n, width), signed, n)
  {
    PadIsRead(n, width, signed);
    ReadIntExactly(Pad(n, width), signed, n);
  }

  lemma WrittenDenotes(f: Fields, sep: char, fraction: string, zone: Zone)
    requires Printable(f) && f.date.y <= 9999 && sep in "Tt " && IsFraction(fraction) && zone.Valid()
    ensures var p := PiecesOf(f, sep, fraction, zone);
            p.Shaped() && p.Denotes(f) && IsZone(p.zone, zone.Seconds()) && p.Text() == Written(f, sep, fraction, zone)
  {
    hide Pad, Power, IsInt, IsZone, IsFraction, Zone.Text, Zone.Seconds;
    Powers();
    PadDenotes(f.date.y, 4, true);
    PadDenotes(f.date.m, 2, false);
    PadDenotes(f.date.d, 2, false);
    PadDenotes(f.h, 2, false);
    PadDenotes(f.mi, 2, false);
    PadDenotes(f.s, 2, false);
    ZoneDenotes(zone);
  }

  lemma ZoneDenotes(z: Zone)
    requires z.Valid()
    ensures IsZone(z.Text(), z.Seconds())
  {
    hide Pad, Power, IsInt;
    if z.Offset? {
      Powers();
      PadDenotes(z.h, 2, true);
      PadDenotes(z.m, 2, true);
      assert IsOffset(z.Text(), Pad(z.h, 2), Pad(z.m, 2), z.Seconds());
    }
  }

  /** With any separator, fraction, zone and surrounding white space, a date and time written with padded numbers is
      read as the instant it denotes, exactly if it is in range and that instant is not before the epoch. */
  lemma ParseOfWritten(f: Fields, sep: char, fraction: string, zone: Zone, before: string, after: string)
    requires Printable(f) && f.date.y <= 9999 && sep in "Tt " && IsFraction(fraction) && zone.Valid()
    requires AllWhite(before) && AllWhite(after)
    ensures var utc := Instant(f) - zone.Seconds();
            Parse(before + Written(f, sep, fraction, zone) + after)
            == if InRange(f) && utc >= 0 then Some(utc) else None
  {
    hide Parse, Pieces.Text, Pieces.Denotes, Pieces.Shaped, Instant, InRange, Zone.Seconds, Written;
    WrittenDenotes(f, sep, fraction, zone);
    ParseOfPieces(PiecesOf(f, sep, fraction, zone), f, zone.Seconds(), before, after);
  }

  /** Without a zone a date and time is refused, whatever its fraction and whatever white space is around. */
  lemma ZonelessRefused(p: Pieces, f: Fields, before: string, after: string)
    requires p.Shaped() && p.Denotes(f) && p.zone == "" && AllWhite(before) && AllWhite(after)
    ensures Parse(before + p.Text() + after).None?
  {
    hide ReadFields, TrimStart, TrimEnd, White, AllDigits, IsInt, Pieces.Text, DropFraction, ReadZone;
    var s := p.Text();
    PiecesRead(p, f);
    FractionEnds(p.fraction);
    assert p.fraction + p.zone == p.fraction;
    assert |s| == 19 + |s[19..]|;
    assert !White(s[|s| - 1]) by {
      if p.fraction != [] { assert s[|s| - 1] == s[19..][|p.fraction| - 1]; }
    }
    TrimmedStart(before, s + after);
    assert before + s + after == before + (s + after);
    TrimmedEnd(s, after);
  }

  /** A fraction alone leaves nothing to read a zone from. */
  lemma FractionEnds(fraction: string)
    requires IsFraction(fraction)
    ensures fraction != [] ==> !White(fraction[|fraction| - 1])
    ensures DropFraction(fraction) == Some("") && ReadZone("").None?
  {
    if fraction != [] {
      var digits := fraction[1..];
      Digit(digits, |digits| - 1);
      DigitsCounted(digits, "");
      assert digits + "" == digits;
    }
  }

  /** A time of day splits and adds up again. */
  lemma InstantOfSplit(secs: int)
    ensures Instant(Split(secs)) == secs
    ensures 0 <= Split(secs).h <= 23 && 0 <= Split(secs).mi <= 59 && 0 <= Split(secs).s <= 59
    ensures ValidDate(Split(secs).date)
  {
    hide CivilFromDays, DaysFromCivil, ValidDate;
    DaysRoundTrip(secs / 86_400);
    TimeOfDay(secs % 86_400);
  }

  lemma TimeOfDay(rem: int)
    requires 0 <= rem < 86_400
    ensures rem / 3600 * 3600 + rem % 3600 / 60 * 60 + rem % 60 == rem
    ensures 0 <= rem / 3600 <= 23 && 0 <= rem % 3600 / 60 <= 59
  {
  }

  predicate FourDigitYear(secs: int) {
    0 <= Split(secs).date.y <= 9999
  }

  /** Local time `local` in a year of four digits, written with the zone's offset, is read as the instant it denotes. */
  lemma LocalTimeParses(local: int, sep: char, fraction: string, zone: Zone)
    requires FourDigitYear(local) && sep in "Tt " && IsFraction(fraction) && zone.Valid()
    ensures Printable(Split(local))
    ensures Parse(Written(Split(local), sep, fraction, zone))
            == if local < zone.Seconds() then None else Some(local - zone.Seconds())
  {
    hide Parse, Written, IsFraction, Zone.Seconds, Zone.Valid, Instant;
    SplitInRange(local);
    InstantOfSplit(local);
    ParseOfWritten(Split(local), sep, fraction, zone, "", "");
    var w := Written(Split(local), sep, fraction, zone);
    assert "" + w + "" == w;
  }

  lemma SplitInRange(secs: int)
    requires FourDigitYear(secs)
    ensures InRange(Split(secs)) && Printable(Split(secs))
  {
  }

  // ------------------------------------------------------------- what is printed is read back

  const YEAR_10000: int := 253_402_300_800

  lemma YearsOfFourDigits(secs: nat)
    ensures FourDigitYear(secs) <==> secs < YEAR_10000
  {
    hide CivilFromDays, YearStart, MonthStart;
    var days := secs / 86_400;
    var era, yoe, mp, d := CivilParts(days);
    NotBeforeEpoch(days, era, yoe, mp, d);
    DayOfYear10000(days, era, yoe, mp, d);
  }

  /** Day 2932897 is the first of the year 10000. */
  lemma DayOfYear10000(z: int, era: int, yoe: int, mp: int, d: int)
    requires z >= 0 && 0 <= yoe < 400 && 0 <= mp < 12 && 1 <= d <= DaysInMonth(CivilYear(era, yoe, mp), MonthOf(mp))
    requires z + 719_468 == era * 146_097 + YearStart(yoe) + MonthStart(mp) + d - 1
    ensures CivilYear(era, yoe, mp) <= 9999 <==> z < 2_932_897
  {
  }

  /** Printing then reading gives the second back, for exactly the seconds before the year 10000. */
  lemma RoundTrip(secs: nat)
    ensures Parse(Print(secs)) == if secs < YEAR_10000 then Some(secs) else None
  {
    hide Parse, Print, FourDigitYear;
    YearsOfFourDigits(secs);
    if FourDigitYear(secs) {
      LocalTimeParses(secs, 'T', "", Utc('Z'));
      PrintIsWritten(secs);
    } else {
      LongYearRefused(secs);
    }
  }

  lemma PrintIsWritten(secs: nat)
    requires Printable(Split(secs))
    ensures Print(secs) == Written(Split(secs), 'T', "", Utc('Z'))
  {
    hide DateText, TimeText, Split;
  }

  /** With five digits of year, the first hyphen is not where the reader looks for it. */
  lemma LongYearRefused(secs: nat)
    requires !FourDigitYear(secs)
    ensures Parse(Print(secs)).None?
  {
    hide Split, DateText, TimeText, Parse;
    PrintableSplit(secs);
    var f := Split(secs);
    LongYear(f.date, "T" + TimeText(f) + "Z");
    assert Print(secs) == DateText(f.date) + ("T" + TimeText(f) + "Z");
  }

  lemma LongYear(c: Date, rest: string)
    requires c.y >= 10_000 && 0 <= c.m && 0 <= c.d && rest != [] && rest[|rest| - 1] == 'Z'
    ensures Parse(DateText(c) + rest).None?
  {
    hide Pad, Power, AllDigits;
    Powers();
    PadReads(c.y, 4);
    var s := DateText(c) + rest;
    Digit(Pad(c.y, 4), 0);
    Digit(Pad(c.y, 4), 4);
    assert s[0] == Pad(c.y, 4)[0] && s[4] == Pad(c.y, 4)[4];
    TrimmedStart("", s);
    TrimmedEnd(s, "");
    assert "" + s == s && s + "" == s;
  }

  // ------------------------------------------------------------- dates that do not exist

  /** A day past the end of its month, which the reader lets through, is the day that many into the next month. */
  lemma DayRollsOver(f: Fields)
    requires InRange(f) && f.date.d > DaysInMonth(f.date.y, f.date.m)
    ensures var last := f.date.(d := DaysInMonth(f.date.y, f.date.m));
            var next := NextDay(last);
            && ValidDate(next) && next.d == 1
            && Instant(f) == Instant(f.(date := next.(d := f.date.d - last.d)))
  {
    hide DaysFromCivil;
    var last := f.date.(d := DaysInMonth(f.date.y, f.date.m));
    NextDayNumber(last);
    DaysAdd(f.date.y, f.date.m, last.d, f.date.d - last.d);
    DaysAdd(NextDay(last).y, NextDay(last).m, 1, f.date.d - last.d - 1);
  }

  lemma DaysAdd(y: int, m: int, d: int, n: int)
    ensures DaysFromCivil(y, m, d + n) == DaysFromCivil(y, m, d) + n
  {
  }
}
