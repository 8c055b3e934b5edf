/**
 * One logged record. A `Reading` captures the RTC date and time, the
 * sub-second clock and one ECG sample when it is built; written out, it is
 * one line rendered by "%02d-%02d-%02d,%02d:%02d:%02d:%02d,%02d," into an
 * 80-byte buffer: day, month, year, hour, minute, second, millisecond and
 * sample, each at least two characters wide and never cut short.
 */
module Record {
  import opened Wrappers
  import opened Numerals
  import opened SubSecond
  import LeadOff
  import SdStore

  /** What the RTC reports: the calendar date and the time of day to the second. */
  datatype DateTime = DateTime(year: int, month: int, day: int, hour: int, minute: int, second: int)

  datatype Reading = Reading(
    day: int, month: int, year: int,
    hour: int, minute: int, second: int,
    millisec: uint16, ecgReading: int)

  /** The characters of the record's format that follow each of its eight `%02d` conversions. */
  const Separators: string := "--,:::,,"
  const FieldWidth: nat := 2
  const BufferSize: nat := 80

  function Fields(r: Reading): (vs: seq<int>)
    ensures |vs| == |Separators|
  {
    [r.day, r.month, r.year, r.hour, r.minute, r.second, r.millisec, r.ecgReading]
  }

  /** Each of `vs` as `%02d` writes it. */
  function Converted(vs: seq<int>): (parts: seq<string>)
    ensures |parts| == |vs|
  {
    if vs == [] then [] else [FormatD(vs[0], FieldWidth)] + Converted(vs[1..])
  }

  /** Each part followed by its separator. */
  function Interleave(parts: seq<string>, seps: string): string
    requires |parts| == |seps|
  {
    if parts == [] then [] else parts[0] + ([seps[0]] + Interleave(parts[1..], seps[1..]))
  }

  /** The text `writeToFile` puts in its buffer. */
  function Format(r: Reading): string {
    Interleave(Converted(Fields(r)), Separators)
  }

  /** Takes one numeral and the separator after it off the front of `s`. */
  function ReadField(s: string, sep: char): (r: Option<(int, string)>)
    ensures r.Some? ==> |r.value.1| < |s|
  {
    var k := NumeralLength(s);
    if k < |s| && s[k] == sep then
      match ParseD(s[..k])
      case Some(v) => Some((v, s[k + 1..]))
      case None => None
    else None
  }

  /** Splits `s` at the separators `seps`, in order, reading a numeral before each. */
  function ParseFields(s: string, seps: string): Option<seq<int>>
    decreases seps
  {
    if seps == [] then
      if s == [] then Some([]) else None
    else
      match ReadField(s, seps[0])
      case None => None
      case Some((v, rest)) =>
        match ParseFields(rest, seps[1..])
        case None => None
        case Some(vs) => Some([v] + vs)
  }

  /** Reads a record line back; the millisecond field must fit its 16 bits. */
  function Parse(s: string): Option<Reading> {
    match ParseFields(s, Separators)
    case None => None
    case Some(vs) =>
      if |vs| == 8 && 0 <= vs[6] < Mod16 then
        Some(Reading(vs[0], vs[1], vs[2], vs[3], vs[4], vs[5], vs[6], vs[7]))
      else None
  }

  lemma ReadFieldOfFormatD(v: int, sep: char, rest: string)
    requires !IsDigit(sep)
    ensures ReadField(FormatD(v, FieldWidth) + ([sep] + rest), sep) == Some((v, rest))
  {
    var f := FormatD(v, FieldWidth);
    var s := f + ([sep] + rest);
    NumeralLengthOfFormatD(v, FieldWidth, [sep] + rest);
    assert s[..|f|] == f;
    assert s[|f| + 1..] == rest;
    ParseFormatD(v, FieldWidth);
  }

  lemma {:induction false} ParseInterleave(vs: seq<int>, seps: string)
    requires |vs| == |seps|
    requires forall i :: 0 <= i < |seps| ==> !IsDigit(seps[i])
    ensures ParseFields(Interleave(Converted(vs), seps), seps) == Some(vs)
    decreases vs
  {
    if vs != [] {
      var s := Interleave(Converted(vs), seps);
      var rest := Interleave(Converted(vs[1..]), seps[1..]);
      assert s == FormatD(vs[0], FieldWidth) + ([seps[0]] + rest) by {
        assert Converted(vs)[0] == FormatD(vs[0], FieldWidth);
        assert Converted(vs)[1..] == Converted(vs[1..]);
      }
      assert ReadField(s, seps[0]) == Some((vs[0], rest)) by {
        assert !IsDigit(seps[0]);
        ReadFieldOfFormatD(vs[0], seps[0], rest);
      }
      assert ParseFields(rest, seps[1..]) == Some(vs[1..]) by {
        ParseInterleave(vs[1..], seps[1..]);
      }
      assert [vs[0]] + vs[1..] == vs;
    }
  }

  /** Splitting a written record at its separators gives back every captured field. */
  lemma ParseFormat(r: Reading)
    ensures Parse(Format(r)) == Some(r)
  {
    ParseInterleave(Fields(r), Separators);
  }

  lemma InterleaveEight(p: seq<string>, seps: string)
    requires |p| == 8 && |seps| == 8
    ensures Interleave(p, seps) ==
      p[0] + ([seps[0]] + (p[1] + ([seps[1]] + (p[2] + ([seps[2]] + (p[3] + ([seps[3]] +
      (p[4] + ([seps[4]] + (p[5] + ([seps[5]] + (p[6] + ([seps[6]] + (p[7] + [seps[7]]))))))))))))))
  {
    assert Interleave(p[7..], seps[7..]) == p[7] + [seps[7]];
    assert Interleave(p[6..], seps[6..]) == p[6] + ([seps[6]] + Interleave(p[7..], seps[7..]));
    assert Interleave(p[5..], seps[5..]) == p[5] + ([seps[5]] + Interleave(p[6..], seps[6..]));
    assert Interleave(p[4..], seps[4..]) == p[4] + ([seps[4]] + Interleave(p[5..], seps[5..]));
    assert Interleave(p[3..], seps[3..]) == p[3] + ([seps[3]] + Interleave(p[4..], seps[4..]));
    assert Interleave(p[2..], seps[2..]) == p[2] + ([seps[2]] + Interleave(p[3..], seps[3..]));
    assert Interleave(p[1..], seps[1..]) == p[1] + ([seps[1]] + Interleave(p[2..], seps[2..]));
  }

  /**
   * The record, written out: the separators `-`, `-`, `,`, `:`, `:`, `:`, `,`
   * and `,` between the eight zero-padded fields, in that order.
   */
  lemma FormatShape(r: Reading)
    ensures Format(r) ==
      FormatD(r.day, FieldWidth) + ("-" + (FormatD(r.month, FieldWidth) + ("-" + (FormatD(r.year, FieldWidth) + ("," +
      (FormatD(r.hour, FieldWidth) + (":" + (FormatD(r.minute, FieldWidth) + (":" + (FormatD(r.second, FieldWidth) + (":" +
      (FormatD(r.millisec, FieldWidth) + ("," + (FormatD(r.ecgReading, FieldWidth) + ","))))))))))))))
  {
    var vs, p := Fields(r), Converted(Fields(r));
    forall i | 0 <= i < 8
      ensures p[i] == FormatD(vs[i], FieldWidth)
    {
      ConvertedAt(vs, i);
    }
    assert Separators == ['-', '-', ',', ':', ':', ':', ',', ','];
    InterleaveEight(p, Separators);
  }

  lemma {:induction false} ConvertedAt(vs: seq<int>, i: nat)
    requires i < |vs|
    ensures Converted(vs)[i] == FormatD(vs[i], FieldWidth)
  {
    if i > 0 {
      ConvertedAt(vs[1..], i - 1);
    }
  }

  /** The record's length: its eight fields and eight separators. */
  lemma FormatLength(r: Reading)
    ensures |Format(r)| ==
      |FormatD(r.day, FieldWidth)| + |FormatD(r.month, FieldWidth)| + |FormatD(r.year, FieldWidth)| + |FormatD(r.hour, FieldWidth)| +
      |FormatD(r.minute, FieldWidth)| + |FormatD(r.second, FieldWidth)| + |FormatD(r.millisec, FieldWidth)| + |FormatD(r.ecgReading, FieldWidth)| + 8
  {
    FormatShape(r);
  }

  /** With every field in [0, 100000), the record is at most 48 characters and fits the buffer with its terminator. */
  lemma FormatFitsBuffer(r: Reading)
    requires 0 <= r.day < 100000 && 0 <= r.month < 100000 && 0 <= r.year < 100000
    requires 0 <= r.hour < 100000 && 0 <= r.minute < 100000 && 0 <= r.second < 100000
    requires r.millisec < 100000 && 0 <= r.ecgReading < 100000
    ensures |Format(r)| <= 48
    ensures |Format(r)| + 1 <= BufferSize
  {
    FormatLength(r);
    assert Pow10(5) == 100000;
    FormatDLength(r.day, FieldWidth, 5);
    FormatDLength(r.month, FieldWidth, 5);
    FormatDLength(r.year, FieldWidth, 5);
    FormatDLength(r.hour, FieldWidth, 5);
    FormatDLength(r.minute, FieldWidth, 5);
    FormatDLength(r.second, FieldWidth, 5);
    FormatDLength(r.millisec, FieldWidth, 5);
    FormatDLength(r.ecgReading, FieldWidth, 5);
  }

  /**
   * With the widths the values come in (RTC fields of 8 bits, year and
   * millisecond of 16, a sample of 32), the record fits the buffer.
   */
  lemma FormatFitsBufferForSourceTypes(r: Reading)
    requires 0 <= r.day < 256 && 0 <= r.month < 256 && 0 <= r.hour < 256
    requires 0 <= r.minute < 256 && 0 <= r.second < 256 && 0 <= r.year < Mod16
    requires -0x8000_0000 <= r.ecgReading < 0x8000_0000
    ensures |Format(r)| + 1 <= BufferSize
  {
    FormatLength(r);
    assert Pow10(3) == 1000 && Pow10(5) == 100000 && Pow10(10) == 10000000000;
    FormatDLength(r.day, FieldWidth, 3);
    FormatDLength(r.month, FieldWidth, 3);
    FormatDLength(r.year, FieldWidth, 5);
    FormatDLength(r.hour, FieldWidth, 3);
    FormatDLength(r.minute, FieldWidth, 3);
    FormatDLength(r.second, FieldWidth, 3);
    FormatDLength(r.millisec, FieldWidth, 5);
    FormatDLength(r.ecgReading, FieldWidth, 10);
  }

  /**
   * Building a `Reading`: the initialisers read the RTC once, then the
   * sub-second clock, then the sensor.
   */
  method Capture(clock: SubSecondClock, rtcNow: DateTime, nowMs: uint32, loPlus: int, loMinus: int, analog: int)
    returns (r: Reading)
    ensures r.day == rtcNow.day && r.month == rtcNow.month && r.year == rtcNow.year
    ensures r.hour == rtcNow.hour && r.minute == rtcNow.minute && r.second == rtcNow.second
    ensures (clock.origin + r.millisec) % Mod16 == nowMs % Mod16
    ensures (loPlus == 1 || loMinus == 1) ==> r.ecgReading == 0
    ensures !(loPlus == 1 || loMinus == 1) ==> r.ecgReading == analog
  {
    var millisec := clock.Elapsed(nowMs);
    var sample := LeadOff.EcgReading(loPlus, loMinus, analog);
    r := Reading(rtcNow.day, rtcNow.month, rtcNow.year, rtcNow.hour, rtcNow.minute, rtcNow.second,
                 millisec, sample.value);
  }

  /**
   * `writeToFile`: when the file opens, the formatted record is appended to
   * it as one line and 1 is returned; otherwise the card is unchanged and 0
   * is returned.
   */
  method WriteToFile(r: Reading, card: SdStore.SdCard, fileName: string, cardReady: bool) returns (status: int)
    modifies card
    ensures status == (if cardReady then 1 else 0)
    ensures card.files == (if cardReady then SdStore.Appended(old(card.files), fileName, Format(r)) else old(card.files))
  {
    status := card.Write(fileName, Format(r), cardReady);
  }
}
