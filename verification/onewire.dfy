/**
 The two pure text functions of the one-wire bus: the temperature parse of a
 sensor's `w1_slave` file (`Ds18b20Temp`) and the split of the bus master's
 slave list (`Ds18b20SensorsList`). File reads are inputs: `None` stands for
 a failed read. Temperatures are integer millidegrees Celsius.
 */
module OneWire {
  import opened Wrappers
  import opened Decimal

  /** The two-character marker `t=` starts at index `i`. */
  predicate MarkerAt(s: string, i: int) {
    0 <= i && i + 1 < |s| && s[i] == 't' && s[i + 1] == '='
  }

  /** `strings.LastIndex(s, "t=")`: the start of the last marker, or -1. */
  function LastMarker(s: string): (i: int)
    ensures i == -1 || MarkerAt(s, i)
    ensures forall j | i < j :: !MarkerAt(s, j)
    decreases |s|
  {
    if |s| < 2 then -1
    else if s[|s| - 2] == 't' && s[|s| - 1] == '=' then |s| - 2
    else
      var i := LastMarker(s[..|s| - 1]);
      assert forall j | 0 <= j && j + 1 < |s| - 1 :: MarkerAt(s[..|s| - 1], j) == MarkerAt(s, j);
      i
  }

  /**
   Outcome of one temperature read. `Panic` is the slice-bounds panic of
   `raw[i+2:len(raw)-1]` in `Ds18b20Temp` when the last marker is the final
   two characters of the file.
   */
  datatype TempOutcome = Temp(milli: int) | Failed | Panic

  /**
   The least magnitude that `strconv.ParseFloat` rounds to infinity for a
   64-bit float, 2^1024 - 2^970: halfway between the largest finite float64
   and 2^1024. A numeral this large is reported as a range error.
   */
  const Float64Overflow: int := 0xFFFF_FFFF_FFFF_FC00_0000_0000_0000_0000_0000_0000_0000_0000_0000_0000_0000_0000_0000_0000_0000_0000_0000_0000_0000_0000_0000_0000_0000_0000_0000_0000_0000_0000_0000_0000_0000_0000_0000_0000_0000_0000_0000_0000_0000_0000_0000_0000_0000_0000_0000_0000_0000_0000_0000_0000_0000_0000_0000_0000_0000_0000_0000_0000_0000_0000

  /** Whether a numeral's value is finite as a float64. */
  predicate FiniteFloat(v: int) {
    -Float64Overflow < v < Float64Overflow
  }

  /**
   A one-byte character. Go slices the file as bytes: dropping the final
   character drops exactly that character only when it is one byte long.
   */
  predicate IsAscii(c: char) {
    c as int < 0x80
  }

  /**
   `Ds18b20Temp`: the number between the last `t=` and the final byte (the
   final byte, normally the newline, is dropped). A failed file read, a
   missing marker, a number `ParseFloat` rejects and a number too large for
   a float64 give the same `Failed`. When the final character is wider than
   one byte, the slice keeps the rest of its bytes and the parse fails too.
   */
  function Ds18b20Temp(file: Option<string>): (r: TempOutcome)
    ensures file.None? ==> r == Failed
    ensures file.Some? && (forall j :: !MarkerAt(file.value, j)) ==> r == Failed
    ensures r.Panic? <==> file.Some? && MarkerAt(file.value, |file.value| - 2)
    ensures r.Temp? ==> IsAscii(file.value[|file.value| - 1]) && FiniteFloat(r.milli)
    ensures r.Temp? ==>
              exists i | MarkerAt(file.value, i) && i + 2 <= |file.value| - 1 ::
                && (forall j | i < j :: !MarkerAt(file.value, j))
                && ParseSigned(file.value[i + 2..|file.value| - 1]) == Some(r.milli)
  {
    match file
    case None => Failed
    case Some(raw) =>
      var i := LastMarker(raw);
      if i == -1 then Failed
      else if i + 2 > |raw| - 1 then Panic
      else if !IsAscii(raw[|raw| - 1]) then Failed
      else
        match ParseSigned(raw[i + 2..|raw| - 1])
        case Some(v) => if FiniteFloat(v) then Temp(v) else Failed
        case None => Failed
  }

  /** In a file ending in `t=`, a numeral and one more character, that marker is the last one. */
  lemma NumeralAfterLastMarker(prefix: string, digits: string, last: char)
    requires ParseSigned(digits).Some?
    ensures var raw := prefix + "t=" + digits + [last];
            && LastMarker(raw) == |prefix|
            && raw[|prefix| + 2..|raw| - 1] == digits
            && raw[|raw| - 1] == last
  {
    var raw := prefix + "t=" + digits + [last];
    var m := |prefix|;
    assert MarkerAt(raw, m);
    forall j | m < j
      ensures !MarkerAt(raw, j)
    {
      if m + 2 <= j < m + 2 + |digits| {
        assert raw[j] == digits[j - m - 2];
        NoMarkerInNumeral(digits, j - m - 2);
      } else if j == m + 1 {
        assert raw[j] == '=';
      }
    }
    assert raw[m + 2..|raw| - 1] == digits;
  }

  /**
   Any content that ends with `t=`, a signed numeral finite as a float64 and
   one more one-byte character reads as that numeral's value, whatever comes
   before the marker.
   */
  lemma TempReadsNumeral(prefix: string, digits: string, last: char)
    requires ParseSigned(digits).Some? && FiniteFloat(ParseSigned(digits).value)
    requires IsAscii(last)
    ensures Ds18b20Temp(Some(prefix + "t=" + digits + [last])) == Temp(ParseSigned(digits).value)
  {
    NumeralAfterLastMarker(prefix, digits, last);
  }

  /** A numeral too large for a float64 fails the read, as `ParseFloat`'s range error does. */
  lemma TempRejectsOverflow(prefix: string, digits: string, last: char)
    requires ParseSigned(digits).Some? && !FiniteFloat(ParseSigned(digits).value)
    ensures Ds18b20Temp(Some(prefix + "t=" + digits + [last])) == Failed
  {
    NumeralAfterLastMarker(prefix, digits, last);
  }

  /** A final character wider than one byte leaves bytes after the numeral, so the read fails. */
  lemma TempRejectsWideLast(prefix: string, digits: string, last: char)
    requires ParseSigned(digits).Some? && !IsAscii(last)
    ensures Ds18b20Temp(Some(prefix + "t=" + digits + [last])) == Failed
  {
    NumeralAfterLastMarker(prefix, digits, last);
  }

  /** In particular a temperature written with `%d` after the marker reads back as itself. */
  lemma TempRoundTrip(prefix: string, v: int, last: char)
    requires FiniteFloat(v) && IsAscii(last)
    ensures Ds18b20Temp(Some(prefix + "t=" + Format(v) + [last])) == Temp(v)
  {
    TempReadsNumeral(prefix, Format(v), last);
  }

  /** A numeral holds no `t`. */
  lemma NoMarkerInNumeral(digits: string, k: int)
    requires ParseSigned(digits).Some?
    requires 0 <= k < |digits|
    ensures digits[k] != 't'
  {
  }

  /** The numeral of the sample reading. */
  lemma SampleNumeral()
    ensures ParseSigned("23562") == Some(23562)
  {
    assert AllDigits("23562");
    assert "23562"[..4] == "2356" && "2356"[..3] == "235" && "235"[..2] == "23" && "23"[..1] == "2";
    assert DigitsValue("2") == 2;
    assert DigitsValue("23") == 23;
    assert DigitsValue("235") == 235;
    assert DigitsValue("2356") == 2356;
  }

  /** The start of a realistic sensor file: the CRC line, then the scratchpad bytes of the reading line. */
  const SamplePrefix: string := "72 01 4b 46 7f ff 0e 10 57 : crc=57 YES\n72 01 4b 46 7f ff 0e 10 57 "

  /** That file with the reading 23.562 degrees reads as 23562 millidegrees. */
  lemma SampleFile()
    ensures Ds18b20Temp(Some(SamplePrefix + "t=" + "23562" + "\n")) == Temp(23562)
  {
    SampleNumeral();
    TempReadsNumeral(SamplePrefix, "23562", '\n');
  }

  // ---------------------------------------------------------------------
  // Slave list

  /** `strings.Split(s, "\n")`: the pieces between newlines, one more than there are newlines. */
  function SplitLines(s: string): (pieces: seq<string>)
    ensures |pieces| == multiset(s)['\n'] + 1
    ensures forall k | 0 <= k < |pieces| :: '\n' !in pieces[k]
    decreases |s|
  {
    if |s| == 0 then [""]
    else
      var rest := SplitLines(s[1..]);
      assert s == [s[0]] + s[1..];
      if s[0] == '\n' then [""] + rest
      else [[s[0]] + rest[0]] + rest[1..]
  }

  /** Each piece followed by a newline, concatenated. */
  function Terminated(lines: seq<string>): string
    decreases |lines|
  {
    if |lines| == 0 then "" else lines[0] + "\n" + Terminated(lines[1..])
  }

  /** Joining a list with a head: the head, its newline, then the rest joined. */
  lemma TerminatedCons(line: string, rest: seq<string>)
    ensures Terminated([line] + rest) == line + "\n" + Terminated(rest)
  {
    assert ([line] + rest)[1..] == rest;
  }

  /** A character glued to the front of the first piece comes first in the joined text. */
  lemma JoinGlued(c: char, line: string, rest: seq<string>)
    ensures Terminated([[c] + line] + rest) == [c] + Terminated([line] + rest)
  {
    TerminatedCons([c] + line, rest);
    TerminatedCons(line, rest);
    var after := "\n" + Terminated(rest);
    assert ([c] + line) + "\n" + Terminated(rest) == ([c] + line) + after;
    assert line + "\n" + Terminated(rest) == line + after;
    assert ([c] + line) + after == [c] + (line + after);
  }

  /** Gluing the pieces of a split back together, newline-terminated, gives the text plus a newline. */
  lemma {:induction false} SplitLinesJoin(s: string)
    ensures Terminated(SplitLines(s)) == s + "\n"
    decreases |s|
  {
    if |s| > 0 {
      var tail := s[1..];
      var rest := SplitLines(tail);
      SplitLinesJoin(tail);
      assert s + "\n" == [s[0]] + (tail + "\n") by {
        assert s == [s[0]] + tail;
      }
      if s[0] == '\n' {
        assert SplitLines(s) == [""] + rest;
        TerminatedCons("", rest);
      } else {
        assert SplitLines(s) == [[s[0]] + rest[0]] + rest[1..];
        assert rest == [rest[0]] + rest[1..];
        JoinGlued(s[0], rest[0], rest[1..]);
      }
    }
  }

  /** Dropping the last piece: the others are newline-terminated lines, the last piece the tail. */
  lemma {:induction false} TerminatedPrefix(lines: seq<string>)
    requires |lines| > 0
    ensures Terminated(lines) == Terminated(lines[..|lines| - 1]) + lines[|lines| - 1] + "\n"
    decreases |lines|
  {
    if |lines| > 1 {
      TerminatedPrefix(lines[1..]);
      assert lines[1..][..|lines| - 2] == lines[..|lines| - 1][1..];
    }
  }

  /**
   `Ds18b20SensorsList`: the lines of the slave list, the piece after the
   last newline dropped. There is one entry per newline, no entry contains a
   newline, and the entries, each followed by a newline, rebuild the text up
   to and including its last newline.
   */
  function Ds18b20SensorsList(file: Option<string>): (r: Option<seq<string>>)
    ensures file.None? <==> r.None?
    ensures r.Some? ==> |r.value| == multiset(file.value)['\n']
    ensures r.Some? ==> forall k | 0 <= k < |r.value| :: '\n' !in r.value[k]
    ensures r.Some? ==>
              && Terminated(r.value) <= file.value
              && '\n' !in file.value[|Terminated(r.value)|..]
  {
    match file
    case None => None
    case Some(data) =>
      var pieces := SplitLines(data);
      var lines := pieces[..|pieces| - 1];
      SplitLinesJoin(data);
      TerminatedPrefix(pieces);
      var glued := Terminated(lines) + pieces[|pieces| - 1];
      assert data + "\n" == glued + "\n";
      assert data == (data + "\n")[..|data|] == (glued + "\n")[..|glued|] == glued;
      assert data[|Terminated(lines)|..] == pieces[|pieces| - 1];
      Some(lines)
  }
}
