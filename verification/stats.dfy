/**
 * Run statistics: the counters every processed file feeds, and the integer part of
 * the two formatters used in the summaries (`format_bytes`, `format_duration`).
 */
module Stats {
  import opened Text

  /** The five running counters, read together. */
  datatype Counters = Counters(
    success: nat,
    error: nat,
    validationFailed: nat,
    bytesRead: nat,
    bytesWritten: nat)

  /** `Statistics`: the number of files is fixed at construction; the counters only grow. */
  class Statistics {
    const totalFiles: nat
    var successCount: nat
    var errorCount: nat
    var validationFailed: nat
    var totalBytesRead: nat
    var totalBytesWritten: nat

    /** All counters at once. */
    function Snapshot(): Counters
      reads this
    {
      Counters(successCount, errorCount, validationFailed, totalBytesRead, totalBytesWritten)
    }

    /** `Statistics::new(total_files)`: the total set, every counter and byte total at zero. */
    constructor (totalFiles: nat)
      ensures this.totalFiles == totalFiles
      ensures Snapshot() == Counters(0, 0, 0, 0, 0)
    {
      this.totalFiles := totalFiles;
      successCount, errorCount, validationFailed := 0, 0, 0;
      totalBytesRead, totalBytesWritten := 0, 0;
    }

    /** `increment_success`: one more success, nothing else changes. */
    method IncrementSuccess()
      modifies this
      ensures Snapshot() == old(Snapshot()).(success := old(successCount) + 1)
    {
      successCount := successCount + 1;
    }

    /** `increment_error`: one more failure, nothing else changes. */
    method IncrementError()
      modifies this
      ensures Snapshot() == old(Snapshot()).(error := old(errorCount) + 1)
    {
      errorCount := errorCount + 1;
    }

    /** `increment_validation_failed`: one more invalid file, nothing else changes. */
    method IncrementValidationFailed()
      modifies this
      ensures Snapshot() == old(Snapshot()).(validationFailed := old(validationFailed) + 1)
    {
      validationFailed := validationFailed + 1;
    }

    /** `add_bytes_read(bytes)`: the read total grows by exactly `bytes`, nothing else changes. */
    method AddBytesRead(bytes: nat)
      modifies this
      ensures Snapshot() == old(Snapshot()).(bytesRead := old(totalBytesRead) + bytes)
    {
      totalBytesRead := totalBytesRead + bytes;
    }

    /** `add_bytes_written(bytes)`: the written total grows by exactly `bytes`, nothing else changes. */
    method AddBytesWritten(bytes: nat)
      modifies this
      ensures Snapshot() == old(Snapshot()).(bytesWritten := old(totalBytesWritten) + bytes)
    {
      totalBytesWritten := totalBytesWritten + bytes;
    }

    /** `get_success_count`: reads without changing anything. */
    method GetSuccessCount() returns (n: nat)
      ensures n == successCount
    {
      n := successCount;
    }

    /** `get_error_count`: reads without changing anything. */
    method GetErrorCount() returns (n: nat)
      ensures n == errorCount
    {
      n := errorCount;
    }

    /** `get_validation_failed`: reads without changing anything. */
    method GetValidationFailed() returns (n: nat)
      ensures n == validationFailed
    {
      n := validationFailed;
    }
  }

  // ---------------------------------------------------------------------------
  // format_bytes
  // ---------------------------------------------------------------------------

  const KIB: nat := 1024
  const MIB: nat := 1024 * 1024
  const GIB: nat := 1024 * 1024 * 1024

  datatype ByteUnit = B | KB | MB | GB

  function UnitSize(u: ByteUnit): nat
  {
    match u
    case B => 1
    case KB => KIB
    case MB => MIB
    case GB => GIB
  }

  function UnitName(u: ByteUnit): string
  {
    match u
    case B => "B"
    case KB => "KB"
    case MB => "MB"
    case GB => "GB"
  }

  /**
   * The unit `format_bytes` chooses: the largest of GB, MB, KB whose size `bytes`
   * reaches, else plain bytes.  The quotient shown is then at least 1 and, below
   * GB, less than 1024.
   */
  function UnitFor(bytes: nat): (u: ByteUnit)
    ensures u == GB <==> bytes >= GIB
    ensures u == MB <==> MIB <= bytes < GIB
    ensures u == KB <==> KIB <= bytes < MIB
    ensures u == B <==> bytes < KIB
    ensures UnitSize(u) <= bytes || bytes == 0
    ensures u != GB ==> bytes < 1024 * UnitSize(u)
  {
    if bytes >= GIB then GB
    else if bytes >= MIB then MB
    else if bytes >= KIB then KB
    else B
  }

  /**
   * What `format_bytes` prints: below 1 KiB the exact count followed by " B"; above,
   * a quotient with two decimals whose digits are outside the model.
   */
  datatype BytesText = Exact(text: string) | Fractional(bytes: nat, unit: ByteUnit)

  function FormatBytes(bytes: nat): (r: BytesText)
    ensures r.Exact? <==> UnitFor(bytes) == B
    ensures r.Fractional? ==> r.bytes == bytes && r.unit == UnitFor(bytes)
    ensures r.Exact? ==> |r.text| >= 3 && r.text[|r.text| - 2..] == " B"
    ensures r.Exact? ==> AllDigits(r.text[..|r.text| - 2]) && DecimalValue(r.text[..|r.text| - 2]) == bytes
    ensures r.Exact? ==> (r.text[0] == '0' ==> |r.text| == 3)
  {
    var u := UnitFor(bytes);
    if u == B then
      var digits := NatToString(bytes);
      DecimalRoundTrip(bytes);
      var text := digits + " " + UnitName(u);
      assert text == digits + " B" && text[..|text| - 2] == digits;
      Exact(text)
    else Fractional(bytes, u)
  }

  /** The boundary cases of `format_bytes`. */
  lemma FormatBytesExamples()
    ensures FormatBytes(0) == Exact("0 B")
    ensures FormatBytes(500) == Exact("500 B")
    ensures FormatBytes(1023) == Exact("1023 B")
    ensures FormatBytes(1024) == Fractional(1024, KB)
    ensures FormatBytes(1024 * 1024 - 1) == Fractional(1024 * 1024 - 1, KB)
    ensures FormatBytes(1048576) == Fractional(1048576, MB)
    ensures FormatBytes(1073741824) == Fractional(1073741824, GB)
  {
    assert NatToString(500) == NatToString(50) + "0";
    assert NatToString(1023) == NatToString(102) + "3";
    assert NatToString(102) == NatToString(10) + "2";
  }

  // ---------------------------------------------------------------------------
  // format_duration
  // ---------------------------------------------------------------------------

  /** `std::time::Duration`: whole seconds and the nanoseconds beyond them. */
  datatype Duration = Duration(secs: nat, nanos: nat)

  /** The numbers `format_duration` prints, by the branch it takes. */
  datatype DurationParts =
    | HoursMinutes(hours: nat, mins: nat)
    | MinutesSeconds(mins: nat, secs: nat)
    | SecondsMillis(secs: nat, millis: nat)
    | MillisOnly(millis: nat)

  /**
   * The branch and numbers of `format_duration`: from an hour on, whole hours and the
   * minutes left over (seconds dropped); from a minute on, minutes and seconds; below
   * a minute, seconds with milliseconds; at zero seconds, milliseconds alone.
   */
  function Parts(secs: nat, millis: nat): (p: DurationParts)
    ensures secs >= 3600 ==> p.HoursMinutes? && p.mins < 60
    ensures secs >= 3600 ==> p.hours * 3600 + p.mins * 60 <= secs < p.hours * 3600 + p.mins * 60 + 60
    ensures 60 <= secs < 3600 ==> p.MinutesSeconds? && 1 <= p.mins < 60 && p.secs < 60 && p.mins * 60 + p.secs == secs
    ensures 0 < secs < 60 ==> p == SecondsMillis(secs, millis)
    ensures secs == 0 ==> p == MillisOnly(millis)
  {
    if secs >= 3600 then HoursMinutes(secs / 3600, (secs % 3600) / 60)
    else if secs >= 60 then MinutesSeconds(secs / 60, secs % 60)
    else if secs > 0 then SecondsMillis(secs, millis)
    else MillisOnly(millis)
  }

  function RenderParts(p: DurationParts): string
  {
    match p
    case HoursMinutes(h, m) => NatToString(h) + "시간 " + NatToString(m) + "분"
    case MinutesSeconds(m, s) => NatToString(m) + "분 " + NatToString(s) + "초"
    case SecondsMillis(s, ms) => NatToString(s) + "." + ZeroPad3(ms) + "초"
    case MillisOnly(ms) => NatToString(ms) + "ms"
  }

  /**
   * `format_duration`: the text ends in the unit of its branch — minutes from an hour
   * on, seconds from one second on, "ms" below.
   */
  function FormatDuration(d: Duration): (r: string)
    requires d.nanos < 1_000_000_000
    ensures d.secs >= 3600 ==> |r| >= 6 && r[|r| - 1] == '분'
    ensures 0 < d.secs < 3600 ==> |r| >= 4 && r[|r| - 1] == '초'
    ensures d.secs == 0 ==> |r| >= 3 && r[|r| - 2..] == "ms"
  {
    var p := Parts(d.secs, d.nanos / 1_000_000);
    var r := RenderParts(p);
    assert p.SecondsMillis? ==> |ZeroPad3(p.millis)| == 3 && r == (NatToString(p.secs) + "." + ZeroPad3(p.millis)) + "초";
    assert p.MinutesSeconds? ==> r == (NatToString(p.mins) + "분 " + NatToString(p.secs)) + "초";
    assert p.HoursMinutes? ==> r == (NatToString(p.hours) + "시간 " + NatToString(p.mins)) + "분";
    r
  }

  /**
   * The text of `format_duration` reads back as its numbers: below a minute as the
   * seconds, a '.', the milliseconds in exactly three digits and "초"; at zero
   * seconds as the milliseconds followed by "ms".
   */
  /** `a` is the canonical decimal numeral of `n`: digits only, no leading zero except for 0 itself. */
  predicate Numeral(a: string, n: nat)
  {
    |a| >= 1 && AllDigits(a) && (a[0] == '0' ==> |a| == 1) && DecimalValue(a) == n
  }

  lemma FormatDurationReadsBack(d: Duration)
    requires d.nanos < 1_000_000_000
    ensures var r := FormatDuration(d);
            d.secs >= 3600 ==>
              exists a, b :: r == a + "시간 " + b + "분" && Numeral(a, d.secs / 3600) && Numeral(b, (d.secs % 3600) / 60)
    ensures var r := FormatDuration(d);
            60 <= d.secs < 3600 ==>
              exists a, b :: r == a + "분 " + b + "초" && Numeral(a, d.secs / 60) && Numeral(b, d.secs % 60)
    ensures var r := FormatDuration(d);
            0 < d.secs < 60 ==>
              |r| >= 6 && r[0] != '0' && r[|r| - 1] == '초' && r[|r| - 5] == '.'
              && AllDigits(r[|r| - 4..|r| - 1]) && DecimalValue(r[|r| - 4..|r| - 1]) == d.nanos / 1_000_000
              && AllDigits(r[..|r| - 5]) && DecimalValue(r[..|r| - 5]) == d.secs
    ensures var r := FormatDuration(d);
            d.secs == 0 ==>
              |r| >= 3 && r[|r| - 2..] == "ms" && (r[0] == '0' ==> |r| == 3)
              && AllDigits(r[..|r| - 2]) && DecimalValue(r[..|r| - 2]) == d.nanos / 1_000_000
  {
    var millis := d.nanos / 1_000_000;
    var r := FormatDuration(d);
    if d.secs >= 3600 {
      var a, b := NatToString(d.secs / 3600), NatToString((d.secs % 3600) / 60);
      DecimalRoundTrip(d.secs / 3600);
      DecimalRoundTrip((d.secs % 3600) / 60);
      assert r == a + "시간 " + b + "분";
      assert Numeral(a, d.secs / 3600) && Numeral(b, (d.secs % 3600) / 60);
    } else if d.secs >= 60 {
      var a, b := NatToString(d.secs / 60), NatToString(d.secs % 60);
      DecimalRoundTrip(d.secs / 60);
      DecimalRoundTrip(d.secs % 60);
      assert r == a + "분 " + b + "초";
      assert Numeral(a, d.secs / 60) && Numeral(b, d.secs % 60);
    } else if 0 < d.secs < 60 {
      var s, ms := NatToString(d.secs), ZeroPad3(millis);
      DecimalRoundTrip(d.secs);
      assert r == s + "." + ms + "초";
      assert r[..|r| - 5] == s;
      assert r[|r| - 4..|r| - 1] == ms;
    } else if d.secs == 0 {
      DecimalRoundTrip(millis);
      assert r[..|r| - 2] == NatToString(millis);
    }
  }

  /** The examples the formatter is documented with. */
  lemma FormatDurationExamples()
    ensures FormatDuration(Duration(0, 500_000_000)) == "500ms"
    ensures FormatDuration(Duration(5, 0)) == "5.000초"
    ensures FormatDuration(Duration(65, 0)) == "1분 5초"
    ensures FormatDuration(Duration(3665, 0)) == "1시간 1분"
    ensures FormatDuration(Duration(7380, 0)) == "2시간 3분"
    ensures FormatDuration(Duration(600, 0)) == "10분 0초"
  {
    assert NatToString(500) == NatToString(50) + "0";
    assert ZeroPad3(0) == "000";
  }
}
