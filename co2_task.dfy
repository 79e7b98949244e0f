/** One pass of the measurement loop of `co2_sensor_task` in
    main/co2_sensor_task.c: the slot schedule, the latch that keeps a slot
    from firing twice, the decoding of 61 sensor responses into samples, the
    median taken by sorting the whole sample array in place, and the CSV row
    handed to the SD-card logger.

    Sensor responses, the temperature and humidity texts, the clock reading
    and the outcome of the file operations are inputs. */
module Co2Task {
  import opened Common
  import opened QSort
  import opened TimeFormat
  import opened SdCard

  /** `NUM_AMOSTRAS`. */
  const NumSamples: nat := 61

  /** `NUM_AMOSTRAS / 2`, the index the median is taken from. */
  const MiddleIndex: nat := NumSamples / 2

  /** The request frame the task sends before every reading. */
  const ReadCommand: seq<Byte> := [0xFF, 0x01, 0x86, 0x00, 0x00, 0x00, 0x00, 0x00, 0x79]

  /** The sensor's frame checksum: 0xFF minus the sum of bytes 1 to 7, plus
      one, modulo 256. */
  function Checksum(frame: seq<Byte>): (c: int)
    requires |frame| == 9
    ensures 0 <= c < 256
  {
    var sum := frame[1] as int + frame[2] as int + frame[3] as int + frame[4] as int
               + frame[5] as int + frame[6] as int + frame[7] as int;
    (0xFF - sum + 1) % 256
  }

  /** The fixed request frame carries a correct checksum. */
  lemma ReadCommandChecksum()
    ensures ReadCommand[8] as int == Checksum(ReadCommand)
  {
  }

  // ------------------------------------------------------------ schedule

  predicate InHourWindow(hour: int)
  {
    (7 <= hour <= 9) || (11 <= hour <= 13) || (16 <= hour <= 18)
  }

  predicate OnMinuteSchedule(min: int)
  {
    min == 0 || min == 30
  }

  /** The schedule of a build with `MODO_DE_TESTE` defined: every quarter
      minute, whatever the hour. */
  predicate OnTestSchedule(sec: int)
  {
    sec == 0 || sec == 15 || sec == 30 || sec == 45
  }

  /** Whether the loop pass at local time `t` is inside a measurement slot. */
  predicate Due(testMode: bool, t: TimeFields)
  {
    if testMode then OnTestSchedule(t.sec)
    else InHourWindow(t.hour) && OnMinuteSchedule(t.min)
  }

  lemma HourWindowHours()
    ensures (set h | 0 <= h < 24 && InHourWindow(h)) == {7, 8, 9, 11, 12, 13, 16, 17, 18}
  {
  }

  lemma MinuteScheduleMinutes()
    ensures (set m | 0 <= m < 60 && OnMinuteSchedule(m)) == {0, 30}
  {
  }

  /** One pass of the loop on the latch: whether it measures, and the latch
      it leaves. */
  function Step(testMode: bool, latch: bool, t: TimeFields): (bool, bool)
  {
    if Due(testMode, t) then (!latch, true) else (false, false)
  }

  /** The passes that measure, for successive clock readings `ts`, starting
      with latch `latch`. */
  function Fires(testMode: bool, latch: bool, ts: seq<TimeFields>): (r: seq<bool>)
    ensures |r| == |ts|
    decreases |ts|
  {
    if ts == [] then []
    else
      var (fire, latch') := Step(testMode, latch, ts[0]);
      [fire] + Fires(testMode, latch', ts[1..])
  }

  /** A pass measures exactly when it is in a slot and the pass before it was
      not (or, for the first pass, the latch was clear). */
  lemma {:induction false} FiresOnSlotEntry(testMode: bool, latch: bool, ts: seq<TimeFields>, i: nat)
    requires i < |ts|
    decreases i
    ensures Fires(testMode, latch, ts)[i] <==>
      Due(testMode, ts[i]) && (if i == 0 then !latch else !Due(testMode, ts[i - 1]))
  {
    if i > 0 {
      var latch' := Step(testMode, latch, ts[0]).1;
      FiresOnSlotEntry(testMode, latch', ts[1..], i - 1);
      assert ts[1..][i - 1] == ts[i];
      if i > 1 {
        assert ts[1..][i - 2] == ts[i - 1];
      }
    }
  }

  /** Within a run of passes that are all in a slot, only the first can
      measure. */
  lemma OncePerSlot(testMode: bool, latch: bool, ts: seq<TimeFields>, i: nat, j: nat)
    requires i < j < |ts|
    requires forall k :: i <= k <= j ==> Due(testMode, ts[k])
    ensures !Fires(testMode, latch, ts)[j]
  {
    FiresOnSlotEntry(testMode, latch, ts, j);
  }

  // ------------------------------------------------------------- samples

  /** A 9-byte receive buffer. */
  type Frame = s: seq<Byte> | |s| == 9 witness [0, 0, 0, 0, 0, 0, 0, 0, 0]

  /** What `uart_read_bytes` returned: its length result and the buffer. */
  datatype UartRead = UartRead(len: int, data: Frame)

  /** `(data[2] << 8) | data[3]` when exactly 9 bytes arrived, else -1. */
  function SampleOf(r: UartRead): (v: int)
    ensures r.len == 9 ==> v == r.data[2] as int * 256 + r.data[3] as int
    ensures r.len != 9 ==> v == -1
    ensures SampleRange(v)
  {
    if r.len == 9 then (((r.data[2] as bv16) << 8) | (r.data[3] as bv16)) as int else -1
  }

  function Samples(rs: seq<UartRead>): (s: seq<int>)
    ensures |s| == |rs| && forall i :: 0 <= i < |rs| ==> s[i] == SampleOf(rs[i])
  {
    seq(|rs|, i requires 0 <= i < |rs| => SampleOf(rs[i]))
  }

  /** The number of entries of `s` that are at most `x`. */
  function CountAtMost(s: seq<int>, x: int): (n: nat)
    ensures n <= |s|
  {
    if s == [] then 0 else (if s[0] <= x then 1 else 0) + CountAtMost(s[1..], x)
  }

  /** The number of non-negative entries, that is, of valid samples. */
  function ValidCount(s: seq<int>): nat
  {
    |s| - CountAtMost(s, -1)
  }

  lemma {:induction false} CountAtMostAppend(s: seq<int>, v: int, x: int)
    ensures CountAtMost(s + [v], x) == CountAtMost(s, x) + (if v <= x then 1 else 0)
  {
    if s != [] {
      assert (s + [v])[1..] == s[1..] + [v];
      CountAtMostAppend(s[1..], v, x);
    }
  }

  /** The sampling loop: one request and one response per entry; a response
      of exactly 9 bytes is a valid sample and is counted. */
  method CollectSamples(responses: seq<UartRead>) returns (samples: array<int>, valid: int)
    requires |responses| == NumSamples
    ensures fresh(samples) && samples.Length == NumSamples
    ensures samples[..] == Samples(responses)
    ensures valid == ValidCount(samples[..]) && 0 <= valid <= NumSamples
  {
    samples := new int[NumSamples];
    valid := 0;
    for i := 0 to NumSamples
      invariant forall k :: 0 <= k < i ==> samples[k] == SampleOf(responses[k])
      invariant valid == i - CountAtMost(samples[..i], -1)
    {
      var r := responses[i];
      if r.len == 9 {
        samples[i] := (((r.data[2] as bv16) << 8) | (r.data[3] as bv16)) as int;
        valid := valid + 1;
      } else {
        samples[i] := -1;
      }
      assert samples[..i + 1] == samples[..i] + [samples[i]];
      CountAtMostAppend(samples[..i], samples[i], -1);
    }
    assert samples[..] == samples[..NumSamples];
  }

  // -------------------------------------------------------------- median

  /** The value the task logs: entry 30 of the whole sorted array, markers
      included, or -1 when no sample is valid. */
  function Median(s: seq<int>): int
    requires |s| == NumSamples
  {
    if ValidCount(s) > 0 then Sort(s)[MiddleIndex] else -1
  }

  /** The median step: `qsort` over all 61 entries, then the middle entry. */
  method MedianOf(a: array<int>, valid: int) returns (m: int)
    requires a.Length == NumSamples && valid == ValidCount(a[..])
    requires forall k :: 0 <= k < a.Length ==> SampleRange(a[k])
    modifies a
    ensures m == Median(old(a[..]))
    ensures a[..] == if valid > 0 then Sort(old(a[..])) else old(a[..])
  {
    m := -1;
    if valid > 0 {
      SortInPlace(a);
      m := a[MiddleIndex];
    }
  }

  lemma {:induction false} CountAtMostInsert(v: int, s: seq<int>, x: int)
    requires Sorted(s)
    ensures CountAtMost(Insert(v, s), x) == CountAtMost(s, x) + (if v <= x then 1 else 0)
  {
    if s != [] && v > s[0] {
      SortedTail(s);
      CountAtMostInsert(v, s[1..], x);
    }
  }

  /** Sorting does not change how many entries lie at or below a bound. */
  lemma {:induction false} CountAtMostSort(s: seq<int>, x: int)
    ensures CountAtMost(Sort(s), x) == CountAtMost(s, x)
  {
    if s != [] {
      CountAtMostSort(s[1..], x);
      CountAtMostInsert(s[0], Sort(s[1..]), x);
    }
  }

  /** In a sorted sequence, an entry above `x` at index `k` leaves at most
      `k` entries at or below `x`. */
  lemma {:induction false} SortedCountUpper(t: seq<int>, k: nat, x: int)
    requires Sorted(t) && k < |t| && t[k] > x
    ensures CountAtMost(t, x) <= k
  {
    if k == 0 {
      NoneAtMost(t, x);
    } else {
      SortedTail(t);
      SortedCountUpper(t[1..], k - 1, x);
    }
  }

  lemma {:induction false} NoneAtMost(t: seq<int>, x: int)
    requires forall i :: 0 <= i < |t| ==> t[i] > x
    ensures CountAtMost(t, x) == 0
  {
    if t != [] {
      NoneAtMost(t[1..], x);
    }
  }

  /** In a sorted sequence, an entry at or below `x` at index `k` means at
      least `k + 1` entries are at or below `x`. */
  lemma {:induction false} SortedCountLower(t: seq<int>, k: nat, x: int)
    requires Sorted(t) && k < |t| && t[k] <= x
    ensures CountAtMost(t, x) >= k + 1
  {
    if k > 0 {
      SortedTail(t);
      SortedCountLower(t[1..], k - 1, x);
    }
  }

  /** The `k`-th smallest entry `m` is an entry, so a sample value. */
  lemma SortKeepsRange(s: seq<int>, k: nat, m: int)
    requires forall i :: 0 <= i < |s| ==> SampleRange(s[i])
    requires k < |s| && m == Sort(s)[k]
    ensures SampleRange(m) && m in s
  {
    assert m in multiset(Sort(s));
  }

  /** Because the markers are sorted along with the readings, the logged
      value is the marker -1 exactly when 30 or fewer samples are valid. */
  lemma MedianIsMarkerIff(s: seq<int>)
    requires |s| == NumSamples && forall i :: 0 <= i < |s| ==> SampleRange(s[i])
    ensures Median(s) == -1 <==> ValidCount(s) <= MiddleIndex
  {
    var t := Sort(s);
    CountAtMostSort(s, -1);
    if ValidCount(s) > 0 {
      SortKeepsRange(s, MiddleIndex, t[MiddleIndex]);
      if t[MiddleIndex] == -1 {
        SortedCountLower(t, MiddleIndex, -1);
      } else {
        SortedCountUpper(t, MiddleIndex, -1);
      }
    }
  }

  /** At most `k` entries of `s` lie below its `k`-th smallest entry `m`. */
  lemma SortedBelow(s: seq<int>, k: nat, m: int)
    requires k < |s| && m == Sort(s)[k]
    ensures CountAtMost(s, m - 1) <= k
  {
    var t := Sort(s);
    SortedCountUpper(t, k, m - 1);
    CountAtMostSort(s, m - 1);
  }

  /** At most `|s| - k - 1` entries of `s` lie above its `k`-th smallest
      entry `m`. */
  lemma SortedAbove(s: seq<int>, k: nat, m: int)
    requires k < |s| && m == Sort(s)[k]
    ensures |s| - CountAtMost(s, m) <= |s| - k - 1
  {
    var t := Sort(s);
    SortedCountLower(t, k, m);
    CountAtMostSort(s, m);
  }

  /** Whenever a value `m` is logged, it is one of the 61 entries, with at
      most 30 entries below it and at most 30 above it. */
  lemma MedianIsMiddle(s: seq<int>, m: int)
    requires |s| == NumSamples && forall i :: 0 <= i < |s| ==> SampleRange(s[i])
    requires ValidCount(s) > 0 && m == Median(s)
    ensures m in s
    ensures CountAtMost(s, m - 1) <= MiddleIndex
    ensures |s| - CountAtMost(s, m) <= MiddleIndex
  {
    assert m == Sort(s)[MiddleIndex];
    SortKeepsRange(s, MiddleIndex, m);
    SortedBelow(s, MiddleIndex, m);
    SortedAbove(s, MiddleIndex, m);
  }

  /** With every sample valid, the logged value `m` is the true median of
      the readings. */
  lemma AllValidMedian(s: seq<int>, m: int)
    requires |s| == NumSamples && forall i :: 0 <= i < |s| ==> 0 <= s[i] <= 65535
    requires m == Median(s)
    ensures 0 <= m && m in s
    ensures CountAtMost(s, m - 1) <= MiddleIndex
    ensures |s| - CountAtMost(s, m) <= MiddleIndex
  {
    NoneAtMost(s, -1);
    MedianIsMarkerIff(s);
    MedianIsMiddle(s, m);
  }

  // ------------------------------------------------------------- CSV row

  /** The number of decimal digits `%d` prints for `n`: enough for `n`, and
      no leading zero. */
  function NumDigits(n: nat): (w: nat)
    ensures 1 <= w && n < Pow10(w)
    ensures w > 1 ==> Pow10(w - 1) <= n
  {
    if n < 10 then 1 else 1 + NumDigits(n / 10)
  }

  lemma {:induction false} NumDigitsAtMost(n: nat, k: nat)
    requires 1 <= k && n < Pow10(k)
    ensures NumDigits(n) <= k
  {
    if n >= 10 {
      assert k >= 2;
      NumDigitsAtMost(n / 10, k - 1);
    }
  }

  /** `%d`: an optional minus sign, then the digits without padding. */
  function FormatInt(n: int): (s: string)
    ensures 0 < |s| && (n >= 0 ==> AllDigits(s)) && (n < 0 ==> s[0] == '-' && AllDigits(s[1..]))
  {
    if n < 0 then "-" + Digits(-n, NumDigits(-n)) else Digits(n, NumDigits(n))
  }

  function ParseInt(s: string): int
    requires 0 < |s| && (if s[0] == '-' then AllDigits(s[1..]) else AllDigits(s))
  {
    if s[0] == '-' then -(DigitsValue(s[1..]) as int) else DigitsValue(s)
  }

  /** The CO2 column reads back as the value printed into it. */
  lemma FormatIntRoundTrip(n: int)
    ensures ParseInt(FormatInt(n)) == n
  {
    if n < 0 {
      var d := Digits(-n, NumDigits(-n));
      DigitsRoundTrip(-n, NumDigits(-n));
      ParseNegative(d);
    } else {
      var d := Digits(n, NumDigits(n));
      DigitsRoundTrip(n, NumDigits(n));
      ParseDigits(d);
    }
  }

  lemma ParseDigits(d: string)
    requires 0 < |d| && AllDigits(d)
    ensures ParseInt(d) == DigitsValue(d)
  {
  }

  lemma ParseNegative(d: string)
    requires AllDigits(d)
    ensures ParseInt("-" + d) == -(DigitsValue(d) as int)
  {
    assert ("-" + d)[0] == '-' && ("-" + d)[1..] == d;
  }

  /** The line `"%s;%s;%d;%.1f;%.1f\n"` prints from a 10-character date, an
      8-character time, the printed value and the printed temperature and
      humidity: each column after its predecessor and a `;`. */
  function CsvLine(date: string, time: string, value: string, temperature: string, humidity: string): (line: string)
    requires |date| == 10 && |time| == 8
    ensures |line| == 23 + |value| + |temperature| + |humidity|
    ensures line[..10] == date && line[10] == ';' && line[11..19] == time && line[19] == ';'
    ensures line[20..20 + |value|] == value && line[20 + |value|] == ';' && line[|line| - 1] == '\n'
  {
    var head := date + ";" + time + ";";
    var tail := value + ";" + temperature + ";" + humidity + "\n";
    HeadColumns(date, time, head);
    TailColumns(value, temperature, humidity, tail);
    assert head + tail == date + ";" + time + ";" + value + ";" + temperature + ";" + humidity + "\n";
    head + tail
  }

  lemma HeadColumns(date: string, time: string, head: string)
    requires |date| == 10 && |time| == 8 && head == date + ";" + time + ";"
    ensures |head| == 20 && head[..10] == date && head[10] == ';' && head[11..19] == time && head[19] == ';'
  {
  }

  lemma TailColumns(v: string, temperature: string, humidity: string, tail: string)
    requires tail == v + ";" + temperature + ";" + humidity + "\n"
    ensures |v| < |tail| && tail[..|v|] == v && tail[|v|] == ';' && tail[|tail| - 1] == '\n'
  {
  }

  /** The line printed into the 128-byte `csv_line`: at most 127 characters
      survive. The temperature and humidity arrive already printed. */
  function CsvRow(t: TimeFields, median: int, temperature: string, humidity: string): (row: string)
    requires Renderable(t)
    ensures |row| <= 127
  {
    Take(CsvLine(FormatDate(t), FormatTime(t), FormatInt(median), temperature, humidity), 127)
  }

  /** A sample-range value with short temperature and humidity texts fits the
      buffer, so the row holds the date, the time and the value in their
      columns and ends the line. */
  lemma CsvRowColumns(t: TimeFields, median: int, temperature: string, humidity: string)
    requires Renderable(t) && SampleRange(median) && |temperature| + |humidity| <= 99
    ensures var row := CsvRow(t, median, temperature, humidity);
      var w := |FormatInt(median)|;
      && row[..10] == FormatDate(t) && row[10] == ';'
      && row[11..19] == FormatTime(t) && row[19] == ';'
      && 20 + w < |row| && row[20..20 + w] == FormatInt(median) && row[20 + w] == ';'
      && row[|row| - 1] == '\n'
  {
    var v := FormatInt(median);
    assert |v| <= 5 by {
      if median < 0 {
        assert v == "-" + Digits(1, 1);
      } else {
        assert Pow10(5) == 100000;
        NumDigitsAtMost(median, 5);
      }
    }
    var line := CsvLine(FormatDate(t), FormatTime(t), v, temperature, humidity);
    assert CsvRow(t, median, temperature, humidity) == line;
  }

  // ----------------------------------------------------------- the loop

  /** What one measurement receives: the 61 responses, the printed
      temperature and humidity, the clock reading at the time the row is
      written, and how the file operations turn out. */
  datatype Readings = Readings(
    responses: seq<UartRead>, temperature: string, humidity: string, clock: Clock, io: IoOutcome)

  /** The row the task writes for the given readings. */
  function RowOf(rd: Readings): string
    requires |rd.responses| == NumSamples && Renderable(rd.clock.local)
  {
    CsvRow(rd.clock.local, Median(Samples(rd.responses)), rd.temperature, rd.humidity)
  }

  /** The task: its build-time schedule, the slot latch and the logger it
      writes rows to. */
  class Station {
    const testMode: bool
    var measurementTaken: bool
    const logger: CsvLogger

    constructor (testMode: bool, logger: CsvLogger)
      ensures this.testMode == testMode && this.logger == logger && !measurementTaken
    {
      this.testMode := testMode;
      this.logger := logger;
      measurementTaken := false;
    }

    /** One pass of the loop at local time `t`. When it measures, the row
        built from the readings goes to the logger; the logger's verdict is
        ignored, as in the task. */
    method Tick(t: TimeFields, rd: Readings) returns (fired: bool)
      requires |rd.responses| == NumSamples && Renderable(rd.clock.local)
      modifies this, logger, logger.vol
      ensures (fired, measurementTaken) == Step(testMode, old(measurementTaken), t)
      ensures fired ==> logger.State() == WriteData(old(logger.State()), RowOf(rd), rd.clock, rd.io).0
      ensures !fired ==> logger.State() == old(logger.State())
    {
      var isInHourWindow := InHourWindow(t.hour);
      var isOnMinuteSchedule := OnMinuteSchedule(t.min);
      if testMode {
        isInHourWindow := true;
        isOnMinuteSchedule := OnTestSchedule(t.sec);
      }
      fired := false;
      if isInHourWindow && isOnMinuteSchedule {
        if !measurementTaken {
          var samples, valid := CollectSamples(rd.responses);
          ghost var s := samples[..];
          var median := MedianOf(samples, valid);
          var line := CsvRow(rd.clock.local, median, rd.temperature, rd.humidity);
          assert line == RowOf(rd);
          var _ := logger.WriteDataToCsv(line, rd.clock, rd.io);
          measurementTaken := true;
          fired := true;
        }
      } else {
        measurementTaken := false;
      }
    }
  }
}
