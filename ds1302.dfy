/** The DS1302 driver in main/rtc.c: BCD conversion, the LSB-first bit-serial
    byte transfer, the chip's register file addressed through command bytes,
    and the routines that read and write the calendar registers.

    Bytes are `bv8`, so the truncation of `uint8_t` arithmetic is exact. The
    chip is a map keyed by the even (write) command address; a read command
    `reg | 1` and a write command `reg & 0xFE` reach the same register. Writes
    to any register but the write-protect register are ignored while its bit 7
    is set, as the DS1302 datasheet describes. Register addresses are kept as
    `int` map keys (the even command byte's value). */
module Ds1302 {
  import opened Common

  const SecondsReg: Byte := 0x80
  const MinutesReg: Byte := 0x82
  const HoursReg: Byte := 0x84
  const DateReg: Byte := 0x86
  const MonthReg: Byte := 0x88
  const DayReg: Byte := 0x8A
  const YearReg: Byte := 0x8C
  const WriteProtectReg: Byte := 0x8E

  /** Bit 7 of the seconds register: the oscillator is halted. */
  const ClockHalt: Byte := 0x80

  // ---------------------------------------------------------------- BCD

  /** `bcd_to_dec`: tens nibble times ten plus units nibble, the nibbles taken
      by shift and mask (see `BcdToDecByDivision` for the C spelling). */
  function BcdToDec(val: Byte): Byte
  {
    (val >> 4) * 10 + (val & 0x0F)
  }

  /** The nibbles are the quotient and remainder by 16 that `bcd_to_dec`
      computes, and the result never wraps past 255. */
  lemma BcdToDecByDivision(val: Byte)
    ensures BcdToDec(val) == val / 16 * 10 + val % 16
  {
  }

  /** `dec_to_bcd`: tens digit into the high nibble, units into the low one. */
  function DecToBcd(val: Byte): Byte
  {
    val / 10 * 16 + val % 10
  }

  /** Both nibbles are decimal digits. */
  predicate IsBcd(b: Byte)
  {
    b / 16 <= 9 && b % 16 <= 9
  }

  /** Every value 0..99 has a BCD form, and decoding it gives the value back. */
  lemma DecToBcdRoundTrip(v: Byte)
    requires v <= 99
    ensures IsBcd(DecToBcd(v))
    ensures BcdToDec(DecToBcd(v)) == v
  {
  }

  /** Every BCD byte denotes a value 0..99 whose encoding is that byte. */
  lemma BcdToDecRoundTrip(b: Byte)
    requires IsBcd(b)
    ensures BcdToDec(b) <= 99
    ensures DecToBcd(BcdToDec(b)) == b
  {
  }

  /** C's conversion of an `int` argument to a `uint8_t` parameter. */
  function ToByte(x: int): Byte
  {
    (x % 256) as Byte
  }

  lemma ToByteSmall(v: int)
    requires 0 <= v < 256
    ensures ToByte(v) as int == v
  {
  }

  // ------------------------------------------------- bit-serial transfer

  /** Level of bit `i` of `value`, as `(value >> i) & 1`. */
  function BitOf(value: Byte, i: nat): bv1
    requires i < 8
  {
    ((value >> i) & 1) as bv1
  }

  /** Two bytes that agree on all eight bits are equal. */
  lemma BitsDetermineByte(a: Byte, b: Byte)
    requires forall i :: 0 <= i < 8 ==> BitOf(a, i) == BitOf(b, i)
    ensures a == b
  {
    assert BitOf(a, 0) == BitOf(b, 0) && BitOf(a, 1) == BitOf(b, 1);
    assert BitOf(a, 2) == BitOf(b, 2) && BitOf(a, 3) == BitOf(b, 3);
    assert BitOf(a, 4) == BitOf(b, 4) && BitOf(a, 5) == BitOf(b, 5);
    assert BitOf(a, 6) == BitOf(b, 6) && BitOf(a, 7) == BitOf(b, 7);
  }

  /** `ds1302_write_byte`: the levels put on the IO pin, one per clock pulse,
      least significant bit first. */
  method WriteByte(value: Byte) returns (levels: seq<bv1>)
    ensures |levels| == 8
    ensures forall i :: 0 <= i < 8 ==> levels[i] == BitOf(value, i)
  {
    levels := [];
    for i := 0 to 8
      invariant |levels| == i
      invariant forall j :: 0 <= j < i ==> levels[j] == BitOf(value, j)
    {
      levels := levels + [((value >> i) & 1) as bv1];
    }
  }

  /** `ds1302_read_byte`: the level sampled before the i-th clock pulse
      becomes bit i of the result. */
  method ReadByte(levels: seq<bv1>) returns (value: Byte)
    requires |levels| == 8
    ensures forall i :: 0 <= i < 8 ==> BitOf(value, i) == levels[i]
  {
    value := 0;
    for i := 0 to 8
      invariant forall j :: 0 <= j < i ==> BitOf(value, j) == levels[j]
      invariant forall j :: i <= j < 8 ==> BitOf(value, j) == 0
    {
      var old_value := value;
      value := value | ((levels[i] as Byte) << i);
      forall j | 0 <= j < 8
        ensures BitOf(value, j) == if j == i then levels[i] else BitOf(old_value, j)
      {
        OrShiftedBit(old_value, levels[i], i, j);
      }
    }
  }

  /** Or-ing a single bit in at position `i` sets bit `i` and leaves the others. */
  lemma OrShiftedBit(v: Byte, b: bv1, i: nat, j: nat)
    requires i < 8 && j < 8
    requires BitOf(v, i) == 0
    ensures BitOf(v | ((b as Byte) << i), j) == if j == i then b else BitOf(v, j)
  {
  }

  /** One byte crossing the IO line: shifted out with `ds1302_write_byte` and
      sampled back with `ds1302_read_byte`, the receiver gets the byte that was
      sent. */
  method BusTransfer(value: Byte) returns (received: Byte)
    ensures received == value
  {
    var levels := WriteByte(value);
    received := ReadByte(levels);
    BitsDetermineByte(received, value);
  }

  // ------------------------------------------------------ register file

  /** One register write on the three-wire bus: the command byte and the data
      byte shifted out. */
  datatype Transfer = WriteCmd(cmd: Byte, data: Byte)

  /** The register a command byte addresses: bit 0 only selects read or write. */
  function RegKey(cmd: Byte): int
  {
    (cmd & 0xFE) as int
  }

  /** The register file holds a register for every command byte. */
  ghost predicate Complete(regs: map<int, Byte>)
  {
    forall c: Byte :: RegKey(c) in regs
  }

  predicate WriteProtected(regs: map<int, Byte>)
    requires RegKey(WriteProtectReg) in regs
  {
    regs[RegKey(WriteProtectReg)] & 0x80 != 0
  }

  /** The chip's response to a write command: the addressed register takes the
      data unless write protection is on and the target is not the
      write-protect register itself. */
  function ChipWrite(regs: map<int, Byte>, cmd: Byte, data: Byte): (r: map<int, Byte>)
    requires RegKey(WriteProtectReg) in regs
    ensures regs.Keys <= r.Keys
  {
    if RegKey(cmd) != RegKey(WriteProtectReg) && WriteProtected(regs) then regs
    else regs[RegKey(cmd) := data]
  }

  predicate HasTimeRegs(regs: map<int, Byte>)
  {
    && RegKey(SecondsReg) in regs && RegKey(MinutesReg) in regs && RegKey(HoursReg) in regs && RegKey(DateReg) in regs
    && RegKey(MonthReg) in regs && RegKey(DayReg) in regs && RegKey(YearReg) in regs && RegKey(WriteProtectReg) in regs
  }

  predicate Halted(regs: map<int, Byte>)
    requires RegKey(SecondsReg) in regs
  {
    regs[RegKey(SecondsReg)] & ClockHalt != 0
  }

  // --------------------------------------------------------- time codec

  /** What `read_time_from_ds1302` makes of the calendar registers: nothing when
      the clock is halted, otherwise each field decoded from BCD after masking
      off the control bits, month and weekday shifted to start at 0 and the
      two-digit year counted from 1900. */
  function DecodeTime(regs: map<int, Byte>): Option<TimeFields>
    requires HasTimeRegs(regs)
  {
    if Halted(regs) then None
    else Some(DecodeFields(regs[RegKey(SecondsReg)], regs[RegKey(MinutesReg)], regs[RegKey(HoursReg)],
      regs[RegKey(DateReg)], regs[RegKey(MonthReg)], regs[RegKey(DayReg)], regs[RegKey(YearReg)]))
  }

  /** The per-field decoding of `read_time_from_ds1302`. */
  function DecodeFields(sec: Byte, min: Byte, hour: Byte, date: Byte, month: Byte, day: Byte, year: Byte): TimeFields
  {
    TimeFields(
      sec := BcdToDec(sec & 0x7F) as int,
      min := BcdToDec(min & 0x7F) as int,
      hour := BcdToDec(hour & 0x3F) as int,
      mday := BcdToDec(date & 0x3F) as int,
      mon := BcdToDec(month & 0x1F) as int - 1,
      year := BcdToDec(year) as int + 100,
      wday := BcdToDec(day & 0x07) as int - 1)
  }

  /** The data bytes `set_time_on_ds1302` sends, in order: write protection off,
      each calendar field in BCD from the year down to the seconds (weekday and
      month counted from 1, the year modulo 100, the halt bit of the seconds
      cleared), write protection on. */
  function SetTimeData(t: TimeFields): (d: seq<Byte>)
    ensures |d| == 9
  {
    [ 0x00,
      DecToBcd(ToByte(t.year - 100)),
      DecToBcd(ToByte(t.wday + 1)),
      DecToBcd(ToByte(t.mon + 1)),
      DecToBcd(ToByte(t.mday)),
      DecToBcd(ToByte(t.hour)),
      DecToBcd(ToByte(t.min)),
      DecToBcd(ToByte(t.sec)) & 0x7F,
      0x80 ]
  }

  /** The register transfers of `set_time_on_ds1302`: every calendar write is
      bracketed by clearing and setting write protection, and the seconds byte
      never sets the clock-halt bit. */
  function SetTimeWrites(t: TimeFields): (ws: seq<Transfer>)
    ensures |ws| == 9
    ensures ws[0] == WriteCmd(WriteProtectReg, 0x00)
    ensures ws[8] == WriteCmd(WriteProtectReg, 0x80)
    ensures forall i :: 1 <= i < 8 ==> ws[i].cmd & 1 == 0 && ws[i].cmd != WriteProtectReg
    ensures ws[7].cmd == SecondsReg && ws[7].data & ClockHalt == 0
  {
    var d := SetTimeData(t);
    [ WriteCmd(WriteProtectReg, d[0]), WriteCmd(YearReg, d[1]), WriteCmd(DayReg, d[2]),
      WriteCmd(MonthReg, d[3]), WriteCmd(DateReg, d[4]), WriteCmd(HoursReg, d[5]),
      WriteCmd(MinutesReg, d[6]), WriteCmd(SecondsReg, d[7]), WriteCmd(WriteProtectReg, d[8]) ]
  }

  /** The chip's response to the nine writes of `SetTimeWrites` carrying `d`. */
  function WriteCalendar(regs: map<int, Byte>, d: seq<Byte>): (r: map<int, Byte>)
    requires RegKey(WriteProtectReg) in regs && |d| == 9
    ensures regs.Keys <= r.Keys
  {
    var r1 := ChipWrite(regs, WriteProtectReg, d[0]);
    var r2 := ChipWrite(r1, YearReg, d[1]);
    var r3 := ChipWrite(r2, DayReg, d[2]);
    var r4 := ChipWrite(r3, MonthReg, d[3]);
    var r5 := ChipWrite(r4, DateReg, d[4]);
    var r6 := ChipWrite(r5, HoursReg, d[5]);
    var r7 := ChipWrite(r6, MinutesReg, d[6]);
    var r8 := ChipWrite(r7, SecondsReg, d[7]);
    ChipWrite(r8, WriteProtectReg, d[8])
  }

  /** Nine single writes in the order of `set_time_on_ds1302` make up
      `WriteCalendar`. */
  lemma WriteCalendarSteps(r0: map<int, Byte>, r1: map<int, Byte>, r2: map<int, Byte>,
                           r3: map<int, Byte>, r4: map<int, Byte>, r5: map<int, Byte>,
                           r6: map<int, Byte>, r7: map<int, Byte>, r8: map<int, Byte>,
                           r9: map<int, Byte>, d: seq<Byte>)
    requires RegKey(WriteProtectReg) in r0 && |d| == 9
    requires r1 == ChipWrite(r0, WriteProtectReg & 0xFE, d[0])
    requires r2 == ChipWrite(r1, 0x8C & 0xFE, d[1])
    requires r3 == ChipWrite(r2, 0x8A & 0xFE, d[2])
    requires r4 == ChipWrite(r3, 0x88 & 0xFE, d[3])
    requires r5 == ChipWrite(r4, 0x86 & 0xFE, d[4])
    requires r6 == ChipWrite(r5, 0x84 & 0xFE, d[5])
    requires r7 == ChipWrite(r6, 0x82 & 0xFE, d[6])
    requires r8 == ChipWrite(r7, 0x80 & 0xFE, d[7])
    requires r9 == ChipWrite(r8, WriteProtectReg & 0xFE, d[8])
    ensures r9 == WriteCalendar(r0, d)
  {
  }

  /** Nine single appends in the order of `set_time_on_ds1302` make up its
      transfers. */
  lemma WriteCalendarLog(l0: seq<Transfer>, l1: seq<Transfer>, l2: seq<Transfer>,
                         l3: seq<Transfer>, l4: seq<Transfer>, l5: seq<Transfer>,
                         l6: seq<Transfer>, l7: seq<Transfer>, l8: seq<Transfer>,
                         l9: seq<Transfer>, t: TimeFields)
    requires var d := SetTimeData(t);
      && l1 == l0 + [WriteCmd(WriteProtectReg & 0xFE, d[0])]
      && l2 == l1 + [WriteCmd(0x8C & 0xFE, d[1])]
      && l3 == l2 + [WriteCmd(0x8A & 0xFE, d[2])]
      && l4 == l3 + [WriteCmd(0x88 & 0xFE, d[3])]
      && l5 == l4 + [WriteCmd(0x86 & 0xFE, d[4])]
      && l6 == l5 + [WriteCmd(0x84 & 0xFE, d[5])]
      && l7 == l6 + [WriteCmd(0x82 & 0xFE, d[6])]
      && l8 == l7 + [WriteCmd(0x80 & 0xFE, d[7])]
      && l9 == l8 + [WriteCmd(WriteProtectReg & 0xFE, d[8])]
    ensures l9 == l0 + SetTimeWrites(t)
  {
  }

  /** The register file after `set_time_on_ds1302(t)`. */
  function EncodeTime(regs: map<int, Byte>, t: TimeFields): (r: map<int, Byte>)
    requires RegKey(WriteProtectReg) in regs
    ensures regs.Keys <= r.Keys
  {
    WriteCalendar(regs, SetTimeData(t))
  }

  /** The fields the DS1302 can hold in 24-hour mode. */
  predicate TimeInRange(t: TimeFields)
  {
    && 0 <= t.sec < 60 && 0 <= t.min < 60 && 0 <= t.hour < 24
    && 1 <= t.mday <= 31 && 0 <= t.mon <= 11 && 0 <= t.wday <= 6
    && 100 <= t.year <= 199
  }

  /** Writing a time to the chip and reading it back gives the same fields,
      whatever the register file held before, write protection included. */
  lemma TimeRoundTrip(regs: map<int, Byte>, t: TimeFields)
    requires HasTimeRegs(regs)
    requires TimeInRange(t)
    ensures HasTimeRegs(EncodeTime(regs, t))
    ensures DecodeTime(EncodeTime(regs, t)) == Some(t)
  {
    var m := EncodeTime(regs, t);
    WriteCalendarRegisters(regs, SetTimeData(t));
    TimeDataRoundTrip(t);
    assert DecodeTime(m) == Some(t);
  }

  /** Where each data byte of `set_time_on_ds1302` lands in the register file. */
  lemma WriteCalendarRegisters(regs: map<int, Byte>, d: seq<Byte>)
    requires HasTimeRegs(regs) && |d| == 9 && d[0] == 0x00
    ensures var m := WriteCalendar(regs, d);
      && HasTimeRegs(m)
      && m[RegKey(YearReg)] == d[1] && m[RegKey(DayReg)] == d[2] && m[RegKey(MonthReg)] == d[3]
      && m[RegKey(DateReg)] == d[4] && m[RegKey(HoursReg)] == d[5] && m[RegKey(MinutesReg)] == d[6]
      && m[RegKey(SecondsReg)] == d[7]
  {
    WriteCalendarStores(regs, d);
  }

  /** Each data byte of `set_time_on_ds1302` decodes back to its field under
      the mask `read_time_from_ds1302` applies, and the seconds byte leaves
      the clock running. */
  lemma TimeDataRoundTrip(t: TimeFields)
    requires TimeInRange(t)
    ensures var d := SetTimeData(t);
      && BcdToDec(d[1]) as int == t.year - 100
      && BcdToDec(d[2] & 0x07) as int == t.wday + 1
      && BcdToDec(d[3] & 0x1F) as int == t.mon + 1
      && BcdToDec(d[4] & 0x3F) as int == t.mday
      && BcdToDec(d[5] & 0x3F) as int == t.hour
      && BcdToDec(d[6] & 0x7F) as int == t.min
      && BcdToDec(d[7] & 0x7F) as int == t.sec && d[7] & ClockHalt == 0
  {
    FieldRoundTrip(t.year - 100, 0xFF, 99);
    FieldRoundTrip(t.wday + 1, 0x07, 7);
    FieldRoundTrip(t.mon + 1, 0x1F, 12);
    FieldRoundTrip(t.mday, 0x3F, 31);
    FieldRoundTrip(t.hour, 0x3F, 23);
    FieldRoundTrip(t.min, 0x7F, 59);
    FieldRoundTrip(t.sec, 0x7F, 59);
    SecondsMask(DecToBcd(ToByte(t.sec)));
  }

  /** Clearing the halt bit twice is clearing it once, and leaves it clear. */
  lemma SecondsMask(b: Byte)
    ensures (b & 0x7F) & 0x7F == b & 0x7F && (b & 0x7F) & ClockHalt == 0
  {
  }

  /** Because the first write lifts write protection, every calendar register
      ends up holding its byte, and write protection is set again. */
  lemma WriteCalendarStores(regs: map<int, Byte>, d: seq<Byte>)
    requires RegKey(WriteProtectReg) in regs && |d| == 9 && d[0] == 0x00
    ensures WriteCalendar(regs, d) == regs[RegKey(WriteProtectReg) := 0x00]
      [RegKey(YearReg) := d[1]][RegKey(DayReg) := d[2]][RegKey(MonthReg) := d[3]]
      [RegKey(DateReg) := d[4]][RegKey(HoursReg) := d[5]][RegKey(MinutesReg) := d[6]]
      [RegKey(SecondsReg) := d[7]][RegKey(WriteProtectReg) := d[8]]
  {
  }

  /** A field of at most `maxv` stored in BCD survives the read mask `mask`. */
  lemma FieldRoundTrip(v: int, mask: Byte, maxv: Byte)
    requires 0 <= v <= maxv as int
    requires (mask, maxv) in {(0xFF, 99), (0x7F, 59), (0x3F, 31), (0x3F, 23), (0x1F, 12), (0x07, 7)}
    ensures BcdToDec(DecToBcd(ToByte(v)) & mask) as int == v
  {
    var b := ToByte(v);
    ToByteSmall(v);
    assert b <= maxv;
    DecToBcdRoundTrip(b);
    assert DecToBcd(b) & mask == DecToBcd(b);
  }

  // ------------------------------------------------- the chip on the bus

  /** The calendar fields of a C `struct tm` the driver fills in or reads. */
  class Tm {
    var sec: int
    var min: int
    var hour: int
    var mday: int
    var mon: int
    var year: int
    var wday: int
    var isdst: int

    /** `struct tm t = {0};` */
    constructor ()
      ensures Fields() == TimeFields(0, 0, 0, 0, 0, 0, 0) && isdst == 0
    {
      sec, min, hour, mday, mon, year, wday, isdst := 0, 0, 0, 0, 0, 0, 0, 0;
    }

    function Fields(): TimeFields
      reads this
    {
      TimeFields(sec, min, hour, mday, mon, year, wday)
    }
  }

  /** A DS1302 seen from the ESP32: its register file and the register
      writes made so far over the three-wire bus. */
  class Chip {
    var regs: map<int, Byte>
    var log: seq<Transfer>

    constructor (initial: map<int, Byte>)
      requires Complete(initial)
      ensures regs == initial && log == []
    {
      regs := initial;
      log := [];
    }

    /** `ds1302_write_reg`: the command byte `reg & 0xFE` and then the data
        byte are shifted out; the chip stores the data as `ChipWrite` says. */
    method WriteReg(reg: Byte, value: Byte)
      requires Complete(regs)
      modifies this
      ensures Complete(regs)
      ensures regs == ChipWrite(old(regs), reg & 0xFE, value)
      ensures log == old(log) + [WriteCmd(reg & 0xFE, value)]
    {
      var cmd := BusTransfer(reg & 0xFE);
      var data := BusTransfer(value);
      regs := ChipWrite(regs, cmd, data);
      log := log + [WriteCmd(cmd, data)];
    }

    /** `ds1302_read_reg`: the command byte `reg | 1` is shifted out and the
        chip shifts back the register it addresses; reading changes nothing. */
    method ReadReg(reg: Byte) returns (value: Byte)
      requires Complete(regs)
      ensures value == regs[RegKey(reg | 1)]
    {
      var cmd := BusTransfer(reg | 1);
      value := BusTransfer(regs[RegKey(cmd)]);
    }

    /** `read_time_from_ds1302`: false with `t` untouched when `t` is null or
        the clock is halted; otherwise `t` holds the decoded calendar and
        `isdst` is -1. The chip itself is not changed. */
    method ReadTime(t: Tm?) returns (ok: bool)
      requires Complete(regs)
      modifies t
      ensures ok <==> t != null && DecodeTime(regs).Some?
      ensures ok ==> DecodeTime(regs) == Some(t.Fields()) && t.isdst == -1
      ensures !ok && t != null ==> unchanged(t)
    {
      if t == null {
        return false;
      }
      assert HasTimeRegs(regs);
      var secReg := ReadReg(0x81);
      if secReg & 0x80 != 0 {
        return false;
      }
      var minReg := ReadReg(0x83);
      var hourReg := ReadReg(0x85);
      var dateReg := ReadReg(0x87);
      var monthReg := ReadReg(0x89);
      var dayReg := ReadReg(0x8B);
      var yearReg := ReadReg(0x8D);
      var f := DecodeFields(secReg, minReg, hourReg, dateReg, monthReg, dayReg, yearReg);
      assert DecodeTime(regs) == Some(f);
      t.sec, t.min, t.hour, t.mday, t.mon, t.year, t.wday := f.sec, f.min, f.hour, f.mday, f.mon, f.year, f.wday;
      t.isdst := -1;
      ok := true;
    }

    /** `set_time_on_ds1302`: the nine register writes of `SetTimeWrites`,
        leaving the register file as `EncodeTime` says. The `const struct tm *`
        argument is passed as its field values. */
    method SetTime(t: TimeFields)
      requires Complete(regs)
      modifies this
      ensures Complete(regs)
      ensures regs == EncodeTime(old(regs), t)
      ensures log == old(log) + SetTimeWrites(t)
    {
      var d := SetTimeData(t);
      ghost var r0, l0 := regs, log;
      WriteReg(WriteProtectReg, d[0]);
      ghost var r1, l1 := regs, log;
      WriteReg(0x8C, d[1]);
      ghost var r2, l2 := regs, log;
      WriteReg(0x8A, d[2]);
      ghost var r3, l3 := regs, log;
      WriteReg(0x88, d[3]);
      ghost var r4, l4 := regs, log;
      WriteReg(0x86, d[4]);
      ghost var r5, l5 := regs, log;
      WriteReg(0x84, d[5]);
      ghost var r6, l6 := regs, log;
      WriteReg(0x82, d[6]);
      ghost var r7, l7 := regs, log;
      WriteReg(0x80, d[7]);
      ghost var r8, l8 := regs, log;
      WriteReg(WriteProtectReg, d[8]);
      WriteCalendarSteps(r0, r1, r2, r3, r4, r5, r6, r7, r8, regs, d);
      WriteCalendarLog(l0, l1, l2, l3, l4, l5, l6, l7, l8, log, t);
    }
  }

  /** Setting the chip's time from `t` and reading it back fills `back` with
      the fields of `t`, for any time the chip can hold. */
  method SetThenRead(chip: Chip, t: TimeFields, back: Tm) returns (ok: bool)
    requires Complete(chip.regs) && TimeInRange(t)
    modifies chip, back
    ensures ok && back.Fields() == t
  {
    chip.SetTime(t);
    ok := chip.ReadTime(back);
    TimeRoundTrip(old(chip.regs), t);
  }
}
