/** The boot-time logic of main/rtc.c around the DS1302: the first-boot flag
    kept in non-volatile storage, the month lookup of the compile-time
    parser, writing a given time to the chip, and the decisions of
    `initialize_rtc` on whether to rewrite the chip and whether to take its
    time as the system time.

    The wake-up cause, the outcome of opening and committing the NVS
    namespace, the already-split compile stamp and the weekday that
    `mktime`/`localtime_r` would compute are inputs. */
module RtcBoot {
  import opened Common
  import opened Ds1302

  /** `esp_sleep_wakeup_cause_t`: `Undefined` is a power-on or reset, every
      other cause a wake from deep sleep. */
  datatype WakeCause = Undefined | Ext0 | Ext1 | Timer | Touchpad | Ulp | Gpio | Uart

  /** The key of the first-boot flag in the "rtc_config" namespace. */
  const InitKey: string := "rtc_init"

  /** The "rtc_config" NVS namespace: blob keys and their bytes. */
  class FlagStore {
    var blobs: map<string, seq<Byte>>

    constructor (initial: map<string, seq<Byte>>)
      ensures blobs == initial
    {
      blobs := initial;
    }
  }

  /** What `is_first_boot` answers for a store holding `blobs`. */
  function FirstBoot(blobs: map<string, seq<Byte>>, wake: WakeCause, openOk: bool): bool
  {
    wake == Undefined && (!openOk || InitKey !in blobs)
  }

  /** The store after `is_first_boot`: the flag is stored when it was missing
      and the set and commit succeeded. */
  function FlagAfter(blobs: map<string, seq<Byte>>, wake: WakeCause, openOk: bool, persistOk: bool): map<string, seq<Byte>>
  {
    if wake == Undefined && openOk && InitKey !in blobs && persistOk then blobs[InitKey := [1]]
    else blobs
  }

  /** `is_first_boot`: not a first boot after a deep-sleep wake; a first boot
      when the namespace cannot be opened; otherwise a first boot exactly when
      the flag is missing, in which case it is stored (`persistOk` says
      whether `nvs_set_blob` and `nvs_commit` succeeded; their results are
      ignored). */
  method IsFirstBoot(store: FlagStore, wake: WakeCause, openOk: bool, persistOk: bool) returns (first: bool)
    modifies store
    ensures first == FirstBoot(old(store.blobs), wake, openOk)
    ensures store.blobs == FlagAfter(old(store.blobs), wake, openOk, persistOk)
  {
    if wake != Undefined {
      return false;
    }
    if !openOk {
      return true;
    }
    if InitKey !in store.blobs {
      if persistOk {
        store.blobs := store.blobs[InitKey := [1]];
      }
      return true;
    }
    return false;
  }

  /** Once the flag is stored, a later power-on is no longer a first boot as
      long as the namespace opens; main/main.c calls `initialize_rtc` twice,
      and the second call sees the flag the first stored. */
  lemma SecondBootNotFirst(blobs: map<string, seq<Byte>>, wake: WakeCause, openOk: bool)
    requires openOk
    ensures !FirstBoot(FlagAfter(blobs, Undefined, true, true), wake, openOk)
    ensures FirstBoot(blobs, Undefined, true) ==> FlagAfter(blobs, Undefined, true, true)[InitKey] == [1]
  {
  }

  // ------------------------------------------------------ compile time

  /** The month abbreviations `__DATE__` uses. */
  const Months: seq<string> :=
    ["Jan", "Feb", "Mar", "Apr", "May", "Jun", "Jul", "Aug", "Sep", "Oct", "Nov", "Dec"]

  /** The month index `set_compile_time_to_rtc` assigns: the position of the
      first abbreviation equal to `abbr`, or 0 (the zeroed `tm_mon`) when none
      is. */
  function MonthNumber(abbr: string): (m: int)
    ensures 0 <= m < 12
    ensures abbr in Months ==> Months[m] == abbr
    ensures abbr !in Months ==> m == 0
  {
    MonthFrom(abbr, 0)
  }

  function MonthFrom(abbr: string, i: nat): (m: int)
    requires i <= 12
    ensures 0 <= m < 12
    ensures abbr in Months[i..] ==> Months[m] == abbr
    ensures abbr !in Months[i..] ==> m == 0
    decreases 12 - i
  {
    if i == 12 then 0
    else if Months[i] == abbr then i
    else MonthFrom(abbr, i + 1)
  }

  /** The month loop of `set_compile_time_to_rtc`: compare against each
      abbreviation in turn and stop at the first match. */
  method LookupMonth(abbr: string) returns (mon: int)
    ensures mon == MonthNumber(abbr)
  {
    mon := 0;
    var i := 0;
    while i < 12
      invariant 0 <= i <= 12
      invariant MonthFrom(abbr, i) == MonthNumber(abbr)
      invariant mon == 0
    {
      if Months[i] == abbr {
        mon := i;
        break;
      }
      i := i + 1;
    }
  }

  /** `__DATE__` and `__TIME__` after `sscanf`: the month abbreviation and the
      numbers, the year in full. */
  datatype CompileStamp = CompileStamp(month: string, day: int, year: int, hour: int, minute: int, second: int)

  /** The `struct tm` `set_compile_time_to_rtc` hands to the chip: the year
      counted from 1900, the month looked up, the weekday as `mktime` fills
      it in (given here). */
  function CompileFields(c: CompileStamp, wday: int): (t: TimeFields)
    ensures t.year + 1900 == c.year && t.mday == c.day
    ensures t.hour == c.hour && t.min == c.minute && t.sec == c.second
    ensures 0 <= t.mon < 12 && (c.month in Months ==> Months[t.mon] == c.month)
  {
    TimeFields(sec := c.second, min := c.minute, hour := c.hour, mday := c.day,
               mon := MonthNumber(c.month), year := c.year - 1900, wday := wday)
  }

  /** `set_compile_time_to_rtc`. */
  method SetCompileTimeToRtc(chip: Chip, c: CompileStamp, wday: int)
    requires Complete(chip.regs)
    modifies chip
    ensures Complete(chip.regs)
    ensures chip.regs == EncodeTime(old(chip.regs), CompileFields(c, wday))
    ensures chip.log == old(chip.log) + SetTimeWrites(CompileFields(c, wday))
  {
    var mon := LookupMonth(c.month);
    var t := TimeFields(sec := c.second, min := c.minute, hour := c.hour, mday := c.day,
                        mon := mon, year := c.year - 1900, wday := wday);
    assert t == CompileFields(c, wday);
    chip.SetTime(t);
  }

  /** The `struct tm` `set_manual_time_rtc` hands to the chip. */
  function ManualFields(year: int, month: int, day: int, hour: int, minute: int, second: int, wday: int): (t: TimeFields)
    ensures t.year + 1900 == year && t.mon + 1 == month && t.mday == day
    ensures t.hour == hour && t.min == minute && t.sec == second && t.wday == wday
  {
    TimeFields(sec := second, min := minute, hour := hour, mday := day,
               mon := month - 1, year := year - 1900, wday := wday)
  }

  /** `set_manual_time_rtc`. */
  method SetManualTimeRtc(chip: Chip, year: int, month: int, day: int, hour: int, minute: int, second: int, wday: int)
    requires Complete(chip.regs)
    modifies chip
    ensures Complete(chip.regs)
    ensures chip.regs == EncodeTime(old(chip.regs), ManualFields(year, month, day, hour, minute, second, wday))
    ensures chip.log == old(chip.log) + SetTimeWrites(ManualFields(year, month, day, hour, minute, second, wday))
  {
    chip.SetTime(TimeFields(sec := second, min := minute, hour := hour, mday := day,
                            mon := month - 1, year := year - 1900, wday := wday));
  }

  /** A manual time in this century, written to the chip, reads back as the
      year, month, day, hour, minute and second that were given, with the
      year counted from 1900 and the month from 0 as `struct tm` has them. */
  lemma ManualTimeRoundTrip(regs: map<int, Byte>, year: int, month: int, day: int,
                            hour: int, minute: int, second: int, wday: int)
    requires HasTimeRegs(regs)
    requires 2000 <= year <= 2099 && 1 <= month <= 12 && 1 <= day <= 31
    requires 0 <= hour < 24 && 0 <= minute < 60 && 0 <= second < 60 && 0 <= wday <= 6
    ensures var r := DecodeTime(EncodeTime(regs, ManualFields(year, month, day, hour, minute, second, wday)));
      && r.Some?
      && r.value.year == year - 1900 && r.value.mon == month - 1 && r.value.mday == day
      && r.value.hour == hour && r.value.min == minute && r.value.sec == second && r.value.wday == wday
  {
    TimeRoundTrip(regs, ManualFields(year, month, day, hour, minute, second, wday));
  }

  // ---------------------------------------------------- initialize_rtc

  /** The system time `initialize_rtc` sets from a read of the chip: only a
      successful read whose year is after 2000. */
  function SyncedTime(read: Option<TimeFields>): (r: Option<TimeFields>)
    ensures r.Some? <==> read.Some? && read.value.year > 100
    ensures r.Some? ==> r == read
  {
    if read.Some? && read.value.year > 100 then read else None
  }

  /** The register file after `initialize_rtc`: rewritten with the compile
      time when the clock was halted or this is a first boot, kept otherwise. */
  function RegsAfterInit(regs: map<int, Byte>, first: bool, t: TimeFields): map<int, Byte>
    requires HasTimeRegs(regs)
  {
    if Halted(regs) || first then EncodeTime(regs, t) else regs
  }

  /** `initialize_rtc` past NVS and GPIO set-up: check the halt bit, ask
      `is_first_boot` (always, even when halted), rewrite the chip with the
      compile time if either holds, then read the chip back and return the
      time set as system time, if any. */
  method InitializeRtc(chip: Chip, store: FlagStore, wake: WakeCause, openOk: bool, persistOk: bool,
                       c: CompileStamp, wday: int) returns (system: Option<TimeFields>)
    requires Complete(chip.regs)
    modifies chip, store
    ensures Complete(chip.regs)
    ensures var first := FirstBoot(old(store.blobs), wake, openOk);
      HasTimeRegs(old(chip.regs)) && chip.regs == RegsAfterInit(old(chip.regs), first, CompileFields(c, wday))
    ensures var first := FirstBoot(old(store.blobs), wake, openOk);
      HasTimeRegs(old(chip.regs))
      && chip.log == old(chip.log) + (if Halted(old(chip.regs)) || first then SetTimeWrites(CompileFields(c, wday)) else [])
    ensures store.blobs == FlagAfter(old(store.blobs), wake, openOk, persistOk)
    ensures HasTimeRegs(chip.regs) && system == SyncedTime(DecodeTime(chip.regs))
  {
    ghost var regs0 := chip.regs;
    ghost var log0 := chip.log;
    assert HasTimeRegs(regs0);
    var secReg := chip.ReadReg(0x81);
    var halted := secReg & 0x80 != 0;
    assert halted == Halted(regs0);
    var first := IsFirstBoot(store, wake, openOk, persistOk);
    if halted || first {
      SetCompileTimeToRtc(chip, c, wday);
    }
    assert chip.regs == RegsAfterInit(regs0, first, CompileFields(c, wday));
    assert chip.log == log0 + (if halted || first then SetTimeWrites(CompileFields(c, wday)) else []);
    system := ReadSystemTime(chip);
  }

  /** The tail of `initialize_rtc`: read the chip into a fresh `struct tm`
      and keep it as system time only when the read succeeds with a year
      after 2000. */
  method ReadSystemTime(chip: Chip) returns (system: Option<TimeFields>)
    requires Complete(chip.regs)
    ensures HasTimeRegs(chip.regs) && system == SyncedTime(DecodeTime(chip.regs))
  {
    var tm := new Tm();
    var ok := chip.ReadTime(tm);
    assert HasTimeRegs(chip.regs);
    if ok && tm.year > 100 {
      system := Some(tm.Fields());
    } else {
      system := None;
    }
  }

  /** On a first boot with a compile stamp the chip can hold, the system time
      becomes exactly the compile time, provided the build is after 2000. */
  lemma FirstBootSyncsCompileTime(regs: map<int, Byte>, c: CompileStamp, wday: int)
    requires HasTimeRegs(regs)
    requires TimeInRange(CompileFields(c, wday))
    ensures var after := RegsAfterInit(regs, true, CompileFields(c, wday));
      HasTimeRegs(after)
      && SyncedTime(DecodeTime(after)) == (if c.year > 2000 then Some(CompileFields(c, wday)) else None)
  {
    TimeRoundTrip(regs, CompileFields(c, wday));
  }

  /** A running chip holding year 2000 is never taken as the system time,
      although the chip can hold it. */
  lemma Year2000NotSynced(regs: map<int, Byte>)
    requires HasTimeRegs(regs) && !Halted(regs)
    requires regs[RegKey(YearReg)] == 0x00
    ensures DecodeTime(regs).Some? && DecodeTime(regs).value.year == 100
    ensures SyncedTime(DecodeTime(regs)) == None
  {
  }
}
