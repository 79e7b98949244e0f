/** The CSV logging state of main/sd_card.c: the open file (`csv_file`) and
    the time it was opened (`file_start_time`), rotated to a new file once a
    minute has passed, each new file starting with the column header.

    The volume is a map from path to contents. The clock reading
    (`time(NULL)` and its `localtime_r` fields) and whether `fopen`,
    `fprintf` and `fflush` succeed are inputs. */
module SdCard {
  import opened Common
  import opened Storage
  import opened TimeFormat

  const Header: string := "Date;Time;CO2_PPM;Temperatura;Umidade\n"

  /** Seconds after which `write_data_to_csv` starts a new file. */
  const RotationSeconds: int := 60

  /** A reading of the clock: `time(NULL)` and its local calendar fields. */
  datatype Clock = Clock(epoch: int, local: TimeFields)

  /** Whether `fopen`, the data `fprintf` and the data `fflush` succeed. */
  datatype IoOutcome = IoOutcome(openOk: bool, printOk: bool, flushOk: bool)

  /** `/sdcard/<YYYY-MM-DD_HHhMMm>.csv`, well within the 128-byte buffer. */
  function CsvPath(t: TimeFields): (p: string)
    requires Renderable(t)
    ensures |p| == 29 < 128 && p[..8] == "/sdcard/" && p[25..] == ".csv"
  {
    "/sdcard/" + FormatFileStamp(t) + ".csv"
  }

  /** The module state together with the volume. */
  datatype LogState = LogState(file: Option<string>, start: int, files: map<string, string>)

  /** `open_new_csv_file`: the open file is closed, the start time is taken,
      and the file named after the clock is created afresh (`"w"` truncates
      an existing one) holding only the header. */
  function OpenNew(st: LogState, clock: Clock, openOk: bool): (r: (LogState, EspErr))
    requires Renderable(clock.local)
  {
    var path := CsvPath(clock.local);
    if openOk then (LogState(Some(path), clock.epoch, st.files[path := Header]), EspOk)
    else (LogState(None, clock.epoch, st.files), EspFail)
  }

  /** The contents a file has for appending: none if it does not exist. */
  function ContentsOf(files: map<string, string>, path: string): string
  {
    if path in files then files[path] else ""
  }

  /** The write itself, once a file is (or is not) open: the data reaches the
      volume when both the `fprintf` and the `fflush` succeed. */
  function Append(st: LogState, data: string, io: IoOutcome): (r: (LogState, EspErr))
  {
    if st.file.None? then (st, EspFail)
    else if !io.printOk then (st, EspFail)
    else if !io.flushOk then (st, EspFail)
    else
      var p := st.file.value;
      (st.(files := st.files[p := ContentsOf(st.files, p) + data]), EspOk)
  }

  /** `write_data_to_csv`: open a file if none is open, rotate if the open one
      is a minute old, then append. A failed open ends the call. */
  function WriteData(st: LogState, data: string, clock: Clock, io: IoOutcome): (r: (LogState, EspErr))
    requires Renderable(clock.local)
  {
    var (st1, e1) := if st.file.None? then OpenNew(st, clock, io.openOk) else (st, EspOk);
    if e1 == EspFail then (st1, e1)
    else
      var (st2, e2) := if clock.epoch - st1.start >= RotationSeconds then OpenNew(st1, clock, io.openOk) else (st1, EspOk);
      if e2 == EspFail then (st2, e2)
      else Append(st2, data, io)
  }

  /** `close_current_file`. */
  function Close(st: LogState): LogState
  {
    st.(file := None)
  }

  /** The logger of main/sd_card.c over a volume. */
  class CsvLogger {
    var csvFile: Option<string>
    var fileStartTime: int
    const vol: Volume

    function State(): LogState
      reads this, vol
    {
      LogState(csvFile, fileStartTime, vol.files)
    }

    /** The module's initial state: no file, start time 0. */
    constructor (vol: Volume)
      ensures this.vol == vol && csvFile == None && fileStartTime == 0
    {
      this.vol := vol;
      csvFile := None;
      fileStartTime := 0;
    }

    method OpenNewCsvFile(clock: Clock, openOk: bool) returns (err: EspErr)
      requires Renderable(clock.local)
      modifies this, vol
      ensures (State(), err) == OpenNew(old(State()), clock, openOk)
    {
      if csvFile.Some? {
        csvFile := None;
      }
      var stamp := FormatFileStamp(clock.local);
      fileStartTime := clock.epoch;
      var path := "/sdcard/" + stamp + ".csv";
      if !openOk {
        return EspFail;
      }
      vol.files := vol.files[path := Header];
      csvFile := Some(path);
      return EspOk;
    }

    method WriteDataToCsv(data: string, clock: Clock, io: IoOutcome) returns (err: EspErr)
      requires Renderable(clock.local)
      modifies this, vol
      ensures (State(), err) == WriteData(old(State()), data, clock, io)
    {
      if csvFile.None? {
        var ret := OpenNewCsvFile(clock, io.openOk);
        if ret != EspOk {
          return ret;
        }
      }
      var currentTime := clock.epoch;
      if currentTime - fileStartTime >= RotationSeconds {
        var ret := OpenNewCsvFile(clock, io.openOk);
        if ret != EspOk {
          return ret;
        }
      }
      if csvFile.Some? {
        if !io.printOk {
          return EspFail;
        }
        if !io.flushOk {
          return EspFail;
        }
        var p := csvFile.value;
        vol.files := vol.files[p := ContentsOf(vol.files, p) + data];
        return EspOk;
      }
      return EspFail;
    }

    method CloseCurrentFile()
      modifies this
      ensures State() == Close(old(State()))
    {
      if csvFile.Some? {
        csvFile := None;
      }
    }
  }

  // ------------------------------------------------------- properties

  /** With no file open, a write opens the file named after the clock, which
      then holds the header followed by the data. */
  lemma FirstWriteStartsWithHeader(st: LogState, data: string, clock: Clock, io: IoOutcome)
    requires Renderable(clock.local) && st.file.None?
    requires io.openOk && io.printOk && io.flushOk
    ensures var (st', err) := WriteData(st, data, clock, io);
      err == EspOk && st'.file == Some(CsvPath(clock.local)) && st'.start == clock.epoch
      && st'.files == st.files[CsvPath(clock.local) := Header + data]
  {
  }

  /** A file younger than a minute is appended to in place; nothing else on
      the volume changes. */
  lemma YoungFileAppends(st: LogState, data: string, clock: Clock, io: IoOutcome)
    requires Renderable(clock.local) && st.file.Some?
    requires clock.epoch - st.start < RotationSeconds
    requires io.printOk && io.flushOk
    ensures var (st', err) := WriteData(st, data, clock, io);
      err == EspOk && st'.file == st.file && st'.start == st.start
      && st'.files == st.files[st.file.value := ContentsOf(st.files, st.file.value) + data]
  {
  }

  /** A file a minute old or more is left, and the data goes to a new file
      after its header. */
  lemma OldFileRotates(st: LogState, data: string, clock: Clock, io: IoOutcome)
    requires Renderable(clock.local) && st.file.Some?
    requires clock.epoch - st.start >= RotationSeconds
    requires io.openOk && io.printOk && io.flushOk
    ensures var (st', err) := WriteData(st, data, clock, io);
      err == EspOk && st'.file == Some(CsvPath(clock.local)) && st'.start == clock.epoch
      && st'.files == st.files[CsvPath(clock.local) := Header + data]
  {
  }

  /** When the open the write needs fails, the write reports failure, no file
      is open afterwards and the volume is untouched. */
  lemma FailedOpenDropsData(st: LogState, data: string, clock: Clock, io: IoOutcome)
    requires Renderable(clock.local) && !io.openOk
    requires st.file.None? || clock.epoch - st.start >= RotationSeconds
    ensures var (st', err) := WriteData(st, data, clock, io);
      err == EspFail && st'.file.None? && st'.files == st.files && st'.start == clock.epoch
  {
  }

  /** Whatever happens, a write changes at most the file that is open
      afterwards, and reports success only if the data was appended to it. */
  lemma WriteTouchesOneFile(st: LogState, data: string, clock: Clock, io: IoOutcome)
    requires Renderable(clock.local)
    ensures var (st', err) := WriteData(st, data, clock, io);
      && (forall p :: p in st.files && (st'.file.None? || p != st'.file.value) ==> p in st'.files && st'.files[p] == st.files[p])
      && (err == EspOk ==>
            && st'.file.Some? && st'.file.value in st'.files
            && |data| <= |st'.files[st'.file.value]|
            && st'.files[st'.file.value][|st'.files[st'.file.value]| - |data|..] == data)
  {
  }

  /** Every file the logger has open begins with the header, as long as only
      the logger writes to it. */
  ghost predicate HeaderInvariant(st: LogState)
  {
    st.file.Some? ==> st.file.value in st.files && Header <= st.files[st.file.value]
  }

  /** Every file in `made` is on the volume and begins with the header. */
  ghost predicate AllHeaded(files: map<string, string>, made: set<string>)
  {
    forall p :: p in made ==> p in files && Header <= files[p]
  }

  /** The files made so far, together with the one open in `st`. */
  ghost function WithOpen(made: set<string>, st: LogState): set<string>
  {
    if st.file.Some? then made + {st.file.value} else made
  }

  /** A write keeps the open file headed, and every file made before it,
      rotated away or not, keeps its header too; the file the write leaves
      open joins them. */
  lemma WritePreservesHeader(st: LogState, data: string, clock: Clock, io: IoOutcome, made: set<string>)
    requires Renderable(clock.local) && HeaderInvariant(st) && AllHeaded(st.files, made)
    ensures var st' := WriteData(st, data, clock, io).0;
      HeaderInvariant(st') && AllHeaded(st'.files, WithOpen(made, st'))
  {
    var st' := WriteData(st, data, clock, io).0;
    WriteTouchesOneFile(st, data, clock, io);
    assert HeaderInvariant(st');
    forall p | p in WithOpen(made, st')
      ensures p in st'.files && Header <= st'.files[p]
    {
      if st'.file.None? || p != st'.file.value {
        assert p in made && p in st.files;
      }
    }
  }

  /** Closing twice is closing once. */
  lemma CloseIdempotent(st: LogState)
    ensures Close(Close(st)) == Close(st) && Close(st).file.None?
    ensures Close(st).files == st.files
  {
  }
}
