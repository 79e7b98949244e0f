# CO2 meter firmware (ESP32) — verified model of its core

This project models the logic of the ESP32 firmware of a CO₂ meter. The
firmware reads an MH-Z19-style sensor over a UART at fixed times of day. It
keeps the date and time in a DS1302 real-time clock, logs one CSV row per
measurement on an SD card, and serves the logged files over HTTP. The
model covers four pieces of that firmware:

- `co2_task.dfy` (module `Co2Task`) models one pass of the acquisition loop of `co2_sensor_task`:
  - the hour window and the minute schedule, with the test-mode seconds schedule as a flag;
  - the `measurement_taken_for_this_slot` latch;
  - decoding 61 UART responses into an `int` array;
  - the median taken by sorting the whole array in place and reading index 30;
  - the CSV row and the call to the logger.
  The class `Station` holds the latch. `Station.Tick` is one loop pass.
- `qsort.dfy` (module `QSort`) models the comparator `comparar_inteiros` with the two's-complement wrap-around the compiled 32-bit subtraction produces (C leaves the overflow undefined), and the in-place sort `qsort` performs on the sample array. The sort is a method on an `array<int>`, proved against a specification function `Sort`, a sorted permutation that is shown to be unique.
- `ds1302.dfy` (module `Ds1302`) models the DS1302 driver of `main/rtc.c`:
  - the BCD codec;
  - the LSB-first bit-serial writer and reader;
  - the chip as a class holding a register file keyed by the even (write) address, plus the log of bytes shifted out;
  - `read_time_from_ds1302` and `set_time_on_ds1302`.
- `rtc_boot.dfy` (module `RtcBoot`) models the boot logic of `main/rtc.c`:
  - the first-boot flag in NVS, as a class holding a blob map;
  - the compile-time month lookup and manual time setting;
  - the decisions of `initialize_rtc`.
- `time_format.dfy` (module `TimeFormat`) models the fixed-width `strftime` renderings `YYYY-MM-DD`, `HH:MM:SS` and `YYYY-MM-DD_HHhMMm` of given fields, with parsers that invert them.
- `sd_card.dfy` (module `SdCard`) models the CSV rotation of `main/sd_card.c`:
  - the module state (`csv_file`, `file_start_time`) as the fields of class `CsvLogger`;
  - the card as a `Storage.Volume`, a map from path to contents;
  - `fopen`, `fprintf` and `fflush` outcomes as inputs.
- `http_server.dfy` (module `HttpServer`) models the name and path handling of `file_delete_handler` and `file_get_handler`:
  - the `strncpy` copies into fixed `char` arrays;
  - the in-place NUL written over `?`;
  - the 400, 414, 303 and 404 decisions;
  - the basename and `Content-Disposition` of a download.
- `common.dfy` and `storage.dfy` hold the shared types: `Option`, bytes, `esp_err_t`, the calendar fields of a `struct tm`, and the volume.

Where the code and the firmware's design notes disagree, the model follows
the code:
- The response checksum is not checked, and no range check is made.
- The median is index 30 of all 61 sorted entries, the −1 markers of failed reads included. It is not the middle of the valid samples only.
- No mutex guards the readings, and no power modes are switched.

The headers disagree with the definitions, and the model follows the `.c` definitions:
- `main/rtc.h:7-8` declares the two time formatters without their buffer lengths.
- `main/sd_card.h:8` declares `write_data_to_csv` as returning `void`; `main/sd_card.c:116` returns `esp_err_t`.

The sort performed by the C library's `qsort` is not part of this model. It
is modelled as an in-place insertion sort with the same comparator, and
what is proved is the `qsort` contract: the array afterwards is the sorted
permutation of its old contents. Because that arrangement is unique (`QSort.SortedUnique`), any correct `qsort` produces the same array.

## Model

| member | source | states |
|---|---|---|
| Co2Task.ReadCommandChecksum | main/co2_sensor_task.c:95 | the last byte 0x79 of the fixed read command is the sensor checksum (0xFF − sum of bytes 1..7 + 1) mod 256 of the frame |
| Co2Task.HourWindowHours | main/co2_sensor_task.c:65-67 | the hour window holds for exactly the hours {7,8,9,11,12,13,16,17,18} |
| Co2Task.MinuteScheduleMinutes | main/co2_sensor_task.c:68 | the minute schedule holds for exactly the minutes 0 and 30 |
| Co2Task.FiresOnSlotEntry | main/co2_sensor_task.c:71-140 | along any run of ticks, tick i fires exactly when it is due (window and schedule, or the test-mode seconds) and the previous tick was not due (or, for the first tick, the latch was clear) |
| Co2Task.OncePerSlot | main/co2_sensor_task.c:136-140 | within a run of ticks that are all due, no tick after the first fires |
| Co2Task.SampleOf | main/co2_sensor_task.c:102-107 | a response of exactly 9 bytes gives byte 2 × 256 + byte 3, any other length gives −1, and every sample lies in −1..65535 |
| Co2Task.CollectSamples | main/co2_sensor_task.c:93-109 | fills a new 61-entry array with the decoded responses in order; the returned count is the number of non-negative entries, between 0 and 61 |
| Co2Task.MedianOf | main/co2_sensor_task.c:114-120 | with some valid sample, sorts the array in place into the sorted permutation of its contents and returns entry 30; with none, leaves the array and returns −1 |
| Co2Task.MedianIsMarkerIff | main/co2_sensor_task.c:114-120 | the median is −1 exactly when 30 or fewer of the 61 samples are valid |
| Co2Task.MedianIsMiddle | main/co2_sensor_task.c:117-119 | when some sample is valid, the median is one of the samples, at most 30 samples lie below it and at most 30 above it |
| Co2Task.AllValidMedian | main/co2_sensor_task.c:114-120 | when all 61 samples are valid, the median is a valid sample with at most 30 samples below and at most 30 above it, i.e. the true middle value |
| Co2Task.SortKeepsRange | main/co2_sensor_task.c:117 | every entry of the sorted samples is one of the samples and lies in −1..65535 |
| Co2Task.FormatIntRoundTrip | main/co2_sensor_task.c:131-132 | the `%d` rendering of the median is read back to the same integer |
| Co2Task.CsvLine | main/co2_sensor_task.c:130-132 | the `%s;%s;%d;%.1f;%.1f\n` line is 23 characters longer than the value, temperature and humidity texts together; the date, the time and the value stand in their columns, each followed by `;`, and the line ends with a newline |
| Co2Task.CsvRowColumns | main/co2_sensor_task.c:130-132 | for a renderable date, a median in −1..65535 and temperature and humidity texts of at most 99 characters together, the 128-byte `snprintf` does not cut the row: the date, the time and the value stand in their columns between `;` separators, and the row ends with a newline |
| Co2Task.Station.constructor | main/co2_sensor_task.c:50 | a new station starts with the latch clear |
| Co2Task.Station.Tick | main/co2_sensor_task.c:55-140 | the tick fires and updates the latch as the schedule step says; a firing tick changes the logger exactly as one `write_data_to_csv` of the row built from the median of the responses; a tick that does not fire leaves the logger and the card untouched |
| QSort.CompareConsistent | main/co2_sensor_task.c:28-30 | on samples in −1..65535 the comparator's sign is negative, zero or positive exactly when a < b, a = b or a > b |
| QSort.CompareOverflows | main/co2_sensor_task.c:28-30 | outside that range the 32-bit subtraction overflows, which C leaves undefined; under the two's-complement wrap the compiled code produces, the sign can be wrong (MIN_INT compared with 1 reads as greater) |
| QSort.Sort | main/co2_sensor_task.c:117 | the sorted sequence is ordered, has the same length and is a permutation of the input |
| QSort.SortedUnique | main/co2_sensor_task.c:117 | any ordered permutation of the input equals the sorted sequence, so any correct sort gives the same array |
| QSort.SortInPlace | main/co2_sensor_task.c:117 | sorting in place leaves the array holding the sorted permutation of its old contents |
| Ds1302.BcdToDecByDivision | main/rtc.c:29 | the nibble form of `bcd_to_dec` equals the C expression (val / 16) × 10 + val % 16 |
| Ds1302.DecToBcdRoundTrip | main/rtc.c:29-30 | for 0..99, `dec_to_bcd` has both nibbles at most 9 and `bcd_to_dec` gives the value back |
| Ds1302.BcdToDecRoundTrip | main/rtc.c:29-30 | every valid BCD byte decodes to 0..99 and re-encodes to itself |
| Ds1302.WriteByte | main/rtc.c:32-41 | `ds1302_write_byte` puts bit i of the byte on the line at the i-th clock, least significant bit first, eight clocks |
| Ds1302.ReadByte | main/rtc.c:43-54 | `ds1302_read_byte` sets bit i of the result from the level sampled at the i-th clock |
| Ds1302.BusTransfer | main/rtc.c:32-54 | the eight levels written, sampled back by the reader, give the byte that was sent |
| Ds1302.Chip.WriteReg | main/rtc.c:56-63 | a register write shifts out the command byte `reg & 0xFE` and the data byte; the chip stores the byte at the even address unless write protection is on and the target is not the write-protect register |
| Ds1302.Chip.ReadReg | main/rtc.c:65-74 | a register read returns the byte held at the address `reg | 1` shares with its write address, and changes nothing |
| Ds1302.Chip.ReadTime | main/rtc.c:76-95 | returns false and leaves the fields untouched for a missing struct or a set clock-halt bit; otherwise decodes every field with its mask and offset (month −1, weekday −1, year +100) and sets `tm_isdst` to −1 |
| Ds1302.SetTimeWrites | main/rtc.c:97-115 | `set_time_on_ds1302` writes 0x00 to write protection (0x8E) before any time register and 0x80 after the last, and writes the seconds with the halt bit clear |
| Ds1302.Chip.SetTime | main/rtc.c:97-115 | after setting a time the register file is the old one with the encoded calendar stored and write protection back on; the bus log grows by exactly the nine writes |
| Ds1302.TimeDataRoundTrip | main/rtc.c:85-111 | each byte `set_time_on_ds1302` writes decodes, under the mask `read_time_from_ds1302` applies, back to its field |
| Ds1302.TimeRoundTrip | main/rtc.c:76-115 | for fields in range (sec, min < 60, hour < 24, mday 1..31, mon 0..11, wday 0..6, year 100..199), encoding into the register file and decoding gives the same fields back |
| Ds1302.SetThenRead | main/rtc.c:76-115 | on the chip object, setting a time in range and then reading it succeeds and yields the same fields |
| RtcBoot.IsFirstBoot | main/rtc.c:118-151 | after a deep-sleep wake it answers false; if NVS cannot be opened, true; otherwise true exactly when the flag is missing, and then the flag is stored when the commit succeeds |
| RtcBoot.SecondBootNotFirst | main/rtc.c:138-146 | once a first boot has stored the flag, a later call with NVS available answers false |
| RtcBoot.MonthNumber | main/rtc.c:166-172 | the month index is in 0..11 and names the abbreviation when it is one of the twelve; otherwise `tm_mon` keeps its zero |
| RtcBoot.LookupMonth | main/rtc.c:166-172 | the search loop over the month table finds that index |
| RtcBoot.CompileFields | main/rtc.c:157-172 | the compile stamp's year − 1900, day, hours, minutes, seconds and month index make up the fields written to the chip |
| RtcBoot.SetCompileTimeToRtc | main/rtc.c:154-183 | the chip's registers become the encoding of the compile time, and the bus carries exactly the nine `set_time_on_ds1302` writes, bracketed by clearing and setting write protection |
| RtcBoot.ManualTimeRoundTrip | main/rtc.c:185-201 | a manual time with year 2000..2099, month 1..12, day 1..31, hour < 24, minute and second < 60 and weekday 0..6, written to the chip, decodes back as year − 1900, month − 1, day, hour, minute, second and weekday |
| RtcBoot.SetManualTimeRtc | main/rtc.c:185-201 | the chip's registers become the encoding of the manual time, and the bus carries exactly the nine bracketed `set_time_on_ds1302` writes |
| RtcBoot.SyncedTime | main/rtc.c:247-248 | the system time is taken exactly when the read succeeds with a year after 2000, and it is then the time read |
| RtcBoot.InitializeRtc | main/rtc.c:203-262 | the chip is rewritten with the compile time exactly when it was halted or this is a first boot: the bus then carries the nine bracketed writes of the compile time and otherwise no write at all, and the registers follow; the NVS flag follows `is_first_boot`, and the system time is what the final read yields under the year rule |
| RtcBoot.ReadSystemTime | main/rtc.c:245-262 | the final read of the chip gives the system time under the year rule |
| RtcBoot.FirstBootSyncsCompileTime | main/rtc.c:229-252 | on a first boot with a compile stamp the chip can hold, the system time becomes the compile time exactly when the build is after the year 2000 |
| RtcBoot.Year2000NotSynced | main/rtc.c:247-248 | a running chip that holds the year 2000 decodes to `tm_year` 100 and is never taken as the system time |
| TimeFormat.Digits | main/rtc.c:271-272 | a zero-padded field rendering has the width asked for and only decimal digits |
| TimeFormat.DigitsRoundTrip | main/rtc.c:271-272 | a zero-padded field below 10^width reads back to its value |
| TimeFormat.FormatDate | main/rtc.c:271 | `%Y-%m-%d` is 10 characters with dashes at positions 4 and 7 |
| TimeFormat.FormatTime | main/rtc.c:272 | `%H:%M:%S` is 8 characters with colons at positions 2 and 5 |
| TimeFormat.FormatFileStamp | main/rtc.c:281 | `%Y-%m-%d_%Hh%Mm` is 17 characters: the date rendering, then `_`, `h` and `m` at positions 10, 13 and 16 |
| TimeFormat.DateRoundTrip | main/rtc.c:271 | the date rendering reads back to year, month and day |
| TimeFormat.TimeRoundTrip | main/rtc.c:272 | the time rendering reads back to hours, minutes and seconds |
| TimeFormat.FileStampDistinguishesMinutes | main/rtc.c:281 | two times with the same file stamp agree on year, month, day, hour and minute |
| SdCard.CsvPath | main/sd_card.c:98-99 | the file path is `/sdcard/` + the 17-character stamp + `.csv`, 29 characters, within the 128-byte buffer |
| SdCard.CsvLogger.constructor | main/sd_card.c:25-26 | the logger starts with no open file and start time 0 |
| SdCard.CsvLogger.OpenNewCsvFile | main/sd_card.c:84-114 | any open file is closed and the start time set to now even when `fopen` fails; on success the new file holds the header and is current, on failure no file is open and `ESP_FAIL` is returned |
| SdCard.CsvLogger.WriteDataToCsv | main/sd_card.c:116-150 | the state and result are those of opening when no file is open, rotating when 60 s or more have passed, then appending and flushing |
| SdCard.CsvLogger.CloseCurrentFile | main/sd_card.c:152-157 | afterwards no file is open and the card is unchanged |
| SdCard.FirstWriteStartsWithHeader | main/sd_card.c:117-122 | a write with no open file creates the stamped file holding the header followed by the data |
| SdCard.YoungFileAppends | main/sd_card.c:124-146 | before 60 s have passed the data is appended once to the current file, which stays open with the same start time |
| SdCard.OldFileRotates | main/sd_card.c:124-131 | at 60 s or more a new stamped file with the header and the data becomes current, started now |
| SdCard.FailedOpenDropsData | main/sd_card.c:103-131 | when the needed open fails, `ESP_FAIL` is returned, no file is open, the start time is now and the card is unchanged |
| SdCard.WriteTouchesOneFile | main/sd_card.c:133-146 | a write changes no file but the current one, and on `ESP_OK` that file ends with the data |
| SdCard.WritePreservesHeader | main/sd_card.c:107-146 | if the open file and every file in a given set of files made earlier begin with the header, then after a write the open file and all of those files, rotated away or not, still do |
| SdCard.CloseIdempotent | main/sd_card.c:152-157 | closing twice is closing once; no file is open and the card is unchanged |
| Storage.Volume.Remove | main/http_server.c:126 | `remove` succeeds exactly when the path exists and deletes that file only |
| HttpServer.UpTo | main/http_server.c:100-103 | the name cut at `?` is a prefix of the name, holds no `?`, and stops at the first `?` when there is one |
| HttpServer.StrNCopy | main/http_server.c:96-98 | the fixed buffer holds the first n characters of the source, NUL padding after it, and a NUL at index n |
| HttpServer.CopiedString | main/http_server.c:96-98 | the C string in that buffer is the source cut to n characters |
| HttpServer.TruncateAt | main/http_server.c:100-103 | writing NUL over the first `?` in place leaves the C string cut at `?` |
| HttpServer.CleanNameShape | main/http_server.c:93-103 | the cleaned name is a prefix of the URI after `/delete/`, has no `?` and at most 127 characters; it is the whole rest only when that is short and has no `?` |
| HttpServer.RemovedPathStaysUnder | main/http_server.c:106-120 | a path the handler removes is `/sdcard/` + a non-empty name, has no `..`, and fits the path buffer |
| HttpServer.DefaultConfigNeverTooLong | main/http_server.c:113-117 | with the default path limit (15 + 512) the 414 answer cannot happen |
| HttpServer.DeleteRemovesAtMostNamed | main/http_server.c:106-136 | the handler removes at most `/sdcard/` + the cleaned name; it answers 303 to `/` exactly when a file was removed, and `ESP_FAIL` goes exactly with the 400 and 414 answers |
| HttpServer.FileDeleteHandler | main/http_server.c:87-137 | the reply, return code and card after the handler are those of the delete decision on the old card |
| HttpServer.Basename | main/http_server.c:37-39 | the download name has no `/`, is a suffix of the URI and is preceded there by a `/` unless it is the whole URI |
| HttpServer.DispositionWhole | main/http_server.c:41-47 | the header value is `attachment; filename="` + the basename cut to 127 characters + `"`, and never cut further |
| HttpServer.DownloadPathUnfiltered | main/http_server.c:24-25 | the download path is `/sdcard` + the raw URI, so a `..` in the URI survives into the path |
| HttpServer.GetOutcomeCases | main/http_server.c:24-56 | the download succeeds exactly when the path exists and the buffer is allocated; then the body is the file and the disposition names the basename |
| HttpServer.FileGetHandler | main/http_server.c:17-56 | the reply and return code are those of the download decision on the card |

## Left out

- GPIO levels, pin set-up and microsecond delays of the DS1302 driver: only the bit order and the register file are modelled.
- Register reads are not logged on the chip; only the bytes shifted out by writes are. The DS1302's other registers, its RAM, burst mode and 12-hour mode are not part of this model.
- The UART driver, the write of the request frame and the 1000 ms receive timeout: a response is given as its length and nine bytes. Of the request frame only its checksum is modelled.
- The DHT22 read and the `%.1f` formatting of temperature and humidity are floating point. They are given to the row as already formatted strings.
- `mktime`, `localtime_r`, `time`, `settimeofday` and `sscanf` are library code. The weekday they compute, the split compile stamp and the epoch are inputs, and the normalisation `mktime` applies to out-of-range fields is not modelled.
- TimeFormat.FormatDate: years outside 1000..9999 are not rendered (callers require them). A 2-digit `strftime` field of a value above 99 is not modelled.
- The 11-, 9- and 20-byte `strftime` buffers are assumed large enough, which they are for four-digit years.
- SdCard.CsvLogger.WriteDataToCsv: the two `time(NULL)` readings within one write are taken as one clock value. The row's clock is the logger's clock.
- SdCard.CsvLogger.WriteDataToCsv: data a failed `fflush` leaves in the stdio buffer is treated as not written. The results of the header's `fprintf` and `fflush` are ignored by the code, and the header is taken as written.
- SdCard.WritePreservesHeader: the header invariant holds while only the logger writes to the card. Deleting the open file over HTTP is outside it.
- Storage.Volume.Remove: paths are compared as exact strings. The FAT volume's case-insensitive file names, under which `remove` (main/http_server.c:126) can match a differently cased name, are not modelled.
- Ds1302.Chip.ReadTime: the modelled chip has no oscillator, so its registers never advance. `read_time_from_ds1302` reads the seven calendar registers one at a time, not in burst mode, and on the real chip a carry between two reads can tear the time (07:59:59 read as 08:00:59); such torn reads are not captured.
- Ds1302.SetThenRead: it holds in the model partly because no time passes between the write and the read; the registers never advance, so the chip ticking in between is not captured.
- The chunked `fread`/`httpd_resp_send_chunk` loop and send failures: a download's body is the file, sent whole.
- The static `filename_buf` shared between concurrent requests is not modelled (requests are handled one at a time).
- `init_sd_card`, `file_list_handler`'s HTML, `favicon_get_handler`, `start_http_server`'s configuration, the fan GPIO, FreeRTOS task creation and `main/main.c` are I/O and configuration with no logic of their own.
- `nvs_flash_init` and its erase-and-retry are not part of this model. The outcomes of opening and committing the namespace are inputs.
- Co2Task.Station.Tick: the infinite loop, its one-second delay and the ten-second wait before sampling are not modelled. One call is one pass of the loop, with the time of that pass as input.
- QSort.SortInPlace: the C library's `qsort` algorithm itself is not modelled. An insertion sort with the same comparator and the same postcondition stands in for it.
