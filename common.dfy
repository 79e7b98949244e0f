/** Types shared by the firmware modules: an optional value, the ESP-IDF
    success/failure code and the calendar fields of a C `struct tm`. */
module Common {

  datatype Option<T> = None | Some(value: T)

  /** A C `uint8_t`: arithmetic on it truncates modulo 256. */
  type Byte = bv8

  /** `esp_err_t` as far as the modelled code distinguishes it. */
  datatype EspErr = EspOk | EspFail

  /** The fields of a `struct tm` that the firmware reads or writes:
      `year` counts from 1900, `mon` from 0 (January), `wday` from 0 (Sunday). */
  datatype TimeFields = TimeFields(
    sec: int, min: int, hour: int, mday: int, mon: int, year: int, wday: int)

  /** What `localtime_r` guarantees about the fields it produces. */
  predicate IsLocalTime(t: TimeFields)
  {
    && 0 <= t.sec <= 60 && 0 <= t.min < 60 && 0 <= t.hour < 24
    && 1 <= t.mday <= 31 && 0 <= t.mon < 12 && 0 <= t.wday < 7
  }

  /** The first `n` elements of `s`, or all of `s` when it is shorter. */
  function Take<T>(s: seq<T>, n: nat): (r: seq<T>)
    ensures |r| <= n && r <= s
    ensures |s| <= n ==> r == s
  {
    if |s| <= n then s else s[..n]
  }
}
