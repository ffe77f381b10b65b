/** The packed 32-bit date of AvaSoft files: year in bits 20 and up, month in 16-19,
    day in 11-15, hour in 6-10, minute in 0-5. */
module Timestamp {
  import opened Wrappers

  datatype DateTime = DateTime(year: nat, month: nat, day: nat, hour: nat, minute: nat)

  /** The shift-and-modulo unpacking; `ts >> k` on a non-negative int is `ts / 2^k`. */
  function Unpack(ts: nat): (d: DateTime)
    ensures d.month < 16 && d.day < 32 && d.hour < 32 && d.minute < 64
    ensures ts < 0x1_0000_0000 ==> d.year < 4096
  {
    DateTime(ts / 0x10_0000, (ts / 0x1_0000) % 16, (ts / 0x800) % 32, (ts / 0x40) % 32, ts % 64)
  }

  /** The fields a packed value can carry. */
  predicate InRange(d: DateTime) {
    d.month < 16 && d.day < 32 && d.hour < 32 && d.minute < 64
  }

  /** `year << 20 | month << 16 | day << 11 | hour << 6 | minute`; the fields occupy
      disjoint bits when in range, so the OR is a sum. */
  function Pack(d: DateTime): nat {
    d.year * 0x10_0000 + d.month * 0x1_0000 + d.day * 0x800 + d.hour * 0x40 + d.minute
  }

  /** Unpacking recovers every in-range tuple. */
  lemma {:induction false} UnpackPack(d: DateTime)
    requires InRange(d)
    ensures Unpack(Pack(d)) == d
  {
    var ts := Pack(d);
    var below := d.hour * 0x40 + d.minute;
    DivBy(ts, d.year * 0x4000 + d.month * 0x400 + d.day * 0x20 + d.hour, d.minute, 0x40);
    DivBy(ts / 0x40, d.year * 0x200 + d.month * 0x20 + d.day, d.hour, 0x20);
    DivBy(ts, d.year * 0x200 + d.month * 0x20 + d.day, below, 0x800);
    DivBy(ts / 0x800, d.year * 0x10 + d.month, d.day, 0x20);
    DivBy(ts, d.year * 0x10 + d.month, d.day * 0x800 + below, 0x1_0000);
    DivBy(ts / 0x1_0000, d.year, d.month, 0x10);
    DivBy(ts, d.year, d.month * 0x1_0000 + d.day * 0x800 + below, 0x10_0000);
  }

  /** Division by one of the layout's powers of two splits a value into quotient and
      remainder. */
  lemma {:induction false} DivBy(x: nat, q: nat, r: nat, m: nat)
    requires m in {0x10, 0x20, 0x40, 0x800, 0x1_0000, 0x10_0000}
    requires r < m && x == q * m + r
    ensures x / m == q && x % m == r
  {
    if m == 0x10 {
    } else if m == 0x20 {
    } else if m == 0x40 {
    } else if m == 0x800 {
    } else if m == 0x1_0000 {
    }
  }

  /** Packing the unpacked fields gives back the timestamp: no bit is lost. */
  lemma {:induction false} PackUnpack(ts: nat)
    ensures Pack(Unpack(ts)) == ts
  {
    var a, b, c, y := ts / 0x40, ts / 0x800, ts / 0x1_0000, ts / 0x10_0000;
    assert ts == a * 0x40 + ts % 64;
    assert b == a / 32;
    assert c == b / 32;
    assert y == c / 16;
  }

  function DaysInMonth(year: nat, month: nat): nat
    requires 1 <= month <= 12
  {
    if month == 2 then (if year % 4 == 0 && (year % 100 != 0 || year % 400 == 0) then 29 else 28)
    else if month in {4, 6, 9, 11} then 30
    else 31
  }

  /** The checks Python's `datetime(year, month, day, hour, minute)` makes. */
  predicate ValidDate(d: DateTime) {
    1 <= d.year <= 9999 && 1 <= d.month <= 12 && 1 <= d.day <= DaysInMonth(d.year, d.month)
    && d.hour < 24 && d.minute < 60
  }

  /** `_extract_datetime`: unpack the fields, then build a datetime, which raises ValueError
      for an impossible calendar date. */
  function ExtractDatetime(ts: nat): (r: Result<DateTime, Exception>)
    ensures r.Success? <==> ValidDate(Unpack(ts))
    ensures r.Failure? ==> r.error == ValueError
    ensures r.Success? ==> Pack(r.value) == ts
  {
    var d := Unpack(ts);
    PackUnpack(ts);
    if ValidDate(d) then Success(d) else Failure(ValueError)
  }

  /** A valid date packed into the layout decodes to itself. */
  lemma {:induction false} ExtractPacked(d: DateTime)
    requires ValidDate(d) && d.year < 4096
    ensures Pack(d) < 0x1_0000_0000
    ensures ExtractDatetime(Pack(d)) == Success(d)
  {
    UnpackPack(d);
  }
}
