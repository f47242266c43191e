/** The package timestamp: the SNTP strings are split into twelve digit
    values, packed into the DS3231's BCD time registers, and read back as
    the twelve ASCII characters YYMMDDHHmmSS that end up in bytes 6..17 of
    every package and in the name of every file on the card. */
module Timestamp {

  /** DATETIME_SIZE_FORMAT: the twelve characters YYMMDDHHmmSS. */
  const DATETIME_SIZE: nat := 12
  /** The seven time-keeping registers from seconds to year. */
  const TIME_REGS: nat := 7
  const REG_SECONDS: nat := 0x00
  const REG_DAY: nat := 0x03
  /** The DS3231 register file, 0x00 to 0x12. */
  const REG_COUNT: nat := 0x13
  const ASCII_ZERO: bv8 := 48
  const BIT_12_24: bv8 := 0x40
  const CENTURY_FLAG: bv8 := 0x80

  /** Digit pair f (0 = year, 1 = month, 2 = day, 3 = hour, 4 = minute,
      5 = second) lives in this time register. */
  function RegisterOf(f: nat): (r: nat)
    requires f < 6
    ensures r < TIME_REGS && r != REG_DAY
  {
    [6, 5, 4, 2, 1, 0][f]
  }

  lemma RegisterOfInjective(f: nat, g: nat)
    requires f < 6 && g < 6 && RegisterOf(f) == RegisterOf(g)
    ensures f == g
  {
  }

  /* ---------------------------------------------------------------------- */
  /* sntp_parse_string                                                       */
  /* ---------------------------------------------------------------------- */

  /** `date` is strftime's "%x" (MM/DD/YY), `time` is "%X" (HH:mm:SS); each
      output is a character minus '0', wrapping as a `char` does. */
  function SntpParse(date: seq<bv8>, time: seq<bv8>): (d: seq<bv8>)
    requires |date| >= 8 && |time| >= 8
    ensures |d| == DATETIME_SIZE
    ensures d[0] + ASCII_ZERO == date[6] && d[1] + ASCII_ZERO == date[7]
    ensures d[2] + ASCII_ZERO == date[0] && d[3] + ASCII_ZERO == date[1]
    ensures d[4] + ASCII_ZERO == date[3] && d[5] + ASCII_ZERO == date[4]
    ensures d[6] + ASCII_ZERO == time[0] && d[7] + ASCII_ZERO == time[1]
    ensures d[8] + ASCII_ZERO == time[3] && d[9] + ASCII_ZERO == time[4]
    ensures d[10] + ASCII_ZERO == time[6] && d[11] + ASCII_ZERO == time[7]
  {
    [date[6] - 48, date[7] - 48,
     date[0] - 48, date[1] - 48,
     date[3] - 48, date[4] - 48,
     time[0] - 48, time[1] - 48,
     time[3] - 48, time[4] - 48,
     time[6] - 48, time[7] - 48]
  }

  predicate IsDigit(ch: bv8)
  {
    '0' as bv8 <= ch <= '9' as bv8
  }

  /** The two separators ('/' and ':') and anything past the eighth
      character are never read. */
  lemma SntpParseIgnoresSeparators(date: seq<bv8>, time: seq<bv8>, date': seq<bv8>, time': seq<bv8>)
    requires |date| >= 8 && |time| >= 8 && |date'| >= 8 && |time'| >= 8
    requires forall i :: 0 <= i < 8 && i != 2 && i != 5 ==> date[i] == date'[i] && time[i] == time'[i]
    ensures SntpParse(date, time) == SntpParse(date', time')
  {
    assert forall i :: i in {0, 1, 3, 4, 6, 7} ==> date[i] == date'[i] && time[i] == time'[i];
  }

  /** ASCII digits become digit values 0..9, the form the RTC encoder packs. */
  lemma SntpParseDigits(date: seq<bv8>, time: seq<bv8>)
    requires |date| >= 8 && |time| >= 8
    requires forall i :: 0 <= i < 8 && i != 2 && i != 5 ==> IsDigit(date[i]) && IsDigit(time[i])
    ensures forall i :: 0 <= i < DATETIME_SIZE ==> SntpParse(date, time)[i] <= 9
  {
    var d := SntpParse(date, time);
    assert IsDigit(date[0]) && IsDigit(date[1]) && IsDigit(date[3]);
    assert IsDigit(date[4]) && IsDigit(date[6]) && IsDigit(date[7]);
    assert IsDigit(time[0]) && IsDigit(time[1]) && IsDigit(time[3]);
    assert IsDigit(time[4]) && IsDigit(time[6]) && IsDigit(time[7]);
  }

  /* ---------------------------------------------------------------------- */
  /* ds3231_set_datetime                                                     */
  /* ---------------------------------------------------------------------- */

  /** Two digits in one BCD byte, tens in the high nibble; the shift is done
      in `int` and the store into `uint8_t` keeps the low eight bits. */
  function PackPair(hi: bv8, lo: bv8): (b: bv8)
    ensures hi <= 15 && lo <= 15 ==> b >> 4 == hi && b & 0x0F == lo
  {
    (hi << 4) | lo
  }

  /** The seven register bytes written by ds3231_set_datetime, seconds first. */
  function Encode(d: seq<bv8>): (raw: seq<bv8>)
    requires |d| == DATETIME_SIZE
    ensures |raw| == TIME_REGS
    ensures raw[REG_DAY] == 1
    ensures forall f :: 0 <= f < 6 ==> raw[RegisterOf(f)] == PackPair(d[2 * f], d[2 * f + 1])
  {
    var raw := [PackPair(d[10], d[11]),
                PackPair(d[8], d[9]),
                PackPair(d[6], d[7]),
                1,
                PackPair(d[4], d[5]),
                PackPair(d[2], d[3]),
                PackPair(d[0], d[1])];
    forall f | 0 <= f < 6
      ensures raw[RegisterOf(f)] == PackPair(d[2 * f], d[2 * f + 1])
    {
      if f == 0 { assert RegisterOf(f) == 6; }
      else if f == 1 { assert RegisterOf(f) == 5; }
      else if f == 2 { assert RegisterOf(f) == 4; }
      else if f == 3 { assert RegisterOf(f) == 2; }
      else if f == 4 { assert RegisterOf(f) == 1; }
      else { assert RegisterOf(f) == 0; }
    }
    raw
  }

  /** An I2C burst write: the register pointer is set to `start` and the
      following bytes go to consecutive registers. */
  function WriteRegisters(regs: seq<bv8>, start: nat, block: seq<bv8>): (r: seq<bv8>)
    requires start + |block| <= |regs|
    ensures |r| == |regs|
    ensures forall i :: 0 <= i < |regs| ==>
              r[i] == if start <= i < start + |block| then block[i - start] else regs[i]
  {
    regs[..start] + block + regs[start + |block|..]
  }

  /** ds3231_set_datetime: the encoded block written from REG_SECONDS. */
  function SetDatetime(regs: seq<bv8>, d: seq<bv8>): (r: seq<bv8>)
    requires |regs| == REG_COUNT && |d| == DATETIME_SIZE
    ensures |r| == REG_COUNT
    ensures r[..TIME_REGS] == Encode(d)
    ensures r[TIME_REGS..] == regs[TIME_REGS..]
  {
    WriteRegisters(regs, REG_SECONDS, Encode(d))
  }

  /* ---------------------------------------------------------------------- */
  /* ds3231_get_datetime                                                     */
  /* ---------------------------------------------------------------------- */

  /** Digit i of the output, before '0' is added: month tens keep only
      bit 4 (the century flag in bit 7 is dropped), hour tens keep only bits
      5-4 (the 12/24-hour select in bit 6 is dropped). */
  function DigitAt(raw: seq<bv8>, i: nat): (v: bv8)
    requires |raw| == TIME_REGS && i < DATETIME_SIZE
    ensures v <= 15
    ensures i == 2 ==> v <= 1
    ensures i == 6 ==> v <= 3
  {
    var b := raw[RegisterOf(i / 2)];
    if i % 2 == 1 then b & 0x0F
    else if i == 2 then (b & 0x10) >> 4
    else if i == 6 then (b & 0x30) >> 4
    else b >> 4
  }

  function Digits(raw: seq<bv8>): (d: seq<bv8>)
    requires |raw| == TIME_REGS
    ensures |d| == DATETIME_SIZE
    ensures forall i :: 0 <= i < DATETIME_SIZE ==> d[i] == DigitAt(raw, i)
  {
    seq(DATETIME_SIZE, i requires 0 <= i < DATETIME_SIZE => DigitAt(raw, i))
  }

  /** ds3231_get_datetime's conversion: every digit plus '0'. */
  function Decode(raw: seq<bv8>): (a: seq<bv8>)
    requires |raw| == TIME_REGS
    ensures |a| == DATETIME_SIZE
    ensures forall i :: 0 <= i < DATETIME_SIZE ==> a[i] - ASCII_ZERO <= 15
    ensures a[2] - ASCII_ZERO <= 1 && a[6] - ASCII_ZERO <= 3
  {
    Ascii(Digits(raw))
  }

  /** ds3231_get_datetime: a burst read of the seven time registers from REG_SECONDS. */
  function GetDatetime(regs: seq<bv8>): (a: seq<bv8>)
    requires |regs| == REG_COUNT
    ensures |a| == DATETIME_SIZE
    ensures forall i :: 0 <= i < DATETIME_SIZE ==> a[i] - ASCII_ZERO <= 15 && a[i] != 0
  {
    var a := Decode(regs[REG_SECONDS..REG_SECONDS + TIME_REGS]);
    forall i | 0 <= i < DATETIME_SIZE
      ensures a[i] != 0
    {
      NearDigitNotNul(a[i]);
    }
    a
  }

  /** A character at most 15 above '0' is not NUL. */
  lemma NearDigitNotNul(x: bv8)
    requires x - ASCII_ZERO <= 15
    ensures x != 0
  {
  }

  /** Only the seven time registers are read. */
  lemma GetDatetimeReadsTimeRegisters(regs: seq<bv8>, regs': seq<bv8>)
    requires |regs| == REG_COUNT && |regs'| == REG_COUNT
    requires regs[..TIME_REGS] == regs'[..TIME_REGS]
    ensures GetDatetime(regs) == GetDatetime(regs')
  {
    assert regs[REG_SECONDS..REG_SECONDS + TIME_REGS] == regs[..TIME_REGS];
    assert regs'[REG_SECONDS..REG_SECONDS + TIME_REGS] == regs'[..TIME_REGS];
  }

  /** The day-of-week register, the century flag and the 12/24-hour bit
      never reach the output. */
  lemma DecodeIgnoresFlags(raw: seq<bv8>, raw': seq<bv8>)
    requires |raw| == TIME_REGS && |raw'| == TIME_REGS
    requires raw[0] == raw'[0] && raw[1] == raw'[1] && raw[4] == raw'[4] && raw[6] == raw'[6]
    requires raw[2] & !BIT_12_24 == raw'[2] & !BIT_12_24
    requires raw[5] & !CENTURY_FLAG == raw'[5] & !CENTURY_FLAG
    ensures Decode(raw) == Decode(raw')
  {
    forall i | 0 <= i < DATETIME_SIZE
      ensures DigitAt(raw, i) == DigitAt(raw', i)
    {
      DigitIgnoresFlags(raw, raw', i);
    }
    assert Digits(raw) == Digits(raw');
  }

  lemma DigitIgnoresFlags(raw: seq<bv8>, raw': seq<bv8>, i: nat)
    requires |raw| == TIME_REGS && |raw'| == TIME_REGS && i < DATETIME_SIZE
    requires raw[0] == raw'[0] && raw[1] == raw'[1] && raw[4] == raw'[4] && raw[6] == raw'[6]
    requires raw[2] & !BIT_12_24 == raw'[2] & !BIT_12_24
    requires raw[5] & !CENTURY_FLAG == raw'[5] & !CENTURY_FLAG
    ensures DigitAt(raw, i) == DigitAt(raw', i)
  {
    if i / 2 == 3 {
      HourFieldsIgnoreMode(raw[2], raw'[2]);
    } else if i / 2 == 1 {
      MonthFieldsIgnoreCentury(raw[5], raw'[5]);
    }
  }

  lemma HourFieldsIgnoreMode(x: bv8, y: bv8)
    requires x & !BIT_12_24 == y & !BIT_12_24
    ensures x & 0x30 == y & 0x30 && x & 0x0F == y & 0x0F
  {
    assert x & 0x30 == (x & !BIT_12_24) & 0x30;
    assert y & 0x30 == (y & !BIT_12_24) & 0x30;
    assert x & 0x0F == (x & !BIT_12_24) & 0x0F;
    assert y & 0x0F == (y & !BIT_12_24) & 0x0F;
  }

  lemma MonthFieldsIgnoreCentury(x: bv8, y: bv8)
    requires x & !CENTURY_FLAG == y & !CENTURY_FLAG
    ensures x & 0x10 == y & 0x10 && x & 0x0F == y & 0x0F
  {
    assert x & 0x10 == (x & !CENTURY_FLAG) & 0x10;
    assert y & 0x10 == (y & !CENTURY_FLAG) & 0x10;
    assert x & 0x0F == (x & !CENTURY_FLAG) & 0x0F;
    assert y & 0x0F == (y & !CENTURY_FLAG) & 0x0F;
  }

  /** A register nibble of at most 9 comes out as an ASCII digit. */
  lemma DecodeAsciiDigits(raw: seq<bv8>)
    requires |raw| == TIME_REGS
    requires forall r :: 0 <= r < TIME_REGS && r != REG_DAY ==> raw[r] >> 4 <= 9 && raw[r] & 0x0F <= 9
    ensures forall i :: 0 <= i < DATETIME_SIZE ==> IsDigit(Decode(raw)[i])
  {
    forall i | 0 <= i < DATETIME_SIZE
      ensures DigitAt(raw, i) <= 9
    {
      var b := raw[RegisterOf(i / 2)];
      assert b >> 4 <= 9 && b & 0x0F <= 9;
    }
  }

  /* ---------------------------------------------------------------------- */
  /* Round trip                                                              */
  /* ---------------------------------------------------------------------- */

  /** The twelve values as the decoder prints them: each plus '0'. */
  function Ascii(d: seq<bv8>): (a: seq<bv8>)
    ensures |a| == |d|
    ensures forall i :: 0 <= i < |d| ==> a[i] - ASCII_ZERO == d[i]
  {
    seq(|d|, i requires 0 <= i < |d| => d[i] + ASCII_ZERO)
  }

  lemma AsciiInjective(d: seq<bv8>, e: seq<bv8>)
    requires Ascii(d) == Ascii(e)
    ensures d == e
  {
    assert |d| == |e|;
    forall i | 0 <= i < |d|
      ensures d[i] == e[i]
    {
      assert Ascii(d)[i] == Ascii(e)[i];
    }
  }

  /** What the BCD registers can hold: nibbles, at most one month-tens bit
      and two hour-tens bits. */
  predicate Representable(d: seq<bv8>)
    requires |d| == DATETIME_SIZE
  {
    (forall i :: 0 <= i < DATETIME_SIZE ==> d[i] <= 15) && d[2] <= 1 && d[6] <= 3
  }

  /** One digit survives encoding and decoding exactly when it fits its
      BCD field (and, for a tens digit, its units partner is a nibble). */
  lemma DigitRoundTrip(d: seq<bv8>, i: nat)
    requires |d| == DATETIME_SIZE && i < DATETIME_SIZE
    requires d[i + 1 - 2 * (i % 2)] <= 15
    ensures DigitAt(Encode(d), i) == d[i] <==> d[i] <= (if i == 2 then 1 else if i == 6 then 3 else 15)
  {
    var f := i / 2;
    if i % 2 == 1 {
      assert i == 2 * f + 1;
      UnitsRoundTrip(d, f);
    } else {
      assert i == 2 * f;
      TensRoundTrip(d, f);
    }
  }

  lemma UnitsRoundTrip(d: seq<bv8>, f: nat)
    requires |d| == DATETIME_SIZE && f < 6
    ensures DigitAt(Encode(d), 2 * f + 1) == d[2 * f + 1] <==> d[2 * f + 1] <= 15
  {
    var b := Encode(d)[RegisterOf(f)];
    assert b == PackPair(d[2 * f], d[2 * f + 1]);
    assert (2 * f + 1) / 2 == f && (2 * f + 1) % 2 == 1;
    assert DigitAt(Encode(d), 2 * f + 1) == b & 0x0F;
    LowNibble(d[2 * f], d[2 * f + 1]);
  }

  lemma TensRoundTrip(d: seq<bv8>, f: nat)
    requires |d| == DATETIME_SIZE && f < 6 && d[2 * f + 1] <= 15
    ensures DigitAt(Encode(d), 2 * f) == d[2 * f] <==> d[2 * f] <= (if f == 1 then 1 else if f == 3 then 3 else 15)
  {
    var b := Encode(d)[RegisterOf(f)];
    assert b == PackPair(d[2 * f], d[2 * f + 1]);
    assert (2 * f) / 2 == f && (2 * f) % 2 == 0;
    assert 2 * f == 2 <==> f == 1;
    assert 2 * f == 6 <==> f == 3;
    assert DigitAt(Encode(d), 2 * f)
           == if f == 1 then (b & 0x10) >> 4 else if f == 3 then (b & 0x30) >> 4 else b >> 4;
    HighNibble(d[2 * f], d[2 * f + 1]);
  }

  lemma LowNibble(hi: bv8, lo: bv8)
    ensures PackPair(hi, lo) & 0x0F == lo <==> lo <= 15
  {
    assert (hi << 4) & 0x0F == 0;
  }

  lemma HighNibble(hi: bv8, lo: bv8)
    requires lo <= 15
    ensures PackPair(hi, lo) >> 4 == hi <==> hi <= 15
    ensures (PackPair(hi, lo) & 0x10) >> 4 == hi <==> hi <= 1
    ensures (PackPair(hi, lo) & 0x30) >> 4 == hi <==> hi <= 3
  {
  }

  /** Reading back what was written prints the twelve values in ASCII,
      exactly when every value fits its BCD field. */
  lemma RoundTrip(d: seq<bv8>)
    requires |d| == DATETIME_SIZE
    ensures Decode(Encode(d)) == Ascii(d) <==> Representable(d)
  {
    var back := Digits(Encode(d));
    if Representable(d) {
      forall i | 0 <= i < DATETIME_SIZE
        ensures back[i] == d[i]
      {
        DigitRoundTrip(d, i);
      }
      assert back == d;
    } else if Decode(Encode(d)) == Ascii(d) {
      AsciiInjective(back, d);
    }
  }

  /** Through the register file: whatever the other registers hold. */
  lemma RegisterRoundTrip(regs: seq<bv8>, d: seq<bv8>)
    requires |regs| == REG_COUNT && |d| == DATETIME_SIZE && Representable(d)
    ensures GetDatetime(SetDatetime(regs, d)) == Ascii(d)
  {
    RoundTrip(d);
    var r := SetDatetime(regs, d);
    assert r[REG_SECONDS..REG_SECONDS + TIME_REGS] == r[..TIME_REGS];
  }

  /** From the SNTP strings to the package timestamp: a wall-clock time in
      digits reads back from the RTC as YYMMDDHHmmSS, character for character. */
  lemma SntpToStamp(regs: seq<bv8>, date: seq<bv8>, time: seq<bv8>)
    requires |regs| == REG_COUNT && |date| >= 8 && |time| >= 8
    requires forall i :: 0 <= i < 8 && i != 2 && i != 5 ==> IsDigit(date[i]) && IsDigit(time[i])
    requires date[0] <= '1' as bv8 && time[0] <= '2' as bv8
    ensures GetDatetime(SetDatetime(regs, SntpParse(date, time)))
            == [date[6], date[7], date[0], date[1], date[3], date[4],
                time[0], time[1], time[3], time[4], time[6], time[7]]
  {
    var d := SntpParse(date, time);
    SntpParseRepresentable(date, time);
    RegisterRoundTrip(regs, d);
    SntpParseAscii(date, time);
  }

  lemma Rezero(ch: bv8)
    ensures (ch - 48) + ASCII_ZERO == ch
  {
  }

  lemma SntpParseRepresentable(date: seq<bv8>, time: seq<bv8>)
    requires |date| >= 8 && |time| >= 8
    requires forall i :: 0 <= i < 8 && i != 2 && i != 5 ==> IsDigit(date[i]) && IsDigit(time[i])
    requires date[0] <= '1' as bv8 && time[0] <= '2' as bv8
    ensures Representable(SntpParse(date, time))
  {
    SntpParseDigits(date, time);
    assert IsDigit(date[0]) && IsDigit(time[0]);
  }

  /** Adding '0' back gives the characters read, in YYMMDDHHmmSS order. */
  lemma SntpParseAscii(date: seq<bv8>, time: seq<bv8>)
    requires |date| >= 8 && |time| >= 8
    ensures Ascii(SntpParse(date, time))
            == [date[6], date[7], date[0], date[1], date[3], date[4],
                time[0], time[1], time[3], time[4], time[6], time[7]]
  {
    var d := SntpParse(date, time);
    var chars := [date[6], date[7], date[0], date[1], date[3], date[4],
                  time[0], time[1], time[3], time[4], time[6], time[7]];
    assert d == seq(DATETIME_SIZE, i requires 0 <= i < DATETIME_SIZE => chars[i] - 48);
    forall i | 0 <= i < DATETIME_SIZE
      ensures Ascii(d)[i] == chars[i]
    {
      Rezero(chars[i]);
    }
  }

  /* ---------------------------------------------------------------------- */
  /* sntp_config: is the system clock set?                                   */
  /* ---------------------------------------------------------------------- */

  /** `struct tm` years count from 1900; the clock is refetched over NTP when
      its year is before 2016. */
  const SET_YEAR: int := 2016 - 1900

  /** The time sntp_config formats: the system clock if it reads 2016 or
      later, otherwise the one obtained over NTP. */
  function ClockUsed(tmYearNow: int, now: int, fetched: int): (t: int)
    ensures t == now <==> tmYearNow >= SET_YEAR || fetched == now
    ensures t == fetched <==> tmYearNow < SET_YEAR || fetched == now
  {
    if tmYearNow < SET_YEAR then fetched else now
  }
}
