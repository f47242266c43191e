/** Byte layout of one sample package: the 18-byte control header, one region
    per sensor (an id byte followed by `items` fixed-width samples), and the
    internal status byte that sits just past the transmitted bytes.

    The layout is stated for any sensor configuration; `Firmware` is the one
    the datalogger is built with (seven sensors, 1500 items each). */
module Layout {
  import opened Bytes

  /** Header bytes before the first sensor id. */
  const CONTROL_BYTES: nat := 18
  /** The 12-byte timestamp field YYMMDDHHmmSS occupies header bytes 6..17. */
  const STAMP_AT: nat := 6
  const STAMP_SIZE: nat := 12

  /** Status byte values: filled from the sensors, or reloaded from the card. */
  const STATUS_SENSOR_DATA: bv8 := 0
  const STATUS_SD_DATA: bv8 := 1

  /** Per-sensor byte widths and ids, in send order, plus the header constants. */
  datatype Config = Config(bytesPerItem: seq<nat>, ids: seq<bv8>, items: nat,
                           sampleRate: nat, station: bv8)
  {
    predicate Valid() {
      |bytesPerItem| >= 1 && |ids| == |bytesPerItem|
    }
  }

  /** ADC, ADXL355 x/y/z (3 bytes each), MMA8451Q x/y/z (2 bytes each);
      1500 items per sensor, 100 Hz, station 'A'. */
  const Firmware: Config := Config([3, 3, 3, 3, 2, 2, 2], [0, 1, 2, 3, 4, 5, 6], 1500, 100, 65)

  function Sum(s: seq<nat>): nat
  {
    if |s| == 0 then 0 else Sum(s[..|s| - 1]) + s[|s| - 1]
  }

  /** Index of the first sample byte of sensor `i` (its id byte is just
      before), built by the firmware's recurrence; `OffsetClosedForm` gives
      it in closed form. */
  function Offset(c: Config, i: nat): (r: nat)
    requires i < |c.bytesPerItem|
    ensures r >= CONTROL_BYTES + 1
  {
    if i == 0 then CONTROL_BYTES + 1
    else Offset(c, i - 1) + 1 + Times(c.items, c.bytesPerItem[i - 1])
  }

  /** One past the last sample byte of sensor `i`. */
  function RegionEnd(c: Config, i: nat): nat
    requires i < |c.bytesPerItem|
  {
    Offset(c, i) + Times(c.items, c.bytesPerItem[i])
  }

  /** Transmitted size: header, one id byte per sensor, all samples. */
  function MaxSize(c: Config): nat
  {
    CONTROL_BYTES + |c.bytesPerItem| + Times(c.items, Sum(c.bytesPerItem))
  }

  /* ---------------------------------------------------------------------- */
  /* Arithmetic helpers                                                      */
  /* ---------------------------------------------------------------------- */

  lemma SumPrefixStep(s: seq<nat>, i: nat)
    requires i < |s|
    ensures Sum(s[..i + 1]) == Sum(s[..i]) + s[i]
  {
    assert s[..i + 1][..i] == s[..i];
  }

  lemma SumPrefixMono(s: seq<nat>, i: nat, j: nat)
    requires i <= j <= |s|
    ensures Sum(s[..i]) <= Sum(s[..j])
    decreases j - i
  {
    if i < j {
      SumPrefixStep(s, j - 1);
      SumPrefixMono(s, i, j - 1);
    }
  }

  /** `n * b` by repeated addition, so that layout proofs stay linear. */
  function Times(n: nat, b: nat): nat
  {
    if n == 0 then 0 else Times(n - 1, b) + b
  }

  lemma {:induction false} TimesIsMul(n: nat, b: nat)
    ensures Times(n, b) == n * b
  {
    if n > 0 {
      TimesIsMul(n - 1, b);
      assert (n - 1) * b + b == n * b;
    }
  }

  lemma {:induction false} TimesZero(n: nat)
    ensures Times(n, 0) == 0
  {
    if n > 0 {
      TimesZero(n - 1);
    }
  }

  lemma {:induction false} TimesMono(x: nat, y: nat, b: nat)
    requires x <= y
    ensures Times(x, b) <= Times(y, b)
    decreases y - x
  {
    if x < y {
      TimesMono(x, y - 1, b);
    }
  }

  lemma {:induction false} TimesAdd(n: nat, a: nat, b: nat)
    ensures Times(n, a + b) == Times(n, a) + Times(n, b)
  {
    if n > 0 {
      TimesAdd(n - 1, a, b);
    }
  }

  /** Tick `k` of an `items`-tick region of width `b` fits inside the region. */
  lemma SlotFits(k: nat, items: nat, b: nat)
    requires k < items
    ensures Times(k, b) + b <= Times(items, b)
  {
    TimesMono(k + 1, items, b);
  }

  /** Within one region, (tick, byte) determines the index uniquely. */
  lemma SlotInjective(k1: nat, j1: nat, k2: nat, j2: nat, b: nat)
    requires j1 < b && j2 < b
    requires Times(k1, b) + j1 == Times(k2, b) + j2
    ensures k1 == k2 && j1 == j2
  {
    if k1 < k2 {
      SlotFits(k1, k2, b);
    } else if k2 < k1 {
      SlotFits(k2, k1, b);
    }
  }

  lemma ModAdd(a: nat, b: nat)
    ensures (a % U16 + b) % U16 == (a + b) % U16
  {
    var q := a / U16;
    assert a == q * U16 + a % U16;
    assert a + b == q * U16 + (a % U16 + b);
  }

  /* ---------------------------------------------------------------------- */
  /* buffer_general_calc                                                     */
  /* ---------------------------------------------------------------------- */

  /** Offsets in closed form: header, one id byte per earlier sensor, and
      the sample bytes of every earlier sensor. */
  lemma {:induction false} OffsetClosedForm(c: Config, i: nat)
    requires i < |c.bytesPerItem|
    ensures Offset(c, i) == CONTROL_BYTES + 1 + i + Times(c.items, Sum(c.bytesPerItem[..i]))
  {
    if i == 0 {
      assert c.bytesPerItem[..0] == [];
      TimesZero(c.items);
    } else {
      OffsetClosedForm(c, i - 1);
      SumPrefixStep(c.bytesPerItem, i - 1);
      TimesAdd(c.items, Sum(c.bytesPerItem[..i - 1]), c.bytesPerItem[i - 1]);
    }
  }

  /** The last sensor's region ends exactly at the transmitted size, so the
      status byte at index MaxSize lies outside every region. */
  lemma LastRegionEndsAtMax(c: Config)
    requires c.Valid()
    ensures RegionEnd(c, |c.bytesPerItem| - 1) == MaxSize(c)
  {
    var n := |c.bytesPerItem|;
    OffsetClosedForm(c, n - 1);
    SumPrefixStep(c.bytesPerItem, n - 1);
    assert c.bytesPerItem[..n] == c.bytesPerItem;
    TimesAdd(c.items, Sum(c.bytesPerItem[..n - 1]), c.bytesPerItem[n - 1]);
  }

  /** Every region ends before the id byte of every later sensor. */
  lemma {:induction false} RegionBeforeLaterId(c: Config, i: nat, j: nat)
    requires i < j < |c.bytesPerItem|
    ensures RegionEnd(c, i) < Offset(c, j)
  {
    if j > i + 1 {
      RegionBeforeLaterId(c, i, j - 1);
    }
  }

  /** Every region lies inside the transmitted bytes. */
  lemma RegionWithinMax(c: Config, i: nat)
    requires c.Valid() && i < |c.bytesPerItem|
    ensures CONTROL_BYTES + 1 <= Offset(c, i) <= RegionEnd(c, i) <= MaxSize(c)
  {
    var n := |c.bytesPerItem|;
    LastRegionEndsAtMax(c);
    if i < n - 1 {
      RegionBeforeLaterId(c, i, n - 1);
    }
  }

  /** The 16-bit images of the first m offsets. */
  function WrappedOffsets(c: Config, m: nat): (r: seq<nat>)
    requires m <= |c.bytesPerItem|
    ensures |r| == m
    ensures forall i :: 0 <= i < m ==> r[i] == Offset(c, i) % U16
  {
    if m == 0 then [] else WrappedOffsets(c, m - 1) + [Offset(c, m - 1) % U16]
  }

  /** `max_buffer_size` after the first k sensors. */
  function RunningSize(c: Config, k: nat): nat
    requires k <= |c.bytesPerItem|
  {
    (CONTROL_BYTES + |c.bytesPerItem| + Times(c.items, Sum(c.bytesPerItem[..k]))) % U16
  }

  /** `total_bytes_sensors` after the first k sensors. */
  function RunningTotal(c: Config, k: nat): nat
    requires k <= |c.bytesPerItem|
  {
    Sum(c.bytesPerItem[..k]) % U16
  }

  /** One sensor's contribution to the running 16-bit values. */
  lemma CalcStep(c: Config, k: nat)
    requires c.Valid() && k < |c.bytesPerItem|
    ensures k + 1 < |c.bytesPerItem| ==>
              (Offset(c, k) % U16 + 1 + Times(c.items, c.bytesPerItem[k])) % U16 == Offset(c, k + 1) % U16
    ensures (RunningSize(c, k) + Times(c.items, c.bytesPerItem[k])) % U16 == RunningSize(c, k + 1)
    ensures (RunningTotal(c, k) + c.bytesPerItem[k]) % U16 == RunningTotal(c, k + 1)
  {
    var slot := Times(c.items, c.bytesPerItem[k]);
    if k + 1 < |c.bytesPerItem| {
      ModAdd(Offset(c, k), 1 + slot);
    }
    SizeStep(c, k);
    TotalStep(c, k);
  }

  lemma SizeStep(c: Config, k: nat)
    requires k < |c.bytesPerItem|
    ensures (RunningSize(c, k) + Times(c.items, c.bytesPerItem[k])) % U16 == RunningSize(c, k + 1)
  {
    var pre := Sum(c.bytesPerItem[..k]);
    var slot := Times(c.items, c.bytesPerItem[k]);
    SumPrefixStep(c.bytesPerItem, k);
    TimesAdd(c.items, pre, c.bytesPerItem[k]);
    assert Times(c.items, Sum(c.bytesPerItem[..k + 1])) == Times(c.items, pre) + slot;
    ModAdd(CONTROL_BYTES + |c.bytesPerItem| + Times(c.items, pre), slot);
  }

  lemma TotalStep(c: Config, k: nat)
    requires k < |c.bytesPerItem|
    ensures (RunningTotal(c, k) + c.bytesPerItem[k]) % U16 == RunningTotal(c, k + 1)
  {
    SumPrefixStep(c.bytesPerItem, k);
    ModAdd(Sum(c.bytesPerItem[..k]), c.bytesPerItem[k]);
  }

  /** Appending sensor k+1's wrapped offset, computed the source's way. */
  lemma WrappedStep(c: Config, k: nat, offsets: seq<nat>)
    requires c.Valid() && k + 1 < |c.bytesPerItem| && offsets == WrappedOffsets(c, k + 1)
    ensures offsets + [(offsets[k] + 1 + Times(c.items, c.bytesPerItem[k])) % U16] == WrappedOffsets(c, k + 2)
  {
    CalcStep(c, k);
  }

  /** Below 16 bits nothing wraps: every position the model computes is the
      value the source's `uint16_t` variables hold. */
  lemma NoWrapBelowU16(c: Config, i: nat)
    requires c.Valid() && i < |c.bytesPerItem| && MaxSize(c) < U16
    ensures Offset(c, i) % U16 == Offset(c, i) && RegionEnd(c, i) % U16 == RegionEnd(c, i)
    ensures IdIndex(c, i) % U16 == IdIndex(c, i) && MaxSize(c) % U16 == MaxSize(c)
  {
    RegionWithinMax(c, i);
  }

  /** After every sensor the running values are the 16-bit size and total. */
  lemma CalcDone(c: Config)
    requires c.Valid()
    ensures RunningSize(c, |c.bytesPerItem|) == MaxSize(c) % U16
    ensures RunningTotal(c, |c.bytesPerItem|) == Sum(c.bytesPerItem) % U16
  {
    assert c.bytesPerItem[..|c.bytesPerItem|] == c.bytesPerItem;
  }

  /** The source's loop: the first n-1 sensors inside the loop, the last one
      after it, every running value held in a `uint16_t`. The products
      `bytes_p_item * ITEMS_PER_SENSOR` are written `Times` (see TimesIsMul). */
  method BufferGeneralCalc(c: Config) returns (maxSize: nat, offsets: seq<nat>, total: nat)
    requires c.Valid()
    ensures |offsets| == |c.bytesPerItem|
    ensures forall i :: 0 <= i < |offsets| ==> offsets[i] == Offset(c, i) % U16
    ensures maxSize == MaxSize(c) % U16
    ensures total == Sum(c.bytesPerItem) % U16
  {
    var n := |c.bytesPerItem|;
    var bpi := c.bytesPerItem;
    maxSize := (CONTROL_BYTES + n) % U16;
    offsets := [(CONTROL_BYTES + 1) % U16];
    total := 0;
    assert bpi[..0] == [];
    TimesZero(c.items);
    var k := 0;
    while k < n - 1
      invariant 0 <= k <= n - 1
      invariant offsets == WrappedOffsets(c, k + 1)
      invariant maxSize == RunningSize(c, k)
      invariant total == RunningTotal(c, k)
    {
      CalcStep(c, k);
      WrappedStep(c, k, offsets);
      var slot := Times(c.items, bpi[k]);
      offsets := offsets + [(offsets[k] + 1 + slot) % U16];
      maxSize := (maxSize + slot) % U16;
      total := (total + bpi[k]) % U16;
      k := k + 1;
    }
    assert k == n - 1;
    CalcStep(c, k);
    CalcDone(c);
    var slot := Times(c.items, bpi[k]);
    assert (maxSize + slot) % U16 == RunningSize(c, n);
    assert (total + bpi[k]) % U16 == RunningTotal(c, n);
    maxSize := (maxSize + slot) % U16;
    total := (total + bpi[k]) % U16;
  }

  /** The firmware's configuration: 27025 transmitted bytes, which fit the
      16-bit globals, so the computed offsets are the true ones. */
  lemma FirmwareLayout()
    ensures Firmware.Valid()
    ensures MaxSize(Firmware) == 27025 && MaxSize(Firmware) < U16
    ensures Sum(Firmware.bytesPerItem) == 18
    ensures Offset(Firmware, 0) == 19 && Offset(Firmware, 1) == 4520
    ensures Offset(Firmware, 2) == 9021 && Offset(Firmware, 3) == 13522
    ensures Offset(Firmware, 4) == 18023 && Offset(Firmware, 5) == 21024
    ensures Offset(Firmware, 6) == 24025 && RegionEnd(Firmware, 6) == 27025
  {
    var b := Firmware.bytesPerItem;
    TimesIsMul(1500, 3);
    TimesIsMul(1500, 2);
    TimesIsMul(1500, 18);
    assert Offset(Firmware, 1) == 4520;
    assert Offset(Firmware, 2) == 9021;
    assert Offset(Firmware, 3) == 13522;
    assert Offset(Firmware, 4) == 18023;
    assert Offset(Firmware, 5) == 21024;
    assert Offset(Firmware, 6) == 24025;
    assert b[..6] == [3, 3, 3, 3, 2, 2];
    assert b[..5] == [3, 3, 3, 3, 2];
    assert b[..4] == [3, 3, 3, 3];
    assert b[..3] == [3, 3, 3];
    assert b[..2] == [3, 3];
    assert b[..1] == [3];
    assert b[..0] == [];
    SumPrefixStep(b, 0);
    SumPrefixStep(b, 1);
    SumPrefixStep(b, 2);
    SumPrefixStep(b, 3);
    SumPrefixStep(b, 4);
    SumPrefixStep(b, 5);
    SumPrefixStep(b, 6);
    assert b[..7] == b;
  }

  /* ---------------------------------------------------------------------- */
  /* reset_buffer                                                            */
  /* ---------------------------------------------------------------------- */

  /** A `uint16_t` stored high byte first; the two bytes read back as the
      value's low 16 bits. */
  function BigEndian16(v: nat): (r: seq<bv8>)
    ensures |r| == 2 && (r[0] as nat) * 256 + r[1] as nat == v % U16
  {
    var hi := (v / 256) % 256;
    var lo := v % 256;
    BigEndianDigits(v);
    [ToByte(hi), ToByte(lo)]
  }

  function Zeros(n: nat): (r: seq<bv8>)
    ensures |r| == n && forall i :: 0 <= i < n ==> r[i] == 0
  {
    seq(n, _ => 0)
  }

  /** Items per sensor, sensor count, sample rate, station id, zeroed timestamp. */
  function Header(c: Config): (h: seq<bv8>)
    ensures |h| == CONTROL_BYTES
    ensures (h[0] as nat) * 256 + h[1] as nat == c.items % U16
    ensures h[2] as nat == |c.bytesPerItem| % 256
    ensures (h[3] as nat) * 256 + h[4] as nat == c.sampleRate % U16
    ensures h[5] == c.station
    ensures forall i :: STAMP_AT <= i < CONTROL_BYTES ==> h[i] == 0
  {
    var items := BigEndian16(c.items);
    var rate := BigEndian16(c.sampleRate);
    var n := |c.bytesPerItem| % 256;
    var h := items + [ToByte(n)] + rate + [c.station] + Zeros(STAMP_SIZE);
    assert h[0] == items[0] && h[1] == items[1] && h[2] == ToByte(n);
    assert h[3] == rate[0] && h[4] == rate[1] && h[5] == c.station;
    assert h[STAMP_AT..] == Zeros(STAMP_SIZE);
    h
  }

  /** Index of sensor `i`'s id byte, just before its first sample. */
  function IdIndex(c: Config, i: nat): (p: nat)
    requires c.Valid() && i < |c.bytesPerItem|
    ensures CONTROL_BYTES <= p < MaxSize(c)
  {
    RegionWithinMax(c, i);
    Offset(c, i) - 1
  }

  /** `p` is the id byte of some sensor. */
  ghost predicate IsIdIndex(c: Config, p: int)
    requires c.Valid()
  {
    exists i :: 0 <= i < |c.bytesPerItem| && p == IdIndex(c, i)
  }

  function WriteIds(c: Config, buf: seq<bv8>, m: nat): (r: seq<bv8>)
    requires c.Valid() && m <= |c.bytesPerItem| && |buf| > MaxSize(c)
    ensures |r| == |buf|
    ensures forall i :: 0 <= i < m ==> r[IdIndex(c, i)] == c.ids[i]
    ensures forall p :: 0 <= p < |buf| && (forall i :: 0 <= i < m ==> p != IdIndex(c, i)) ==> r[p] == buf[p]
  {
    if m == 0 then buf
    else
      RegionWithinMax(c, m - 1);
      var prev := WriteIds(c, buf, m - 1);
      assert forall i :: 0 <= i < m - 1 ==> IdIndex(c, i) != IdIndex(c, m - 1) by {
        forall i | 0 <= i < m - 1
          ensures IdIndex(c, i) != IdIndex(c, m - 1)
        {
          RegionBeforeLaterId(c, i, m - 1);
        }
      }
      prev[IdIndex(c, m - 1) := c.ids[m - 1]]
  }

  /** reset_buffer: writes the header and every sensor id, nothing else. */
  function ResetBuffer(c: Config, buf: seq<bv8>): (r: seq<bv8>)
    requires c.Valid() && |buf| == MaxSize(c) + 1
    ensures |r| == |buf|
    ensures r[..CONTROL_BYTES] == Header(c)
    ensures forall i :: 0 <= i < |c.bytesPerItem| ==> r[IdIndex(c, i)] == c.ids[i]
    ensures forall p :: CONTROL_BYTES <= p < |buf| && !IsIdIndex(c, p) ==> r[p] == buf[p]
  {
    RegionWithinMax(c, 0);
    var withHeader := Header(c) + buf[CONTROL_BYTES..];
    var r := WriteIds(c, withHeader, |c.bytesPerItem|);
    assert r[..CONTROL_BYTES] == Header(c);
    r
  }

  /** The firmware header: 1500 = 0x05DC, 7 sensors, 100 Hz, station 'A', zero stamp. */
  lemma FirmwareHeader()
    ensures Header(Firmware) == [0x05, 0xDC, 7, 0x00, 100, 65, 0, 0, 0, 0, 0, 0, 0, 0, 0, 0, 0, 0]
  {
    var items := BigEndian16(1500);
    var rate := BigEndian16(100);
    var z := Zeros(STAMP_SIZE);
    FirmwareItemsBytes();
    FirmwareRateBytes();
    assert z == [0, 0, 0, 0, 0, 0, 0, 0, 0, 0, 0, 0];
    assert Header(Firmware) == items + [7] + rate + [65] + z;
  }

  lemma FirmwareItemsBytes()
    ensures BigEndian16(1500) == [0x05, 0xDC]
  {
    assert 1500 / 256 == 5 && 1500 % 256 == 0xDC;
  }

  lemma FirmwareRateBytes()
    ensures BigEndian16(100) == [0x00, 100]
  {
    assert 100 / 256 == 0 && 100 % 256 == 100;
  }

  /* ---------------------------------------------------------------------- */
  /* Packing one tick (inner loop of fill_buffer_with_sensor_task)           */
  /* ---------------------------------------------------------------------- */

  /** Where sensor `s`'s bytes start inside one tick's record (data_buff_pos). */
  function RecordAt(c: Config, s: nat): nat
    requires s <= |c.bytesPerItem|
  {
    Sum(c.bytesPerItem[..s])
  }

  /** Buffer index of byte `j` of tick `k` of sensor `s`. */
  function SampleIndex(c: Config, s: nat, k: nat, j: nat): nat
    requires s < |c.bytesPerItem|
  {
    Offset(c, s) + Times(k, c.bytesPerItem[s]) + j
  }

  /** Every sample byte lands inside its sensor's region. */
  lemma SampleInRegion(c: Config, s: nat, k: nat, j: nat)
    requires s < |c.bytesPerItem| && k < c.items && j < c.bytesPerItem[s]
    ensures Offset(c, s) <= SampleIndex(c, s, k, j) < RegionEnd(c, s)
  {
    SlotFits(k, c.items, c.bytesPerItem[s]);
  }

  /** Distinct (sensor, tick, byte) triples land on distinct indices. */
  lemma SampleIndexInjective(c: Config, s1: nat, k1: nat, j1: nat, s2: nat, k2: nat, j2: nat)
    requires s1 < |c.bytesPerItem| && k1 < c.items && j1 < c.bytesPerItem[s1]
    requires s2 < |c.bytesPerItem| && k2 < c.items && j2 < c.bytesPerItem[s2]
    requires SampleIndex(c, s1, k1, j1) == SampleIndex(c, s2, k2, j2)
    ensures s1 == s2 && k1 == k2 && j1 == j2
  {
    SampleInRegion(c, s1, k1, j1);
    SampleInRegion(c, s2, k2, j2);
    if s1 < s2 {
      RegionBeforeLaterId(c, s1, s2);
    } else if s2 < s1 {
      RegionBeforeLaterId(c, s2, s1);
    } else {
      SlotInjective(k1, j1, k2, j2, c.bytesPerItem[s1]);
    }
  }

  /** No sample byte touches the header, an id byte or the status byte. */
  lemma SampleAvoidsControlBytes(c: Config, s: nat, k: nat, j: nat)
    requires c.Valid()
    requires s < |c.bytesPerItem| && k < c.items && j < c.bytesPerItem[s]
    ensures CONTROL_BYTES < SampleIndex(c, s, k, j) < MaxSize(c)
    ensures !IsIdIndex(c, SampleIndex(c, s, k, j))
  {
    SampleInRegion(c, s, k, j);
    RegionWithinMax(c, s);
    if IsIdIndex(c, SampleIndex(c, s, k, j)) {
      var t :| 0 <= t < |c.bytesPerItem| && SampleIndex(c, s, k, j) == IdIndex(c, t);
      if t <= s {
        if t < s { RegionBeforeLaterId(c, t, s); }
        RegionWithinMax(c, t);
      } else {
        RegionBeforeLaterId(c, s, t);
      }
      assert false;
    }
  }

  /** Overwrites `bytes.len` bytes starting at `at`. */
  function WriteAt(buf: seq<bv8>, at: nat, bytes: seq<bv8>): (r: seq<bv8>)
    requires at + |bytes| <= |buf|
    ensures |r| == |buf|
  {
    buf[..at] + bytes + buf[at + |bytes|..]
  }

  lemma WriteAtExtend(buf: seq<bv8>, at: nat, bytes: seq<bv8>, x: bv8)
    requires at + |bytes| < |buf|
    ensures WriteAt(buf, at, bytes)[at + |bytes| := x] == WriteAt(buf, at, bytes + [x])
  {
  }

  lemma RecordAtStep(c: Config, s: nat)
    requires s < |c.bytesPerItem|
    ensures RecordAt(c, s + 1) == RecordAt(c, s) + c.bytesPerItem[s]
    ensures RecordAt(c, s + 1) <= Sum(c.bytesPerItem)
  {
    SumPrefixStep(c.bytesPerItem, s);
    SumPrefixMono(c.bytesPerItem, s + 1, |c.bytesPerItem|);
    assert c.bytesPerItem[..|c.bytesPerItem|] == c.bytesPerItem;
  }

  /** `p` is a byte written for tick `k` by one of the first `m` sensors. */
  ghost predicate InTick(c: Config, k: nat, m: nat, p: int)
    requires m <= |c.bytesPerItem|
  {
    exists s :: 0 <= s < m && SampleIndex(c, s, k, 0) <= p < SampleIndex(c, s, k, 0) + c.bytesPerItem[s]
  }

  /** The first `m` sensors of tick `k` copied into place, in send order. */
  function PackSensors(c: Config, buf: seq<bv8>, k: nat, rec: seq<bv8>, m: nat): (r: seq<bv8>)
    requires c.Valid() && k < c.items && m <= |c.bytesPerItem|
    requires |rec| == Sum(c.bytesPerItem) && |buf| > MaxSize(c)
    ensures |r| == |buf|
  {
    if m == 0 then buf
    else
      RecordAtStep(c, m - 1);
      RegionWithinMax(c, m - 1);
      SlotFits(k, c.items, c.bytesPerItem[m - 1]);
      WriteAt(PackSensors(c, buf, k, rec, m - 1), SampleIndex(c, m - 1, k, 0),
              rec[RecordAt(c, m - 1)..RecordAt(c, m)])
  }

  /** One tick: every sensor's slice of the record copied into its slot. */
  function PackTick(c: Config, buf: seq<bv8>, k: nat, rec: seq<bv8>): (r: seq<bv8>)
    requires c.Valid() && k < c.items
    requires |rec| == Sum(c.bytesPerItem) && |buf| > MaxSize(c)
    ensures |r| == |buf|
  {
    PackSensors(c, buf, k, rec, |c.bytesPerItem|)
  }

  /** Sensor m-1's slice is the last write of PackSensors(m). */
  lemma PackSensorsLast(c: Config, buf: seq<bv8>, k: nat, rec: seq<bv8>, m: nat, p: nat)
    requires c.Valid() && k < c.items && 0 < m <= |c.bytesPerItem|
    requires |rec| == Sum(c.bytesPerItem) && |buf| > MaxSize(c) && p < |buf|
    ensures RecordAt(c, m - 1) + c.bytesPerItem[m - 1] <= |rec|
    ensures var at := SampleIndex(c, m - 1, k, 0);
            PackSensors(c, buf, k, rec, m)[p]
            == if at <= p < at + c.bytesPerItem[m - 1] then rec[RecordAt(c, m - 1) + (p - at)]
               else PackSensors(c, buf, k, rec, m - 1)[p]
  {
    RecordAtStep(c, m - 1);
    RegionWithinMax(c, m - 1);
    SlotFits(k, c.items, c.bytesPerItem[m - 1]);
    var at := SampleIndex(c, m - 1, k, 0);
    var bytes := rec[RecordAt(c, m - 1)..RecordAt(c, m)];
    var prev := PackSensors(c, buf, k, rec, m - 1);
    assert PackSensors(c, buf, k, rec, m) == WriteAt(prev, at, bytes);
    WriteAtIndex(prev, at, bytes, p);
  }

  lemma WriteAtIndex(buf: seq<bv8>, at: nat, bytes: seq<bv8>, p: nat)
    requires at + |bytes| <= |buf| && p < |buf|
    ensures WriteAt(buf, at, bytes)[p] == if at <= p < at + |bytes| then bytes[p - at] else buf[p]
  {
  }

  /** Byte j of sensor s's slice lands at SampleIndex(s, k, j). */
  lemma {:induction false} PackSensorsHit(c: Config, buf: seq<bv8>, k: nat, rec: seq<bv8>, m: nat, s: nat, j: nat)
    requires c.Valid() && k < c.items && m <= |c.bytesPerItem|
    requires |rec| == Sum(c.bytesPerItem) && |buf| > MaxSize(c)
    requires s < m && j < c.bytesPerItem[s]
    ensures RecordAt(c, s) + j < |rec| && SampleIndex(c, s, k, j) < |buf|
    ensures PackSensors(c, buf, k, rec, m)[SampleIndex(c, s, k, j)] == rec[RecordAt(c, s) + j]
  {
    if s == m - 1 {
      HitLast(c, buf, k, rec, m, s, j);
    } else {
      HitEarlier(c, buf, k, rec, m, s, j);
      PackSensorsHit(c, buf, k, rec, m - 1, s, j);
    }
  }

  lemma HitLast(c: Config, buf: seq<bv8>, k: nat, rec: seq<bv8>, m: nat, s: nat, j: nat)
    requires c.Valid() && k < c.items && 0 < m <= |c.bytesPerItem|
    requires |rec| == Sum(c.bytesPerItem) && |buf| > MaxSize(c)
    requires s == m - 1 && j < c.bytesPerItem[s]
    ensures RecordAt(c, s) + j < |rec| && SampleIndex(c, s, k, j) < |buf|
    ensures PackSensors(c, buf, k, rec, m)[SampleIndex(c, s, k, j)] == rec[RecordAt(c, s) + j]
  {
    SampleInRegion(c, s, k, j);
    RegionWithinMax(c, s);
    var at := SampleIndex(c, s, k, 0);
    assert SampleIndex(c, s, k, j) == at + j;
    PackSensorsLast(c, buf, k, rec, m, at + j);
  }

  lemma HitEarlier(c: Config, buf: seq<bv8>, k: nat, rec: seq<bv8>, m: nat, s: nat, j: nat)
    requires c.Valid() && k < c.items && 0 < m <= |c.bytesPerItem|
    requires |rec| == Sum(c.bytesPerItem) && |buf| > MaxSize(c)
    requires s < m - 1 && j < c.bytesPerItem[s]
    ensures SampleIndex(c, s, k, j) < |buf|
    ensures PackSensors(c, buf, k, rec, m)[SampleIndex(c, s, k, j)]
            == PackSensors(c, buf, k, rec, m - 1)[SampleIndex(c, s, k, j)]
  {
    SampleInRegion(c, s, k, j);
    RegionWithinMax(c, s);
    RegionBeforeLaterId(c, s, m - 1);
    var p := SampleIndex(c, s, k, j);
    assert p < SampleIndex(c, m - 1, k, 0);
    PackSensorsLast(c, buf, k, rec, m, p);
  }

  /** Bytes outside the tick's slots of the first m sensors are untouched. */
  lemma {:induction false} PackSensorsFrame(c: Config, buf: seq<bv8>, k: nat, rec: seq<bv8>, m: nat, p: nat)
    requires c.Valid() && k < c.items && m <= |c.bytesPerItem|
    requires |rec| == Sum(c.bytesPerItem) && |buf| > MaxSize(c)
    requires p < |buf| && !InTick(c, k, m, p)
    ensures PackSensors(c, buf, k, rec, m)[p] == buf[p]
  {
    if m > 0 {
      assert !InTick(c, k, m - 1, p);
      PackSensorsFrame(c, buf, k, rec, m - 1, p);
      var at := SampleIndex(c, m - 1, k, 0);
      assert !(at <= p < at + c.bytesPerItem[m - 1]);
      PackSensorsLast(c, buf, k, rec, m, p);
    }
  }

  /** Every slot of sensors 0..m-1 in tick k holds its slice of `rec`. */
  ghost predicate SlotsHold(c: Config, r: seq<bv8>, k: nat, rec: seq<bv8>, m: nat)
    requires m <= |c.bytesPerItem|
  {
    forall s: nat, j: nat :: s < m && j < c.bytesPerItem[s] ==>
      SampleIndex(c, s, k, j) < |r| && RecordAt(c, s) + j < |rec| &&
      r[SampleIndex(c, s, k, j)] == rec[RecordAt(c, s) + j]
  }

  lemma PackSensorsSpec(c: Config, buf: seq<bv8>, k: nat, rec: seq<bv8>, m: nat)
    requires c.Valid() && k < c.items && m <= |c.bytesPerItem|
    requires |rec| == Sum(c.bytesPerItem) && |buf| > MaxSize(c)
    ensures SlotsHold(c, PackSensors(c, buf, k, rec, m), k, rec, m)
    ensures forall p :: 0 <= p < |buf| && !InTick(c, k, m, p) ==> PackSensors(c, buf, k, rec, m)[p] == buf[p]
  {
    var r := PackSensors(c, buf, k, rec, m);
    forall s: nat, j: nat | s < m && j < c.bytesPerItem[s]
      ensures SampleIndex(c, s, k, j) < |r| && RecordAt(c, s) + j < |rec| &&
              r[SampleIndex(c, s, k, j)] == rec[RecordAt(c, s) + j]
    {
      PackSensorsHit(c, buf, k, rec, m, s, j);
    }
    assert SlotsHold(c, r, k, rec, m);
    forall p | 0 <= p < |buf| && !InTick(c, k, m, p)
      ensures r[p] == buf[p]
    {
      PackSensorsFrame(c, buf, k, rec, m, p);
    }
  }

  /** The source's nested loop for one tick, with the running record
      position `data_buff_pos`. */
  method PackTickLoop(c: Config, buf: seq<bv8>, k: nat, rec: seq<bv8>) returns (r: seq<bv8>)
    requires c.Valid() && k < c.items
    requires |rec| == Sum(c.bytesPerItem) && |buf| > MaxSize(c)
    ensures r == PackTick(c, buf, k, rec)
  {
    var n := |c.bytesPerItem|;
    r := buf;
    var pos := 0;
    var s := 0;
    while s < n
      invariant 0 <= s <= n
      invariant pos == RecordAt(c, s)
      invariant r == PackSensors(c, buf, k, rec, s)
    {
      RecordAtStep(c, s);
      RegionWithinMax(c, s);
      SlotFits(k, c.items, c.bytesPerItem[s]);
      var at := Offset(c, s) + Times(k, c.bytesPerItem[s]);
      r, pos := CopySlot(r, at, rec, pos, c.bytesPerItem[s]);
      assert at == SampleIndex(c, s, k, 0) && pos == RecordAt(c, s + 1);
      assert r == PackSensors(c, buf, k, rec, s + 1);
      s := s + 1;
    }
  }

  /** The inner loop: `n` record bytes from `lo` on copied to `at` on. */
  method CopySlot(prev: seq<bv8>, at: nat, rec: seq<bv8>, lo: nat, n: nat) returns (r: seq<bv8>, pos: nat)
    requires lo + n <= |rec| && at + n <= |prev|
    ensures pos == lo + n
    ensures r == WriteAt(prev, at, rec[lo..pos])
  {
    r := prev;
    pos := lo;
    var j := 0;
    while j < n
      invariant 0 <= j <= n && pos == lo + j
      invariant r == WriteAt(prev, at, rec[lo..pos])
    {
      var done := rec[lo..pos];
      assert |done| == j && done + [rec[pos]] == rec[lo..pos + 1];
      WriteAtExtend(prev, at, done, rec[pos]);
      r := r[at + j := rec[pos]];
      pos := pos + 1;
      j := j + 1;
    }
  }

  /** The three sensor-task records land at positions 0, 3 and 12 of the
      18-byte tick record: the prefix sums for sensors 0, 1 and 4. */
  lemma FirmwareRecordPositions()
    ensures RecordAt(Firmware, 0) == 0 && RecordAt(Firmware, 1) == 3
    ensures RecordAt(Firmware, 4) == 12 && RecordAt(Firmware, 7) == 18
  {
    var b := Firmware.bytesPerItem;
    assert b[..0] == [];
    assert b[..1] == [3];
    assert b[..2] == [3, 3];
    assert b[..3] == [3, 3, 3];
    assert b[..4] == [3, 3, 3, 3];
    assert b[..5] == [3, 3, 3, 3, 2];
    assert b[..6] == [3, 3, 3, 3, 2, 2];
    assert b[..7] == b;
    SumPrefixStep(b, 0);
    SumPrefixStep(b, 1);
    SumPrefixStep(b, 2);
    SumPrefixStep(b, 3);
    SumPrefixStep(b, 4);
    SumPrefixStep(b, 5);
    SumPrefixStep(b, 6);
  }

  /* ---------------------------------------------------------------------- */
  /* All ticks, then the timestamp and status byte                           */
  /* ---------------------------------------------------------------------- */

  /** `p` is a sample byte of one of the first `t` ticks. */
  ghost predicate InTicks(c: Config, t: nat, p: int)
  {
    exists k, s :: 0 <= k < t && 0 <= s < |c.bytesPerItem|
      && SampleIndex(c, s, k, 0) <= p < SampleIndex(c, s, k, 0) + c.bytesPerItem[s]
  }

  function FillTicks(c: Config, buf: seq<bv8>, recs: seq<seq<bv8>>): (r: seq<bv8>)
    requires c.Valid() && |recs| <= c.items && |buf| > MaxSize(c)
    requires forall k :: 0 <= k < |recs| ==> |recs[k]| == Sum(c.bytesPerItem)
    ensures |r| == |buf|
  {
    if |recs| == 0 then buf
    else PackTick(c, FillTicks(c, buf, recs[..|recs| - 1]), |recs| - 1, recs[|recs| - 1])
  }

  /** A sample byte of tick k is no byte of any other tick. */
  lemma OtherTickApart(c: Config, s: nat, k: nat, j: nat, t: nat)
    requires c.Valid() && s < |c.bytesPerItem| && k < c.items && t < c.items && k != t
    requires j < c.bytesPerItem[s]
    ensures !InTick(c, t, |c.bytesPerItem|, SampleIndex(c, s, k, j))
  {
    var p := SampleIndex(c, s, k, j);
    if InTick(c, t, |c.bytesPerItem|, p) {
      var s2 :| 0 <= s2 < |c.bytesPerItem| && SampleIndex(c, s2, t, 0) <= p < SampleIndex(c, s2, t, 0) + c.bytesPerItem[s2];
      var j2 := p - SampleIndex(c, s2, t, 0);
      assert p == SampleIndex(c, s2, t, j2);
      SampleIndexInjective(c, s, k, j, s2, t, j2);
    }
  }

  /** After filling, byte j of tick k of sensor s holds the tick record's byte for it. */
  lemma {:induction false} FillTicksHit(c: Config, buf: seq<bv8>, recs: seq<seq<bv8>>, k: nat, s: nat, j: nat)
    requires c.Valid() && |recs| <= c.items && |buf| > MaxSize(c)
    requires forall k :: 0 <= k < |recs| ==> |recs[k]| == Sum(c.bytesPerItem)
    requires k < |recs| && s < |c.bytesPerItem| && j < c.bytesPerItem[s]
    ensures SampleIndex(c, s, k, j) < |buf| && RecordAt(c, s) + j < |recs[k]|
    ensures FillTicks(c, buf, recs)[SampleIndex(c, s, k, j)] == recs[k][RecordAt(c, s) + j]
  {
    var t := |recs| - 1;
    var init := recs[..t];
    var prev := FillTicks(c, buf, init);
    assert FillTicks(c, buf, recs) == PackTick(c, prev, t, recs[t]);
    if k < t {
      assert init[k] == recs[k];
      FillTicksHit(c, buf, init, k, s, j);
      OtherTickApart(c, s, k, j, t);
      PackSensorsFrame(c, prev, t, recs[t], |c.bytesPerItem|, SampleIndex(c, s, k, j));
    } else {
      PackSensorsHit(c, prev, t, recs[t], |c.bytesPerItem|, s, j);
    }
  }

  /** Filling leaves every byte outside the filled ticks' slots alone. */
  lemma {:induction false} FillTicksFrame(c: Config, buf: seq<bv8>, recs: seq<seq<bv8>>, p: nat)
    requires c.Valid() && |recs| <= c.items && |buf| > MaxSize(c)
    requires forall k :: 0 <= k < |recs| ==> |recs[k]| == Sum(c.bytesPerItem)
    requires p < |buf| && !InTicks(c, |recs|, p)
    ensures FillTicks(c, buf, recs)[p] == buf[p]
  {
    if |recs| > 0 {
      var t := |recs| - 1;
      var init := recs[..t];
      assert !InTicks(c, t, p);
      assert !InTick(c, t, |c.bytesPerItem|, p);
      var prev := FillTicks(c, buf, init);
      assert FillTicks(c, buf, recs) == PackTick(c, prev, t, recs[t]);
      FillTicksFrame(c, buf, init, p);
      PackSensorsFrame(c, prev, t, recs[t], |c.bytesPerItem|, p);
    }
  }

  /** Every slot of ticks 0..|recs|-1 holds its byte of that tick's record. */
  ghost predicate TicksHold(c: Config, r: seq<bv8>, recs: seq<seq<bv8>>)
  {
    forall k: nat, s: nat, j: nat :: k < |recs| && s < |c.bytesPerItem| && j < c.bytesPerItem[s] ==>
      SampleIndex(c, s, k, j) < |r| && RecordAt(c, s) + j < |recs[k]| &&
      r[SampleIndex(c, s, k, j)] == recs[k][RecordAt(c, s) + j]
  }

  /** Both halves, for every tick, sensor and byte, and every other index. */
  lemma FillTicksSpec(c: Config, buf: seq<bv8>, recs: seq<seq<bv8>>)
    requires c.Valid() && |recs| <= c.items && |buf| > MaxSize(c)
    requires forall k :: 0 <= k < |recs| ==> |recs[k]| == Sum(c.bytesPerItem)
    ensures TicksHold(c, FillTicks(c, buf, recs), recs)
    ensures forall p: nat :: 0 <= p < |buf| && !InTicks(c, |recs|, p) ==> FillTicks(c, buf, recs)[p] == buf[p]
  {
    var r := FillTicks(c, buf, recs);
    forall k: nat, s: nat, j: nat | k < |recs| && s < |c.bytesPerItem| && j < c.bytesPerItem[s]
      ensures SampleIndex(c, s, k, j) < |r| && RecordAt(c, s) + j < |recs[k]| &&
              r[SampleIndex(c, s, k, j)] == recs[k][RecordAt(c, s) + j]
    {
      FillTicksHit(c, buf, recs, k, s, j);
    }
    assert TicksHold(c, r, recs);
    forall p: nat | 0 <= p < |buf| && !InTicks(c, |recs|, p)
      ensures r[p] == buf[p]
    {
      FillTicksFrame(c, buf, recs, p);
    }
  }

  /** Header, id and status bytes belong to no tick's sample slots. */
  lemma ControlNotSample(c: Config, t: nat, p: nat)
    requires c.Valid() && t <= c.items
    requires p < CONTROL_BYTES || IsIdIndex(c, p) || p == MaxSize(c)
    ensures !InTicks(c, t, p)
  {
    if InTicks(c, t, p) {
      var k, s :| 0 <= k < t && 0 <= s < |c.bytesPerItem|
        && SampleIndex(c, s, k, 0) <= p < SampleIndex(c, s, k, 0) + c.bytesPerItem[s];
      SampleAvoidsControlBytes(c, s, k, p - SampleIndex(c, s, k, 0));
      assert false;
    }
  }

  /** A filled buffer gets the clock's 12 bytes at 6..17 and status 0. */
  function Complete(c: Config, buf: seq<bv8>, stamp: seq<bv8>): (r: seq<bv8>)
    requires |buf| == MaxSize(c) + 1 && |stamp| == STAMP_SIZE
    requires MaxSize(c) >= CONTROL_BYTES
    ensures |r| == |buf| && r[MaxSize(c)] == STATUS_SENSOR_DATA
  {
    WriteAt(buf, STAMP_AT, stamp)[MaxSize(c) := STATUS_SENSOR_DATA]
  }

  /** Completion touches the stamp bytes and the status byte only. */
  lemma CompleteAt(c: Config, buf: seq<bv8>, stamp: seq<bv8>, p: nat)
    requires |buf| == MaxSize(c) + 1 && |stamp| == STAMP_SIZE
    requires MaxSize(c) >= CONTROL_BYTES && p < |buf|
    ensures Complete(c, buf, stamp)[p]
            == if p == MaxSize(c) then STATUS_SENSOR_DATA
               else if STAMP_AT <= p < CONTROL_BYTES then stamp[p - STAMP_AT]
               else buf[p]
  {
    WriteAtIndex(buf, STAMP_AT, stamp, p);
  }

  /** One full duty cycle of the aggregator on a buffer prepared by reset_buffer. */
  function Package(c: Config, buf: seq<bv8>, recs: seq<seq<bv8>>, stamp: seq<bv8>): (r: seq<bv8>)
    requires c.Valid() && |buf| == MaxSize(c) + 1 && |stamp| == STAMP_SIZE
    requires |recs| == c.items
    requires forall k :: 0 <= k < |recs| ==> |recs[k]| == Sum(c.bytesPerItem)
    ensures |r| == |buf| && r[MaxSize(c)] == STATUS_SENSOR_DATA
  {
    RegionWithinMax(c, 0);
    Complete(c, FillTicks(c, buf, recs), stamp)
  }

  /** A buffer as the pool holds it between duty cycles: the first six
      header bytes and every sensor id as reset_buffer wrote them. The stamp
      bytes, the samples and the status byte may hold anything. */
  ghost predicate Prepared(c: Config, buf: seq<bv8>)
    requires c.Valid()
  {
    && |buf| == MaxSize(c) + 1
    && buf[..STAMP_AT] == Header(c)[..STAMP_AT]
    && forall i :: 0 <= i < |c.bytesPerItem| ==> buf[IdIndex(c, i)] == c.ids[i]
  }

  /** reset_buffer prepares any buffer. */
  lemma ResetPrepares(c: Config, raw: seq<bv8>)
    requires c.Valid() && |raw| == MaxSize(c) + 1
    ensures Prepared(c, ResetBuffer(c, raw))
  {
    var r := ResetBuffer(c, raw);
    assert r[..STAMP_AT] == r[..CONTROL_BYTES][..STAMP_AT];
  }

  /** A control byte of the package: the stamp at 6..17, otherwise what the
      buffer held before the duty cycle. */
  lemma PackageControl(c: Config, buf: seq<bv8>, recs: seq<seq<bv8>>, stamp: seq<bv8>, p: nat)
    requires c.Valid() && |buf| == MaxSize(c) + 1 && |stamp| == STAMP_SIZE
    requires |recs| == c.items
    requires forall k :: 0 <= k < |recs| ==> |recs[k]| == Sum(c.bytesPerItem)
    requires p < CONTROL_BYTES || IsIdIndex(c, p)
    ensures p < MaxSize(c)
    ensures Package(c, buf, recs, stamp)[p]
            == if STAMP_AT <= p < CONTROL_BYTES then stamp[p - STAMP_AT] else buf[p]
  {
    RegionWithinMax(c, 0);
    if IsIdIndex(c, p) {
      var i :| 0 <= i < |c.bytesPerItem| && p == IdIndex(c, i);
    }
    ControlNotSample(c, |recs|, p);
    FillTicksFrame(c, buf, recs, p);
    var filled := FillTicks(c, buf, recs);
    assert filled[p] == buf[p];
    CompleteAt(c, filled, stamp, p);
  }

  /** A sample byte of the package: the tick record's byte for that slot,
      whatever the buffer held before. */
  lemma PackageSample(c: Config, buf: seq<bv8>, recs: seq<seq<bv8>>, stamp: seq<bv8>, k: nat, s: nat, j: nat)
    requires c.Valid() && |buf| == MaxSize(c) + 1 && |stamp| == STAMP_SIZE
    requires |recs| == c.items
    requires forall k :: 0 <= k < |recs| ==> |recs[k]| == Sum(c.bytesPerItem)
    requires k < c.items && s < |c.bytesPerItem| && j < c.bytesPerItem[s]
    ensures SampleIndex(c, s, k, j) < MaxSize(c) && RecordAt(c, s) + j < |recs[k]|
    ensures Package(c, buf, recs, stamp)[SampleIndex(c, s, k, j)] == recs[k][RecordAt(c, s) + j]
  {
    RegionWithinMax(c, 0);
    FillTicksHit(c, buf, recs, k, s, j);
    SampleAvoidsControlBytes(c, s, k, j);
    CompleteAt(c, FillTicks(c, buf, recs), stamp, SampleIndex(c, s, k, j));
  }

  /** The wire format of a completed package, for a buffer the pool holds:
      the constant header fields, the timestamp, every sensor id, every
      sample where the layout puts it, and status byte 0 just past the
      transmitted bytes. The result is again a prepared buffer. */
  lemma PackageLayout(c: Config, buf: seq<bv8>, recs: seq<seq<bv8>>, stamp: seq<bv8>)
    requires c.Valid() && Prepared(c, buf) && |stamp| == STAMP_SIZE
    requires |recs| == c.items
    requires forall k :: 0 <= k < |recs| ==> |recs[k]| == Sum(c.bytesPerItem)
    ensures Prepared(c, Package(c, buf, recs, stamp))
    ensures Package(c, buf, recs, stamp)[STAMP_AT..CONTROL_BYTES] == stamp
    ensures TicksHold(c, Package(c, buf, recs, stamp), recs)
    ensures Package(c, buf, recs, stamp)[MaxSize(c)] == STATUS_SENSOR_DATA
  {
    var r := Package(c, buf, recs, stamp);
    RegionWithinMax(c, 0);
    forall p | 0 <= p < STAMP_AT
      ensures r[p] == Header(c)[p]
    {
      PackageControl(c, buf, recs, stamp, p);
      assert buf[..STAMP_AT][p] == buf[p];
    }
    forall p | STAMP_AT <= p < CONTROL_BYTES
      ensures r[p] == stamp[p - STAMP_AT]
    {
      PackageControl(c, buf, recs, stamp, p);
    }
    forall i | 0 <= i < |c.bytesPerItem|
      ensures r[IdIndex(c, i)] == c.ids[i]
    {
      assert IsIdIndex(c, IdIndex(c, i));
      PackageControl(c, buf, recs, stamp, IdIndex(c, i));
    }
    forall k: nat, s: nat, j: nat | k < |recs| && s < |c.bytesPerItem| && j < c.bytesPerItem[s]
      ensures SampleIndex(c, s, k, j) < |r| && RecordAt(c, s) + j < |recs[k]| &&
              r[SampleIndex(c, s, k, j)] == recs[k][RecordAt(c, s) + j]
    {
      PackageSample(c, buf, recs, stamp, k, s, j);
    }
    assert TicksHold(c, r, recs);
    assert r[..STAMP_AT] == Header(c)[..STAMP_AT];
    assert r[STAMP_AT..CONTROL_BYTES] == stamp;
  }
}
