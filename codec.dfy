/** Decoders for the fixed-layout payloads the band sends: date and time,
    battery status, step counter, raw accelerometer and raw heart frames,
    heart-rate samples and the serial number. Every optional field is guarded
    by its own length test; where the client raises instead (an unguarded
    index, a struct format whose length does not match, datetime's checks),
    the decoder returns a Failure. */
module Codec {
  import opened Wire

  datatype ParseError =
    | IndexOutOfRange   // an unguarded byte index past the end (IndexError)
    | MissingDateField  // datetime() given an absent field (TypeError)
    | DateOutOfRange    // datetime() given a field outside its range (ValueError)
    | LengthMismatch    // struct.unpack on a slice of the wrong length (struct.error)

  /** v is the signed byte at offset i of b, present exactly when b reaches it. */
  predicate ByteField(v: Option<int>, b: Bytes, i: nat)
  {
    && (v.Some? <==> i < |b|)
    && (v.Some? ==> -0x80 <= v.value < 0x80 && EncodeInt8(v.value) == b[i])
  }

  /** v is the signed 16-bit value at offsets i, i+1 of b, present exactly when b reaches both. */
  predicate WordField(v: Option<int>, b: Bytes, i: nat)
  {
    && (v.Some? <==> i + 2 <= |b|)
    && (v.Some? ==> -0x8000 <= v.value < 0x8000 && EncodeInt16(v.value) == b[i..i + 2])
  }

  function ByteAt(b: Bytes, i: nat): (v: Option<int>)
    ensures ByteField(v, b, i)
  {
    if i < |b| then Some(Int8(b[i])) else None
  }

  function WordAt(b: Bytes, i: nat): (v: Option<int>)
    ensures WordField(v, b, i)
  {
    if i + 2 <= |b| then
      Int16Bytes(b[i], b[i + 1]);
      Some(Int16(b[i], b[i + 1]))
    else None
  }

  // ---------------------------------------------------------------- dates

  /** The raw fields of a date record (auth.py _parse_date, before datetime). */
  datatype DateFields = DateFields(
    year: Option<int>, month: Option<int>, day: Option<int>,
    hours: Option<int>, minutes: Option<int>, seconds: Option<int>,
    dayOfWeek: Option<int>, fractions256: Option<int>)

  /** Each field is decoded on its own: year from bytes 0-1, then one signed
      byte each for month..fractions256 at offsets 2..8. */
  function DateFieldsOf(b: Bytes): (f: DateFields)
    ensures WordField(f.year, b, 0)
    ensures ByteField(f.month, b, 2) && ByteField(f.day, b, 3)
    ensures ByteField(f.hours, b, 4) && ByteField(f.minutes, b, 5)
    ensures ByteField(f.seconds, b, 6) && ByteField(f.dayOfWeek, b, 7)
    ensures ByteField(f.fractions256, b, 8)
  {
    DateFields(WordAt(b, 0), ByteAt(b, 2), ByteAt(b, 3), ByteAt(b, 4),
               ByteAt(b, 5), ByteAt(b, 6), ByteAt(b, 7), ByteAt(b, 8))
  }

  /** Cutting the buffer only removes fields: every field still present in
      the decoded prefix has the value it has in the whole buffer. */
  lemma DateFieldsOfPrefix(b: Bytes, k: nat)
    requires k <= |b|
    ensures var p, f := DateFieldsOf(b[..k]), DateFieldsOf(b);
      && (p.year.Some? ==> p.year == f.year)
      && (p.month.Some? ==> p.month == f.month)
      && (p.day.Some? ==> p.day == f.day)
      && (p.hours.Some? ==> p.hours == f.hours)
      && (p.minutes.Some? ==> p.minutes == f.minutes)
      && (p.seconds.Some? ==> p.seconds == f.seconds)
      && (p.dayOfWeek.Some? ==> p.dayOfWeek == f.dayOfWeek)
      && (p.fractions256.Some? ==> p.fractions256 == f.fractions256)
  {
  }

  datatype DateTime = DateTime(year: int, month: int, day: int, hour: int, minute: int, second: int)

  predicate IsLeapYear(y: int)
  {
    y % 4 == 0 && (y % 100 != 0 || y % 400 == 0)
  }

  function DaysInMonth(y: int, m: int): (n: int)
    requires 1 <= m <= 12
    ensures 28 <= n <= 31
    ensures n == 29 <==> m == 2 && IsLeapYear(y)
  {
    if m == 2 then (if IsLeapYear(y) then 29 else 28)
    else if m == 4 || m == 6 || m == 9 || m == 11 then 30
    else 31
  }

  /** The range checks of Python's datetime constructor (MINYEAR 1, MAXYEAR 9999). */
  predicate ValidDateTime(d: DateTime)
  {
    && 1 <= d.year <= 9999
    && 1 <= d.month <= 12
    && 1 <= d.day <= DaysInMonth(d.year, d.month)
    && 0 <= d.hour < 24
    && 0 <= d.minute < 60
    && 0 <= d.second < 60
  }

  /** What _parse_date returns: the datetime and the two trailing fields. */
  datatype DateRecord = DateRecord(date: DateTime, dayOfWeek: Option<int>, fractions256: Option<int>)

  /** The seven bytes a valid datetime is stored in. */
  function EncodeDateTime(d: DateTime): (r: Bytes)
    requires ValidDateTime(d)
    ensures |r| == 7
  {
    EncodeInt16(d.year) + [d.month, d.day, d.hour, d.minute, d.second]
  }

  predicate IsSignedByte(v: Option<int>)
  {
    v.Some? ==> -0x80 <= v.value < 0x80
  }

  /** A well-formed date record: valid datetime, trailing fields signed
      bytes, and fractions256 only after day_of_week. */
  predicate EncodableDate(rec: DateRecord)
  {
    && ValidDateTime(rec.date)
    && IsSignedByte(rec.dayOfWeek) && IsSignedByte(rec.fractions256)
    && (rec.fractions256.Some? ==> rec.dayOfWeek.Some?)
  }

  /** The shortest buffer _parse_date reads rec from. */
  function EncodeDate(rec: DateRecord): (r: Bytes)
    requires EncodableDate(rec)
    ensures 7 <= |r| <= 9
  {
    EncodeDateTime(rec.date)
    + (if rec.dayOfWeek.Some? then [EncodeInt8(rec.dayOfWeek.value)] else [])
    + (if rec.fractions256.Some? then [EncodeInt8(rec.fractions256.value)] else [])
  }

  /** auth.py _parse_date including the datetime() call: absent year..seconds
      raise TypeError, out-of-range values raise ValueError. */
  function ParseDate(b: Bytes): (r: Result<DateRecord, ParseError>)
    ensures r == Failure(MissingDateField) <==> |b| < 7
    ensures r.Failure? ==> r.error in {MissingDateField, DateOutOfRange}
    ensures r.Success? ==>
      && EncodableDate(r.value)
      && EncodeDate(r.value) == b[..Min(9, |b|)]
  {
    var f := DateFieldsOf(b);
    if f.year.None? || f.month.None? || f.day.None? || f.hours.None?
       || f.minutes.None? || f.seconds.None? then
      Failure(MissingDateField)
    else
      var d := DateTime(f.year.value, f.month.value, f.day.value,
                        f.hours.value, f.minutes.value, f.seconds.value);
      if !ValidDateTime(d) then Failure(DateOutOfRange)
      else
        var rec := DateRecord(d, f.dayOfWeek, f.fractions256);
        assert EncodeDate(rec) == b[..Min(9, |b|)] by {
          assert EncodeDateTime(d) == b[..7];
        }
        Success(rec)
  }

  /** Writing a date record and parsing it back gives the record again. */
  lemma ParseEncodeDate(rec: DateRecord)
    requires EncodableDate(rec)
    ensures ParseDate(EncodeDate(rec)) == Success(rec)
  {
    var b := EncodeDate(rec);
    var d := rec.date;
    assert b[..2] == EncodeInt16(d.year);
    Int16Bytes(b[0], b[1]);
  }

  /** get_current_time parses read()[0:9]; the cut changes nothing. */
  function CurrentTime(data: Bytes): (r: Result<DateRecord, ParseError>)
    ensures r == ParseDate(data)
  {
    var cut := Slice(data, 0, 9);
    assert DateFieldsOf(cut) == DateFieldsOf(data);
    ParseDate(cut)
  }

  // -------------------------------------------------------------- battery

  datatype ChargeStatus = Normal | Charging

  datatype Battery = Battery(
    status: ChargeStatus, level: Option<int>, lastLevel: Option<int>,
    lastCharge: DateRecord, lastOff: DateRecord)

  /** auth.py _parse_battery_response. Byte 2 is read without a length guard,
      and both dates come from 7-byte slices, so the whole parse succeeds only
      on buffers of 18 bytes or more whose two embedded dates are valid. */
  function ParseBattery(b: Bytes): (r: Result<Battery, ParseError>)
    ensures |b| < 3 ==> r == Failure(IndexOutOfRange)
    ensures r.Success? <==>
      |b| >= 18 && ParseDate(b[11..18]).Success? && ParseDate(b[3..10]).Success?
    ensures r.Success? ==>
      && ByteField(r.value.level, b, 1)
      && ByteField(r.value.lastLevel, b, 19)
      && (r.value.status == Normal <==> b[2] == 0)
      && r.value.lastCharge == ParseDate(b[11..18]).value
      && r.value.lastOff == ParseDate(b[3..10]).value
  {
    var level := ByteAt(b, 1);
    var lastLevel := ByteAt(b, 19);
    if |b| < 3 then Failure(IndexOutOfRange)
    else
      var status := if Int8(b[2]) == 0 then Normal else Charging;
      assert |b| >= 18 ==> Slice(b, 11, 18) == b[11..18] && Slice(b, 3, 10) == b[3..10];
      match ParseDate(Slice(b, 11, 18))
      case Failure(e) => Failure(e)
      case Success(lastCharge) =>
        match ParseDate(Slice(b, 3, 10))
        case Failure(e) => Failure(e)
        case Success(lastOff) =>
          Success(Battery(status, level, lastLevel, lastCharge, lastOff))
  }

  /** The two dates are bytes 11..17 (last charge) and 3..9 (last
      switch-off), read back exactly; coming from 7-byte slices, their
      day_of_week and fractions256 are never present. The level is always
      present. */
  lemma BatteryDates(b: Bytes)
    requires ParseBattery(b).Success?
    ensures var v := ParseBattery(b).value;
      && v.level.Some?
      && EncodableDate(v.lastCharge) && EncodeDate(v.lastCharge) == b[11..18]
      && EncodableDate(v.lastOff) && EncodeDate(v.lastOff) == b[3..10]
      && v.lastCharge.dayOfWeek.None? && v.lastCharge.fractions256.None?
      && v.lastOff.dayOfWeek.None? && v.lastOff.fractions256.None?
  {
    var v := ParseBattery(b).value;
    assert b[11..18][..7] == b[11..18] && b[3..10][..7] == b[3..10];
    assert |EncodeDate(v.lastCharge)| == 7;
    assert |EncodeDate(v.lastOff)| == 7;
  }

  // ---------------------------------------------------------------- steps

  datatype Steps = Steps(steps: Option<int>, meters: Option<int>, fatGrams: Option<int>, calories: Option<int>)

  /** The decoding in auth.py get_steps: steps from bytes 1-2, fat grams from
      bytes 2-3 (so the two share byte 2), meters from bytes 5-6, calories
      from the single signed byte 9. */
  function ParseSteps(a: Bytes): (r: Steps)
    ensures WordField(r.steps, a, 1)
    ensures WordField(r.meters, a, 5)
    ensures WordField(r.fatGrams, a, 2)
    ensures ByteField(r.calories, a, 9)
  {
    Steps(WordAt(a, 1), WordAt(a, 5), WordAt(a, 2), ByteAt(a, 9))
  }

  // ------------------------------------------------------------ raw frames

  /** One accelerometer group; the client names its third value 'wtf'. */
  datatype AccelSample = AccelSample(x: int, y: int, z: int)

  predicate IsInt16(v: int) { -0x8000 <= v < 0x8000 }

  function EncodeSample(s: AccelSample): (r: Bytes)
    requires IsInt16(s.x) && IsInt16(s.y) && IsInt16(s.z)
    ensures |r| == 6
  {
    EncodeInt16(s.x) + EncodeInt16(s.y) + EncodeInt16(s.z)
  }

  function SampleAt(b: Bytes, off: nat): (s: AccelSample)
    requires off + 6 <= |b|
    ensures IsInt16(s.x) && IsInt16(s.y) && IsInt16(s.z)
    ensures EncodeSample(s) == b[off..off + 6]
  {
    Int16Bytes(b[off], b[off + 1]);
    Int16Bytes(b[off + 2], b[off + 3]);
    Int16Bytes(b[off + 4], b[off + 5]);
    AccelSample(Int16(b[off], b[off + 1]), Int16(b[off + 2], b[off + 3]), Int16(b[off + 4], b[off + 5]))
  }

  /** auth.py _parse_raw_accel: three groups of 'hhh' from the 6-byte slices
      at offsets 2, 8 and 14; a slice shorter than 6 bytes raises. */
  function ParseRawAccel(b: Bytes): (r: Result<seq<AccelSample>, ParseError>)
    ensures r.Success? <==> |b| >= 20
    ensures r.Failure? ==> r.error == LengthMismatch
    ensures r.Success? ==> |r.value| == 3 && forall i :: 0 <= i < 3 ==>
      var s := r.value[i];
      IsInt16(s.x) && IsInt16(s.y) && IsInt16(s.z) && EncodeSample(s) == b[2 + 6 * i..8 + 6 * i]
  {
    if |b| < 20 then Failure(LengthMismatch)
    else Success([SampleAt(b, 2), SampleAt(b, 8), SampleAt(b, 14)])
  }

  /** auth.py _parse_raw_heart: 'HHHHHHH' over bytes[2:], which must be
      exactly 14 bytes long. */
  function ParseRawHeart(b: Bytes): (r: Result<seq<int>, ParseError>)
    ensures r.Success? <==> |b| == 16
    ensures r.Failure? ==> r.error == LengthMismatch
    ensures r.Success? ==> |r.value| == 7 && forall i :: 0 <= i < 7 ==>
      0 <= r.value[i] < 0x1_0000 && EncodeUInt16(r.value[i]) == b[2 + 2 * i..4 + 2 * i]
  {
    if |b| != 16 then Failure(LengthMismatch)
    else Success(seq(7, i requires 0 <= i < 7 => UInt16(b[2 + 2 * i], b[3 + 2 * i])))
  }

  /** The heart-rate sample delivered to the heart callback: struct 'bb' over
      the whole payload, second value. */
  function ParseHeartMeasure(p: Bytes): (r: Result<int, ParseError>)
    ensures r.Success? <==> |p| == 2
    ensures r.Failure? ==> r.error == LengthMismatch
    ensures r.Success? ==> -0x80 <= r.value < 0x80 && EncodeInt8(r.value) == p[1]
  {
    if |p| != 2 then Failure(LengthMismatch) else Success(Int8(p[1]))
  }

  /** auth.py get_serial: the 12-byte string, or nothing for any other length. */
  function ParseSerial(data: Bytes): (r: Option<Bytes>)
    ensures r.Some? <==> |data| == 12
    ensures r.Some? ==> r.value == data
  {
    if |data| == 12 then Some(data[|data| - 12..]) else None
  }
}
