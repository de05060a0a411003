/** The characteristics the client writes to and the small command frames
    that auth.py builds outside the authentication handshake: the language
    setting, the sleep-time heart-rate monitor, the alert frames, the
    realtime sensor commands, the year split of change_date and the trigger
    frame of start_get_previews_data. */
module Frames {
  import opened Wire
  import Codec

  /** The characteristics and notification descriptors written to.
      HzDescriptor is the notification descriptor of the HZ
      characteristic, which stop_realtime switches off. */
  datatype Target =
    | AuthChar | AuthDescriptor
    | HeartControl | HeartDescriptor
    | Configuration | Sensor | HzDescriptor
    | Alert | CustomAlert | CurrentTime
    | DfuControl | DfuData | Fetch

  /** One write request: the target and the bytes written. */
  datatype Write = Write(target: Target, frame: Bytes)

  /** The two values a notification descriptor is set to. */
  const NOTIFY_ON: Bytes := [0x01, 0x00]
  const NOTIFY_OFF: Bytes := [0x00, 0x00]

  // ------------------------------------------------------------ set_encoding

  /** auth.py set_encoding: 06 17 00 followed by the encoding name packed
      with '5s', i.e. padded with NUL bytes or cut to five bytes. */
  function EncodingPacket(encoding: Bytes): (r: Bytes)
    ensures |r| == 8
    ensures r[..3] == [0x06, 0x17, 0x00]
    ensures |encoding| <= 5 ==> r[3..3 + |encoding|] == encoding
    ensures forall i :: 3 + |encoding| <= i < 8 ==> r[i] == 0
    ensures |encoding| >= 5 ==> r[3..] == encoding[..5]
  {
    [0x06, 0x17, 0x00] + PadTo(encoding, 5)
  }

  /** The default "en_US" is exactly five bytes and is sent whole. */
  lemma DefaultEncoding()
    ensures EncodingPacket(Ascii("en_US")) == [0x06, 0x17, 0x00, 0x65, 0x6E, 0x5F, 0x55, 0x53]
  {
    var e := Ascii("en_US");
    assert e == [0x65, 0x6E, 0x5F, 0x55, 0x53];
  }

  // ------------------------------------------------------- decimal strings

  /** str(n) for a non-negative integer: its decimal digits, most
      significant first, without leading zeros. */
  function Digits(n: nat): (r: Bytes)
    ensures |r| >= 1
    ensures forall i :: 0 <= i < |r| ==> 0x30 <= r[i] <= 0x39
    ensures n > 0 ==> r[0] != 0x30
    decreases n
  {
    if n < 10 then [0x30 + n] else Digits(n / 10) + [0x30 + n % 10]
  }

  /** The value of a string of decimal digits, read left to right. */
  function DigitsValue(ds: Bytes): (v: int)
    decreases |ds|
  {
    if ds == [] then 0 else 10 * DigitsValue(ds[..|ds| - 1]) + (ds[|ds| - 1] as int - 0x30)
  }

  /** Reading back the digits of n gives n. */
  lemma {:induction false} DigitsRoundTrip(n: nat)
    ensures DigitsValue(Digits(n)) == n
    decreases n
  {
    if n >= 10 {
      DigitsRoundTrip(n / 10);
      var ds := Digits(n);
      assert ds[..|ds| - 1] == Digits(n / 10);
    }
  }

  /** str(n).encode() for any integer: a minus sign for negative values. */
  function Decimal(n: int): (r: Bytes)
    ensures n >= 0 ==> |r| >= 1 && DigitsValue(r) == n
    ensures n < 0 ==> |r| >= 2 && r[0] == 0x2D && DigitsValue(r[1..]) == -n
    ensures forall i :: (if n < 0 then 1 else 0) <= i < |r| ==> 0x30 <= r[i] <= 0x39
  {
    if n < 0 then
      DigitsRoundTrip(-n);
      assert ([0x2D] + Digits(-n))[1..] == Digits(-n);
      [0x2D] + Digits(-n)
    else
      DigitsRoundTrip(n);
      Digits(n)
  }

  // ------------------------------------- set_heart_monitor_sleep_support

  /** The writes of auth.py set_heart_monitor_sleep_support: enable the
      heart-rate notifications, switch sleep monitoring off, set the
      interval to 0, then (when enabled) switch it on and set the interval
      to the decimal text of measure_minute_interval, and finally disable
      the notifications again. */
  function HeartSleepWrites(enabled: bool, interval: int): (r: seq<Write>)
    ensures |r| == if enabled then 6 else 4
    ensures r[0] == Write(HeartDescriptor, NOTIFY_ON)
    ensures r[|r| - 1] == Write(HeartDescriptor, NOTIFY_OFF)
    ensures forall i :: 0 < i < |r| - 1 ==> r[i].target == HeartControl
    ensures r[1].frame == [0x15, 0x00, 0x00] && r[2].frame == [0x14, 0x00]
    ensures enabled ==> r[3].frame == [0x15, 0x00, 0x01]
    ensures enabled ==> |r[4].frame| >= 2 && r[4].frame[0] == 0x14 && r[4].frame[1..] == Decimal(interval)
  {
    [Write(HeartDescriptor, NOTIFY_ON),
     Write(HeartControl, [0x15, 0x00, 0x00]),
     Write(HeartControl, [0x14, 0x00])]
    + (if enabled then
         [Write(HeartControl, [0x15, 0x00, 0x01]),
          Write(HeartControl, [0x14] + Decimal(interval))]
       else [])
    + [Write(HeartDescriptor, NOTIFY_OFF)]
  }

  /** The interval the band reads from the sixth write is the one asked for. */
  lemma HeartSleepInterval(interval: nat)
    ensures DigitsValue(HeartSleepWrites(true, interval)[4].frame[1..]) == interval
  {
    DigitsRoundTrip(interval);
  }

  // ----------------------------------------------------------------- alerts

  /** The two navigation alerts: 05 01 followed by the text. */
  const LEFT_TURN: Bytes := [0x05, 0x01] + Ascii("Left Turn!")
  const RIGHT_TURN: Bytes := [0x05, 0x01] + Ascii("Right Turn!")

  /** auth.py send_custom_alert: alert types 3, 4 and 5 are prefixed with
      the type byte and 01; any other type leaves base_value unbound and
      the write raises, which is None here. */
  function CustomAlertFrame(alertType: int, phone: Bytes): (r: Option<Bytes>)
    ensures r.Some? <==> alertType in {3, 4, 5}
    ensures r.Some? ==> |r.value| == |phone| + 2 && r.value[..2] == [alertType, 0x01] && r.value[2..] == phone
  {
    if alertType == 5 then Some([0x05, 0x01] + phone)
    else if alertType == 4 then Some([0x04, 0x01] + phone)
    else if alertType == 3 then Some([0x03, 0x01] + phone)
    else None
  }

  // --------------------------------------------------------------- realtime

  /** The set-up writes of auth.py start_raw_data_realtime, before its
      polling loop: stop continuous and manual heart monitoring, enable raw
      sensor data, enable heart-rate notifications, start continuous
      monitoring, start the sensor. */
  function RealtimeStartWrites(): (r: seq<Write>)
    ensures |r| == 6
    ensures r[3] == Write(HeartDescriptor, NOTIFY_ON)
    ensures r[4] == Write(HeartControl, [0x15, 0x01, 0x01])
    ensures forall i :: 0 <= i < 3 ==> r[i].frame != [0x15, 0x01, 0x01]
  {
    [Write(HeartControl, [0x15, 0x02, 0x00]),
     Write(HeartControl, [0x15, 0x01, 0x00]),
     Write(Sensor, [0x01, 0x03, 0x19]),
     Write(HeartDescriptor, NOTIFY_ON),
     Write(HeartControl, [0x15, 0x01, 0x01]),
     Write(Sensor, [0x02])]
  }

  /** The keep-alive the realtime loop sends every twelve seconds. */
  const PING: Write := Write(HeartControl, [0x16])

  /** The writes of auth.py stop_realtime: stop continuous monitoring
      (twice), disable heart-rate notifications, stop the sensor, disable
      the notifications of the HZ characteristic. */
  function RealtimeStopWrites(): (r: seq<Write>)
    ensures |r| == 5
    ensures r[2] == Write(HeartDescriptor, NOTIFY_OFF)
    ensures r[4] == Write(HzDescriptor, NOTIFY_OFF)
    ensures forall i :: 0 <= i < |r| ==> r[i].frame != [0x15, 0x01, 0x01]
  {
    [Write(HeartControl, [0x15, 0x01, 0x00]),
     Write(HeartControl, [0x15, 0x01, 0x00]),
     Write(HeartDescriptor, NOTIFY_OFF),
     Write(Sensor, [0x03]),
     Write(HzDescriptor, NOTIFY_OFF)]
  }

  // ------------------------------------------------------------ change_date

  /** auth.py change_date splits the year into rem = year % 256 and
      fraction = year / 256 (Python 2 floor division). */
  function YearSplit(year: int): (r: (int, int))
    ensures 0 <= r.0 < 0x100
    ensures year == 0x100 * r.1 + r.0
    ensures 0 <= year < 0x1_0000 ==> 0 <= r.1 < 0x100
  {
    (year % 0x100, year / 0x100)
  }

  /** For a year of a valid date, the two halves are the bytes the band's
      own date record stores, low byte first. */
  lemma YearSplitMatchesRecord(year: int)
    requires 1 <= year <= 9999
    ensures EncodeInt16(year) == [YearSplit(year).0, YearSplit(year).1]
  {
  }

  /** The values change_date reads fit the bytes of the frame: a 16-bit
      year and one byte for each of the other fields. */
  predicate DateBytes(year: nat, month: nat, day: nat, hour: nat, minute: nat, second: nat)
  {
    year < 0x1_0000 && month < 0x100 && day < 0x100 && hour < 0x100 && minute < 0x100 && second < 0x100
  }

  /** The ten values change_date formats, in order: the year split,
      month, day, hour, minute, seconds, then 5, 0, 0. The last value, 0x16,
      is appended as text. For values that fit their bytes, they are the
      bytes of the intended frame. */
  function ChangeDateValues(year: nat, month: nat, day: nat, hour: nat, minute: nat, second: nat): (vs: seq<nat>)
    ensures |vs| == 10
    ensures vs[0] < 0x100 && vs[0] + 0x100 * vs[1] == year
    ensures vs[2..7] == [month, day, hour, minute, second]
    ensures DateBytes(year, month, day, hour, minute, second) ==>
      && (forall i :: 0 <= i < 10 ==> vs[i] < 0x100)
      && forall i :: 0 <= i < 10 ==> vs[i] == ChangeDateFrame(year, month, day, hour, minute, second)[i]
  {
    [year % 0x100, year / 0x100, month, day, hour, minute, second, 5, 0, 0]
  }

  /** A lower-case hexadecimal digit. */
  function HexDigit(v: nat): (c: char)
    requires v < 16
    ensures c != 'x' && c != '\\'
  {
    "0123456789abcdef"[v]
  }

  /** The hexadecimal digits of n, as Python's format(n, 'x') writes them. */
  function HexDigits(n: nat): (r: string)
    ensures |r| >= 1 && forall i :: 0 <= i < |r| ==> r[i] != 'x'
    ensures n < 0x100 ==> |r| <= 2
    ensures 0x10 <= n < 0x100 ==> |r| == 2
    decreases n
  {
    if n < 16 then [HexDigit(n)] else HexDigits(n / 16) + [HexDigit(n % 16)]
  }

  /** format(n, '#04x'): 0x followed by at least two hexadecimal digits. */
  function Format04x(n: nat): (r: string)
    ensures |r| >= 4 && r[..2] == "0x"
    ensures n < 0x100 ==> r == "0x" + [HexDigit(n / 16), HexDigit(n % 16)]
  {
    assert 16 <= n < 0x100 ==> HexDigits(n) == HexDigits(n / 16) + [HexDigit(n % 16)];
    assert HexDigit(0) == '0';
    "0x" + (if n < 16 then "0" else "") + HexDigits(n)
  }

  /** The concatenated literals of a list of values. */
  function Literals(vs: seq<nat>): (r: string)
    ensures vs == [] <==> r == []
    ensures r != [] ==> r[0] == '0'
  {
    if vs == [] then "" else Format04x(vs[0]) + Literals(vs[1..])
  }

  /** str.replace('0x', '\\x'): every occurrence, left to right, without
      overlap. */
  function ReplaceHexPrefix(s: string): (r: string)
    decreases |s|
  {
    if |s| < 2 then s
    else if s[0] == '0' && s[1] == 'x' then "\\x" + ReplaceHexPrefix(s[2..])
    else [s[0]] + ReplaceHexPrefix(s[1..])
  }

  /** change_date as written: the text it builds and writes. Each value
      becomes the four characters backslash, x and two hexadecimal digits,
      which is the text of a Python escape, not the byte it denotes. */
  function ChangeDateText(year: nat, month: nat, day: nat, hour: nat, minute: nat, second: nat): (r: string)
  {
    ReplaceHexPrefix(Literals(ChangeDateValues(year, month, day, hour, minute, second)) + "0x16")
  }

  /** The escape text of one byte value: backslash, x, two digits. */
  function Escape(v: nat): (r: string)
    requires v < 0x100
    ensures |r| == 4 && r[0] == '\\' && r[1] == 'x'
  {
    "\\x" + [HexDigit(v / 16), HexDigit(v % 16)]
  }

  /** The escape texts of a list of byte values, one after the other. */
  function Escapes(vs: seq<nat>): (r: string)
    requires forall i :: 0 <= i < |vs| ==> vs[i] < 0x100
    ensures |r| == 4 * |vs|
    ensures forall k :: 0 <= k < |vs| ==> r[4 * k] == '\\' && r[4 * k + 1] == 'x'
  {
    if vs == [] then ""
    else
      var head := Escape(vs[0]);
      var rest := Escapes(vs[1..]);
      var r := head + rest;
      assert forall k :: 0 <= k < |vs| ==> r[4 * k] == '\\' && r[4 * k + 1] == 'x' by {
        forall k | 0 <= k < |vs|
          ensures r[4 * k] == '\\' && r[4 * k + 1] == 'x'
        {
          if k > 0 {
            assert r[4 * k] == rest[4 * (k - 1)] && r[4 * k + 1] == rest[4 * (k - 1) + 1];
          }
        }
      }
      r
  }

  /** Replacing in 0x, two digits and text that starts with 0 (or
      nothing) replaces that 0x and goes on after the digits. */
  lemma ReplaceAfterLiteral(a: char, b: char, rest: string)
    requires a != 'x' && b != 'x'
    requires rest == [] || rest[0] == '0'
    ensures ReplaceHexPrefix("0x" + [a, b] + rest) == "\\x" + [a, b] + ReplaceHexPrefix(rest)
  {
    var t2 := [b] + rest;
    var t1 := [a] + t2;
    Nest("0x", a, b, rest);
    ReplaceAtPrefix(t1);
    ReplaceKeeps(a, t2);
    ReplaceKeeps(b, rest);
    Nest("\\x", a, b, ReplaceHexPrefix(rest));
  }

  /** A leading 0x is replaced and the rest is processed after it. */
  lemma ReplaceAtPrefix(t: string)
    ensures ReplaceHexPrefix("0x" + t) == "\\x" + ReplaceHexPrefix(t)
  {
    var s := "0x" + t;
    assert s[0] == '0' && s[1] == 'x' && s[2..] == t;
  }

  /** A character that does not start an occurrence of 0x is kept. */
  lemma ReplaceKeeps(c: char, t: string)
    requires c != '0' || t == [] || t[0] != 'x'
    ensures ReplaceHexPrefix([c] + t) == [c] + ReplaceHexPrefix(t)
  {
    var s := [c] + t;
    if t != [] {
      assert s[0] == c && s[1] == t[0] && s[1..] == t;
    }
  }

  /** The text for a list of byte values followed by 0x16 is the text of
      their escapes followed by that of 0x16. */
  lemma {:induction false} ReplaceLiterals(vs: seq<nat>)
    requires forall i :: 0 <= i < |vs| ==> vs[i] < 0x100
    ensures ReplaceHexPrefix(Literals(vs) + "0x16") == Escapes(vs) + "\\x16"
    decreases |vs|
  {
    if vs == [] {
      assert Literals(vs) + "0x16" == "0x16";
      assert ReplaceHexPrefix("0x16") == "\\x" + ReplaceHexPrefix("16");
    } else {
      var tail := vs[1..];
      ReplaceLiterals(tail);
      var rest := Literals(tail) + "0x16";
      var pair := [HexDigit(vs[0] / 16), HexDigit(vs[0] % 16)];
      Assoc("0x" + pair, Literals(tail), "0x16");
      ReplaceAfterLiteral(pair[0], pair[1], rest);
      Assoc("\\x" + pair, Escapes(tail), "\\x16");
    }
  }

  /** What change_date writes for any date whose values fit a byte is 44
      characters of escape text: character 4k is a backslash, where the
      band's date layout needs the eleven bytes themselves. */
  lemma ChangeDateWritesText(year: nat, month: nat, day: nat, hour: nat, minute: nat, second: nat)
    requires DateBytes(year, month, day, hour, minute, second)
    ensures var t := ChangeDateText(year, month, day, hour, minute, second);
      && |t| == 44
      && forall k :: 0 <= k < 11 ==> t[4 * k] == '\\' && t[4 * k + 1] == 'x'
  {
    var vs := ChangeDateValues(year, month, day, hour, minute, second);
    assert forall i :: 0 <= i < |vs| ==> vs[i] < 0x100;
    ReplaceLiterals(vs);
    var e := Escapes(vs);
    assert forall k :: 0 <= k < 10 ==> (e + "\\x16")[4 * k] == e[4 * k] && (e + "\\x16")[4 * k + 1] == e[4 * k + 1];
  }

  /** The eleven bytes change_date evidently means to write: the date in
      the band's own current-time layout (year low byte first), day of week
      5, fractions 0, then 00 and 16. */
  function ChangeDateFrame(year: nat, month: nat, day: nat, hour: nat, minute: nat, second: nat): (r: Bytes)
    requires DateBytes(year, month, day, hour, minute, second)
    ensures |r| == 11 && UInt16(r[0], r[1]) == year
    ensures r[2..7] == [month, day, hour, minute, second]
    ensures r[7..] == [0x05, 0x00, 0x00, 0x16]
  {
    [YearSplit(year).0, YearSplit(year).1, month, day, hour, minute, second, 5, 0, 0, 0x16]
  }

  /** Reading the current time back (get_current_time) after writing the
      corrected frame gives the date that was set. */
  lemma ChangeDateRoundTrip(d: Codec.DateTime)
    requires Codec.ValidDateTime(d)
    ensures var f := ChangeDateFrame(d.year, d.month, d.day, d.hour, d.minute, d.second);
      Codec.CurrentTime(f) == Success(Codec.DateRecord(d, Some(5), Some(0)))
  {
    var rec := Codec.DateRecord(d, Some(5), Some(0));
    var f := ChangeDateFrame(d.year, d.month, d.day, d.hour, d.minute, d.second);
    YearSplitMatchesRecord(d.year);
    assert Codec.EncodeDate(rec) == f[..9];
    Codec.ParseEncodeDate(rec);
    assert Codec.DateFieldsOf(f) == Codec.DateFieldsOf(f[..9]);
  }

  // -------------------------------------------------- start_get_previews_data

  /** The activity-fetch trigger: 01 01, the year as '<H', the low bytes of
      month, day, hour and minute, then 00 08. */
  function TriggerFrame(d: Codec.DateTime): (r: Bytes)
    requires Codec.ValidDateTime(d)
    ensures |r| == 10
    ensures r[..2] == [0x01, 0x01] && r[8..] == [0x00, 0x08]
    ensures UInt16(r[2], r[3]) == d.year
    ensures r[4..8] == [d.month, d.day, d.hour, d.minute]
  {
    [0x01, 0x01] + EncodeUInt16(d.year) + [d.month, d.day, d.hour, d.minute] + [0x00, 0x08]
  }

  /** The time stamp inside the trigger has the band's own date layout:
      decoding it as a date record gives back the year, month, day, hour
      and minute. */
  lemma TriggerCarriesDate(d: Codec.DateTime)
    requires Codec.ValidDateTime(d)
    ensures var f := Codec.DateFieldsOf(TriggerFrame(d)[2..8]);
      f.year == Some(d.year) && f.month == Some(d.month) && f.day == Some(d.day)
      && f.hours == Some(d.hour) && f.minutes == Some(d.minute) && f.seconds.None?
  {
    var ts := TriggerFrame(d)[2..8];
    assert ts[..2] == EncodeUInt16(d.year);
    assert Int16(ts[0], ts[1]) == d.year;
  }
}
