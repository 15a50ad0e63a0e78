/**
 * Interpretation of raw measurements: the temperature offset pair, the
 * onewire probe file (`t=` token, sentinel values) and the result of the
 * external DHT22 command. Every failure here is soft: it yields no value.
 */
module Readings {
  import opened Records

  /** The standard linear conversion from degrees Celsius to degrees Fahrenheit. */
  function CelsiusToFahrenheit(c: real): real
  {
    c * 9.0 / 5.0 + 32.0
  }

  // ---------------------------------------------------------------------
  // Offsets

  /**
   * `__compute_temperature_offset`: the (celsius, fahrenheit) offsets for a
   * user offset given in `unit`. A zero offset gives (0, 0); otherwise the
   * component in the given unit is the offset itself and the other one is
   * its conversion (the offset is converted as a temperature, not as a
   * difference of temperatures).
   */
  function ComputeOffset(offset: real, unit: string): (r: (real, real))
    ensures offset == 0.0 ==> r == (0.0, 0.0)
    ensures offset != 0.0 ==> r.1 == CelsiusToFahrenheit(r.0)
    ensures offset != 0.0 && unit == "celsius" ==> r.0 == offset
    ensures offset != 0.0 && unit != "celsius" ==> r.1 == offset
  {
    if offset == 0.0 then (0.0, 0.0)
    else if unit == "celsius" then (offset, offset * 1.8 + 32.0)
    else ((offset - 32.0) / 1.8, offset)
  }

  /** Converting a celsius offset to fahrenheit and back recovers it. */
  lemma OffsetRoundTrip(offset: real)
    requires offset != 0.0 && ComputeOffset(offset, "celsius").1 != 0.0
    ensures ComputeOffset(ComputeOffset(offset, "celsius").1, "fahrenheit").0 == offset
  {
  }

  /** A zero offset is the one case whose pair is not a Celsius/Fahrenheit pair of one temperature. */
  lemma ZeroOffsetIsNotConverted(unit: string)
    ensures ComputeOffset(0.0, unit).1 != CelsiusToFahrenheit(ComputeOffset(0.0, unit).0)
  {
  }

  // ---------------------------------------------------------------------
  // Text helpers

  /** Whitespace removed by `strip()` (the ASCII part of it). */
  predicate IsSpace(c: char)
  {
    c == ' ' || c == '\t' || c == '\n' || c == '\r' || c == '\U{0B}' || c == '\U{0C}'
  }

  function StripLeft(s: string): (r: string)
    ensures |r| <= |s| && r == s[|s| - |r|..]
    ensures forall k :: 0 <= k < |s| - |r| ==> IsSpace(s[k])
    ensures r == [] || !IsSpace(r[0])
  {
    if s != [] && IsSpace(s[0]) then StripLeft(s[1..]) else s
  }

  function StripRight(s: string): (r: string)
    ensures |r| <= |s| && r == s[..|r|]
    ensures forall k :: |r| <= k < |s| ==> IsSpace(s[k])
    ensures r == [] || !IsSpace(r[|r| - 1])
  {
    if s != [] && IsSpace(s[|s| - 1]) then StripRight(s[..|s| - 1]) else s
  }

  /** `strip()`: the text without its leading and trailing whitespace. */
  function Strip(s: string): string
  {
    StripRight(StripLeft(s))
  }

  /** Trailing whitespace is removed and nothing else. */
  lemma {:induction false} StripRightSpaces(x: string, ws: string)
    requires x != [] && !IsSpace(x[|x| - 1])
    requires forall k :: 0 <= k < |ws| ==> IsSpace(ws[k])
    ensures StripRight(x + ws) == x
  {
    if ws != [] {
      var w := ws[..|ws| - 1];
      assert (x + ws)[..|x + ws| - 1] == x + w;
      StripRightSpaces(x, w);
    } else {
      assert x + ws == x;
    }
  }

  /** The two characters `t=` start at index k of the line. */
  predicate MarkerAt(line: string, k: int)
  {
    0 <= k && k + 1 < |line| && line[k] == 't' && line[k + 1] == '='
  }

  /** `line.find('t=')`: the first index of the marker, None for -1. */
  function FindMarker(line: string): (r: Option<nat>)
    ensures r.Some? ==> MarkerAt(line, r.value) && forall k :: 0 <= k < r.value ==> !MarkerAt(line, k)
    ensures r.None? ==> forall k :: !MarkerAt(line, k)
  {
    FindMarkerFrom(line, 0)
  }

  function FindMarkerFrom(line: string, i: nat): (r: Option<nat>)
    requires forall k :: 0 <= k < i ==> !MarkerAt(line, k)
    ensures r.Some? ==> MarkerAt(line, r.value) && forall k :: 0 <= k < r.value ==> !MarkerAt(line, k)
    ensures r.None? ==> forall k :: !MarkerAt(line, k)
    decreases |line| - i
  {
    if i + 1 >= |line| then None
    else if MarkerAt(line, i) then Some(i)
    else FindMarkerFrom(line, i + 1)
  }

  predicate IsDigit(c: char)
  {
    '0' <= c <= '9'
  }

  predicate AllDigits(s: string)
  {
    forall k :: 0 <= k < |s| ==> IsDigit(s[k])
  }

  /** Decimal value of a string of digits. */
  function DigitsValue(s: string): nat
    requires AllDigits(s)
  {
    if s == [] then 0
    else DigitsValue(s[..|s| - 1]) * 10 + (s[|s| - 1] as int - '0' as int)
  }

  /** A token in integer syntax: an optional sign and at least one digit. */
  predicate IntSyntax(s: string)
  {
    || (|s| > 0 && AllDigits(s))
    || (|s| > 1 && (s[0] == '-' || s[0] == '+') && AllDigits(s[1..]))
  }

  /** `float(token)` restricted to integer syntax: None where the conversion raises. */
  function ParseInt(s: string): (r: Option<int>)
    ensures r.Some? <==> IntSyntax(s)
    ensures r.Some? && s[0] == '-' ==> r.value <= 0
    ensures r.Some? && s[0] != '-' ==> r.value >= 0
    ensures r.Some? && AllDigits(s) ==> r.value == DigitsValue(s)
    ensures r.Some? && !AllDigits(s) ==>
      && |s| > 1 && (s[0] == '-' || s[0] == '+') && AllDigits(s[1..])
      && r.value == (if s[0] == '-' then -(DigitsValue(s[1..]) as int) else DigitsValue(s[1..]) as int)
  {
    if |s| > 1 && (s[0] == '-' || s[0] == '+') && AllDigits(s[1..]) then
      (var v: int := DigitsValue(s[1..]); if s[0] == '-' then Some(-v) else Some(v))
    else if |s| > 0 && AllDigits(s) then Some(DigitsValue(s))
    else None
  }

  /** The decimal text of a natural number, most significant digit first, without leading zeros. */
  function DecimalText(n: nat): (r: string)
    ensures |r| >= 1 && AllDigits(r)
    ensures n > 0 ==> r[0] != '0'
    decreases n
  {
    var last := ['0' + ((n % 10) as char)];
    if n < 10 then last else DecimalText(n / 10) + last
  }

  /** Reading the decimal text of a number gives the number back. */
  lemma {:induction false} DigitsValueOfText(n: nat)
    ensures DigitsValue(DecimalText(n)) == n
    decreases n
  {
    var t := DecimalText(n);
    if n >= 10 {
      DigitsValueOfText(n / 10);
      assert t[..|t| - 1] == DecimalText(n / 10);
    }
  }

  /** `float(str(n))` on an integer: the text of any integer, with its sign, parses back to it. */
  lemma ParseIntRoundTrip(n: int)
    ensures n >= 0 ==> ParseInt(DecimalText(n)) == Some(n)
    ensures n < 0 ==> ParseInt("-" + DecimalText(-n)) == Some(n)
  {
    if n >= 0 {
      DigitsValueOfText(n);
    } else {
      DigitsValueOfText(-n);
      assert ("-" + DecimalText(-n))[1..] == DecimalText(-n);
    }
  }

  // ---------------------------------------------------------------------
  // Onewire probe

  /** The raw values a DS18B20 probe writes when a conversion went wrong. */
  predicate IsSentinel(token: string)
  {
    token == "85000" || token == "-62"
  }

  /** The stripped text after the first `t=` of the second line, if there are two lines and a marker. */
  function OneWireToken(lines: seq<string>): (r: Option<string>)
    ensures r.Some? <==> |lines| >= 2 && FindMarker(lines[1]).Some?
  {
    if |lines| < 2 then None
    else match FindMarker(lines[1])
      case None => None
      case Some(p) => Some(Strip(lines[1][p + 2..]))
  }

  /**
   * The parsing part of `_read_onewire_temperature`: `probe` is None when
   * the file does not exist, otherwise its lines. The result is a pair of
   * values or no value at all; the raw reading is the token in thousandths
   * of a degree Celsius, and each unit gets its own offset.
   */
  function ReadOneWire(probe: Option<seq<string>>, offsetCelsius: real, offsetFahrenheit: real)
    : (r: (Option<real>, Option<real>))
    ensures r.0.Some? <==> r.1.Some?
    ensures r.0.Some? <==>
      && probe.Some?
      && OneWireToken(probe.value).Some?
      && !IsSentinel(OneWireToken(probe.value).value)
      && ParseInt(OneWireToken(probe.value).value).Some?
    ensures r.0.Some? ==>
      && (r.0.value - offsetCelsius) * 1000.0 == ParseInt(OneWireToken(probe.value).value).value as real
      && r.1.value - offsetFahrenheit == CelsiusToFahrenheit(r.0.value - offsetCelsius)
  {
    if probe.None? then (None, None)
    else match OneWireToken(probe.value)
      case None => (None, None)
      case Some(token) =>
        if IsSentinel(token) then (None, None)
        else match ParseInt(token)
          case None => (None, None)
          case Some(v) =>
            var c := v as real / 1000.0;
            (Some(c + offsetCelsius), Some(CelsiusToFahrenheit(c) + offsetFahrenheit))
  }

  /** A second line that ends in a sentinel after its only `t=`, whatever precedes it, yields no value. */
  lemma SentinelLineRejected(first: string, prefix: string, token: string, ws: string,
                             offsetCelsius: real, offsetFahrenheit: real)
    requires IsSentinel(token)
    requires forall k :: !MarkerAt(prefix + "t", k)
    requires forall k :: 0 <= k < |ws| ==> IsSpace(ws[k])
    ensures ReadOneWire(Some([first, prefix + "t=" + token + ws]), offsetCelsius, offsetFahrenheit) == (None, None)
  {
    TokenAfterMarker(first, prefix, token, ws);
    var r := ReadOneWire(Some([first, prefix + "t=" + token + ws]), offsetCelsius, offsetFahrenheit);
    assert r.0.None? && r.1.None?;
  }

  lemma TokenAfterMarker(first: string, prefix: string, token: string, ws: string)
    requires token != [] && !IsSpace(token[0]) && !IsSpace(token[|token| - 1])
    requires forall k :: !MarkerAt(prefix + "t", k)
    requires forall k :: 0 <= k < |ws| ==> IsSpace(ws[k])
    ensures OneWireToken([first, prefix + "t=" + token + ws]) == Some(token)
  {
    FirstMarker(prefix, token + ws);
    assert prefix + "t=" + token + ws == prefix + "t=" + (token + ws);
    assert StripLeft(token + ws) == token + ws;
    StripRightSpaces(token, ws);
  }

  /** The marker after a prefix free of markers is the first one, and the token text follows it. */
  lemma FirstMarker(prefix: string, rest: string)
    requires forall k :: !MarkerAt(prefix + "t", k)
    ensures FindMarker(prefix + "t=" + rest) == Some(|prefix|)
    ensures (prefix + "t=" + rest)[|prefix| + 2..] == rest
  {
    var line := prefix + "t=" + rest;
    assert MarkerAt(line, |prefix|);
    forall k | 0 <= k < |prefix| ensures !MarkerAt(line, k) {
      assert line[k] == (prefix + "t")[k] && line[k + 1] == (prefix + "t")[k + 1];
      assert !MarkerAt(prefix + "t", k);
    }
  }

  // ---------------------------------------------------------------------
  // DHT22 command result

  /** A field of the JSON document: absent, null, or a number. */
  datatype JsonField = Absent | Null | Number(n: real)

  /** The JSON document the DHT22 command prints; `error` is None when absent or not a string. */
  datatype DhtDoc = DhtDoc(error: Option<string>, celsius: JsonField, fahrenheit: JsonField, humidity: JsonField)

  /** First line of standard output: none at all, not JSON, or a document. */
  datatype Stdout = NoLine | NotJson | Json(doc: DhtDoc)

  /** What the console reports of one run of the DHT22 command. */
  datatype CommandResult = CommandResult(error: bool, killed: bool, stdout: Stdout)

  datatype DhtValues = DhtValues(celsius: Option<real>, fahrenheit: Option<real>, humidity: Option<real>)

  const NoValues := DhtValues(None, None, None)

  function FieldValue(f: JsonField): Option<real>
  {
    if f.Number? then Some(f.n) else None
  }

  /** The command failed, or reported an error, or its output cannot be read: no value at all. */
  predicate DhtReadFails(gpios: seq<Gpio>, res: CommandResult)
  {
    || |gpios| != 1
    || res.error || res.killed
    || !res.stdout.Json?
    || res.stdout.doc.error.None?
    || |res.stdout.doc.error.value| > 0
  }

  /**
   * The interpretation part of `_read_dht22`. The three values are read in
   * order celsius, fahrenheit, humidity; the first absent key stops the
   * reading, and the values read before it are kept.
   */
  function InterpretDht22(gpios: seq<Gpio>, res: CommandResult): (r: DhtValues)
    ensures DhtReadFails(gpios, res) ==> r == NoValues
    ensures !DhtReadFails(gpios, res) ==>
      var doc := res.stdout.doc;
      && r.celsius == FieldValue(doc.celsius)
      && r.fahrenheit == (if doc.celsius.Absent? then None else FieldValue(doc.fahrenheit))
      && r.humidity == (if doc.celsius.Absent? || doc.fahrenheit.Absent? then None else FieldValue(doc.humidity))
    ensures r.humidity.Some? ==> !DhtReadFails(gpios, res) && res.stdout.doc.humidity == Number(r.humidity.value)
  {
    if DhtReadFails(gpios, res) then NoValues
    else
      var doc := res.stdout.doc;
      if doc.celsius.Absent? then NoValues
      else if doc.fahrenheit.Absent? then DhtValues(FieldValue(doc.celsius), None, None)
      else if doc.humidity.Absent? then DhtValues(FieldValue(doc.celsius), FieldValue(doc.fahrenheit), None)
      else DhtValues(FieldValue(doc.celsius), FieldValue(doc.fahrenheit), FieldValue(doc.humidity))
  }

  /** A clean report with all three numbers gives all three values. */
  lemma DhtFullReading(gpio: Gpio, c: real, f: real, h: real)
    ensures InterpretDht22([gpio], CommandResult(false, false, Json(DhtDoc(Some(""), Number(c), Number(f), Number(h)))))
         == DhtValues(Some(c), Some(f), Some(h))
  {
  }
}
