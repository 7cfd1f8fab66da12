/**
 * The host-side packet codec and validator (`UARTProtocol`): a received line
 * `START|SENSOR_ID|SEQUENCE|TIMESTAMP|TEMPERATURE|CHECKSUM|END` is stripped,
 * split on `|`, converted field by field and checked against its checksum;
 * sequence gaps are tracked per sensor and every call is counted.
 */
module UartProtocol {
  import opened Wrappers
  import opened Text

  const StartMarker := "START"
  const EndMarker := "END"
  const FieldSeparator := '|'
  const ExpectedFieldCount := 7

  /** A host clock reading; the source calls `datetime.now()`, here it is passed in. */
  type Instant = int

  /** The converted fields of a packet (the markers are always `START` and `END`). */
  datatype Fields = Fields(
    sensorId: string,
    sequence: int,
    timestamp: int,
    temperature: Decimal,
    checksum: int)

  /**
   * The dictionary `parse_packet` returns: the fields, the stripped line, the
   * capture time and, when a gap was seen, the number of missing packets.
   */
  datatype Packet = Packet(
    fields: Fields,
    rawData: string,
    receiveTime: Instant,
    missingPackets: Option<int>)

  /** How one received line is classified. */
  datatype Verdict = FormatError | ChecksumError | Accepted(fields: Fields)

  // ---------------------------------------------------------------------
  // Checksum
  // ---------------------------------------------------------------------

  /** `sum(ord(c) for c in s)`. */
  function CharSum(s: string): nat {
    if s == [] then 0 else CharSum(s[..|s| - 1]) + s[|s| - 1] as int
  }

  /**
   * The checksum both ends compute: the character codes of the sensor id,
   * plus the sequence number, plus the temperature truncated toward zero,
   * reduced modulo 256 (Python's `%`, never negative here).
   */
  function Checksum(sensorId: string, sequence: int, wholeTemperature: int): (c: int)
    ensures 0 <= c < 256
    ensures (c - CharSum(sensorId) - sequence - wholeTemperature) % 256 == 0
  {
    (CharSum(sensorId) + sequence + wholeTemperature) % 256
  }

  /** `_validate_checksum`: the received checksum equals the recomputed one. */
  predicate ChecksumValid(f: Fields) {
    f.checksum == Checksum(f.sensorId, f.sequence, Trunc(f.temperature))
  }

  /**
   * A received checksum is valid exactly when it lies in 0..255 and agrees
   * with the character sum, the sequence and the truncated temperature
   * modulo 256.
   */
  lemma ChecksumValidCongruent(f: Fields)
    ensures ChecksumValid(f) <==>
      0 <= f.checksum < 256 && (f.checksum - CharSum(f.sensorId) - f.sequence - Trunc(f.temperature)) % 256 == 0
  {
    var x := CharSum(f.sensorId) + f.sequence + Trunc(f.temperature);
    var c := f.checksum;
    if 0 <= c < 256 && (c - x) % 256 == 0 {
      var k := (c - x) / 256;
      var q := x / 256;
      assert c - x % 256 == 256 * (k + q);
      assert c == x % 256;
    }
  }

  // ---------------------------------------------------------------------
  // Decoding
  // ---------------------------------------------------------------------

  /**
   * The structural part of `parse_packet` on an already stripped line:
   * exactly seven `|`-separated fields, `START` first, `END` last, integer
   * sequence, timestamp and checksum, a decimal temperature.
   */
  function ParseFields(line: string): (r: Option<Fields>)
    ensures r.Some? <==>
      var fields := Split(line, FieldSeparator);
      && |fields| == ExpectedFieldCount && fields[0] == StartMarker && fields[6] == EndMarker
      && ConvertFields(fields).Some?
    ensures r.Some? ==> r == ConvertFields(Split(line, FieldSeparator))
    ensures r.Some? ==> r.value.sensorId == Split(line, FieldSeparator)[1]
    ensures r.Some? ==> FieldSeparator !in r.value.sensorId
  {
    SplitPieces(line, FieldSeparator);
    var fields := Split(line, FieldSeparator);
    if |fields| != ExpectedFieldCount then None
    else if fields[0] != StartMarker || fields[|fields| - 1] != EndMarker then None
    else ConvertFields(fields)
  }

  /**
   * Building the packet dictionary: `int()` on sequence, timestamp and
   * checksum, `float()` on the temperature; any `ValueError` gives `None`.
   */
  function ConvertFields(fields: seq<string>): (r: Option<Fields>)
    requires |fields| == ExpectedFieldCount
    ensures r.Some? <==> ParseInt(fields[2]).Some? && ParseInt(fields[3]).Some?
                         && ParseDecimal(fields[4]).Some? && ParseInt(fields[5]).Some?
    ensures r.Some? ==> r.value == Fields(fields[1], ParseInt(fields[2]).value, ParseInt(fields[3]).value,
                                          ParseDecimal(fields[4]).value, ParseInt(fields[5]).value)
  {
    match (ParseInt(fields[2]), ParseInt(fields[3]), ParseDecimal(fields[4]), ParseInt(fields[5]))
    case (Some(sequence), Some(timestamp), Some(temperature), Some(checksum)) =>
      Some(Fields(fields[1], sequence, timestamp, temperature, checksum))
    case _ => None
  }

  /**
   * The outcome of `parse_packet` for one raw line: a format error (wrong
   * field count, wrong markers, a field that does not convert), a checksum
   * error, or the accepted fields.
   */
  function Classify(rawData: string): (v: Verdict)
    ensures v.Accepted? ==> ChecksumValid(v.fields)
    ensures v.Accepted? || v.ChecksumError? <==> ParseFields(Strip(rawData)).Some?
    ensures v.Accepted? ==> ParseFields(Strip(rawData)) == Some(v.fields)
    ensures ParseFields(Strip(rawData)).Some? && ChecksumValid(ParseFields(Strip(rawData)).value) ==>
              v == Accepted(ParseFields(Strip(rawData)).value)
  {
    match ParseFields(Strip(rawData))
    case None => FormatError
    case Some(f) => if ChecksumValid(f) then Accepted(f) else ChecksumError
  }

  /** A line that is not seven `|`-fields between `START` and `END` is a format error. */
  lemma StructuralRejection(rawData: string)
    requires var fields := Split(Strip(rawData), FieldSeparator);
             |fields| != ExpectedFieldCount || fields[0] != StartMarker || fields[|fields| - 1] != EndMarker
    ensures Classify(rawData) == FormatError
  {
  }

  /** A sequence, timestamp or checksum that is not an integer is a format error. */
  lemma NonIntegerRejection(rawData: string, k: nat)
    requires k == 2 || k == 3 || k == 5
    requires k < |Split(Strip(rawData), FieldSeparator)|
    requires ParseInt(Split(Strip(rawData), FieldSeparator)[k]).None?
    ensures Classify(rawData) == FormatError
  {
  }

  /** A temperature that is not a decimal number is a format error. */
  lemma NonNumericTemperatureRejection(rawData: string)
    requires 4 < |Split(Strip(rawData), FieldSeparator)|
    requires ParseDecimal(Split(Strip(rawData), FieldSeparator)[4]).None?
    ensures Classify(rawData) == FormatError
  {
  }

  /** A received checksum outside 0..255 can never match: such a packet is always dropped. */
  lemma OutOfRangeChecksumRejected(rawData: string)
    requires ParseFields(Strip(rawData)).Some?
    requires !(0 <= ParseFields(Strip(rawData)).value.checksum < 256)
    ensures Classify(rawData) == ChecksumError
  {
  }

  /**
   * `_check_sequence`, branch for branch: a gap is reported only when the
   * sensor was seen before and the new sequence is not the successor.
   */
  function MissingPackets(last: map<string, int>, sensorId: string, sequence: int): (r: Option<int>)
    ensures r.Some? <==> sensorId in last && sequence > last[sensorId] + 1
    ensures r.Some? ==> r.value > 0 && r.value == sequence - last[sensorId] - 1
  {
    if sensorId in last then
      var lastSeq := last[sensorId];
      if sequence != lastSeq + 1 then
        var missingCount := sequence - lastSeq - 1;
        if missingCount > 0 then Some(missingCount) else None
      else None
    else None
  }

  /** The first second of the year 1 and of the year 10000, counted from 1970-01-01 00:00:00. */
  const FirstReadableSecond := -62135596800
  const EndReadableSecond := 253402300800

  /**
   * How far back `fromtimestamp` looks for a fold in local time: after
   * converting an instant it also converts the instant one day earlier.
   */
  const FoldProbeSeconds := 86400

  /** A local time, in milliseconds from 1970-01-01 00:00:00, whose date is in the years 1 to 9999. */
  predicate InYearRange(localMillis: int) {
    FirstReadableSecond * 1000 <= localMillis < EndReadableSecond * 1000
  }

  /**
   * Whether `datetime.fromtimestamp(timestamp / 1000.0)` succeeds. The
   * instant and, for fold detection, the instant `FoldProbeSeconds` earlier
   * are both converted to local time, and either conversion raises
   * `ValueError` when its date falls outside the years 1 to 9999. So the
   * readable instants run from the start of the second day of the year 1 to
   * the end of the year 9999. `utcOffset` is the host time zone's offset
   * from UTC in seconds, taken as the same for both conversions.
   */
  predicate Readable(timestamp: int, utcOffset: int)
    ensures Readable(timestamp, utcOffset) <==>
      (FirstReadableSecond + FoldProbeSeconds) * 1000 <= timestamp + utcOffset * 1000 < EndReadableSecond * 1000
  {
    var local := timestamp + utcOffset * 1000;
    InYearRange(local) && InYearRange(local - FoldProbeSeconds * 1000)
  }

  /**
   * The edges of the readable range with the host on UTC: the whole first
   * day of the year 1 is refused, 0001-01-02 00:00:00 is the first readable
   * instant and 9999-12-31 23:59:59.999 the last.
   */
  lemma ReadableEdges()
    ensures !Readable(-62135596800000, 0) && !Readable(-62135510400001, 0)
    ensures Readable(-62135510400000, 0) && Readable(253402300799999, 0)
    ensures !Readable(253402300800000, 0)
  {
  }

  /**
   * The outcome of `parse_packet` for one line: the verdict of `Classify`,
   * except that an accepted line whose timestamp cannot be converted is
   * caught by the `ValueError` handler and becomes a format error.
   */
  function Outcome(rawData: string, utcOffset: int): (v: Verdict)
    ensures v.Accepted? <==> Classify(rawData).Accepted? && Readable(Classify(rawData).fields.timestamp, utcOffset)
    ensures v.Accepted? ==> v == Classify(rawData)
    ensures v.ChecksumError? <==> Classify(rawData).ChecksumError?
  {
    match Classify(rawData)
    case Accepted(f) => if Readable(f.timestamp, utcOffset) then Accepted(f) else FormatError
    case other => other
  }

  // ---------------------------------------------------------------------
  // Encoding
  // ---------------------------------------------------------------------

  /**
   * The line `START|id|seq|ts|temp|checksum|END`: the seven field texts,
   * each number in decimal, joined by `|` as the f-strings of
   * `create_packet` build it.
   */
  function PacketLine(sensorId: string, sequence: int, timestamp: int, temperatureText: string, checksum: int): string
  {
    Join(PacketParts(sensorId, sequence, timestamp, temperatureText, checksum), [FieldSeparator])
  }

  /**
   * `create_packet` as written: the temperature is printed with `:.2f`
   * (rounded to hundredths) but the checksum is taken over `int()` of the
   * unrounded temperature. The timestamp, read from the clock in the
   * source, is a parameter.
   */
  function CreatePacket(sensorId: string, sequence: int, temperature: Decimal, timestamp: int): string
  {
    PacketLine(sensorId, sequence, timestamp, ShowTemperature(temperature),
      Checksum(sensorId, sequence, Trunc(temperature)))
  }

  /**
   * `create_packet` with the checksum taken over the temperature as printed,
   * which is what `parse_packet` recomputes on the receiving side.
   */
  function CreatePacketConsistent(sensorId: string, sequence: int, temperature: Decimal, timestamp: int): string
  {
    PacketLine(sensorId, sequence, timestamp, ShowTemperature(temperature),
      Checksum(sensorId, sequence, Trunc(Rendered(temperature))))
  }

  lemma NoSeparatorInShowInt(i: int)
    ensures FieldSeparator !in ShowInt(i)
  {
    var d := ShowNat(if i < 0 then -i else i);
    assert FieldSeparator !in d by { assert AllDigits(d); }
  }

  lemma NoSeparatorInShowTemperature(d: Decimal)
    ensures FieldSeparator !in ShowTemperature(d)
  {
    var h := RoundHundredths(Magnitude(d.mantissa), d.scale);
    var w := ShowNat(h / 100);
    assert FieldSeparator !in w by { assert AllDigits(w); }
  }

  /** Joining pieces that start with `START` and end with `END` needs no stripping. */
  lemma {:induction false} JoinEnds(parts: seq<string>, sep: string)
    requires |parts| >= 1 && parts[0] == StartMarker && parts[|parts| - 1] == EndMarker
    ensures |Join(parts, sep)| >= 3
    ensures Join(parts, sep)[0] == 'S' && Join(parts, sep)[|Join(parts, sep)| - 1] == 'D'
    decreases |parts|
  {
    if |parts| > 1 {
      var rest := parts[1..];
      JoinLast(rest, sep);
    }
  }

  /** The join of several pieces ends with the last piece. */
  lemma {:induction false} JoinLast(parts: seq<string>, sep: string)
    requires |parts| >= 1 && parts[|parts| - 1] == EndMarker
    ensures |Join(parts, sep)| >= 3
    ensures Join(parts, sep)[|Join(parts, sep)| - 1] == 'D'
    decreases |parts|
  {
    if |parts| > 1 {
      JoinLast(parts[1..], sep);
    }
  }

  /** Every `PacketLine` is already stripped. */
  lemma PacketLineStripped(sensorId: string, sequence: int, timestamp: int, temperatureText: string, checksum: int)
    ensures Strip(PacketLine(sensorId, sequence, timestamp, temperatureText, checksum))
            == PacketLine(sensorId, sequence, timestamp, temperatureText, checksum)
  {
    var parts := PacketParts(sensorId, sequence, timestamp, temperatureText, checksum);
    JoinEnds(parts, [FieldSeparator]);
    assert NoEdgeSpace(Join(parts, [FieldSeparator]));
  }

  /** The seven field texts of a `PacketLine`. */
  function PacketParts(sensorId: string, sequence: int, timestamp: int, temperatureText: string, checksum: int): seq<string>
  {
    [StartMarker, sensorId, ShowInt(sequence), ShowInt(timestamp), temperatureText, ShowInt(checksum), EndMarker]
  }

  /** No field text written by the encoder contains the separator. */
  lemma PacketPartsUnseparated(sensorId: string, sequence: int, timestamp: int, temperatureText: string, checksum: int)
    requires FieldSeparator !in sensorId && FieldSeparator !in temperatureText
    ensures var parts := PacketParts(sensorId, sequence, timestamp, temperatureText, checksum);
            forall i :: 0 <= i < |parts| ==> FieldSeparator !in parts[i]
  {
    var parts := PacketParts(sensorId, sequence, timestamp, temperatureText, checksum);
    forall i | 0 <= i < |parts|
      ensures FieldSeparator !in parts[i]
    {
      if i == 0 {
        assert StartMarker == ['S', 'T', 'A', 'R', 'T'];
      } else if i == 2 {
        NoSeparatorInShowInt(sequence);
      } else if i == 3 {
        NoSeparatorInShowInt(timestamp);
      } else if i == 5 {
        NoSeparatorInShowInt(checksum);
      } else if i == 6 {
        assert EndMarker == ['E', 'N', 'D'];
      }
    }
  }

  /** Stripping and splitting a line built by the encoder gives back its seven field texts. */
  lemma SplitPacketLine(sensorId: string, sequence: int, timestamp: int, temperatureText: string, checksum: int)
    requires FieldSeparator !in sensorId && FieldSeparator !in temperatureText
    ensures Split(Strip(PacketLine(sensorId, sequence, timestamp, temperatureText, checksum)), FieldSeparator)
            == PacketParts(sensorId, sequence, timestamp, temperatureText, checksum)
  {
    PacketLineStripped(sensorId, sequence, timestamp, temperatureText, checksum);
    PacketPartsUnseparated(sensorId, sequence, timestamp, temperatureText, checksum);
    SplitJoin(PacketParts(sensorId, sequence, timestamp, temperatureText, checksum), FieldSeparator);
  }

  /** The field texts written by the encoder convert back to the numbers written. */
  lemma ConvertPacketParts(sensorId: string, sequence: int, timestamp: int, temperature: Decimal, checksum: int)
    ensures ConvertFields(PacketParts(sensorId, sequence, timestamp, ShowTemperature(temperature), checksum))
            == Some(Fields(sensorId, sequence, timestamp, Rendered(temperature), checksum))
  {
    var parts := PacketParts(sensorId, sequence, timestamp, ShowTemperature(temperature), checksum);
    assert parts[1] == sensorId && parts[2] == ShowInt(sequence) && parts[3] == ShowInt(timestamp);
    assert parts[4] == ShowTemperature(temperature) && parts[5] == ShowInt(checksum);
    ParseShowInt(sequence);
    ParseShowInt(timestamp);
    ParseShowInt(checksum);
    ParseShowTemperature(temperature);
  }

  /**
   * Decoding a line built by the encoder gives back its fields: the sensor
   * id, sequence and timestamp unchanged and the temperature as printed.
   */
  lemma DecodePacketLine(sensorId: string, sequence: int, timestamp: int, temperature: Decimal, checksum: int)
    requires FieldSeparator !in sensorId
    ensures ParseFields(Strip(PacketLine(sensorId, sequence, timestamp, ShowTemperature(temperature), checksum)))
            == Some(Fields(sensorId, sequence, timestamp, Rendered(temperature), checksum))
  {
    NoSeparatorInShowTemperature(temperature);
    SplitPacketLine(sensorId, sequence, timestamp, ShowTemperature(temperature), checksum);
    ConvertPacketParts(sensorId, sequence, timestamp, temperature, checksum);
  }

  /**
   * A packet whose checksum field is anything but the value recomputed from
   * its other fields is dropped as a checksum error, never as a format error.
   */
  lemma TamperedChecksumRejected(sensorId: string, sequence: int, timestamp: int, temperature: Decimal, checksum: int)
    requires FieldSeparator !in sensorId
    requires checksum != Checksum(sensorId, sequence, Trunc(Rendered(temperature)))
    ensures Classify(PacketLine(sensorId, sequence, timestamp, ShowTemperature(temperature), checksum)) == ChecksumError
  {
    DecodePacketLine(sensorId, sequence, timestamp, temperature, checksum);
  }

  /**
   * Round trip of the consistent encoder: for every sensor id without `|`,
   * every sequence, timestamp and temperature, the packet passes the
   * checksum test and gives back the id, sequence, timestamp and the printed
   * temperature; `parse_packet` then accepts it exactly when `fromtimestamp`
   * can convert the timestamp.
   */
  lemma RoundTripConsistent(sensorId: string, sequence: int, temperature: Decimal, timestamp: int, utcOffset: int)
    requires FieldSeparator !in sensorId
    ensures Classify(CreatePacketConsistent(sensorId, sequence, temperature, timestamp))
            == Accepted(Fields(sensorId, sequence, timestamp, Rendered(temperature),
                               Checksum(sensorId, sequence, Trunc(Rendered(temperature)))))
    ensures Outcome(CreatePacketConsistent(sensorId, sequence, temperature, timestamp), utcOffset).Accepted?
            <==> Readable(timestamp, utcOffset)
  {
    DecodePacketLine(sensorId, sequence, timestamp, temperature,
      Checksum(sensorId, sequence, Trunc(Rendered(temperature))));
  }

  /**
   * Round trip of `create_packet` as written, for temperatures with at most
   * two decimals: the packet passes the checksum test with the same sensor
   * id, sequence, timestamp and temperature value, and `parse_packet`
   * accepts it exactly when `fromtimestamp` can convert the timestamp.
   */
  lemma RoundTrip(sensorId: string, sequence: int, temperature: Decimal, timestamp: int, utcOffset: int)
    requires FieldSeparator !in sensorId
    requires temperature.scale <= 2
    ensures Classify(CreatePacket(sensorId, sequence, temperature, timestamp)).Accepted?
    ensures var f := Classify(CreatePacket(sensorId, sequence, temperature, timestamp)).fields;
            f.sensorId == sensorId && f.sequence == sequence && f.timestamp == timestamp
            && ValueOf(f.temperature) == ValueOf(temperature)
    ensures Outcome(CreatePacket(sensorId, sequence, temperature, timestamp), utcOffset).Accepted?
            <==> Readable(timestamp, utcOffset)
  {
    RenderedValue(temperature);
    TruncRescaled(temperature);
    RoundTripConsistent(sensorId, sequence, temperature, timestamp, utcOffset);
  }

  /** Rescaling a decimal with at most two places to hundredths keeps its integer part. */
  lemma TruncRescaled(d: Decimal)
    requires d.scale <= 2
    ensures Trunc(Rendered(d)) == Trunc(d)
  {
    RenderedValue(d);
    var m := Magnitude(d.mantissa);
    assert Pow10(1) == 10 && Pow10(2) == 100;
    if d.scale == 0 {
      assert Magnitude(Rendered(d).mantissa) == m * 100;
    } else if d.scale == 1 {
      assert Magnitude(Rendered(d).mantissa) == m * 10;
      assert (m * 10) / 100 == m / 10;
    }
  }

  /**
   * `create_packet` as written can produce a packet that `parse_packet`
   * rejects: 0.999 is printed as `1.00`, whose integer part 1 differs from
   * `int(0.999)` = 0 used for the checksum.
   */
  lemma CreatePacketMismatch()
    ensures Classify(CreatePacket("A", 0, Decimal(999, 3), 0)) == ChecksumError
  {
    var t := Decimal(999, 3);
    assert Pow10(1) == 10 && Pow10(2) == 100 && Pow10(3) == 1000;
    assert RoundHundredths(999, 3) == 100;
    assert Rendered(t) == Decimal(100, 2);
    assert Trunc(t) == 0;
    assert Trunc(Rendered(t)) == 1;
    assert CharSum("A") == 65 by {
      assert "A"[..0] == [];
    }
    var sent := Checksum("A", 0, Trunc(t));
    assert sent == 65;
    assert Checksum("A", 0, Trunc(Rendered(t))) == 66;
    DecodePacketLine("A", 0, 0, t, sent);
    assert CreatePacket("A", 0, t, 0) == PacketLine("A", 0, 0, ShowTemperature(t), sent);
  }

  // ---------------------------------------------------------------------
  // The stateful parser
  // ---------------------------------------------------------------------

  /** The five counters of the `stats` dictionary. */
  datatype Counters = Counters(
    received: int,
    valid: int,
    invalid: int,
    checksumErrors: int,
    formatErrors: int)

  /**
   * No counter is negative, every received line is valid or invalid, and
   * every invalid one has exactly one cause.
   */
  predicate Balanced(c: Counters) {
    && c.valid >= 0 && c.checksumErrors >= 0 && c.formatErrors >= 0
    && c.received == c.valid + c.invalid
    && c.invalid == c.checksumErrors + c.formatErrors
  }

  /** The counters as `__init__` and `reset_stats` leave them. */
  const NoCounts := Counters(0, 0, 0, 0, 0)

  function CountReceived(c: Counters): Counters {
    c.(received := c.received + 1)
  }

  function CountFormatError(c: Counters): Counters {
    c.(formatErrors := c.formatErrors + 1, invalid := c.invalid + 1)
  }

  function CountChecksumError(c: Counters): Counters {
    c.(checksumErrors := c.checksumErrors + 1, invalid := c.invalid + 1)
  }

  function CountValid(c: Counters): Counters {
    c.(valid := c.valid + 1)
  }

  /**
   * The counters after `parse_packet` has seen one line with verdict `v`:
   * one more line received, and exactly the counter for `v` one higher.
   */
  function Tally(c: Counters, v: Verdict): (r: Counters)
    ensures Balanced(c) ==> Balanced(r)
    ensures r.received == c.received + 1
    ensures r.valid >= c.valid && r.invalid >= c.invalid
    ensures r.checksumErrors >= c.checksumErrors && r.formatErrors >= c.formatErrors
    ensures r.valid > c.valid <==> v.Accepted?
    ensures r.checksumErrors > c.checksumErrors <==> v.ChecksumError?
    ensures r.formatErrors > c.formatErrors <==> v.FormatError?
    ensures r.invalid > c.invalid <==> !v.Accepted?
  {
    var seen := CountReceived(c);
    match v
    case FormatError => CountFormatError(seen)
    case ChecksumError => CountChecksumError(seen)
    case Accepted(_) => CountValid(seen)
  }

  /** What `get_stats` returns: a copy of the counters plus the success rate in percent. */
  datatype StatsReport = StatsReport(
    counters: Counters,
    lastSequence: map<string, int>,
    successRate: real)

  /**
   * `get_stats`' success rate: `valid / received * 100`, or 0 before any
   * line was received.
   */
  function SuccessRate(c: Counters): (rate: real)
    ensures c.received == 0 ==> rate == 0.0
    ensures c.received > 0 ==> rate * c.received as real == c.valid as real * 100.0
    ensures Balanced(c) ==> 0.0 <= rate <= 100.0
  {
    if c.received > 0 then (c.valid as real / c.received as real) * 100.0 else 0.0
  }

  /** `UARTProtocol`: the counters and the per-sensor sequence table of its `stats` dictionary. */
  class Protocol {
    var counters: Counters
    var lastSequence: map<string, int>

    ghost predicate Valid()
      reads this
    {
      Balanced(counters)
    }

    constructor ()
      ensures lastSequence == map[]
      ensures Valid()
      ensures counters == NoCounts
    {
      counters, lastSequence := NoCounts, map[];
    }

    /**
     * `parse_packet`: counts the line, then drops it as a format error or a
     * checksum error, or records its sequence number and returns it. A
     * timestamp that `fromtimestamp` rejects turns the line into a format
     * error after its sequence number was recorded. `receiveTime` stands for
     * the clock reading taken while parsing, `utcOffset` for the host's
     * time zone.
     */
    method ParsePacket(rawData: string, receiveTime: Instant, utcOffset: int) returns (r: Option<Packet>)
      requires Valid()
      modifies this
      ensures Valid()
      ensures counters == Tally(old(counters), Outcome(rawData, utcOffset))
      ensures r.Some? <==> Outcome(rawData, utcOffset).Accepted?
      ensures !Classify(rawData).Accepted? ==> lastSequence == old(lastSequence)
      ensures Classify(rawData).Accepted? ==>
        var f := Classify(rawData).fields;
        && lastSequence == old(lastSequence)[f.sensorId := f.sequence]
        && (r.Some? ==> r == Some(Packet(f, Strip(rawData), receiveTime, MissingPackets(old(lastSequence), f.sensorId, f.sequence))))
    {
      counters := CountReceived(counters);
      var line := Strip(rawData);
      // the field count, the markers and the int()/float() conversions
      var parsed := ParseFields(line);
      if parsed.None? {
        counters := CountFormatError(counters);
        return None;
      }
      var f := parsed.value;
      if !ChecksumValid(f) {
        counters := CountChecksumError(counters);
        return None;
      }
      var missing := CheckSequence(f.sensorId, f.sequence);
      // `datetime.fromtimestamp`; its `ValueError` reaches the format-error handler
      if !Readable(f.timestamp, utcOffset) {
        counters := CountFormatError(counters);
        return None;
      }
      counters := CountValid(counters);
      r := Some(Packet(f, line, receiveTime, missing));
    }

    /** `_check_sequence`: report a gap against the last sequence seen, then remember this one. */
    method CheckSequence(sensorId: string, sequence: int) returns (missing: Option<int>)
      modifies this
      ensures missing == MissingPackets(old(lastSequence), sensorId, sequence)
      ensures lastSequence == old(lastSequence)[sensorId := sequence]
      ensures counters == old(counters)
    {
      missing := None;
      if sensorId in lastSequence {
        var lastSeq := lastSequence[sensorId];
        if sequence != lastSeq + 1 {
          var missingCount := sequence - lastSeq - 1;
          if missingCount > 0 {
            missing := Some(missingCount);
          }
        }
      }
      lastSequence := lastSequence[sensorId := sequence];
    }

    /** `get_stats`: a copy of the counters and the sequence table, with the success rate. */
    function GetStats(): (r: StatsReport)
      reads this
      ensures r.counters == counters && r.lastSequence == lastSequence
      ensures r.successRate == SuccessRate(counters)
    {
      StatsReport(counters, lastSequence, SuccessRate(counters))
    }

    /** `reset_stats`: every counter back to zero and no sequence remembered. */
    method ResetStats()
      modifies this
      ensures lastSequence == map[]
      ensures Valid()
      ensures counters == NoCounts
    {
      counters, lastSequence := NoCounts, map[];
    }
  }
}
