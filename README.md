# UART temperature link: host-side core in Dafny

This project models the host side of a UART temperature-sensor link. A
sensor sends ASCII lines of the form
`START|SENSOR_ID|SEQUENCE|TIMESTAMP|TEMPERATURE|CHECKSUM|END`. The host:

- reassembles those lines from arbitrary chunks of the serial stream;
- parses and validates each line, counts what it saw and tracks gaps in
  each sensor's sequence numbers;
- answers a small set of text commands;
- keeps a bounded window of recent readings, overall and per sensor, with
  running statistics for display.

## Modules

- `wrappers.dfy`, module `Wrappers`: `Option`, the "no result" of a parse or lookup.
- `text.dfy`, module `Text`: the Python string built-ins the codec relies on: `strip`, `split('|')`, `join`, `int(...)`, `float(...)` on decimal literals, `f"{n}"` and `f"{x:.2f}"`.
- `uart_protocol.dfy`, module `UartProtocol`: `UARTProtocol`: checksum, `parse_packet` as a classification plus the stateful `Protocol` class (counters and the per-sensor sequence table), `create_packet`, `get_stats`, `reset_stats`.
- `uart_buffer.dfy`, module `UartBuffer`: `UARTBuffer`: a hand-written matcher for the packet pattern, `findall`, `replace(match, '', 1)`, the overflow trim, and the `Buffer` class (`add_data`, `clear_buffer`, `get_buffer_size`).
- `commands.dfy`, module `Commands`: `CommandProcessor`: normalisation, the five-entry table, the handlers' replies, `get_available_commands`.
- `visualiser.dfy`, module `Visualiser`: the data side of `RealTimeVisualizer`: the bounded deques, the per-sensor store, the statistics, `clear_data`, `get_data_summary`.

### How the model represents the source

- **Temperatures on the wire** are exact decimals: `Decimal(mantissa, scale)`.
  - `int(temperature)` is truncation toward zero.
  - `f"{x:.2f}"` rounds half to even to hundredths and keeps the sign, so it can print `-0.00`.
- **Temperatures in the visualiser** are `real`s.
- **The ±infinity** that `RealTimeVisualizer` starts its minimum and maximum with is modelled as an absent (`None`) value.
- **Number whitespace.** `int()` and `float()` skip the whitespace at the ends of their argument. That is the whitespace `strip()` removes, except the four information separators U+001C..U+001F, which `strip()` removes but `int()` and `float()` refuse.
- **Clock readings** are parameters, and so is the host's time zone, as an offset from UTC.

### Where the design and the code disagree

The protocol's design description differs from the code in three places. The model follows the code each time:

- **Checksum.**
  - Design: a 16-bit sum over the text of four fields.
  - Code: the character codes of the sensor id, plus the sequence number, plus `int()` of the temperature, taken modulo 256 (`host/uart_protocol.py:95-96`, `131-132`).
- **Checksum mismatch.**
  - Design: the record is kept and flagged.
  - Code: `parse_packet` drops the line and counts a checksum error (`host/uart_protocol.py:72-75`).
- **Field ranges.** The design documents a range for each field. The code checks none of them: a field only has to convert.

## Model

| member | source | states |
|---|---|---|
| `Text.Strip` | host/uart_protocol.py:41 | `strip()` leaves no whitespace at either end, and text with none at its ends is returned unchanged |
| `Text.StripIdempotent` | host/uart_protocol.py:41 | stripping twice is the same as stripping once |
| `Text.StripLeftSuffix` | host/uart_protocol.py:41 | the leading strip keeps a suffix of the input |
| `Text.StripLeftDropsSpace` | host/uart_protocol.py:41 | the leading strip removes only whitespace |
| `Text.StripRightDropsSpace` | host/uart_protocol.py:41 | the trailing strip removes only whitespace |
| `Text.TrimNumber` | host/uart_protocol.py:62-65 | the text `int()` and `float()` read has no number whitespace at either end, and text with no whitespace at its ends is read as it is; the three lemmas below fix exactly what is removed |
| `Text.TrimNumberLeftSuffix` | host/uart_protocol.py:62-65 | the leading trim keeps a suffix of the argument |
| `Text.TrimNumberLeftDropsSpace` | host/uart_protocol.py:62-65 | the leading trim removes number whitespace only |
| `Text.TrimNumberRightDropsSpace` | host/uart_protocol.py:62-65 | the trailing trim removes number whitespace only |
| `Text.SeparatorNotNumberSpace` | host/uart_protocol.py:41-65 | an information separator U+001C..U+001F is removed by `strip()` but makes `int()` fail |
| `Text.SplitPieces` | host/uart_protocol.py:44 | no piece of `split('|')` contains the separator, and joining the pieces with it gives back the line |
| `Text.SplitPrefix` | host/uart_protocol.py:44 | a separator-free prefix only lengthens the first piece |
| `Text.SplitJoin` | host/uart_protocol.py:44 | splitting undoes joining when no piece contains the separator |
| `Text.ShowNat` | host/uart_protocol.py:137 | `f"{n}"` is one or more digits with value `n`, with no leading zero: a text starting with `0` is exactly `"0"`, the text of 0 |
| `Text.ParseShowInt` | host/uart_protocol.py:62-65 | `int()` of the decimal text of any integer gives the integer back |
| `Text.ParseInt` | host/uart_protocol.py:62-65 | `int()`: number whitespace, an optional sign and ASCII digits, anything else `None` for the `ValueError`; `ParseShowInt` proves it reads back the decimal text of every integer, and `SeparatorNotNumberSpace` that it refuses an information separator |
| `Text.PaddedInt` | host/uart_protocol.py:62-65 | `int(" 5 ")` is 5 |
| `Text.Trunc` | host/uart_protocol.py:96 | `int()` of a number truncates toward zero: the magnitude is floored and the sign kept |
| `Text.TruncBounds` | host/uart_protocol.py:96 | the truncated magnitude is within one unit below the magnitude |
| `Text.RoundHundredthsExact` | host/uart_protocol.py:139 | with at most two decimals `:.2f` only rescales the value |
| `Text.RoundHundredthsNearest` | host/uart_protocol.py:139 | with more decimals `:.2f` is within half a hundredth of the value |
| `Text.RenderedValue` | host/uart_protocol.py:139 | a temperature with at most two decimals is printed without changing its value |
| `Text.ShowTemperature` | host/uart_protocol.py:139 | `f"{t:.2f}"`: the sign, then the magnitude rounded half to even to hundredths; `RoundHundredthsNearest` bounds the rounding, and `ParseShowTemperature` proves `float()` reads the text back as that rounded value |
| `Text.ParseFixedBody` | host/uart_protocol.py:64 | `float()` reads an unsigned `W.FF` text back as its hundredths |
| `Text.ParseDecimal` | host/uart_protocol.py:64 | `float()` on decimal literals, as an exact decimal, anything else `None` for the `ValueError`; `ParseShowFixed2` and `ParseShowTemperature` prove it reads back every two-decimal text the encoder prints |
| `Text.ParseSignedLiteral` | host/uart_protocol.py:64 | a literal that starts and ends with a digit needs no stripping, and a leading minus negates it |
| `Text.ParseShowFixed2` | host/uart_protocol.py:64 | `float()` reads a two-decimal rendering back as its signed hundredths |
| `Text.ParseShowTemperature` | host/uart_protocol.py:64 | `float()` of `f"{t:.2f}"` is `t` rounded to hundredths, for every decimal `t` |
| `UartProtocol.Checksum` | host/uart_protocol.py:91-100 | the checksum lies in 0..255 and is congruent modulo 256 to character sum + sequence + `int(temperature)` |
| `UartProtocol.ChecksumValid` | host/uart_protocol.py:91-100 | `_validate_checksum`: the received value equals the recomputed checksum; `ChecksumValidCongruent` restates this without `%` |
| `UartProtocol.ChecksumValidCongruent` | host/uart_protocol.py:96-98 | a received checksum is valid exactly when it lies in 0..255 and agrees with character sum + sequence + `int(temperature)` modulo 256 |
| `UartProtocol.ParseFields` | host/uart_protocol.py:41-69 | a stripped line is well formed exactly when it splits into 7 fields, `START` first and `END` last, and the fields convert; the result is the converted fields, and the sensor id is field 1 and holds no `\|` |
| `UartProtocol.ConvertFields` | host/uart_protocol.py:59-69 | the fields convert exactly when sequence, timestamp and checksum parse with `int()` and the temperature with `float()`, and the result holds those values with field 1 as the sensor id |
| `UartProtocol.Classify` | host/uart_protocol.py:27-89 | a line reaches the checksum test exactly when it is well formed, and it is accepted, with its parsed fields, exactly when it is well formed and its checksum is valid |
| `UartProtocol.Readable` | host/uart_protocol.py:81 | `fromtimestamp` succeeds exactly when the local time lies from the start of 0001-01-02 to the end of 9999-12-31: the instant and the instant one day earlier, which is converted to detect a fold, must both have a year in 1..9999 |
| `UartProtocol.ReadableEdges` | host/uart_protocol.py:81 | with the host on UTC: every instant of 0001-01-01 is refused, 0001-01-02 00:00:00 and 9999-12-31 23:59:59.999 are readable, 10000-01-01 is not |
| `UartProtocol.Outcome` | host/uart_protocol.py:78-88 | a line is accepted exactly when `Classify` accepts it and its timestamp is `Readable`, that is, `fromtimestamp` can convert it; an accepted line with any other timestamp is a format error; checksum errors are unchanged |
| `UartProtocol.StructuralRejection` | host/uart_protocol.py:44-56 | a wrong field count, or a first field other than `START` or a last field other than `END`, is a format error |
| `UartProtocol.NonIntegerRejection` | host/uart_protocol.py:62-65 | a sequence, timestamp or checksum that is not an integer is a format error |
| `UartProtocol.NonNumericTemperatureRejection` | host/uart_protocol.py:64 | a temperature that does not parse is a format error |
| `UartProtocol.OutOfRangeChecksumRejected` | host/uart_protocol.py:91-98 | a well-formed line whose checksum field lies outside 0..255 is always a checksum error |
| `UartProtocol.MissingPackets` | host/uart_protocol.py:102-114 | a gap is reported only for a sensor already seen whose new sequence exceeds the last one by more than one, and it counts the numbers skipped |
| `UartProtocol.Tally` | host/uart_protocol.py:37-89 | every line raises `received` by one and raises exactly the counter of its verdict; the balance `received = valid + invalid`, `invalid = checksum + format errors` is kept |
| `UartProtocol.SuccessRate` | host/uart_protocol.py:145-155 | the rate is 0 before any line arrives, otherwise `valid / received * 100`, which lies within 0..100 |
| `UartProtocol.Protocol.constructor` | host/uart_protocol.py:17-25 | every counter starts at zero and no sequence is remembered |
| `UartProtocol.Protocol.ParsePacket` | host/uart_protocol.py:27-89 | the counters move by `Tally` of the `Outcome`; a packet is returned exactly when the outcome is accepted; the sequence table is updated exactly when the line passes the checksum test, even when its timestamp is then refused; the packet carries the fields, the stripped line, the receive time and the gap |
| `UartProtocol.Protocol.CheckSequence` | host/uart_protocol.py:102-114 | reports the gap against the previous sequence, then records this one, leaving the counters alone |
| `UartProtocol.Protocol.GetStats` | host/uart_protocol.py:145-155 | reports the counters and the sequence table with the success rate |
| `UartProtocol.Protocol.ResetStats` | host/uart_protocol.py:157-166 | every counter is back to zero and the sequence table is empty |
| `UartProtocol.CreatePacket` | host/uart_protocol.py:116-143 | `create_packet` as written: `START\|id\|seq\|ts\|temp:.2f\|checksum\|END` with the checksum over the unrounded temperature and the clock as a parameter; `RoundTrip` proves that for ids without `\|` and temperatures with at most two decimals it passes the checksum test, and `parse_packet` accepts it exactly when its timestamp is `Readable`, and `CreatePacketMismatch` that it does not for 0.999 |
| `UartProtocol.PacketLineStripped` | host/uart_protocol.py:135-141 | an encoded line has no whitespace at its ends |
| `UartProtocol.PacketPartsUnseparated` | host/uart_protocol.py:135-141 | none of the encoder's seven field texts contains `|` when the sensor id does not |
| `UartProtocol.SplitPacketLine` | host/uart_protocol.py:135-141 | stripping and splitting an encoded line gives back its seven field texts |
| `UartProtocol.ConvertPacketParts` | host/uart_protocol.py:59-65 | the encoder's field texts convert back to the numbers encoded, with the temperature as printed |
| `UartProtocol.DecodePacketLine` | host/uart_protocol.py:116-143 | decoding an encoded line gives back id, sequence, timestamp and checksum, and the temperature rounded to hundredths |
| `UartProtocol.TamperedChecksumRejected` | host/uart_protocol.py:72-75 | an encoded line with any checksum other than the recomputed one is a checksum error, never a format error |
| `UartProtocol.TruncRescaled` | host/uart_protocol.py:132 | with at most two decimals the printed temperature has the same integer part |
| `UartProtocol.RoundTrip` | host/uart_protocol.py:116-143 | for an id without `\|` and a temperature with at most two decimals, `create_packet`'s line passes the checksum test with the id, sequence, timestamp and temperature value it was built from, and `parse_packet` accepts it exactly when the timestamp is `Readable` |
| `UartProtocol.RoundTripConsistent` | host/uart_protocol.py:116-143 | with the checksum taken over the printed temperature, every packet passes the checksum test and decodes to its fields, and `parse_packet` accepts it exactly when the timestamp is `Readable` |
| `UartProtocol.CreatePacketMismatch` | host/uart_protocol.py:132-139 | `create_packet("A", 0, 0.999)` produces a line that `parse_packet` rejects as a checksum error |
| `UartBuffer.RunEnd` | host/uart_protocol.py:174 | a character-class run ends within the text |
| `UartBuffer.RunEndMaximal` | host/uart_protocol.py:174 | the run is of its class throughout and the next character, if any, is not: `[^\|]+`, `\d+` and `[\d.-]+` take as much as they can |
| `UartBuffer.FieldsEnd` | host/uart_protocol.py:174 | the field part of the pattern takes at least two characters per field and ends on `|` |
| `UartBuffer.PiecesTyped` | host/uart_protocol.py:174 | each field the pattern passes over is a non-empty run of its class |
| `UartBuffer.FieldsEndPieces` | host/uart_protocol.py:174 | the text the field part of the pattern passes over is its fields, each followed by `\|` |
| `UartBuffer.FieldsEndOfJoin` | host/uart_protocol.py:174 | fields of the right classes joined by `\|` are passed over up to the last `\|` |
| `UartBuffer.IsPacket` | host/uart_protocol.py:174 | the language of the packet pattern, written out: split on `\|`, `START`, five fields of the pattern's classes, `END`; `MatchAtIsPacket` proves the matcher decides it |
| `UartBuffer.MatchAt` | host/uart_protocol.py:174 | a match at `i` ends after `i` and within the text |
| `UartBuffer.MatchAtIsPacket` | host/uart_protocol.py:174 | the matcher decides the pattern: it matches at `i` up to `e` exactly when the text between is `START`, five fields of the pattern's classes and `END`, joined by `\|` |
| `UartBuffer.PacketIntegerFields` | host/uart_protocol.py:62-65 | the sequence, timestamp and checksum fields of every text of the pattern's language convert with `int()` |
| `UartBuffer.MatchShape` | host/uart_protocol.py:174 | a match is at least 19 characters, starting with `START\|` and ending with `\|END` |
| `UartBuffer.TailShape` | host/uart_protocol.py:174 | a `\|` followed by `END` is the text `\|END` |
| `UartBuffer.MatchEndsWithD` | host/uart_protocol.py:174 | a match ends with `D` |
| `UartBuffer.FindSpans` | host/uart_protocol.py:195 | `findall`'s matches are non-empty, inside the text, left to right and non-overlapping |
| `UartBuffer.FindSpansMatch` | host/uart_protocol.py:195 | every reported span is a match of the pattern |
| `UartBuffer.FindSpansComplete` | host/uart_protocol.py:195 | every position where the pattern matches lies within a reported span |
| `UartBuffer.Slices` | host/uart_protocol.py:195 | one text per span |
| `UartBuffer.SliceAt` | host/uart_protocol.py:195 | the `k`-th match text is the text of the `k`-th span |
| `UartBuffer.SliceEnds` | host/uart_protocol.py:195 | the ends of a match text are the ends of its span in the buffer |
| `UartBuffer.FindAll` | host/uart_protocol.py:195 | `findall`: the texts of the match spans, left to right; `FindSpansMatch` and `FindSpansComplete` prove the spans are exactly the leftmost non-overlapping matches, and `FindAllPackets` that every text is a packet |
| `UartBuffer.FindAllShaped` | host/uart_protocol.py:174-195 | every text `findall` returns starts with `START\|`, ends with `\|END` and has room for five fields |
| `UartBuffer.FindAllPackets` | host/uart_protocol.py:174-195 | every text `findall` returns is a packet of the pattern's language |
| `UartBuffer.PacketEndOnlyAtEnd` | host/uart_protocol.py:174 | in a text that is one whole match, `\|END` occurs only right after `START` or at the very end |
| `UartBuffer.ProperPrefixNoMatch` | host/uart_protocol.py:174 | no match starts anywhere in a proper prefix of a whole match |
| `UartBuffer.NoPacketInProperPrefix` | host/uart_protocol.py:195 | `findall` finds nothing in a proper prefix of one whole packet |
| `UartBuffer.NoTerminatorNoPacket` | host/uart_protocol.py:195 | text without a `D` yields no packet |
| `UartBuffer.WholePacketFound` | host/uart_protocol.py:195 | a buffer that is one packet yields exactly that packet |
| `UartBuffer.IndexOf` | host/uart_protocol.py:200 | finds the first occurrence at or after the start index, with none before it |
| `UartBuffer.RemoveFirst` | host/uart_protocol.py:200 | `replace(m, '', 1)`: the text without the first occurrence of `m`, unchanged when there is none; `RemoveFirstKeepsTail` proves that in a text ending with a suffix that starts with `m` it removes `len(m)` characters and keeps the rest of that suffix |
| `UartBuffer.FirstOccurrenceBefore` | host/uart_protocol.py:200 | an occurrence at `p` means the first occurrence is at or before `p` |
| `UartBuffer.EndsWithDrop` | host/uart_protocol.py:200 | a later part of a suffix is also a suffix |
| `UartBuffer.CutKeepsTail` | host/uart_protocol.py:200 | cutting text before a suffix shortens the text by the cut and keeps the suffix |
| `UartBuffer.RemoveFirstKeepsTail` | host/uart_protocol.py:200 | `replace(m, '', 1)`, where `m` starts a suffix, removes `len(m)` characters and keeps the rest of that suffix |
| `UartBuffer.RemoveFirstKeepsLater` | host/uart_protocol.py:200 | the same removal keeps every later part of that suffix |
| `UartBuffer.RemoveSelf` | host/uart_protocol.py:200 | removing a packet from a buffer that is exactly that packet leaves it empty |
| `UartBuffer.RemoveEachStep` | host/uart_protocol.py:197-200 | one more loop iteration removes one more packet and adds its length |
| `UartBuffer.RemoveEach` | host/uart_protocol.py:197-200 | the removal loop of `add_data`: the packets removed one after the other; `RemovalLength` proves that removing all of `findall`'s packets shortens the buffer by exactly their total length |
| `UartBuffer.SpanTexts` | host/uart_protocol.py:195-200 | each packet text starts the buffer's suffix from its span, and the next packet follows within it |
| `UartBuffer.RemovalStep` | host/uart_protocol.py:197-200 | removing one more packet keeps the length account and the position of the next packet |
| `UartBuffer.RemovalProgress` | host/uart_protocol.py:197-200 | after `k` removals the buffer has lost exactly the packets' length and still ends with the text from the next packet on |
| `UartBuffer.RemovalLength` | host/uart_protocol.py:197-200 | removing every packet found shortens the buffer by exactly their total length |
| `UartBuffer.PySliceFrom` | host/uart_protocol.py:191 | `s[k:]` keeps `len(s) - k` characters for `0 <= k <= len(s)` |
| `UartBuffer.Trimmed` | host/uart_protocol.py:189-191 | a buffer within the limit is kept whole; a longer one loses exactly its first `max_buffer_size // 2` characters |
| `UartBuffer.TrimmedKeepsEnd` | host/uart_protocol.py:189-191 | the trim keeps a suffix: the newest data survives |
| `UartBuffer.TrimKeepsLongChunk` | host/uart_protocol.py:189-191 | the trim does not bound the buffer: a large chunk leaves it longer than the limit |
| `UartBuffer.Buffer.constructor` | host/uart_protocol.py:171-174 | an empty buffer with the given limit |
| `UartBuffer.Buffer.AddData` | host/uart_protocol.py:176-202 | returns the matches of the trimmed buffer left to right; the buffer becomes the trimmed text with each packet removed in turn, and its length is the trimmed length minus the packets' total length |
| `UartBuffer.Buffer.ClearBuffer` | host/uart_protocol.py:204-206 | the buffer is empty and its size is 0 |
| `UartBuffer.Buffer.GetBufferSize` | host/uart_protocol.py:208-210 | the size is the number of buffered characters |
| `UartBuffer.SplitPacketExchange` | host/uart_protocol.py:290-298 | for every packet of the pattern's language split into two chunks and fed to a fresh buffer: with a non-empty second chunk nothing comes out of the first call and the whole packet out of the second; with an empty second chunk the packet comes out of the first call and nothing out of the second |
| `Commands.AvailableCommandsAreKeys` | host/uart_protocol.py:215-266 | the available commands are exactly the table's keys, each listed once |
| `Commands.Upper` | host/uart_protocol.py:235 | `upper()` keeps the length |
| `Commands.UpperAt` | host/uart_protocol.py:235 | `upper()` maps each character on its own |
| `Commands.StripKeepsCharacters` | host/uart_protocol.py:235 | stripping introduces no new characters |
| `Commands.UpperFixed` | host/uart_protocol.py:235 | text that is already upper case is unchanged by `upper()` |
| `Commands.Normalise` | host/uart_protocol.py:235 | `upper().strip()`; `NormaliseIdempotent` proves that a second application changes nothing |
| `Commands.NormaliseIdempotent` | host/uart_protocol.py:235 | `upper().strip()` applied twice is the same as applied once |
| `Commands.Arguments` | host/uart_protocol.py:238 | `args or []`: missing arguments are an empty list |
| `Commands.RenderKind` | host/uart_protocol.py:240-262 | the reply text starts with `OK: ` exactly for a success and with `ERROR: ` exactly for a failure |
| `Commands.Handle` | host/uart_protocol.py:242-262 | every handler succeeds except `CONFIG` without arguments |
| `Commands.Respond` | host/uart_protocol.py:237-240 | a reply is a success exactly when the name is in the table and is not an argument-less `CONFIG` |
| `Commands.ReplyKind` | host/uart_protocol.py:224-262 | every reply is either an `OK: ` or an `ERROR: ` reply, and it is `OK: ` exactly for a known command other than an argument-less `CONFIG` |
| `Commands.ProcessCommand` | host/uart_protocol.py:224-240 | `process_command`: normalise, look up, reply; `ReplyKind` proves every reply is `OK: ` or `ERROR: `, `OK: ` exactly for a known command other than an argument-less `CONFIG`, and `ProcessNormalised` that the reply depends only on the normalised name |
| `Commands.UnknownCommandReply` | host/uart_protocol.py:240 | an unknown command is answered with its normalised name quoted |
| `Commands.FixedReplies` | host/uart_protocol.py:242-262 | `STATUS`, `RESET`, `START` and `STOP` give their fixed replies |
| `Commands.ProcessNormalised` | host/uart_protocol.py:235 | commands are case-insensitive for ASCII letters and ignore surrounding whitespace |
| `Commands.ConfigReply` | host/uart_protocol.py:250-254 | `CONFIG` refuses an empty list, and otherwise echoes its arguments joined by `, ` |
| `Commands.ArgumentsIgnored` | host/uart_protocol.py:242-262 | every command other than `CONFIG` ignores its arguments |
| `Visualiser.LastN` | host/visualiser.py:18-19 | a deque bounded by `n` holds `min(len, n)` elements |
| `Visualiser.Append` | host/visualiser.py:96-97 | `append` on a deque with `maxlen`: the last `maxlen` elements of the window followed by the new one; `AppendBounded` and `AppendKeepsWindow` prove the bound and the last-`n` window |
| `Visualiser.AppendBounded` | host/visualiser.py:96-97 | `append` never exceeds the bound: below it the element is added, at it the oldest is evicted |
| `Visualiser.AppendKeepsWindow` | host/visualiser.py:96-97 | a deque holding the last `n` points of a history still does after one more append |
| `Visualiser.MinOf` | host/visualiser.py:122 | the running minimum is absent exactly when nothing was added |
| `Visualiser.MaxOf` | host/visualiser.py:123 | the running maximum is absent exactly when nothing was added |
| `Visualiser.ExtremesBound` | host/visualiser.py:122-123 | the running minimum and maximum are values that were added, and they bound all of them |
| `Visualiser.ExtremesSnoc` | host/visualiser.py:122-123 | one more point updates them by `min` and `max` |
| `Visualiser.SumBounds` | host/visualiser.py:128 | a sum of values in `[lo, hi]` lies within `[n·lo, n·hi]` |
| `Visualiser.QuotientBounds` | host/visualiser.py:128 | dividing such a sum by `n` lands in `[lo, hi]` |
| `Visualiser.Average` | host/visualiser.py:126-128 | `avg_temp`: the sum over the length, or 0 for an empty window; `AverageBounds` proves it lies between the window's minimum and maximum |
| `Visualiser.AverageBounds` | host/visualiser.py:126-128 | the window's mean lies between its minimum and maximum |
| `Visualiser.RangeOf` | host/visualiser.py:251-255 | a range exists exactly for a non-empty window |
| `Visualiser.RangeBounds` | host/visualiser.py:251-255 | the range is two values of the window that bound all of it |
| `Visualiser.Overwrite` | host/visualiser.py:100-108 | a second update of a key overrides the first |
| `Visualiser.SensorsStep` | host/visualiser.py:100-108 | one point for a sensor keeps the per-sensor store consistent: ids unique and in insertion order, and each sensor's deques holding its last `max_points` points |
| `Visualiser.RealTimeVisualizer.constructor` | host/visualiser.py:13-29 | empty deques, no sensors and the initial statistics |
| `Visualiser.RealTimeVisualizer.UpdateStats` | host/visualiser.py:119-128 | one more point counted, minimum and maximum folded in, update time stamped, and the average recomputed over the window when it is not empty |
| `Visualiser.RealTimeVisualizer.AddToSensor` | host/visualiser.py:100-108 | creates the sensor's entry on its first point, appends to its deques and leaves every other sensor unchanged |
| `Visualiser.RealTimeVisualizer.AddToWindows` | host/visualiser.py:96-97 | appends the point to both global deques |
| `Visualiser.RealTimeVisualizer.AddDataPoint` | host/visualiser.py:89-111 | appends to both deques and to the sensor's own, with the current time as the default timestamp; updates the statistics; the store stays consistent |
| `Visualiser.RealTimeVisualizer.ClearData` | host/visualiser.py:185-199 | empties both deques and the sensor map, restores the initial statistics and leaves an empty summary |
| `Visualiser.RealTimeVisualizer.GetDataSummary` | host/visualiser.py:236-257 | reports the window size, the sensors in insertion order, a time range only for more than one timestamp, a temperature range only for a non-empty window, and the statistics |
| `Visualiser.RealTimeVisualizer.SummaryWithinStats` | host/visualiser.py:96-128 | for a consistent store: the deques have equal length, the window holds `min(data_points, max_points)` points, every retained value lies between the running minimum and maximum, and the average lies within the window's range |

## Left out

- `Text.ParseInt`: reads only an optional sign and ASCII digits between number whitespace. Python's `int()` also takes `_` between digits and non-ASCII decimal digits, and refuses a text of more than 4300 digits.
- `Text.ParseDecimal`: reads only decimal literals, and keeps their exact value. Python's `float()` also takes exponents, `inf`, `nan`, `_` and non-ASCII digits. It also rounds to a binary double:
  - `0.99999999999999999` becomes `1.0`, so `int()` of it in the checksum is 1 where the model has 0;
  - a literal of about 310 digits becomes an infinity, whose `int()` raises inside `_validate_checksum`; the bare `except` (`host/uart_protocol.py:99`) makes that line a checksum error, where the model checks the exact value.
- `Text.ShowTemperature`: rounds the exact decimal value half to even. Python rounds the binary double, which can differ from the decimal value at a rounding boundary.
- `UartProtocol.SuccessRate`: exact arithmetic on reals. Python computes `(valid / received) * 100` in floating point with two roundings, so 1 valid out of 3 gives `33.33333333333333` rather than 100/3, and with nothing received it returns the integer `0`.
- `Visualiser.Average`: exact arithmetic on reals. Floating-point rounding of `sum(...) / len(...)` is not modelled.
- `Commands.Upper`: ASCII letters only. Unicode case mapping is not modelled.
- `UartBuffer.RunEnd`: `\d` is read as ASCII digits only.
- `UartProtocol.Protocol.ParsePacket`: only whether `datetime.fromtimestamp` succeeds is modelled, not the `timestamp_readable` value. A local date outside the years 1..9999, for the instant or for the instant one day earlier that CPython converts to detect a fold, raises `ValueError`, which is caught as a format error after the sequence was recorded. The model converts both with the same `utcOffset`, so a change of offset within that day is not modelled. Far outside the years 1..9999 the conversion fails differently, on every platform. `timestamp / 1000.0` or `fromtimestamp` raises `OverflowError` beyond the float or `time_t` range, and glibc's `localtime` fails with `OSError` beyond roughly 6.8e19 milliseconds, a 20-digit field that the buffer's `\d+` lets through. The handler does not catch these: `parse_packet` raises after `packets_received` and the sequence table were updated, and no verdict counter moves. The model counts such a line as a format error instead.
- `UartProtocol.Protocol.ParsePacket`: the `IndexError` branch of the handler is unreachable once the field count is checked, so it is not modelled.
- `UartProtocol.Protocol.GetStats`: returns the sequence table as a value. The Python shallow copy shares the `last_sequence` dictionary with the parser, and that aliasing is not modelled.
- Clock readings are parameters:
  - the receive time of `parse_packet`;
  - the timestamp of `create_packet`;
  - `now` in `add_data_point`, used both as the default timestamp and as the `last_update` time that `update_stats` takes.
- `Visualiser.RealTimeVisualizer.GetDataSummary`: the time range is the numeric difference of the oldest and newest retained timestamps. Its `str(timedelta)` text form is not modelled.
- The per-sensor `color` entry and `get_sensor_color` are not modelled, because they depend on Python's randomised `hash()`.
- `update_interval`, the plotting and button code, `data_lock`, and `MultiSensorVisualizer` are not part of this model. The store is modelled sequentially.
- `host/uart_logger.py` is not part of this model: it is file I/O, a logging thread and floating-point analysis.
- Of the demonstration code, only the split-packet exchange is modelled.

## Findings

| source | as written | input that shows it | evidently intended | confidence | as-written member | corrected member |
|---|---|---|---|---|---|---|
| host/uart_protocol.py:132-139 | `create_packet` takes the checksum over `int()` of the unrounded temperature but prints the temperature rounded to two decimals | `create_packet("A", 0, 0.999)` prints `1.00` with checksum 65; `parse_packet` recomputes 65 + 0 + `int(1.00)` = 66 and drops the packet as a checksum error | the checksum is taken over the temperature as printed, so `parse_packet` accepts every packet `create_packet` builds | not executed | `UartProtocol.CreatePacketMismatch` | `UartProtocol.RoundTripConsistent` |
