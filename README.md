# subway-board core, modelled in Dafny

This project models the logic at the heart of the subway arrival board.

- **Feed decoder.** A hand-written decoder reads the Protocol Buffers wire format of a GTFS-realtime feed.
  - Base 128 varints, the key split into field number and wire type, length-delimited slices, and the skip rule for each wire type.
  - Seven cursor-loop decoders, one per message shape:
    - FeedMessage: header = 1, entity = 2.
    - FeedHeader: version = 1, timestamp = 3.
    - FeedEntity: id = 1, trip_update = 3.
    - TripUpdate: trip = 1, stop_time_update = 2.
    - TripDescriptor: trip_id = 1, route_id = 5.
    - StopTimeUpdate: stop_sequence = 1, arrival = 2, departure = 3, stop_id = 4.
    - StopTimeEvent: time = 2.
- **Arrival service.** It pulls the arrivals at one stop out of a decoded feed, ranks them, and formats a display line with one colour per character.
- **Display manager (a narrow slice).** The night-mode and button state machine, the quiet-hours test, and the writer that puts a line of text into the character cells of the LED matrix.

## Layout

- `wrappers.dfy`: `Option` and `Result`.
- `wire.dfy`: the wire format as functions on byte sequences. Each one has an encoder for its round trip. The four cursor primitives `parse_varint`, `parse_key`, `parse_length_delimited` and `skip_field` are methods, proved equal to those functions.
- `utf8.dfy`: `bytes.decode("utf-8")` as a strict well-formedness check (Table 3-7 of the Unicode Standard). The bytes themselves are kept.
- `field_stream.dfy`:
  - The loop every decoder shares: read a key, then a payload, until the cursor reaches the end.
  - Its specification is `Scan`, from bytes to a stream of fields that ends cleanly or truncated.
  - `Fold` runs a per-field handler over that stream.
  - This file also holds the generic theorems: skipped fields are invisible, the last value wins, repeated fields keep wire order, and truncation fails.
- `gtfs_feed.dfy`: the seven records and their per-field handlers. Each message decoder is `Fold(handler, defaults, Scan(bytes))`.
- `gtfs_properties.dfy`: the generic theorems instantiated for each message.
- `gtfs_parser.dfy`: the seven `while idx < end` loops as methods, each proved equal to its decoder function.
- `train_service.dfy`: arrival extraction, with the loops as methods over a functional specification; the stable sort and the cut to three; urgency colours; and `format_train_display`.
- `display_manager.dfy`:
  - A `Display` class whose fields are the mode flags and whose four arrays are the per-cell palettes and glyph grids of the two lines.
  - A functional `Mode` machine that specifies the class's methods.
  - The cell writer `set_text_with_colors`.

### Modelling decisions

- **Bytes, integers, strings.** Bytes are `nat` values below 256. Varints are unbounded `nat`, as Python integers are. Strings decoded from the feed stay as their UTF-8 bytes. The stop id being looked up is passed as its UTF-8 bytes too.
- **Errors.** The Python code raises, and the model returns a `Result` instead:
  - An `IndexError` from reading a varint past the buffer end becomes `TruncatedInput`.
  - A `UnicodeError` from `decode` becomes `MalformedString`.
  - The `AttributeError` from a trip update whose descriptor is `None` becomes `MissingTrip`.
  - `set_text_with_colors` returns `ok == false` when it would raise: on an empty colour list (`colors[-1]`), or on a character whose code point is 256 or more (`charmap[ord(c)]`). The cells written before the raise stay written, including the colour of the failing cell, because it is written before the glyph lookup.
- **Over-long lengths.** A declared length that runs past the buffer does not fail. The slice is truncated and the cursor jumps past the end, exactly as Python slicing does.
- **Wire types 3 and 4.** A key with wire type 3, 4, 6 or 7 consumes no payload bytes.
- **Clock.** `now`, `hour` and `minute` are parameters. The device clock runs on Eastern time (it is synchronised with a −5 h offset). The minutes are therefore `floor((best_time − 18000 − now) / 60)`, computed with Dafny's Euclidean division, which agrees with Python's `//` for a positive divisor.
- **Button.** The button reading is a parameter `pressed`. The character map is a parameter of the `Display` constructor.

### Behaviour of the code worth knowing

- **Space colour.** The space before each arrival is white (`train_service.py:90`).
- **Negative minutes.** Minutes can be as low as −300 (`CollectedMinutesBound`). The filter compares the UTC feed time with the local `now`, and the five-hour shift is applied after it.
- **Trip id fallback.** `get("trip_id", "Unknown")` never falls back, because the decoded descriptor always has the key. A missing trip id is passed on as `None` (`train_service.py:35`).
- **Button edge.** The toggle fires on release. The stored state is the previous `pressed` reading, so a new press is seen when the button goes from pressed to not pressed (`CheckButtonCharacterised`).
- **Missing descriptor.** A trip update whose `trip` is `None` raises `AttributeError`, so extraction fails (`Collected`).

## Model

| member | source | states |
|---|---|---|
| Wire.Varint | lib/partial_protobuf_feed.py:37-51 | a successful read consumes between 1 and all of the bytes; the only failure is a truncated input |
| Wire.VarintCharacterised | lib/partial_protobuf_feed.py:37-51 | on success, the bytes read are exactly those up to and including the first byte below 0x80, and the value is Σ (b_k mod 128)·128^k over them; failure happens exactly when every remaining byte has its high bit set |
| Wire.VarintOfContinuations | lib/partial_protobuf_feed.py:44-46 | a buffer that ends before a byte below 0x80 fails with `TruncatedInput` |
| Wire.VarintRoundTrip | lib/partial_protobuf_feed.py:37-51 | reading the base-128 encoding of any n, whatever follows it, yields n and advances by the length of the encoding |
| Wire.ParseVarint | lib/partial_protobuf_feed.py:37-51 | the `shift`/`result` loop returns the specified varint of the bytes from `index`, with the index just past it |
| Wire.SplitKey | lib/partial_protobuf_feed.py:60-61 | `field_num * 8 + wire_type == v` and `wire_type < 8` |
| Wire.KeyRoundTrip | lib/partial_protobuf_feed.py:54-62 | splitting the key built from a field number and a wire type below 8 gives both back |
| Wire.KeyAt | lib/partial_protobuf_feed.py:54-62 | a key read succeeds exactly when its varint does, splits that varint into number·8 + type with type < 8, and moves the cursor forward by at least one byte |
| Wire.ParseKey | lib/partial_protobuf_feed.py:54-62 | the method returns the key read at `index` |
| Wire.Slice | lib/partial_protobuf_feed.py:70 | the slice holds `min(hi, len) − lo` bytes, or none when `lo` is past the end |
| Wire.LengthDelimited | lib/partial_protobuf_feed.py:65-71 | a length-delimited read fails only with `TruncatedInput` |
| Wire.OverlongLength | lib/partial_protobuf_feed.py:70-71 | a declared length longer than the bytes left does not fail: the body is what remains, and the cursor moves the full declared length |
| Wire.ParseLengthDelimited | lib/partial_protobuf_feed.py:65-71 | the method returns the truncating slice and the index `i + length` |
| Wire.ReadPayload | lib/partial_protobuf_feed.py:74-91 | the payload read has the requested wire type; the only failure is a truncated input |
| Wire.PayloadAt | lib/partial_protobuf_feed.py:74-91 | the payload at `index` has the requested wire type, the cursor never moves back, and a payload is a varint or a byte string exactly when the wire type is 0 or 2 |
| Wire.SkipField | lib/partial_protobuf_feed.py:74-91 | the new index is: past the varint for type 0; `index + 8` for type 1; past the length varint plus the length for type 2; `index + 4` for type 5; unchanged for any other type |
| Wire.NextField | lib/partial_protobuf_feed.py:114-133 | one loop turn consumes at least one byte, so `end − idx` strictly decreases |
| Wire.PayloadRoundTrip | lib/partial_protobuf_feed.py:74-91 | reading back an encoded well-formed payload gives the payload and its exact length, whatever follows |
| Wire.FieldRoundTrip | lib/partial_protobuf_feed.py:54-91 | reading back an encoded well-formed field (key plus payload) gives the field and its exact length |
| Utf8.DecodeUtf8 | lib/partial_protobuf_feed.py:120 | decoding succeeds exactly on well-formed UTF-8 and keeps the bytes; otherwise it fails with `MalformedString` |
| Utf8.AsciiIsWellFormed | lib/partial_protobuf_feed.py:166 | bytes below 0x80, as in stop and trip ids, always decode |
| Utf8.StrayContinuationFails | lib/partial_protobuf_feed.py:120 | a lone continuation byte does not decode |
| FieldStream.FieldAt | lib/partial_protobuf_feed.py:114-133 | reading a field at `index` moves the cursor strictly forward; the only failure is truncation |
| FieldStream.ScanStep | lib/partial_protobuf_feed.py:114-133 | the field stream from `index` is the field read there followed by the stream from the new cursor, or a truncation |
| FieldStream.FoldStep | lib/partial_protobuf_feed.py:114-133 | the loop reads a field, applies it, then continues; an error at either step ends the decode |
| FieldStream.ScanEncoded | lib/partial_protobuf_feed.py:366-381 | scanning the encoding of well-formed fields yields exactly those fields, in order, followed by the scan of the rest |
| FieldStream.IgnoredFieldIsInvisible | lib/partial_protobuf_feed.py:132-133 | a field the handler ignores changes nothing about the decode |
| FieldStream.UnknownFieldIsSkipped | lib/partial_protobuf_feed.py:132-133 | inserting the encoding of an ignored well-formed field anywhere leaves the decoded result unchanged |
| FieldStream.TruncatedStreamFails | lib/partial_protobuf_feed.py:44-46 | a stream that ends in truncation always makes the decode fail |
| FieldStream.CutInsideVarintFails | lib/partial_protobuf_feed.py:44-46 | well-formed fields followed by a cut varint always fail to decode |
| FieldStream.OverlongLastFieldEndsScan | lib/partial_protobuf_feed.py:70-71 | a last field with an over-long length yields its truncated body, and the loop then ends cleanly |
| FieldStream.OnlyIgnoredFields | lib/partial_protobuf_feed.py:107-112 | a message made only of ignored fields decodes to the defaults |
| FieldStream.DecodeEncodedFields | lib/partial_protobuf_feed.py:366-381 | decoding encoded well-formed fields is folding the handler over those fields |
| FieldStream.FoldSnoc | lib/partial_protobuf_feed.py:114-133 | folding one more field applies the handler to the result so far |
| FieldStream.LastValueWins | lib/partial_protobuf_feed.py:122-125 | when each field either sets a slot or leaves it alone, the slot ends with the last value set, or the default |
| FieldStream.RepeatedFieldInOrder | lib/partial_protobuf_feed.py:207-212 | when a handler appends the decoded body of each occurrence of a field, the list holds them one per occurrence, in wire order |
| FieldStream.TotalHandlerFailsOnlyOnTruncation | lib/partial_protobuf_feed.py:311-319 | with a handler that never fails, the decode fails exactly when the stream is truncated |
| FeedProperties.DecodeTimeFailsOnlyOnTruncation | lib/partial_protobuf_feed.py:299-319 | `parse_mta_timestamp` fails exactly when its bytes are truncated |
| FeedProperties.TimeIsLastVarint | lib/partial_protobuf_feed.py:309-319 | the time is the last varint field 2, or `None` |
| FeedProperties.TimeSkipsUnknownField | lib/partial_protobuf_feed.py:316-317 | any field other than varint field 2 is skipped without effect |
| FeedProperties.StopTimeUpdateLastScalars | lib/partial_protobuf_feed.py:270-281 | stop_sequence and stop_id are the last values of fields 1 and 4, or `None` |
| FeedProperties.StopTimeUpdateLastTimes | lib/partial_protobuf_feed.py:283-291 | arrival and departure times come from the last fields 2 and 3, or are `None` |
| FeedProperties.StopTimeUpdateSkipsUnknownField | lib/partial_protobuf_feed.py:293-294 | an unrecognised field, or a known number with the wrong wire type, leaves the update unchanged |
| FeedProperties.StopTimeUpdateDefaults | lib/partial_protobuf_feed.py:263-268 | with no recognised field, all four values are `None` |
| FeedProperties.MalformedStopIdFails | lib/partial_protobuf_feed.py:278-281 | a stop_id that is not UTF-8 makes the update fail, with `MalformedString` when the earlier fields decode |
| FeedProperties.TripDescriptorLastValues | lib/partial_protobuf_feed.py:231-242 | trip_id and route_id are the last fields 1 and 5, or `None` |
| FeedProperties.TripDescriptorSkipsUnknownField | lib/partial_protobuf_feed.py:243-244 | other fields, such as the start date, are skipped without effect |
| FeedProperties.TripDescriptorDefaults | lib/partial_protobuf_feed.py:231 | with no recognised field, trip_id and route_id are both `None` |
| FeedProperties.StopTimeUpdatesInWireOrder | lib/partial_protobuf_feed.py:207-212 | there is one stop_time_update per field 2, decoded from its body, in wire order |
| FeedProperties.TripUpdateSkipsUnknownField | lib/partial_protobuf_feed.py:214-215 | other fields, such as the timestamp and the extension, are skipped without effect |
| FeedProperties.TripUpdateDefaults | lib/partial_protobuf_feed.py:197 | with no recognised field, the trip is `None` and the stop_time_update list is empty |
| FeedProperties.EntityLastValues | lib/partial_protobuf_feed.py:160-171 | the id and the trip update come from the last fields 1 and 3, or are `None` |
| FeedProperties.EntitySkipsUnknownField | lib/partial_protobuf_feed.py:173-179 | the vehicle block and every other field are consumed without effect |
| FeedProperties.EntityDefaults | lib/partial_protobuf_feed.py:154-158 | with no recognised field, the id and the trip update are both `None` |
| FeedProperties.HeaderLastValues | lib/partial_protobuf_feed.py:114-125 | the version is the last field 1 (or `None`), and the timestamp is the last varint field 3 (or 0) |
| FeedProperties.HeaderSkipsUnknownField | lib/partial_protobuf_feed.py:127-133 | the NYCT extension and every other field are consumed without effect |
| FeedProperties.HeaderDefaults | lib/partial_protobuf_feed.py:109-112 | with no recognised field, the header is (`None`, 0) |
| FeedProperties.EntitiesInWireOrder | lib/partial_protobuf_feed.py:374-378 | there is one entity per top-level field 2, decoded from its body, in wire order |
| FeedProperties.FeedHeaderLastWins | lib/partial_protobuf_feed.py:369-372 | the header is the last field 1, or the default header |
| FeedProperties.FeedMessageSkipsUnknownField | lib/partial_protobuf_feed.py:380-381 | top-level fields other than 1 and 2 are skipped without effect |
| FeedProperties.FeedMessageDefaults | lib/partial_protobuf_feed.py:358-364 | with no recognised field, the message has the default header and no entities |
| GtfsParser.ParseTimestamp | lib/partial_protobuf_feed.py:299-319 | the cursor loop computes the specified StopTimeEvent decode |
| GtfsParser.ParseStopTimeUpdate | lib/partial_protobuf_feed.py:249-296 | the cursor loop computes the specified StopTimeUpdate decode |
| GtfsParser.ParseTripDescriptor | lib/partial_protobuf_feed.py:220-246 | the cursor loop computes the specified TripDescriptor decode |
| GtfsParser.ParseTripBlock | lib/partial_protobuf_feed.py:184-217 | the cursor loop, with its appends, computes the specified TripUpdate decode |
| GtfsParser.ParseEntity | lib/partial_protobuf_feed.py:141-181 | the cursor loop computes the specified FeedEntity decode |
| GtfsParser.ParseHeader | lib/partial_protobuf_feed.py:97-135 | the cursor loop computes the specified FeedHeader decode |
| GtfsParser.ParseFeedMessage | lib/partial_protobuf_feed.py:325-383 | the cursor loop, with its appends, computes the specified FeedMessage decode |
| TrainService.Collected | train_service.py:30-36 | collecting arrivals fails exactly when some entity has a trip update without a trip descriptor |
| TrainService.ProcessStopUpdates | train_service.py:41-59 | the loop appends the arrivals of the trip's matching updates, in order, to the list it was given |
| TrainService.GetTrainTimes | train_service.py:23-39 | the loop over entities, the sort and the cut compute the specified result |
| TrainService.ArrivalForCharacterised | train_service.py:44-59 | an update contributes exactly when its stop_id equals the requested one and its best time is truthy and not before `now`; the best time is the departure time when truthy, else the arrival time; the minutes are floor((best − 18000 − now)/60), at least −300; the trip id is passed through |
| TrainService.StopArrivalsMembership | train_service.py:43-59 | an arrival is in a trip's list exactly when some update of that trip yields it |
| TrainService.CollectedFailureSticks | train_service.py:30-36 | once an entity has made collection fail, no later entity changes that |
| TrainService.CollectedMembership | train_service.py:30-36 | an arrival is collected exactly when some update of some entity with a trip update yields it |
| TrainService.CollectedMinutesBound | train_service.py:52-57 | every collected arrival has minutes ≥ −300 |
| TrainService.InsertPermutes | train_service.py:39 | inserting adds exactly one element to the multiset |
| TrainService.InsertSorted | train_service.py:39 | inserting into a sorted list keeps it sorted |
| TrainService.SortByMinutesSorted | train_service.py:39 | the sort returns a permutation of its input, sorted by minutes |
| TrainService.InsertKeepsTies | train_service.py:39 | insertion puts an element before the existing elements with the same minutes |
| TrainService.SortByMinutesStable | train_service.py:39 | arrivals with equal minutes keep their relative order, as Python's stable sort does |
| TrainService.SortedSplit | train_service.py:39 | cutting a sorted list keeps the front sorted, splits the multiset, and leaves no later element smaller |
| TrainService.TrainTimesEarliest | train_service.py:39 | the result holds min(3, n) of the collected arrivals, sorted, and none left out is earlier than one kept |
| TrainService.TrainTimesKeepFeedOrder | train_service.py:39 | the result is the prefix of the stable sort, so ties appear in feed order |
| TrainService.TimeColor | train_service.py:61-68 | red exactly when mins < 2, yellow exactly when 2 ≤ mins < 5, white exactly when mins ≥ 5 |
| TrainService.Digits | train_service.py:83 | the decimal digits of a natural number are one or more characters 0-9 |
| TrainService.DecimalString | train_service.py:83 | `str(m)` is non-empty and made of numerals, and starts with '-' exactly when m < 0 |
| TrainService.DigitsRoundTrip | train_service.py:83 | reading back the digits of n gives n |
| TrainService.DecimalRoundTrip | train_service.py:83 | reading back `str(m)` gives m, for negative m too |
| TrainService.FormatTrainDisplay | train_service.py:70-100 | the loop builds the specified text and colour list |
| TrainService.DisplayAligned | train_service.py:70-100 | there is exactly one colour per character of the text, for any minutes, and the list is never empty |
| TrainService.DisplayLayout | train_service.py:72-79 | the text starts with the direction, coloured blue; with no arrivals, " No trains" follows, in white |
| TrainService.SegmentLayout | train_service.py:83-98 | within one arrival's text, the space and the comma are white and every other character has the urgency colour |
| TrainService.ArrivalColours | train_service.py:82-98 | each character of arrival k sits in the line at its offset, and its colour is white for a space or a comma and the urgency colour otherwise |
| TrainService.SegmentAscii | train_service.py:83-97 | an arrival's text is ASCII |
| TrainService.ConcatAscii | train_service.py:84 | appending ASCII pieces gives ASCII text |
| TrainService.DisplayTextAscii | train_service.py:78-98 | the line is the direction followed by ASCII text only |
| TrainService.TwoArrivalsExample | train_service.py:70-100 | arrivals in 3 and 12 minutes under "N" give "N 3m, 12m" with colours blue, white, yellow, yellow, white ×5 |
| TrainService.NegativeMinutesExample | train_service.py:83-93 | −2 minutes under "S" give "S -2m", with the minus sign in the urgency colour |
| DisplayManager.IsQuietHours | display_manager.py:288-312 | for a valid time, quiet exactly when hour:minute is at or after 20:00 or before 03:30 |
| DisplayManager.ShowNightProperties | display_manager.py:314-322 | `show_night_mode` leaves night mode on, keeps the manual flag and the button state, and is idempotent |
| DisplayManager.ShowNormalProperties | display_manager.py:324-332 | `show_normal_mode` leaves night mode off and never changes the manual flag or the button state |
| DisplayManager.CheckButtonCharacterised | display_manager.py:238-267 | the last button state becomes the reading; the manual flag toggles exactly when the stored state is true and the reading is not pressed, which is a release, since the stored state holds the previous `pressed` reading; otherwise the code is 0 and nothing else changes; code 1 means manual mode on and night on; code 2 means manual mode off and night off |
| DisplayManager.CheckButtonRunParity | display_manager.py:238-267 | over any sequence of readings, the manual flag has flipped once per release, and the last state is the last reading |
| DisplayManager.ConsistentInvariant | display_manager.py:314-356 | brightness, hidden group and root group always agree with night mode, from the initial state through every operation |
| DisplayManager.UpdateManualStaysDark | display_manager.py:334-356 | when manual mode is on after the button check, the update ends in night mode and writes nothing; text is written exactly when the update ends in normal mode |
| DisplayManager.FreshDisplayFirstCheck | display_manager.py:183 | a new display starts with the stored state true, so a first check with the button not pressed counts as a release and turns manual night mode on (code 1) |
| DisplayManager.Padded | display_manager.py:275-277 | short text is padded with spaces to the line length; longer text is kept |
| DisplayManager.FirstWide | display_manager.py:284-286 | it finds the first cell whose character has no glyph entry, or the line length |
| DisplayManager.FailCellCharacterised | display_manager.py:279-286 | the write completes exactly when there is a colour and every shown character is below 256 |
| DisplayManager.LineShowsText | display_manager.py:269-286 | after a complete write, cell i has colour `colors[min(i, len − 1)]` and the glyph of character i, and cells past the text show the space glyph |
| DisplayManager.TrainDisplayWritable | display_manager.py:269-286 | the line `format_train_display` builds is written in full exactly when the shown characters of the direction are below 256 |
| DisplayManager.Display.constructor | display_manager.py:20-45 | a new display is in normal mode with the button up, and each cell has colour 0 and the default tile |
| DisplayManager.Display.ShowNightMode | display_manager.py:314-322 | the fields change as the night-mode step specifies |
| DisplayManager.Display.ShowNormalMode | display_manager.py:324-332 | the fields change as the normal-mode step specifies |
| DisplayManager.Display.CheckButton | display_manager.py:238-267 | the fields and the returned code are those of the button step |
| DisplayManager.Display.SetTextWithColors | display_manager.py:269-286 | line 1 is written when line_num is 0, and line 2 otherwise; the other line is untouched; `ok` says whether the write completed |
| DisplayManager.Display.UpdateDisplay | display_manager.py:334-363 | the mode follows the update step; in night mode nothing is written; otherwise line 1 is written, then line 2 if line 1 completed |
| DisplayManager.WriteLine | display_manager.py:279-286 | cells before the failing cell get their colour and glyph; the failing cell gets only its colour; later cells are untouched |

## Left out

- Network and I/O: `get_feed_data`, the HTTP fetch, Wi-Fi and clock synchronisation. network_manager.py is not part of this model.
- The clock: `time.time()` and `time.localtime()` become the parameters `now`, `hour` and `minute`.
- Hardware: the matrix, framebuffer, fonts, bitmaps, `display.refresh` and the brightness floats. Brightness is the two-valued `Full`/`Dim`.
- The font lookup that fills `charmap` is a constructor parameter.
- `_scroll_text`: a timed animation, reached only when `scrolling_enabled` is set. The program never sets it, so `UpdateDisplay` models the static path.
- The debounce `time.sleep` in `check_button`, and the `print`/`debug_print` output.
- code.py, the main loop. Note that code.py:65 overwrites `last_button_state` after construction. Without that, the first check would see a release and turn manual night mode on (`FreshDisplayFirstCheck`). The recovery path at code.py:130 builds a new display through `initialize_system()` without that override. After any exception in the main loop, the first check with the button up therefore turns manual night mode on.
- The entity `vehicle` key is always `None`. It is omitted from the record.
- The contents of the NYCT extension (field 1001) and of entity field 4 are consumed without being parsed, as in the code.
- Python's distinct exception types are merged into the error values listed above.
- Utf8.DecodeUtf8: follows CPython's strict decoder (Table 3-7 of the Unicode Standard). CircuitPython's `decode` runs a looser structural check that counts lead and continuation bytes. On the device, overlong forms such as `C0 80`, encoded surrogates such as `ED A0 80`, and leads `F5`-`F7` decode. In the model they give `MalformedString`, which also governs `MalformedStopIdFails`.
- The in-place sort is modelled as a functional stable insertion sort, `SortByMinutes`. `sorted` builds a new list, so no aliasing is lost.
- MalformedStopIdFails: it states failure for a bad stop_id appended after well-formed fields, not at every position.
- FeedProperties.StopTimeUpdateLastScalars, FeedProperties.StopTimeUpdateLastTimes, FeedProperties.TripDescriptorLastValues, FeedProperties.EntityLastValues, FeedProperties.HeaderLastValues and FeedProperties.FeedHeaderLastWins: each states its last-value result only for a decode that succeeds.
