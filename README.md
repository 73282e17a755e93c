# traffic-pcb-sb, verified model

traffic-pcb-sb is a circuit board that shows live freeway traffic. Each of its LEDs stands for a stretch of road. Server scripts ask TomTom for the current and the typical speed of every stretch and publish them as files. The ESP32 firmware on the board downloads those files and colours each LED by how fast its road flows compared with normal.

This project is a Dafny model of the logic at the core of both halves, with proofs about it.

Server side (Python):
- `Records`, `Text`, `PyBytes`: the LED location rows as `csv.DictReader` gives them, Python's `int()` on text, and `bytearray()` on a list of integers.
- `CsvResolver`: pruneCSVEntries of `fetch_tomtom_data.py` and `fetch_tomtom_three.py`. It filters by direction, finds duplicate and missing LED numbers, and folds "Reference" aliases onto their canonical row.
- `TileDecode`: the vector-tile decode and the flow-segment decision. The tile tags follow section 4.4 of the Mapbox Vector Tile Specification 2.1.
- `TomtomSpeeds`: requestSpeeds, the sorted CSV, the one-byte-per-LED file and the addendum, for both lineages (the "Special" sentinel is -2 in one and 0 in the other).
- `FetchTwo`: `fetch_tomtom_two.py`.
- `TomtomRequest`: `tomtomRequest.py`.
- `LedCoordinates`: the LED coordinate table generator.

Firmware side (C):
- `RingArith`, `CircularBuffer`, `CommonCircularBuffer`: the marked ring buffer and the unmarked one. The backing store is an `array`, and a ghost history of everything stored states what each read returns.
- `Ota`: versionFromKey, compareVersions and the streaming parser of the version file.
- `StrobeTask`: the strobe registry and its brightness stepping.
- `AppErrors`: the application error state machine.
- `ActionTask`: the seconds until the next daily action.
- `Refresh` and `MainRefresh`: the two firmware copies of the refresh rules.
- `LedMatrix`: bit-field updates, the LED-to-register lookup, the page cache and the page-switch error handling.
- `Input`: the direction button's flags and debounce.

The network, the I2C bus, NVS, timers and the HTTP client are parameters, and their results are passed in. Every operation follows what the code does with them, mistakes included. For each item under "## Findings", the evidently intended behaviour is a separate definition beside the as-written one, and a lemma relates the two. No operation of the model uses a corrected definition.

## Model

| member | source | states |
|---|---|---|
| Records.Active | software/server-software/fetch_tomtom_data.py:372-376 | the rows a run looks at are at most the rows of the file |
| Records.ActiveMembers | software/server-software/fetch_tomtom_data.py:372-376 | a row is looked at exactly when it is in the file and not marked for the other direction |
| Records.FindMissing | software/server-software/tomtomRequest.py:35-38 | the loop over 1..max reports a missing LED exactly when some number in 1..max has no row |
| PyBytes.ByteArray | software/server-software/fetch_tomtom_data.py:567 | `bytearray(xs)` succeeds exactly when every element is in 0..255, and then holds the same values in the same order |
| PyBytes.OutOfRangeRaises | software/server-software/fetch_tomtom_data.py:567 | one element outside 0..255 is enough for `bytearray` to raise |
| Text.Decimal | software/scripts/led_coordinate_script/generate_led_coordinates.py:111 | the numeral of a number (`f"{n}"`) is a non-empty digit string without a leading zero |
| Text.IntToString | software/server-software/fetch_tomtom_data.py:561 | the numeral `str()` writes for an integer is never empty |
| Text.DecimalIsInjective | software/scripts/led_coordinate_script/generate_led_coordinates.py:111 | different numbers get different numerals |
| Text.RemoveUnderscores | software/server-software/fetch_tomtom_data.py:310 | removing the separators `int()` allows leaves a digit string unchanged |
| Text.PyIntRejectsBlank | software/server-software/fetch_tomtom_data.py:309-312 | `int()` of an empty or blank field raises, so getReference yields None |
| Text.PyIntOfString | software/server-software/fetch_tomtom_data.py:310 | `int()` reads back the numeral `str()` writes, for every integer |
| Text.PyIntOfField | software/server-software/fetch_tomtom_data.py:561 | `int()` still reads the numeral when the line break the CSV writer puts after the last field is attached to it |
| TileDecode.FirstIndex | software/server-software/fetch_tomtom_data.py:268-272 | the tag number found is the FIRST position of "traffic_level" among the layer's keys, and it is found exactly when the key is present |
| TileDecode.OddTagIsIgnored | software/server-software/fetch_tomtom_data.py:279 | `zip(*[iter(tags)] * 2)` drops an unpaired last tag, so it never changes the lookup |
| TileDecode.FindKey | software/server-software/fetch_tomtom_data.py:268-275 | the enumerate loop yields -1 exactly when the key is absent, and otherwise its first position |
| TileDecode.FindTagValue | software/server-software/fetch_tomtom_data.py:278-285 | the loop over the tag pairs yields the value index of the first pair whose key index is the traffic-level tag, -1 when there is none |
| TileDecode.DecodeTile | software/server-software/fetch_tomtom_data.py:255-299 | the decode gives a speed exactly when the tile has one layer, one feature, a traffic_level key, a tag pair for it, a value at that index holding a double, and that double is not -1; the speed is that value |
| TileDecode.RequestTileData | software/server-software/fetch_tomtom_data.py:206-253 | -1 for an entry without a tile id containing exactly two '/', or for a failed request; otherwise the decode's result |
| TileDecode.SegmentDecision | software/server-software/fetch_tomtom_data.py:172-196 | a closed road is 0 for a current request and -1 for a typical one; otherwise the speed is the requested field exactly when it is present and the echoed openLR code equals the entry's |
| TileDecode.RequestSegmentData | software/server-software/fetch_tomtom_data.py:115-169 | -1 for an entry lacking latitude, longitude or openLR code, or for a failed request; otherwise the decision on the answer |
| TileDecode.ClosureOverridesSpeed | software/server-software/fetch_tomtom_data.py:173-177 | a road reported closed never shows a typical speed and shows 0 as its current speed, whatever the other fields say |
| CsvResolver.GetReference | software/server-software/fetch_tomtom_data.py:305-313 | getReference: no Reference column gives None; otherwise `int()` of the text, None when it raises |
| CsvResolver.BlankReferenceIsCanonical | software/server-software/fetch_tomtom_data.py:309-384 | a blank or absent Reference makes a row stand for itself |
| CsvResolver.NumericReference | software/server-software/fetch_tomtom_data.py:310-384 | a Reference holding a numeral is read as that number, and only the numeral 0 leaves the row standing for itself |
| CsvResolver.ReadRows | software/server-software/fetch_tomtom_data.py:383 | every row is read once, with its reference |
| CsvResolver.LedSet | software/server-software/fetch_tomtom_data.py:382 | seen_leds holds the LED number of every row kept |
| CsvResolver.LedSetMembers | software/server-software/fetch_tomtom_data.py:378-382 | a number is in seen_leds exactly when some row of the run carries it |
| CsvResolver.Canonicals | software/server-software/fetch_tomtom_data.py:384-386 | the rows that make pairs of their own are at most the rows of the run |
| CsvResolver.CanonicalMembers | software/server-software/fetch_tomtom_data.py:384-386 | a row makes its own pair exactly when it is a row of the run without a reference, or with reference 0 |
| CsvResolver.CanonicalsDistinct | software/server-software/fetch_tomtom_data.py:378-386 | without duplicates, the rows that make pairs carry distinct LED numbers |
| CsvResolver.AliasesNonEmpty | software/server-software/fetch_tomtom_data.py:388-391 | ref_to_leds has an entry for n exactly when some row points at n |
| CsvResolver.Resolved | software/server-software/fetch_tomtom_data.py:414-420 | a successful run returns one pair per row without a reference, in file order |
| CsvResolver.RowsSplit | software/server-software/fetch_tomtom_data.py:384-391 | every row of the run goes either to its own pair or to the list of the number it points at |
| CsvResolver.AliasesIntoOneMore | software/server-software/fetch_tomtom_data.py:414-420 | extending one more pair adds the numbers of the rows pointing at it |
| CsvResolver.AliasesIntoAll | software/server-software/fetch_tomtom_data.py:414-427 | when every reference points at a pair, the lists take up every referring row |
| CsvResolver.FlattenResolvedPrefix | software/server-software/fetch_tomtom_data.py:414-420 | after k pairs are extended, their lists hold their own numbers and the numbers of the rows pointing at them |
| CsvResolver.ResolvedPartitionsLeds | software/server-software/fetch_tomtom_data.py:339-429 | on success the lists together hold exactly the LED numbers of the run's rows, each once |
| CsvResolver.ChainedReferenceDangles | software/server-software/fetch_tomtom_data.py:413-427 | a row pointing at a row that itself points on is a bad reference: references do not chain |
| CsvResolver.SortedSet | software/server-software/fetch_tomtom_data.py:398 | `sorted(seen_leds)` lists exactly the set's numbers in increasing order |
| CsvResolver.ConsecutiveHasNoGaps | software/server-software/fetch_tomtom_data.py:398-408 | sorted numbers that each follow the one before leave no gap in the set |
| CsvResolver.SkipIsGap | software/server-software/fetch_tomtom_data.py:402-404 | a number that does not follow the one before it shows a missing LED |
| CsvResolver.ConsecutiveIffNoGaps | software/server-software/fetch_tomtom_data.py:398-408 | the sorted numbers follow one another exactly when no LED number between two present ones is absent |
| CsvResolver.FindMissing | software/server-software/fetch_tomtom_data.py:396-408 | the loop over `sorted(seen_leds)` sets bad_entries exactly when some number between two present ones is absent |
| CsvResolver.RowsStep | software/server-software/fetch_tomtom_data.py:372-376 | a row of the other direction adds nothing to the rows the loop has kept; any other row is added, with its reference read |
| CsvResolver.SnocFacts | software/server-software/fetch_tomtom_data.py:377-391 | one row adds its number to seen_leds, raises the duplicate flag when the number was seen, joins the pairs when it has no reference and the list of its target otherwise |
| CsvResolver.DuplicateSnoc | software/server-software/fetch_tomtom_data.py:378-381 | a row sets bad_entries exactly when its number was already seen |
| CsvResolver.CollectDuplicate | software/server-software/fetch_tomtom_data.py:378-381 | a row whose number was seen only raises the flag |
| CsvResolver.CollectCanonical | software/server-software/fetch_tomtom_data.py:382-386 | a row without a reference makes a pair of its own |
| CsvResolver.CollectAlias | software/server-software/fetch_tomtom_data.py:387-391 | a row with a reference joins the list of the number it points at |
| CsvResolver.CollectRow | software/server-software/fetch_tomtom_data.py:377-391 | one pass of the first loop over a row of the run's direction keeps the loop's invariant |
| CsvResolver.CollectRows | software/server-software/fetch_tomtom_data.py:372-391 | the first loop ends with seen_leds, the duplicate flag, the pairs and ref_to_leds of the run's rows |
| CsvResolver.ExtendNone | software/server-software/fetch_tomtom_data.py:416-417 | a pair nobody points at keeps its list |
| CsvResolver.ExtendOne | software/server-software/fetch_tomtom_data.py:418-420 | a pair somebody points at takes their numbers, and its number leaves ref_to_leds |
| CsvResolver.ExtendLists | software/server-software/fetch_tomtom_data.py:414-420 | the second loop makes every pair's list its own number followed by the rows pointing at it, and leaves in ref_to_leds exactly the numbers pointed at that no pair carries |
| CsvResolver.LeftoverIffDangling | software/server-software/fetch_tomtom_data.py:422-427 | something is left in ref_to_leds exactly when some reference points at a missing LED, at a row with a reference, or at itself |
| CsvResolver.PruneCsvEntries | software/server-software/fetch_tomtom_data.py:315-429 | pruneCSVEntries: ValueError for an unknown direction; then, in this order, RuntimeError for a duplicate LED, for a gap (unless allow_missing) and for a bad reference; otherwise the resolved pairs |
| TomtomSpeeds.WithSpeed | software/server-software/fetch_tomtom_data.py:483-484 | every LED of a pair gets one row |
| TomtomSpeeds.EntrySpeedOf | software/server-software/fetch_tomtom_data.py:471-482 | a "Special" freeway gets the sentinel (-2 here, 0 in fetch_tomtom_three.py) without a request; otherwise the tile speed, the segment speed when the tile gives -1, and 0 for a remaining -1 when fail_with_zero is set |
| TomtomSpeeds.RequestSpeeds | software/server-software/fetch_tomtom_data.py:431-485 | requestSpeeds: raises for an empty API key; otherwise each pair's speed for each of its LEDs, pair after pair |
| TomtomSpeeds.SpecialMakesNoRequest | software/server-software/fetch_tomtom_data.py:472-474 | a "Special" entry gets the sentinel whatever the network answers |
| TomtomSpeeds.TileComesFirst | software/server-software/fetch_tomtom_data.py:476-478 | a usable tile answer is taken as is, and the segment endpoint's answer plays no part |
| TomtomSpeeds.FailWithZeroLeavesNoUnknown | software/server-software/fetch_tomtom_data.py:479-481 | with fail_with_zero no LED is left at -1 |
| TomtomSpeeds.LedColumn | software/server-software/fetch_tomtom_data.py:564 | the LED column of a list lists each row's LED in order |
| TomtomSpeeds.SpeedPairsCoverPairs | software/server-software/fetch_tomtom_data.py:470-485 | the result lists every LED of every pair, in pair order |
| TomtomSpeeds.WithSpeedMembers | software/server-software/fetch_tomtom_data.py:483-484 | a row comes from a pair exactly when its LED is in the pair's list and its speed is the pair's |
| TomtomSpeeds.SpeedPairOrigin | software/server-software/fetch_tomtom_data.py:470-485 | every row of the result is an LED of some pair, with that pair's speed |
| TomtomSpeeds.PairLedsGetTheirSpeed | software/server-software/fetch_tomtom_data.py:470-485 | every LED of every pair appears with its pair's speed |
| TomtomSpeeds.Insert | software/server-software/fetch_tomtom_data.py:552 | inserting one row into a list adds exactly one row |
| TomtomSpeeds.SortByLed | software/server-software/fetch_tomtom_data.py:552 | `sorted(speeds, key=led)` keeps the number of rows |
| TomtomSpeeds.InsertSorted | software/server-software/fetch_tomtom_data.py:552 | inserting into an ordered list keeps it ordered by LED |
| TomtomSpeeds.InsertPermutes | software/server-software/fetch_tomtom_data.py:552 | inserting adds exactly the one row |
| TomtomSpeeds.SortByLedSorted | software/server-software/fetch_tomtom_data.py:552 | the rows come out ordered by LED number |
| TomtomSpeeds.SortByLedPermutes | software/server-software/fetch_tomtom_data.py:552 | the rows come out as a permutation of the rows that went in |
| TomtomSpeeds.SortByLedLeds | software/server-software/fetch_tomtom_data.py:552 | sorting keeps the LED numbers as the same multiset |
| TomtomSpeeds.SortSortedIsIdentity | software/server-software/fetch_tomtom_data.py:564 | sorting an ordered list changes nothing, so the second sort at line 564 is a no-op |
| TomtomSpeeds.RawSpeeds | software/server-software/fetch_tomtom_data.py:564-566 | raw_speeds as written has one value more than there are rows |
| TomtomSpeeds.LegacySpeeds | software/server-software/fetch_tomtom_data.py:564-566 | raw_speeds as evidently intended has one value more than there are rows |
| TomtomSpeeds.SpecialBreaksRawBytes | software/server-software/fetch_tomtom_data.py:472-567 | as written, any "Special" LED puts -2 into raw_speeds and `bytearray` raises |
| TomtomSpeeds.RawSpeedsRejectSentinel | software/server-software/fetch_tomtom_data.py:565-567 | any speed below -1 survives line 565 and makes `bytearray` raise |
| TomtomSpeeds.LegacyBytesFit | software/server-software/fetch_tomtom_data.py:564-567 | with every negative sentinel mapped to 0, `bytearray` fails only on a speed above 255; byte 0 is 0 and byte i+1 is row i's speed, 0 for a sentinel |
| TomtomSpeeds.LegacyBytes | software/server-software/fetch_tomtom_data.py:564-571 | the bytes written are a 0, then each sorted row's speed with the sentinels turned into 0 |
| TomtomSpeeds.LegacyAgreesWithRaw | software/server-software/fetch_tomtom_data.py:565 | where no speed is below -1 the correction changes nothing |
| TomtomSpeeds.IndexOf | software/server-software/fetch_tomtom_data.py:559-561 | the first comma of a line is found exactly when there is one, with none before it |
| TomtomSpeeds.IndexOfAfter | software/server-software/fetch_tomtom_data.py:518 | the first '}' after a header without one is the header's closing brace |
| TomtomSpeeds.CsvRowRoundTrip | software/server-software/fetch_tomtom_data.py:559-561 | every CSV row written reads back as the same (LED, speed) pair |
| TomtomSpeeds.NumeralFields | software/server-software/fetch_tomtom_data.py:561 | both fields of a row read back with `int()`, the line break included |
| TomtomSpeeds.CsvRowSplits | software/server-software/fetch_tomtom_data.py:561 | the first comma of a row ends the LED field |
| TomtomSpeeds.AddendumHeaderRoundTrip | software/server-software/fetch_tomtom_data.py:517-520 | the addendum's "{prev}" header, read back, gives the link it amends, followed by the CSV rows |
| TomtomSpeeds.HeaderRoundTrip | software/server-software/fetch_tomtom_data.py:518 | a header without '}' in its link reads back whatever follows |
| TomtomSpeeds.CreateAddendum | software/server-software/fetch_tomtom_data.py:487-523 | createAddendum: the addendum CSV pruned with gaps allowed and requested without fail_with_zero, or nothing when anything raises (the exception is only logged) |
| TomtomSpeeds.RunMain | software/server-software/fetch_tomtom_data.py:529-583 | main: False for an unknown direction; an exception before the try when fetch_tomtom_data.py has no second output; False for a refused CSV or an empty key; the sorted CSV, then False when bytearray of raw_speeds fails (a "Special" row's -2 included) or, in fetch_tomtom_three.py, the second file name is missing; otherwise True with the CSV, the bytes and the addendum |
| TomtomSpeeds.MainSuccess | software/server-software/fetch_tomtom_data.py:546-580 | a successful run wrote its direction's LEDs sorted, each once, with no gap, and a byte file with a leading 0 and one byte per row holding the row's speed, 0 for a failed request; no "Special" row reaches a successful run |
| TomtomSpeeds.SuccessfulRun | software/server-software/fetch_tomtom_data.py:548-567 | a successful run passed pruneCSVEntries, and its bytes are bytearray of the raw_speeds of its sorted CSV |
| TomtomSpeeds.ByteSpeeds | software/server-software/fetch_tomtom_data.py:562-565 | the list handed to bytearray has the leading 0 and one value per CSV row |
| TomtomSpeeds.BytesMeanNoSpecial | software/server-software/fetch_tomtom_data.py:562-566 | bytearray of raw_speeds succeeds only when no row's speed is below -1, so no "Special" row |
| TomtomSpeeds.CorrectionKeepsSuccessfulRuns | software/server-software/fetch_tomtom_data.py:546-580 | every run main completes as written ends the same with the sentinel correction |
| TomtomSpeeds.CorrectionRescuesOnlySpecial | software/server-software/fetch_tomtom_data.py:562-580 | the correction changes main's outcome only for a run whose CSV holds a speed below -1, which as written returns False and corrected returns True with the same CSV |
| TomtomSpeeds.CsvLeds | software/server-software/fetch_tomtom_data.py:550-561 | the CSV of a resolved run holds each LED number of its rows exactly once |
| TomtomSpeeds.MainFailureWritesNoBytes | software/server-software/fetch_tomtom_data.py:529-583 | a failed run writes no byte file and no addendum, and leaves a CSV behind exactly when it failed after the sorting |
| TomtomSpeeds.ThreeWithoutSecondOutput | software/server-software/fetch_tomtom_three.py:537-548 | fetch_tomtom_three.py without a second output writes the CSV, then fails opening the missing file and returns False |
| RingArith.CRem | software/esp-firmware/components/circular_buffer/src/circular_buffer.c:371 | C's `%` on a 64-bit signed value: the remainder has the sign of the dividend and differs from the true residue by 0 or N |
| RingArith.ClampedLength | software/esp-firmware/components/circular_buffer/src/circular_buffer.c:90-96 | the length after a store is the old length plus the input, capped at the backing size, and never wraps |
| CircularBuffer.ModularSubtraction | software/esp-firmware/components/circular_buffer/src/circular_buffer.c:365-377 | for N > 0 the result is (a - b) mod N, in [0, N), and never the UINT32_MAX error value |
| CircularBuffer.ModularAddition | software/esp-firmware/components/circular_buffer/src/circular_buffer.c:395-403 | for N > 0 the result is (a + b) mod N, in [0, N), and never the UINT32_MAX error value |
| CircularBuffer.DistanceToEnd | software/esp-firmware/components/circular_buffer/src/circular_buffer.c:234-243 | the distance from the mark to `end` counts the stored characters from the marked one on, except that a full buffer marked at its oldest character gives 0 |
| CircularBuffer.IntendedRuleIsOverwrite | software/esp-firmware/components/circular_buffer/src/circular_buffer.c:72-81 | the corrected lost-mark test holds exactly when the store overwrites the marked character |
| CircularBuffer.AsWrittenKeepsOverwrittenMark | software/esp-firmware/components/circular_buffer/src/circular_buffer.c:72-81 | a full 4-slot buffer marked at its oldest character keeps its mark under the test as written, although the next character overwrites it |
| CircularBuffer.RulesAgreeOffCorner | software/esp-firmware/components/circular_buffer/src/circular_buffer.c:72-81 | when the mark is not at `end`, the test as written and the corrected test agree |
| CircularBuffer.KeptMark | software/esp-firmware/components/circular_buffer/src/circular_buffer.c:72-101 | a mark that survives a store still names the same character, and the text from it on grows by exactly the stored input |
| CircularBuffer.OverwrittenMark | software/esp-firmware/components/circular_buffer/src/circular_buffer.c:72-101 | where the test as written keeps a mark the intended test drops, the buffer was full and marked at its oldest character, and after the store the mark names the first new character, so the text from it is the input alone |
| CircularBuffer.MarkAfterStore | software/esp-firmware/components/circular_buffer/src/circular_buffer.c:72-101 | a mark the test as written keeps still names a stored character after the store: the first new one where the store wrote over the marked slot, otherwise the same one, with the input appended to its text |
| CircularBuffer.MarkedOldest | software/esp-firmware/components/circular_buffer/src/circular_buffer.c:72-81 | the two lost-mark tests disagree only for a full buffer marked at its oldest character |
| CircularBuffer.MarkBackOf | software/esp-firmware/components/circular_buffer/src/circular_buffer.c:82-101 | a slot at offset 0 of a full buffer lies n places from the end once n more characters are stored |
| CircularBuffer.MarkMovesForward | software/esp-firmware/components/circular_buffer/src/circular_buffer.c:234-243 | a FROM_PREV_MARK move within the allowed distance lands on a stored character that many places further on |
| CircularBuffer.MarkAtOffset | software/esp-firmware/components/circular_buffer/src/circular_buffer.c:244-255 | the slot computed from `end`, `len` and an offset holds the stored character at that offset |
| CircularBuffer.CircularBuffer.Init | software/esp-firmware/components/circular_buffer/src/circular_buffer.c:33-44 | a missing backing array or a zero size gives INVALID_ARG and changes nothing; otherwise the buffer is empty with no mark |
| CircularBuffer.CircularBuffer.Store | software/esp-firmware/components/circular_buffer/src/circular_buffer.c:59-103 | the argument checks give INVALID_ARG, UNINITIALIZED or INVALID_SIZE and change nothing; otherwise the input is appended, the contents become the last N characters, and the mark is dropped with LOST_MARK exactly when the test as written fires; a kept mark's text grows by the input, except in the corner the test misses, where the marked character was overwritten and the text from the mark is the input alone |
| CircularBuffer.CircularBuffer.StoreChecked | software/esp-firmware/components/circular_buffer/src/circular_buffer.c:71-103 | after the checks: LOST_MARK exactly when the test as written (distance to `end` modulo N) fires, and then no mark; the history grows by the input; a kept mark's text grows by the input, or is the input alone when the store overwrote the marked character |
| CircularBuffer.CircularBuffer.WillLoseMark | software/esp-firmware/components/circular_buffer/src/circular_buffer.c:72-81 | the bookmark test fires exactly when there is a mark and its distance back from `end`, modulo N, plus the length minus one reaches N |
| CircularBuffer.CircularBuffer.Append | software/esp-firmware/components/circular_buffer/src/circular_buffer.c:82-96 | the backing array holds the history shifted by the input, and `len` is the clamped length |
| CircularBuffer.CircularBuffer.WriteChars | software/esp-firmware/components/circular_buffer/src/circular_buffer.c:83-89 | the write loop puts each input character at `end` and advances `end` modulo the backing size |
| CircularBuffer.CircularBuffer.Mark | software/esp-firmware/components/circular_buffer/src/circular_buffer.c:224-264 | FROM_PREV_MARK needs a mark (else LOST_MARK) and a distance within the wrapped limit (else INVALID_SIZE); the other settings need dist < len and mark the character dist places from the newest or the oldest; an unknown setting gives UNINITIALIZED; every error leaves the mark unchanged |
| CircularBuffer.CircularBuffer.PrevMarkIndex | software/esp-firmware/components/circular_buffer/src/circular_buffer.c:234-243 | the FROM_PREV_MARK case: the error cases, and on success the slot dist places after the mark |
| CircularBuffer.CircularBuffer.PrevMarkLimit | software/esp-firmware/components/circular_buffer/src/circular_buffer.c:239 | the limit is one less than the mark's distance to `end`, and wraps to UINT32_MAX exactly when that distance is 0 |
| CircularBuffer.CircularBuffer.RecentCharIndex | software/esp-firmware/components/circular_buffer/src/circular_buffer.c:244-249 | dist >= len gives INVALID_SIZE; otherwise the slot of the character dist places before the newest |
| CircularBuffer.CircularBuffer.OldestCharIndex | software/esp-firmware/components/circular_buffer/src/circular_buffer.c:250-255 | dist >= len gives INVALID_SIZE; otherwise the slot of the character dist places after the oldest |
| CircularBuffer.CircularBuffer.Read | software/esp-firmware/components/circular_buffer/src/circular_buffer.c:280-304 | the argument checks give the negated errors and write nothing; otherwise the newest n characters, oldest first, followed by a NUL, and the count n |
| CircularBuffer.CircularBuffer.CopyRecent | software/esp-firmware/components/circular_buffer/src/circular_buffer.c:290-299 | the copy loop yields exactly the newest n characters of the history in order |
| CircularBuffer.CircularBuffer.ReadFromMark | software/esp-firmware/components/circular_buffer/src/circular_buffer.c:320-347 | no mark gives -LOST_MARK; otherwise at least one and at most maxLen characters from the mark on, stopping at the newest, followed by a NUL |
| CircularBuffer.CircularBuffer.CopyFromMark | software/esp-firmware/components/circular_buffer/src/circular_buffer.c:331-343 | the copy loop stops at maxLen or after the newest character and copies the history from the mark on |
| CommonCircularBuffer.LengthAfterStoreAsWritten | software/esp-firmware/components/common/src/circular_buffer.c:65-68 | the 32-bit `len += n` followed by the clamp always stays within the backing size |
| CommonCircularBuffer.LengthAsWrittenAgreesIff | software/esp-firmware/components/common/src/circular_buffer.c:65-68 | the 32-bit update gives the clamped length exactly when the sum fits in 32 bits |
| CommonCircularBuffer.LengthWrapsToZero | software/esp-firmware/components/common/src/circular_buffer.c:65-68 | a full buffer of UINT32_MAX characters that takes one more reports length 0 instead of staying full |
| CommonCircularBuffer.NewestOfSuffix | software/esp-firmware/components/common/src/circular_buffer.c:59-68 | the newest m characters of a stored suffix followed by the input are the newest m of the whole history and the input |
| CommonCircularBuffer.StoredText | software/esp-firmware/components/common/src/circular_buffer.c:59-69 | the newest `len` characters after the 32-bit length update are the newest `len` of the old contents followed by the input; they are the newest N when the sum fits in 32 bits |
| RingArith.RecentAt | software/esp-firmware/components/common/src/circular_buffer.c:107-112 | the slot k places after a history position's slot holds the history k positions later, while that position is among the newest N |
| CommonCircularBuffer.CircularBuffer.Init | software/esp-firmware/components/common/src/circular_buffer.c:23-33 | a missing backing array or zero size gives ESP_FAIL and changes nothing; otherwise an empty buffer |
| CommonCircularBuffer.CircularBuffer.Store | software/esp-firmware/components/common/src/circular_buffer.c:46-70 | an uninitialised buffer, a missing or empty input or one longer than the backing size gives ESP_FAIL and changes nothing; otherwise the input is appended, `len` becomes the 32-bit `len += n` clamped to the backing size, and the stored text is the newest `len` characters of the old text and the input; when the sum fits in 32 bits that is the last N characters |
| CommonCircularBuffer.CircularBuffer.WriteChars | software/esp-firmware/components/common/src/circular_buffer.c:59-63 | the write loop puts each input character at `end` and advances `end` modulo the backing size |
| CommonCircularBuffer.CircularBuffer.Read | software/esp-firmware/components/common/src/circular_buffer.c:84-116 | n == 0, n > len or a missing output gives ESP_FAIL and writes nothing; otherwise the newest n characters in order followed by a NUL |
| CommonCircularBuffer.CircularBuffer.StartSlot | software/esp-firmware/components/common/src/circular_buffer.c:99-106 | the start slot is (end - n) mod N, after the correction for C's negative remainder |
| CommonCircularBuffer.CircularBuffer.IndexOf | software/esp-firmware/components/common/src/circular_buffer.c:109-111 | the copy index is the slot of its unbounded position |
| CommonCircularBuffer.CircularBuffer.CopyRecent | software/esp-firmware/components/common/src/circular_buffer.c:107-112 | the copy loop yields exactly the newest n characters of the history in order |
| Ota.KeyType | software/esp-firmware/components/ota/src/ota.c:239-268 | a key is given a version type only when it equals that type's key string exactly; everything else, "" included, is unknown |
| Ota.KeyTypeOfName | software/esp-firmware/components/ota/src/ota.c:239-268 | each of the five version keys is recognised as its own type |
| Ota.IndexOf | software/esp-firmware/components/ota/src/ota.c:211-231 | the quote search finds the first occurrence at or after the start, or reports that there is none |
| Ota.QuotedKeyIgnoresPrefix | software/esp-firmware/components/ota/src/ota.c:211-220 | text before the first quote does not change the key found |
| Ota.FirstQuoteShift | software/esp-firmware/components/ota/src/ota.c:211-220 | the first quote of a longer text is the first quote of its quote-free tail, shifted |
| Ota.IndexOfSkipsQuoteFree | software/esp-firmware/components/ota/src/ota.c:223-231 | a quote-free stretch does not move the next quote |
| Ota.IndexOfShift | software/esp-firmware/components/ota/src/ota.c:223-231 | searching a suffix gives the same quote, shifted |
| Ota.VersionFromKey | software/esp-firmware/components/ota/src/ota.c:197-271 | a missing output, a missing string or length 0 gives INVALID_ARG with the output untouched; no closing quote gives NOT_FOUND with the output untouched; otherwise ESP_OK with the type of the key between the first two quotes |
| Ota.CompareVersions | software/esp-firmware/components/ota/src/ota.c:286-309 | an update needs the same hardware version and revision, and a strictly greater major.minor.patch in lexicographic order |
| Ota.CompareIsStrictOrder | software/esp-firmware/components/ota/src/ota.c:286-309 | no version is newer than itself, and "newer" is asymmetric and transitive |
| Ota.TrimSpaces | software/esp-firmware/components/ota/src/ota.c:551 | strtol's leading white-space skip leaves a suffix that does not start with white space |
| Ota.DigitPrefix | software/esp-firmware/components/ota/src/ota.c:551 | the digits strtol reads are the longest run of digits at the start |
| Ota.StrToL | software/esp-firmware/components/ota/src/ota.c:551 | strtol's result always lies within the 32-bit `long` range |
| Ota.DigitPrefixOfDigits | software/esp-firmware/components/ota/src/ota.c:551 | strtol reads the whole of a plain digit string |
| Ota.StrToLOfDigits | software/esp-firmware/components/ota/src/ota.c:551 | strtol of a plain digit string within range is its value |
| Ota.NoSpaceBeforeDigits | software/esp-firmware/components/ota/src/ota.c:551 | a string starting with a digit has no white space to skip |
| Ota.StrToLReadsDecimal | software/esp-firmware/components/ota/src/ota.c:551 | strtol reads back any non-negative number written in decimal |
| Ota.StrToLSkipsSpace | software/esp-firmware/components/ota/src/ota.c:551 | leading white space does not change strtol's value |
| Ota.FieldValue | software/esp-firmware/components/ota/src/ota.c:551-556 | a field's value is never negative and equals strtol's result whenever that is not negative |
| Ota.SkipStep | software/esp-firmware/components/ota/src/ota.c:441-476 | one character moves the comment and string states; a quote outside a comment and outside a key is the only error |
| Ota.FindFormattingChar | software/esp-firmware/components/ota/src/ota.c:437-494 | the scan from index 1 returns the first formatting character outside comments and strings, or the first quote not allowed there, or reports none with the skip states it ends in |
| Ota.ScanFrom | software/esp-firmware/components/ota/src/ota.c:437-494 | the scan from index k stops only on a formatting character outside comments and strings, or on a quote not allowed there, both within the bytes read |
| Ota.StringRunsToQuote | software/esp-firmware/components/ota/src/ota.c:456-476 | inside a string, characters other than a quote do not change where the scan stops or the states it ends in |
| Ota.CommentRunsToNewline | software/esp-firmware/components/ota/src/ota.c:441-453 | after a '#', nothing up to the next newline counts as a formatting character |
| Ota.Handle | software/esp-firmware/components/ota/src/ota.c:498-581 | '{' fails inside the object, ':' fails outside a key or without a quoted key, ',' and '}' fail outside a value; a closed value records its number under the key's type, and '}' marks the object parsed |
| Ota.HandleKeepsRange | software/esp-firmware/components/ota/src/ota.c:547-579 | recorded fields stay within what strtol can give after the clamp |
| Ota.UnknownKeysAreIgnored | software/esp-firmware/components/ota/src/ota.c:547 | a value under an unknown key is accepted and records nothing |
| Ota.NextRead | software/esp-firmware/components/ota/src/ota.c:366-407 | the read after the retries is never "try again", and a non-empty answer consumes at least one reply |
| Ota.ReadRetrying | software/esp-firmware/components/ota/src/ota.c:366-407 | the retry loop returns the first answer that is not "try again" |
| Ota.MidReadFailureAsWritten | software/esp-firmware/components/ota/src/ota.c:405-411 | a read error in the middle of the file returns the stale status, which is ESP_OK on every path that reaches it |
| Ota.MidReadFailureLooksLikeSuccess | software/esp-firmware/components/ota/src/ota.c:405-411 | as written, an unfinished read reports success while the corrected result is an error |
| Ota.MidReadFailure | software/esp-firmware/components/ota/src/ota.c:405-411 | a read error in the middle of the file is reported as an error |
| Ota.KeyLookup | software/esp-firmware/components/ota/src/ota.c:510-527 | for the text before a ':', an empty field gives INVALID_ARG, a missing quoted key NOT_FOUND, and otherwise ESP_OK with the type of the quoted key |
| Ota.Finish | software/esp-firmware/components/ota/src/ota.c:583-590 | the end of the body counts as parsed exactly when the object was closed, with the versions recorded; otherwise ESP_FAIL |
| Ota.StoreBehindMark | software/esp-firmware/components/ota/src/ota.c:414-424 | storing a chunk keeps the marked text within the buffer: below a full buffer the mark is lost exactly when the text would overflow it, and otherwise the chunk is appended; a full marked text is replaced by the chunk, the store's test as written |
| Ota.StoreBehindMarkIsStore | software/esp-firmware/components/circular_buffer/src/circular_buffer.c:72-81 | StoreBehindMark reports the mark lost exactly when circularBufferStore's test as written does, for a buffer of 256 characters whose marked text it is |
| Ota.Window | software/esp-firmware/components/ota/src/ota.c:433-434 | circularBufferReadFromMark gives the scan a non-empty prefix of the marked text of at most OTA_RECV_BUF_SIZE - 1 characters, all of it when it is shorter |
| Ota.ParseFromKeepsRange | software/esp-firmware/components/ota/src/ota.c:400-581 | whatever the replies, a file parsed from any point of the main loop yields versions within strtol's clamped range |
| Ota.ScanTextKeepsRange | software/esp-firmware/components/ota/src/ota.c:433-581 | the same for a scan of the marked text |
| Ota.ParsedVersionsInRange | software/esp-firmware/components/ota/src/ota.c:366-593 | a parsed version file yields versions within strtol's clamped range |
| Ota.Closed | software/esp-firmware/components/ota/src/ota.c:529-581 | closing a value records the digit under the key's type, a '}' marks the object parsed, and a ',' expects the next key |
| Ota.KeyStep | software/esp-firmware/components/ota/src/ota.c:437-527 | a quoted version key between the previous formatting character and a ':' moves the mark to the ':' and makes the parser expect that key's value |
| Ota.ValueStep | software/esp-firmware/components/ota/src/ota.c:437-581 | a one-digit value and its closer move the mark to the closer with the digit recorded under the key's type |
| Ota.EntryStep | software/esp-firmware/components/ota/src/ota.c:437-581 | a whole `"key":d` entry moves the mark from the previous formatting character to the entry's closer with the digit recorded |
| Ota.ValueScan | software/esp-firmware/components/ota/src/ota.c:437-470 | in the window of a value ':', d, closer, the scan from the colon stops at the closer, two characters on, and leaves the skip state unchanged |
| Ota.ValueAct | software/esp-firmware/components/ota/src/ota.c:529-581 | the closer of a one-digit value under a known key type is handled as `Closed`: the value is the single digit between the colon and the closer |
| Ota.ClosedDigit | software/esp-firmware/components/ota/src/ota.c:547-580 | closing a one-digit value stores that digit's numeric value under the key's version type |
| Ota.FoundMovesMark | software/esp-firmware/components/ota/src/ota.c:437-470 | a formatting character that the scan finds and the handler accepts moves the mark onto it: scanning continues from that character with the handler's state |
| Ota.AfterEntriesFound | software/esp-firmware/components/ota/src/ota.c:529-581 | after the five entries the object is parsed with one digit recorded per field |
| Ota.EntriesScan | software/esp-firmware/components/ota/src/ota.c:400-581 | scanning the five entries of a version file in one window leaves the mark on the closing brace with the five fields recorded |
| Ota.LastThreeScan | software/esp-firmware/components/ota/src/ota.c:400-581 | the last three entries, from the comma before them, leave the mark on the closing brace |
| Ota.LastTwoScan | software/esp-firmware/components/ota/src/ota.c:400-581 | the last two entries, from the comma before them, leave the mark on the closing brace with both digits recorded |
| Ota.LastOneScan | software/esp-firmware/components/ota/src/ota.c:400-581 | the patch entry, from the comma before it, leaves the mark on the closing brace with its digit recorded and the object parsed |
| Ota.ClosingBraceEnds | software/esp-firmware/components/ota/src/ota.c:400-413 | with nothing left to read, a closed object ends the loop as a parsed file |
| Ota.OpensWithBrace | software/esp-firmware/components/ota/src/ota.c:366-386 | a single read opening with '{' starts the scan inside the object at the key |
| Ota.VersionFileParses | software/esp-firmware/components/ota/src/ota.c:334-593 | a version file of five one-digit entries, read in one chunk, is parsed to exactly the versions it states |
| Ota.ReadMore | software/esp-firmware/components/ota/src/ota.c:402-431 | reading more: a failed read interrupts, an empty read ends the body, a lost mark fails, and otherwise the marked text grows by the chunk (or restarts at it, in the corner the store's test misses) and the scan continues from it |
| Ota.ScanPass | software/esp-firmware/components/ota/src/ota.c:433-581 | one scan of the window fails exactly as the specification's scan does; otherwise the mark moves to the formatting character found and the parse state is the one its handler gives, or nothing moves when none is found |
| Ota.ProcessOtaAvailableFile | software/esp-firmware/components/ota/src/ota.c:334-593 | missing arguments give INVALID_ARG with `available` untouched; an empty first read gives NOT_FOUND and a stray first character ESP_FAIL; a parsed file gives ESP_OK, the versions it states and `available` = compareVersions of them; a file the parser rejects gives its status with `available` false; a read failing part way gives the stale ESP_OK in `err`, with `available` false |
| StrobeTask.RegisteredEntryInRange | software/esp-firmware/components/animations/src/strobe_task.c:333-352 | a new entry keeps the command's LED and caller and starts within its limits: at the maximum heading down, at the minimum heading up, or at the requested scale and direction |
| StrobeTask.StepStaysInRange | software/esp-firmware/components/animations/src/strobe_task.c:389-435 | one period keeps the scale within [minScale, maxScale] and every other setting, moves it in the current direction, and turns only at the limit it was heading for |
| StrobeTask.StepProgresses | software/esp-firmware/components/animations/src/strobe_task.c:393-435 | with a non-zero step the scale strictly moves, or reaches its limit and turns |
| StrobeTask.SwapRemove | software/esp-firmware/components/animations/src/strobe_task.c:314-366 | moving the last entry into a slot and shortening by one removes exactly that slot's entry |
| StrobeTask.RemoveKeepsOthers | software/esp-firmware/components/animations/src/strobe_task.c:309-317 | removing an entry of one caller keeps every other caller's entries |
| StrobeTask.NoneOfCaller | software/esp-firmware/components/animations/src/strobe_task.c:309-317 | once no remaining entry belongs to the caller, none of its entries are left |
| StrobeTask.StrobeRegistry.constructor | software/esp-firmware/components/animations/src/strobe_task.c:292-295 | the registry starts empty with the given capacity |
| StrobeTask.StrobeRegistry.ReceiveCommand | software/esp-firmware/components/animations/src/strobe_task.c:292-368 | a NULL caller, or a register command on a full registry, is fatal and changes nothing; unregister-all removes exactly the caller's entries; registering a present LED changes nothing, a new one is appended; unregistering removes exactly the LED's entry, and an absent LED changes nothing |
| StrobeTask.StrobeRegistry.Append | software/esp-firmware/components/animations/src/strobe_task.c:333-353 | the new entry goes at index len and len grows by one |
| StrobeTask.StrobeRegistry.RemoveAt | software/esp-firmware/components/animations/src/strobe_task.c:365-366 | the entry leaves the registry, len shrinks by one, and entries before it stay in place |
| StrobeTask.StrobeRegistry.UnregisterAll | software/esp-firmware/components/animations/src/strobe_task.c:306-319 | afterwards no entry of the caller is left and every other entry is kept, as often as before |
| StrobeTask.StrobeRegistry.StrobeLEDs | software/esp-firmware/components/animations/src/strobe_task.c:380-436 | every registered entry takes one oscillator step, and the array beyond len is unchanged |
| StrobeTask.FindIn | software/esp-firmware/components/animations/src/strobe_task.c:265-278 | the result is the first index whose LED number matches, or -1 exactly when none does |
| StrobeTask.FindStrobeLED | software/esp-firmware/components/animations/src/strobe_task.c:265-278 | a NULL array gives -1; otherwise the first matching index among the registered entries, or -1 |
| StrobeTask.FindInFirst | software/esp-firmware/components/animations/src/strobe_task.c:273-277 | the search result is determined by where the first match is |
| AppErrors.Compose | software/esp-firmware/components/app_errors/src/app_errors.c:22-43 | each combination of the two error flags is exactly one non-fatal state |
| AppErrors.ComposeOfFlags | software/esp-firmware/components/app_errors/src/app_errors.c:22-43 | every non-fatal state is the combination of its two flags |
| AppErrors.ThrowNoConnSetsFlag | software/esp-firmware/components/app_errors/src/app_errors.c:22-36 | throwing the connection error sets its flag and keeps the handleable flag |
| AppErrors.ThrowHandleableSetsFlag | software/esp-firmware/components/app_errors/src/app_errors.c:55-79 | throwing a handleable error stops flashing and sets its flag, keeping the connection flag; a second handleable error is fatal |
| AppErrors.ResolveNoConnClearsFlag | software/esp-firmware/components/app_errors/src/app_errors.c:118-142 | resolving the connection error clears its flag and keeps the other; without the flag the state is kept under `resolveNone` and is fatal otherwise |
| AppErrors.ResolveHandleableClearsFlag | software/esp-firmware/components/app_errors/src/app_errors.c:155-179 | resolving the handleable error clears its flag and keeps the other, with the same rule for an absent flag |
| AppErrors.FatalIsAbsorbing | software/esp-firmware/components/app_errors/src/app_errors.c:37-178 | every throw and resolve in FATAL_ERR stays in FATAL_ERR with the timer stopped |
| AppErrors.ThrowThenResolve | software/esp-firmware/components/app_errors/src/app_errors.c:23-157 | from NO_ERR, a throw followed by the resolve of the same kind returns to NO_ERR without flashing |
| AppErrors.TransitionsKeepFlashingInvariant | software/esp-firmware/components/app_errors/src/app_errors.c:22-179 | every transition keeps the flashing timer alive exactly in the state with only the connection error |
| AppErrors.ErrorResources.constructor | software/esp-firmware/components/app_errors/src/app_errors.c:17-22 | the resources start in NO_ERR with no timer |
| AppErrors.ErrorResources.StartErrorFlashing | software/esp-firmware/components/app_errors/src/app_errors.c:186-211 | afterwards the flashing timer exists |
| AppErrors.ErrorResources.StopErrorFlashing | software/esp-firmware/components/app_errors/src/app_errors.c:213-225 | afterwards no flashing timer exists |
| AppErrors.ErrorResources.ThrowFatalError | software/esp-firmware/components/app_errors/src/app_errors.c:87-110 | the timer is stopped and the state is FATAL_ERR |
| AppErrors.ErrorResources.ThrowNoConnError | software/esp-firmware/components/app_errors/src/app_errors.c:17-48 | the new state and timer are the throw-connection transition of the old ones |
| AppErrors.ErrorResources.ThrowHandleableError | software/esp-firmware/components/app_errors/src/app_errors.c:50-85 | the new state and timer are the throw-handleable transition of the old ones |
| AppErrors.ErrorResources.ResolveNoConnError | software/esp-firmware/components/app_errors/src/app_errors.c:112-147 | the new state and timer are the resolve-connection transition of the old ones |
| AppErrors.ErrorResources.ResolveHandleableError | software/esp-firmware/components/app_errors/src/app_errors.c:149-184 | the new state and timer are the resolve-handleable transition of the old ones |
| ActionTask.SecondsOfDay | software/esp-firmware/components/actions/src/action_task.c:214 | for a valid clock reading, the seconds since midnight give back the hour and minute in whole minutes and the second as the remainder |
| ActionTask.EarliestJob | software/esp-firmware/components/actions/src/action_task.c:197-230 | the earliest job of the day is at most every job time and the bound, and is one of them |
| ActionTask.EarliestJobAfter | software/esp-firmware/components/actions/src/action_task.c:197-236 | the earliest job after now is at most every later job time and the bound, and is the bound or one of those later job times |
| ActionTask.SecsUntilNextAction | software/esp-firmware/components/actions/src/action_task.c:194-247 | an unreadable clock gives -1, no schedule gives 0, otherwise the scan yields the delay to the next job |
| ActionTask.DelayReachesNextJob | software/esp-firmware/components/actions/src/action_task.c:224-246 | with a job later today the delay ends exactly at the earliest such job; otherwise, including a job exactly at now, it ends at the earliest job of the next day |
| ActionTask.DelayWithinDay | software/esp-firmware/components/actions/src/action_task.c:224-246 | for a non-empty schedule within the day the delay lies in (0, 86400], and a schedule whose only job is now waits a full day |
| ActionTask.ReArmAfter | software/esp-firmware/components/actions/src/action_task.c:118-125 | the action timer is re-armed after every action except a data update, for the computed delay in microseconds |
| Refresh.UrlPath | software/esp-firmware/components/refresh/src/refresh.c:651-683 | each direction and category in the enums has a non-empty file path |
| Refresh.GetCorrectUrl | software/esp-firmware/components/refresh/src/refresh.c:651-683 | a URL exists exactly for NORTH or SOUTH with LIVE or TYPICAL, and is the server prefix, that pair's path and the version |
| Refresh.PathOfUrl | software/esp-firmware/components/refresh/src/refresh.c:651-683 | two equal URLs with the same prefix and version have the same path |
| Refresh.UrlsAreDistinct | software/esp-firmware/components/refresh/src/refresh.c:651-683 | the four URLs are distinct, so a URL determines its direction and category |
| Refresh.RefreshData | software/esp-firmware/components/refresh/src/refresh.c:201-228 | without a client only NVS is read; without a URL the result is ESP_FAIL; a server failure throws the no-connection error and falls back to NVS; a success resolves that error |
| Refresh.FetchSetsConnectionFlag | software/esp-firmware/components/refresh/src/refresh.c:220-226 | after a fetch from a non-fatal state the no-connection flag says whether the server failed, and the handleable flag is kept |
| Refresh.SetColor | software/esp-firmware/components/refresh/src/refresh.c:606-620 | the slow colour exactly below the slow cutoff, the medium colour exactly between the cutoffs, the fast colour otherwise |
| Refresh.ColourIsMonotone | software/esp-firmware/components/refresh/src/refresh.c:606-620 | a higher percentage never gives a slower colour |
| Refresh.DivIsMonotone | software/esp-firmware/components/refresh/src/refresh.c:318 | the integer division of the percentage is monotone in the current speed |
| Refresh.PercentAsWritten | software/esp-firmware/components/refresh/src/refresh.c:318-319 | the percentage handed to updateLED is 100 * current / typical modulo 256 |
| Refresh.AsWrittenColourNotMonotone | software/esp-firmware/components/refresh/src/refresh.c:318-319 | as written, a road at 252% of typical shows fast while one at 256% shows slow |
| Refresh.PercentFlow | software/esp-firmware/components/refresh/src/refresh.c:318-319 | the corrected percentage equals 100 * current / typical up to 255 and saturates at 255 |
| Refresh.ColourFollowsSpeed | software/esp-firmware/components/refresh/src/refresh.c:318-319 | with the corrected percentage a faster road never shows a slower colour |
| Refresh.ActionFor | software/esp-firmware/components/refresh/src/refresh.c:283-320 | an LED is touched exactly when its number is in range, its typical speed is positive, both entries carry its number and its current speed is not negative; a speed of 0 strobes, any other speed paints with 100 * current / typical wrapped to 8 bits, which is the unwrapped percentage whenever that is below 256 |
| Refresh.RunStep | software/esp-firmware/components/refresh/src/refresh.c:279-329 | one position of the loop either skips the LED, or updates it and stops on a pending notification, or updates it and goes on |
| Refresh.AbortTruncatesPlan | software/esp-firmware/components/refresh/src/refresh.c:279-329 | a notification only cuts the planned updates short; without one every planned update is made |
| Refresh.AbortedIffNotified | software/esp-firmware/components/refresh/src/refresh.c:283-327 | the refresh aborts exactly when a notification is pending after some touched LED |
| Refresh.PlannedUpdatesAreDisplayable | software/esp-firmware/components/refresh/src/refresh.c:283-320 | every update names an LED that passes the skip rules, with the action the per-LED rule gives it |
| Refresh.DisplayableLedsArePlanned | software/esp-firmware/components/refresh/src/refresh.c:279-320 | every LED of the order that passes the skip rules is planned |
| Refresh.SetupError | software/esp-firmware/components/refresh/src/refresh.c:249-275 | a notification before the loop gives REFRESH_ABORT_NO_CLEAR; the set-up calls' errors end the refresh in order, and a failed pause is ESP_FAIL |
| Refresh.RefreshBoard | software/esp-firmware/components/refresh/src/refresh.c:243-336 | a set-up error touches no LED; otherwise the updates are the refresh's updates, each paint with its percentage wrapped to 8 bits, and the result is ESP_FAIL if resuming strobe registration fails, REFRESH_ABORT on a notification, ESP_OK otherwise |
| Refresh.Contains | software/esp-firmware/components/refresh/src/refresh.c:700-710 | true exactly when the element is among the first `arrLen` entries |
| Refresh.ClearSparesIndicators | software/esp-firmware/components/refresh/src/refresh.c:507-536 | a clear switches off a prefix of the non-indicator LEDs in order, all of them when it succeeds, and never an indicator LED |
| Refresh.NonIndicatorsCover | software/esp-firmware/components/refresh/src/refresh.c:507-514 | every LED of the order that is not an indicator is one the clear means to switch off |
| Refresh.ClearBoard | software/esp-firmware/components/refresh/src/refresh.c:489-579 | a failed unregister gives ESP_FAIL; a direction outside the enum clears nothing; an ordering error is returned; otherwise the LEDs switched off are those of the clearing loop |
| Refresh.QuickClearBoard | software/esp-firmware/components/refresh/src/refresh.c:592-595 | the quick clear is the clear without delays |
| MainRefresh.RefreshData | software/esp-firmware/main/src/refresh.c:106-135 | as the component copy, except that a successful server fetch resolves the no-connection error and is stored to NVS, and the store's result is returned; nothing is stored otherwise |
| MainRefresh.RefreshBoard | software/esp-firmware/main/src/refresh.c:150-191 | an ordering error touches no LED; otherwise every LED that passes the same skip rules is painted with its percentage wrapped to 8 bits, under the number its current-speed entry carries, until a notification aborts the refresh |
| MainRefresh.ClosedRoadShowsSlow | software/esp-firmware/main/src/refresh.c:182-183 | without a strobe path a closed road is painted at 0%, which shows the slow colour |
| MainRefresh.LedNumbers | software/esp-firmware/main/src/refresh.c:384 | the clear visits the LED numbers 1..MAX_NUM_LEDS_REG in order |
| MainRefresh.NoAborts | software/esp-firmware/main/src/refresh.c:384-399 | the quick clear never stops for a notification |
| MainRefresh.QuickClearBoard | software/esp-firmware/main/src/refresh.c:380-401 | the LEDs switched off, and the result, are those of the clearing loop over 1..MAX_NUM_LEDS_REG with no notifications |
| MainRefresh.QuickClearCoversBoard | software/esp-firmware/main/src/refresh.c:384-399 | a successful quick clear switches off exactly the LEDs 1..MAX_NUM_LEDS_REG that are not indicators |
| LedMatrix.SetMasked | software/esp-firmware/components/led_matrix/src/led_matrix.c:1109-1110 | the bits outside the mask keep their value and the masked bits take those of the field |
| LedMatrix.AlignAsWrittenIsIdentity | software/esp-firmware/components/led_matrix/src/led_matrix.c:1104-1108 | the alignment loop as written stops at shift 0, because every mask is divisible by 1, so the value is never moved |
| LedMatrix.AlignValueAsWritten | software/esp-firmware/components/led_matrix/src/led_matrix.c:1104-1108 | the loop as written returns the value unshifted |
| LedMatrix.MatSetBits | software/esp-firmware/components/led_matrix/src/led_matrix.c:1101-1112 | as written, the register keeps the bits outside the mask and takes the unshifted value's bits inside it |
| LedMatrix.AlignValue | software/esp-firmware/components/led_matrix/src/led_matrix.c:1104-1108 | the intended loop shifts the value up to the lowest bit of the mask |
| LedMatrix.MatSetBitsAligned | software/esp-firmware/components/led_matrix/src/led_matrix.c:1101-1112 | with the intended alignment, the register keeps the bits outside the mask and takes the aligned value inside it |
| LedMatrix.CheckSetting | software/esp-firmware/components/led_matrix/src/led_matrix.c:567-722 | an enum setter accepts a setting exactly when it lies below its enum's first invalid value, and otherwise reports ESP_ERR_INVALID_ARG |
| LedMatrix.CheckPwmFrequency | software/esp-firmware/components/led_matrix/src/led_matrix.c:743-747 | the PWM frequency is accepted exactly below MATRIX_PWMFREQ_MAX (12); otherwise the result is ESP_ERR_INVALID_ARG |
| LedMatrix.InitLedMatrixGuard | software/esp-firmware/components/led_matrix/src/led_matrix.c:165-170 | initialisation is refused with ESP_ERR_INVALID_STATE exactly when the component is already initialised |
| LedMatrix.SettingRoundTrip | software/esp-firmware/components/led_matrix/src/led_matrix.c:1101-1112 | every valid setting written with the intended alignment reads back unchanged from its field, and the rest of the register is unchanged |
| LedMatrix.FieldsAreIsolated | software/esp-firmware/components/led_matrix/src/led_matrix.c:64-72 | two distinct fields in one register have disjoint masks, so writing one leaves the other's value as it was |
| LedMatrix.AsWrittenLosesSwxSetting | software/esp-firmware/components/led_matrix/src/led_matrix.c:1101-1112 | as written, setting the SWx field to 1 leaves it at 0; with the intended alignment it reads back 1 |
| LedMatrix.AsWrittenPullupShutsDown | software/esp-firmware/components/led_matrix/src/led_matrix.c:911-944 | as written, the pull-up setter writes the configuration register, and setting RES_NONE there clears the software-shutdown bit of a running matrix; the pull-up field belongs to the pull-select register |
| LedMatrix.MatSetConfigField | software/esp-firmware/components/led_matrix/src/led_matrix.c:911-950 | an invalid setting gives ESP_ERR_INVALID_ARG and writes nothing; a read error is passed on (ESP_ERR_INVALID_ARG as ESP_FAIL) and nothing is written; otherwise each matrix's register takes the unshifted setting inside the field's mask, as matSetBits does, and is written to the configuration register, whichever register the field lives in; for a field at bit 0 of the configuration register that is the intended write |
| LedMatrix.MatParseLEDRegisterInfo | software/esp-firmware/components/led_matrix/src/led_matrix.c:981-1088 | a missing handle or no requested page gives ESP_ERR_INVALID_ARG, a matrix at or past MAT_NONE gives APP_ERR_INVALID_PAGE; otherwise the device is matrix / 2 and exactly the requested pages are returned, PWM0 or SCALING0 plus matrix mod 2 |
| LedMatrix.ParseIsInjective | software/esp-firmware/components/led_matrix/src/led_matrix.c:981-1088 | the matrix location is recovered from the device and the PWM page, the scaling page is the PWM page plus 2, and distinct locations decode differently |
| LedMatrix.LocateLed | software/esp-firmware/components/led_matrix/src/led_matrix.c:811-875 | LED number 0 or past MAX_NUM_LEDS_REG gives ESP_ERR_INVALID_ARG; an in-range LED whose table entry has an invalid matrix gives APP_ERR_INVALID_PAGE; a located LED uses its table entry, its device and the PWM or scaling page of its matrix |
| LedMatrix.ColorAndScalingShareDevice | software/esp-firmware/components/led_matrix/src/led_matrix.c:811-875 | an LED with a valid table entry is located by both matSetColor and matSetScaling, on the same device, with the scaling page two above the PWM page |
| LedMatrix.BusErr | software/esp-firmware/components/led_matrix/src/led_matrix.c:1186-1201 | an I2C error is reported as a failure exactly when the transaction failed, ESP_ERR_INVALID_ARG becoming ESP_FAIL |
| LedMatrix.SetPageResult | software/esp-firmware/components/led_matrix/src/led_matrix.c:1143-1226 | a page past CONFIG_PAGE gives ESP_ERR_INVALID_ARG; the switch succeeds exactly when the mutex is taken and either the cache already holds the page or the unlock, the key read-back, the page write and the device lookup all succeed |
| LedMatrix.HandleMatSetPageErr | software/esp-firmware/components/led_matrix/src/led_matrix.c:1244-1267 | the mutex is given back exactly for ESP_ERR_INVALID_RESPONSE, ESP_ERR_TIMEOUT and ESP_FAIL, whose result is the error or APP_ERR_MUTEX_RELEASE; argument, state and mutex errors pass through; ESP_OK becomes ESP_FAIL; every other code is APP_ERR_UNHANDLED |
| LedMatrix.SetPageErrorsAreHandled | software/esp-firmware/components/led_matrix/src/led_matrix.c:1143-1267 | with the error codes the mutex and the I2C driver report, every failure of matSetPage is handled, and the handler releases the mutex exactly when matSetPage took it |
| LedMatrix.CacheAfter | software/esp-firmware/components/led_matrix/src/led_matrix.c:1203-1223 | the cache keeps one entry per matrix |
| LedMatrix.SwitchedPageIsCached | software/esp-firmware/components/led_matrix/src/led_matrix.c:1160-1223 | after a successful switch the device is a known matrix whose cache entry is the target page, and no other matrix's entry changes |
| LedMatrix.PageCache.constructor | software/esp-firmware/components/led_matrix/src/led_matrix.c:104-110 | every matrix starts with an unknown page (UINT8_MAX) |
| LedMatrix.PageCache.SyncAfterInit | software/esp-firmware/components/led_matrix/src/led_matrix.c:294-296 | after bus initialisation every matrix's cached page is PWM0_PAGE |
| LedMatrix.PageCache.MatSetPage | software/esp-firmware/components/led_matrix/src/led_matrix.c:1143-1226 | the result follows the page-switch rule, the cache changes only after a page write that succeeded, and the caller holds the mutex exactly when the page is valid and the mutex was taken |
| Input.StateFollowsLastReading | software/esp-firmware/components/input/src/input.c:277-311 | after any series of settled readings the debounce state is the last reading, or the starting state when there were none |
| Input.QuickPressesAreEdges | software/esp-firmware/components/input/src/input.c:284-294 | exactly one quick press is queued for each pressed reading that follows a released one, and none otherwise |
| Input.DirButton.constructor | software/esp-firmware/components/input/src/input.c:279 | both enable flags start off and no edge has been seen |
| Input.DirButton.EnableQuickDirButton | software/esp-firmware/components/input/src/input.c:79-92 | the quick flag is set; the interrupt is enabled, with the GPIO driver's result, only when both flags were off; otherwise it is left as it was and the result is ESP_OK |
| Input.DirButton.DisableQuickDirButton | software/esp-firmware/components/input/src/input.c:94-104 | the quick flag is cleared; the interrupt is disabled only when the hold flag is off too |
| Input.DirButton.EnableHoldDirButton | software/esp-firmware/components/input/src/input.c:116-129 | the hold flag is set; the interrupt is enabled only when both flags were off |
| Input.DirButton.DisableHoldDirButton | software/esp-firmware/components/input/src/input.c:131-141 | the hold flag is cleared; the interrupt is disabled only when the quick flag is off too |
| Input.DirButton.DirButtonISR | software/esp-firmware/components/input/src/input.c:245-250 | the interrupt is always masked and the debounce timer started, whatever the flags |
| Input.DirButton.TimerDirButtonCallback | software/esp-firmware/components/input/src/input.c:262-268 | a hold press is queued exactly when hold presses are enabled |
| Input.DirButton.TimerDebounceDirButtonCallback | software/esp-firmware/components/input/src/input.c:277-314 | a press after a release queues a quick press, arms the hold timer and increments the abort count; a release after a press stops the hold timer; a repeated level changes nothing; the interrupt is re-enabled in every case |
| FetchTwo.RequestData | software/server-software/fetch_tomtom_two.py:112-179 | requestData: -1 for an entry without coordinates; the segment endpoint for a "NULL" tile or a typical request; otherwise the tile's speed, -1 when the tile answer has none |
| FetchTwo.SegmentOnlyWhenNoTile | software/server-software/fetch_tomtom_two.py:121-122 | for a "NULL" tile or a typical request, the speed is the segment endpoint's and the tile endpoint's answer plays no part |
| FetchTwo.LocateBefore | software/server-software/fetch_tomtom_two.py:229-233 | the rows the first loop keeps are at most the rows read |
| FetchTwo.LedMap | software/server-software/fetch_tomtom_two.py:234-238 | every entry of led_to_entry is a row of the run whose LED number is its key |
| FetchTwo.FirstsAreKeys | software/server-software/fetch_tomtom_two.py:238 | the insertion order of led_to_entry lists every key exactly once |
| FetchTwo.DuplicateLedSnoc | software/server-software/fetch_tomtom_two.py:234-236 | a further row sets bad_locations exactly when its LED number is already a key |
| FetchTwo.LedMapKeys | software/server-software/fetch_tomtom_two.py:234-238 | a number is a key of led_to_entry exactly when some row of the run carries it |
| FetchTwo.MaxLed | software/server-software/fetch_tomtom_two.py:224-241 | max_led_num bounds every LED number of the run |
| FetchTwo.DecodeReferences | software/server-software/fetch_tomtom_two.py:185-220 | decodeReferences over the LEDs in insertion order: None once any reference is invalid (all of them are looked at first), otherwise the groups of LEDs per entry and their key order |
| FetchTwo.DecodeStep | software/server-software/fetch_tomtom_two.py:196-218 | one LED: no reference keeps its own entry; a reference that is not positive, beyond max_led_num, or to a row that itself refers on is invalid; a reference to an entry without coordinates is invalid; otherwise the LED joins its target's group |
| FetchTwo.RaisesKeyErrorGrows | software/server-software/fetch_tomtom_two.py:211 | a failed lookup of the referenced entry ends the whole call |
| FetchTwo.BadReferenceAnywhere | software/server-software/fetch_tomtom_two.py:207-220 | decodeReferences fails exactly when some LED's reference is invalid, wherever that LED comes in the order |
| FetchTwo.GroupMembers | software/server-software/fetch_tomtom_two.py:216-218 | LED n is in the group of t exactly when n resolves to t, and the group keys are exactly the keys of entry_to_leds |
| FetchTwo.GroupKeysDistinct | software/server-software/fetch_tomtom_two.py:216-217 | each group is created once |
| FetchTwo.NoKeyErrorAfterChecks | software/server-software/fetch_tomtom_two.py:211-251 | once every number in 1..max_led_num has a row, the lookup at line 211 cannot fail |
| FetchTwo.LedByte | software/server-software/fetch_tomtom_two.py:260-273 | every byte is non-negative |
| FetchTwo.LedBytes | software/server-software/fetch_tomtom_two.py:260-273 | the list holds max_led_num+1 values; value n is the speed of the entry LED n resolves to, 0 where there is none, where the request fails or where the speed is negative |
| FetchTwo.RefusalMakesNoRequest | software/server-software/fetch_tomtom_two.py:243-257 | whether requestSpeeds refuses the input does not depend on what the network answers |
| FetchTwo.CollectLocations | software/server-software/fetch_tomtom_two.py:223-241 | the first loop ends with led_to_entry, its key order, the duplicate flag and max_led_num of the run's rows |
| FetchTwo.CollectStep | software/server-software/fetch_tomtom_two.py:229-241 | one pass skips a row of the other direction and otherwise adds the row as SnocFacts says |
| FetchTwo.CollectOne | software/server-software/fetch_tomtom_two.py:234-241 | one row of the run's direction updates the four variables as SnocFacts says |
| FetchTwo.SnocFacts | software/server-software/fetch_tomtom_two.py:234-241 | one row adds its LED to led_to_entry and to the key order only when the number is new, sets the duplicate flag otherwise, and raises max_led_num to its number |
| FetchTwo.FillSpeeds | software/server-software/fetch_tomtom_two.py:260-273 | the last loop and the clamp produce exactly LedBytes |
| FetchTwo.FillGroup | software/server-software/fetch_tomtom_two.py:261-270 | one group writes its entry's speed to exactly its LEDs, or nothing when the request fails |
| FetchTwo.WrittenStep | software/server-software/fetch_tomtom_two.py:268-269 | after group g is filled, LED n holds g's speed exactly when n is in g's group |
| FetchTwo.Overwrite | software/server-software/fetch_tomtom_two.py:268-269 | `speeds[led_num] = speed` for each LED of the group, and nothing else changes |
| FetchTwo.WrittenSkip | software/server-software/fetch_tomtom_two.py:264-266 | a failed request leaves the list unchanged |
| FetchTwo.KeyIsEntry | software/server-software/fetch_tomtom_two.py:216-218 | every group key is an LED of led_to_entry |
| FetchTwo.CollectedShape | software/server-software/fetch_tomtom_two.py:238-241 | the key order lists each key once, and every key is at most max_led_num |
| FetchTwo.RequestSpeeds | software/server-software/fetch_tomtom_two.py:222-274 | requestSpeeds: False on a duplicate, a missing number in 1..max_led_num or an invalid reference; otherwise LedBytes |
| FetchTwo.CheckAndFill | software/server-software/fetch_tomtom_two.py:243-274 | after the first loop: refuse on a duplicate or missing number, then on a failed decodeReferences, otherwise fill the speeds |
| FetchTwo.CheckedOutcome | software/server-software/fetch_tomtom_two.py:249-257 | once the location checks pass, requestSpeeds refuses exactly when decodeReferences returns None |
| FetchTwo.RefusedRunWritesEmptyFile | software/server-software/fetch_tomtom_two.py:288-306 | as written, a refused requestSpeeds returns False, `bytearray(False)` is empty, so main writes an empty file and returns True |
| FetchTwo.RunMain | software/server-software/fetch_tomtom_two.py:280-310 | main as written: False and no file for an unknown direction or a speed above 255; a refused requestSpeeds becomes `bytearray(False)`, so True with empty files; otherwise True, with the same bytes in both files |
| FetchTwo.MainSuccess | software/server-software/fetch_tomtom_two.py:280-306 | under the correction, a successful run passed the location checks and wrote max_led_num+1 bytes, byte n being LED n's LedByte, and the same bytes to the second file exactly when there is one |
| FetchTwo.CorrectionKeepsSuccessfulRuns | software/server-software/fetch_tomtom_two.py:288-306 | wherever requestSpeeds succeeds, the corrected main behaves exactly as the code as written |
| FetchTwo.CorrectionOnlyForRefusals | software/server-software/fetch_tomtom_two.py:288-306 | the corrected main differs from the code exactly on the runs requestSpeeds refuses for a known direction |
| TomtomRequest.RowsBefore | software/server-software/tomtomRequest.py:22-26 | the rows the first loop keeps are at most the rows read |
| TomtomRequest.RowsAreActive | software/server-software/tomtomRequest.py:22-26 | the rows the first loop looks at are exactly the rows not marked for the other direction, in file order |
| TomtomRequest.LedDict | software/server-software/tomtomRequest.py:27-31 | every entry of ledDict is a row of the run whose LED number is its key |
| TomtomRequest.LedOrderKeys | software/server-software/tomtomRequest.py:31 | the insertion order of ledDict, the order `ledDict.items()` visits, lists every key exactly once |
| TomtomRequest.LedDictKeys | software/server-software/tomtomRequest.py:27-31 | a number is a key of ledDict exactly when some row of the run carries it |
| TomtomRequest.DuplicateSnoc | software/server-software/tomtomRequest.py:27-29 | a further row sets badLocations exactly when its LED number is already a key |
| TomtomRequest.MaxLed | software/server-software/tomtomRequest.py:20-33 | maxLEDNum bounds every LED number of the run |
| TomtomRequest.SnocFacts | software/server-software/tomtomRequest.py:27-33 | one row adds its LED to ledDict and to the key order only when the number is new, sets the duplicate flag otherwise, and raises maxLEDNum to its number |
| TomtomRequest.CollectLeds | software/server-software/tomtomRequest.py:19-33 | the first loop ends with ledDict, its key order, the duplicate flag and maxLEDNum of the run's rows |
| TomtomRequest.CollectStep | software/server-software/tomtomRequest.py:22-33 | one pass of the first loop skips a row of the other direction and otherwise adds the row as SnocFacts says |
| TomtomRequest.Reference | software/server-software/tomtomRequest.py:50-53 | a row refers to another exactly when its Free Flow Speed is negative, and then to LED number -(Free Flow Speed), at least 1 |
| TomtomRequest.Unknown | software/server-software/tomtomRequest.py:44 | `[-1] * (maxLEDNum + 1)` has maxLEDNum+1 slots, all -1 |
| TomtomRequest.Step | software/server-software/tomtomRequest.py:45-81 | one pass of the speed loop keeps the list at maxLEDNum+1 slots |
| TomtomRequest.After | software/server-software/tomtomRequest.py:45-81 | the list after any number of passes still has maxLEDNum+1 slots |
| TomtomRequest.RequestAll | software/server-software/tomtomRequest.py:43-81 | the speed loop over ledDict in insertion order ends with the list and the invalidReference flag of `After` |
| TomtomRequest.RequestOne | software/server-software/tomtomRequest.py:46-81 | one LED's pass, with the checks in the source's order (reference past maxLEDNum, reuse of a known speed, double reference, request, store), is `Step` |
| TomtomRequest.StepInvalid | software/server-software/tomtomRequest.py:54-65 | a pass sets invalidReference exactly when its row refers past maxLEDNum or to a row that itself refers on, and never clears it |
| TomtomRequest.InvalidIffBadReference | software/server-software/tomtomRequest.py:43-83 | after the loop invalidReference is set exactly when some LED of ledDict has a bad reference |
| TomtomRequest.ReuseMakesNoRequest | software/server-software/tomtomRequest.py:58-81 | a reference whose target already has a speed copies it into its own slot and makes no request |
| TomtomRequest.FetchFillsTarget | software/server-software/tomtomRequest.py:58-78 | a reference whose target has no speed yet makes one request at the target's location; a speed it gets goes into both slots, a failed request changes nothing |
| TomtomRequest.StepWrites | software/server-software/tomtomRequest.py:75-81 | a pass writes only its own LED's slot and its target's |
| TomtomRequest.ZeroStaysUnknown | software/server-software/tomtomRequest.py:44-78 | slot 0 stays -1 when no row carries LED number 0, since references are at least 1 |
| TomtomRequest.StepSettles | software/server-software/tomtomRequest.py:45-81 | when the service answers each location the same way every time, a pass leaves every slot it touched holding that LED's expected speed and every other slot unchanged |
| TomtomRequest.ConsistentPass | software/server-software/tomtomRequest.py:45-81 | under such a service the list after k passes holds the expected speed in every touched slot and -1 everywhere else |
| TomtomRequest.OrderTouched | software/server-software/tomtomRequest.py:45 | every LED visited so far is among the touched slots |
| TomtomRequest.RunMain | software/server-software/tomtomRequest.py:14-86 | main's verdict: nothing for an unknown direction; False for a duplicate LED number, a missing number in 1..maxLEDNum or an invalid reference; otherwise the dumped list |
| TomtomRequest.CheckAndRequest | software/server-software/tomtomRequest.py:35-86 | after the first loop, the run is refused for a duplicate or a missing number and otherwise dumps the list unless some reference is bad |
| TomtomRequest.LocationChecksComeFirst | software/server-software/tomtomRequest.py:34-41 | a duplicate or a missing LED number refuses the run before any request, whatever the service answers |
| TomtomRequest.DumpedSpeeds | software/server-software/tomtomRequest.py:44-86 | a dumped list has maxLEDNum+1 slots and slot 0 is -1 when no row carries 0; under a service that answers each location the same way every time, slot j holds LED j's speed (its target's for a reference), -1 when that request fails |
| TomtomRequest.DumpedRowSpeeds | software/server-software/tomtomRequest.py:44-86 | the same, for the rows of the run |
| TomtomRequest.DumpedPass | software/server-software/tomtomRequest.py:45-83 | the same, for the speed loop over ledDict |
| LedCoordinates.LeadingDigits | software/scripts/led_coordinate_script/generate_led_coordinates.py:79 | the digits taken are a prefix of the text, all digits, and stop at the first non-digit (the greedy `\d+`) |
| LedCoordinates.SearchDigits | software/scripts/led_coordinate_script/generate_led_coordinates.py:105-108 | `re.search` finds a non-empty run of digits when it finds anything |
| LedCoordinates.SearchAfterMatch | software/scripts/led_coordinate_script/generate_led_coordinates.py:102-109 | once `re.match("LED\d+")` succeeds, `re.search("\d+")` finds the digits right after "LED", so the "led num did not match" exit at 106-108 is unreachable and the LED number is the value of those digits |
| LedCoordinates.DesignatorOfNumber | software/scripts/led_coordinate_script/generate_led_coordinates.py:102-109 | "LED" followed by the numeral of n, then anything not starting with a digit, is read as LED n |
| LedCoordinates.OtherDesignatorsSkipped | software/scripts/led_coordinate_script/generate_led_coordinates.py:102-104 | a designator that does not start with "LED" and a digit is skipped |
| LedCoordinates.FirstPart | software/scripts/led_coordinate_script/generate_led_coordinates.py:110-111 | the part kept for LED n is a row of the input that carries n |
| LedCoordinates.PrunedSlot | software/scripts/led_coordinate_script/generate_led_coordinates.py:96-114 | LED n is in led_to_entry exactly when some row carries n; the entry holds the FIRST such row, and the comment is the numeral of n, with ", duplicate detected" appended exactly when a second row carries n |
| LedCoordinates.FirstPartIsFirst | software/scripts/led_coordinate_script/generate_led_coordinates.py:110-113 | the part kept is that of the earliest row carrying the number; later rows never replace it |
| LedCoordinates.PruneCsvEntries | software/scripts/led_coordinate_script/generate_led_coordinates.py:96-114 | the loop builds exactly the table `Pruned` describes, row by row |
| LedCoordinates.MaxNumber | software/scripts/led_coordinate_script/generate_led_coordinates.py:127 | the largest LED number any row carries bounds every carried number and is itself carried (or 0 when none is) |
| LedCoordinates.MaxNumberIsCarried | software/scripts/led_coordinate_script/generate_led_coordinates.py:127 | when some designator names an LED, the maximum is one of the LED numbers present |
| LedCoordinates.MaxKey | software/scripts/led_coordinate_script/generate_led_coordinates.py:127 | `max(led_to_entry.keys())` of a non-empty table is a key, and no key is larger |
| LedCoordinates.MaxKeyIsMaxNumber | software/scripts/led_coordinate_script/generate_led_coordinates.py:127 | the largest key of the pruned table is the largest LED number carried by the rows |
| LedCoordinates.RunMain | software/scripts/led_coordinate_script/generate_led_coordinates.py:122-155 | the text written is the header, one row per index 0..max, then "};"; no text at all when no designator names an LED, where `max()` of an empty sequence raises |
| LedCoordinates.WriteRows | software/scripts/led_coordinate_script/generate_led_coordinates.py:147-154 | the loop over `range(0, max_led_num + 1)` writes the rows for indices 0..count-1 in order |
| LedCoordinates.FormatRow | software/scripts/led_coordinate_script/generate_led_coordinates.py:148-154 | an index with no LED gets `{0, 0}` and the "there is no LED with number" comment; otherwise the rounded Mid X and Mid Y and the entry's comment |
| LedCoordinates.TableRow | software/scripts/led_coordinate_script/generate_led_coordinates.py:133-140 | row ndx, stated from the input rows alone: `{0, 0}` when no designator names LED ndx, otherwise the coordinates of the first part naming it, with the duplicate note exactly when another part names it too |
| LedCoordinates.SameFirstsSameTable | software/scripts/led_coordinate_script/generate_led_coordinates.py:122-155 | the output depends only on the first part per LED number and on which numbers are duplicated, not on the order or presence of other rows |

## Left out

- Network and file I/O: `requests.get`, protobuf parsing, the JSON decoding of TomTom replies, `esp_http_client`, and opening, writing and creating files and folders. Replies are parameters that are already parsed, and the model returns the bytes or text each file would receive.
- Logging: `log`, `print` and `ESP_LOG*` have no effect in the model. The loop of `pruneCSVEntries` that only logs missing numbers is modelled by the flag it sets.
- Floating point: `round(v * 0.621371)` (km/h to mph) and `round(float(...))` of the coordinate script are parameters that are already converted to integers.
- Python text handling: `\d` and white space are modelled for ASCII only, with no Unicode digits or spaces.
- Python parsing: the "LED Number" field is taken as an already parsed non-negative number. A failing `int()` on it, negative list indices and a `KeyError` on a missing column are not modelled.
- `csv.DictReader`: a `None` reader is not modelled.
- Script entry points: the `__main__` blocks, argument parsing, `tomtomRequest.py`'s restore of a saved file, and `sys.exit` codes are not part of this model.
- Sorting: `sorted` is modelled as a sort by LED number. The order among rows with the same LED number, where `sorted` is stable, is not stated.
- FetchTwo.DecodeReferences: groups are keyed by the LED number of the entry they resolve to, not by its file row. Once duplicates are refused, the two are in one-to-one correspondence.
- Concurrency and RTOS: tasks, queues, semaphores and mutexes, timers and delays, and interrupts are not modelled. Input.DirButton keeps the timers and the interrupt as flags. The known race at input.c 299-309 between a stopped hold timer and a missed falling edge is therefore not modelled.
- Hardware: GPIO, the I2C transactions and their retries, and the matrix hardware versions other than the four-matrix one are not modelled. V1_0_led_matrix.c, V2_0_led_matrix.c, dots_matrix.c and the LED register table data are not part of this model; the table is a parameter.
- LedMatrix.MatSetConfigField: models one setter call over the four matrices' register values. It does not model the register read and write transactions themselves.
- LedMatrix.CacheAfter: states only that the cache keeps its length; what it records after a switch is stated by LedMatrix.SwitchedPageIsCached and LedMatrix.PageCache.MatSetPage.
- NVS: the result of reading the stored speeds is a parameter of refreshData. Storing fetched speeds (main/src/refresh.c) is a returned flag, and its result is a parameter.
- circularBufferStoreFromClient and its helper (circular_buffer.c 109-201) are not modelled, because the helper has no return statement.
- RingArith: the modular helpers require N > 0, because their N == 0 branch has no return. Their checks against UINT32_MAX cannot fail for 32-bit operands and are not modelled.
- CircularBuffer and CommonCircularBuffer: the buffer is an object, so the check for a NULL buffer pointer is not modelled. A NULL backing array or string is a null `array?`.
- StrobeTask: the NULL-pointer guards of receiveCommand and strobeLEDs are not modelled. The log line at strobe_task.c 332 reads `strobeInfo[-1]` on the first registration; that read is not modelled either.
- StrobeTask: the matrix writes of each new scale are not modelled.
- AppErrors: the GPIO writes, the error-indicator LEDs, the mutex, and the failure paths of timer creation in startErrorFlashing are not modelled. The flashing timer is a flag.
- ActionTask: `time`/`localtime_r` are an optional clock parameter, and the schedule is an optional list of seconds of the day. The SNTP start-up and the task loop are not modelled; only the re-arm rule is.
- Refresh and MainRefresh: the LED writes are best effort in the code and are recorded as the planned updates. Their results, retries and delays are not modelled. The V1 branch of clearBoard (refresh.c 338-438, hardware version 1) is not modelled. The server URL and version are parameters, because the macros that build them are not part of this model.
- Records.SpeedType: has no UNKNOWN member. Every entry point of the scripts passes CURRENT or TYPICAL (fetch_tomtom_data.py 605-618), so the guards that raise on UNKNOWN (lines 145-146 and 465-466) and the unknown-type branch of requestSegmentData (lines 184-186) are not modelled.
- Ota: the HTTP client is a list of replies. The log lines and the download task are not modelled. The tests call processOTAAvailableFile with three arguments but the code takes two; the model follows the code.
- Input: the OTA button (enable/disable and its interrupt routine) is not modelled.

## Findings

| source | as written | input that shows it | evidently intended | confidence | as-written member | corrected member |
|---|---|---|---|---|---|---|
| software/esp-firmware/components/circular_buffer/src/circular_buffer.c:72-81 | the lost-mark test measures the distance from the mark to `end` modulo N, so a mark at `end` counts as distance 0 | a full buffer of 4 characters, marked at its oldest character (slot 0, `end` 0), stores 1 more character: the mark is kept though its character is overwritten | the distance is counted in 1..N, so CIRC_LOST_MARK is returned exactly when a store overwrites the marked character | high, not executed | CircularBuffer.AsWrittenKeepsOverwrittenMark | CircularBuffer.IntendedRuleIsOverwrite |
| software/esp-firmware/components/common/src/circular_buffer.c:65-68 | the length is increased in uint32_t before it is clamped | a buffer of UINT32_MAX characters that is full stores 1 more: the length becomes 0 | the length is clamped to the buffer size | low (needs a 4 GiB buffer), not executed | CommonCircularBuffer.LengthWrapsToZero | RingArith.ClampedLength |
| software/esp-firmware/components/led_matrix/src/led_matrix.c:1104-1108 | the alignment loop stops at shift 0, because every mask is divisible by 1, so the value is never shifted into the mask | matSetSWxSetting with value 1 (mask 0xF0): the SWx field stays 0 | the value is shifted up to the mask's lowest bit before it is masked | high, not executed | LedMatrix.AsWrittenLosesSwxSetting | LedMatrix.SettingRoundTrip |
| software/esp-firmware/components/led_matrix/src/led_matrix.c:911-944 | matSetConfig always writes the configuration register (0x00), also for the pull-up and pull-down fields; the pull-select register (0x02) is defined but never written | matSetResistorPullupSetting with value 0 on a running matrix: the software-shutdown bit is cleared | the pull-resistor fields are written to the pull-select register | medium, not executed | LedMatrix.AsWrittenPullupShutsDown | LedMatrix.FieldsAreIsolated |
| software/esp-firmware/components/refresh/src/refresh.c:318-319 | the percentage is computed in uint32_t and passed to updateLED's uint8_t parameter, so it wraps modulo 256 | current speed 64 and typical 25: 256 % becomes 0 and shows the slow colour, while 63 shows the fast one | the percentage saturates at 255, so a faster road never shows a slower colour | medium, not executed | Refresh.AsWrittenColourNotMonotone | Refresh.ColourFollowsSpeed |
| software/esp-firmware/components/ota/src/ota.c:405-411 | a failed read in the middle of the file returns `err`, which holds ESP_OK at that point | a version file whose second read returns a negative count | an error is returned | high, not executed | Ota.MidReadFailureLooksLikeSuccess | Ota.MidReadFailure |
| software/server-software/fetch_tomtom_data.py:564-567 | a "Special" row's speed -2 is not mapped to 0 for the byte file, so `bytearray` raises ValueError | a CSV with one "Special" row in the requested direction | every negative sentinel becomes 0, as in the older lineage whose sentinel is 0 | medium, not executed | TomtomSpeeds.SpecialBreaksRawBytes | TomtomSpeeds.LegacyBytesFit |
| software/server-software/fetch_tomtom_two.py:288-306 | requestSpeeds returns False for refused rows, and `bytearray(False)` is empty, so main writes an empty file and returns True | a CSV with a duplicate LED number | main returns False and leaves the output files alone | high, not executed | FetchTwo.RefusedRunWritesEmptyFile | FetchTwo.CorrectionOnlyForRefusals |
