# GPSParser in Dafny

This project models `GPSParser`, a byte-at-a-time state machine for NMEA 0183 sentences, and
proves what it does. The parser:

- frames sentences on `$`;
- reads the address field and recognises RMC and GGA sentences from the GPS, GLONASS, Galileo
  and multi-GNSS talkers;
- splits the data fields on `,` into a 64-character scratch buffer;
- decodes UTC time, date and fix status from RMC sentences, and the satellite count from GGA
  sentences;
- keeps the running XOR checksum of every character between `$` and `*`, compares it with the
  two hexadecimal digits after `*` when CR or LF arrives, and on a match raises the ready flag of
  the sentence's kind.

The model covers the build the header selects (`USE_GGA` defined).

## Layout

- `nmea.dfy` (module `Nmea`) holds the header's constants and enums and the pure helpers:
  - `BuffSize`, the types `Char8` (a C `char`) and `uint8`, and the phases and sentence kinds;
  - `str2decimal` (`Str2Decimal`), `hexchar` (`HexChar`) and `check_message_id`
    (`CheckMessageId`).
- `parser_spec.dfy` (module `ParserSpec`) holds the parser's whole state as a value
  (`Snapshot`) and feeding one character as a function (`Step`), with one function per branch of
  `nmea_parse`:
  - `Restarted` for `reset`, `Cleared` for `clear_buf`, and `RmcRead`/`GgaRead` for the field
    readers;
  - `Run` feeds a stream of characters.
- `parser.dfy` (module `Parser`) holds the class `GPSParser` declared at GPSParser.h:40-78:
  - the source's fields, with the 64-character buffer as an `array`;
  - one method per source function that changes the object, and one method per branch of
    `nmea_parse`;
  - `str2decimal` and `check_message_id` are member functions of the C++ class, but they only
    compute a value from their arguments and the buffer, so they are the pure functions
    `Str2Decimal` and `CheckMessageId` of `Nmea`, called by the methods;
  - each method that models a source function or a branch of `nmea_parse` is proved to change
    the object exactly as the matching function of `ParserSpec` describes. Examples are
    `ClearBuf` and `Cleared`, `Reset` and `Restarted`, `NmeaParse` and `Step`, and
    `ChecksumChar` and `ChecksumStep`;
  - the helpers that carry out part of one source function (`ResetParseState`, `ClearOutputs`,
    `ReadTime`, `ReadDate`) instead state their effect on the fields directly;
  - `NmeaParse` keeps the class invariant `Valid()`. That invariant covers the buffer invariant
    (`WellFormed`) and the consistency invariant (`Consistent`). It also covers the running
    checksum: while the parser is between `$` and `*`, the checksum equals the XOR of the
    characters fed since the last `$`, which are tracked in the ghost field `sinceStart`.
- `step_properties.dfy` (module `StepProperties`) states what one character does in each phase,
  and proves the invariant every step keeps.
- `stream_properties.dfy` (module `StreamProperties`) states the same for whole character
  streams: the running checksum, the reading of a field, and the verdict on a complete sentence.

Integer widths are explicit:

- `checksum` and the received-checksum accumulator are `bv8`, so XOR, shift and OR wrap as
  `uint8_t` does.
- `token_number`, the numeric outputs and the results of `str2decimal` and `hexchar` are
  `uint8`. Conversions from C's `int` go through `ToUint8`, which is reduction modulo 256.
- Characters are `Char8`, with codes 0..255. Every use of a character in the source either
  compares it with an ASCII character or reduces it modulo 256, so the signedness of `char` does
  not change any result.

Behaviours of the code worth knowing, each modelled as the code does it:

- `reset` zeroes every numeric output and both ready flags on every `$`
  (GPSParser.cpp:51-63). The numeric outputs and both ready flags therefore do not survive
  the next `$`, whatever kind of sentence it starts; `valid` does, since `reset` never touches
  it (`DollarRestarts`).
- Fields are decoded into the outputs as soon as their comma arrives. The checksum is compared
  only later, so a sentence with a bad checksum still leaves its decoded fields in the outputs
  (`SentenceVerdict`, `CorruptedChecksumRejected`).
- An unrecognised address leaves the parser in the address phase (GPSParser.cpp:245-247); it
  does not move on to the data phase. Every later field of that sentence is then tested as an
  address, so `$GPGSV,GPRMC,...` is taken as RMC (`UnrecognisedAddressRetried`).
- `*` is handled before the checksum update (GPSParser.cpp:205-209), so it is never XORed into
  the running checksum. The pending field is dropped without being decoded. The test for `*`
  after the field readers (GPSParser.cpp:274-275) can never succeed (`StarEntersChecksum`).
- Every character after `*` other than CR, LF, `*` and `$` is shifted into the received
  checksum, so the last two such characters decide its value (`ReceivedChecksum`). A further
  `*` only empties the buffer again (GPSParser.cpp:205-209), and `$` starts a new sentence
  (GPSParser.cpp:193-197).
- `clear_buf` fills the emptied slots with NULs; it does not merely reset the fill index.

## Model

| member | source | states |
|---|---|---|
| Nmea.ToUint8 | GPSParser.cpp:68-71 | the C conversion of an `int` to `uint8_t`: the result lies in 0..255 and is the value itself when that already fits |
| Nmea.Str2Decimal | GPSParser.cpp:68-71 | for two ASCII digits the result is ten times the first digit plus the second, with no truncation |
| Nmea.HexChar | GPSParser.cpp:179-186 | a hexadecimal digit of either case reads as a value below 16, and a decimal digit as its own value |
| Nmea.CheckMessageId | GPSParser.cpp:156-172 | a recognised kind (RMC or GGA) is only ever given to an address that starts with an accepted talker ID |
| Nmea.ToUint8IsMod | GPSParser.cpp:68-71 | truncating a C `int` to `uint8_t` (as `str2decimal`, `hexchar` and `token_number++` do) is reduction modulo 256 |
| Nmea.Str2DecimalOfDigits | GPSParser.cpp:68-71 | two ASCII digits decode to a value below 100 whose two-digit form is exactly those digits |
| Nmea.Str2DecimalOfTwoDigits | GPSParser.cpp:68-71 | decoding the two-digit form of any 0..99 gives that value back |
| Nmea.HexCharOfHexDigitChar | GPSParser.cpp:179-186 | every hexadecimal digit of either case reads as a value 0..15 whose upper- or lower-case digit it is |
| Nmea.HexCharOfHexDigit | GPSParser.cpp:179-186 | reading the upper- or lower-case digit of any 0..15 gives that value back |
| Nmea.CheckMessageIdMeaning | GPSParser.cpp:156-172 | the kind is RMC exactly when the buffer starts with G, one of A/L/N/P, then "RMC"; GGA exactly when the same talker is followed by "GGA"; OTHER in every other case |
| ParserSpec.Initial | GPSParser.cpp:21-41 | a new parser is waiting, with an empty, well-formed buffer, both ready flags lowered and `valid` as given |
| ParserSpec.Restarted | GPSParser.cpp:43-66 | `reset` of a well-formed parser gives exactly a new parser's state, except that `valid` and the received-checksum accumulator keep their values |
| ParserSpec.Cleared | GPSParser.cpp:174-177 | emptying the buffer changes only the buffer and the fill index, which becomes 0; a well-formed buffer becomes all NULs |
| ParserSpec.RmcRead | GPSParser.cpp:118-138 | the RMC field reader changes nothing but the output fields |
| ParserSpec.GgaRead | GPSParser.cpp:91-100 | the GGA field reader changes nothing but the output fields |
| ParserSpec.FieldRead | GPSParser.cpp:259-268 | the reader chosen by the sentence kind changes nothing but the output fields |
| ParserSpec.AppendedExtends | GPSParser.cpp:240-242 | `Appended`, the store `buf[buf_pos++] = c`, puts the character right after those already buffered, moves the fill index up by one, keeps the buffer invariant and changes nothing else |
| ParserSpec.ChecksumStep | GPSParser.cpp:212-233 | after `*`, a character changes only the received checksum, the phase and the two ready flags; a raised flag is never lowered; unless the phase returns to WAIT, the received checksum is the old one shifted four bits left, ORed with the `hexchar` value |
| ParserSpec.Step | GPSParser.cpp:188-278 | feeding one character keeps the buffer invariant: 64 slots, fill index at most 64, NUL from the fill index on |
| ParserSpec.SentenceStep | GPSParser.cpp:235-277 | between `$` and `*`, a character is XORed into the running checksum, the parser stays between `$` and `*`, and the ready flags and the received checksum do not change |
| Parser.GPSParser.constructor | GPSParser.cpp:21-41 | a new parser is waiting, has kind OTHER, zero checksum, field index and outputs, lowered flags and an all-NUL buffer, and satisfies the class invariant |
| Parser.GPSParser.ClearBuf | GPSParser.cpp:174-177 | the loop counts the fill index down to 0, writing NUL into every slot below it and leaving the rest of the buffer as it was |
| Parser.GPSParser.Reset | GPSParser.cpp:43-66 | the object ends in `Restarted` of its old state: buffer cleared, parse state zeroed, numeric outputs and both flags cleared, `valid` and the received checksum kept |
| Parser.GPSParser.ResetParseState | GPSParser.cpp:46-49 | phase WAIT, kind OTHER, checksum and field index 0, nothing else changed |
| Parser.GPSParser.ClearOutputs | GPSParser.cpp:51-63 | both ready flags false and hour, minute, second, sub_sec, day, month, year and nsat all 0 |
| Parser.GPSParser.DataRmcReader | GPSParser.cpp:118-138 | the object ends in `RmcRead` of its old state |
| Parser.GPSParser.ReadTime | GPSParser.cpp:123-128 | hour, minute, second and sub_sec are decoded from buffer offsets 0, 2, 4 and 7 |
| Parser.GPSParser.ReadDate | GPSParser.cpp:132-136 | day, month and year are decoded from buffer offsets 0, 2 and 4 |
| Parser.GPSParser.DataGgaReader | GPSParser.cpp:91-100 | the object ends in `GgaRead` of its old state |
| Parser.GPSParser.NmeaParse | GPSParser.cpp:188-278 | the object ends in `Step` of its old state; it keeps the class invariant, so while the parser is between `$` and `*` the running checksum is the XOR of every character since the last `$` |
| Parser.GPSParser.Dispatch | GPSParser.cpp:193-277 | the branches of `nmea_parse` in the source's order (`$`, WAIT, `*`, CHECKSUM, sentence character) together change the object exactly as `Step` of its old state |
| Parser.GPSParser.StartSentence | GPSParser.cpp:193-197 | `$` resets, then enters the address phase |
| Parser.GPSParser.EnterChecksum | GPSParser.cpp:205-209 | `*` enters the checksum phase with an emptied buffer, changing nothing else |
| Parser.GPSParser.ChecksumChar | GPSParser.cpp:212-233 | the object ends in `ChecksumStep` of its old state |
| Parser.GPSParser.SentenceChar | GPSParser.cpp:235-277 | the object ends in `SentenceStep` of its old state |
| Parser.GPSParser.StoreChar | GPSParser.cpp:240-242 | the character is written at the fill index, which moves up by one |
| Parser.GPSParser.EndIdField | GPSParser.cpp:244-249 | the kind becomes `check_message_id` of the buffer, the phase becomes DATA only for a recognised kind, and the buffer is emptied |
| Parser.GPSParser.EndDataField | GPSParser.cpp:258-276 | the field is decoded by the sentence kind, the field index goes up by one modulo 256, and the buffer is emptied |
| StepProperties.XorAllSnoc | GPSParser.cpp:236 | one more character XORs into the checksum of a stream |
| StepProperties.StepChecksum | GPSParser.cpp:236 | one step keeps the running checksum equal to the XOR of the characters since the last `$`, with no `*` among them, while between `$` and `*` |
| StepProperties.DollarRestarts | GPSParser.cpp:193-197 | `$` in any state gives: phase ID, kind OTHER, checksum, field index and fill index 0, an all-NUL buffer, both flags false, every numeric output 0, and `valid` and the received checksum unchanged |
| StepProperties.WaitIgnores | GPSParser.cpp:199-202 | in WAIT every character but `$` leaves the whole state unchanged |
| StepProperties.StarEntersChecksum | GPSParser.cpp:205-209 | after `$`, `*` changes only the phase (to CHECKSUM) and the buffer (emptied); no field is decoded or counted |
| StepProperties.ChecksumDigit | GPSParser.cpp:214-218 | after `*`, a character other than CR, LF, `*` and `$` shifts the received checksum four bits left and ORs in its `hexchar` value, changing nothing else |
| StepProperties.ReceivedChecksum | GPSParser.cpp:212-218 | two such characters leave exactly their value `Received(h1, h2)` in the received checksum, whatever it held before |
| StepProperties.ReceivedOfHexDigits | GPSParser.cpp:179-186 | for two hexadecimal digits that value is 16 * hexchar(h1) + hexchar(h2) |
| StepProperties.ReceivedOfHexByte | GPSParser.cpp:215-216 | a byte written as two upper-case hexadecimal digits is received as itself |
| StepProperties.TerminatorFlags | GPSParser.cpp:220-232 | at CR or LF the time flag is set exactly when the checksums match and the kind is RMC, and the satellite flag exactly when they match and the kind is GGA; at most one flag changes; the received checksum becomes 0 and the phase WAIT |
| StepProperties.StoreStep | GPSParser.cpp:236-242 | between `$` and `*`, a character other than `,` is XORed into the checksum and stored at the fill index |
| StepProperties.AddressPhaseKeepsOutputs | GPSParser.cpp:239-250 | in the address phase no character but `$` changes an output |
| StepProperties.AddressComma | GPSParser.cpp:244-249 | `,` ending the address sets the kind to the address test's verdict; an unrecognised kind stays in the address phase; no output changes |
| StepProperties.DataComma | GPSParser.cpp:258-273 | `,` ending a data field applies the kind's field reader, adds one to the field index modulo 256 and empties the buffer; the phase and the kind are kept |
| StepProperties.EmptyFieldRead | GPSParser.cpp:120-121 | an empty field (NUL in the first slot) changes no output |
| StepProperties.UndecodedFieldRead | GPSParser.cpp:122-137 | every field other than RMC fields 0, 1 and 8 and GGA field 6 changes no output |
| StepProperties.RmcTimeRead | GPSParser.cpp:123-128 | RMC field 0 `hhmmss?cc` sets hour, minute, second and sub_sec to the values of its digit pairs, and nothing else |
| StepProperties.RmcStatusRead | GPSParser.cpp:129-131 | RMC field 1 sets `valid` to its first character |
| StepProperties.RmcDateRead | GPSParser.cpp:132-136 | RMC field 8 `ddmmyy` sets day, month and year to the values of its digit pairs, and nothing else |
| StepProperties.GgaSatellitesRead | GPSParser.cpp:95-99 | GGA field 6 sets nsat to the value of its two digits |
| StepProperties.InitialConsistent | GPSParser.cpp:21-41 | a new parser is consistent |
| StepProperties.StepConsistent | GPSParser.cpp:188-278 | every step keeps the parser consistent: no kind and no counted field in the address phase, a recognised kind in the data phase, no raised flag from `$` until the terminator, and never both flags raised |
| StreamProperties.WaitIgnoresStream | GPSParser.cpp:199-202 | a waiting parser ignores a whole stream that has no `$` |
| StreamProperties.RunningChecksum | GPSParser.cpp:236 | over any stream, the checksum between `$` and `*` is the XOR of the characters after the last `$`, and none of them is `*` |
| StreamProperties.RunConsistent | GPSParser.cpp:188-278 | a consistent parser stays consistent over any stream |
| StreamProperties.Reachable | GPSParser.cpp:188-278 | every state reached from a new parser is consistent and carries the running checksum of the current sentence |
| StreamProperties.FeedField | GPSParser.cpp:254-256 | the characters of a field are stored in order after those already buffered, and XORed into the checksum |
| StreamProperties.AddressField | GPSParser.cpp:239-250 | an address and its comma, read from an empty buffer, set the kind to `check_message_id` of the padded address, and move to DATA only if it is recognised |
| StreamProperties.DataField | GPSParser.cpp:253-276 | a data field and its comma decode the field as the reader sees it in the buffer, count it and empty the buffer |
| StreamProperties.RmcTimeField | GPSParser.cpp:123-128 | feeding `hhmmss.cc,` as RMC field 0 sets exactly hour, minute, second and sub_sec to the values written |
| StreamProperties.SentenceBody | GPSParser.cpp:235-277 | without `$` or `*` the parser stays between them, with the flags and the received checksum unchanged |
| StreamProperties.KindKept | GPSParser.cpp:253-277 | once a kind is recognised, it and the data phase last until `$` or `*` |
| StreamProperties.ChecksumTail | GPSParser.cpp:205-233 | `* h1 h2` and CR/LF inside a sentence raise its flag exactly when the checksum equals `Received(h1, h2)`, and change no other output |
| StreamProperties.SentenceVerdict | GPSParser.cpp:188-278 | for a complete sentence `$ p * h1 h2` CR/LF from any state: the time flag is raised exactly when XOR(p) equals the received value and the kind is RMC; the satellite flag likewise for GGA; every other output is as the fields of `p` left it |
| StreamProperties.MatchingChecksumAccepted | GPSParser.cpp:221-228 | a sentence carrying its correct checksum in upper-case hex raises the flag of its kind, RMC or GGA |
| StreamProperties.CorruptedChecksumRejected | GPSParser.cpp:221-228 | a sentence whose checksum digits do not carry XOR(p) raises no flag, and every other output is exactly as the fields of `p` left it |
| StreamProperties.AddressDecidesKind | GPSParser.cpp:245-247 | a recognised first field fixes the sentence's kind up to `*` |
| StreamProperties.UnrecognisedAddressRetried | GPSParser.cpp:245-247 | after an unrecognised address the next field is tested as an address in its turn |

## Left out

- Parser.GPSParser.NmeaParse: requires that a character to be stored finds a free slot (`CanStep`); `Step` has the same precondition, and `Run` gives `None` when a field would not fit. A field longer than 64 characters makes the source write past the end of `buf` (GPSParser.cpp:241, GPSParser.cpp:255); the model does not describe what that write does.
- The build without `USE_GGA` (GPSParser.cpp:269-271) is not modelled; only the configuration the header selects (GPSParser.h:22) is.
- `r_checksum` is a function-`static` variable (GPSParser.cpp:190) shared by every parser object. The model holds it as a field of each object: zero at construction, not cleared by `reset`. Coupling between two parsers through it is not modelled.
- The constructor never sets `valid` (GPSParser.cpp:21-41); the model leaves its initial value unspecified.
- The test for `*` after the field readers (GPSParser.cpp:274-275) can never succeed and is left out of `EndDataField`; `StarEntersChecksum` shows why.
- `private` and `public` are not modelled: Dafny has no access control, so the private helpers are ordinary methods of the class.
- No meaning is given to non-digit or non-hexadecimal input to `str2decimal` and `hexchar`; the model keeps their raw arithmetic modulo 256.
- The serial source of the characters, the `stdio`/`stdlib` includes (GPSParser.h:19-20), and any synchronisation between an interrupt that feeds the parser and a reader of its outputs are left out: they are I/O and concurrency.
