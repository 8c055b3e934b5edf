# ECG logger core: a verified model

A model of the logic inside a single-channel ECG logger sketch
(`src/main.cpp`, titled for an ESP8266 board). The device has an AD8232 front end, a DS3231 real-time clock
and an SD card. Five pieces of logic sit under the hardware set-up, and this
project models each of them and proves what it does:

- **Sub-second clock** (`subsecond.dfy`, module `SubSecond`). The RTC's 1 Hz
  square-wave interrupt stores `millis()` in the 16-bit `sub_second_counter`.
  `compute_mills` subtracts that origin from `millis()` and returns the
  difference as 16 bits. The class `SubSecondClock` holds the origin. `Tick`
  is the handler and `Elapsed` is the computation. Both take the value of
  `millis()` as a parameter, an unsigned 32-bit count that wraps. The proofs
  show three things. The reading is the elapsed time modulo 2^16. It is the
  exact elapsed time while that is below 2^16, across a 32-bit wrap too. It
  does not decrease within that window.
- **Lead-off sentinel** (`leadoff.dfy`, module `LeadOff`). `ecgReading`
  returns 0 when either lead-off pin reads 1. Otherwise it returns the
  analog value. The function also returns which inputs the code samples, in
  order, so that "the analog channel is not read while a lead is off" is a
  stated fact.
- **Record serialiser** (`numerals.dfy` and `record.dfy`, modules `Numerals`
  and `Record`). A `Reading` captures the RTC date and time, the
  sub-second clock and the sample. `writeToFile` renders them with
  `"%02d-%02d-%02d,%02d:%02d:%02d:%02d,%02d,"`. `Numerals.FormatD` is the
  `%0<width>d` conversion of section 7.21.6.1 of ISO/IEC 9899:2011: sign,
  zeros up to the field width, then every digit, never truncated.
  `Record.Format` is the whole format string. `Record.Parse` splits a line at
  its separators and reads each field back, and the two are proved to
  round-trip. The record's layout and its length bound for the 80-byte
  buffer are proved as well.
- **File store** (`sdstore.dfy`, module `SdStore`). The SD card is a class
  whose `files` field maps each file name to its lines. `sdWrite` (and
  `writeToFile`), `sdRead`, `sdExists` and `sdFileDelete` are its methods.
  Whether `SD.open` succeeds and whether `SD.remove` succeeds are boolean
  inputs.
- **Directory listing** (`listing.dfy`, module `Listing`). The directory tree
  is a recursive datatype. `printDirectory` is a recursive method with the
  source's two loops. It is proved equal to `DirLines`, a function giving one
  indented line per entry. `DirLines` is proved to be the pre-order walk of
  the tree rendered line by line, with one line per entry.

Where the logger's design intent and its code differ, the model follows the
code:

- The millisecond field is not bounded by 1000. It is the elapsed time since
  the last pulse modulo 2^16, so a missed pulse lets it grow past 999
  (`ElapsedAliasesAfterWindow`, `ElapsedIsTrueElapsed`). It stays below 1000
  only while pulses arrive within a second (`ElapsedBelowOneSecond`).
- Every field, the year, millisecond and sample included, is written with
  `%02d`. So the year is printed at full width (`2024`), a millisecond below
  10 takes two characters and one of 100 or more takes three to five, and a
  sample of 0 is printed as `00`.
- The main loop builds a `Reading` and never writes it. The model gives the
  write operation (`Record.WriteToFile`) and does not model the loop.

## Model

| member | source | states |
|---|---|---|
| `SubSecond.SubSecondClock.constructor` | src/main.cpp:50 | before any pulse the origin is 0 |
| `SubSecond.SubSecondClock.Tick` | src/main.cpp:106-108 | the handler stores the 32-bit counter truncated to 16 bits, and a reading taken at that instant is 0 |
| `SubSecond.SubSecondClock.Elapsed` | src/main.cpp:110-112 | the result is below 2^16 and is the unique value that brings the origin to the counter modulo 2^16 |
| `SubSecond.ElapsedIsTrueElapsed` | src/main.cpp:106-112 | if the last pulse came d < 2^16 ms ago, the reading is exactly d, even when `millis()` wrapped in between |
| `SubSecond.ElapsedMonotone` | src/main.cpp:110-112 | within 2^16 ms of a pulse, a later reading is never smaller than an earlier one |
| `SubSecond.ElapsedBelowOneSecond` | src/main.cpp:110-112 | while the last pulse came less than a second ago, the reading is below 1000 |
| `SubSecond.ElapsedAliasesAfterWindow` | src/main.cpp:110-112 | nothing caps the reading: 2^16 + k ms after a pulse it reads k |
| `LeadOff.EcgReading` | src/main.cpp:258-265 | 0 when either lead-off pin reads 1, otherwise the analog value unchanged; LO- is sampled only when LO+ is not 1, and the analog channel only when neither is 1 |
| `LeadOff.LeadsOffIgnoresAnalog` | src/main.cpp:258-265 | with a lead off, the sample is the same whatever the analog channel holds |
| `Numerals.Digits` | src/main.cpp:174 | a decimal numeral is one or more digits with no leading zero |
| `Numerals.FormatD` | src/main.cpp:87 | `%02d` output is at least the field width, ends with every digit of the value (never truncated) and starts with `-` exactly for a negative value |
| `Numerals.ParseFormatD` | src/main.cpp:87 | reading a `%0<width>d` numeral back gives the number written |
| `Numerals.FormatDLength` | src/main.cpp:86-87 | below 10^k the numeral takes at most k characters, plus one for a sign |
| `Record.FormatShape` | src/main.cpp:87 | the record is the eight fields as `%02d` writes them, separated and ended by `-`, `-`, `,`, `:`, `:`, `:`, `,`, `,` in that order |
| `Record.ParseFormat` | src/main.cpp:70-87 | splitting a record at its separators gives back day, month, year, hour, minute, second, millisecond and sample exactly |
| `Record.FormatLength` | src/main.cpp:86-87 | the record's length is the sum of its eight field widths plus eight separators |
| `Record.FormatFitsBuffer` | src/main.cpp:86-87 | with every field in [0, 100000) the record is at most 48 characters and fits the 80-byte buffer with its terminator |
| `Record.FormatFitsBufferForSourceTypes` | src/main.cpp:70-87 | with 8-bit RTC fields, a 16-bit year and millisecond and a 32-bit sample, the record fits the 80-byte buffer |
| `Record.Capture` | src/main.cpp:70-78 | a new `Reading` carries the RTC's date and time, the sub-second reading and the lead-off-checked sample |
| `Record.WriteToFile` | src/main.cpp:80-103 | when the file opens, the formatted record is appended to that file as one line and 1 is returned; otherwise nothing changes and 0 is returned |
| `SdStore.Appended` | src/main.cpp:212-232 | writing creates the file if absent and puts the line after all existing lines; every other file is unchanged |
| `SdStore.Removed` | src/main.cpp:245-255 | removing a file leaves every other file unchanged |
| `SdStore.SdCard.Exists` | src/main.cpp:235-242 | 1 exactly when the file is on the card, 0 exactly when it is not; nothing changes |
| `SdStore.SdCard.Write` | src/main.cpp:212-232 | when the file opens, one line is appended to that file only and 1 is returned; otherwise the card is unchanged and 0 is returned |
| `SdStore.SdCard.Read` | src/main.cpp:195-210 | returns 1 and emits the file's whole content exactly when the open succeeds, which needs the file to exist; otherwise returns 0 and emits nothing |
| `SdStore.SdCard.FileDelete` | src/main.cpp:245-255 | an absent file gives 0 and no change; a present file gives 1 whatever `SD.remove` reports, and it is gone exactly when the remove succeeded |
| `SdStore.AppendsKeepOrder` | src/main.cpp:212-232 | two writes to one file leave the two lines at its end in the order written |
| `SdStore.DeleteTwice` | src/main.cpp:245-255 | deleting a present file twice returns 1 then 0 and leaves the file removed |
| `SdStore.WriteThenRead` | src/main.cpp:195-232 | a line written and then read back appears as the file's last line after its earlier lines |
| `Listing.EntryLineShape` | src/main.cpp:163-175 | an entry's line is its tabs, then its name, then `/` for a directory, or for a file two tabs and a decimal numeral whose value is the file's size |
| `Listing.PrintDirectory` | src/main.cpp:157-178 | the lines printed for a directory at `numTabs` are exactly `DirLines` of its entries |
| `Listing.ListingIsPreOrder` | src/main.cpp:157-178 | the listing is the pre-order walk of the tree, each entry rendered at its own depth |
| `Listing.ListingLineAt` | src/main.cpp:157-178 | line i is the line of the i-th entry in pre-order, indented by `numTabs` plus its nesting depth |
| `Listing.PreOrderDepthAtLeast` | src/main.cpp:163-169 | no entry is listed with fewer tabs than the directory's `numTabs` |
| `Listing.DirectoryContentsOneDeeper` | src/main.cpp:167-169 | a directory's first entry is listed right after the directory's own line, one tab deeper |
| `Listing.ListingCountsEntries` | src/main.cpp:157-178 | the listing has exactly one line per entry of the tree, files and directories alike |

## Left out

- WiFi bring-up and its bounded retry loop, and the NTP client: network I/O, and the NTP time is never used.
- RTC set-up (`begin`, `adjust` from the build time, `lostPower`, square-wave mode, `attachInterrupt`): foreign library calls. `rtc.now()` is the input `Record.DateTime`.
- The interrupt preempting the main loop on the `volatile` counter: `Tick` is an ordinary call between readings. A reading that straddles a pulse is not modelled.
- SD and SPI initialisation, all `Serial` diagnostics and all `delay` calls: I/O and timing, with no effect on the modelled state.
- `setup()` and `loop()`: `loop()` builds a `Reading` and never writes it, so there is no persistence step to model there. The unused `sqlite3` and `ArduinoJson` includes are not part of this model.
- `SdStore.SdCard.Write`: models a successful `FILE_WRITE` open as append-or-create and `println` as adding one line, as the "writing line by line" comments at src/main.cpp:89 and src/main.cpp:217 intend. This holds only on a core where `FILE_WRITE` appends; a core that opens it with truncation would leave just the last line. The open mode and the line terminator belong to the SD and Print libraries, which are not part of this model.
- `SdStore.SdCard.Read`: streams the file one line at a time, where the source streams bytes until `available()` is 0. The content is the same sequence of lines, but the terminators between them are not modelled.
- `Listing.PrintDirectory`: the tab counter is a `uint8_t` in the source. With more than 255 tabs it would wrap and the loop would never end. The model counts without a bound, so it does not capture that case. Reaching it needs a tree more than 255 levels deep.
- `Record.Capture`: the `DateTime` accessors' own ranges are not checked. The fields are `int`, and negative values are rendered as `%02d` renders them.
