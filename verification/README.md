# Proofs about the tracker's firmware and its vendored libraries

A Dafny 4.11 project beside a Nixie tube tracker: firmware that fetches a number over HTTPS and shows it on Nixie
tubes, and the desktop side's copies of glog and gflags. Each module models the algorithm or protocol of one source
file in that file's own form (classes, arrays and loops where the source has them, functions where it has expressions)
and proves what the source is relied on for.

- **Value extractor and display** (`ByteSearch`, `ResponseWindow`, `Nixie`, `Decimal`, `NixieWiring`, `Bits`,
  `ShiftRegister`, `RegisterChain`, `Memory`). An HTTP body arrives in chunks; an online search with a small cyclic
  buffer agrees with searching the whole response. The digits are aligned, turned into cathodes and register bits, and
  clocked out one bit per poll; a model of the 74xx chain shows that the tubes display the fetched numeral.
  `Nixie.AppNixieData.FetchAndDisplay` puts it all together.
- **Real time clock driver** (`BcdFields`, `Rtc`, `RtcDriver`). A read-modify-write protocol polled over a bus that
  may answer "pending" any number of times, refuse a transfer, or fail after moving any part of it, against a 31-byte
  register file.
- **URLs** (`Strings`, `Url`, `UrlParser`) and **the HTTPS client's callback protocol** (`HttpsClient`). URL syntax is
  that of section 3 of RFC 3986. `Url` has splitting and composing, which undo each other; `UrlParser` has the
  C functions on memory with its terminator and the spare cell that the lengths two too large reach. `Tracker` puts
  the client and the application together for the one failure that is never reported.
- **Demangler** (`DemangleGrammar`, `Demangle`, `DemangleNames`, `DemangleRuns`). All parse functions over one state
  that is saved and restored as a whole: termination, progress, exact backtracking, bounds of what is written and read,
  and soundness for the grammar the comments give. `DemangleNames` has the functions and variables whose symbols are
  demangled to their names, for all identifiers; `DemangleRuns` follows the parse of three names on which it goes wrong.
- **gflags** (`FlagValues`, `Flags`, `ArgvOrder`, `FlagParser`, `CommandLines`, `FlagSaver`, `FlagFile`,
  `FlagFileSections`). Values, setting modes, the in-place permutation of argv against a recursive scan, saving and
  restoring, and the flag file format. `CommandLines` and `FlagFileSections` say what users write and what it makes of
  the flags.
- **glog** (`LineReader`, `Numerals`, `FnMatch`, `LogTruncation`). Buffered lines from short reads, numerals, the glob
  matcher, and the overlapping copy inside a log file.

`dafny verify dfyconfig.toml` checks everything.

## How the model reads the source

- Calls into the network, the bus, the file system and user callbacks are parameters (`Answers`, `Event`, short reads
  chosen by `:|`) that may be anything; the proofs hold for all of them. The sockets left open, the edges on the pins,
  the registers of the clock and the bytes received are kept beside the code's own fields. Whether the network is
  available is an answer too, although the source's own check is a stub that always says yes.
- Machine integers are unbounded except where width matters: 32-bit wrap-around in the demangler's numbers, 64-bit
  wrap-around in `Numerals` and in unsigned flags, 16-bit truncation of ports, bytes and masks as bit vectors.
- `memmove`, `memcpy`, `atoi`, `strtoll`, `strtoull`, `strchr` and `isspace` follow the C standard in the C locale;
  `atoi` and `strtoll` are read on unbounded integers, so an overflowing port is cut to 16 bits here.
- Where code and comments disagree the code is followed: the clock driver's header says the day of the week is ignored
  when the date is written, the code writes it; `ParsePrefix` and template prefixes are one function in the demangler,
  so they are one nonterminal here; the IN-12B decoder accepts a comma that the tube cannot show. The header of the
  Nixie application (line 110) has the tubes start with the least significant digit, on the right. Decoding does use
  the tube types in that order, but the cathode table in the other: the tube registered first gets the most significant
  digit, with the type registered last. All four tubes have the same type. Here "tube i" is the i-th registered.
- Results that hold only under a condition carry it exactly: the clock returns a date iff each component is at most 79,
  79, 39, 7, 39, 9 and 159; writing it leaves the other bits of every device alone iff each component is within those
  limits, modulo 160. Both fail for real dates: the mask of the month has no bit for its tens digit, so from October to
  December a date sets a bit that is not the month's and reads back as month 0 to 2. The glob matcher is right on
  star-free texts iff the pattern does not end with two stars. A second parse of argv changes nothing iff the first did
  not end at a flag without its value with other arguments there. An unsigned flag gets the number meant iff no minus
  sign hides behind white space other than blanks, or the number is zero. An HTTPS request ends without any report iff
  encryption was refused; such runs exist, and each leaves the application waiting for good (`Tracker.WaitsForEver`).
  Sockets are left open exactly by requests cut short (`HttpsClient.CutRequestLeavesSocket`).
- Two operations leave something behind when they fail. A fetch that failed stays the target of the next value, so
  the next periodic update goes to its caller and not to the tubes (`Nixie.AppNixieData.PeriodicAfterFailedFetch`).
  The clock driver keeps its continuation, and the next call on plain registers runs it, on a union whose first bytes
  that call has overwritten: a date left to be written is sent, a status question is answered with a bit of a register
  address, and a date left to be converted is converted again or seven bytes are written through a pointer that is
  none. Such a call has no other effect, for every date in its caller's structure, iff no continuation is left over
  (`Rtc.PlainCallIsClean`). Calls that set a continuation of their own are not affected (`Rtc.OwnCallsKeepPointers`).
- The union of the clock driver is laid out as on the 32-bit controller, pointers included, and its size is rounded up
  to a multiple of four: `RTC_MCP7940N_WriteNumRegisters` accepts 31 registers, one more than its own buffer has room
  for behind the address, and the last one goes to that padding. Each driver object has one date structure, one flag
  and one register buffer of its caller; writing through any other address is noted in `stray` and has no effect here.
- A transfer that fails may have moved any of its first bytes. A date is then written in part: the first registers new,
  the others old, and nothing outside the seven (`Rtc.WriteDateRun`).
- The grammar comment at `demangle.cc:599` takes lengths of source names for non-negative, but `ParseIdentifier`
  rejects only -1: at any length below, the source moves its cursor back, possibly for ever. There the model lets the
  source name fail and sets `derailed`; as long as that flag is not set, the run is the source's own. It is set only if
  some number below -1 stands where a source name may be looked for (`DemangleGrammar.LengthsNotNegative`). Those
  places are described by the characters in front of them, so they are somewhat more than the parse really visits.
  They leave out the offsets of thunks, which may be negative, literals such as the one in `_Z1fILin5EEvv`, and the
  identifiers of ordinary symbols (`DemangleNames.OrdinaryLengths`). On
  `_ZNn2E` the source's own parse gets to such a number and stays there (`DemangleRuns.PrefixStandsStill`).
- The demangler can succeed without a text: a source name of length 0, a nested name without parts and a constructor in
  front of any name are accepted and print nothing, not even a terminator. The model notes them in `silent`; unless it
  is set, a success leaves a terminated text. On `_Z0` the source succeeds and does not touch the output
  (`DemangleRuns.NothingIsShown`). A symbol is ordinary (`DemangleGrammar.OrdinarySymbol`) if it consists of `_Z`, a
  source name with a positive length or up to 32767 of them between N and E, and letters of builtin types; templates
  and the other kinds of names are not. A variable in a scope needs room for two characters more than its name has, since a
  separator is written behind it and taken back; a function needs no more, since its parentheses take that room.
- The demangler prints a constructor by copying from its own output. Until the output overflows, every character it
  copies lies inside what was written: reading it requires so (`Demangle.Demangler.Peek`). After an overflow the
  separators taken back were never written, and the copy may start behind the text and leave the buffer; what is there
  is an arbitrary character. `DemangleRuns.ReadsBehindOutput` follows a parse that copies such a character.
- A URL whose scheme is not followed by two slashes and three more characters has all of the rest taken for its suffix,
  less the last two characters (`UrlParser.SuffixIsCut`). With fewer than two, the length wraps around and whole
  buffers are filled from memory behind the URL, which is required to be there.
- The flags flagfile, fromenv and tryfromenv make gflags read further flags from a file or the environment at once,
  unless they are empty. That is not followed here; the parser notes it in `strayed`, and as long as that is not set
  the results are the source's. `FlagFile.PrintThenRead` excludes such flags in `Printable`.

## Model

| member | source | states |
|---|---|---|
| ByteSearch.Memmem | firmware/src/gcc/memmem.c:37-60 | returns the first position of the needle, or nothing exactly when it does not occur |
| ByteSearch.DigitPrefixUnique | firmware/src/app_nixie.c:85-108 | the value of a text is its longest prefix of digits, at most one per tube, and there is only one such prefix |
| ByteSearch.ValueExists | firmware/src/app_nixie.c:221-241 | a response has a value exactly when the token is in it |
| ByteSearch.ValueIsUnique | firmware/src/app_nixie.c:85-108 | a response has at most one value: what follows the first token decides it |
| ResponseWindow.SearchWindow | firmware/src/app_nixie.c:110-219 | searching the kept bytes and the new chunk finds what searching everything received would find |
| ResponseWindow.SettledStays | firmware/src/app_nixie.c:115-119 | a value once decided is not changed by any further chunk |
| ResponseWindow.ValueAtHand | firmware/src/app_nixie.c:167-210 | digits taken from the buffer or chunk are the digits behind the first token of the whole response |
| ResponseWindow.ValueToCome | firmware/src/app_nixie.c:158-217 | keeping the bytes from the token on is enough to finish the value later |
| ResponseWindow.FoundInChunk | firmware/src/app_nixie.c:174-176 | a token that is not in the joined buffer is either new in the chunk, at the same place in the whole, or nowhere |
| ResponseWindow.FoundNowhere | firmware/src/app_nixie.c:176-202 | without a token the last token-plus-value bytes are all that must be kept |
| ResponseWindow.EndOfResponse | firmware/src/app_nixie.c:221-241 | when the response ends, an undecided buffer holds the token at offset 0 or the response holds no token at all |
| Nixie.AppNixieData.constructor | firmware/src/app_nixie.c:465-591 | the object starts idle with its buffers sized for the tubes and the token |
| Nixie.AppNixieData.ParseValueFromBuffer | firmware/src/app_nixie.c:85-108 | writes the leading digits, last digit first, and NUL in the cells behind them |
| Nixie.AppNixieData.BufferReceivedCallback | firmware/src/app_nixie.c:110-219 | for every chunk: the buffer stays within its maximum and the window or the decided value stays right for all bytes received so far |
| Nixie.AppNixieData.MoveTokenToFront | firmware/src/app_nixie.c:138-157 | the token is moved to offset 0 and the freed space is filled with the next bytes of the chunk |
| Nixie.AppNixieData.KeepTail | firmware/src/app_nixie.c:184-202 | the buffer ends as the last bytes of what it held and the chunk together |
| Nixie.AppNixieData.RequestHandledCallback | firmware/src/app_nixie.c:221-241 | a value is parsed iff the whole response contains the token, and it is the digits behind the first one |
| Nixie.AppNixieData.ReceiveResponse | firmware/src/app_nixie.c:110-241 | for every response and every way of cutting it into chunks: value parsed iff the token occurs, and it is the right value |
| Nixie.AppNixieData.WaitHttpsClientAndSendRequest | firmware/src/app_nixie.c:249-276 | a new request forgets the previous response and waits or fails as the client answers |
| Nixie.AppNixieData.FailedResponse | firmware/src/app_nixie.c:243-247 | a response that breaks off after any chunks: one task later idle, tubes, registers, cathodes and a waiting fetch untouched, and the display value too unless the token had come; a periodic request is due again soon |
| Decimal.ShuffledParsed | firmware/src/app_nixie.c:278-318 | shuffling what parsing wrote gives the digits right-aligned with zeros in front |
| Decimal.AlignedKeepsValue | firmware/src/app_nixie.c:278-318 | the right-aligned cells have the decimal value of the fetched text |
| Decimal.ReadingCells | firmware/src/app_nixie.c:278-318 | reading the cells as a numeral gives the value of the cells |
| Nixie.AppNixieData.ShuffleServerValueDigits | firmware/src/app_nixie.c:278-318 | the in-place shuffle equals the shuffle on values, and a waiting fetch receives the same cells |
| NixieWiring.CathodesOfDigits | firmware/src/app_nixie.c:58-83 | in both tube types decoding gives a digit the cathode that is registered under that digit, and no other |
| NixieWiring.OnlyTheCommaIsNotDisplayable | firmware/src/app_nixie.c:58-83 | every symbol with a cathode is on the tube, except the comma of the IN-12B |
| Nixie.AppNixieData.DecodeDisplay | firmware/src/app_nixie.c:345-365 | each tube is given the cathode of its symbol |
| NixieWiring.LightOne | firmware/src/app_nixie.c:383-398 | setting one more cathode bit lights that cathode and no other |
| Nixie.AppNixieData.EncodeRegisters | firmware/src/app_nixie.c:367-401 | register bit 8*byte+bit is set iff some tube is to light a cathode wired to it |
| Nixie.AppNixieData.WriteRegisters | firmware/src/app_nixie.c:403-421 | the register bytes are handed to the transmitter |
| Nixie.AppNixieData.Tasks | firmware/src/app_nixie.c:593-636 | one call in every state: when a periodic request starts, how errors are left, how a request waits and is submitted, and each step of shuffling and display; whatever a state does not name stays |
| Nixie.AppNixieData.PerformPeriodicTasks | firmware/src/app_nixie.c:438-460 | a request starts iff periodic tasks are enabled, due and the network is usable, and the next one is due thirty seconds later |
| Nixie.AppNixieData.Fetch | firmware/src/app_nixie.c:661-673 | refused while busy; otherwise a request begins and the caller waits for its value |
| Nixie.AppNixieData.WaitAndWrite | firmware/src/app_nixie.c:403-413 | with the transmitter busy in any state, the main loop comes to hand it exactly the encoded registers, nothing else having changed |
| Nixie.AppNixieData.DisplaySequence | firmware/src/app_nixie.c:278-421 | from a parsed value to idle, whatever the transmitter was doing: the latched chain shows exactly the aligned digits |
| Nixie.AppNixieData.FetchAndDisplay | firmware/src/app_nixie.c:110-421 | end to end: the tubes show the digits behind the first token of the response, and stay as they were if there is none |
| Nixie.AppNixieData.FetchForCaller | firmware/src/app_nixie.c:304-312 | the same for a value somebody asked for: they get the aligned digits and the tubes stay; without a token they wait on |
| Nixie.AppNixieData.PeriodicAfterFailedFetch | firmware/src/app_nixie.c:438-460 | after a fetch that failed, the value of the next periodic request goes to that caller and the tubes are not updated |
| Nixie.TubesReadDigits | firmware/src/app_nixie.c:278-318 | in the order the tubes are registered they read zeros and then the fetched digits |
| Nixie.TubesReadTheNumeral | firmware/src/app_nixie.c:278-413 | the number on the tubes is the number fetched |
| NixieWiring.TubesShowCells | firmware/src/app_nixie.c:367-401 | with injective wiring each tube lights its own symbol and nothing else |
| NixieWiring.TransmissionShowsCells | firmware/src/app_shift_register.c:75-150 | after the transmission the outputs decode back to the cells |
| NixieWiring.TrackerWiringIsInjective | firmware/src/app_nixie.c:479-560 | the wiring table of the device gives every cathode its own register bit |
| NixieWiring.RegisteredBits | firmware/src/app_nixie.c:499-560 | the wiring table of the device has, for every tube and cathode, the register bit of the line that names the symbol of that cathode |
| NixieWiring.DigitsHaveTheirBits | firmware/src/app_nixie.c:58-83 | for every tube and digit, the bit that decoding leads to is the one registered for that digit |
| NixieWiring.TrackerReads | firmware/src/app_nixie.c:499-560 | read by the registered bits alone, outputs that show a text show it: of the ten bits of a tube exactly the one registered for its digit is on |
| Nixie.AppNixieData.FetchOnTracker | firmware/src/app_nixie.c:110-560 | on the tracker itself: after a fetch, of the bits registered for the digits of each tube exactly the one of the fetched digit is on |
| ShiftRegister.AppShiftRegisterData.SendData | firmware/src/app_shift_register.c:195-208 | copies the bytes and starts a transmission |
| ShiftRegister.AppShiftRegisterData.Tasks | firmware/src/app_shift_register.c:161-179 | one poll of the object is one step of the transmitter |
| ShiftRegister.AppShiftRegisterData.PollUntilIdle | firmware/src/app_shift_register.c:161-183 | polling ends after exactly 19n+1 calls with the waveform of the data |
| ShiftRegister.NextPoll | firmware/src/app_shift_register.c:89-150 | each poll moves the transmitter to the next slot of the schedule |
| ShiftRegister.TransmissionSchedule | firmware/src/app_shift_register.c:75-150 | poll 19q+r+1 finds the transmitter in slot r of byte q, with exactly the edges sent so far |
| ShiftRegister.BusyUntilTheEnd | firmware/src/app_shift_register.c:161-183 | no earlier poll finds it idle |
| ShiftRegister.TransmissionResult | firmware/src/app_shift_register.c:75-150 | at the end: one rising shift edge per bit, bytes in order and most significant bit first, then one latch |
| ShiftRegister.OnePollLess | firmware/src/app_shift_register.c:161-183 | from any state each poll brings a busy transmitter exactly one poll nearer to idle |
| RegisterChain.StagesAfterShifts | firmware/src/app_shift_register.c:30-73 | the chain holds the levels shifted in, the last one first |
| RegisterChain.LatchedOutputs | firmware/src/app_shift_register.c:75-150 | output pin 8*byte+bit of the chain is that bit of that byte of the register state |
| Bits.OrSetsOneBit | firmware/src/app_nixie.c:383-398 | or-ing a mask into a byte sets that bit and leaves the others |
| BcdFields.FieldRoundTrip | firmware/src/rtc_mcp7940n.c:53-63 | a component comes back from its masked BCD field iff it fits |
| BcdFields.FieldKeepsOtherBits | firmware/src/rtc_mcp7940n.c:262-269 | updating a field leaves the other bits of its register iff no digit bit outside the mask meets a clear bit |
| BcdFields.BcdStaysInField | firmware/src/rtc_mcp7940n.c:53-55 | the digits of a value stay under the mask iff it fits, or fits after the tens digit has wrapped at 160 |
| BcdFields.LateMonths | firmware/src/rtc_mcp7940n.c:268 | October to December always set a bit outside the month mask and read back as 0 to 2 |
| Rtc.PollKeepsValid | firmware/src/rtc_mcp7940n.c:290-364 | every poll, with failures and refused handles, keeps the transfer within the buffers and state NONE without a next task |
| Rtc.StartsAreValid | firmware/src/rtc_mcp7940n.c:371-506 | each of the ten public calls, from any state that is not busy, starts a transfer within the buffers, or fails iff the bus gives no handle |
| Rtc.ProgramsKeepValid | firmware/src/rtc_mcp7940n.c:352-506 | over any program of polls and calls that asks whether the driver is busy: transfers stay within the buffers, and NONE always means nothing is left to do |
| Rtc.WriteDateRun | firmware/src/rtc_mcp7940n.c:254-273 | an error-free write ends idle with the date in the device; in every run, whatever fails half-way or is refused, the first registers hold the new date and the others are as before |
| Rtc.ReadDateRun | firmware/src/rtc_mcp7940n.c:275-288 | an error-free read ends idle with the converted registers, and no run touches the device |
| Rtc.WriteThenRead | firmware/src/rtc_mcp7940n.c:371-399 | the date read back is the date written iff every component fits its field |
| Rtc.WritingKeepsOtherBits | firmware/src/rtc_mcp7940n.c:254-273 | writing digits changes only the bits of the date iff no digit bit outside its mask meets a clear bit of the device |
| Rtc.SafeOnEveryDevice | firmware/src/rtc_mcp7940n.c:374-375 | a date leaves all other bits of every device alone iff each component stays in its field |
| Rtc.CalendarDates | firmware/src/rtc_mcp7940n.c:262-269 | of the dates of the calendar exactly those up to September fit and stay in their fields |
| Rtc.WriteDateRunKeepsOtherBits | firmware/src/rtc_mcp7940n.c:371-385 | the same condition for complete error-free runs of the driver |
| Rtc.EnableRun | firmware/src/rtc_mcp7940n.c:192-242 | enabling or disabling changes one bit of one register, and in a run that fails that bit or nothing |
| Rtc.SetFlagIsLocal | firmware/src/rtc_mcp7940n.c:192-242 | the flag ends as asked and the other bits of its register stay |
| Rtc.StatusRun | firmware/src/rtc_mcp7940n.c:213-252 | in every error-free run with any pending polls the answer is the bit of the device and the next poll is idle; no run changes the device |
| Rtc.EnableThenAsk | firmware/src/rtc_mcp7940n.c:192-252 | asked behind an error-free run that switched the oscillator or the battery, the answer is what was switched |
| Rtc.StartKeepsPointers | firmware/src/rtc_mcp7940n.c:371-506 | each of the six calls with a continuation stores the pointer its continuation needs, and writes through none |
| Rtc.OwnCallsKeepPointers | firmware/src/rtc_mcp7940n.c:213-364 | over any program of polls and of those six calls, failures included, a waiting continuation finds the pointer stored for it, and none has written through another |
| Rtc.PlainCallRun | firmware/src/rtc_mcp7940n.c:401-449 | the four calls on plain registers with no continuation left over: an error-free run moves exactly the registers asked for and ends idle, any run the first ones of them; the date structure and the flag of the caller stay |
| Rtc.WriteRegisterRun | firmware/src/rtc_mcp7940n.c:412-423 | with no continuation left over, writing a register changes it and nothing else, or nothing when it fails; the date structure and the flag of the caller stay |
| Rtc.CleanContinuation | firmware/src/rtc_mcp7940n.c:289-320 | a continuation does nothing for the caller iff there is none, or it converts a date to itself through the right pointer |
| Rtc.PlainCallEffect | firmware/src/rtc_mcp7940n.c:401-449 | a call on plain registers does no more than it should iff no continuation is left over, or one that converts a date to itself |
| Rtc.PlainCallIsClean | firmware/src/rtc_mcp7940n.c:401-449 | for every date in the structure of the caller that is: iff no continuation is left over |
| Rtc.WriteAfterFailedRead | firmware/src/rtc_mcp7940n.c:275-288 | after a read of a date that fails, writing a register converts the date again if its two bytes are the front of the address of the structure; otherwise seven bytes are written through an address that starts with them |
| Rtc.WriteAfterFailedQuestion | firmware/src/rtc_mcp7940n.c:213-219 | after a status question that fails, writing a register answers it with a bit of the register address |
| Rtc.FailureLeavesContinuation | firmware/src/rtc_mcp7940n.c:322-325 | a write of a date that fails keeps its continuation |
| Rtc.LeftoverContinuation | firmware/src/rtc_mcp7940n.c:289-320 | seen from the device: after such a failure writing a register makes its own transfer only iff the continuation left over submits none |
| Rtc.LeftoverDate | firmware/src/rtc_mcp7940n.c:254-273 | with the continuation of a date left over, writing some register sends the old date as well, with the top bit of the value written in its seconds |
| RtcDriver.RtcMcp7940n.constructor | firmware/src/rtc_mcp7940n.c:335-350 | not busy, and idle iff the bus could be opened |
| RtcDriver.RtcMcp7940n.I2cSubmit | firmware/src/rtc_mcp7940n.c:103-155 | refused with an error while a transfer is pending or when the bus gives no handle |
| RtcDriver.RtcMcp7940n.Tasks | firmware/src/rtc_mcp7940n.c:352-364 | one poll of the driver object is one poll of the specification |
| RtcDriver.RtcMcp7940n.PostStatusReceive | firmware/src/rtc_mcp7940n.c:213-219 | the answer goes through the pointer in the union, wherever that leads |
| RtcDriver.RtcMcp7940n.ConvertFromBcd | firmware/src/rtc_mcp7940n.c:275-288 | the in-place loop converts the structure that the pointer in the union leads to |
| RtcDriver.RtcMcp7940n.TaskCheckStatus | firmware/src/rtc_mcp7940n.c:290-330 | the continuation in next_task runs when the transfer is done, with the union overlay as in the source |
| RtcDriver.RtcMcp7940n.WriteDateAndTime | firmware/src/rtc_mcp7940n.c:371-385 | saves the date and starts reading the registers; busy afterwards iff the bus gave a handle |
| RtcDriver.RtcMcp7940n.ReadDateAndTime | firmware/src/rtc_mcp7940n.c:387-399 | stores the pointer in the union and starts reading into the caller's structure; busy afterwards iff the bus gave a handle |
| RtcDriver.RtcMcp7940n.ReadRegister | firmware/src/rtc_mcp7940n.c:401-410 | starts reading one register, keeping the continuation there is |
| RtcDriver.RtcMcp7940n.WriteRegister | firmware/src/rtc_mcp7940n.c:412-423 | starts writing one register, keeping the continuation there is |
| RtcDriver.RtcMcp7940n.ReadNumRegisters | firmware/src/rtc_mcp7940n.c:425-437 | starts reading registers from the first on |
| RtcDriver.RtcMcp7940n.WriteNumRegisters | firmware/src/rtc_mcp7940n.c:439-449 | starts writing registers from the first on, all 31 if need be |
| RtcDriver.RtcMcp7940n.EnableOscillator | firmware/src/rtc_mcp7940n.c:451-464 | starts the read-modify-write of the oscillator bit |
| RtcDriver.RtcMcp7940n.EnableBatteryBackup | firmware/src/rtc_mcp7940n.c:479-492 | starts the read-modify-write of the battery bit |
| RtcDriver.RtcMcp7940n.OscillatorStatus | firmware/src/rtc_mcp7940n.c:466-477 | stores the pointer in the union and starts the question for the oscillator bit |
| RtcDriver.RtcMcp7940n.BatteryBackupStatus | firmware/src/rtc_mcp7940n.c:494-506 | stores the pointer in the union and starts the question for the battery bit |
| RtcDriver.RtcMcp7940n.SetAndReadBack | firmware/src/rtc_mcp7940n.c:371-399 | the driver object itself: writing and then reading gives the date back iff it fits |
| UrlParser.StrchrLen | firmware/src/util_string.c:34-47 | the first such character within the length, stopping at the terminator |
| UrlParser.StrchrAnyLen | firmware/src/util_string.c:55-68 | the first of several characters within the length, stopping at the terminator |
| UrlParser.SafeStrncpyLen | firmware/src/util_string.c:80-91 | the buffer shows the longest prefix that leaves room for the terminator, even when the length is two too large |
| UrlParser.ParseScheme | firmware/src/util_url.c:33-51 | the scheme, and the default port 443 or 80 |
| UrlParser.ParseUserAndPassword | firmware/src/util_url.c:55-76 | user up to the first colon, password behind it or empty |
| UrlParser.ParseHostAndPort | firmware/src/util_url.c:80-99 | host up to the first colon; a port behind it is read and cut to 16 bits |
| UrlParser.ParseAuthority | firmware/src/util_url.c:103-130 | credentials up to the first at sign, then host and port |
| UrlParser.ParsePathQueryAndFragment | firmware/src/util_url.c:134-170 | of the text within the length: fragment behind the first hash, query behind the first question mark in front of it, path before |
| UrlParser.ParsePastScheme | firmware/src/util_url.c:174-221 | authority up to the first slash, question mark or hash, the rest as suffix; no suffix gives the root path; without two slashes and three more characters all of it is taken for the suffix |
| UrlParser.SuffixIsCut | firmware/src/util_url.c:224-261 | such a suffix loses its last two characters, so it is whole iff it has fewer than two |
| UrlParser.UrlParseGetParts | firmware/src/util_url.c:224-261 | false and nothing written without a colon; otherwise every output shows its component of the URL, or the suffix such a URL has |
| UrlParser.LastPartStaysInside | firmware/src/util_url.c:183-209 | the copy of the last part, whose length is two too large, stays inside memory that ends with the terminator iff the buffer has no room for both |
| Url.SplitThenCompose | firmware/src/util_url.c:224-261 | the components of any URL with slashes, put together again, are that URL |
| Url.ComposeThenSplit | firmware/src/util_url.c:224-261 | well-formed components are what is found in the URL made of them |
| Url.AtoiStops | firmware/src/util_url.c:93-97 | reading the port does not depend on the path behind it |
| Url.CanonicalPort | firmware/src/util_url.c:93-97 | a port written as a decimal numeral is read as that 16-bit port |
| UrlParser.ExplicitPort | firmware/src/util_url.c:93-97 | in the URL made of well-formed components, a port written as a numeral is the port, whatever the scheme |
| UrlParser.MissingPort | firmware/src/util_url.c:33-51 | without a port it is 443 for schemes that start with https, 80 for others that start with http, and otherwise what it was before |
| HttpsClient.UrlBufferIsEnough | firmware/src/app_https_client.c:124-142 | the URL buffer of the client has the spare cell iff the URL has at most 126 characters; beyond that the copy of the path stays inside iff its own buffer is too small for the path and two more |
| HttpsClient.PollKeepsProtocol | firmware/src/app_https_client.c:440-486 | whatever the network answers, a poll keeps the callback protocol |
| HttpsClient.SubmitKeepsProtocol | firmware/src/app_https_client.c:492-507 | a submission opens a session only when the client is idle |
| HttpsClient.RunsFollowProtocol | firmware/src/app_https_client.c:325-507 | in every run: callbacks of a request are a prefix of error, or of buffers and one completion, and go to that requester |
| HttpsClient.IdleAccounts | firmware/src/app_https_client.c:325-507 | when idle every request has had its final report, or was refused encryption and had none; sockets left open are those of requests cut short |
| HttpsClient.RequestEndsSilently | firmware/src/app_https_client.c:325-351 | there are runs that end a request without any report: any secure request on a network that refuses encryption |
| HttpsClient.CutRequestLeavesSocket | firmware/src/app_https_client.c:370-426 | there are runs that leave a socket open: any request the network takes in part only |
| HttpsClient.EveryStageIsPassed | firmware/src/app_https_client.c:440-507 | in every run from an idle client: a request has got as far as it has only because, since it was accepted, the network has answered so at every stage behind it, and the address it uses is of a family that was found |
| HttpsClient.SecureRequestsAreSecured | firmware/src/app_https_client.c:325-368 | so a request for a secure URL that is sent or waits for its response has, since it was accepted, seen a poll that found its connection secure |
| HttpsClient.PollOutcome | firmware/src/app_https_client.c:155-426 | whether a poll of a request under way waits, fails it or brings it on is decided by the answers alone |
| HttpsClient.FailureIsReported | firmware/src/app_https_client.c:353-426 | a request that fails, a refused negotiation included, ends at the next poll with exactly one error and no socket open but of cut requests |
| Tracker.RefusedRequest | firmware/src/app_nixie.c:249-276 | any request of the application for a secure URL can come to a connection that is refused encryption |
| Tracker.WaitsForEver | firmware/src/app_nixie.c:616-618 | from that poll on, however often both are polled and whatever the network answers, nothing is reported, the application waits for the response and every fetch is refused |
| HttpsClient.ResponseIsDelivered | firmware/src/app_https_client.c:397-417 | on a network that delivers, the requester gets exactly the chunks in order, then one completion |
| HttpsClient.AppHTTPSClientData.constructor | firmware/src/app_https_client.c:431-438 | the client starts idle |
| HttpsClient.AppHTTPSClientData.Tasks | firmware/src/app_https_client.c:440-486 | one poll of the object is one step, with the callbacks of that step |
| HttpsClient.AppHTTPSClientData.Request | firmware/src/app_https_client.c:492-507 | accepted iff idle; then the callbacks and as much of the URL as fits 127 characters are taken over, otherwise nothing changes |
| HttpsClient.AppHTTPSClientData.ProcessTheRequest | firmware/src/app_https_client.c:155-207 | direct addresses skip the name lookup; otherwise a lookup in the configured mode starts or fails |
| HttpsClient.AppHTTPSClientData.CheckDnsResolveStatus | firmware/src/app_https_client.c:209-274 | a failed IPv6 lookup asks again for IPv4, any other failed lookup is an error |
| HttpsClient.AppHTTPSClientData.StartNetworkConnection | firmware/src/app_https_client.c:276-323 | a socket is opened or the request fails |
| HttpsClient.AppHTTPSClientData.WaitNetworkConnection | firmware/src/app_https_client.c:325-344 | https asks for encryption and closes when refused; http goes on in clear text |
| HttpsClient.AppHTTPSClientData.WaitForSsl | firmware/src/app_https_client.c:353-368 | a failed negotiation closes the socket and reports an error |
| HttpsClient.AppHTTPSClientData.SendTheRequest | firmware/src/app_https_client.c:370-395 | a request written in part only is an error and leaves the socket open |
| HttpsClient.AppHTTPSClientData.WaitForTheResponse | firmware/src/app_https_client.c:397-417 | data is reported before the end of the connection is |
| HttpsClient.AppHTTPSClientData.HandleError | firmware/src/app_https_client.c:419-426 | the error is reported once and the client is idle |
| Demangle.Demangler.constructor | software/external/glog/src/demangle.cc:187-200 | the state of a fresh parse |
| Demangle.Demangler.ParseOneCharToken | software/external/glog/src/demangle.cc:203-211 | moves over the token iff it is there |
| Demangle.Demangler.ParseTwoCharToken | software/external/glog/src/demangle.cc:214-222 | moves over both characters iff they are there |
| Demangle.Demangler.ParseCharClass | software/external/glog/src/demangle.cc:225-234 | moves over one character iff it is of the class |
| Demangle.Demangler.Append | software/external/glog/src/demangle.cc:265-279 | copies as much as fits behind what was written, which stays, and marks an overflow; until then every character copied from the output lies inside what was written |
| Demangle.Demangler.MaybeAppendWithLength | software/external/glog/src/demangle.cc:322-338 | behind what was written comes the text handed over, an identifier is remembered, and with the append flag off nothing changes; a piece of the output has to lie inside what was written unless that has overflowed |
| Demangle.Demangler.MaybeAppendSeparator | software/external/glog/src/demangle.cc:381-385 | inside a nested name two characters are added, and until an overflow they are behind the name remembered |
| Demangle.Demangler.MaybeCancelLastSeparator | software/external/glog/src/demangle.cc:388-394 | takes the two characters of a separator back, iff appending inside a nested name with two characters there |
| Demangle.Demangler.IsFunctionCloneSuffix | software/external/glog/src/demangle.cc:298-319 | true iff the rest is a sequence of clone suffixes |
| Demangle.Demangler.ParseNumber | software/external/glog/src/demangle.cc:628-651 | the number with 32-bit wrap-around, and the cursor behind it |
| Demangle.Demangler.ParseFloatNumber | software/external/glog/src/demangle.cc:654-667 | one or more hexadecimal digits |
| Demangle.Demangler.ParseSeqId | software/external/glog/src/demangle.cc:670-682 | one or more digits or capitals |
| Demangle.Demangler.ParseIdentifier | software/external/glog/src/demangle.cc:685-699 | moves by that many characters, never past the terminator, for every length except -1; a negative one moves the cursor back |
| Demangle.Demangler.ParseSourceNameUnchecked | software/external/glog/src/demangle.cc:600-612 | for any length that stays inside the name: the cursor ends at the length added to the end of the number |
| Demangle.Demangler.ParseSourceName | software/external/glog/src/demangle.cc:600-612 | a length and as many characters, appended to the output; fails and restores iff there are none; derails iff the length is below -1; a plain one is read to its end and shown |
| Demangle.Demangler.ParseLocalSourceName | software/external/glog/src/demangle.cc:615-625 | backtracking is exact |
| Demangle.Demangler.ParseMangledName | software/external/glog/src/demangle.cc:474-478 | on failure only the prefix _Z may have been consumed |
| Demangle.Demangler.ParseEncoding | software/external/glog/src/demangle.cc:481-495 | strict progress and exact backtracking; what is consumed is an encoding; an ordinary one is taken to the end and its text added, or cut off exactly if it has no room |
| Demangle.Demangler.ParseName | software/external/glog/src/demangle.cc:498-516 | strict progress and exact backtracking; what is consumed is a name; an ordinary one is taken and its text added, exactly if it has room |
| Demangle.Demangler.ParseUnscopedName | software/external/glog/src/demangle.cc:519-533 | strict progress and exact backtracking |
| Demangle.Demangler.ParseNestedName | software/external/glog/src/demangle.cc:542-557 | the append flag and nest level are as before on every path; plain names between N and E are taken and shown with separators |
| Demangle.Demangler.ParsePrefix | software/external/glog/src/demangle.cc:567-588 | always succeeds, the loop ends, and it leaves the state as found or further on; of plain names in a row it takes all, joined by separators, the last separator taken back |
| Demangle.Demangler.ParseUnqualifiedName | software/external/glog/src/demangle.cc:592-597 | strict progress and exact backtracking |
| Demangle.Demangler.ParseOperatorName | software/external/glog/src/demangle.cc:702-762 | a known operator, a cast with its type, or a vendor operator |
| Demangle.Demangler.ParseSpecialName | software/external/glog/src/demangle.cc:765-825 | every alternative restores before the next is tried |
| Demangle.Demangler.ParseCallOffset | software/external/glog/src/demangle.cc:828-843 | strict progress and exact backtracking |
| Demangle.Demangler.ParseNVOffset | software/external/glog/src/demangle.cc:846-848 | a number |
| Demangle.Demangler.ParseVOffset | software/external/glog/src/demangle.cc:851-860 | two numbers with a separator |
| Demangle.Demangler.ParseCtorDtorName | software/external/glog/src/demangle.cc:863-891 | a constructor or destructor letter and digit; until an overflow a constructor is printed as the name remembered |
| Demangle.Demangler.ParseType | software/external/glog/src/demangle.cc:906-959 | strict progress, exact backtracking, and what is consumed is a type |
| Demangle.Demangler.ParseCVQualifiers | software/external/glog/src/demangle.cc:962-969 | up to three qualifiers in order, at least one |
| Demangle.Demangler.ParseBuiltinType | software/external/glog/src/demangle.cc:972-988 | a known builtin or a vendor type |
| Demangle.Demangler.ParseFunctionType | software/external/glog/src/demangle.cc:991-1000 | strict progress and exact backtracking |
| Demangle.Demangler.ParseBareFunctionType | software/external/glog/src/demangle.cc:1003-1013 | one or more types with the append flag off |
| Demangle.Demangler.ParseClassEnumType | software/external/glog/src/demangle.cc:1016-1018 | a name |
| Demangle.Demangler.ParseArrayType | software/external/glog/src/demangle.cc:1022-1036 | strict progress and exact backtracking |
| Demangle.Demangler.ParsePointerToMemberType | software/external/glog/src/demangle.cc:1039-1047 | strict progress and exact backtracking |
| Demangle.Demangler.ParseTemplateParam | software/external/glog/src/demangle.cc:1051-1066 | strict progress and exact backtracking |
| Demangle.Demangler.ParseTemplateTemplateParam | software/external/glog/src/demangle.cc:1070-1073 | a template parameter or a substitution |
| Demangle.Demangler.ParseTemplateArgs | software/external/glog/src/demangle.cc:1076-1090 | the append flag is as before on every path |
| Demangle.Demangler.ParseTemplateArg | software/external/glog/src/demangle.cc:1094-1113 | strict progress and exact backtracking |
| Demangle.Demangler.ParseExpression | software/external/glog/src/demangle.cc:1126-1172 | strict progress and exact backtracking |
| Demangle.Demangler.ParseExprPrimary | software/external/glog/src/demangle.cc:1178-1208 | strict progress and exact backtracking |
| Demangle.Demangler.ParseLocalName | software/external/glog/src/demangle.cc:1212-1227 | strict progress and exact backtracking |
| Demangle.Demangler.ParseDiscriminator | software/external/glog/src/demangle.cc:1230-1237 | strict progress and exact backtracking |
| Demangle.Demangler.ParseSubstitution | software/external/glog/src/demangle.cc:1242-1273 | strict progress and exact backtracking |
| Demangle.Demangler.ParseTopLevelMangledName | software/external/glog/src/demangle.cc:1277-1294 | success only on a mangled name followed by an accepted suffix, and always on an ordinary symbol |
| Demangle.Demangle | software/external/glog/src/demangle.cc:1298-1305 | terminates on every name and for every buffer size; success means the name derives from the grammar and, unless something in it has no text, that the text is terminated; an ordinary symbol is demangled to its text iff that fits; only a number below -1 at a place where a source name may be looked for can derail the parse |
| DemangleNames.SymbolIsRead | software/external/glog/src/demangle.cc:481-612 | the symbol a compiler gives a variable, or a function with parameters of builtin types, is an ordinary one, and its text is the name of the entity |
| DemangleNames.OrdinaryLengths | software/external/glog/src/demangle.cc:600-651 | no ordinary symbol derails the parse, whatever its identifiers look like |
| DemangleNames.DemangleEntity | software/external/glog/src/demangle.cc:1298-1305 | for every identifier and every path of identifiers, with or without parameters: success iff the name fits, and then the output holds it, joined by ::, behind it () for a function, and the terminator |
| DemangleGrammar.ReachedIsClosed | software/external/glog/src/demangle.cc:474-1294 | the places reached are closed under everything the parse functions read |
| Demangle.ShortUnsignedLengths | software/external/glog/src/demangle.cc:599-651 | no sign in front of a digit and no ten digits in a row: such a name never derails the parse |
| Demangle.ThunkOffsetsAreNoLengths | software/external/glog/src/demangle.cc:765-860 | the offsets of a thunk, negative as they are, never derail the parse: only numbers behind them matter |
| Demangle.NegativeLiteralIsNoLength | software/external/glog/src/demangle.cc:1178-1190 | neither does a negative literal as a template argument, shown at _Z1fILin5EEvv |
| Demangle.NegativeLengthStalls | software/external/glog/src/demangle.cc:685-699 | at the length n2 of _ZNn2E number and length add up to where the source name began |
| DemangleRuns.ReachNumber | software/external/glog/src/demangle.cc:474-557 | a fresh parser of _ZNn2E comes to that number, as every alternative in front of it fails |
| DemangleRuns.PrefixStandsStill | software/external/glog/src/demangle.cc:567-612 | any number of turns of the prefix loop later it is still there: the source names as written succeed without moving |
| DemangleRuns.OverflowingIsPlain | software/external/glog/src/demangle.cc:600-612 | no length of _ZTVMN5hello5helloEC1 is negative, so its parse is not derailed |
| DemangleRuns.ReadsBehindOutput | software/external/glog/src/demangle.cc:265-394 | with an output of three characters the parse of that name copies the character behind the output into it |
| DemangleRuns.NothingIsShown | software/external/glog/src/demangle.cc:600-612 | the parse of _Z0 reads the whole name without an overflow and leaves the output as it was, without a terminator |
| FlagValues.PrintThenParse | software/external/gflags/src/gflags.cc:270-361 | printing and parsing undo each other for every bool, int32, int64, uint64 and string value |
| FlagValues.HexIsRead | software/external/gflags/src/gflags.cc:286-330 | behind 0x a text is read in base sixteen up to the bounds of the type; with a minus sign in front it is refused |
| FlagValues.ParsedFits | software/external/gflags/src/gflags.cc:270-336 | a text that parses gives a value of the type and in its range |
| FlagValues.UnsignedIsMeant | software/external/gflags/src/gflags.cc:317-324 | an unsigned flag gets the number its text means iff no minus sign hides behind other white space than blanks, or the number is zero |
| FlagValues.TabHidesMinus | software/external/gflags/src/gflags.cc:317-324 | a minus sign behind a tab is taken and the value wraps around |
| Flags.SetReaches | software/external/gflags/src/gflags.cc:803-879 | one set: accepted values only, an unmodified flag has its default, a failed set changes no value |
| Flags.RunReaches | software/external/gflags/src/gflags.cc:836-879 | over any run of sets: each value is the original one or passes the validator, and unmodified flags have their default |
| Flags.ModifiedIsSpared | software/external/gflags/src/gflags.cc:854-877 | the two default modes never change the value of a modified flag, over any run |
| Flags.SetThenDefaults | software/external/gflags/src/gflags.cc:836-879 | a value set explicitly survives any run of the default modes |
| Flags.RunSettles | software/external/gflags/src/gflags.cc:836-879 | which settings of a run decide: the last accepted default; and the last accepted value, or else, unless the flag was modified, the first accepted one for unmodified flags, or the default |
| Flags.FlagsAreIndependent | software/external/gflags/src/gflags.cc:836-879 | in any run on a registry a flag depends only on the sets that name it |
| Flags.CommandLineFlag.UpdateModifiedBit | software/external/gflags/src/gflags.cc:575-581 | a flag whose variable was written directly counts as modified |
| Flags.CommandLineFlag.TryParseLocked | software/external/gflags/src/gflags.cc:803-837 | the value of a text that parses and passes the validator |
| Flags.CommandLineFlag.CopyFrom | software/external/gflags/src/gflags.cc:583-590 | takes over marks, values and validator, nothing else |
| Flags.FlagRegistry.RegisterFlag | software/external/gflags/src/gflags.cc:703-725 | the registry gains the flag under its name; a name taken already is refused with the registry as it was |
| Flags.FlagRegistry.FindFlagLocked | software/external/gflags/src/gflags.cc:727-734 | the flag of that name, or none iff there is none |
| Flags.FlagRegistry.SplitArgumentLocked | software/external/gflags/src/gflags.cc:745-801 | which flag and value an argument means, negated flags and implied values included |
| Flags.FlagRegistry.SetFlagLocked | software/external/gflags/src/gflags.cc:836-879 | the registry after one set in one of the three modes; no other flag changes |
| ArgvOrder.ScanKeepsOrder | software/external/gflags/src/gflags.cc:1017-1098 | flags with their values come first, both they and the positionals keep their order, and no positional looks like a flag |
| ArgvOrder.ScanPermutes | software/external/gflags/src/gflags.cc:1017-1098 | the new argv is a permutation of the old one |
| ArgvOrder.ParsingTwice | software/external/gflags/src/gflags.cc:1017-1098 | a second scan finds the same events and the same order iff the first did not end at a flag without its value with other arguments there; otherwise it finds the same events up to that flag, which now takes the first of them |
| ArgvOrder.ParsedOtherwise | software/external/gflags/src/gflags.cc:1017-1098 | such a command line: p -x with a string flag x, where the second parse gives x the value p |
| FlagParser.CommandLineFlagParser.ProcessSingleOptionLocked | software/external/gflags/src/gflags.cc:1173-1195 | sets the flag or notes the error under its name, and notes whether the flag leads to further flags elsewhere |
| FlagParser.CommandLineFlagParser.ParseFlag | software/external/gflags/src/gflags.cc:1047-1094 | one flag-like argument: its setting or its problem, and whether it takes the next argument |
| FlagParser.CommandLineFlagParser.PermuteAndSet | software/external/gflags/src/gflags.cc:1026-1097 | the in-place loop ends with argv and the flags as the recursive scan says |
| FlagParser.CommandLineFlagParser.ParseNewCommandLineFlags | software/external/gflags/src/gflags.cc:1017-1111 | the whole call, with and without removing the flags, as long as no flag leads elsewhere |
| FlagParser.MoveToEnd | software/external/gflags/src/gflags.cc:1029-1035 | the element goes last and those behind it move down by one |
| CommandLines.SwitchSplits | software/external/gflags/src/gflags.cc:745-801 | for a bool flag x without = in its name and no flag called "no" + x, x means true and "no" + x means false |
| CommandLines.ItemIsTaken | software/external/gflags/src/gflags.cc:1047-1094 | each of the ways to write a flag is taken as a whole and stands for the value meant, whatever comes behind it |
| CommandLines.UnknownIsNoted | software/external/gflags/src/gflags.cc:752-788 | a name that is no flag is noted as undefined, or as negating a flag that is no bool, and takes nothing from behind it |
| CommandLines.WrittenIsMeant | software/external/gflags/src/gflags.cc:1017-1098 | a command line written item by item gives the flags the values meant, from left to right, and keeps the positionals |
| CommandLines.ParseWritten | software/external/gflags/src/gflags.cc:1017-1111 | the parser on such a command line: all flags come out as written, and only the program and the positionals are left |
| CommandLines.SwitchIsSet | software/external/gflags/src/gflags.cc:790-798 | after --x alone the flag is true, after --nox alone it is false |
| FlagSaver.FlagSaverImpl.SaveFromRegistry | software/external/gflags/src/gflags.cc:1648-1663 | the backup is exactly the registry |
| FlagSaver.FlagSaverImpl.RestoreToRegistry | software/external/gflags/src/gflags.cc:1669-1678 | the registry is exactly what was saved, whatever was set since, validators included |
| FlagFile.TheseCommandlineFlagsIntoString | software/external/gflags/src/gflags.cc:1714-1734 | one line of name and printed value per flag |
| FlagFile.ReadPrinted | software/external/gflags/src/gflags.cc:1254-1334 | reading printed text gives each listed flag its value and changes nothing else |
| FlagFile.PrintThenRead | software/external/gflags/src/gflags.cc:1714-1734 | printing one registry without flags that lead elsewhere and reading it into any with the same declarations makes all current values equal, without errors |
| FlagFile.GivenValue | software/external/gflags/src/gflags.cc:1254-1334 | which value a flag has after reading a list of settings |
| FlagFileSections.FileIsRead | software/external/gflags/src/gflags.cc:1254-1334 | in a file of comments, names of programs and settings, exactly those settings take effect before which no program is named or this one is in the lines right before them |
| FlagFileSections.WordsAreCut | software/external/gflags/src/gflags.cc:1309-1330 | a line names the program iff one of the words it was made of does |
| FlagFile.NamesThisProgram | software/external/gflags/src/gflags.cc:1309-1330 | whether one of the words of a line names the program |
| FlagFile.ProcessLine | software/external/gflags/src/gflags.cc:1268-1332 | comments, flags and program sections, each with its effect |
| FlagFile.ProcessOptionsFromStringLocked | software/external/gflags/src/gflags.cc:1254-1334 | the line loop comes to the recursive reading of the text |
| FlagFile.TextKeepsDeclarations | software/external/gflags/src/gflags.cc:1254-1334 | reading never changes what flags there are or of what type |
| FlagFile.ReadFlagsFromString | software/external/gflags/src/gflags.cc:1742-1763 | a text without errors has its whole effect, a text with any error has none, as long as no flag leads elsewhere |
| LineReader.LineReader.ReadPersistent | software/external/glog/src/symbolize.cc:140-158 | gathers short reads until the count or the end of the file; -1 only after an error |
| LineReader.LineReader.ReadLine | software/external/glog/src/symbolize.cc:407-447 | gives the next line only if it is terminated and fits the buffer, and then keeps everything behind it; it fails for no other reason than a read error |
| LineReader.LineReader.FindLineFeed | software/external/glog/src/symbolize.cc:459-461 | the first newline of what the buffer holds |
| LineReader.LineReader.ReadAll | software/external/glog/src/symbolize.cc:396-477 | for every pattern of short reads the lines up to the first refusal, in order; read errors can only cut them short |
| LineReader.AllLinesReadable | software/external/glog/src/symbolize.cc:396-477 | those are all lines of the file iff each fits the buffer; only an unterminated tail is dropped |
| LineReader.LinesMakeUpText | software/external/glog/src/symbolize.cc:396-477 | lines are what a file is made of: each with a newline, they make it up again but for a tail without one |
| Numerals.Itoa | software/external/glog/src/symbolize.cc:637-695 | succeeds iff sign, digits and terminator fit; then the buffer holds the canonical numeral |
| Numerals.NumeralIsNumeral | software/external/glog/src/symbolize.cc:660-680 | the digits written have the value of the number, enough of them and no leading zero beyond the padding |
| Numerals.NumeralIsUnique | software/external/glog/src/symbolize.cc:660-680 | no other text is such a numeral |
| Numerals.NumeralFits | software/external/glog/src/symbolize.cc:654-680 | how many digits a number below a power of the base needs |
| Numerals.Reverse | software/external/glog/src/symbolize.cc:686-694 | the in-place reversal turns the digits around |
| Numerals.GetHex | software/external/glog/src/symbolize.cc:482-496 | the value modulo 2^64 of the longest prefix of hexadecimal digits |
| Numerals.PrintThenRead | software/external/glog/src/symbolize.cc:637-695 | a word printed in base 16 and read back is the same word, all of it consumed |
| FnMatch.SafeFNMatch | software/external/glog/src/vlog_is_on.cc:75-102 | terminates on every pattern and text and agrees with its recursive form |
| FnMatch.Sound | software/external/glog/src/vlog_is_on.cc:75-102 | true means a match under * and ?, for all inputs |
| FnMatch.Complete | software/external/glog/src/vlog_is_on.cc:75-102 | on texts without a star it finds every match, unless the pattern ends with two stars |
| FnMatch.CorrectOnPlainTexts | software/external/glog/src/vlog_is_on.cc:75-102 | it is right on all texts without a star iff the pattern does not end with two stars |
| FnMatch.CorrectOnAllTexts | software/external/glog/src/vlog_is_on.cc:75-102 | it is right on all texts whatsoever iff the pattern has no star |
| LogTruncation.CopyStep | software/external/glog/src/logging.cc:1890-1912 | one block of the overlapping copy leaves unread bytes untouched and extends what is in place by the bytes the write took |
| LogTruncation.LogFile.TruncateLogFile | software/external/glog/src/logging.cc:1847-1923 | for every sequence of short reads: small files stay, any other keeps exactly its last bytes; the first of them after a call that fails, and with some left out after short writes |

## Left out

- Real I/O: sockets, DNS, TLS, I2C, GPIO, timers and files are nondeterministic answers or device state.
- Console commands, printing, network, USB, flash and power modules, and displaying a text given by a command.
- Transmissions of zero bytes, error recovery inside the I2C bus driver, and what the clock does between polls.
- Registers of the clock beyond the 31 its header counts.
- A buffer of some size is an array of that length; buffers handed to the URL parser are distinct.
- The text the demangler gives names other than the ordinary ones of `DemangleNames`: for templates, operators,
  constructors, substitutions, special names and parameters of other types only what each append adds is proved.
- Demangle.Demangle: for names other than those, success is proved sound for the grammar, not the other way round,
  because the code backtracks over single alternatives only and commits to the first that fits; after a source name of
  negative length the source's run is not modelled.
- Demangle.Demangler.ParseSourceName: below -1 the source moves its cursor back, here the source name fails and the run
  is marked as derailed, because the source may never end there.
- HttpsClient.AppHTTPSClientData.Tasks: callbacks are listed as results of the poll, so callbacks that submit requests
  themselves are not modelled.
- In gflags: flags of type double, what flagfile, fromenv and tryfromenv lead to,
  help and completion output, mutexes, message texts (errors are kinds), and `undefok`.
- FlagParser.CommandLineFlagParser.ProcessSingleOptionLocked: flags set from a file or the environment by flagfile,
  fromenv and tryfromenv are noted, not followed, because their contents are outside the command line.
- FlagParser.CommandLineFlagParser.ParseNewCommandLineFlags: the same.
- A flag's value lives in its object as a value; the buffer behind a FLAGS_ variable is not a separate object, and the
  saver's copies are values. Validators are the sets of values they accept.
- Flags.FlagRegistry.RegisterFlag: registering a name twice, which is refused here, ends the program in the source.
- FlagFile.ReadFlagsFromString: fatal errors, which end the program, are not modelled.
- Matching of file name patterns against the program name is a parameter.
- Numerals.Itoa: the most negative number in base ten, which the source negates with overflow, is excluded.
- LogTruncation.LogFile.TruncateLogFile: files that cannot be opened or are no regular files.
- In glog: log rotation, signal handling, ELF reading and stack walking.
- The byte reversal and formatting helpers of `util_string.c`, which nothing modelled here calls; `strstr_len` is
  `ByteSearch.Memmem` on a token without NUL.
