# OneROM and 1541HUD: a verified model

This project models the parts of two firmware code bases, and of the GUI that goes
with one of them, where the reasoning is hardest, and proves properties of them in
Dafny 4.11. `dafny verify dfyconfig.toml` checks everything.

**OneROM** serves a ROM image from RAM through the PIO state machines of an RP2350,
with plugins on its two cores.

| modules | what they model |
|---|---|
| `RttRing`, `RttInterleaving` | the log's byte ring: its sequential operations, and one writer and one reader interleaved step by step under a host that may store anything in its offset |
| `RttDigits`, `RttFormat`, `RttReadBack`, `RttPrintf`, `RttMeaning` | the log's printf: division by ten, digits, integer conversions against the C standard, directives and their arguments, and what each prints |
| `PinMap`, `ControlPins`, `ExpansionPins`, `RamSlots` | addresses and data scattered over an arbitrary pin map with overrides; the check of the select lines and the search for the X pins; the RAM slots stored through the map |
| `Pio`, `CsMonitor`, `CsServing`, `AddressSm` | a PIO interpreter, the generators that emit the chip-select and address programs, and what the programs do on every pin trace |
| `KnockMatch`, `KnockWait`, `CaptureRing` | the sequence matcher, its masks, and the wrapping capture ring it reads |
| `Exclusive`, `Uptime` | the two-core exclusive-mode handshake; the 64-bit timer and 32-bit milliseconds |
| `LedChannel`, `LedEngine`, `LedAlarm` | LED modes, holds and restores under a wrapping clock; the hand-over of pixels; the alarm |

**1541HUD** watches the bus of a disk drive.

| modules | what they model |
|---|---|
| `DmaRing`, `BusDecode`, `HeaderTiming`, `ProbeDecode` | DMA accounting, bus decoding, the header recogniser, the speed it measures, and what runs of writes make of it all |
| `EventQueue`, `EventText` | the queue shared by two cores; packing a word and printing its record |
| `TextPattern`, `HudParse`, `HudCore`, `HudState`, `HudStream`, `Reconnect` | the GUI's regular expressions, its dispatch, its state, the state record it starts from, the whole stream it reads, and the race in which it reconnects |

`Bits`, `Words` and `Wrappers` hold what the others share.

Code that changes state in place is a class or a method with loops here, proved
against a function of the old state; protocols between cores, or with a host or DMA,
are state machines over their steps, and the statements are about every run of them.

## Where the code does not do what is said of it

Each of these but the last is a lemma, with the exact condition under which the
expected behaviour does hold where there is one.

- `%#08o` of a nonzero value pads with spaces: raising the precision for the leading
  zero turns the zero flag off (`RttFormat.NumberMeetsStandardIff`).
- The inactive delay of the chip-select serving programs never delays a release in
  AlgCs1, nor in AlgCs2 when the enable goes high: the jump back passes the delay slot
  by. In AlgCs1 the slot is instead run each time a select with the ignored pin is found
  still active (`CsServing.ReleaseWait` and `CsServing.PollWait`, in
  `CsServing.ServingSound`).
- The knock matcher can miss an occurrence when a knock repeats itself in part
  (`KnockMatch.MatcherCompleteIff`).
- An LED request without a hold, said in OneROM/firmware/ora/api.h:2813-2824 to last
  until something changes it, is undone by the end of a hold that was already running
  (`LedChannel.UnheldLastsIff`).
- With a ROM in slot 1 that is no user plugin, core 1 is granted exclusive mode at once
  while core 0 is still running its yield loop, against OneROM/firmware/ora/api.h:2404-2417.
  The lemma says for which slot tables a holder's peer is parked
  (`Exclusive.EntersUnparked`, `Exclusive.HolderPeerParkedIff`). Two crossed requests wait
  for ever (`Exclusive.GrantableIff`).
- A slot write that ends past the chip's address space lands on an alias. The bounds
  check, a 32-bit sum against the region, passes it when it ends inside the region and
  when its end wraps past 2^32 (`RamSlots.RoundTripIff`, `RamSlots.Device.Reprogram`).
- The probe and the GUI part at half-step 254 and at a settle (`HudCore.PositionsAgreeIff`,
  `ProbeDecode.GuiFollowsProbeIff`), and when a full queue refuses a step
  (`Reconnect.QueueFull`). A reconnect while the head moves can also count a step twice or
  lose one (`Reconnect.ReconnectAgreesIff`, `Reconnect.CountedTwice`, `Reconnect.StepLost`).
- OneROM/firmware/src/piodma/piorom2.c:583-584 speaks of /BYTE low; the jump is taken
  when the pin reads high after its override, and that is what the model does.

## Model

| member | source | states |
|---|---|---|
| `RttRing.FreeAndPending` | OneROM/firmware/src/rtt.c:191-205 | Whatever the two clamped offsets are, free and pending bytes always make up the ring but for one, and the writer stands exactly `pending` bytes past the reader. |
| `RttRing.UpChannel.Write` | OneROM/firmware/src/rtt.c:207-258 | A record goes in whole or not at all: exactly when it fits beside what is unread, the unread text grows by it; otherwise the buffer keeps every byte. A channel without a buffer takes nothing. |
| `RttRing.UpChannel.Read` | OneROM/firmware/src/rtt.c:276-338 | Returns the oldest unread bytes, as many as asked for, and leaves exactly the others unread, for any values in the offset fields. |
| `RttRing.UpChannel.Query` | OneROM/firmware/src/rtt.c:364-410 | The three figures describe one moment: size == free + pending + 1, and pending is what a read would take. |
| `RttInterleaving.DeliveredIsPrefix` | OneROM/firmware/src/rtt.c:207-258 | For every interleaving of one writer and one reader, byte by byte, what was read is a prefix of the accepted records in order, never a ring or more behind. |
| `RttInterleaving.UnreadNeverOverwritten` | OneROM/firmware/src/rtt.c:244-256 | In every reachable state, the next store of a write leaves every unread byte as the stream has it. |
| `RttInterleaving.AcceptedIffFits` | OneROM/firmware/src/rtt.c:239-242 | A record is taken if and only if it fits beside the unread bytes at that moment; a refused one leaves the whole state as it was. |
| `RttInterleaving.PublishedWhole` | OneROM/firmware/src/rtt.c:207-258 | After any run, publishing a copied record makes the bytes a reader finds in the ring what it found before and then the record. |
| `RttInterleaving.UnpublishedUnseen` | OneROM/firmware/src/rtt.c:244-256 | Until then its stores change nothing a reader finds. |
| `RttInterleaving.ReadTakesAllPublished` | OneROM/firmware/src/rtt.c:302-316 | A read covers all that was published when it began, up to its limit. |
| `RttInterleaving.HostileHostHarmless` | OneROM/firmware/src/rtt.c:191-258 | With a host storing any value in the read offset between any two steps, every next store and load is still inside the buffer and free + pending + 1 is still the size. |
| `RttDigits.EstimateTenth` | OneROM/firmware/src/rtt.c:487-492 | The shift-and-add estimate of n / 10 is exact or one low for every 64-bit n, and no intermediate exceeds n. |
| `RttDigits.Div10` | OneROM/firmware/src/rtt.c:483-502 | Exact quotient and remainder for every 64-bit n. |
| `RttDigits.DigitsUnique` | OneROM/firmware/src/rtt.c:505-542 | Two digit strings of one value with no leading zero are the same, zero included, in bases 2, 8, 10 and 16. |
| `RttDigits.DigitCharsReadBack` | OneROM/firmware/src/rtt.c:505-542 | The characters read back to the value, start with zero only for zero, and are 1 to 64 for a 64-bit value. |
| `RttDigits.FmtDigits` | OneROM/firmware/src/rtt.c:505-542 | The digit loops, 64-bit stripping included, terminate and leave those characters in the 64-byte array. |
| `RttFormat.Formatter.Flush` | OneROM/firmware/src/rtt.c:456-461 | Moves the buffered characters to the ring as one chunk; nothing is sent for an empty buffer. |
| `RttFormat.Formatter.Putc` | OneROM/firmware/src/rtt.c:463-468 | Emits one character; every chunk sent on the way is a full 64. |
| `RttFormat.Formatter.Number` | OneROM/firmware/src/rtt.c:550-620 | The flushed chunks and the buffer together grow by exactly the text of the conversion. |
| `RttFormat.NumberMeetsStandardIff` | OneROM/firmware/src/rtt.c:544-620 | Sign, base, digits and padding are what section 7.23.6.1 of ISO/IEC 9899:2024 asks for, built here from its own wording, if and only if the conversion is not a nonzero octal with # and 0, no precision and room to pad: there the zero padding comes out as spaces. |
| `RttPrintf.IntegerMeetsStandardIff` | OneROM/firmware/src/rtt.c:746-781 | The same for every integer conversion as the directive loop makes it, sign flags on unsigned ones included. |
| `RttReadBack.NumberReadsBack` | OneROM/firmware/src/rtt.c:550-620 | For every value, base, flag set, width and precision, a strtol-like reader gets the sign and the magnitude back from the text. |
| `RttReadBack.NumberLength` | OneROM/firmware/src/rtt.c:593-619 | The text is max(width, sign and base + digits with their zeros) long; there are no digits at all exactly for zero at precision zero outside #o. |
| `RttPrintf.DirectiveParses` | OneROM/firmware/src/rtt.c:684-733 | Parsing undoes rendering: flags in any order, width, precision, length and conversion of every directive are recovered, with the rest of the string. |
| `RttPrintf.FormattedByPieces` | OneROM/firmware/src/rtt.c:680-822 | Any format string of text and directives prints piece by piece, each directive with the arguments the earlier ones left, unsupported conversions included. |
| `RttPrintf.ArgumentKept` | OneROM/firmware/src/rtt.c:649-669 | A value that its length modifier can hold is printed as it is, signed or unsigned. |
| `RttPrintf.IntegersReadBack` | OneROM/firmware/src/rtt.c:746-781 | Every integer conversion, with any length, flags, width and precision, takes one argument and prints text that reads back to its value. |
| `RttPrintf.StringShown` | OneROM/firmware/src/rtt.c:622-647 | Which characters are shown: as many of the string as precision allows, at the side asked for, blanks in the rest of the field. |
| `RttMeaning.FlagsMean` | OneROM/firmware/src/rtt.c:689-697 | A flag is set exactly if its character is among the flags. |
| `RttMeaning.StringPrinted` | OneROM/firmware/src/rtt.c:622-647 | Any %s directive in any format: the whole string when the precision is absent or negative, else its first n characters, in its field, left for - or a negative width. |
| `RttMeaning.IntegerPrinted` | OneROM/firmware/src/rtt.c:649-778 | Any integer directive: the argument narrowed to its length prints as the standard has it, with no precision at least one digit and zero padding kept, if and only if it is not the octal case above. |
| `RttMeaning.CharPrinted` | OneROM/firmware/src/rtt.c:779-790 | Any %c directive: the one character, in its field. |
| `RttMeaning.PointerPrinted` | OneROM/firmware/src/rtt.c:794-800 | Any %p directive: hexadecimal with 0x, also for a null pointer. |
| `RttMeaning.PercentPrinted` | OneROM/firmware/src/rtt.c:801-803 | %% prints itself and takes no argument of its own. |
| `RttMeaning.UnknownPrinted` | OneROM/firmware/src/rtt.c:804-820 | Any other conversion prints itself after %!; the floating ones and %n take their argument with them. |
| `RttMeaning.CutShortPrinted` | OneROM/firmware/src/rtt.c:740-743 | A format that ends inside a directive prints nothing of it. |
| `RttMeaning.WholeString` | OneROM/firmware/src/rtt.c:671-825 | "%s" prints its string. |
| `RttMeaning.PlainNumber` | OneROM/firmware/src/rtt.c:671-825 | "%d" prints every 32-bit number in decimal, zero as 0. |
| `RttMeaning.PlainHex` | OneROM/firmware/src/rtt.c:671-825 | "%x" prints every 32-bit number's hexadecimal digits. |
| `RttPrintf.PutDirective` | OneROM/firmware/src/rtt.c:687-821 | One pass of the directive loop prints what its parse says and leaves the format and arguments just past it. |
| `RttPrintf.Vprintf` | OneROM/firmware/src/rtt.c:671-825 | The flushed chunks concatenate to the whole formatted text; all are non-empty and all but the last are 64 characters. |
| `PinMap.MapAddrToPhys` | OneROM/firmware/src/piodma/pioplugin.c:637-766 | The loops compute the table index: address bits through their overrides, chip 0 selects in a Multi set, A-1 as the low bit of a 16-bit part. |
| `PinMap.WindowBits` | OneROM/firmware/src/piodma/pioplugin.c:637-766 | Which bits of a table index are set, and why: nothing else is ever set. |
| `PinMap.OverrideByTable` | OneROM/firmware/src/piodma/pioplugin.c:85-102 | The first byte of the table that names a GPIO decides by its top two bits: 0 normal, 1 inverted, 2 low, 3 high; none means normal. |
| `PinMap.AddressPinReads` | OneROM/firmware/src/piodma/pioplugin.c:637-766 | An address pin's bit of the table index, by that byte: its line, the line inverted, 0 or 1. |
| `PinMap.SelectReads` | OneROM/firmware/src/piodma/pioplugin.c:672-752 | Chip 0's select bits in a Multi set are 1, inverted pins included, unless that byte forces them low. |
| `PinMap.OnlyPinsSet` | OneROM/firmware/src/piodma/pioplugin.c:637-766 | No other bit is ever set. |
| `PinMap.MapAddrBelow` | OneROM/firmware/src/piodma/pioplugin.c:637-766 | Every table index lies inside one ROM region. |
| `PinMap.MapAddrInjective` | OneROM/firmware/src/piodma/pioplugin.c:637-766 | Different addresses of the chip map to different table entries when no address pin is forced. |
| `ControlPins.CheckControlPins` | OneROM/firmware/src/piodma/pioplugin.c:853-1012 | Passes exactly a word that shows the chip selected: every select line compared at the served level, forced ones at theirs; no X pin of a Multi set high; under AlgCs2 not the deselect pattern. |
| `ControlPins.ShownMeans` | OneROM/firmware/src/piodma/pioplugin.c:853-1012 | What passing means, line by line and algorithm by algorithm, as each line reads under its override. |
| `ControlPins.QualifierBits` | OneROM/firmware/src/piodma/pioplugin.c:986-1004 | Bit k of the qualifier field is the kth pin of its span. |
| `ControlPins.DemangleObservedAddr` | OneROM/firmware/src/piodma/pioplugin.c:838-1051 | Refused exactly when the check is on and fails; otherwise the address lines gathered back from the word. |
| `ControlPins.DemangleAddr` | OneROM/firmware/src/piodma/pioplugin.c:1053-1071 | ... with A-1 folded in for a 16-bit part. |
| `ControlPins.CheckedRoundTrip` | OneROM/firmware/src/piodma/pioplugin.c:637-766 | A mapped address passes the check and comes back if and only if the select lines, as the map leaves them, are at the served level and the address is not in the deselected range; it is refused otherwise. |
| `ControlPins.MultiCs1Refused` | OneROM/firmware/src/piodma/pioplugin.c:919-951 | The map raises the select lines of a Multi set under AlgCs1, a combination the generator never emits, and the check wants them low. |
| `PinMap.DemangleInvertsMap` | OneROM/firmware/src/piodma/pioplugin.c:637-766 | Demangling a mapped address gives the address back, up to bits above the chip's own lines, in 8- and 16-bit modes. |
| `PinMap.MapInvertibleIffUnforced` | OneROM/firmware/src/piodma/pioplugin.c:838-1071 | All addresses of the chip come back if and only if no address pin is forced low or high. |
| `PinMap.MapDataToPhys` | OneROM/firmware/src/piodma/pioplugin.c:771-807 | The loop scatters the data bits through their overrides. |
| `PinMap.DataPinReads` | OneROM/firmware/src/piodma/pioplugin.c:771-807 | A data pin's bit of the stored value, by the byte that names the pin, in the same four ways. |
| `PinMap.OnlyDataSet` | OneROM/firmware/src/piodma/pioplugin.c:771-807 | No other bit is ever set. |
| `PinMap.DemangleData` | OneROM/firmware/src/piodma/pioplugin.c:1096-1133 | ... and gathers a stored byte back. |
| `PinMap.DataRoundTripIff` | OneROM/firmware/src/piodma/pioplugin.c:771-807 | Every byte survives storing and reading if and only if each of its eight pins is wired, unforced and in the low byte of the lane. |
| `RamSlots.ProgrammedReadsBack` | OneROM/firmware/src/piodma/pioplugin.c:1483-1536 | Programming a range inside the chip's address space changes exactly those logical bytes, to exactly the data. |
| `RamSlots.RoundTripIff` | OneROM/firmware/src/piodma/pioplugin.c:1483-1536 | Every table and all data of n bytes read back, with every other logical byte kept, if and only if the range ends inside the chip's address space; the 32-bit bounds check passes others, wrapped ranges among them. |
| `RamSlots.WriteBeyondChipAliases` | OneROM/firmware/src/piodma/pioplugin.c:1496-1536 | A range that ends beyond it, however far, puts its last byte at an aliased address. |
| `RamSlots.Device.Reprogram` | OneROM/firmware/src/piodma/pioplugin.c:1483-1536 | The error cases in full; otherwise one slot's table becomes the programmed one and every other slot keeps every byte. |
| `RamSlots.Device.ReadSlot` | OneROM/firmware/src/piodma/pioplugin.c:1329-1361 | The error cases in full; otherwise the logical bytes of the range. |
| `RamSlots.Device.ReprogramThenRead` | OneROM/firmware/src/piodma/pioplugin.c:1329-1361 | What was stored reads back; every other logical byte of the slot and every other slot is unchanged. |
| `RamSlots.Device.SlotsShareNothing` | OneROM/firmware/src/plugin.c:561-584 | The regions reported lie inside the image and the address space, no two overlap, and a slot's table is what stands in its own. |
| `RamSlots.Device.GetActiveRamSlot` | OneROM/firmware/src/plugin.c:586-611 | Succeeds exactly when the served table is the base of an existing slot, and names that slot. |
| `RamSlots.Device.SetActiveRamSlot` | OneROM/firmware/src/plugin.c:613-625 | An existing slot becomes the one served, with a prefix register that times the region size is its base; any other leaves everything alone. |
| `RamSlots.SlotCountFits` | OneROM/firmware/src/plugin.c:541-559 | The slots fit the image exactly when one region does, and below the limit of 255 one more would not. |
| `RamSlots.OffsetDivMod` | OneROM/firmware/src/plugin.c:603-608 | An offset is a slot base exactly when the region divides it, and the quotient is then the slot. |
| `RamSlots.PrefixExact` | OneROM/firmware/src/piodma/pioplugin.c:1596-1623 | Shifting a slot base down to the prefix register loses nothing. |
| `Pio.StepStaysInside` | OneROM/firmware/src/piodma/pioplugin.c:278-437 | No instruction of a well-formed program leaves it, whatever the pins do. |
| `CsMonitor.EmitCs0Monitor` | OneROM/firmware/src/piodma/pioplugin.c:287-314 | The generator emits the program analysed here, labels, wrap and length. |
| `CsMonitor.EmitCs1Monitor` | OneROM/firmware/src/piodma/pioplugin.c:327-362 | As above for the algorithm with an ignored pin. |
| `CsMonitor.EmitCs2Monitor` | OneROM/firmware/src/piodma/pioplugin.c:388-422 | As above for enable and qualifiers. |
| `CsMonitor.IrqNeedsRun` | OneROM/firmware/src/piodma/pioplugin.c:176-180 | An interrupt follows an unbroken run of active samples, and two are separated by an unbroken run of inactive ones. |
| `CsMonitor.RunGetsIrq` | OneROM/firmware/src/piodma/pioplugin.c:176-180 | ... and every such run on a released select gets one. |
| `CsMonitor.Cs0Debounces` | OneROM/firmware/src/piodma/pioplugin.c:279-322 | On every pin trace, the interrupts raised are exactly the ones a three-sample debouncer calls for, none missing, late or twice. |
| `CsMonitor.Cs1Debounces` | OneROM/firmware/src/piodma/pioplugin.c:324-370 | The same with four samples to assert and two to release, where active is zero or only the ignored pin. |
| `CsMonitor.Cs2Follows` | OneROM/firmware/src/piodma/pioplugin.c:372-437 | On every pin trace the program stays inside an automaton that says which look comes next and what it decides. |
| `CsMonitor.Cs2Captures` | OneROM/firmware/src/piodma/pioplugin.c:372-437 | In every run each capture comes right after four low enables and selecting qualifiers, and between any two the release was confirmed by two looks in a row. |
| `CsMonitor.CaptureNeedsArming` | OneROM/firmware/src/piodma/pioplugin.c:388-403 | A capture is preceded by four low enables in a row and then selecting qualifiers. |
| `CsMonitor.CapturesSeparated` | OneROM/firmware/src/piodma/pioplugin.c:405-422 | Between two captures a release has been seen by two looks in a row. |
| `CsMonitor.BuildMonitor` | OneROM/firmware/src/piodma/pioplugin.c:189-257 | Built exactly when the declared number of instructions fits; it takes exactly that many and never jumps or wraps out. |
| `CsMonitor.MonitorDebounces` | OneROM/firmware/src/piodma/pioplugin.c:258-437 | The program built for each algorithm has the property proved of it, with the polarity that serve_cs_low_0 asks for. |
| `CsMonitor.MonitorNeverWaits` | OneROM/firmware/src/piodma/pioplugin.c:176-180 | Every instruction of a monitor takes one cycle. |
| `CsServing.EmitCs0Serving` | OneROM/firmware/src/piodma/piorom2.c:568-610 | The generator emits the program analysed here for every polarity, delay and byte pin. |
| `CsServing.EmitCs1Serving` | OneROM/firmware/src/piodma/piorom2.c:647-675 | As above with an ignored pin. |
| `CsServing.EmitCs2Serving` | OneROM/firmware/src/piodma/piorom2.c:709-737 | As above for enable and qualifiers. |
| `CsServing.ServingWellFormed` | OneROM/firmware/src/piodma/piorom2.c:555-757 | Every choice of parameters gives a program that fits its memory and stays in it. |
| `CsServing.ServingSound` | OneROM/firmware/src/piodma/piorom2.c:555-757 | On every pin trace: data pins become outputs only on an active verdict and inputs only on an inactive one, within a fixed number of instructions and a known number of cycles; /BYTE mode drives the low eight alone exactly when the pin was read high; the selects are looked at again within six instructions. While selected they are looked at again a known number of cycles later. The inactive delay lies on the release path in AlgCs0 and the AlgCs2 qualifier release only, and between active looks in AlgCs1. |
| `AddressSm.EmitAddressing` | OneROM/firmware/src/piodma/piorom2.c:485-502 | The loop emits the program analysed here for every number of pins and padding bits. |
| `AddressSm.InstructionCycles` | OneROM/firmware/src/piodma/piorom2.c:485-502 | The delay comes after the prefix; every other instruction takes one cycle. |
| `AddressSm.PhaseIsRemainder` | OneROM/firmware/src/piodma/piorom2.c:485-502 | Instruction t of a run is number t modulo the pass's length of its pass. |
| `AddressSm.WordsPushed` | OneROM/firmware/src/piodma/piorom2.c:479-517 | One word per pass: the prefix as it stood when the pass began, the pins sampled next, and zeros; also while the prefix is rewritten at any moment. |
| `AddressSm.CarriesIsWindow` | OneROM/firmware/src/piodma/pioplugin.c:637-766 | The sampled pins equal the mapped address if and only if they carry that address with the chip selected. |
| `AddressSm.SlotServed` | OneROM/firmware/src/piodma/piorom2.c:479-517 | With the prefix of slot s, every pass that begins with it and samples an address pushes slot s's base plus the mapped address (A-1 = 0), on every run. |
| `AddressSm.SelectSlot` | OneROM/firmware/src/plugin.c:586-625 | After selecting slot s the register serves slot s in that sense, and the slot reported active is s. |
| `KnockMatch.DetectionIsSound` | OneROM/firmware/src/piodma/pioplugin.c:1380-1408 | On detection the last masked entries are the knock, in order. |
| `KnockMatch.MatcherCompleteIff` | OneROM/firmware/src/piodma/pioplugin.c:1391-1398 | The matcher stops at the first occurrence in every stream if and only if no shorter match inside the knock goes on with another value than the longer one; a stream that is missed is given otherwise. |
| `KnockMatch.UniqueFirstIsComplete` | OneROM/firmware/src/piodma/pioplugin.c:1391-1398 | That holds whenever the first value does not come again in the knock. |
| `ExpansionPins.FindXPins` | OneROM/firmware/src/piodma/pioplugin.c:117-176 | X1 and X2 are the last pins of the window that are neither address nor select pins and that the board lists as such; a Single slot has none. |
| `ExpansionPins.IsMeans` | OneROM/firmware/src/piodma/pioplugin.c:117-176 | Which pins those are; a pin listed for both is X1. |
| `ExpansionPins.XMask` | OneROM/firmware/src/piodma/pioplugin.c:1251-1286 | The mask has exactly their bits, in a Multi set only. |
| `KnockWait.InitKnock` | OneROM/firmware/src/piodma/pioplugin.c:1149-1286 | The error cases in full, the unsupported algorithm among them; otherwise the mask and match values of the unforced low address lines, and the X mask. |
| `KnockWait.SkippedMeans` | OneROM/firmware/src/piodma/pioplugin.c:1363-1377 | With debouncing an entry is passed over exactly when it shows one of those pins high. |
| `KnockWait.MatchMeans` | OneROM/firmware/src/piodma/pioplugin.c:1169-1218 | A masked entry equals a match value exactly when the address demangled from it agrees with the knock value on every unforced line compared. |
| `CaptureRing.HeldIsCaptured` | OneROM/firmware/src/piodma/pioplugin.c:1380-1408 | While the writer is less than a ring ahead, the index read holds the capture it stands for. |
| `KnockWait.WaitForKnock` | OneROM/firmware/src/piodma/pioplugin.c:1432-1481 | Over any sequence of polls: returns on the very capture that completes the knock, with a payload of exactly the next unfiltered captures and the read position after the last; waits if and only if what the polls showed completes no knock or leaves the payload short. |
| `KnockWait.HeardIsKnock` | OneROM/firmware/src/piodma/pioplugin.c:1380-1408 | On return the last unfiltered captures show the knock's addresses on every unforced line, in order. |
| `KnockWait.HeardFirst` | OneROM/firmware/src/piodma/pioplugin.c:1380-1408 | For a knock with no lost border that is the first time they do. |
| `Exclusive.HolderPeerParkedIff` | OneROM/firmware/src/plugin.c:966-1051 | For every slot table with a plugin launched and every reachable state of the two cores: the two never both hold, and a holder's peer is parked in the RAM stub, no resume on its way, if and only if slot 0 says it yields (for core 0), or there is no slot 1 or slot 1 is a user plugin that does (for core 1). |
| `Exclusive.CoreOneEnters` | OneROM/firmware/src/plugin.c:966-1003 | Core 1's call asks exactly with no slot 1 or a yielding user plugin there, is granted at once exactly with another kind there, and is refused exactly for a user plugin that does not yield. |
| `Exclusive.CoreZeroEnters` | OneROM/firmware/src/plugin.c:966-1003 | Core 0's call asks exactly when its user plugin was launched and slot 0 yields, and is never granted unasked. |
| `Exclusive.RefusedNeverAsks` | OneROM/firmware/src/plugin.c:1000-1021 | A core that is refused, or runs no plugin, never has a request under way and never holds. |
| `Exclusive.EntersUnparked` | OneROM/firmware/src/plugin.c:966-1030 | With a slot 1 that is no user plugin, core 1 is told at once that it has exclusive mode while core 0 is still in its yield loop. |
| `Exclusive.ExitGoesThrough` | OneROM/firmware/src/plugin.c:1032-1051 | An exit never blocks for good: once the other core has taken its turn the resume goes out. |
| `Exclusive.ParkedUntilExit` | OneROM/firmware/src/plugin.c:889-902 | Nothing the parked core does moves it, and only the holder's exit sends it anything. |
| `Exclusive.ParkedThroughout` | OneROM/firmware/src/plugin.c:873-907 | Over any continuation in which the holder keeps holding, the peer never leaves the stub. |
| `Exclusive.GrantableIff` | OneROM/firmware/src/plugin.c:1007-1021 | A waiting request can still be granted if and only if the other core is not itself asking. |
| `Exclusive.CrossedReachableIff` | OneROM/firmware/src/plugin.c:1000-1021 | Both can come to ask at once, neither then ever granted, if and only if slot 0 yields and slot 1 is a valid user plugin that yields. |
| `Uptime.TimerUs64` | OneROM/firmware/src/plugin.c:341-351 | Against any monotone 64-bit counter, ends and returns a value the counter had during the call. |
| `Uptime.UptimeMs` | OneROM/firmware/src/plugin.c:378-385 | That value / 1000 modulo 2^32, with no product or sum on the way reaching 2^32. |
| `Uptime.ElapsedAcrossWrap` | OneROM/firmware/src/plugin.c:353-377 | Two readings less than the wrap apart give their distance. |
| `LedChannel.BeaconAlwaysEnds` | OneROM/firmware/src/piodma/pioled.c:984-1058 | After any run of requests and frames a beacon has a hold running, and nothing goes back to a beacon. |
| `LedChannel.DueAcrossWrap` | OneROM/firmware/src/piodma/pioled.c:861-896 | The signed 32-bit test agrees with unwrapped time for deadlines less than half the wrap away. |
| `LedChannel.ChainRestores` | OneROM/firmware/src/piodma/pioled.c:765-780 | A chain of overlapping holds ends, by the first frame after the last of them, in the mode, colour, brightness and period before the first, across the wrap and the bumped zero expiry. |
| `LedChannel.UnheldLastsIff` | OneROM/firmware/src/piodma/pioled.c:984-1058 | A request without a hold lasts past the next expiry if and only if no hold was running (or it asked for what is restored anyway). |
| `LedChannel.FramesAreApart` | OneROM/firmware/src/piodma/pioled.c:783-859 | A frame is never scheduled for the moment it runs in. |
| `LedChannel.AnimationShows` | OneROM/firmware/src/piodma/pioled.c:783-859 | Every animation frame by frame: a beacon alternates, a blink shows every other frame, a flame follows its table, a cycle is always lit, a breath dark once a round; and when each next frame is due. |
| `LedChannel.RequestStarts` | OneROM/firmware/src/piodma/pioled.c:984-1058 | What a request leaves of mode, colour, brightness and period, named or by default, and when its first frame is due. |
| `LedChannel.RequestHolds` | OneROM/firmware/src/piodma/pioled.c:984-1058 | The hold a request leaves, and what it goes back to. |
| `LedChannel.BreathIsEven` | OneROM/firmware/src/piodma/pioled.c:353-366 | A breath rises and falls evenly. |
| `LedEngine.PixelBytes` | OneROM/firmware/src/piodma/pioled.c:540-604 | Brightness and level keep each component in its byte and below the colour asked for; full gives the colour, none gives dark. |
| `LedEngine.PixelFields` | OneROM/firmware/src/piodma/pioled.c:540-604 | Each byte is its colour scaled by brightness and level, in the order green, red, blue. |
| `LedEngine.HueIsWheel` | OneROM/firmware/src/piodma/pioled.c:336-352 | Red, green and blue follow one wave round the hue circle, a third apart. |
| `LedEngine.AnimationPixel` | OneROM/firmware/src/piodma/pioled.c:783-859 | Which pixel frame n of each animation asks for. |
| `LedEngine.VerdictMeans` | OneROM/firmware/src/piodma/pioled.c:933-983 | Exactly which requests are accepted, and why each other is not. |
| `LedEngine.Engine.RgbWrite` | OneROM/firmware/src/piodma/pioled.c:540-605 | A pixel is sent, waits behind a reset, or replaces the one waiting; sent pixels stay a subsequence of those asked for, with the latest sent or waiting. |
| `LedEngine.Engine.Set` | OneROM/firmware/src/piodma/pioled.c:933-1091 | Refusals change nothing; otherwise one channel changes as specified and the other keeps its state. |
| `LedEngine.Engine.Frame` | OneROM/firmware/src/piodma/pioled.c:861-896 | A pixel whose wait is over goes first; each channel is restored, advanced or left alone, and the LED driven accordingly. |
| `LedAlarm.SignedDifference` | OneROM/firmware/src/piodma/pioled.c:699-704 | Seen from one moment, wrapped deadlines compare as they do in time. |
| `LedAlarm.LeftIs` | OneROM/firmware/src/piodma/pioled.c:727-735 | The wait is the time until the deadline, none for what is overdue, across the wrap. |
| `LedAlarm.Rearm` | OneROM/firmware/src/piodma/pioled.c:681-763 | Armed if and only if something waits; never set past any deadline of any channel, and exactly at the earliest. |
| `LedAlarm.RequestedNear` | OneROM/firmware/src/piodma/pioled.c:984-1058 | No accepted request puts a deadline farther ahead than that comparison can tell. |
| `LedAlarm.FramedNear` | OneROM/firmware/src/piodma/pioled.c:783-859 | Nor does a frame. |
| `EventQueue.EventsConserved` | 1541hud/artifacts/T0.0.16/1541hud_probe_t016_v072_baseline_SOURCE.c:159-170 | For every interleaving, attempts = accepted + overflow (and one in progress), and accepted = sent + waiting + unknown + dropped on reconnect. |
| `EventQueue.SentInOrderOnce` | 1541hud/artifacts/T0.0.16/usb_main_t016_1541hud_baseline_SOURCE.c:186-258 | What is sent is the accepted words with that fate, each once, in order and of a known type; nothing else leaves but unknown types and reconnect drops. |
| `EventQueue.WaitingNeverOverwritten` | 1541hud/artifacts/T0.0.16/1541hud_probe_t016_v072_baseline_SOURCE.c:159-170 | No store lands on a word that is waiting or being read. |
| `EventText.UnpackPack` | 1541hud/artifacts/T0.0.16/1541hud_probe_t016_v072_baseline_SOURCE.c:172-247 | Every field of every event survives the queue word. |
| `EventText.LineFits` | 1541hud/artifacts/T0.0.16/usb_main_t016_1541hud_baseline_SOURCE.c:187-258 | Every record fits the 160-byte buffer with its CRLF. |
| `EventText.LineBuffer.Str` | 1541hud/artifacts/T0.0.16/usb_main_t016_1541hud_baseline_SOURCE.c:115-115 | Appends, and stops at the end of the buffer. |
| `EventText.LineBuffer.U32` | 1541hud/artifacts/T0.0.16/usb_main_t016_1541hud_baseline_SOURCE.c:116-116 | Appends the decimal digits of any 32-bit value: ten digits of room are enough. |
| `EventText.FormatEvent` | 1541hud/artifacts/T0.0.16/usb_main_t016_1541hud_baseline_SOURCE.c:186-252 | The record of a known word is its fields' line with CRLF, uncut; an unknown type has none. |
| `TextPattern.ReadsMore` | 1541hud/gui/hud_core_v030.py:17-28 | How a pattern of literals and greedy runs matches a line that ends in the parts it names. |
| `TextPattern.LackingNeverFound` | 1541hud/gui/hud_core_v030.py:17-28 | A pattern with a literal whose character the line lacks is found nowhere in it. |
| `HudParse.LineHeard` | 1541hud/gui/hud_core_v030.py:307-392 | The line of each event the core knows matches exactly one of the seven patterns, and its branch gets exactly the packed fields; diagnostic lines match none. |
| `HudParse.HdrPhyText` | 1541hud/artifacts/T0.0.16/usb_main_t016_1541hud_baseline_SOURCE.c:216-226 | The numbers of a header record read back to its track, sector and time. |
| `HudParse.RpmText` | 1541hud/artifacts/T0.0.16/usb_main_t016_1541hud_baseline_SOURCE.c:227-239 | The speed record shows its value with two decimals. |
| `HudParse.SyncText` | 1541hud/artifacts/T0.0.16/usb_main_t016_1541hud_baseline_SOURCE.c:240-248 | The numbers of a sync record read back. |
| `HudParse.HexReads` | 1541hud/artifacts/T0.0.16/usb_main_t016_1541hud_baseline_SOURCE.c:117-117 | A byte in hexadecimal has two capital digits and reads back. |
| `HudCore.DriveHud.ProcessLine` | 1541hud/gui/hud_core_v030.py:307-392 | One branch, in the order of the tests, changes the state. |
| `HudCore.DriveHud.Poll` | 1541hud/gui/hud_core_v030.py:394-402 | Every line now whole is processed in order and the rest is kept. |
| `HudCore.ReadsDoNotMatter` | 1541hud/gui/hud_core_v030.py:394-402 | The state after any sequence of reads depends only on the bytes, not on how the reads divide them. |
| `HudStream.FormatHealth` | 1541hud/artifacts/T0.0.16/usb_main_t016_1541hud_baseline_SOURCE.c:263-276 | The bridge appends exactly the health record, uncut. |
| `HudStream.RecordsReachGui` | 1541hud/artifacts/T0.0.16/usb_main_t016_1541hud_baseline_SOURCE.c:135-277 | Whatever events were packed, wherever state and health records stand among them, and however the text was cut into reads, the GUI ends in the state those records lead to, its buffer empty. |
| `HudStream.OnlyEventsCount` | 1541hud/gui/hud_core_v030.py:353-392 | Without a state record, that is where the events alone lead. |
| `HudStream.LampsTold` | 1541hud/gui/hud_core_v030.py:225-300 | After any records: the motor is on exactly if the last value told was not zero; density and write protect are the last told; the phase is the last step's. |
| `HudStream.LampsUntold` | 1541hud/gui/hud_core_v030.py:225-300 | What was never told stays as it was; home has been seen exactly if some record said so. |
| `HudStream.DirectionTold` | 1541hud/gui/hud_core_v030.py:225-266 | The direction is that of the last step in or out, unless the motor has been told off since. |
| `HudStream.PositionTold` | 1541hud/gui/hud_core_v030.py:255-266 | The position is the last anchor's, moved by the steps since. |
| `HudStream.CandidateTold` | 1541hud/gui/hud_core_v030.py:374-386 | With no anchor yet there is no position, and the last track told waits to be one. |
| `HudCore.PositionsAgreeIff` | 1541hud/gui/hud_core_v030.py:255-266 | Told the same events, GUI and probe have the same head position after every one of them if and only if the GUI is never told to step in at half-step 254. |
| `HudCore.CeilingParts` | 1541hud/artifacts/T0.0.16/1541hud_probe_t016_v072_baseline_SOURCE.c:262-269 | There the probe's byte stops and the GUI goes on. |
| `HudState.TrackStateFields` | 1541hud/artifacts/T0.0.16/1541hud_probe_t016_v072_baseline_SOURCE.c:250-260 | Every field of the packed track state is unpacked as it was. |
| `HudState.StateLineFits` | 1541hud/artifacts/T0.0.16/usb_main_t016_1541hud_baseline_SOURCE.c:165-182 | The state record fits its 160-byte buffer with its CRLF. |
| `HudState.FormatState` | 1541hud/artifacts/T0.0.16/usb_main_t016_1541hud_baseline_SOURCE.c:165-182 | The bridge appends exactly that record. |
| `HudState.FieldsFound` | 1541hud/gui/hud_core_v030.py:22-26 | Each of the five searches finds its own field of the record and no look-alike before it, with the values printed. |
| `HudState.StateHeard` | 1541hud/gui/hud_core_v030.py:307-348 | The GUI takes from the record exactly what the mailbox held. |
| `Reconnect.WalkEnds` | 1541hud/gui/hud_core_v030.py:255-266 | Where a walk stopped at half-step 2 ends, from its net movement and its lowest point since the last write of track 1. |
| `Reconnect.LowestIsLeast` | 1541hud/gui/hud_core_v030.py:255-266 | Without a write of track 1 that lowest point is the least net movement on the way. |
| `Reconnect.WordsHeard` | 1541hud/artifacts/T0.0.16/1541hud_probe_t016_v072_baseline_SOURCE.c:159-170 | In every interleaving the GUI hears the words offered since the bridge sampled the queue, in order, less those a full queue refused; all of them exactly if none was. |
| `Reconnect.SnapshotGap` | 1541hud/artifacts/T0.0.16/usb_main_t016_1541hud_baseline_SOURCE.c:149-182 | A snapshot newer than the sample has heard the words of the gap, which are sent again; an older one lacks the words of one write, of which at most one moves the head. |
| `Reconnect.ReconnectAgreesIff` | 1541hud/artifacts/T0.0.16/usb_main_t016_1541hud_baseline_SOURCE.c:149-258 | For every interleaving, full queues included, with every write harmless: the GUI ends where the probe is if and only if the walk of the words heard, from the snapshot's position, ends where the walk of all words offered since the sample does, from the position then. |
| `Reconnect.UnrefusedAgreesIff` | 1541hud/artifacts/T0.0.16/usb_main_t016_1541hud_baseline_SOURCE.c:149-258 | With no word refused: if and only if the snapshot showed the position at the sample, or track 1 was written since, or the steps since drive both against the stop. |
| `Reconnect.ReturnsIff` | 1541hud/gui/hud_core_v030.py:255-266 | When the events of such a gap leave the position as it was. |
| `Reconnect.CountedTwice` | 1541hud/artifacts/T0.0.16/usb_main_t016_1541hud_baseline_SOURCE.c:149-182 | One step inward between sample and snapshot leaves the GUI a half-step too far in. |
| `Reconnect.StepLost` | 1541hud/artifacts/T0.0.16/1541hud_probe_t016_v072_baseline_SOURCE.c:396-407 | One step inward offered but not yet published when the bridge connects leaves it a half-step too far out. |
| `Reconnect.QueueFull` | 1541hud/artifacts/T0.0.16/1541hud_probe_t016_v072_baseline_SOURCE.c:159-170 | Of n steps inward with the host not reading, the GUI hears the 31 the queue has room for; the others are refused and lost to it. |
| `DmaRing.ChannelRuns` | 1541hud/artifacts/T0.0.16/1541hud_probe_t016_v072_baseline_SOURCE.c:271-282 | Over any run of the channel the transfers so far account for the register and its reloads, and neither count goes back. |
| `DmaRing.AdvancedExactIff` | 1541hud/artifacts/T0.0.16/1541hud_probe_t016_v072_baseline_SOURCE.c:271-282 | The count of transfers between two readings is exact if and only if there were fewer than a full count (or exactly one from full to empty). |
| `DmaRing.Probe.UpdateProducer` | 1541hud/artifacts/T0.0.16/1541hud_probe_t016_v072_baseline_SOURCE.c:271-282 | The running total stays the number of transfers modulo 2^32. |
| `DmaRing.Probe.UpdateRingHealth` | 1541hud/artifacts/T0.0.16/1541hud_probe_t016_v072_baseline_SOURCE.c:284-299 | Afterwards at most 64 words are behind; what was given up is counted, and pressure is counted from 48. |
| `DmaRing.Probe.Drain` | 1541hud/artifacts/T0.0.16/1541hud_probe_t016_v072_baseline_SOURCE.c:667-692 | The consume loop keeps consumer_total = consumed_count + ring_overrun modulo 2^32, one word per turn, until none is waiting. |
| `DmaRing.Probe.Turn` | 1541hud/artifacts/T0.0.16/1541hud_probe_t016_v072_baseline_SOURCE.c:650-692 | One turn of the main loop keeps the accounts, with at most 64 words behind. |
| `DmaRing.TakenInOrder` | 1541hud/artifacts/T0.0.16/1541hud_probe_t016_v072_baseline_SOURCE.c:669-670 | The word a healthy consumer takes is the one the ring held for its number when last sampled. |
| `BusDecode.CycleDecodes` | 1541hud/artifacts/T0.0.16/1541hud_probe_t016_v072_baseline_SOURCE.c:104-144 | Every address, data byte and select decodes to what was on the bus. |
| `BusDecode.EventIffHeader` | 1541hud/artifacts/T0.0.16/1541hud_probe_t016_v072_baseline_SOURCE.c:442-492 | A write queues a header event if and only if the last five writes to $16-$1A are $18, $19, $1A, $17, $16 with track 1-127 and sector at most 31, whatever lies between; the event carries their track, sector and time. |
| `HeaderTiming.SpeedInferred` | 1541hud/artifacts/T0.0.16/1541hud_probe_t016_v072_baseline_SOURCE.c:465-489 | For any tick count of one to four revolutions at 280-320 RPM that number is inferred, the value is rounded to nearest and nothing reaches 32 bits. |
| `HeaderTiming.SpeedRecordIff` | 1541hud/artifacts/T0.0.16/1541hud_probe_t016_v072_baseline_SOURCE.c:465-489 | A time gives a record if and only if one to four revolutions at a speed that rounds to 280.00-320.00 RPM explain it; and then those. |
| `HeaderTiming.RecordForRevolutions` | 1541hud/artifacts/T0.0.16/1541hud_probe_t016_v072_baseline_SOURCE.c:465-489 | ... and the record is given, across the wrap of the 16-bit tick count. |
| `ProbeDecode.RpmEventIff` | 1541hud/artifacts/T0.0.16/1541hud_probe_t016_v072_baseline_SOURCE.c:369-489 | After any run, an access queues a speed record if and only if it completes a header, an earlier access completed one of the same sector, nothing in between reported a head step, a stopping motor or another pass of that sector, and the two times give that record. |
| `ProbeDecode.ClearedIffStirs` | 1541hud/artifacts/T0.0.16/1541hud_probe_t016_v072_baseline_SOURCE.c:369-393 | The history is cleared by exactly the accesses that report a head step or a stopping motor. |
| `ProbeDecode.HeaderEventIff` | 1541hud/artifacts/T0.0.16/1541hud_probe_t016_v072_baseline_SOURCE.c:442-492 | The header statement for whole runs of captured writes through the decoder. |
| `ProbeDecode.Decoder.Decode` | 1541hud/artifacts/T0.0.16/1541hud_probe_t016_v072_baseline_SOURCE.c:346-563 | One captured write updates the decoder and what it publishes, and queues events, as specified. |
| `ProbeDecode.Decoder.SnapshotShows` | 1541hud/artifacts/T0.0.16/usb_main_t016_1541hud_baseline_SOURCE.c:165-177 | Between writes, what the bridge would read from the mailbox is what the decoder knows. |
| `ProbeDecode.AccessOfCycle` | 1541hud/artifacts/T0.0.16/1541hud_probe_t016_v072_baseline_SOURCE.c:104-144 | Which bus cycle is which write: the output register, DRVST at $20, DRVTRK at $22, LWPT at $1E, the header at $16-$1A. |
| `ProbeDecode.LastWritesKnown` | 1541hud/artifacts/T0.0.16/1541hud_probe_t016_v072_baseline_SOURCE.c:358-428 | After any run the decoder knows what the last write of each kind said, by its bits. |
| `ProbeDecode.NothingKnown` | 1541hud/artifacts/T0.0.16/1541hud_probe_t016_v072_baseline_SOURCE.c:573-578 | ... and nothing of a kind that never came. |
| `ProbeDecode.PositionAfter` | 1541hud/artifacts/T0.0.16/1541hud_probe_t016_v072_baseline_SOURCE.c:384-411 | After any run, where each write leaves the head: track 1 at half-step 2; a settle, or the first track while none is known, at twice the track; a phase one on or one back a half-step in or out, within 2 and 254. |
| `ProbeDecode.SettlesOnTrack` | 1541hud/artifacts/T0.0.16/1541hud_probe_t016_v072_baseline_SOURCE.c:495-514 | A settle after a run that last named track t leaves the head at half-step 2t. |
| `ProbeDecode.OrbQueues` | 1541hud/artifacts/T0.0.16/1541hud_probe_t016_v072_baseline_SOURCE.c:369-428 | What a write to the output register queues, by the bits of the one before it. |
| `ProbeDecode.FirstOrbQueues` | 1541hud/artifacts/T0.0.16/1541hud_probe_t016_v072_baseline_SOURCE.c:369-428 | The first one queues motor and density, and no phase. |
| `ProbeDecode.OthersQueue` | 1541hud/artifacts/T0.0.16/1541hud_probe_t016_v072_baseline_SOURCE.c:517-563 | What the other writes queue. |
| `ProbeDecode.GuiFollowsProbeIff` | 1541hud/artifacts/T0.0.16/1541hud_probe_t016_v072_baseline_SOURCE.c:384-541 | The GUI that hears all of a run's events stands where the probe does all through it if and only if no access steps in at the ceiling and every settle names the track where the steps had led. |
| `ProbeDecode.SettleUntold` | 1541hud/artifacts/T0.0.16/1541hud_probe_t016_v072_baseline_SOURCE.c:495-514 | A settle emits no event and puts the head at twice the track named; only if it was there already does it stay. |

## Left out

- The RTT control block, the channel table and its names, the interrupt lock that makes the two cores one writer, and the down channels. The ring model starts from one channel.
- The 32-bit `int` of the formatter: widths and precisions are unbounded here, so overflow for values near 2^31 is not modelled; nor is an argument of another type than its directive asks for, which reads as zero or absent.
- `ControlPins.Placed` and `ControlPins.SelectsApart`: that the select lines lie in the sampled window, apart from the address lines, is taken from the metadata generator as given. `pio_get_unobserved_addr_bits`.
- `KnockWait.InitKnock`: the chip-select mask it also builds, which the matcher does not use.
- `KnockWait.WaitForKnock`: polls for ever in the source; here over any finite sequence of polls, assuming fewer than a ring of captures separates every other poll. Null pointers are not modelled, nor the width of the ring's entries.
- `PinMap.Valid`: distinct pins inside the sampled window, and a 16-bit part's extra table bit, are taken from the metadata generator as given.
- The AlgCs2 serving program sets no wrap bottom: its first instruction is assumed.
- PIO instruction encodings, delays above what an instruction can hold, FIFO stalls, clock dividers, pin directions outside the OUT range, and the address-read half of the monitor. The PIO's IRQ flag is modelled as an event each time it is set.
- `RamSlots.Device`: that the SRAM image holds its slots and that regions are aligned below 2^32 are assumed, as the linker script and the memory map provide them. Flash slots and their copying.
- Exiting exclusive mode without holding it, and the busy-wait delays.
- The LED state machine program, the alarm register itself, timing of a shared pin's parking against a pending pixel, and `pio_led_get`.
- Freshness of a ring word while DMA may overwrite it during the read: `DmaRing.TakenInOrder` is about the ring as last sampled.
- `ProbeDecode.Decoder.Decode`: the mailbox's diagnostic counters and last raw values, and the SYNC counter. What the bridge reads of the mailbox is modelled as it stands between two writes, except in `Reconnect`, where the position may lag its event.
- `Reconnect.ReconnectAgreesIff`: one reconnection, from a bridge that was away; writes that are not harmless in the sense of `ProbeDecode.GuiFollowsProbeIff`. Offering a word is one step, as `EventQueue` shows the queue to be sound below that.
- `EventQueue.EventsConserved`: starts from an empty queue and leaves out the probe's own start-up stores to the mailbox while the bridge may already run. CDC writes are all or nothing, as the bridge checks for room first.
- When the bridge sends which record: `HudStream` takes any order. The GUI's version label, which STATE and STATUS records set, and its optional -RC suffix.
- The GUI's timers, widgets and serial port: the delayed commit of a track candidate and of write protection, and the stall timeout with the head lamp, which also clears the direction. Non-ASCII bytes, which the GUI drops.
- The host wrappers that widen the GUI's patterns: only their STATE and STATUS labels are used (1541hud/gui/1541HUD_T0.0.16.py:34-35); the module they extend is not part of this model.
- `pioram.c`, PLL settings, boot block and vector table, descriptors, TinyUSB and picoboot, build and release scripts: hardware plumbing, or easy next to the rest.
