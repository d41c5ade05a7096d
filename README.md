# rc-switch, modelled in Dafny

rc-switch drives cheap 433 MHz transmitters and receivers to switch remote
power sockets. A socket is addressed by a short code word. Most words are
tri-state words over '0', '1' and 'F', one word per DIP-switch, rotary-switch
or Intertechno setting. Quigg sockets take a binary word. The transmitter
sends such a word as a train of high and low levels, each lasting a whole
number of pulse lengths. A transmission repeats the word several times and
ends each repeat with a long sync gap. The receiver runs in an interrupt. It
timestamps every level change, recognises the sync gap between two repeats,
and decodes the levels in between as pairs against each protocol's '0' and
'1' shapes, within a tolerance window.

The repository holds four successive versions of the library. Each has its
own modules here, and no version is merged into another:

| version | modules |
|---|---|
| `branches/raspberry-quigg` | `QuiggHeader` (timing tables, ids, defaults), `QuiggCodes` (code-word builders A to E, `dec2bin`), `QuiggReceiver` (`receiveProtocol`, `handleInterrupt`), `QuiggSwitch` (settings, `save`/`load`, transmit and senders) |
| root `RCSwitch.cpp`/`RCSwitch.h` | `MainHeader` (`HighLow`/`Protocol` descriptors and their waveform), `MainCodes` (builders A to D, `dec2binWcharfill`), `MainReceiver` (`receiveProtocol1..3`, `handleInterrupt`), `MainSwitch` (settings, transmit and senders), `MainLink` (a sender and a receiver joined without loss: the round trip through protocol 1) |
| `trunk/RCSwitch.cpp` | `Trunk` (String builders, inline protocol-1 decoder in `receiveInterrupt`, transmit and senders) |
| `trunk/RCSwitch/RCSwitch.cpp` | `Legacy` (13-symbol words ending in 'S', `send` with `send0`/`send1`/`sendF`/`sendSync`) |

Two modules are shared by all versions. `Common` holds `Option`, 32-bit
unsigned arithmetic, pulses and traces, and the digit strings of a number.
`Decoder` holds the pair-matching decoder that all three receivers compute
the same way.

How C++ constructs appear in the model:
- A builder that returns NULL or an empty String returns `None` or `[]`.
- A builder that fills a `new char[]` or a static buffer through a write
  cursor is a method over an `array<char>`. It is proved equal to a
  pure word function, and round-trip lemmas are proved about that function.
- Objects whose fields the source updates are classes: `RCSwitch` and the
  static receive state (`Receiver`).
- Class statics are one object that every `RCSwitch` is constructed with:
  the `Receiver`, and the digit buffer `bin[64]` of `dec2binWcharfill` or
  `dec2binWzerofill`. Two switches built over the same objects share them
  as the C++ instances do.
- Pin activity is an appended trace of `Pulse(high, micros)`.
- The interrupt's clock is a `now` parameter.
- `unsigned long` arithmetic is written out modulo 2^32.

## Model

| member | source | states |
|---|---|---|
| Common.WrapIsMod | RCSwitch.cpp:646-652 | converting an integer to `unsigned long` leaves its remainder modulo 2^32 |
| Common.AddSub32Wrap | RCSwitch.cpp:650-652 | the window bounds `delay*k ± tolerance` are the exact sum and difference converted to 32 bits: a negative lower bound wraps to a huge value |
| Common.InsideExact | RCSwitch.cpp:650-652 | without wrap-around the tolerance test accepts exactly the open interval centre ± tolerance |
| Common.InsideWrapped | RCSwitch.cpp:650-652 | when the tolerance exceeds the centre, the wrapped lower bound makes the test reject every 32-bit timing |
| Common.DigitsValue | branches/raspberry-quigg/RCSwitch.cpp:961-974 | reading the n digits of `d` back as binary gives `d mod 2^n` |
| Common.DigitsLowBits | branches/raspberry-quigg/RCSwitch.cpp:961-974 | bits of `d` at or above position n do not influence its n digits |
| Common.DigitsOfValue | branches/raspberry-quigg/RCSwitch.cpp:961-974 | writing the value of a '0'/'1' string back as digits gives the string: the inverse direction of `DigitsValue` |
| Common.WaveDuration | RCSwitch.h:106-115 | one transmit of (first, second) lasts (first + second) pulse lengths |
| Common.EmitConcat | RCSwitch.cpp:473-496 | transmitting `a` and then `b` has the same effect on the pin trace and receive state as transmitting `a + b` |
| Common.CStr | RCSwitch.cpp:455-471 | the C string of a buffer is a prefix that holds no NUL and is followed by the NUL |
| QuiggHeader.BitShapes | branches/raspberry-quigg/RCSwitch.h:64-94 | in protocols A to D a '0' and a '1' last equally long, their first levels differ by at least one pulse length, and every sync factor is positive |
| QuiggCodes.Dec2Bin | branches/raspberry-quigg/RCSwitch.cpp:961-974 | a fresh buffer of n + 1 characters: character i is '1' exactly when bit n-1-i of `dec` is set and `fill` otherwise, then a NUL |
| QuiggCodes.Dec2BinValue | branches/raspberry-quigg/RCSwitch.cpp:961-974 | dec2bin's string has length n and reads back as `dec mod 2^n`, so a `dec` below 2^n round-trips |
| QuiggCodes.DipSymbols | branches/raspberry-quigg/RCSwitch.cpp:308-316 | each DIP pole becomes one address symbol, 'F' exactly where the pole reads '0' and '0' otherwise |
| QuiggCodes.NormalDips | branches/raspberry-quigg/RCSwitch.cpp:308-316 | the DIP setting a word reads back as: '0' exactly where the pole reads '0', '1' otherwise |
| QuiggCodes.CodeWordA | branches/raspberry-quigg/RCSwitch.cpp:303-323 | the type A word has 12 symbols, and its ten address symbols are all '0' or 'F' |
| QuiggCodes.ParseA | branches/raspberry-quigg/RCSwitch.cpp:303-323 | a word that parses gives back two five-position DIP settings |
| QuiggCodes.CodeWordAParses | branches/raspberry-quigg/RCSwitch.cpp:303-323 | parsing a built type A word recovers the group DIPs, the device DIPs (every character other than '0' read as on) and the status |
| QuiggCodes.ParseABuilds | branches/raspberry-quigg/RCSwitch.cpp:303-323 | every word that parses is the word built from what it reads: the converse of `CodeWordAParses` |
| QuiggCodes.GetCodeWordA | branches/raspberry-quigg/RCSwitch.cpp:303-323 | the buffer filled through the cursor holds the type A word and a NUL |
| QuiggCodes.CodeWordB | branches/raspberry-quigg/RCSwitch.cpp:341-367 | a word exists exactly for address and channel in 1..4; it has 12 symbols and "FFF" at positions 8 to 10 |
| QuiggCodes.PositionB | branches/raspberry-quigg/RCSwitch.cpp:45-48 | the position a four-symbol address code stands for is one whose table row is that code |
| QuiggCodes.CodeWordBRoundTrip | branches/raspberry-quigg/RCSwitch.cpp:341-367 | building and parsing type B words are inverse in both directions |
| QuiggCodes.GetCodeWordB | branches/raspberry-quigg/RCSwitch.cpp:341-367 | null exactly when the word does not exist; otherwise a fresh buffer with the word and a NUL |
| QuiggCodes.FamilyIndex | branches/raspberry-quigg/RCSwitch.cpp:380-391 | after folding capitals, a family has an index exactly when it is 'a'..'f' or 'A'..'F' |
| QuiggCodes.Nibble | branches/raspberry-quigg/RCSwitch.cpp:401-406 | the device-and-group part of a type C word is four symbols |
| QuiggCodes.NibbleRoundTrip | branches/raspberry-quigg/RCSwitch.cpp:401-406 | the four symbols read back give the number (device-1)+4*(group-1) |
| QuiggCodes.NibbleBits | branches/raspberry-quigg/RCSwitch.cpp:401-406 | symbol i is 'F' exactly when bit i of the number is set, least significant first |
| QuiggCodes.FamiliesDistinct | branches/raspberry-quigg/RCSwitch.cpp:49-53 | the family codes of 'a' to 'f' are pairwise distinct |
| QuiggCodes.CodeWordC | branches/raspberry-quigg/RCSwitch.cpp:372-416 | a word exists exactly for family a-f/A-F, group 1..4 and device 1..4; it has 12 symbols with "0FF" at positions 8 to 10 |
| QuiggCodes.NibbleOfValue | branches/raspberry-quigg/RCSwitch.cpp:401-406 | four '0'/'F' symbols are the nibble of their own value: the converse of `NibbleRoundTrip` |
| QuiggCodes.CodeWordCParses | branches/raspberry-quigg/RCSwitch.cpp:372-416 | parsing a built type C word recovers the family (in lower case), group, device and status |
| QuiggCodes.ParseCBuilds | branches/raspberry-quigg/RCSwitch.cpp:372-416 | every word that parses is the word built from what it reads |
| QuiggCodes.GetCodeWordC | branches/raspberry-quigg/RCSwitch.cpp:372-416 | null exactly when the word does not exist; otherwise the buffer holds the word and a NUL |
| QuiggCodes.FillC | branches/raspberry-quigg/RCSwitch.cpp:393-414 | given dec2bin's four digits of the number, the buffer holds the family code, the digits reversed as 'F'/'0', "0FF", the status symbol and a NUL |
| QuiggCodes.CodeWordD | branches/raspberry-quigg/RCSwitch.cpp:439-461 | the Quigg word has 21 bits: start bit '1', then the twelve group characters |
| QuiggCodes.CommandsDistinct | branches/raspberry-quigg/RCSwitch.cpp:54-58 | the ten command codes are pairwise distinct, so the command identifies device and status |
| QuiggCodes.CodeWordDRoundTrip | branches/raspberry-quigg/RCSwitch.cpp:439-461 | building and parsing Quigg words are inverse in both directions |
| QuiggCodes.GetCodeWordD | branches/raspberry-quigg/RCSwitch.cpp:439-461 | the fresh buffer holds the Quigg word and a NUL |
| QuiggCodes.GroupE | branches/raspberry-quigg/RCSwitch.cpp:486-507 | a group code exists exactly for a/A to d/D, and it has four symbols |
| QuiggCodes.DeviceE | branches/raspberry-quigg/RCSwitch.cpp:521-536 | a device code exists exactly for devices 1 to 3, and it has three symbols |
| QuiggCodes.CodeWordE | branches/raspberry-quigg/RCSwitch.cpp:484-557 | a REV word exists exactly for a valid group and device |
| QuiggCodes.GroupCodesE | branches/raspberry-quigg/RCSwitch.cpp:486-507 | dec2bin(8,4,'F') to dec2bin(1,4,'F') are the one-hot codes "1FFF", "F1FF", "FF1F", "FFF1" |
| QuiggCodes.DeviceCodesE | branches/raspberry-quigg/RCSwitch.cpp:521-536 | dec2bin(4,3,'F') to dec2bin(1,3,'F') are "1FF", "F1F", "FF1" |
| QuiggCodes.CodeWordEParses | branches/raspberry-quigg/RCSwitch.cpp:484-557 | parsing a built REV word recovers the group (in lower case), device and status |
| QuiggCodes.ParseEBuilds | branches/raspberry-quigg/RCSwitch.cpp:484-557 | every word that parses is the word built from what it reads |
| QuiggCodes.GroupCode | branches/raspberry-quigg/RCSwitch.cpp:486-507 | the group switch yields dec2bin's one-hot string exactly for a valid group |
| QuiggCodes.DeviceCode | branches/raspberry-quigg/RCSwitch.cpp:521-536 | the device switch yields dec2bin's one-hot string exactly for a valid device |
| QuiggCodes.GetCodeWordE | branches/raspberry-quigg/RCSwitch.cpp:484-557 | null exactly for a bad group or device; otherwise the buffer holds the REV word and a NUL |
| QuiggReceiver.Decoded | branches/raspberry-quigg/RCSwitch.cpp:844-872 | the code of one attempt is below 2^31: the final right shift clears the top bit |
| QuiggReceiver.FirstMatch | branches/raspberry-quigg/RCSwitch.cpp:903-917 | the chain stops at the first protocol of A, B, C whose attempt decodes a nonzero code, every earlier one decoding 0, or else at D |
| QuiggReceiver.Receiver.constructor | branches/raspberry-quigg/RCSwitch.cpp:37-42 | the statics start at zero with tolerance 60, and nothing is available |
| QuiggReceiver.Receiver.SetReceiveTolerance | branches/raspberry-quigg/RCSwitch.cpp:271-274 | the tolerance becomes the given percentage |
| QuiggReceiver.Receiver.ResetAvailable | branches/raspberry-quigg/RCSwitch.cpp:806-809 | only the received value is cleared, and `available()` becomes false |
| QuiggReceiver.Receiver.ReceiveProtocol | branches/raspberry-quigg/RCSwitch.cpp:836-881 | an id above TYPE_MAXIMUM fails and publishes nothing; otherwise the result is "decoded code ≠ 0", and a packet of more than 6 changes publishes code, changeCount/2, delay and protocol even when the code is 0 |
| QuiggReceiver.Receiver.ReceiveAny | branches/raspberry-quigg/RCSwitch.cpp:903-917 | the published report is the one the chain A, B, C, D leaves |
| QuiggReceiver.Receiver.HandleInterrupt | branches/raspberry-quigg/RCSwitch.cpp:883-934 | the complete new state: duration stored at the new slot; repeat gap (> 5000 and within ±200 of slot 0) counts and decodes every second time; any long gap restarts the packet but keeps repeatCount; overflow at 67 clears both counters; afterwards 1 ≤ changeCount ≤ 67 |
| QuiggReceiver.Receiver.CountRepeat | branches/raspberry-quigg/RCSwitch.cpp:899-920 | a repeat gap drops itself from the packet, decodes on the second repeat, resets repeatCount then, and restarts the packet |
| QuiggReceiver.Receiver.Separate | branches/raspberry-quigg/RCSwitch.cpp:894-925 | the gap tests before the store: the repeat gap and plain long gap cases, with repeatCount ≤ 2 |
| QuiggSwitch.BitDuration | branches/raspberry-quigg/RCSwitch.cpp:633-690 | in every protocol send0 and send1 last one bit period |
| QuiggSwitch.WordDuration | branches/raspberry-quigg/RCSwitch.cpp:562-588 | a binary word lasts its length times the bit period, whatever its digits |
| QuiggSwitch.WordWaveSnoc | branches/raspberry-quigg/RCSwitch.cpp:564-584 | one more character appends exactly that character's pulses |
| QuiggSwitch.WordWaveConcat | branches/raspberry-quigg/RCSwitch.cpp:564-584 | the pulses of a concatenated word are the concatenated pulses |
| QuiggSwitch.WordWavePair | branches/raspberry-quigg/RCSwitch.cpp:564-584 | a two-character word sends its two symbols in order |
| QuiggSwitch.TriPairWave | branches/raspberry-quigg/RCSwitch.cpp:698-724 | the bit pair spelling a tri-state symbol sends two bits: "00", "11" or "01" |
| QuiggSwitch.TriShapesA | branches/raspberry-quigg/RCSwitch.cpp:698-724 | under protocol A, T0 is two '0' bits, T1 two '1' bits and TF a '0' then a '1' |
| QuiggSwitch.TriStateIsBinaryA | branches/raspberry-quigg/RCSwitch.cpp:562-588 | under protocol A, sending a word tri-state equals sending its two-bit spelling as binary |
| QuiggSwitch.Configure | branches/raspberry-quigg/RCSwitch.cpp:221-249 | an id outside the table leaves the settings unchanged; a protocol A to D is selected with positive pulse length and repeat count, from the table when the argument is not positive |
| QuiggSwitch.SaveLoadRestores | branches/raspberry-quigg/RCSwitch.cpp:976-994 | save followed by load restores the settings exactly when they are ones setProtocol can reproduce |
| QuiggSwitch.ConfigureIdempotent | branches/raspberry-quigg/RCSwitch.cpp:221-249 | setProtocol twice with the same arguments is setProtocol once |
| QuiggSwitch.RCSwitch.constructor | branches/raspberry-quigg/RCSwitch.cpp:108-124 | no pins, auto-change off, protocol A with its table pulse length and repeat count, empty backup, nothing sent; the receive state passed in is the shared one, its tolerance reset to 60 and nothing received |
| QuiggSwitch.RCSwitch.SetProtocol | branches/raspberry-quigg/RCSwitch.cpp:221-249 | the new settings are `Configure` of the old ones |
| QuiggSwitch.RCSwitch.SetPulseLength | branches/raspberry-quigg/RCSwitch.cpp:254-257 | the pulse length becomes the argument |
| QuiggSwitch.RCSwitch.SetRepeatTransmit | branches/raspberry-quigg/RCSwitch.cpp:262-265 | the repeat count becomes the argument |
| QuiggSwitch.RCSwitch.EnableTransmit | branches/raspberry-quigg/RCSwitch.cpp:283-287 | the transmitter pin becomes the argument |
| QuiggSwitch.RCSwitch.DisableTransmit | branches/raspberry-quigg/RCSwitch.cpp:292-295 | the transmitter pin becomes -1 |
| QuiggSwitch.RCSwitch.SetAutoChangeMode | branches/raspberry-quigg/RCSwitch.cpp:765-768 | the auto-change flag becomes the argument |
| QuiggSwitch.RCSwitch.Save | branches/raspberry-quigg/RCSwitch.cpp:976-986 | outside auto-change mode nothing changes; inside it the backup is the old settings and the protocol switches to the argument's defaults |
| QuiggSwitch.RCSwitch.Load | branches/raspberry-quigg/RCSwitch.cpp:988-994 | outside auto-change mode nothing changes; inside it the backup goes through setProtocol |
| QuiggSwitch.RCSwitch.EnableReceive | branches/raspberry-quigg/RCSwitch.cpp:781-790 | with an interrupt set, value and bit length are cleared; otherwise nothing changes |
| QuiggSwitch.RCSwitch.EnableReceiveOn | branches/raspberry-quigg/RCSwitch.cpp:775-780 | sets the interrupt, then acts as enableReceive() |
| QuiggSwitch.RCSwitch.DisableReceive | branches/raspberry-quigg/RCSwitch.cpp:795-799 | the receiver interrupt becomes -1 |
| QuiggSwitch.RCSwitch.Available | branches/raspberry-quigg/RCSwitch.cpp:801-804 | true exactly when the published value is nonzero |
| QuiggSwitch.RCSwitch.ResetAvailable | branches/raspberry-quigg/RCSwitch.cpp:806-809 | the published value becomes 0 and nothing else changes |
| QuiggSwitch.RCSwitch.Transmit | branches/raspberry-quigg/RCSwitch.cpp:597-621 | without a pin nothing happens; otherwise the two levels, first at the requested level, are appended, and the receiver is cleared when re-enabled |
| QuiggSwitch.RCSwitch.Send0 | branches/raspberry-quigg/RCSwitch.cpp:633-655 | the current protocol's '0' row, in its level order |
| QuiggSwitch.RCSwitch.Send1 | branches/raspberry-quigg/RCSwitch.cpp:668-690 | the current protocol's '1' row, in its level order |
| QuiggSwitch.RCSwitch.SendT0 | branches/raspberry-quigg/RCSwitch.cpp:698-702 | (1,3)(1,3) whatever the protocol |
| QuiggSwitch.RCSwitch.SendT1 | branches/raspberry-quigg/RCSwitch.cpp:709-713 | (3,1)(3,1) whatever the protocol |
| QuiggSwitch.RCSwitch.SendTF | branches/raspberry-quigg/RCSwitch.cpp:720-724 | (1,3)(3,1) whatever the protocol |
| QuiggSwitch.RCSwitch.SendSync | branches/raspberry-quigg/RCSwitch.cpp:737-758 | (1,31), (1,10), (4,71) or (0,1) for protocols A to D, nothing for TYPE_UNDEF |
| QuiggSwitch.RCSwitch.SendSymbol | branches/raspberry-quigg/RCSwitch.cpp:566-583 | '0'/'1' as tri-state or binary symbols, 'F'/'f' only in tri-state mode, anything else nothing |
| QuiggSwitch.RCSwitch.Send | branches/raspberry-quigg/RCSwitch.cpp:562-588 | `repeatTransmit` rounds of the C string's symbols, each closed by one sync |
| QuiggSwitch.RCSwitch.SendRound | branches/raspberry-quigg/RCSwitch.cpp:564-586 | one round: the symbols before the NUL, then the sync |
| QuiggSwitch.RCSwitch.SendWord | branches/raspberry-quigg/RCSwitch.cpp:565-585 | the symbols of the characters before the NUL |
| QuiggSwitch.RCSwitch.SendTriState | branches/raspberry-quigg/RCSwitch.h:137 | sendTriState(w) emits what send(w, true) emits |
| QuiggSwitch.RCSwitch.SendCode | branches/raspberry-quigg/RCSwitch.cpp:590-595 | the n low bits of the code, as dec2bin writes them, sent as a binary word |
| MainHeader.Expand | RCSwitch.h:106-115 | a `HighLow` is two levels |
| MainHeader.ExpandDuration | RCSwitch.h:106-115 | a `HighLow` lasts (high + low) × pulseLength, inverted or not |
| MainHeader.ExpandLevels | RCSwitch.h:129-145 | uninverted: high for high × pulseLength then low for low × pulseLength; inverted: low first for high × pulseLength, then high |
| MainHeader.Inverted | RCSwitch.h:129-145 | inversion keeps the number of levels |
| MainHeader.InvertedSignal | RCSwitch.h:129-145 | the inverted expansion swaps every level and keeps every duration |
| MainCodes.SigBits | RCSwitch.cpp:805-808 | the first loop runs zero times exactly for 0 |
| MainCodes.SigBitsFits | RCSwitch.cpp:805-808 | `Dec` needs at most n shifts exactly when it is below 2^n |
| MainCodes.HighBitsClear | RCSwitch.cpp:805-808 | bits above the significant ones are clear |
| MainCodes.Stored | RCSwitch.cpp:805-808 | the first loop leaves the buffer length unchanged |
| MainCodes.Copied | RCSwitch.cpp:810-816 | the second loop leaves the buffer length unchanged |
| MainCodes.CharFillBuffer | RCSwitch.cpp:801-820 | the buffer after dec2binWcharfill has a NUL at position n |
| MainCodes.StoredAt | RCSwitch.cpp:805-808 | after the first loop, slot 32+k holds bit k for every significant bit, and every other slot is unchanged |
| MainCodes.CopiedAt | RCSwitch.cpp:810-816 | up to n = 33 the second loop never reads a slot it has written |
| MainCodes.CharFillAt | RCSwitch.cpp:801-820 | character k for n ≤ 33: the digit of bit n-1-k when `Dec` fits in n bits, else `fill` |
| MainCodes.CharFillDigits | RCSwitch.cpp:801-820 | for n ≤ 33: the n digits MSB first with 0-bits and padding as `fill` when `Dec` < 2^n; all `fill` when it does not fit (the unsigned `bitLength - i` at line 811 wraps); NUL at n |
| MainCodes.ZeroFillValue | RCSwitch.cpp:797-799 | with fill '0', a fitting value's string reads back as the value |
| MainCodes.CopiedLast | RCSwitch.cpp:810-816 | for n ≥ 34 the last position gets slot 32 after the loop has already overwritten it with `fill` |
| MainCodes.CharFillDropsLowBit | RCSwitch.cpp:801-820 | for n ≥ 34 a small value's last digit is `fill` whatever its low bit |
| MainCodes.ZeroFillOneIn34 | RCSwitch.cpp:797-820 | dec2binWzerofill(1, 34) ends in '0' where the digits of 1 end in '1' |
| MainCodes.Dec2BinWcharfill | RCSwitch.cpp:801-820 | the static buffer afterwards is `CharFillBuffer` of its old contents |
| MainCodes.StoreBits | RCSwitch.cpp:805-808 | the first loop stores `SigBits(Dec)` ≤ 32 bits, least significant at slot 32 |
| MainCodes.CopyBits | RCSwitch.cpp:810-816 | the second loop fills positions 0 to n-1 as `Copied` describes |
| MainCodes.Dec2BinWzerofill | RCSwitch.cpp:797-799 | dec2binWcharfill with fill '0' |
| MainCodes.GetCodeWordA | RCSwitch.cpp:278-310 | the fresh buffer holds the raspberry-quigg type A word and a NUL |
| MainCodes.GetCodeWordB | RCSwitch.cpp:241-270 | null exactly when the raspberry-quigg type B word does not exist; otherwise that word and a NUL |
| MainCodes.FamilyIndex | RCSwitch.cpp:319-326 | a family has an index exactly when it is 'a'..'p', and the index is family - 97 |
| MainCodes.FamilyCodeIsNibble | RCSwitch.cpp:324 | the family code of index k is k written as an 'F'/'0' nibble |
| MainCodes.FamilyCodesAreNibbles | RCSwitch.cpp:324 | all 16 family codes are their index's nibble |
| MainCodes.CodeWordC | RCSwitch.cpp:315-341 | a word exists exactly for lower-case family 'a'..'p', group 1..4 and device 1..4; 12 symbols with "0FF" at 8 to 10 |
| MainCodes.NibbleSymbols | RCSwitch.cpp:328-330 | the device-and-group symbols are all '0' or 'F' |
| MainCodes.CodeWordCParses | RCSwitch.cpp:315-341 | parsing a built word recovers family, group, device and status |
| MainCodes.ParseCBuilds | RCSwitch.cpp:315-341 | every word that parses is the word built from what it reads |
| MainCodes.GetCodeWordC | RCSwitch.cpp:315-341 | null exactly when the word does not exist, with the static buffer untouched; otherwise the word and a NUL, the buffer holding dec2binWzerofill's digits |
| MainCodes.FillC | RCSwitch.cpp:324-340 | from the buffer's four digits: family code, digits reversed as 'F'/'0', "0FF", status and NUL |
| MainCodes.GroupValue | RCSwitch.cpp:371-391 | the group converts to a nonzero value exactly for a/A to d/D |
| MainCodes.DeviceValue | RCSwitch.cpp:397-409 | the device converts to a nonzero value exactly for 1 to 3 |
| MainCodes.GroupDigits | RCSwitch.cpp:371-391 | the group's conversion with fill 'F' is the one-hot group code |
| MainCodes.DeviceDigits | RCSwitch.cpp:397-409 | the device's conversion with fill 'F' is the one-hot device code |
| MainCodes.ConvertGroup | RCSwitch.cpp:371-391 | success exactly for a valid group; the buffer is untouched on failure and holds the group code on success |
| MainCodes.ConvertDevice | RCSwitch.cpp:397-409 | success exactly for a valid device; the buffer is untouched on failure and holds the device code on success |
| MainCodes.CommandD | RCSwitch.cpp:411-423 | positions 7 to 11 become "00010" (on) or "00001" (off), then the NUL; the first seven are kept |
| MainCodes.GetCodeWordD | RCSwitch.cpp:364-425 | null exactly for a bad group or device; otherwise the raspberry-quigg REV word and a NUL, and what the static buffer holds in each case |
| MainReceiver.ShapeOf | RCSwitch.cpp:642-754 | every protocol's sync factor is positive given protocol 3's |
| MainReceiver.Decoded | RCSwitch.cpp:642-676 | a code is below 2^31: the final right shift clears the top bit |
| MainReceiver.FirstMatch | RCSwitch.cpp:771-777 | the chain stops at the first of protocols 1, 2 whose attempt decodes a nonzero code, every earlier one decoding 0, or else at 3 |
| MainReceiver.Receiver.constructor | RCSwitch.cpp:32-39 | the statics start at zero with tolerance 60, and nothing is available |
| MainReceiver.Receiver.SetReceiveTolerance | RCSwitch.cpp:96-98 | the tolerance becomes the given percentage |
| MainReceiver.Receiver.ResetAvailable | RCSwitch.cpp:615-617 | only the value is cleared, and `available()` becomes false |
| MainReceiver.Receiver.ReceiveProtocol | RCSwitch.cpp:642-754 | the result is "decoded code ≠ 0"; more than 6 changes publish code, changeCount/2, delay and protocol even for code 0 |
| MainReceiver.Receiver.ReceiveAny | RCSwitch.cpp:771-777 | the published report is the one the chain 1, 2, 3 leaves |
| MainReceiver.Receiver.HandleInterrupt | RCSwitch.cpp:756-791 | the complete new state, by the same gap, repeat and overflow rules as the raspberry-quigg handler, with capacity 132 |
| MainReceiver.Receiver.CountRepeat | RCSwitch.cpp:768-780 | a repeat gap drops itself, decodes on the second repeat, resets repeatCount then, and restarts the packet |
| MainReceiver.Receiver.Separate | RCSwitch.cpp:767-783 | the repeat gap and plain long gap cases before the store |
| MainSwitch.Descriptor | RCSwitch.cpp:56-67 | protocols 1 to 3 as `Protocol` descriptors: not inverted, no latch, '0' and '1' equally long |
| MainSwitch.ShapesAreDescriptors | RCSwitch.cpp:504-584 | send0, send1 and sendSync of protocols 1 to 3 are the expansions of the descriptors' zero, one and sync pulses |
| MainSwitch.BitDuration | RCSwitch.cpp:504-533 | send0 and send1 last one bit period |
| MainSwitch.WordDuration | RCSwitch.cpp:455-471 | a binary word lasts its length times the bit period |
| MainSwitch.WordWaveSnoc | RCSwitch.cpp:458-468 | one more character appends that character's pulses |
| MainSwitch.WordWaveConcat | RCSwitch.cpp:458-468 | the pulses of a concatenated word are the concatenated pulses |
| MainSwitch.TriShapes | RCSwitch.cpp:541-564 | under protocol 1, T0 is "00", T1 is "11" and TF is "01" as bits |
| MainSwitch.TriPairWave | RCSwitch.cpp:541-564 | under protocol 1 a tri-state symbol sends exactly its two-bit spelling |
| MainSwitch.TriStateIsBinary | RCSwitch.cpp:430-471 | under protocol 1, sendTriState(w) sends what send() sends for the two-bit spelling of w |
| MainSwitch.CStrPrefix | RCSwitch.cpp:458 | a buffer with n non-NUL characters before a NUL holds those n as its string |
| MainSwitch.SendCodeWord | RCSwitch.cpp:451-453 | send(code, n) sends the n digits of a fitting code, and n zeros when the code does not fit |
| MainSwitch.RCSwitch.constructor | RCSwitch.cpp:41-51 | no pin, protocol 1 at 350 µs, 10 repeats, no interrupt, nothing sent; the receive state and digit buffer passed in are the shared ones, the tolerance reset to 60 and nothing received |
| MainSwitch.SecondSwitchResetsTolerance | RCSwitch.cpp:32-51 | two switches share one receive state and digit buffer, and constructing the second sets the tolerance the first chose back to 60 and clears the received value |
| MainSwitch.RCSwitch.SetProtocol | RCSwitch.cpp:56-67 | the protocol is `n`; the pulse length becomes 350, 650 or 100 for 1, 2, 3 and is unchanged otherwise |
| MainSwitch.RCSwitch.SetProtocolWith | RCSwitch.cpp:72-75 | both values are set unconditionally |
| MainSwitch.RCSwitch.SetPulseLength | RCSwitch.cpp:81-83 | the pulse length becomes the argument |
| MainSwitch.RCSwitch.SetRepeatTransmit | RCSwitch.cpp:88-90 | the repeat count becomes the argument |
| MainSwitch.RCSwitch.SetReceiveTolerance | RCSwitch.cpp:96-98 | the receiver's tolerance becomes the argument |
| MainSwitch.RCSwitch.EnableTransmit | RCSwitch.cpp:107-110 | the transmitter pin becomes the argument |
| MainSwitch.RCSwitch.DisableTransmit | RCSwitch.cpp:115-117 | the transmitter pin becomes -1 |
| MainSwitch.RCSwitch.EnableReceive | RCSwitch.cpp:595-601 | with an interrupt set, value and bit length are cleared; otherwise nothing changes |
| MainSwitch.RCSwitch.EnableReceiveOn | RCSwitch.cpp:590-593 | sets the interrupt, then acts as enableReceive() |
| MainSwitch.RCSwitch.DisableReceive | RCSwitch.cpp:606-609 | the receiver interrupt becomes -1 |
| MainSwitch.RCSwitch.Available | RCSwitch.cpp:611-613 | true exactly when the value is nonzero |
| MainSwitch.RCSwitch.ResetAvailable | RCSwitch.cpp:615-617 | the value becomes 0 and nothing else changes |
| MainSwitch.RCSwitch.Transmit | RCSwitch.cpp:473-496 | without a pin nothing happens; otherwise high then low are appended, and the receiver is cleared when re-enabled |
| MainSwitch.RCSwitch.Send0 | RCSwitch.cpp:504-514 | (1,3), (1,2) or (4,11) for protocols 1 to 3, nothing otherwise |
| MainSwitch.RCSwitch.Send1 | RCSwitch.cpp:523-533 | (3,1), (2,1) or (9,6) for protocols 1 to 3, nothing otherwise |
| MainSwitch.RCSwitch.SendT0 | RCSwitch.cpp:541-544 | (1,3)(1,3) |
| MainSwitch.RCSwitch.SendT1 | RCSwitch.cpp:551-554 | (3,1)(3,1) |
| MainSwitch.RCSwitch.SendTF | RCSwitch.cpp:561-564 | (1,3)(3,1) |
| MainSwitch.RCSwitch.SendSync | RCSwitch.cpp:573-584 | (1,31), (1,10) or (1,71) for protocols 1 to 3, nothing otherwise |
| MainSwitch.RCSwitch.SendSymbol | RCSwitch.cpp:433-444 | '0', 'F', '1' as tri-state symbols, or '0', '1' as bits; other characters nothing |
| MainSwitch.RCSwitch.SendWord | RCSwitch.cpp:432-446 | the symbols of the characters before the NUL |
| MainSwitch.RCSwitch.SendRound | RCSwitch.cpp:432-447 | one round: the symbols, then the sync |
| MainSwitch.RCSwitch.SendRounds | RCSwitch.cpp:431-448 | `nRepeatTransmit` rounds |
| MainSwitch.RCSwitch.SendTriState | RCSwitch.cpp:430-449 | `nRepeatTransmit` rounds of tri-state symbols, each closed by the sync |
| MainSwitch.RCSwitch.Send | RCSwitch.cpp:455-471 | `nRepeatTransmit` rounds of bits, each closed by the sync |
| MainSwitch.RCSwitch.SendCode | RCSwitch.cpp:451-453 | the static buffer gets dec2binWzerofill's digits and those are sent as bits |
| MainLink.ElapsedIsDuration | RCSwitch.cpp:764-765 | the unsigned difference of two `micros()` readings d apart is d modulo 2^32, whatever the first reading |
| MainLink.SenderLeavesBuffer | RCSwitch.cpp:430-471 | with two or more repeats, the levels sent from the last level of the first round to the high level of the second round's sync are one round turned to start with its sync gap, the buffer `Buffered` |
| MainLink.BinaryWave | RCSwitch.cpp:504-533 | under protocol 1, bit k of a binary word is levels 2k and 2k+1: high 3 and low 1 pulse lengths for '1', high 1 and low 3 for '0' |
| MainLink.BufferedBinary | RCSwitch.cpp:756-792 | the buffer after a binary round holds the 31-pulse sync gap in slot 0, the word's levels in slots 1 to 2n, and the sync's high level last |
| MainLink.Protocol1Windows | RCSwitch.cpp:642-656 | for pulse lengths and tolerances where nothing wraps, `timings[0]/31` gives back the pulse length, each level lies inside its own window and a 3-pulse level lies outside the 1-pulse window |
| MainLink.SentWordCarried | RCSwitch.cpp:642-656 | the buffer a binary round leaves carries every bit of the word in protocol 1's windows, and its sync slot gives back the sender's pulse length |
| MainLink.SentWordDecodes | RCSwitch.cpp:642-676 | send() of a binary word of up to 31 digits, received without loss, is decoded by receiveProtocol1 to the word's value with the sender's pulse length |
| MainLink.BufferedTriState | RCSwitch.cpp:541-565 | under protocol 1 a tri-state round leaves the same buffer as its two-bits-per-symbol spelling sent with send() |
| MainLink.SentTriStateDecodes | RCSwitch.cpp:430-449 | sendTriState() of a word of up to 15 symbols, received without loss, is decoded by receiveProtocol1 to the value of its spelling with the sender's pulse length |
| MainLink.TriBitsBinary | RCSwitch.cpp:541-565 | the spelling of a tri-state word uses only '0' and '1' |
| MainLink.TriBitsAt | RCSwitch.cpp:541-565 | symbol k of a tri-state word is spelled by bits 2k and 2k+1 |
| MainLink.TriBitsInjective | RCSwitch.cpp:541-565 | two tri-state words of one length with the same spelling are equal |
| MainLink.TriStateValueInjective | RCSwitch.cpp:541-565 | two tri-state words of one length whose spellings decode to the same value are equal |
| MainLink.TypeBIsTriState | RCSwitch.cpp:241-276 | every type B word is made of '0', '1' and 'F' |
| MainLink.TypeBRoundTrip | RCSwitch.cpp:241-276 | a type B word sent with sendTriState() and received without loss decodes to a value matching the spelling of another type B command exactly when address, channel and state are the same |
| MainLink.TypeBScenario | RCSwitch.cpp:756-792 | group 1, channel 1, on is "0FFF0FFFFFFF"; sent at 350 µs and received without loss it publishes value 0x151555, 24 bits, pulse length 350, protocol 1 at the default tolerance |
| MainLink.ScenarioBits | RCSwitch.cpp:541-565 | "0FFF0FFFFFFF" is spelled "000101010001010101010101" |
| MainLink.ScenarioValue | RCSwitch.cpp:642-656 | that spelling read most significant bit first is 0x151555 |
| MainLink.SpelledRound | RCSwitch.cpp:430-449 | a sendable word's round under protocol 1 is the round of a binary spelling of at most 31 bits, and leaves the same buffer |
| MainLink.BufferedRotates | RCSwitch.cpp:455-470 | the buffer is the round's levels shifted by one slot, with the round's closing sync gap in slot 0 |
| MainLink.BinaryLevels | RCSwitch.cpp:767 | at a separable pulse length a binary round's buffer holds 31 pulse lengths in slot 0, above the 5000 µs limit, and at most 3 pulse lengths, within it, everywhere else |
| MainLink.BufferedLevels | RCSwitch.cpp:767 | the same for every sendable word, whose spelling has at most 31 bits |
| MainLink.ScanPrefix | RCSwitch.cpp:648-660 | the decoding loop over `changeCount` changes reads no slot above `changeCount` |
| MainLink.ChainPrefix | RCSwitch.cpp:642-676 | the chain of protocols 1 to 3 over `changeCount` changes gives the same report for two buffers that agree up to slot `changeCount` |
| MainLink.HearLevel | RCSwitch.cpp:763-791 | an edge at most 5000 µs after the last one, with the buffer not full, stores its duration in the next slot and changes nothing else |
| MainLink.HearGap | RCSwitch.cpp:763-791 | an edge more than 5000 µs after the last one restarts the buffer with its duration in slot 0; when it repeats slot 0 within 200 µs it counts a repeat, and on the second one publishes the chain over the changes before it |
| MainLink.HearLevels | RCSwitch.cpp:763-791 | a run of short edges fills the next slots in order and leaves the earlier slots, the repeat count and the report alone |
| MainLink.HearRound | RCSwitch.cpp:756-792 | hearing one round of a sendable word at a separable pulse length leaves the sync gap in slot 0, counts a repeat when slot 0 held that gap before, and on the second repeat publishes the chain over the round's buffer |
| MainLink.HearTransmission | RCSwitch.cpp:756-792 | a receiver that has heard nothing yet, hearing the first three rounds of a sendable word at a separable pulse length, publishes the chain over `Buffered` with 2n+1 changes, n the spelled length |
| MainLink.WordPublishes | RCSwitch.cpp:642-676 | that chain, for a binary word of 3 to 31 digits with a nonzero value and a lossless pulse length and tolerance, reports the word's value, its length, the sender's pulse length and protocol 1 |
| MainLink.BufferedPublishes | RCSwitch.cpp:642-676 | the same for a sendable word, reporting the value and length of its spelling |
| MainLink.HearScenario | RCSwitch.cpp:756-792 | a receiver at the default tolerance that has heard nothing yet, hearing sendTriState("0FFF0FFFFFFF") at 350 µs, publishes 0x151555, 24 bits, 350 µs, protocol 1 |
| Decoder.GapNeedsData | branches/raspberry-quigg/RCSwitch.cpp:894-897 | with slot 0 still zero no gap counts as a repeat, because `0 - 200` wraps |
| Decoder.Decode | branches/raspberry-quigg/RCSwitch.cpp:844-872 | one attempt's code is below 2^31 |
| Decoder.ScanRejects | branches/raspberry-quigg/RCSwitch.cpp:865-870 | once a pair matches neither shape, the attempt ends with code 0 whatever came before |
| Decoder.NoiseRejected | branches/raspberry-quigg/RCSwitch.cpp:848-872 | a packet with any pair matching neither shape decodes to 0 |
| Decoder.ScanReadsBits | branches/raspberry-quigg/RCSwitch.cpp:848-871 | the loop invariant: after reading j pairs the code is twice the value of the first j digits |
| Decoder.DecodesWord | branches/raspberry-quigg/RCSwitch.cpp:844-872 | timings whose pairs carry a binary word of up to 31 digits decode to that word's value |
| Trunk.CodeWordBParses | trunk/RCSwitch.cpp:128-136 | the word is empty exactly for a position outside 1..4; otherwise it is the raspberry-quigg type B word and reads back, and every parsing word is the one built |
| Trunk.ChannelCodeIsDip | trunk/RCSwitch.cpp:142 | channel n's code is the DIP word with only switch n on |
| Trunk.CodeWordAParses | trunk/RCSwitch.cpp:141-158 | empty exactly unless the group has 5 characters and the channel is 1..5; otherwise the raspberry-quigg type A word for that channel, and it reads back both ways |
| Trunk.DecodeIntended | trunk/RCSwitch.cpp:319-336 | the corrected decoder's code is below 2^31 |
| Trunk.AsWrittenAcceptsLongPulse | trunk/RCSwitch.cpp:326 | as written, a 2000 µs high level at pulse length 350 decodes as '1', and an exact '1' at pulse length 10 is rejected; the corrected test does the opposite in both cases |
| Trunk.IntendedDecodesWord | trunk/RCSwitch.cpp:319-336 | the corrected decoder reads back every binary word of up to 31 digits that the timings carry |
| Trunk.ScanAsWrittenAgrees | trunk/RCSwitch.cpp:319-336 | where the written '1' bound lies above the intended one, the loop as written reads every carried pair as the intended loop does |
| Trunk.AsWrittenDecodesWord | trunk/RCSwitch.cpp:319-336 | at pulse lengths from 14 µs until delay × tolerance wraps, the handler as written still reads back every carried binary word of up to 31 digits |
| Trunk.Receiver.constructor | trunk/RCSwitch.cpp:304-308 | the statics start at zero and no callback has been made |
| Trunk.Receiver.DecodePacket | trunk/RCSwitch.cpp:319-336 | the loop computes the code of the decoder as written, with the '1' bound delay × tolerance, and the pulse length timings[0]/31 |
| Trunk.Receiver.CountRepeat | trunk/RCSwitch.cpp:315-340 | on the second repeat the callback gets (the code as written, changeCount/2, delay, timings) even for code 0 and however short the packet, then repeatCount is 0 |
| Trunk.Receiver.Separate | trunk/RCSwitch.cpp:314-343 | the repeat gap and plain long gap cases before the store, the callback getting the code as written |
| Trunk.Receiver.ReceiveInterrupt | trunk/RCSwitch.cpp:302-351 | the complete new state, by the shared gap, repeat and overflow rules, with the callback log extended on every second repeat by the code as written |
| Trunk.EmittedConcat | trunk/RCSwitch.cpp:207-222 | sending `a` then `b` is sending `a + b` |
| Trunk.ShapesAt | trunk/RCSwitch.cpp:229-280 | '0' is (1,3), '1' is (3,1), T0/T1/TF are the two-level tri-state shapes and the sync is (1,31) |
| Trunk.RCSwitch.constructor | trunk/RCSwitch.cpp:27-31 | no interrupt, no pin, 350 µs pulses, nothing sent, over the shared digit buffer |
| Trunk.RCSwitch.WithPin | trunk/RCSwitch.cpp:36-38 | only the transmitter pin is set, over the shared digit buffer |
| Trunk.RCSwitch.WithPinAndDelay | trunk/RCSwitch.cpp:43-46 | the pulse length and the transmitter pin are set, over the shared digit buffer |
| Trunk.RCSwitch.SetPulseLength | trunk/RCSwitch.cpp:51-53 | the pulse length becomes the argument |
| Trunk.RCSwitch.EnableTransmit | trunk/RCSwitch.cpp:60-63 | the transmitter pin becomes the argument |
| Trunk.RCSwitch.DisableTransmit | trunk/RCSwitch.cpp:68-70 | the transmitter pin becomes -1 |
| Trunk.RCSwitch.EnableReceive | trunk/RCSwitch.cpp:285-289 | the receiver interrupt becomes the argument |
| Trunk.RCSwitch.DisableReceive | trunk/RCSwitch.cpp:294-297 | the receiver interrupt becomes -1 |
| Trunk.RCSwitch.Transmit | trunk/RCSwitch.cpp:207-222 | without a pin nothing; otherwise high then low are appended and the interrupt is restored |
| Trunk.RCSwitch.Send0 | trunk/RCSwitch.cpp:229-231 | (1,3) |
| Trunk.RCSwitch.Send1 | trunk/RCSwitch.cpp:238-240 | (3,1) |
| Trunk.RCSwitch.SendT0 | trunk/RCSwitch.cpp:248-251 | (1,3)(1,3) |
| Trunk.RCSwitch.SendT1 | trunk/RCSwitch.cpp:258-261 | (3,1)(3,1) |
| Trunk.RCSwitch.SendTF | trunk/RCSwitch.cpp:268-271 | (1,3)(3,1) |
| Trunk.RCSwitch.SendSync | trunk/RCSwitch.cpp:278-280 | (1,31) |
| Trunk.RCSwitch.SendSymbol | trunk/RCSwitch.cpp:168-178 | '0', 'F', '1' as tri-state symbols or '0', '1' as bits; other characters nothing |
| Trunk.RCSwitch.SendTriStateRound | trunk/RCSwitch.cpp:167-180 | every character of the String, then the sync |
| Trunk.RCSwitch.SendTriState | trunk/RCSwitch.cpp:165-182 | exactly ten rounds, each closed by the sync |
| Trunk.RCSwitch.SendBits | trunk/RCSwitch.cpp:191-202 | the bits of the characters before the NUL |
| Trunk.RCSwitch.SendRound | trunk/RCSwitch.cpp:191-203 | one round: the bits, then the sync |
| Trunk.RCSwitch.Send | trunk/RCSwitch.cpp:189-205 | exactly ten rounds of bits, each closed by the sync |
| Trunk.RCSwitch.SendCode | trunk/RCSwitch.cpp:184-187 | dec2binWzerofill runs twice into the static buffer, and the digits it leaves are sent |
| Legacy.CodeWordsAreTrunkWords | trunk/RCSwitch/RCSwitch.cpp:126-156 | getCodeWord and getCodeWord2 are the trunk's type B and type A words followed by 'S', and reject the same arguments |
| Legacy.TrunkWordsHaveNoSync | trunk/RCSwitch/RCSwitch.cpp:126-156 | a nonempty word before its 'S' has 12 symbols, none of them 'S' |
| Legacy.SquareEndsLow | trunk/RCSwitch/RCSwitch.cpp:190-243 | a nonempty square trace starts high and ends low |
| Legacy.SymbolSquare | trunk/RCSwitch/RCSwitch.cpp:190-243 | every symbol waveform starts high, alternates and ends low |
| Legacy.SymbolsSquare | trunk/RCSwitch/RCSwitch.cpp:166-181 | one pass keeps alternating levels |
| Legacy.RepeatSquare | trunk/RCSwitch/RCSwitch.cpp:165-182 | repeating a square waveform keeps it square |
| Legacy.SendSquare | trunk/RCSwitch/RCSwitch.cpp:163-183 | whatever the word, send keeps the trace square and leaves the pin low |
| Legacy.EmptySendsNothing | trunk/RCSwitch/RCSwitch.cpp:163-183 | the empty word a builder returns for bad arguments sends nothing |
| Legacy.SymbolsAreTriState | trunk/RCSwitch/RCSwitch.cpp:166-181 | characters without 'S' emit what the trunk's sendTriState emits for them |
| Legacy.SyncWordIsTriState | trunk/RCSwitch/RCSwitch.cpp:163-183 | sending twelve symbols and 'S' is the trunk's sendTriState of the twelve symbols |
| Legacy.SwitchMatchesTrunk | trunk/RCSwitch/RCSwitch.cpp:76-108 | switchOn/switchOff send the trunk's sendTriState waveform of the same address, or nothing for addresses both reject |
| Legacy.RCSwitch.constructor | trunk/RCSwitch/RCSwitch.cpp:52-56 | the pin is set and the pulse length is 469 µs |
| Legacy.RCSwitch.WithDelay | trunk/RCSwitch/RCSwitch.cpp:64-68 | the pin and pulse length are the arguments |
| Legacy.RCSwitch.Level | trunk/RCSwitch/RCSwitch.cpp:191-192 | one digitalWrite and delay append one level of `units` pulse lengths |
| Legacy.RCSwitch.Send0 | trunk/RCSwitch/RCSwitch.cpp:190-199 | H1 L3 H1 L3 |
| Legacy.RCSwitch.Send1 | trunk/RCSwitch/RCSwitch.cpp:206-215 | H3 L1 H3 L1 |
| Legacy.RCSwitch.SendF | trunk/RCSwitch/RCSwitch.cpp:222-231 | H1 L3 H3 L1 |
| Legacy.RCSwitch.SendSync | trunk/RCSwitch/RCSwitch.cpp:238-243 | H1 L31 |
| Legacy.RCSwitch.SendSymbol | trunk/RCSwitch/RCSwitch.cpp:167-180 | '0', 'F', '1', 'S' to their waveforms; other characters nothing |
| Legacy.RCSwitch.SendRound | trunk/RCSwitch/RCSwitch.cpp:166-181 | characters 0 to 12, a String's end reading as NUL |
| Legacy.RCSwitch.Send | trunk/RCSwitch/RCSwitch.cpp:163-183 | ten passes; a square trace stays square and the pin ends low |

## Left out

- GPIO and timing (`digitalWrite`, `pinMode`, `delayMicroseconds`, `micros`, `attachInterrupt`, `detachInterrupt`): the pin is a trace of pulses, and the interrupt's clock is the `now` argument.
- Interrupt preemption and concurrency: each handler is one sequential state transition.
- Floating-point tolerances (`* 0.01`, `* 0.3`): both are `Mul32(delay, percent) / 100`, rounded down, with 0.3 as 30 percent. The float product can round differently near integer boundaries.
- `unsigned int` is taken to be 32 bits wide, like `unsigned long`.
- The 80 ms pause after the protocol D sync (branches/raspberry-quigg/RCSwitch.cpp:752-753) is not a pin level and is not recorded.
- `Serial.println` at trunk/RCSwitch.cpp:185 is only its call to dec2binWzerofill, which matters because it writes the static buffer.
- The `switchOn`/`switchOff`/`toggleType*` wrappers of every version only compose a builder with a sender. They are covered by the builder and sender contracts, and for the oldest version by `Legacy.SwitchMatchesTrunk`.
- The getters (`getReceivedValue`, etc.) return fields that the `Published` report states directly.
- `delete` of the raspberry-quigg builders' `new char[]` results is not modelled.
- MainCodes.GetCodeWordA, MainCodes.GetCodeWordB, MainCodes.GetCodeWordC, MainCodes.GetCodeWordD: each returns a fresh array where the source returns its own `static char sReturn[13]` (`sDipSwitches` for A). The model does not capture that the next call of the same builder overwrites a word the caller still holds.
- The PROTOCOL3_* constants are defined in no header of the repository. They are a parameter of the receive state's constructor, with a positive sync factor.
- rts.c and rctest.cpp are OS I/O and command-line driving, and are not part of this model.
- branches/string2chararray/RCSwitch.h and trunk/RCSwitch.h contain declarations only. The trunk receiver's capacity of 67 changes comes from branches/string2chararray/RCSwitch.h:31, the header written for that callback API.
- The trunk's `mCallback` is recorded as the log `heard` of its arguments.
- Trunk.RCSwitch.WithPin: the source leaves the pulse length and receiver interrupt uninitialised, so the model leaves them unconstrained.
- Legacy.RCSwitch.SendRound: reading an Arduino `String` past its end is modelled as reading NUL.
- QuiggReceiver.Receiver.ReceiveProtocol: requires a protocol other than TYPE_UNDEF. The source's range check lets 0 through and then divides by `SYNC_FACTOR[0]`, which is 0.
- QuiggCodes.GetCodeWordD: requires a device in 0..4 and a group of at least 12 characters. The source does not check the device before indexing `TYPE_D_CODE`, and reading outside that table is undefined behaviour.
- QuiggCodes.GetCodeWordA: requires both DIP strings to have at least five characters, which the source reads without checking.
- MainCodes.GetCodeWordA: requires both DIP strings to have at least five characters, for the same reason.
- QuiggSwitch.RCSwitch.Send: requires the word to hold a NUL, which the C string contract assumes.
- MainSwitch.RCSwitch.Send: requires the word to hold a NUL, which the C string contract assumes.
- MainCodes.Dec2BinWcharfill, MainCodes.Dec2BinWzerofill, MainSwitch.RCSwitch.SendCode, Trunk.RCSwitch.SendCode: require a bit length below 64. At 64 or more the source writes `bin[bitLength]` past its 64-character static buffer (RCSwitch.cpp:817, trunk/RCSwitch.cpp:372), which is undefined behaviour.
- MainLink.HearTransmission: covers a receiver that has heard nothing since construction and the first three rounds only. It needs pulse lengths from 162 to 1666 µs, where the 5000 µs limit separates the sync gap from every bit level. Below that range the handler never separates the rounds; above it a 3-pulse level also restarts the buffer. It also needs an idle time before the first edge that is not within 200 µs of the sync gap.
- MainCodes.CharFillDigits: describes bit lengths up to 33 only. Above that, the second loop's reads of the already written buffer are characterised by `MainCodes.CharFillDropsLowBit` rather than in full.

## Findings

| source | as written | input that shows it | evidently intended | confidence | as-written member | corrected member |
|---|---|---|---|---|---|---|
| trunk/RCSwitch.cpp:326 | the upper bound on a '1' bit's high level is `delay*+delayTolerance`, i.e. delay × tolerance | timings [10850, 2000, 350] (pulse length 350) decode as 1 although the high level lasts 2000 µs; timings [310, 30, 10] (pulse length 10) decode as 0 although they are an exact '1' | `delay*3+delayTolerance`, the bound every other version and the adjacent '0' test use | high; not executed | Trunk.AsWrittenAcceptsLongPulse | Trunk.IntendedDecodesWord |
