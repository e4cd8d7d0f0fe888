# Verified models of the sidelink stack's core algorithms

A Dafny project about the five parts of the repository whose correctness is an argument across functions, steps or
threads rather than a matter of reading one body. `dafny verify dfyconfig.toml` checks everything.

| file | what it models |
|---|---|
| `Bits.dfy` | unsigned arithmetic, masks and shifts on numbers, and numbers as bit sequences |
| `BitRef.dfy` | the bit cursor `bit_ref`: a class over a byte array that packs, unpacks and aligns |
| `Integers.dfy`, `Lengths.dfy`, `Strings.dfy`, `Numbers.dfy`, `ExtGroups.dfy` | the encoders and decoders on top of the cursor: whole numbers, normally small numbers, length determinants, enumerations, octet and bit strings, numbers kept in those, and extension-group headers |
| `OpenField.dfy` | the two guards for open-type fields, which write a nested message to a side buffer and copy it back |
| `Schema.dfy`, `Messages.dfy` | messages composed of such fields, lists and nested open-type fields; and packing and unpacking whole messages |
| `Exactness.dfy`, `Acceptance.dfy` | what the encodings of the fields are bit by bit, and that decoders accept these and nothing else, field by field and message by message |
| `Locality.dfy`, `RoundTrips.dfy` | that decoding depends on no bit behind its end; and when what was encoded is decoded |
| `Alignment.dfy` | open-type fields whose body disagrees with its reader on the byte boundaries |
| `Readers.dfy` | what the readers of messages do with any bits, well-formed or not |
| `Liblte.dfy` | the older codec with one bit per byte, which the cursor is proved to agree with |
| `ThreadPool.dfy` | the worker pool as interleaved steps of a dispatcher and its workers |
| `Deadlock.dfy` | when a wait for a worker never returns |
| `Calls.dfy` | what the calls of the pool lead to: starts, releases and waits |
| `Logger.dfy` | the log writer: a queue that a thread drains into rotated files |
| `JsonWriter.dfy` | the writer of indented JSON |
| `WordWrap.dfy` | the wrapper of road-sign messages, of which three lines are sent |

The code that changes things in place is imperative here too (`bit_ref`, the guards, the header, the octet string,
the JSON writer and the logger are classes with their fields). Each method is proved against a function on values,
and what the source promises is proved about those functions. For the codec, `Enc` says which bits an encoder writes
and whether it accepts its argument, `Emits(s, t, e, code)` says that a cursor went from `s` to `t` by appending
exactly those bits (earlier bits and later bytes unchanged, nothing past the limit, success exactly if accepted and
there was room), `Appends` says that without the outcome, and `Dec` is what a decoder reads at a bit position.

The encoding rules are those of ITU-T X.691, as the comments of the code number it: whole numbers (section 10.5),
normally small numbers (10.6), length determinants (10.9), open-type fields (10.2), enumerations (13), bit strings
(15), octet strings (16), extension additions (18).

## Main results

- Whole messages: `RoundTrips.RoundTrip`, `Messages.PackedReadsBack` and `Messages.PackAndUnpack`. A message over any
  schema that is accepted at any bit offset is decoded if and only if the bodies of its open-type fields fit their
  side buffers (`RoundTrips.Sized`), from any bits that contain it, up to where the writer stopped. What is decoded is
  the message if and only if its encoding holds all of it (`RoundTrips.Kept`). The one condition is on byte boundaries
  (`RoundTrips.Grounded`): an open-type field whose body depends on them starts on one.
- Decoding depends on no bit behind the one where it ends (`Locality.Local`), and accepts exactly the bits in which a
  message stands (`Acceptance.DecodesExactly`). `Exactness` says for each kind of field what these bits are.
- What success means: packing any message at any offset reports success if and only if `Schema.Reports` holds, and
  unpacking any bits has the outcome of `Readers.Read`.
- The worker pool, for any number of workers and every interleaving: mutual exclusion, no lost wake-up, one run per
  start, a bound on how many steps a wait for a worker can take, and deadlock freedom with its exact condition: a wait
  never returns if and only if every worker was forgotten by the caller (`Deadlock.WaitHangsIff`). A decision of the
  caller is what happens next to the worker (`Calls.DecisionFollows`), and a started worker runs by its eighth own step
  (`Calls.StartedRuns`).
- The masked reader and the bit-per-byte reader agree at every position and width (`Liblte.ReadBothWays`).
- The greedy wrap of sign messages cannot be improved (`WordWrap.FewestLines`, `MostText`, `ThreeLinesSuffice`).
- Nothing that is logged is lost or reordered, it is written by the writer's own next steps (`Logger.WrittenSoon`), and
  files are closed exactly at the limit.

## Where the code is not what one would expect

Each of these follows the code and is shown by a lemma or a contract, with the exact condition where it limits a
property.

- An open-type body that takes more than its side buffer of 1024 octets is cut off there. That is noticed if a field
  that checks its outcome meets the end of the buffer. It is not if the overflow comes from an unaligned integer, a
  list count or a nested open-type field: success is reported, and what was sent is not decoded, whatever follows it
  (`RoundTrips.RoundTrip`, `RoundTrips.CutOff`). Two octet strings of 600 octets each, the second in an open-type field
  of its own, are lost like that (`RoundTrips.LostMessage`).
- The body of an open-type field is aligned relative to its side buffer when written, but relative to the message
  when read. Starting on a byte boundary is sufficient for a body that depends on byte boundaries
  (`RoundTrips.Grounded`), but not always necessary. The exact condition is proved for three shapes of body that fit
  the side buffer. A lone aligned integer of 256 values or more comes back exactly when the field starts on a byte
  boundary (`Alignment.AlignedInOpenField`). Behind fields that do not depend on byte boundaries it also comes back
  when it is its lower bound and the reader pads less than the writer did (`Alignment.AlignedTail`). With an unaligned
  integer behind it, both come back elsewhere when both are their lower bounds and the reader does not run past the
  padding of the field (`Alignment.AlignedInFrame`), which makes a difference for small ranges
  (`Alignment.ZerosComeBack`).
- `ASN_16K` is 16383, so that the encoder refuses the length 16383, which its error text allows and which the
  decoder accepts (`Lengths.LongestLength`).
- Decoders accept forms that no encoder writes, and `Exactness` lists them: the long form of lengths below 128, and of
  16383 (`LengthExact`); extensions of an enumeration that its root's field has room for (`EnumExact`); extension flags
  with absent ones at their end (`ExtExact`); and aligned integers beyond their range (`AlignedExact`).
- The encoder of unaligned integers, and with it that of list counts, and the guard of open-type fields drop the
  outcome of their pack calls, so that success is reported without room (`Schema.ReportedWithoutRoom`). `Reports` is
  the exact condition; without such fields, success means that the message was accepted and fits
  (`Schema.CheckedReports`).
- The reader's guard drops the outcome of reading the length and of skipping the rest. A body that is read past the
  end of its field is reported as a success, with the cursor sent to the end of any buffer below 512 MiB
  (`OpenField.UnpackGuard.Close`, `Readers.ReadsBeyond`). A length in the fragmented form is stored as 0, and the body
  is read from two bits on (`Readers.ReadsFragmented`). Only where a flag bit is missing is no length stored; the
  cursor is then at the end of the buffer, where no length makes a difference (`Messages.UnpackValue`).
- The encoder of aligned integers does not check the range. A number comes back if and only if its distance from the
  lower bound, in the arithmetic of its type, is below two to the stored width (`Integers.AlignedRoundTrip`).
- Bit strings lose stray bits above their last one (`Strings.BitstringRoundTrip`).
- An extension header that is read into twice keeps stale flags (`ExtGroups.StaleFlags`).
- An empty open-type body gets length 0 (`OpenField.EmptyBody`), where section 10.1 of X.691 would give it one zero
  octet; reader and writer agree on it.
- The older codec packs an incomplete last byte at its low end, so that the bits do not come back as a prefix unless
  the tail is all zeros (`Liblte.BitsComeBack`).
- The synchronisation loop forgets the worker it was handed on a radio error. A wait for a worker never returns if and
  only if every worker was forgotten (`Deadlock.WaitHangsIff`), which can happen in a pool of any size
  (`Deadlock.DropDeadlocks`).
- The logger's destructor hangs if the thread is just about to look at an empty queue when it is told to stop
  (`Logger.StopEnds`, `Logger.StopCanHang`).
- Sign lines hold one character less than `MAX_MESSAGE_LENGTH` (`WordWrap.LimitIsOneLess`), and a first word that is
  too long wastes the first line (`WordWrap.LongFirstWord`).

## Model

| member | source | states |
|---|---|---|
| BitCursor.BitRef.constructor | sidelink/lib/src/asn1/asn1_utils.cc:112-118 | a new cursor is at the first bit of its buffer, below its limit |
| BitCursor.BitRef.Pack | sidelink/lib/src/asn1/asn1_utils.cc:141-166 | appends the n-bit big-endian form of the value modulo 2^n at any bit offset; every earlier bit, and every byte behind the new position, is unchanged; without room it fills the buffer up to the limit; success exactly if there was room |
| BitCursor.BitRef.Unpack | sidelink/lib/src/asn1/asn1_utils.cc:168-190 | succeeds exactly if n bits are left, moves by n, and returns the number that they spell for n up to 32; on failure the cursor is at the limit |
| BitCursor.DecAt | sidelink/lib/src/asn1/asn1_utils.cc:141-190 | reading n bits where a value was packed gives the value modulo 2^n, the value itself if it fits |
| BitCursor.EmitsAt | sidelink/lib/src/asn1/asn1_utils.cc:141-166 | what was packed with room is found at the old position, and the new position is right behind it |
| BitCursor.EmitsThen | sidelink/lib/include/srslte/asn1/asn1_utils.h:83-90 | two encoders run one after the other, the second only after success, write what the sequence writes, with the last outcome |
| BitCursor.EmitsRefused | sidelink/lib/include/srslte/asn1/asn1_utils.h:83-90 | an early return on an error leaves the buffer as the whole sequence of encoders would, and reports failure |
| BitCursor.BitRef.AlignBytes | sidelink/lib/src/asn1/asn1_utils.cc:192-203 | moves to the next byte boundary, and cannot fail |
| BitCursor.BitRef.AlignBytesZero | sidelink/lib/src/asn1/asn1_utils.cc:205-218 | appends zero bits up to the next byte boundary, and cannot fail |
| BitCursor.MasksMean | sidelink/lib/src/asn1/asn1_utils.cc:151-182 | the three masks, computed in wrapping 8-bit arithmetic, are the intended differences of powers of two, also at offset 0 |
| Bits.ShrLowAreDivMod | sidelink/lib/src/asn1/asn1_utils.cc:149-159 | the shifts and masks that the model is built from are division by a power of two and its remainder |
| Integers.CeilLog2 | sidelink/lib/src/asn1/asn1_utils.cc:344 | the least number of bits that tells x values apart |
| Integers.OffsetBits | sidelink/lib/src/asn1/asn1_utils.cc:345-346 | storing the offset in the integer type and converting it to 32 bits keeps the bits that are packed, for signed types too |
| Integers.TypeRanges | sidelink/lib/src/asn1/asn1_utils.cc:380-395 | the numbers that each of the eight integer types holds |
| Integers.PackUnaligned | sidelink/lib/src/asn1/asn1_utils.cc:336-349 | accepts exactly the numbers within the bounds and appends their offset; success is reported even when there was no room |
| Integers.UnpackUnaligned | sidelink/lib/src/asn1/asn1_utils.cc:360-379 | success exactly for numbers within the bounds, in the arithmetic of the integer type |
| Integers.UnalignedRoundTrip | sidelink/lib/src/asn1/asn1_utils.cc:336-379 | every number within the bounds reads back, with the reader right behind it |
| Integers.PackAligned | sidelink/lib/src/asn1/asn1_utils.cc:430-447 | the low bits of the offset, in ranges of 256 and more padded with zeros to whole octets on a byte boundary; success exactly if there was room |
| Integers.UnpackAligned | sidelink/lib/src/asn1/asn1_utils.cc:470-485 | reads either layout from any bit offset, and ends where the writer did |
| Integers.AlignedReadsBack | sidelink/lib/src/asn1/asn1_utils.cc:430-497 | for any stored offset, the reader returns the lower bound plus the offset modulo the stored width, wrapped to the type |
| Integers.AlignedRoundTrip | sidelink/lib/src/asn1/asn1_utils.cc:430-497 | any number of the type, in range or not, reads back if and only if its distance from the lower bound, modulo the size of the type, is below two to the stored width; in particular if it is within the bounds |
| Lengths.PackSmall | sidelink/lib/src/asn1/asn1_utils.cc:531-542 | 0 and six bits for numbers up to 63; for others a 1 is written and the number refused |
| Lengths.UnpackSmall | sidelink/lib/src/asn1/asn1_utils.cc:544-556 | the inverse, failing on the long form |
| Lengths.SmallRoundTrip | sidelink/lib/src/asn1/asn1_utils.cc:531-556 | every accepted number reads back |
| Lengths.PackLength | sidelink/lib/src/asn1/asn1_utils.cc:600-614 | the 8-bit form below 128, the 16-bit form below the limit, otherwise refused with nothing written |
| Lengths.UnpackLength | sidelink/lib/src/asn1/asn1_utils.cc:616-635 | reads both forms; fails on the fragmented one, with the length 0 stored and the cursor two bits on, and where bits are missing, with the cursor at the limit |
| Lengths.LengthRoundTrip | sidelink/lib/src/asn1/asn1_utils.cc:600-635 | a length is accepted if and only if it is below 16383, and then reads back in 8 or 16 bits |
| Lengths.LongestLength | sidelink/lib/include/srslte/asn1/asn1_utils.h:59 | the length 16383 is accepted by the decoder and refused by the encoder |
| Lengths.PackEnumExt | sidelink/lib/src/asn1/asn1_utils.cc:263-274 | an extension bit, then a plain field or a normally small number |
| Lengths.PackEnum | sidelink/lib/src/asn1/asn1_utils.cc:257-292 | refuses what is no value of the enumeration, otherwise writes its index |
| Lengths.UnpackEnum | sidelink/lib/src/asn1/asn1_utils.cc:294-320 | success, value and end position are those of decoding, which is exact by Exactness.EnumExact; failure otherwise |
| Lengths.EnumRoundTrip | sidelink/lib/src/asn1/asn1_utils.cc:257-320 | a value is accepted if and only if it exists and is among the first 64 extensions, and then reads back |
| Strings.DynOctstring.Pack | sidelink/lib/src/asn1/asn1_utils.cc:699-706 | length and octets are appended; success exactly if the length is accepted and there was room |
| Strings.DynOctstring.Unpack | sidelink/lib/src/asn1/asn1_utils.cc:708-717 | the octets that follow the length, or failure if any of them is missing |
| Strings.OctetsRoundTrip | sidelink/lib/src/asn1/asn1_utils.cc:699-717 | an octet string is accepted if and only if it is shorter than 16383 octets, and then reads back |
| Strings.PackBitstring | sidelink/lib/src/asn1/asn1_utils.cc:735-748 | the partial last octet first, then the others downwards; the empty bit string is refused |
| Strings.UnpackBitstring | sidelink/lib/src/asn1/asn1_utils.cc:750-763 | the same octets read into the buffer, nothing of which changes behind them |
| Strings.BitstringRoundTrip | sidelink/lib/src/asn1/asn1_utils.cc:735-763 | what reads back has no stray bits, and is the original if and only if that had none |
| Strings.NumberToBitstring | sidelink/lib/src/asn1/asn1_utils.cc:778-792 | the octets of the number, least significant first, with the bits above its width cleared; nothing for more than 64 bits |
| Strings.NumberAsBitstring | sidelink/lib/src/asn1/asn1_utils.cc:735-792 | storing a number as a bit string and packing that writes the very bits that packing the number writes, for every width up to 64 |
| Numbers.OctstringToNumber | sidelink/lib/src/asn1/asn1_utils.cc:641-652 | the number that the octets' bits spell, 0 for more than 8 octets |
| Numbers.NumberToOctstring | sidelink/lib/src/asn1/asn1_utils.cc:654-663 | the octets' bits are the number's binary form, and the rest of the buffer is unchanged |
| Numbers.OctstringNumberRoundTrip | sidelink/lib/src/asn1/asn1_utils.cc:641-663 | a number comes back modulo its width, unchanged if and only if it fits |
| Numbers.BitstringToNumber | sidelink/lib/src/asn1/asn1_utils.cc:765-777 | the number that the octets of a bit string spell in transmission order, stray bits included, where no shift overflows; 0 for more than 64 bits |
| Numbers.BitstringNumberRoundTrip | sidelink/lib/src/asn1/asn1_utils.cc:765-792 | a number comes back modulo its width, unchanged if and only if it fits |
| ExtGroups.ExtGroupsHeader.constructor | sidelink/lib/src/asn1/asn1_utils.cc:948-958 | every group is absent, and the count is unset |
| ExtGroups.ExtGroupsHeader.PackNofGroups | sidelink/lib/src/asn1/asn1_utils.cc:965-979 | the count is the place of the last group that is present; it is written, with the groups outside the header, less one, in unsigned arithmetic |
| ExtGroups.ExtGroupsHeader.PackGroupFlags | sidelink/lib/src/asn1/asn1_utils.cc:981-991 | one bit for each counted group, refused while the count is unset |
| ExtGroups.ExtGroupsHeader.Pack | sidelink/lib/src/asn1/asn1_utils.cc:993-997 | the count and the flags up to the last one that is present |
| ExtGroups.ExtGroupsHeader.UnpackNofGroups | sidelink/lib/src/asn1/asn1_utils.cc:999-1008 | accepts exactly the counts that the header has room for, in unsigned arithmetic |
| ExtGroups.ExtGroupsHeader.UnpackGroupFlags | sidelink/lib/src/asn1/asn1_utils.cc:1010-1020 | the counted flags are replaced and the others kept, or failure if the bits are missing |
| ExtGroups.ExtGroupsHeader.Unpack | sidelink/lib/src/asn1/asn1_utils.cc:1022-1026 | both of these, in order |
| ExtGroups.ExtRoundTrip | sidelink/lib/src/asn1/asn1_utils.cc:965-1026 | a fresh header gets back every flag, also the trailing absent ones that are not sent; packing is refused if and only if the count, as an unsigned number, exceeds 63 |
| ExtGroups.StaleFlags | sidelink/lib/src/asn1/asn1_utils.cc:1010-1020 | a header that is read into again shows the new message if and only if it had no flag beyond the new message's last one |
| Exactness.SmallForm | sidelink/lib/src/asn1/asn1_utils.cc:531-542 | a zero bit and the number in six bits up to 63; for others a one bit before they are refused |
| Exactness.SmallExact | sidelink/lib/src/asn1/asn1_utils.cc:544-556 | on any bits, a number is returned if and only if its encoding stands there |
| Exactness.LengthForm | sidelink/lib/src/asn1/asn1_utils.cc:600-614 | a zero bit and seven bits below 128, the bits 10 and fourteen bits up to 16382, nothing above |
| Exactness.LengthExact | sidelink/lib/src/asn1/asn1_utils.cc:616-635 | on any bits, a length is returned if and only if its encoding stands there, or the long form of one below 128 or of 16383 |
| Exactness.UnalignedForm | sidelink/lib/src/asn1/asn1_utils.cc:336-349 | the distance from the lower bound, in the least number of bits that tell the range apart |
| Exactness.UnalignedExact | sidelink/lib/src/asn1/asn1_utils.cc:360-379 | on any bits, a number is returned if and only if it is within the bounds and its encoding stands there |
| Exactness.AlignedForm | sidelink/lib/src/asn1/asn1_utils.cc:430-447 | a bit field up to 255 values; from 256 on padding to the byte boundary, and one octet for 256 values or two for more |
| Exactness.AlignedExact | sidelink/lib/src/asn1/asn1_utils.cc:470-485 | on any bits that are there, the lower bound plus what they spell is returned, wrapped to the type |
| Exactness.EnumForm | sidelink/lib/src/asn1/asn1_utils.cc:257-292 | an index without an extension marker is a number of the range; with one, a flag, and an index in the root or a small number |
| Exactness.EnumExact | sidelink/lib/src/asn1/asn1_utils.cc:294-320 | on any bits, an index is returned if and only if it is a value of the enumeration and its encoding stands there, or it lies beyond the root and stands in the root's field |
| Exactness.OctetsExact | sidelink/lib/src/asn1/asn1_utils.cc:708-717 | on any bits, an octet string is returned if and only if its length and its octets stand there |
| Exactness.BitstringForm | sidelink/lib/src/asn1/asn1_utils.cc:735-748 | bit j, counted from the low end of the first octet, is sent as the last but j |
| Exactness.BitstringExact | sidelink/lib/src/asn1/asn1_utils.cc:750-763 | on any bits, a bit string is returned if and only if it has no stray bits and its encoding stands there |
| Exactness.ExtForm | sidelink/lib/src/asn1/asn1_utils.cc:965-997 | the count up to the last present group, with the groups outside and less one, in the small form, and one flag for each counted group |
| Exactness.ExtExact | sidelink/lib/src/asn1/asn1_utils.cc:999-1026 | on any bits, flags are returned if and only if there is room for them, and their count and they stand there |
| OpenField.Leftover | sidelink/lib/src/asn1/asn1_utils.cc:1043 | the unsigned formula for the spare bits is the distance to the byte boundary, 0 for an empty body |
| OpenField.EmptyBody | sidelink/lib/src/asn1/asn1_utils.cc:1043-1061 | an empty body is sent as a zero length and nothing else |
| OpenField.PackGuard.constructor | sidelink/lib/src/asn1/asn1_utils.cc:1032-1037 | the cursor is redirected to the empty side buffer, and its place is remembered |
| OpenField.PackGuard.Close | sidelink/lib/src/asn1/asn1_utils.cc:1039-1063 | from any bit offset, the cursor has appended a length determinant and the body padded with zeros to whole octets |
| OpenField.UnpackGuard.constructor | sidelink/lib/src/asn1/asn1_utils.cc:1065-1070 | the stored length and the start of the body are remembered, whatever the outcome of reading the length: 0 for the fragmented form; where bits are missing, the start is the limit |
| OpenField.UnpackGuard.Close | sidelink/lib/src/asn1/asn1_utils.cc:1072-1076 | wherever in the field the body's reader stopped, the cursor ends exactly behind the field; a reader that ran past it ends at the limit, since the subtraction wraps around |
| Schema.OpenParts | sidelink/lib/src/asn1/asn1_utils.cc:1039-1076 | in any bit sequence that contains an open-type field, the length reads back and the body is found behind it |
| Schema.OkAnywhere | sidelink/lib/src/asn1/asn1_utils.cc:141-1076 | whether a message is accepted does not depend on the bit offset |
| Locality.Local | sidelink/lib/src/asn1/asn1_utils.cc:168-1076 | a message that decodes, decodes to the same value and end from any other bits that agree up to that end |
| Acceptance.DecodesExactly | sidelink/lib/src/asn1/asn1_utils.cc:168-1076 | on any bits, a message and its end are returned if and only if it stands there: its fields one behind the other, lists behind their counts, and bodies of open-type fields within their lengths |
| RoundTrips.RoundTrip | sidelink/lib/src/asn1/asn1_utils.cc:141-1076 | an accepted message over any schema, nested and repeated to any depth, whose open-type fields are on their byte boundaries, is decoded from any bit sequence that contains it if and only if its open-type bodies fit their side buffers; the reader stops where the writer did, and what is read is the message if and only if numbers are within their stored widths and bit strings have no stray bits |
| RoundTrips.CutOff | sidelink/lib/include/srslte/asn1/asn1_utils.h:988 | what is left of a body that is cut off at the side buffer is not decoded within those bits, whatever follows |
| RoundTrips.LostMessage | sidelink/lib/src/asn1/asn1_utils.cc:1043-1061 | two octet strings of 600 octets, the second in an open-type field of its own, are accepted inside an open-type field at any offset, take 9648 bits, and never decode |
| RoundTrips.LongestString | sidelink/lib/include/srslte/asn1/asn1_utils.h:988 | an octet string in an open-type field is accepted, and comes back, if and only if it has at most 1022 octets |
| Schema.ReportsAccepted | sidelink/lib/src/asn1/asn1_utils.cc:141-1063 | success is reported for accepted messages only, whatever room there is |
| Schema.CheckedReports | sidelink/lib/src/asn1/asn1_utils.cc:141-1063 | without unaligned integers, lists and open-type fields, success is reported if and only if the message is accepted and fits |
| Schema.ReportedWithoutRoom | sidelink/lib/src/asn1/asn1_utils.cc:346 | at the end of a buffer, an integer of 8 bits and an empty open-type field are reported as packed |
| Alignment.AlignedElsewhere | sidelink/lib/src/asn1/asn1_utils.cc:430-485 | a reader that pads less than the writer did reads the offset of an aligned number shifted right, which is the number only at the lower bound; one that pads more ends behind it |
| Alignment.NumbersElsewhere | sidelink/lib/src/asn1/asn1_utils.cc:336-485 | with an unaligned number behind the aligned one, a reader that pads otherwise than the writer did finds both numbers if and only if all their bits are zeros, as long as it stays within the zeros behind them |
| Alignment.AlignedTail | sidelink/lib/src/asn1/asn1_utils.cc:430-1076 | an open-type field whose body fits and ends with an aligned number, behind anything that does not depend on byte boundaries, reads back if and only if its front does and the field starts on a byte boundary, or the number is the lower bound and the reader pads less |
| Alignment.AlignedInFrame | sidelink/lib/src/asn1/asn1_utils.cc:336-1076 | with an unaligned number behind the aligned one, the field reads back if and only if its front does and it starts on a byte boundary, or both numbers are their lower bounds and the reader stays within the padding of the field |
| Alignment.ZerosComeBack | sidelink/lib/src/asn1/asn1_utils.cc:336-1076 | two such numbers with ranges of 1000 and 8 values, both at their lower bounds, come back from every bit offset but the first two behind a byte boundary |
| Alignment.AlignedInOpenField | sidelink/lib/src/asn1/asn1_utils.cc:442-447 | a lone aligned number of a range of 256 and more in an open-type field reads back if and only if the field starts on a byte boundary |
| Schema.FieldInRange | sidelink/lib/src/asn1/asn1_utils.cc:294-379 | on arbitrary bits, a field that decodes has a value in its declared range; an aligned integer, whose reader checks nothing, is only in its type |
| Schema.DecodedInRange | sidelink/lib/src/asn1/asn1_utils.cc:168-1076 | on arbitrary bits, a message that decodes has only such values, and the reader does not go backwards |
| Messages.PackOpen | sidelink/lib/src/asn1/asn1_utils.cc:1032-1063 | a message written between the two ends of the guard becomes an open-type field, cut off at the side buffer, with the outcome of writing the body |
| Messages.PackListOf | sidelink/lib/include/srslte/asn1/asn1_utils.h:751-768 | the count and then the items up to the first that fails; success exactly if the count is accepted and each item reports success where the cursor then is |
| Messages.UnpackListOf | sidelink/lib/include/srslte/asn1/asn1_utils.h:771-792 | as many items as the count says; failure exactly if the count or an item fails |
| Messages.PackValue | sidelink/lib/src/asn1/asn1_utils.cc:141-1063 | the bits of any message are appended as far as there is room, and success is reported exactly if each field, in turn, reports it at the place where the cursor is; never for a message that is not accepted, always for an accepted one that fits |
| Messages.UnpackValue | sidelink/lib/src/asn1/asn1_utils.cc:168-1076 | the outcome, value and end position are those of reading any bits, with the reader guard's dropped outcomes; in particular a message that decodes is returned; success is only reported for values in range |
| Messages.PackedReadsBack | sidelink/lib/src/asn1/asn1_utils.cc:141-1076 | the buffer after packing a message with open-type fields on their byte boundaries, where it fits, decodes up to the writer's position if and only if open-type bodies fit their side buffers, and gives the message if and only if its encoding holds all of it |
| Messages.PackAndUnpack | sidelink/lib/src/asn1/asn1_utils.cc:141-1076 | packing an accepted message with open-type fields on their byte boundaries, and with room, through one cursor and unpacking it through another leaves both at the same bit if open-type bodies fit their side buffers, and then returns the message if and only if its encoding holds all of it |
| Readers.DecodedIsRead | sidelink/lib/src/asn1/asn1_utils.cc:1065-1076 | a message that decodes is read as what it decodes to, to the same position |
| Readers.ReadsBeyond | sidelink/lib/src/asn1/asn1_utils.cc:1065-1076 | an open-type field of length 0 around an octet is read with success, though it does not decode |
| Readers.ReadsFragmented | sidelink/lib/src/asn1/asn1_utils.cc:624-631 | an open-type field that starts with the bits 11 is read with success as if its length were 0, its body from two bits on, though it does not decode |
| Liblte.Value2Bits | sidelink/lib/src/asn1/liblte_common.cc:83-91 | stores the binary form of the value's low bits and nothing else, and advances by their number |
| Liblte.Bits2Value | sidelink/lib/src/asn1/liblte_common.cc:98-109 | the number that up to 32 stored bits spell |
| Liblte.Unpack | sidelink/lib/src/asn1/liblte_common.cc:170-178 | the bits of the bytes in order, and nothing behind them changes |
| Liblte.Pack | sidelink/lib/src/asn1/liblte_common.cc:152-163 | one byte for every eight bits and one for the rest, and nothing behind them changes |
| Liblte.BytesRoundTrip | sidelink/lib/src/asn1/liblte_common.cc:152-178 | unpacking bytes and packing the bits restores the bytes |
| Liblte.BitsRoundTrip | sidelink/lib/src/asn1/liblte_common.cc:152-178 | packing bits and unpacking the bytes inserts the padding before an incomplete tail |
| Liblte.BitsComeBack | sidelink/lib/src/asn1/liblte_common.cc:160-162 | the bits come back as a prefix if and only if they fill whole bytes or the tail is all zeros |
| Liblte.ReadBothWays | sidelink/lib/src/asn1/asn1_utils.cc:168-190 | the masked reader returns what the bit-per-byte reader returns on the unpacked buffer, at every bit position and for every width up to 32 |
| ThreadPool.StepKeepsInv | sidelink/lib/src/common/thread_pool.cc:160-282 | every step of every thread keeps the pool's invariant |
| ThreadPool.AlwaysInv | sidelink/lib/src/common/thread_pool.cc:75-282 | the invariant holds after every schedule, for any number of workers |
| ThreadPool.MutualExclusion | sidelink/lib/src/common/thread_pool.cc:165-185 | no two threads are ever inside critical sections of the same mutex |
| ThreadPool.NoLostWakeUp | sidelink/lib/src/common/thread_pool.cc:175-219 | when the dispatcher is parked, every idle worker is between its status write and its signal, although statuses are read one by one without their mutexes; a started worker that is parked is about to be signalled |
| ThreadPool.ExactlyOnce | sidelink/lib/src/common/thread_pool.cc:75-86 | a worker's starts are its runs of work_imp plus at most one pending start; its hand-outs are its starts and releases plus the outstanding one |
| ThreadPool.NotHandedOutTwice | sidelink/lib/src/common/thread_pool.cc:199-246 | between two hand-outs of a worker it has finished or was released |
| ThreadPool.StuckMeansAllDropped | sidelink/lib/src/common/thread_pool.cc:160-282 | if no thread can move, the dispatcher waits for a worker and its caller has forgotten every one |
| ThreadPool.NoDeadlock | sidelink/lib/src/common/thread_pool.cc:160-282 | with at least one worker, and a caller that starts or releases each worker it gets, some thread can always move, spurious wake-ups aside |
| ThreadPool.LostForever | sidelink/lib/src/common/thread_pool.cc:199-224 | a worker that was forgotten once is never handed out or run again |
| ThreadPool.WaitProgress | sidelink/lib/src/common/thread_pool.cc:209-246 | every step of any thread during a wait for a worker decreases a measure |
| ThreadPool.WaitReturns | sidelink/lib/src/common/thread_pool.cc:209-246 | a wait for a worker ends after a bounded number of steps under any scheduling without spurious wake-ups, and it cannot get stuck unless every worker was forgotten |
| Deadlock.WaitsForever | sidelink/lib/src/common/thread_pool.cc:199-220 | once every worker was forgotten, a wait for a worker goes on for any number of steps of any threads, spurious wake-ups included |
| Deadlock.GetsStuck | sidelink/lib/src/common/thread_pool.cc:199-220 | and it ends in a state in which no thread can move |
| Deadlock.Leaves | sidelink/lib/src/common/thread_pool.cc:199-224 | with a worker that was not forgotten, a run ends the wait |
| Deadlock.WaitHangsIff | sidelink/lib/src/common/thread_pool.cc:199-224 | in every run of a pool of any size, a wait for a worker never returns if and only if every worker was forgotten, which is also exactly when it can end with no thread able to move |
| Deadlock.DropDeadlocks | sidelink/srssl/src/phy/sync.cc:708-710 | for a pool of any size, the run that forgets each worker once on a radio error ends in a wait that never returns |
| Calls.DecisionFollows | sidelink/lib/src/common/thread_pool.cc:155-282 | in every run, what happens next to a worker that was handed out is its start, its release or its being forgotten, as the caller decided, at the dispatcher's own next step |
| Calls.StartedRuns | sidelink/lib/src/common/thread_pool.cc:160-173 | in every run, a worker with a pending start has run work_imp by its eighth own step, whatever the other threads do |
| Calls.StartedMoves | sidelink/lib/src/common/thread_pool.cc:160-282 | it is blocked only by the dispatcher in its critical section, which can always go on, or by a holder of the queue mutex |
| Calls.RunsAlone | sidelink/lib/src/common/thread_pool.cc:160-173 | with its mutex free, and the queue mutex if it wants that, its own next steps run work_imp |
| Calls.ReleaseSignals | sidelink/lib/src/common/thread_pool.cc:155-189 | a release does not return before it has signalled the queue under its mutex |
| Calls.CallsReturn | sidelink/lib/src/common/thread_pool.cc:175-282 | in every run, a start has returned after three of the dispatcher's own steps behind its lock, and a release after five |
| Calls.CallsMove | sidelink/lib/src/common/thread_pool.cc:175-282 | on that way it waits for nothing but the queue mutex |
| Calls.AsAsked | sidelink/lib/src/common/thread_pool.cc:199-271 | a blocking wait does not return without a worker, and a non-blocking one never parks; a worker that is returned was handed out |
| Calls.FindsFirstIdle | sidelink/lib/src/common/thread_pool.cc:199-207 | a scan finds a worker that it saw idle behind workers that it saw busy, and gives up only behind all of them |
| Logger.LoggerFile.constructor | sidelink/lib/src/common/logger_file.cc:77-89 | an empty first file and the limit in characters |
| Logger.LoggerFile.Log | sidelink/lib/src/common/logger_file.cc:95-100 | the message is at the end of the queue |
| Logger.LoggerFile.Print | sidelink/lib/src/common/logger_file.cc:113-119 | the first message has moved from the queue to the file, up to its first null character |
| Logger.LoggerFile.Account | sidelink/lib/src/common/logger_file.cc:120-134 | the count goes on, or a new file starts; the files keep their invariant |
| Logger.LoggerFile.RunThread | sidelink/lib/src/common/logger_file.cc:102-136 | the loop without its running flag and its wait, undisturbed: the whole queue is printed in order over as many files as it takes, and the files keep their invariant |
| Logger.LoggerFile.Flush | sidelink/lib/src/common/logger_file.cc:138-147 | all queued messages are in the file, and the queue still holds them |
| Logger.LoggerFile.Close | sidelink/lib/src/common/logger_file.cc:60-75 | behind the thread's end, the queue and the closing message are in the file |
| Logger.Conservation | sidelink/lib/src/common/logger_file.cc:60-147 | in every run, the files in order followed by the queue are exactly what was logged, in order; after the flush the files alone are |
| Logger.Rotation | sidelink/lib/src/common/logger_file.cc:120-134 | in every run, each closed file has at least the limit and was below it before its last message; what is counted of the open one is below the limit until the flush; without a limit there is one file |
| Logger.NeverOverslept | sidelink/lib/src/common/logger_file.cc:95-112 | in every run, the writer does not wait while a message is in the queue: logging wakes it |
| Logger.WaitsAgain | sidelink/lib/src/common/logger_file.cc:106-112 | a spurious wake-up makes the writer look at the queue again and wait again, with nothing changed |
| Logger.WrittenSoon | sidelink/lib/src/common/logger_file.cc:102-136 | from every state in which it was not told to stop, the writer's own next steps, three for each message at most, put everything logged on disk in order |
| Logger.PrintedPart | sidelink/lib/src/common/logger_file.cc:116 | what is printed of a message is what stands before its first null character |
| Logger.PrintedInFull | sidelink/lib/src/common/logger_file.cc:116 | a message is printed in full if and only if it has no null character |
| Logger.StopEnds | sidelink/lib/src/common/logger_file.cc:60-71 | when told to stop, the thread ends by its own steps if and only if it is not just about to look at an empty queue |
| Logger.StopCanHang | sidelink/lib/src/common/logger_file.cc:102-112 | a run exists in which the thread never ends, and with it the destructor |
| JsonWriter.JsonWriter.Write | sidelink/lib/src/asn1/asn1_utils.cc:1082-1166 | the calls for any value tree write its text behind the pending separator and restore the indentation |
| JsonWriter.ShownIsLines | sidelink/lib/src/asn1/asn1_utils.cc:1082-1166 | the text of a value tree is its lines, laid out independently of the calls: brackets at their depth, members one deeper, one comma behind each member but the last |
| JsonWriter.WriteDocument | sidelink/lib/src/asn1/asn1_utils.cc:1082-1171 | a writer driven over any values yields exactly their layout, indented by twice the depth |
| JsonWriter.DecimalReads | sidelink/lib/src/asn1/asn1_utils.cc:1110-1115 | an integer is shown as digits that read back as it, with a minus exactly for negative ones and no leading zero |
| JsonWriter.ShownScalars | sidelink/lib/src/asn1/asn1_utils.cc:1094-1143 | names, strings, truth values and null as they are shown |
| JsonWriter.ShownObject | sidelink/lib/src/asn1/asn1_utils.cc:1144-1155 | the brackets of an object and the indentation of what is in it |
| JsonWriter.ShownArray | sidelink/lib/src/asn1/asn1_utils.cc:1156-1167 | the brackets of an array, also of an empty one, each on a line of its own |
| JsonWriter.ShownSiblings | sidelink/lib/src/asn1/asn1_utils.cc:1084-1092 | the comma and the line break between siblings |
| JsonWriter.NameFirst | sidelink/lib/src/asn1/asn1_utils.cc:1084-1147 | writing a name ahead of an unnamed value is the same as writing a named value |
| WordWrap.BreakMessage | Demo/rsu_json_creater.py:166-177 | the loop computes the greedy wrap of the message's words, each line stripped |
| WordWrap.SignLines | Demo/rsu_json_creater.py:227-230 | the first three lines, missing ones empty |
| WordWrap.SentLine | Demo/rsu_json_creater.py:227-230 | each of the three is the line of the message in that place, or empty if there is none |
| WordWrap.SentWords | Demo/rsu_json_creater.py:227-230 | the first one, two or three of them carry what as many lines of the message carry |
| WordWrap.SplitJoin | Demo/rsu_json_creater.py:168-174 | splitting the text of a line gives its words back |
| WordWrap.SplitBlank | Demo/rsu_json_creater.py:168 | white space of any kind in front of a word is skipped |
| WordWrap.SpacesAre | Demo/rsu_json_creater.py:168 | the code points that count as white space when text is split without a separator |
| WordWrap.Lossless | Demo/rsu_json_creater.py:166-177 | the words of the lines are the words of the message, in order |
| WordWrap.FitsIff | Demo/rsu_json_creater.py:165-171 | all lines have at most 19 characters if and only if all words have |
| WordWrap.StaysAhead | Demo/rsu_json_creater.py:170-175 | a greedy wrap that has used fewer lines than another one so far, or as many with a line that is not fuller, ends with no more lines |
| WordWrap.FewestLines | Demo/rsu_json_creater.py:166-177 | no other lines of at most 19 characters with the same words in order, however they are spaced, are fewer |
| WordWrap.MostText | Demo/rsu_json_creater.py:166-230 | the first k lines carry at least as much of the message as any k lines of at most 19 characters that carry a beginning of it |
| WordWrap.ThreeLinesSuffice | Demo/rsu_json_creater.py:227-230 | the three lines sent carry a message of words of at most 19 characters in full if and only if some wrap of at most three such lines does |
| WordWrap.LimitIsOneLess | Demo/rsu_json_creater.py:165-171 | two words of 19 letters together are put on two lines, although they fill the constant of 20 with their space; of 18 letters, on one |
| WordWrap.LongFirstWord | Demo/rsu_json_creater.py:171-175 | the first line is empty if and only if there are no words or the first has 20 characters or more |

## Left out

- RoundTrips.RoundTrip: needs open-type fields with aligned numbers to start on a byte boundary, which is sufficient. The exact condition is proved for the bodies of Alignment.AlignedTail and Alignment.AlignedInFrame that fit the side buffer; what other bodies off their boundaries are read as depends on their contents.
- Messages.PackAndUnpack: does not say what a second cursor reads of a message with a cut-off open-type field, where it goes on with the bits behind the field; that such a message does not decode is RoundTrips.RoundTrip.
- BitCursor.BitRef.Pack: is stated for fields of up to 31 bits, because the mask of the source shifts a 32-bit number by the width.
- BitCursor.BitRef.Unpack: does not say what the value is for more than 32 bits, where the source shifts by more than the word; the movement of the cursor is proved for any width.
- Liblte.Value2Bits: shifts the value as an unsigned number.
- Numbers.BitstringToNumber: leaves out octets whose shift overflows a signed 32-bit number: a fourth one of 128 and more, and any fifth one.
- Integers.PackAligned: leaves out ranges of 65536 values and more, where writer and reader of the source use different layouts, and ranges with more values than the maximum of the type, whose size overflows in the source.
- Integers.UnpackAligned: leaves out the same ranges.
- Integers.PackUnaligned: leaves out ranges of more than 65536 values, whose width the source computes in floating point that is no longer exact.
- Integers.UnpackUnaligned: leaves out the same ranges.
- Integers.CeilLog2: is the exact ceiling of the logarithm, which the source computes in floating point; ranges are at most 65536, where that is exact.
- ExtGroups.ExtGroupsHeader.constructor: takes at most 20 groups, for which the source reserves room; for more it only prints an error.
- Strings.DynOctstring: allocates anew on every resize, where the source may reuse its memory.
- Bit strings with a declared upper bound: the source sizes their length field from the difference of the bounds, which is one value short.
- Fixed octet strings, fixed lists, choices, and the flag that announces unsupported extensions: they would add fields of kinds that are modelled already.
- A cursor that starts inside a buffer: positions are counted from the first byte of the buffer.
- The generated message classes, hexadecimal text, and all log output.
- The shutdown of the worker pool: the workers' running flag is cleared without a mutex and the threads are joined; everything is proved for runs before that.
- The setting-up of workers, which is complete in the first state of a run, and more than one dispatcher.
- Fair scheduling and time: a wait for a worker is bounded in steps, not in time, and spurious wake-ups are excluded from the bound but allowed everywhere else.
- Failing to open or write a log file: files are taken to accept what is printed.
- The choice of events and the other fields of the sign feed, and the words of a message that are not text.
- Radio, signal processing, sockets, message brokers, databases, user interfaces and plotting.
