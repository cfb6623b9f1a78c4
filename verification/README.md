# Verified models of the switch firmware tools

Dafny models of the algorithmic and protocol code of the postmerkOS firmware
repository, with proofs. Loops over mutable buffers and objects are methods with
loop invariants, proved against functions; what the code is for is proved about
those functions, as lemmas and preserved invariants.

| files | part of the system |
|---|---|
| `Lz4`, `Crc32`, `Plan`, `Records`, `Transport`, `SerialLine`, `AckReader`, `Baud` | the PMOSREC v3 host side: compression, frame planning, windowed sending with selective retry, finding acknowledgements in a damaged stream, the baud search |
| `Base64`, `PmosUart`, `UartSystem`, `UartEnds`, `UartChecks` | PMOSUART/1: the receiver, the sender, and both together over lines that lose or delay frames |
| `Flash`, `FlashRun` | the NOR flasher: erase, program, verify, retry, roll back |
| `Version` | the version comparison of the manifest tool |
| `Calendar`, `LocalTime`, `DaylightTime`, `DaylightExact` | calendar and daylight-saving arithmetic, and which wall times do not exist or exist twice |
| `Json`, `ConsolePath`, `ConfigModel`, `ConfigValidation`, `ConfigReplay`, `ConfigOrder`, `ConfigRollback`, `ConfigApply`, `ConfigTransaction`, `ConfigReadback`, `ConfigExamples` | the configuration engine: merge, paths, validation, register programming and its order, rollback, transactions, reading back, and a failing input |
| `PortStats`, `SshKeys` | binary decoders |
| `FirmwareJob` | the upload and validation machine |
| `Bytes` | shared vocabulary |

`dafny verify dfyconfig.toml` checks everything.

How the outside world is modelled: a serial line is a class whose methods may
lose, damage, delay or repeat what was written, and raise where they are due to; a
NOR partition is a sequence of cells whose erasing and programming may fail or
leave anything behind while reading is honest; the target of PMOSREC v3, whose program is not part of the
repository, is an erased buffer that stores intact frames at their offsets and
acknowledges truthfully; handler writes of the switch set entries of a register
map and may fail; clocks are counters that run down; everything a client, a
child process or the operating system decides is a free choice.

Where the code differs from what its comments or the cited standards say, the
model follows the code and says exactly when the two agree:

- `json_deep_merge` keeps nulls inside a newly inserted subtree, so it is the
  merge of RFC 7396, and idempotent, exactly on patches without a null below
  their top level (`Json.StandardIff`, `Json.IdempotentIff`).
- Incremental programming equals full programming for every delta when no two
  port keys spell the same number. Validation accepts "1" beside "01", and
  then it depends on the order of the members: the two agree exactly when, port
  by port and group by group, the last key of the document asks for what the last
  key of the delta run asked for (`ConfigOrder.FixedOrderIff`,
  `ConfigExamples.TwoKeysOnePort`).
- "previous state restored" after a failed transaction and a replay that loses
  nothing is true of every register exactly when the new configuration names no
  new port, if the registers reflected the current one as full programming in the
  order of its document leaves them (`ConfigRollback.RestoredIff`,
  `ConfigRollback.AddedPortStays`).
- `_read_ack` puts the bytes it read back on failure, except when a read raises
  while a candidate record is being filled, an exception caught only in the outer
  loop, or when the confirmation of a good record cannot be written
  (`AckReader.ReadAck`, `AckReader.LosingRun`, `AckReader.UnconfirmedRun`).
- `send_frames` counts a receive error only in the first acknowledgement of a window.
  A bitmap with bits past its window costs one more acknowledgement, whose status is
  not looked at; without such bits a result of 0 means that no acknowledgement
  reported one (`Transport.ChargesQuiet`, `Transport.StrayBits`).
- `read_vlan` tells hybrid from trunk by an untagged VLAN above 0, so a trunk that was
  configured with one reads back as hybrid (`ConfigReadback.VlanShown`).
- `active_offset` looks the rules up for the UTC year, so a change that falls in
  another year in UTC than on the wall takes effect at the UTC new year
  (`DaylightTime.NewYearMissed`). The wall times that fail, or exist twice, are
  the ones the rules skip and repeat exactly when both changes fall in their own
  UTC year, in one order, at least the jump apart; checking the 400 years from
  1998 on decides it (`DaylightExact.LawfulIff`, `DaylightExact.RegularIffCycle`).
- `negotiate_fastest_baud` leaves the host at the returned rate unless a rate it
  had used could not be set again or the target announced another revert rate
  (`Baud.Session.Negotiate`).
- `time_set_local` reports that a local time does not exist also when it exists
  and lies before 2000-01-01 (`LocalTime.TimeSetLocal`).
- The UART decoder never looks at the bits of the last digit before the padding
  that go into no byte. On text in groups of four the two decoders differ exactly
  when one of those bits is set (`Base64.DecodersAgree`, `Base64.UartTakesMore`);
  text without its padding is for the SSH decoder alone.
- The self-test failure of `make_plan` cannot occur (`Plan.MakePlan`).

## Model

| member | source | states |
|---|---|---|
| Lz4.EncodeLength | tools/firmware-flasher/pmosrec_v3.py:223-229 | The extension bytes of a length: as many 255s as fit and the remainder, a closing 0 for a multiple of 255. |
| Lz4.CompressBlock | tools/firmware-flasher/pmosrec_v3.py:232-270 | For every input the block spells the greedy one: literals up to the first position whose four bytes occur within 65535 bytes before, then the longest match with their nearest occurrence, and so on. Decoding it with any capacity that holds the input gives the input back, and it has at most n + n/255 + 2 bytes. |
| Lz4.LookedUp | tools/firmware-flasher/pmosrec_v3.py:239-246 | The table, which holds the latest position of every key seen, answers with the nearest earlier occurrence of the four bytes, or there is none within reach. |
| Lz4.BlockOnce | tools/firmware-flasher/pmosrec_v3.py:232-270 | An input has one greedy block, so the output is determined by that description. |
| Lz4.GreedyDecodes | tools/firmware-flasher/pmosrec_v3.py:232-316 | A greedy block expands to the input, decodes to it, and keeps to the bound. |
| Lz4.EqualBytes | tools/firmware-flasher/pmosrec_v3.py:232-270 | Five or more equal bytes are one literal and one match at distance 1. |
| Lz4.ExtendMatch | tools/firmware-flasher/pmosrec_v3.py:247-253 | The match found is a real repeat and the longest one from that candidate. |
| Lz4.CopyBackRepeats | tools/firmware-flasher/pmosrec_v3.py:308-314 | Copying byte by byte from an earlier position, even one that overlaps the bytes being written, repeats the matched text. |
| Lz4.DecompressBlock | tools/firmware-flasher/pmosrec_v3.py:273-316 | On arbitrary bytes the cursor loop ends, stays inside its input and output, and gives the result of the recursive decoder: a rejection, or at most `capacity` bytes. |
| Lz4.DecodeSpelled | tools/firmware-flasher/pmosrec_v3.py:273-316 | Every well-formed sequence of literals and matches, spelled with any legal length extension, is accepted and expands as the grammar says. |
| Lz4.DecodeIffSpelled | tools/firmware-flasher/pmosrec_v3.py:273-316 | The decoder accepts a byte string exactly when it spells some well-formed block whose expansion fits, and returns that expansion. |
| Crc32.Crc32Bytes | fwupdate/fwserialrx.c:126-135 | The masked bitwise loop computes the reflected CRC-32 of section 8 of RFC 1952. |
| Crc32.StepBijective | fwupdate/fwserialrx.c:130-133 | One bit step has an inverse on all 32-bit states. |
| Crc32.StepLinear | fwupdate/fwserialrx.c:130-133 | One bit step is linear for exclusive or. |
| Crc32.RunLinear | fwupdate/fwserialrx.c:126-135 | The run over a difference of two messages is the difference of their runs. |
| Crc32.RunConcat | fwupdate/fwserialrx.c:126-135 | The run over a concatenation is the run over the second part from where the first part ended. |
| Crc32.RunInjective | fwupdate/fwserialrx.c:126-135 | Over one message, different starting states end in different states. |
| Crc32.UndetectedIff | fwupdate/fwserialrx.c:126-135 | Two messages of one length share a checksum exactly when their difference, run from 0, ends in 0: detection does not depend on the message. |
| Crc32.BurstDetected | fwupdate/fwserialrx.c:126-135 | Two different messages of one length that differ only within some four consecutive bytes have different checksums. |
| Crc32.Residue | fwupdate/fwserialrx.c:126-135 | The checksum of nothing is 0, and every message followed by its own checksum, lowest byte first, has the checksum 2144df1c. |
| Crc32.SealedIff | tools/firmware-flasher/pmosrec_v3.py:466-470 | Four bytes after a message are its checksum exactly when the whole has the checksum 2144df1c. |
| Crc32.SealBroken | tools/firmware-flasher/pmosrec_v3.py:466-470 | A message with its checksum is no longer one after damage within four consecutive bytes, in the message, in the checksum or across both. |
| Plan.EncodeChunk | tools/firmware-flasher/pmosrec_v3.py:319-345 | The LZ4 flag is set exactly when the mode asks for compression and the greedy block of the chunk is shorter than the chunk; the payload is then that block, otherwise the chunk, and decodes to the chunk; the self-test failure cannot happen. |
| Plan.MakePlan | tools/firmware-flasher/pmosrec_v3.py:319-355 | For every object, frame size of at least 1 and each of the four modes: sequences 0,1,2,..., strictly increasing disjoint ranges, every chunk compressed exactly when that is shorter and the mode asks for it, only all-0xFF chunks skipped and only in the sparse modes, one frame for an all-0xFF object; never an error. |
| Plan.PlanRebuilds | tools/firmware-flasher/pmosrec_v3.py:319-355 | Storing the decoded frames of a good plan at their offsets into an erased buffer yields the object. |
| Plan.AllLanded | tools/firmware-flasher/pmosrec_v3.py:319-355 | The same when the frames landed in any order and any number of times. |
| Records.ParseWire | tools/firmware-flasher/pmosrec_v3.py:117-132 | Reading a packed frame record gives back object id and frame: both checksums, all ten header fields and the payload. |
| Records.DamageDropped | tools/firmware-flasher/pmosrec_v3.py:117-132 | A frame record damaged within four consecutive bytes, in the header, the payload, a checksum or across two of them, does not parse. |
| Transport.SendWindow | tools/firmware-flasher/pmosrec_v3.py:522-557 | The sender leaves a window only on an acknowledgement for exactly that base and count with nothing to retry, and then every frame of it is stored; what it adds to the result is one for every frame the acknowledgements asked for and one if the first of them reported a receive error, so nothing was added only if neither happened; each error has its cause in what the line did: silence, a write that raised, another window named, or 1 + retries requests to retry. A line that loses nothing needs no second write. |
| Transport.RetryWindow | tools/firmware-flasher/pmosrec_v3.py:541-557 | The retry loop: at most `retries` passes, no frame of the window written more than 1 + retries times. |
| Transport.Resend | tools/firmware-flasher/pmosrec_v3.py:546-549 | One retry pass writes exactly the frames the bitmap asks for, once each, and counts them. |
| Transport.SendFrames | tools/firmware-flasher/pmosrec_v3.py:493-560 | However frames and acknowledgements are lost, damaged, repeated or reordered, and whichever write raises: on return every frame is stored, the 0xFF-filled buffer equals the object, the windows partition the frames in order, and, return or error, no frame was written more than 1 + retries times; an error has a cause at the window it stopped at; 0 retransmissions means each frame was written once. A line that loses nothing always ends that way. The result is the number of frames sent again plus the number of windows whose first acknowledgement reported a receive error; 0 means, if no bitmap had bits past its window, that no acknowledgement read reported one. |
| Transport.FeatureTest | tools/firmware-flasher/pmosrec_v3.py:733-777 | A transport passes only if the target holds exactly the object and said so, every frame was written once, and, if no bitmap had bits past its window, no acknowledgement reported a receive error; a receive error in the first acknowledgement of any window rejects it even if the object arrived; on a line that loses nothing it passes; whatever the line, no frame is written more than four times. It raises exactly on an error of the operating system, or on a message about acknowledgements in raw mode or with the stream out of step; every other error rejects. |
| Transport.ChargesNone | tools/firmware-flasher/pmosrec_v3.py:534-557 | A run adds nothing to the result exactly when no first acknowledgement of a window reports a receive error and no acknowledgement asks for a frame of its window. |
| Transport.ChargesQuiet | tools/firmware-flasher/pmosrec_v3.py:534-557 | With bitmaps that stay within their windows such a run left every window on its first acknowledgement, and none reports a receive error. |
| Transport.StrayBits | tools/firmware-flasher/pmosrec_v3.py:534-557 | The input for which that fails: a bit past the window costs no frame but one more acknowledgement, whose receive status is not looked at. |
| SerialLine.SerialLink.ReadExact | tools/firmware-flasher/bootloader_protocol.py:757-783 | The next bytes of the stream, whole and in order; a failed read has dropped fewer bytes than it was asked for, so a one-byte read has dropped none. |
| SerialLine.SerialLink.ReadLine | tools/firmware-flasher/bootloader_protocol.py:785-800 | The stream up to its first newline and no further, returned without its line end and decoded; on a fault the stream is as before. |
| SerialLine.SerialLink.PrependBuffer | tools/firmware-flasher/bootloader_protocol.py:747-749 | What is put back is read next. |
| SerialLine.LineUnique | tools/firmware-flasher/bootloader_protocol.py:785-800 | A stream has one first line, so reading before or after bytes were taken and put back gives the same line. |
| AckReader.NothingMissed | tools/firmware-flasher/pmosrec_v3.py:433-476 | Every good record that starts before the accepted one, or anywhere if none is accepted, starts inside a candidate that was rejected. |
| AckReader.PassesMore | tools/firmware-flasher/pmosrec_v3.py:433-476 | Bytes that arrive later change nothing about what the scan has passed over: a magic may straddle reads. |
| AckReader.ReadAck | tools/firmware-flasher/pmosrec_v3.py:417-481 | The trimmed three-byte buffer finds what a scan of all bytes read finds: the first acceptable record, with nothing after it consumed. A failed call leaves the stream as it was exactly when no read raised inside a candidate record and no confirmation write failed. With time enough the ending depends on the stream and the faults due alone: bytes are lost exactly when a fault is due inside an early enough candidate, or at the confirmation of a record within the scan limit. |
| AckReader.LosingRun | tools/firmware-flasher/pmosrec_v3.py:449-463 | The failing input: one read raises right after a magic, and what was read is not put back. |
| AckReader.UnconfirmedRun | tools/firmware-flasher/pmosrec_v3.py:475-478 | The other one: the confirmation of a good record cannot be written, and the record is gone. |
| AckReader.AckRecordReads | tools/firmware-flasher/pmosrec_v3.py:466-480 | The record packed for any acknowledgement is acceptable and reads back as that acknowledgement. |
| AckReader.DamageRejected | tools/firmware-flasher/pmosrec_v3.py:466-474 | A good record damaged within four consecutive bytes, its checksum included, is not acceptable. |
| Base64.DecodeSsh | buildroot/packages/configd/ssh_keys.c:54-85 | Despite the wrapping 32-bit accumulator it accepts exactly the canonical encodings of a nonempty byte string, padded or wholly unpadded, that fit the capacity (sections 4 and 3.5 of RFC 4648). |
| Base64.CanonicalIff | buildroot/packages/configd/ssh_keys.c:54-85 | Text is canonical for d exactly when it spells the digits of d followed by the right padding or none. |
| Base64.CanonicalUnique | buildroot/packages/configd/ssh_keys.c:54-85 | Canonical text has one decoding. |
| Base64.AccumulatorStep | buildroot/packages/configd/ssh_keys.c:68-76 | The wrap at 32 bits never touches a bit that is still to be emitted. |
| Base64.DigitsOfOut | buildroot/packages/configd/ssh_keys.c:54-85 | A digit string that leaves nothing over is the digit string of its bytes. |
| Base64.OneMoreDigit | buildroot/packages/configd/ssh_keys.c:68-76 | What one more digit adds to the bytes and to the bits left over. |
| Base64.DecodeUart | fwupdate/fwserialrx.c:146-182 | The buffer-filling loop equals the group-wise decoder and stays within the capacity. |
| Base64.UartInvertsEncode | fwupdate/fwserialrx.c:146-182 | It inverts the standard encoder on every byte string that fits. |
| Base64.UartAcceptsIff | fwupdate/fwserialrx.c:146-182 | It accepts exactly whole groups of four symbols, the last with up to two padding signs, whose bytes fit, and gives the bytes of the digits whatever bits are left over. |
| Base64.DecodersAgree | buildroot/packages/configd/ssh_keys.c:54-85 | On text whose length is a multiple of four the SSH decoder accepts exactly what the UART decoder accepts with the unused bits of the last digit before the padding all 0, and both give the same bytes. |
| Base64.UartTakesMore | fwupdate/fwserialrx.c:146-182 | The failing input when one of those bits is set: "QR==" is decoded by one and refused by the other. |
| SshKeys.ReadString | buildroot/packages/configd/ssh_keys.c:87-100 | A length-prefixed string is read when it is whole; the length word is compared with what remains. |
| SshKeys.ParseWire | buildroot/packages/configd/ssh_keys.c:87-100 | Reading the wire form of any fields gives the fields back. |
| SshKeys.WireParse | buildroot/packages/configd/ssh_keys.c:87-100 | A blob that can be read as fields is the wire form of those fields. |
| SshKeys.ValidateBlob | buildroot/packages/configd/ssh_keys.c:106-147 | Accepts exactly the blobs made of the outer type and the right fields and nothing more. |
| SshKeys.KeyBlobIff | buildroot/packages/configd/ssh_keys.c:106-147 | Those are exactly the wire forms (strings of section 5 of RFC 4251) of a key of that type. |
| SshKeys.Validate | buildroot/packages/configd/ssh_keys.c:149-168 | A line is accepted exactly when it holds an allowed type, the canonical Base64 of a key blob of that type within the limits, and a comment without control characters. |
| UartReceiver.ObjectState.ObjectBegin | fwupdate/fwserialrx.c:267-289 | The fields after BEGIN are the receiver step of the protocol model; on refusal nothing changes. |
| UartReceiver.ObjectState.ObjectData | fwupdate/fwserialrx.c:291-319 | The fields after DATA are the receiver step, a repeated last frame changing nothing; on refusal nothing changes. What the step lets through is said by UartChecks.GrowthChecked, UartChecks.OnlyNextOrLast and UartChecks.DamageRefused. |
| UartReceiver.ObjectState.ObjectEnd | fwupdate/fwserialrx.c:321-339 | The part file becomes the destination only when frame count, length and digest agree. |
| UartReceiver.Process.Execute | fwupdate/fwserialrx.c:384-480 | One turn of the command loop is the step function of the receiver, the active object included. |
| UartReceiver.Process.Serve | fwupdate/fwserialrx.c:384-493 | The loop with its cleanup: the receiver succeeds exactly when DONE is accepted; then the firmware file has the declared size and digest; otherwise no file and no part file is left. |
| UartReceiver.EndsProper | fwupdate/fwserialrx.c:291-339 | Whatever commands come, correct or not: a run that completes has files of the declared sizes and digests only. |
| UartChecks.GrowthChecked | fwupdate/fwserialrx.c:291-319 | Whatever is sent: a command that makes a part file grow is a DATA for the active object with the next sequence number whose payload decodes to exactly the bytes added and whose declared checksum is theirs. |
| UartChecks.OnlyNextOrLast | fwupdate/fwserialrx.c:297-303 | A DATA that is neither the next frame nor, by number and checksum, the last one makes the receiver give up; a repetition of the last changes nothing. |
| UartChecks.DamageRefused | fwupdate/fwserialrx.c:303-311 | A frame whose block was damaged within four consecutive bytes, its checksum as sent, makes the receiver give up, or is taken for a repetition of the last frame and changes nothing; one the receiver does not have yet is always refused. |
| UartChecks.BeginIff | fwupdate/fwserialrx.c:267-289 | A BEGIN is accepted exactly when no object is being received and none of its kind was before, the size is from 1 to the limit of the kind, the digest is 64 hexadecimal digits and the name has 1 to 127 letters, digits, dots, underscores and dashes and is neither dot nor dot-dot; then the object is empty and has that size and name. |
| UartChecks.EndIff | fwupdate/fwserialrx.c:321-339 | An END is accepted exactly for the active object with the number of frames it took, all bytes received and the declared digest; then the part file is the finished file. |
| UartSystem.StepKeeps | fwupdate/fwserialrx.c:291-339 | Every step of sender, receiver or lossy line keeps the protocol invariant. |
| UartSystem.NoError | fwupdate/fwserialrx.c:406-478 | No reply on the line is ever an error reply. |
| UartSystem.TransferSafe | fwupdate/fwserialrx.c:291-339 | In every reachable state the receiver has not aborted, its part file is the concatenation of the first `nextSequence` chunks, that number is the sender's sequence or one more, and an END on the line carries the receiver's own count of frames while the part file is the whole file. |
| UartSystem.BothObjectsSafe | tools/firmware-flasher/serial-runner.py:120-129 | Firmware then manifest over the same lines, late replies and all: both files end at their destinations and DONE is accepted. |
| UartSystem.ChunkLimit | fwupdate/fwserialrx.c:291-311 | A chunk is acceptable exactly up to 3072 bytes. |
| UartSender.WaitSerial | tools/firmware-flasher/serial-runner.py:58-79 | Reads past other lines; it returns exactly when the awaited one was read, and stops there. |
| UartSender.SendChunk | tools/firmware-flasher/serial-runner.py:94-113 | The frame is written until its acknowledgement is read, at most five times, and given up exactly when five writes brought none. |
| UartSender.SendUartObject | tools/firmware-flasher/serial-runner.py:81-117 | The nested loops: the run stays within the reachable states of the protocol; on return every chunk was acknowledged and the receiver has the whole file at its destination. Over lines that lose nothing it returns, and wrote the opening, each frame once and the closing. |
| UartSender.Provoked | fwupdate/fwserialrx.c:291-339 | In every reachable state the command the sender last wrote, alone on the line, brings the reply the sender waits for. |
| Flash.ErasePartition | fwupdate/fwflash.c:328-350 | Block by block over the whole partition: on a faultless device it succeeds and leaves nothing but 0xFF. |
| Flash.WriteImage | fwupdate/fwflash.c:352-399 | Buffer by buffer with partial writes: on an erased, faultless partition it succeeds and leaves the image followed by 0xFF. |
| Flash.CompareImage | fwupdate/fwflash.c:401-468 | With readback honest, it succeeds only if the partition holds the image followed by 0xFF, and always then when reading does not fail. |
| FlashRun.ProgramOnce | fwupdate/fwflash.c:470-523 | Success means the partition equals the image followed by 0xFF; a failure before the erase began leaves it untouched. |
| FlashRun.ProgramJob | fwupdate/fwflash.c:525-539 | Two attempts before it gives up; success means verified, and on a device without faults it succeeds. |
| FlashRun.RestoreBackup | fwupdate/fwflash.c:541-563 | The same with the backup. |
| FlashRun.RollbackAndReboot | fwupdate/fwflash.c:617-660 | Rolled back means every partition to restore holds its backup; exactly those are tried, whatever became of the others, loader, kernel, root and overlay in that order. |
| FlashRun.ProgramBootChain | fwupdate/fwflash.c:851-872 | Kernel before loader, and a rollback when either fails. |
| FlashRun.FlashSelected | fwupdate/fwflash.c:813-872 | Every run past preflight ends with every selected partition equal to its image, or every begun one equal to its backup and the rest untouched, or in the recovery-required state; the loader is erased only after overlay, root and kernel were verified. |
| FlashRun.Run | fwupdate/fwflash.c:679-883 | The whole of main. It goes past the preflight exactly when no overlay filesystem is mounted, everything examined can be opened, no two devices are one, and what is supplied is a complete set for the overlay alone, for the root filesystem with or without the overlay, or for all four, each on a NOR device of its partition size in whole erase blocks with a nonempty image that fits and a backup of exactly that size; otherwise it is refused with nothing touched. With faultless devices it then succeeds. |
| FlashRun.AdmissibleIff | fwupdate/fwflash.c:754-811 | The option checks and the preflight together let through exactly what that condition describes. |
| Version.SkipSeparators | fwupdate/fwmanifest.c:74-77 | Skips exactly the characters that are neither letter nor digit. |
| Version.EqualLengthDigits | fwupdate/fwmanifest.c:84-94 | Comparing zero-stripped digit strings of one length character by character compares their numbers. |
| Version.LongerDigits | fwupdate/fwmanifest.c:84-94 | A longer zero-stripped digit string is the larger number. |
| Version.CompareNumeric | fwupdate/fwmanifest.c:79-96 | The two cursors end after both digit runs and the sign is that of the numbers, however long. |
| Version.CompareAlpha | fwupdate/fwmanifest.c:98-109 | The two cursors end after both letter runs, or the sign is that of the folded words. |
| Version.VersionCompare | fwupdate/fwmanifest.c:111-130 | The cursor loop is the lexicographic comparison of the token lists: numbers by value, letters folded, letters below numbers, shorter below longer. |
| Version.VersionOrder | fwupdate/fwmanifest.c:111-130 | A total preorder: antisymmetric in sign, transitive, 0 exactly when the normalized token lists agree, and negative exactly when at their first difference the left list has ended or has the smaller token: any word before any number, numbers by value, words by their first different letter or by ending first. |
| Version.VersionBeforeIff | fwupdate/fwmanifest.c:111-130 | The recursive comparison is -1 exactly when the first difference says so. |
| Calendar.DateRoundTrip | buildroot/packages/configd/time_ops.c:64-67 | Day number to date and back, for every valid date. |
| Calendar.DaysInjective | buildroot/packages/configd/time_ops.c:64-67 | Different dates have different day numbers. |
| Calendar.NthWeekdayCorrect | buildroot/packages/configd/time_ops.c:68-76 | For weeks 1 to 5 the day returned lies in the month, has the requested weekday, and is the nth one, or the last for week 5. |
| Calendar.GmtimeRoundTrip | buildroot/packages/configd/time_ops.c:77-85 | Broken-down time to epoch and back. |
| LocalTime.TryOffsets | buildroot/packages/configd/time_ops.c:206-225 | An epoch is chosen only if its active offset gives back the requested wall time, and the standard reading when there are two. |
| LocalTime.TimeSetLocal | buildroot/packages/configd/time_ops.c:189-230 | For every validated policy and in-range civil time: fails exactly when no epoch reads as that wall time or the chosen one is before 2000-01-01. |
| DaylightTime.ActiveIff | buildroot/packages/configd/time_ops.c:86-99 | Under rules whose changes stay in their own UTC year and are at least the jump apart, daylight time is in force exactly from each start to the end that follows it. |
| DaylightTime.ReadingsByRule | buildroot/packages/configd/time_ops.c:77-99 | Under such rules a wall time from 2000 on has no reading exactly when it lies within the jump after the change at which the clock goes forward, and two exactly when it lies within the jump before the change at which it goes back; start and end swap roles when daylight time is behind standard time. |
| DaylightExact.LawfulIff | buildroot/packages/configd/time_ops.c:77-99 | For every policy with rules: exactly the wall times the rules skip have no reading, and exactly those they repeat have two, for all wall times from 2000 on, if and only if in each of the 400 years from 1998 to 2397 both changes fall in that UTC year, in the same order, and consecutive changes are at least the jump apart. |
| DaylightExact.RegularPeriod | buildroot/packages/configd/time_ops.c:68-85 | That condition holds in a year exactly when it holds 400 years later. |
| DaylightExact.RegularIffCycle | buildroot/packages/configd/time_ops.c:68-85 | So it holds in every year exactly when it holds in those 400. |
| DaylightTime.SetByRule | buildroot/packages/configd/time_ops.c:189-230 | So setting the local time fails exactly in the skipped hour (fourteen hours past the floor on), and a repeated hour is set to its standard reading. |
| DaylightTime.SetWithoutRules | buildroot/packages/configd/time_ops.c:189-230 | Without rules, or with equal offsets, every wall time has one reading: it is set, unless it lies before 2000-01-01 in UTC. |
| DaylightTime.UsualRulesRegular | buildroot/packages/configd/time_ops.c:77-99 | Rules in months from February to November, two months or more apart, are such rules, in both hemispheres. |
| DaylightTime.NewYearMissed | buildroot/packages/configd/time_ops.c:86-99 | Where it fails, because the rules are looked up for the UTC year: with a change at local midnight on 1 January and an offset of +13 hours, a skipped wall time can be set and one that is not skipped cannot. |
| Json.DeepMerge | buildroot/packages/configd/json_util.c:6-23 | The key-by-key deletion and insertion, in any order of the keys, is the recursive merge. |
| Json.StandardIff | buildroot/packages/configd/json_util.c:6-23 | The merge equals section 2 of RFC 7396 on every base exactly when the patch has no null below its top level. |
| Json.IdempotentIff | buildroot/packages/configd/json_util.c:6-23 | Merging twice equals merging once on every base exactly when the patch has no null below its top level. |
| ConsolePath.ConsolePathGet | buildroot/packages/configd/console_cli.c:53-68 | The token loop is the recursive walk along the parts of the path. |
| ConsolePath.DeltaWithValue | buildroot/packages/configd/console_cli.c:81-134 | The loop builds the nested object with the value at the path, for exactly the valid paths. |
| ConsolePath.SetThenGet | buildroot/packages/configd/console_cli.c:53-141 | Reading a path after merging its delta returns the value, for every value text that does not parse to an object; an object is merged with what was there. |
| ConsolePath.SetFrame | buildroot/packages/configd/console_cli.c:53-141 | Every path that is neither prefix nor extension of it reads as before. |
| ConsolePath.SetTwice | buildroot/packages/configd/console_cli.c:136-141 | Setting a path twice equals setting it once, whatever was there, exactly for the values without a null inside. |
| ConsolePath.PartsNonempty | buildroot/packages/configd/console_cli.c:53-68 | A valid path has no empty component, so splitting at the dots is what strtok_r does. |
| ConfigReplay.IncrementalIsFull | buildroot/packages/configd/config_apply.c:93-110 | For a delta that merges into a configuration with the structure validation asks for, its powered ports with a poe section, and the keys that spell one port number in agreement: if the registers reflect the current configuration, writing what the delta mentions leaves every register as full programming of the merged configuration would, whatever the order of the ports; nulls in the delta included. |
| ConfigReplay.IncrementalIff | buildroot/packages/configd/click_port.c:348-367 | The agreement of those keys is needed for that: with them in disagreement some orders of the ports give different registers (the corollary for all orders at once of ConfigOrder.FixedOrderIff). |
| ConfigOrder.FixedOrderIff | buildroot/packages/configd/click_port.c:348-367 | For the given orders of the ports in the documents, that equality holds exactly when for every port number and group of settings the last key of the merged document asks for what the last key in the delta that is due asks for, or for what the current configuration asks for when none is due. |
| ConfigOrder.WholeRunReflectsIn | buildroot/packages/configd/config_apply.c:82-91 | Full programming leaves the registers in the state the comparison starts from, in the order of the document. |
| ConfigExamples.TwoKeysOnePort | buildroot/packages/configd/click_port.c:348-367 | The failing input: a configuration that validates, with keys "1" and "01", and a delta for "01". With "1" first the delta run equals full programming, with "01" first it does not. |
| ConfigValidation.ValidatesStructure | buildroot/packages/configd/validation.c:348-361 | A configuration that validates has the structure the programming relies on. |
| ConfigReplay.Skipped | buildroot/packages/configd/click_port.c:326-346 | A write of the merged configuration that the delta leaves out is a write of the current one. |
| ConfigReplay.GroupUnchanged | buildroot/packages/configd/click_port.c:318-346 | A handler none of whose keys the delta mentions is given the same command before and after the merge. |
| ConfigOrder.LossyFixedOrderIff | buildroot/packages/configd/click_port.c:170-190 | Where those last keys agree, a delta run that lost writes equals full programming exactly when each register ends with what the last attempt at it was to write, made or not. |
| ConfigRollback.RestoredIff | buildroot/packages/configd/config_apply.c:112-178 | Every failed run from registers that reflect the current configuration, in the order the document keeps, is undone to the last register by a complete replay exactly when the new configuration names no new port; keys that spell one port number may disagree. |
| ConfigRollback.NewPortStays | buildroot/packages/configd/config_apply.c:112-178 | For any new port there is a run that fails and a complete replay after which the new port is still programmed. |
| ConfigRollback.AddedPortStays | buildroot/packages/configd/config_apply.c:122-178 | The failing input: port 2 is added to a configuration that validates and the file cannot be saved. |
| ConfigReplay.NoNewRegister | buildroot/packages/configd/click_port.c:348-367 | A configuration with no new port programs no new register. |
| ConfigApply.TableWrites | buildroot/packages/configd/click_port.c:318-346 | The table of fields applies each due handler once, in order. |
| ConfigApply.SpeedJsonToClick | buildroot/packages/configd/click_port.c:18-40 | The search of the speed table gives the mode of the speed, and negotiation for anything else. |
| ConfigApply.Switch.PutChecked | buildroot/packages/configd/click_port.c:170-190 | A failed required write fails the result, a failed optional one degrades it and still returns 0; the register keeps its value. |
| ConfigApply.Switch.CheckedWrite | buildroot/packages/configd/click_global.c:50-62 | The same for the global settings, but what is returned is the fate of the write. |
| ConfigApply.Switch.ApplyPoe | buildroot/packages/configd/click_port.c:278-309 | Both writes are tried, the second whatever became of the first; an absent controller fails the run without either, a port without power does nothing. |
| ConfigApply.Switch.ApplyPortFields | buildroot/packages/configd/click_port.c:326-346 | A run that returns 0 attempted exactly the writes of the due groups, in order; a run that fails attempted the first of them up to a required one that failed, and nothing after it but the state of a powered port whose mode failed. |
| ConfigApply.Switch.ApplyPorts | buildroot/packages/configd/click_port.c:348-367 | The same over the ports, in the order the object keeps them, up to the first failure. |
| ConfigApply.Switch.ApplyMulticast | buildroot/packages/configd/click_global.c:82-119 | Six optional writes, none stopping the next; it reports failure exactly when one was lost, which its caller ignores. |
| ConfigApply.Switch.ApplyGlobals | buildroot/packages/configd/click_global.c:121-137 | Every section is tried, in order, even when an earlier one failed. |
| ConfigApply.Switch.Apply | buildroot/packages/configd/config_apply.c:82-110 | Success means every write of the pass was attempted, only optional ones were lost, and no failure was recorded; on a faultless board it succeeds. The globals are all attempted first, then the ports without a gap. |
| ConfigReadback.SpeedClickToJson | buildroot/packages/configd/click_port.c:30-34 | The search the other way gives the speed that the table pairs with the mode, and auto when there is none. |
| ConfigReadback.SpeedTable | buildroot/packages/configd/click_port.c:18-40 | Every speed of a configuration has a mode, no other speed has the same, and no mode is off. |
| ConfigReadback.PhyShown | buildroot/packages/configd/click_port.c:42-61 | A port whose PHY group was programmed reads as enabled exactly when it is configured so, then with the configured speed; flow control and EEE are the configured ones. |
| ConfigReadback.VlanShown | buildroot/packages/configd/click_port.c:63-96 | The VLAN group reads back: an access port carries its own VLAN untagged and no other, any other port the configured list, pvid and untagged VLAN; the mode reads back exactly when an untagged VLAN above 0 is what tells hybrid from trunk. |
| ConfigReadback.PortStpShown | buildroot/packages/configd/click_port.c:250-276 | Each of the five members of a port's spanning tree section is in the command its name says. |
| ConfigReadback.PoeShown | buildroot/packages/configd/click_port.c:108-131 | State and mode of a powered port read back as configured. |
| ConfigReadback.MulticastShown | buildroot/packages/configd/click_global.c:82-119 | Both protocols: the switch and the interval are the configured ones, the interval in seconds in one register and in milliseconds in the other. |
| ConfigReadback.ReflectedShows | buildroot/packages/configd/click_port.c:42-131 | Registers that full programming of a configuration that validates leaves show that configuration: the global sections, and every port by the last key that names it. |
| ConfigReadback.SuccessShows | buildroot/packages/configd/config_apply.c:82-91 | After a full pass that reports success, whatever optional writes it lost, the switch shows STP, LACP and every port as configured; with no optional write lost also multicast and storm control. |
| ConfigTransaction.DeltaPassIff | buildroot/packages/configd/config_apply.c:93-110 | For the pass a transaction makes, in every order of the ports, when keys that spell one port number agree: full programming exactly when each lost command was in its register already or got there by another write. |
| ConfigTransaction.RestoredExactly | buildroot/packages/configd/config_apply.c:112-120 | A failed pass that named no new port, undone by a complete replay, leaves every register as it was. |
| ConfigTransaction.Store.MergeAndApply | buildroot/packages/configd/config_apply.c:122-178 | The file changes only to the accepted merge and only after the runtime succeeded; then the registers equal full programming exactly when lost writes are covered. On failure the file is unchanged and the prior configuration replayed. |
| ConfigTransaction.Store.ReplaceAndApply | buildroot/packages/configd/config_apply.c:180-221 | The same boundary for a whole replacement. |
| ConfigTransaction.Store.Serve | buildroot/packages/configd/config_apply.c:122-221 | Over any run of transactions the file is always accepted and is what the committed requests add up to. The switch runs it throughout on a faultless board if acceptance also excludes two spellings of one port and powered ports without a poe section, which validate_configuration does not. |
| PortStats.ReadVarint | buildroot/packages/configd/portstats.c:13-26 | The shifting loop returns the base-128 value modulo 2^64 of at most ten bytes, or 0 consumed. |
| PortStats.VarintInverts | buildroot/packages/configd/portstats.c:13-26 | It inverts base-128 encoding on every 64-bit value, whatever follows. |
| PortStats.SkipValue | buildroot/packages/configd/portstats.c:30-47 | The size of a value of each wire type, or 0 when it is cut or unknown. |
| PortStats.Snapshot.StorePort | buildroot/packages/configd/portstats.c:49-60 | A first record of a port raises the count; a later one replaces its counters whole; ports outside 1 to 52 are ignored. |
| PortStats.ParseRecord | buildroot/packages/configd/portstats.c:63-96 | The message is read exactly when all its fields are whole, each counter from its last field. |
| PortStats.Snapshot.Decode | buildroot/packages/configd/portstats.c:98-134 | On arbitrary bytes: the snapshot of a well-formed message, or everything zero; the count is always the number of ports present. |
| PortStats.ReadConcat | buildroot/packages/configd/portstats.c:98-134 | A message after a well-formed one is well formed exactly when it is by itself, and is read from where the first left off. |
| PortStats.LastRecordWins | buildroot/packages/configd/portstats.c:49-60 | Each port shows its last record whole, or what it showed before. |
| PortStats.MessageReads | buildroot/packages/configd/portstats.c:63-134 | Every message of port records with 64-bit counters decodes to those records stored in order. |
| FirmwareJob.Daemon.OneUpload | buildroot/packages/configd/websocket.c:720-734 | At most one upload is active and its session is the owner; none while the job is validating or ready; received never exceeds expected. |
| FirmwareJob.Daemon.Cleanup | buildroot/packages/configd/websocket.c:720-734 | Session cleanup never unlinks a file of a job that is validating or ready. |
| FirmwareJob.Daemon.UploadStart | buildroot/packages/configd/websocket.c:1301-1380 | Each refusal exactly under its condition, and without effect while a job is active or another session owns the upload; an upload begins with an empty file and the manifest that came with it; other files stay; a name in use is refused. |
| FirmwareJob.Daemon.OpenUpload | buildroot/packages/configd/websocket.c:1337-1380 | Exclusive creation: a name already taken fails the request, and the cleanup then removes that file. |
| FirmwareJob.Daemon.ReceiveBinary | buildroot/packages/configd/websocket.c:1655-1691 | A chunk is appended whole, or the upload is dropped with its files; too much is refused exactly when it would pass the declared size; other sessions are not touched. |
| FirmwareJob.Daemon.UploadFinish | buildroot/packages/configd/websocket.c:1382-1420 | Exactly a complete upload becomes the job, with its file, manifest and size; any other active upload is dropped with its files. |
| FirmwareJob.Daemon.StartJob | buildroot/packages/configd/websocket.c:821-879 | The job takes over token, files and sizes; when no process can be started nothing is taken over. |
| FirmwareJob.Daemon.Poll | buildroot/packages/configd/websocket.c:881-915 | Ready exactly when the validator exited with 0; a failure removes the files. |
| FirmwareJob.Daemon.Cancel | buildroot/packages/configd/websocket.c:792-808 | The job and its files go; an active upload is not touched. |
| FirmwareJob.Daemon.BeginFlash | buildroot/packages/configd/websocket.c:1420-1453 | Only a ready job with the matching token, and then the image that was submitted to the validator, byte for byte. |
| FirmwareJob.Daemon.Serve | buildroot/packages/configd/websocket.c:720-915 | The invariant holds after every step of any run, and the history only grows. |
| FirmwareJob.Daemon.FlashedWasUploadedAndApproved | buildroot/packages/configd/websocket.c:1420-1453 | In every state after any run: an image that was flashed is the chunks of one upload of one session, submitted whole under the same token, accepted next and flashed next, with no event of any session in between. |
| FirmwareJob.ReceivingTraced | buildroot/packages/configd/websocket.c:1655-1691 | While an upload is active, its file is the chunks its session sent since it began, and no other session got anything in. |
| Baud.Session.TestCandidate | tools/firmware-flasher/pmosrec_v3.py:580-658 | A qualified candidate is untested, at least two percent faster, went through synchronization, every test pass and the commit, and the host runs at it; otherwise the host is back at the current rate, unless it could not set it again or the target named another revert rate. Where nothing fails, every untested rate more than two percent faster is qualified. |
| Baud.Session.Ladder | tools/firmware-flasher/pmosrec_v3.py:661-688 | The candidates in turn: every candidate above the result was offered up to the last or, outside a diagnostic scan, up to the first that qualified; the current rate only grows, by qualified rates; where nothing fails it ends normally. |
| Baud.Session.Negotiate | tools/firmware-flasher/pmosrec_v3.py:661-710 | The returned rate is the starting one or a qualified, faster one, no rate qualified on the way is above it, and the host controller runs at it under the same two conditions; every candidate above it was offered, or in a default run those before the first that qualified. In a session in which nothing fails it returns, and no rate the target named in answer to any offer is more than two percent faster. The refinement ends because each turn stops or uses up a rate of the target. |

## Left out

- Flash.WriteImage and the devices of Flash.Partition: allocation failures and images that become unreadable in mid-run end the process without a rollback; the model takes readable images and working allocations as given, and leaves the progress percentages out.
- UartReceiver.Process.Execute: the tokenizing and number parsing of command lines, the 120-second idle timeout and failures of the disk, of the digest program and of the metadata file are not modelled, nor is that file; commands arrive parsed, and SHA-256 is an uninterpreted function.
- UartSender.WaitSerial: the branch for an error line is left out because UartSystem.NoError shows that no such line occurs in a transfer.
- Transport.SendFrames: the retry bitmap is a set of bit numbers (a window of at most 32 frames fits the real one), a window of at least one frame is required, and progress reports, pauses and deadlines are a free choice of when to give up; damaged frames are those the checks reject, and what these detect is the subject of Records.DamageDropped and AckReader.DamageRejected.
- AckReader.ReadAck: deadlines are a clock that runs down by an arbitrary amount at every step, reads that are to raise are a multiset of byte positions given beforehand, and the text of the last error is left out.
- SerialLine.SerialLink.ReadLine: the decoding to text is any function, and nothing is echoed.
- Transport.FeatureTest: what a message says of acknowledgements is a free choice where the text comes from the line, and so is getting back into step; the test object is any object.
- Lz4.CompressBlock: the round trip is claimed against the decoder of the same file only; the block may end in a match, which the end-of-block conditions of the LZ4 block format do not allow.
- LocalTime.TimeSetLocal: the text is already split into numbers, the policy is a record of its typed members, and setting the system clock always succeeds.
- Json.DeepMerge: configurations are values, so the sharing of subtrees between base, patch and result that the reference-counted library allows is not visible.
- ConfigApply.Switch.Apply: network and telemetry only succeed, warn or fail; their own state, the deferred network change and the dry-run mode are left out.
- ConfigValidation.Validates: the IPv4 parser, the VLAN list parser and the validators of the ssh and telemetry sections are parameters; port keys with spaces, signs or other spellings that strtoul takes are left out.
- ConfigOrder.FixedOrderIff: a merge keeps the order of the members it does not delete, which the model does not derive; the three orders are given.
- ConfigTransaction.Store.MergeAndApply: acceptance is any predicate that includes the structure the programming relies on; reading a missing poe section, which the original would do through a null pointer, reads as absent, and the equality with full programming asks for the section; failing to copy the current configuration is left out.
- PortStats.Snapshot.Decode: the timestamp is kept as the 64-bit value, before its conversion to long.
- FirmwareJob.Daemon.UploadStart: authentication, capabilities, the client limit and the text of tokens are left out; the validator's error file is not one of the modelled files, and a file the updater is using after firmware_begin_flash is only protected as far as its name is not chosen again and it is not over an hour old.
- Baud.Session.TestCandidate: the test patterns and their checksums are one exchange that works or raises, and the target reports only rates it can make.
- SshKeys.Validate: strings are taken without an embedded NUL; running out of memory is left out.
- Loading and creating the configuration file, its backup copy, locks and file modes: wrappers around the transactions.
- ConfigReadback.SuccessShows: that the tables of the switch show what its handlers were last given is taken for granted; the parsing of their lines, the values read for handlers that cannot be read (flow control, EEE, storm control, spanning tree, multicast) and the text of the commands are left out.
- Package headers, manifests, artifact contracts, RedBoot menu handling and live boot: long lists of equality tests.
- Sockets, sessions, roles, terminal, status, metrics and service scripts: thin wrappers.
- progress_between and throughput estimates: one-line calculations.
