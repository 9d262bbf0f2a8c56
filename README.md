# ThinkGear protocol decoder, modelled in Dafny

This project models the receive side of `thinkgear/thinkgear.py`, a Python 2
decoder for the NeuroSky ThinkGear serial protocol, and proves properties of
the model. Bytes are integers from 0 to 255 (`Base.byte`), and a Python 2
`str` read from the port is a `seq<byte>`.

- `checksum.dfy` (module `Checksum`): `_chksum`. This is the one's
  complement of the low byte of the payload sum.
- `pushback.dfy` (module `Pushback`): `_read` and `_deread` as seen from
  outside the session. The pending input is the unread rest of the
  `preread` buffer followed by the unread rest of the device.
- `protocol.dfy` (module `Protocol`) holds the session class
  `ThinkGearProtocol`:
  - the fields `cursor`, `preread`, `pos` and `fromPreread`, which stands
    for `io is preread`;
  - methods `Read`, `Deread` and `NextPacket`. `NextPacket` is one
    resumption of the `get_packets` generator, written as a `while true`
    loop over the `last_two` window.
  
  Each method is proved against a pure specification. `Step` is one pass
  of the loop body, split into `AfterSync` and `FrameBody`, and `Scan`
  runs passes until one stops.
- `sync.dfy` (module `Sync`) proves what the synchronizer does on the
  streams it meets:
  - well-formed frames;
  - noise in front of them;
  - bogus length bytes;
  - corrupted frames;
  - the replay of pushed-back bytes;
  - the converse: a yielded packet always comes from one of the
    resumption's passes. That pass found a sync pair followed by a
    checksummed frame.
- `payload.dfy` (module `Payload`): the TLV payload decoder `_decode`, a
  method with the source's nested loops. Its pure reference is
  `Parse`/`ResolveAll`, and an encoder `Flatten` serves as its partner.
- `registry.dfy` (module `Registry`): the `data_types` registry that the
  metaclass fills. `Resolve` dispatches one element through it.
- `values.dfy` (module `Values`): the `_decode` value functions of the data
  classes. These are `ord`, signed 16-bit big-endian, the eight 24-bit EEG
  band powers, and the identity.

A session stops in one of three ways:
- `Packet`: it yields a packet.
- `Raised`: it ends where Python would raise.
  - `MissingLength` is `ord('')` on an empty length read.
  - `MissingChecksum` is `ord('')` on an empty checksum read.
  - `Undecodable` means a value decoder was given a value of the wrong
    length.
- `EndOfInput`: it ends when the device has no more bytes.

Two behaviours of the code differ from what a reader would expect. The
model follows the code in both:
- A pushback buffer would be expected to replay bytes in the order they
  were read, with pushed-back bytes first. `_deread` instead writes them
  after whatever the buffer has not yet replayed (lines 102-105).
  `Pushback.DereadPrependsOnEmptyBuffer` shows the two orders agree
  when the buffer is empty.
  `Sync.ReplayOutOfOrderYieldsSplicedFrame` exhibits a stream in which the
  reordering assembles an Attention frame that never occurred.
- After a bogus length byte the window becomes `(0xAA, plen)` (line 118).
  It is not emptied. `Sync.TripleSyncMissesFrame` shows that one extra sync
  byte in front of a good frame loses that frame.

## Model

| member | source | states |
|---|---|---|
| Checksum.Sum | thinkgear/thinkgear.py:80 | the sum of the payload's byte values lies between 0 and 255 times its length |
| Checksum.Chksum | thinkgear/thinkgear.py:78-80 | `~sum & 0xff` is 255 minus the sum modulo 256, and adding it to the sum gives 255 modulo 256 |
| Checksum.SumAppend | thinkgear/thinkgear.py:80 | the sum of a concatenation is the sum of the parts |
| Checksum.SumRemove | thinkgear/thinkgear.py:80 | removing the byte at any position takes exactly its value off the sum |
| Checksum.SumPermutation | thinkgear/thinkgear.py:80 | payloads with the same multiset of bytes have the same sum |
| Checksum.ChksumPermutation | thinkgear/thinkgear.py:78-80 | the checksum depends only on the multiset of payload bytes |
| Checksum.SingleByteChangeDetected | thinkgear/thinkgear.py:125 | changing any one payload byte to another value changes the checksum, so the comparison at line 125 fails for it |
| Checksum.ChksumExamples | thinkgear/thinkgear.py:78-80 | the empty payload has checksum 0xFF; payload 04 32 has checksum 0xC9 |
| Pushback.Read | thinkgear/thinkgear.py:82-98 | `_read(n)` never returns more than `n` bytes |
| Pushback.ReadTakesPrefix | thinkgear/thinkgear.py:82-91 | a read returns the first min(n, pending) pending bytes, buffer first and then device, and removes exactly those |
| Pushback.ReadPastBuffer | thinkgear/thinkgear.py:84-90 | a read of at least what the buffer holds leaves the buffer empty |
| Pushback.ReadChunking | thinkgear/thinkgear.py:82-91 | two consecutive reads return the bytes of one read of the combined size and leave the same state |
| Pushback.ReadsCompose | thinkgear/thinkgear.py:82-91 | the state after reads of `a` and then `b` bytes is the state after one read of `a + b` bytes |
| Pushback.DereadReplaysBeforeDevice | thinkgear/thinkgear.py:100-106 | after `_deread(b)` the next reads return the previously unread buffer, then `b`, and only then device bytes |
| Pushback.Deread | thinkgear/thinkgear.py:100-106 | `_deread(b)` leaves the device alone; pending is now the old unread buffer, then `b`, then the device |
| Pushback.ReplayComesNext | thinkgear/thinkgear.py:82-106 | after a read that emptied the buffer, pushed-back bytes are the next ones read |
| Pushback.DereadPrependsOnEmptyBuffer | thinkgear/thinkgear.py:102-105 | pushed-back bytes come first whenever the buffer is empty; with buffered 01 and pushed-back 02 they do not, and 01 is replayed first |
| Protocol.Step | thinkgear/thinkgear.py:110-133 | a pass of the loop that goes round again has consumed input and keeps a window of at most two bytes |
| Protocol.AfterSync | thinkgear/thinkgear.py:113-122 | after the sync pair, a pass that goes round again has consumed input and keeps at most two window bytes |
| Protocol.FrameBody | thinkgear/thinkgear.py:120-130 | a frame that goes round again (bad checksum) leaves as many bytes pending as before and an empty window; `Sync.AfterSyncFrame` gives which bytes |
| Protocol.Shift | thinkgear/thinkgear.py:111 | the new window ends with the byte just read, preceded by the last byte of the old window when there was one |
| Protocol.FrameOutcome | thinkgear/thinkgear.py:125-126 | a matched frame yields a packet exactly when its payload decodes, and that packet is the decoding; otherwise it raises the decoder's error; it never ends the input |
| Protocol.Scan | thinkgear/thinkgear.py:108-133 | a resumption never adds input; it ends for lack of input only with nothing left pending, and always does when nothing is pending |
| Protocol.StepStops | thinkgear/thinkgear.py:110-130 | a pass that stops has not added input, and it stops at the end of the input exactly when nothing is pending |
| Protocol.ThinkGearProtocol.constructor | thinkgear/thinkgear.py:70-76 | a new session reads from the port, with an empty buffer and the whole device pending |
| Protocol.ThinkGearProtocol.ReadSerial | thinkgear/thinkgear.py:91 | `serial.read(n)` returns the next min(n, remaining) device bytes and advances the cursor past them |
| Protocol.ThinkGearProtocol.Read | thinkgear/thinkgear.py:82-98 | the bytes returned and the new pending input are those of `Pushback.Read`; a short buffered read empties `preread` and switches back to the port |
| Protocol.ThinkGearProtocol.Deread | thinkgear/thinkgear.py:100-106 | the bytes are written at the end of `preread`, the read position is kept, and `io` becomes the buffer |
| Protocol.ThinkGearProtocol.NextPacket | thinkgear/thinkgear.py:108-133 | the outcome and the remaining input are those of `Scan` from the empty window |
| Sync.StepShiftsNonSync | thinkgear/thinkgear.py:111-133 | a byte that does not complete a sync pair is shifted into the window and nothing else is read |
| Sync.StepCompletesSync | thinkgear/thinkgear.py:111-114 | a sync byte after a window ending in one completes the pair and the pass goes on to the length read |
| Sync.AfterSyncFrame | thinkgear/thinkgear.py:114-130 | after the pair, length, payload and checksum are consumed; a matching checksum yields the decoding, otherwise payload and checksum are pushed back and the window emptied |
| Sync.SyncedFrame | thinkgear/thinkgear.py:111-130 | the same for a pass that starts with the second sync byte, consuming `|p| + 3` bytes |
| Sync.FrameYieldsDecodedPayload | thinkgear/thinkgear.py:110-126 | from a window not ending in 0xAA, `AA AA L P chksum(P)` with `L = |P| < 0xAA` yields `_decode(P)`, consumes exactly `L + 4` bytes and leaves the rest untouched |
| Sync.ChecksumMismatchPushesBack | thinkgear/thinkgear.py:121-130 | on a checksum mismatch nothing is yielded, exactly payload plus checksum are pushed back, the window is emptied, and with no older buffered bytes they are the next bytes read |
| Sync.BogusLengthSlidesWindow | thinkgear/thinkgear.py:113-118 | a length byte of 0xAA or more is never used as a length; no payload is read and the window becomes `(0xAA, plen)` |
| Sync.NoiseIsSkipped | thinkgear/thinkgear.py:110-133 | bytes without 0xAA are shifted through the window one per pass, and the window never ends in 0xAA meanwhile |
| Sync.ScanSteps | thinkgear/thinkgear.py:108-133 | a resumption that goes round `n` passes resumes where those passes end |
| Sync.FrameAfterNoise | thinkgear/thinkgear.py:110-126 | noise without sync bytes in front of a well-formed frame is skipped and the frame's decoding is yielded, leaving exactly the bytes after it |
| Sync.MismatchFromCleanWindow | thinkgear/thinkgear.py:121-130 | a frame with a bad checksum, met from a clean window, restarts hunting from an empty window with payload and checksum pushed back |
| Sync.MismatchedFrameThenGoodFrame | thinkgear/thinkgear.py:110-130 | when the buffer holds no more than the bad frame's `|p| + 4` bytes, a bad frame without sync bytes in its body is dropped and a good frame right behind it is still yielded |
| Sync.ReplayedNoiseThenFrame | thinkgear/thinkgear.py:100-130 | pushed-back bytes without a sync byte, replayed from an empty buffer, are skipped as noise before the next frame |
| Sync.CorruptedPayloadIsPushedBack | thinkgear/thinkgear.py:125-130 | a frame with one payload byte corrupted in transit is rejected and its bytes are pushed back |
| Sync.StepPacketIsChecked | thinkgear/thinkgear.py:110-126 | a pass yields a packet only right after a sync pair, from a length below 0xAA, a complete payload and a matching checksum, and the packet is the payload's decoding |
| Sync.AfterSyncPacketIsChecked | thinkgear/thinkgear.py:114-126 | after the pair, a packet is yielded only from a checksummed frame at the head of the input |
| Sync.FrameBodyPacketIsChecked | thinkgear/thinkgear.py:122-126 | a packet is yielded only when all `n` payload bytes and a matching checksum byte were read |
| Sync.ScanPacketIsChecked | thinkgear/thinkgear.py:108-133 | for every packet a resumption yields there is a number of passes that go round, at whose end the window ends in 0xAA and the pending input is 0xAA followed by a frame `L P c`; `L` is below 0xAA, `c` is the checksum of `P`, `P` decodes to the packet, and what the resumption leaves follows `c` |
| Sync.ThirdSyncConsumedAsLength | thinkgear/thinkgear.py:111-118 | in `AA AA AA x` the third sync byte is taken for a bogus length, and hunting goes on with window `(0xAA, x)` |
| Sync.SyncAsLength | thinkgear/thinkgear.py:113-118 | the same, once the window already ends in a sync byte |
| Sync.ScanBogusLength | thinkgear/thinkgear.py:113-118 | a bogus length byte after the sync pair continues the resumption with window `(0xAA, plen)` |
| Sync.ScanShiftsNonSync | thinkgear/thinkgear.py:111-133 | a byte that does not complete a sync pair continues the resumption with it shifted in |
| Sync.ScanAtEnd | thinkgear/thinkgear.py:111 | with nothing pending, the resumption ends at the end of the input |
| Sync.AttentionFrameExample | thinkgear/thinkgear.py:110-126 | `AA AA 02 04 32 C9` yields Attention 50 and consumes the whole input |
| Sync.TripleSyncMissesFrame | thinkgear/thinkgear.py:111-118 | `AA AA AA 02 04 32 C9` yields nothing before the input ends |
| Sync.ReplayOutOfOrderYieldsSplicedFrame | thinkgear/thinkgear.py:100-130 | `AA AA 08 AA AA 01 32 C9 AA AA 02 04`, in which 04 is never followed by 32, yields Attention 50, because pushed-back bytes go after the unread buffer |
| Sync.FirstFrameFails | thinkgear/thinkgear.py:121-130 | in that stream the eight-byte frame fails its checksum and its payload and checksum become the buffer |
| Sync.SecondFrameFails | thinkgear/thinkgear.py:100-130 | the replayed one-byte frame `01 32 C9` fails too, and `32 C9` goes behind `AA AA 02 04` |
| Payload.Parse | thinkgear/thinkgear.py:138-156 | every element takes at least two payload bytes |
| Payload.Elements | thinkgear/thinkgear.py:138-156 | a payload of `n` bytes holds at most `n / 2` elements |
| Payload.ResolveAll | thinkgear/thinkgear.py:158-167 | a successful dispatch gives one data element per raw element |
| Payload.Decoding | thinkgear/thinkgear.py:135-169 | a successful `_decode` returns one data element per parsed element, at most half as many as the payload has bytes |
| Payload.ResolvedInRange | thinkgear/thinkgear.py:158-167 | every element of a successful decode keeps its wire level and code, and its value is in its class's range |
| Payload.ResolveAllCons | thinkgear/thinkgear.py:158-167 | a non-empty decode succeeds exactly when its first element resolves and the rest decodes |
| Payload.Decode | thinkgear/thinkgear.py:135-169 | the method's result is `Decoding`, the pure parse of the payload into elements resolved in wire order |
| Payload.ParsePrefix | thinkgear/thinkgear.py:139-142 | `k` leading 0x55 bytes add `k` to the next element's extended code level |
| Payload.ParseOne | thinkgear/thinkgear.py:146-156 | one encoded element in front of any bytes parses as that element, then the elements of those bytes |
| Payload.ParseFlatten | thinkgear/thinkgear.py:138-167 | concatenated element encodings decode to exactly those elements, in wire order |
| Payload.ParsedWellFormed | thinkgear/thinkgear.py:146-156 | every parsed element has a code other than 0x55, one value byte when its code is below 0x80, and fewer than 256 value bytes in any case |
| Payload.ParseLeftover | thinkgear/thinkgear.py:138-156 | the payload is the re-encoding of its elements followed by the bytes the parser left unread |
| Payload.LeftoverYieldsNothing | thinkgear/thinkgear.py:143-154 | what the parser leaves unread yields no element |
| Payload.ParseIsPrefix | thinkgear/thinkgear.py:138-156 | every payload is its elements' encodings, in order, followed by a tail that yields nothing |
| Payload.ShortTailDropped | thinkgear/thinkgear.py:143-145 | prefixes followed by fewer than two bytes end the decode without error, keeping the elements before them |
| Payload.TruncatedValueDropped | thinkgear/thinkgear.py:152-154 | a long code whose value is cut short ends the decode without error, keeping the elements before it |
| Payload.ResolveAllPointwise | thinkgear/thinkgear.py:158-167 | the decode succeeds with `els` exactly when there is one data element per raw element, each resolved in order |
| Payload.AttentionDecodeExample | thinkgear/thinkgear.py:146-149 | payload 04 32 decodes to Attention 50; a trailing 80 02 with missing value bytes is dropped |
| Payload.RawWaveDecodeExample | thinkgear/thinkgear.py:150-156 | payload 80 02 FF FF decodes to raw wave -1 |
| Payload.ExtendedDecodeExample | thinkgear/thinkgear.py:139-165 | payload 55 04 32 decodes to unknown data of level 1 and code 0x04 carrying 32, not to Attention |
| Registry.Register | thinkgear/thinkgear.py:174-183 | a falsy code registers nothing; any other code registers its bare key; a truthy level also registers the pair key; no other key changes |
| Registry.BuiltinIsRegistered | thinkgear/thinkgear.py:172-251 | the built-in registry is what the class definitions register, in file order, and it holds only bare keys |
| Registry.Lookup | thinkgear/thinkgear.py:158-165 | the class found is a registered one or the unknown class; a miss on both keys gives the unknown class; at a nonzero level a registered pair key wins |
| Registry.ExtendedLevelIgnoresBareKeys | thinkgear/thinkgear.py:158-162 | at a nonzero level only the `(level, code)` key is consulted |
| Registry.LevelZeroUsesBareCode | thinkgear/thinkgear.py:158-165 | at level 0 a metaclass-built registry is consulted by bare code only |
| Registry.Resolve | thinkgear/thinkgear.py:158-165 | the element keeps its level and code and has the looked-up kind; it fails exactly when that decoder rejects the value's length; a miss gives unknown data carrying the raw bytes |
| Registry.BuiltinLookup | thinkgear/thinkgear.py:158-165 | the built-in registry sends level-0 codes 02, 04, 05, 80 and 83 to their classes, and everything else to unknown |
| Registry.BuiltinExtendedIsUnknown | thinkgear/thinkgear.py:158-165 | with the built-in registry every element of nonzero level is unknown data, even with a known code |
| Registry.BuiltinRaisesOnlyOnBadLength | thinkgear/thinkgear.py:158-165 | with the built-in registry, decoding raises exactly for a level-0 known code whose value has the wrong length |
| Registry.BuiltinByteCodes | thinkgear/thinkgear.py:211-229 | codes 02, 04 and 05 give the byte's value as poor signal, attention and meditation |
| Values.Int16BE | thinkgear/thinkgear.py:236 | `struct.unpack('>h')` lies in [-32768, 32767] and is negative exactly when the high byte is at least 0x80 |
| Values.Slice | thinkgear/thinkgear.py:251 | Python's slice `v[lo:hi]` clips both bounds to the length; it is the plain slice within bounds and empty past the end |
| Values.U32BE | thinkgear/thinkgear.py:251 | one `>L` word lies in [0, 2^32), and below 2^24 when its first byte is zero |
| Values.ZeroExtended | thinkgear/thinkgear.py:251 | the join over the groups from `g` on has at most four bytes per group and starts with a zero byte |
| Values.Unpack8 | thinkgear/thinkgear.py:251 | each of the eight `>8L` words lies in [0, 2^32) |
| Values.DecodeValue | thinkgear/thinkgear.py:186-251 | a value decoder succeeds exactly when the length fits its kind; its value is in the kind's range; an error names the kind and length; unknown data is the identity |
| Values.DecodeEegPower | thinkgear/thinkgear.py:251 | the EEG power decoder succeeds exactly when the value has at least 24 bytes, with eight values below 2^24 |
| Values.JoinedLength | thinkgear/thinkgear.py:251 | the joined string is 32 bytes long exactly when the value has at least 24 bytes |
| Values.JoinedWord | thinkgear/thinkgear.py:251 | each 4-byte word of the joined string is a zero byte followed by one 3-byte group |
| Values.JoinedBand | thinkgear/thinkgear.py:251 | the g-th unpacked word is the g-th big-endian 24-bit group of the value |
| Values.EegPowerGroups | thinkgear/thinkgear.py:251 | value i is `v[3i]*65536 + v[3i+1]*256 + v[3i+2]`, delta first |
| Values.EegPowerIgnoresTail | thinkgear/thinkgear.py:251 | bytes after the 24th do not change the EEG power values |
| Values.Int16RoundTrip | thinkgear/thinkgear.py:236 | the two's-complement encoding and raw wave decoding are inverse bijections |
| Values.GroupsRoundTrip | thinkgear/thinkgear.py:251 | group g of encoded 24-bit naturals, whatever follows them, is the g-th natural |
| Values.EegPowerRoundTrip | thinkgear/thinkgear.py:251 | encoded band powers, followed by any bytes, decode back to the same band powers |
| Values.RawWaveExamples | thinkgear/thinkgear.py:236 | FF FF is -1, 80 00 is -32768 and 7F FF is 32767 |

## Left out

- The serial port (line 74): `serial.Serial(port, 57600)` and its device I/O are left out. The device is a finite byte sequence fixed when the session is created.
- Blocking on an empty port is replaced by `EndOfInput`. When the device has no more bytes, Python's read would block. With a timeout it would return `''`, and because `''` never completes a sync pair the loop would spin forever. The model stops instead.
- Exceptions: Python raises and the model returns a `Raised` outcome instead. The two kinds of error (`TypeError`, `struct.error`) are not told apart. A generator that has raised cannot be resumed, and the model does not model resuming after one.
- Logging and text formatting (lines 45-53, 85-96, 101, 112, 117, 129, 133, 144, 153, 191-192, 197-199) are left out. They are diagnostic only.
- `main` and `packet_log` (lines 254-263) are left out, as is the `cStringIO` import shim (lines 31-36). The model assumes Python 2, where `str` is a byte string.
- Dynamic class discovery by the metaclass (lines 174-183) is a fixed map. `Register` models one class creation, and `Builtin` is the fixed result for the classes in the file.
- The generator lives across yields (line 126). `NextPacket` models one resumption, from the empty window the generator holds at its start and right after each yield (line 121).
- `StringIO` internals of `preread` are reduced to a sequence and a read position. `reset`/`truncate` (lines 88-89) empty the sequence, and `seek(0, 2)`/`write`/`seek(pos)` (lines 102-105) append and keep the position.
- `setup.py` is packaging metadata only and is not part of this model.
