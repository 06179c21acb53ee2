# A model of a radio's media stack

The repository is a small Internet radio: one process fetches an MP3 stream, one
transcodes it, one sends it as RTP, and pipes carry data and control bytes between
them. Beside it lies a copy of ccRTP 1.8.0 with its SRTP, Skein and MD5 code. This
project models the hard parts of both in Dafny 4.11 and proves what they are for.

- **SRTP** (`ReplayProtection`, `CryptoContexts`, `CounterMode`, `RtpFormat`, `RtpPackets`,
  `SrtpRoundTrip`): the 48-bit packet index that both parties derive from a 16-bit sequence
  number, the replay window, counter mode, the tag, and building, protecting, parsing and
  unprotecting packets in their buffers. The block cipher and the MAC are arbitrary functions.
- **Skein** (`Threefish`, `SkeinBlock`, `SkeinSpec`, `SkeinStandard`, `Skein`): the cipher of the
  Skein 1.3 specification with an explicit inverse, the two forms of the block function, the
  buffered hash and the MAC context that is reused, and the MAC as the specification defines it.
- **MD5** (`Md5Spec`, `Md5`): 64-bit registers that track the 32-bit algorithm of RFC 1321.
- **RTCP** (`RtcpFormat`, `RtcpReports`, `RtcpPackets`): the compound the queue builds and the
  header check of appendix A.2 of RFC 3550.
- **Queues and sources** (`IncomingQueues`, `Memberships`, `OutgoingQueues`,
  `SequenceTracking`): packets in two doubly linked lists at once, the hash table of sources,
  segmentation and expiry of outgoing packets, extended sequence numbers.
- **The change of station** (`StationChange`): the three processes as atomic steps over pipes.

`Octets`, `Words` and `Basics` hold machine integers, buffer copies and arithmetic. Code that
works on objects and buffers is modelled by classes and arrays; each method is tied to a
function or a sequence that the lemmas speak about. `dafny verify dfyconfig.toml` checks it all.

## Where the code departs from its intent

The model keeps these, and the lemmas named say exactly when they matter.

- A first-time late packet shifts the replay mask by a negative count, which C leaves undefined;
  the result is a parameter here (`LateArrivalRecordedByChance`). A distance of exactly 64 reads
  the mask with a shift by 64 (`DistanceOf64Undecided`), and an advance of 64 or more shifts it
  by that much (`FarAdvanceClearsByChance`).
- A late packet of the previous rollover epoch can raise `s_l` (`LateEpochMovesHighest`).
- A packet that belongs in front of the head of the global list does not move the head pointer.
  It is hidden from requests, and lost with the first packet they take (`RunBalances`,
  `RunConserves`, `EarlierPacketLost`); a request that takes nothing can leave a null link behind
  that a later arrival follows (`LinkLostByRequest`). Since order is by raw 16-bit numbers, this
  happens to the first packets of every new cycle of numbers (`NextCycleInFront`).
- The comment on `insertRecvPacket` promises that a packet already queued is refused; the code
  refuses only a repetition of the newest number, and its other test for a duplicate, inside a
  loop whose condition excludes it, can never succeed and is not modelled.
- The padding bit is authenticated by the sender and cleared by the receiver first, so a padded
  SRTP packet is accepted only if the tag does not tell the two apart (`ClearedThenUnprotect`).
  The correction of the payload size for padding has the wrong sign (`PaddingNeverDiscounted`).
- Further RTCP report packets start again at the first source, so sources beyond the first
  packet are never reported (`AllReported`). The header check does not look at the version of
  the last packet (`LastVersionUnchecked`). When the MTU leaves less room than one block, an
  unsigned difference wraps and the room is ignored (`BlocksUnchecked`); with 31 sources or more
  a report header is then sent that was never filled in (`DanglingExactly`).
- The MD5 length field takes its upper half from the wrong counter (`LengthRight`).
- A packet due in more than 2147 seconds may be dropped, and one that is equally late may be
  waited for (`DecisionRight`, `TurnedBackWaits`). Only rates of whole kilohertz are translated to
  the microsecond (`StampTimeExact`).
- A restarted sequence counts its number twice (`ResyncDoubles`). Where one packet is to make a new
  source valid, that packet is refused unless its number is 1 (`BecomesValid`).
- Pausing writes the key the user pressed, not the flush command meant for the transcoder
  (`PauseNeverFlushes`). Only the first command of a batch is looked at, and nobody answers after
  the transcoder has ended (`LostExactly`, `StreamsAgainExactly`).
- Counter mode never finishes a payload of 2^20 octets or more (`BlockLoopEnds`).

## Model

| member | source | states |
|---|---|---|
| ReplayProtection.GuessExact | test_code/libccrtp-1.8.0/src/CryptoContext.cxx:372-400 | the guess recovers the true 48-bit index exactly for the 65536 consecutive indices, modulo 2^48, around the highest accepted one |
| ReplayProtection.UpdateTracksHighest | test_code/libccrtp-1.8.0/src/CryptoContext.cxx:447-470 | after a right guess, (roc, s_l) encodes the larger of the old highest index and the new one, if and only if the packet is not of the previous rollover epoch |
| ReplayProtection.LateEpochMovesHighest | test_code/libccrtp-1.8.0/src/CryptoContext.cxx:462-464 | a concrete late packet of the previous epoch moves the highest index from 70000 to 125000, an index nobody sent |
| ReplayProtection.RunTracksTop | test_code/libccrtp-1.8.0/src/CryptoContext.cxx:447-470 | after any orderly run (steps of at most 32767, late packets in the current epoch) the context encodes the highest index that arrived |
| ReplayProtection.EveryGuessRight | test_code/libccrtp-1.8.0/src/CryptoContext.cxx:372-400 | every packet of an orderly run is guessed right, across any number of rollovers |
| ReplayProtection.SenderConsecutive | test_code/libccrtp-1.8.0/src/rtppkt.cpp:250-267 | the indices of the sender are consecutive modulo 2^48 over every wrap of its 16-bit counter |
| ReplayProtection.SenderCounts | test_code/libccrtp-1.8.0/src/outqueue.cpp:436-449 | until 48 bits are used up, the n-th packet has index start + n |
| ReplayProtection.TwoPartyAgreement | test_code/libccrtp-1.8.0/src/CryptoContext.cxx:372-400 | whatever packets of the sender arrive in an orderly run, the receiver computes the index the sender used for each |
| ReplayProtection.AdvanceKeepsWindow | test_code/libccrtp-1.8.0/src/CryptoContext.cxx:447-470 | an advance by 1 to 63 keeps the meaning of the replay mask: bit k set iff the index k below the highest arrived |
| ReplayProtection.ReplayRefused | test_code/libccrtp-1.8.0/src/CryptoContext.cxx:402-441 | a repetition within 63 of the highest is refused and leaves the mask meaning what it meant |
| ReplayProtection.TooOldRefused | test_code/libccrtp-1.8.0/src/CryptoContext.cxx:427-430 | a packet more than 64 behind the highest is refused whatever was received, and only the last guess changes |
| ReplayProtection.WindowIsHistory | test_code/libccrtp-1.8.0/src/CryptoContext.cxx:447-470 | over every run of advances by 1 to 63, repetitions within 63, and packets more than 64 behind that are guessed right, the mask is exactly the recent history |
| ReplayProtection.AcceptedOnce | test_code/libccrtp-1.8.0/src/rtppkt.cpp:328-349 | in such runs a packet is accepted if and only if its index has not arrived before and is at most 64 behind the highest: no index is accepted twice, however late its copy |
| ReplayProtection.LateArrivalRecordedByChance | test_code/libccrtp-1.8.0/src/CryptoContext.cxx:458 | a first-time late packet is accepted, and its replay is accepted again if and only if the undefined shift happens to leave its bit clear |
| ReplayProtection.FarAdvanceClearsByChance | test_code/libccrtp-1.8.0/src/CryptoContext.cxx:454 | an advance of 64 or more is accepted, and the mask is the history afterwards if and only if the undefined shift happens to leave bits 1 to 63 clear |
| ReplayProtection.DistanceOf64Undecided | test_code/libccrtp-1.8.0/src/CryptoContext.cxx:427-434 | exactly 64 behind the highest, the verdict is the undefined bit, whatever was received |
| CryptoContexts.CryptoContext.constructor | test_code/libccrtp-1.8.0/src/CryptoContext.cxx:58-77 | a new context is unused: its rollover counter as given, mask empty, sequence number not set |
| CryptoContexts.CryptoContext.GuessIndex | test_code/libccrtp-1.8.0/src/CryptoContext.cxx:372-400 | the method returns the specified index and leaves the specified state |
| CryptoContexts.CryptoContext.CheckReplay | test_code/libccrtp-1.8.0/src/CryptoContext.cxx:402-441 | without a policy everything is fresh and nothing changes; with one the verdict and state are the specified ones |
| CryptoContexts.CryptoContext.Update | test_code/libccrtp-1.8.0/src/CryptoContext.cxx:447-470 | the fields after the method are the specified successor state |
| CryptoContexts.CryptoContext.SrtpEncrypt | test_code/libccrtp-1.8.0/src/CryptoContext.cxx:192-224 | the stretch of the buffer is replaced by its encryption under the packet index, everything else is kept |
| CryptoContexts.CryptoContext.SrtpAuthenticate | test_code/libccrtp-1.8.0/src/CryptoContext.cxx:254-295 | the tag of the octets followed by the rollover counter is written, truncated to the tag length |
| CryptoContexts.CryptTwice | test_code/libccrtp-1.8.0/src/CryptoContext.cxx:192-224 | encrypting twice under one index restores the data, for every cipher |
| CryptoContexts.CryptOctet | test_code/libccrtp-1.8.0/src/CryptoContext.cxx:192-224 | under counter mode octet j is masked with octet j mod 16 of the cipher of input j / 16 of this very packet |
| CryptoContexts.IndicesApart | test_code/libccrtp-1.8.0/src/CryptoContext.cxx:213-219 | with the identity as cipher, equal payloads of 14 octets or more encrypt alike if and only if the two packets have one 48-bit index |
| CryptoContexts.TagOctets | test_code/libccrtp-1.8.0/src/CryptoContext.cxx:254-295 | what is digested is the message and the rollover counter, most significant octet first |
| CryptoContexts.TagBindsRollover | test_code/libccrtp-1.8.0/src/CryptoContext.cxx:254-295 | under a digest that shows its last 20 octets, tags of one message are equal if and only if the rollover counters are |
| CounterMode.GetCtrCipherStream | test_code/libccrtp-1.8.0/src/ccrtp/crypto/gcrypt/gcryptAesSrtp.cxx:97-127 | the output array holds the key stream: cipher of the counter blocks 0, 1, 2 and so on, the last one cut |
| CounterMode.CtrEncrypt | test_code/libccrtp-1.8.0/src/ccrtp/crypto/gcrypt/gcryptAesSrtp.cxx:145-159 | in place, the data becomes its exclusive or with the key stream and nothing outside changes |
| Octets.XorAt | test_code/libccrtp-1.8.0/src/ccrtp/crypto/gcrypt/gcryptAesSrtp.cxx:145-159 | the masking of an octet, on each of its eight bits |
| CounterMode.BlockLoopEnds | test_code/libccrtp-1.8.0/src/ccrtp/crypto/gcrypt/gcryptAesSrtp.cxx:99-115 | the loop over whole blocks with its 16-bit counter ends if and only if the length is below 2^20 |
| CounterMode.ComputeIv | test_code/libccrtp-1.8.0/src/CryptoContext.cxx:209-219 | the two loops compute the initial counter block of section 4.1.1 of RFC 3711 |
| CounterMode.IvInjective | test_code/libccrtp-1.8.0/src/CryptoContext.cxx:209-219 | for a fixed salt and source the first 14 octets determine the 48-bit index |
| CounterMode.CipherInputOctets | test_code/libccrtp-1.8.0/src/CryptoContext.cxx:209-219 | the 16 octets of a cipher input: the salt, masked with the source in octets 4 to 7 and with all six octets of the index in octets 8 to 13, then the block number |
| CounterMode.CipherInputInjective | test_code/libccrtp-1.8.0/src/ccrtp/crypto/gcrypt/gcryptAesSrtp.cxx:97-127 | equal cipher inputs come from the same packet index and block number |
| CounterMode.NoCipherInputRepeats | test_code/libccrtp-1.8.0/src/ccrtp/crypto/gcrypt/gcryptAesSrtp.cxx:97-127 | over all packets of one sender below 2^48 and lengths below 2^20, two payload positions share a cipher input if and only if they are in the same block of the same packet; NoKeyStreamRepeats ties this to the packets on the wire |
| RtpFormat.BuildThenParse | test_code/libccrtp-1.8.0/src/rtppkt.cpp:110-131 | parsing a packet laid out as built recovers every header field, CSRC list, extension and payload; it is valid iff its type is not 72 or 73 |
| RtpFormat.CsrcCountBack | test_code/libccrtp-1.8.0/src/rtppkt.cpp:241-248 | the CSRC count survives its four-bit field if and only if there are at most 15 |
| RtpFormat.FixedHeader | test_code/libccrtp-1.8.0/src/rtppkt.cpp:133-166 | the twelve octets of the fixed header, each written out from the fields |
| RtpFormat.PaddedToMultiple | test_code/libccrtp-1.8.0/src/rtppkt.cpp:133-166 | padding adds 1 to paddinglen octets and makes the total a multiple of it |
| RtpFormat.PayloadSizeWraps | test_code/libccrtp-1.8.0/src/rtppkt.cpp:110-122 | the payload size of a received packet is what header and padding leave if and only if they do not exceed the packet; otherwise it wraps |
| RtpPackets.OutgoingRtpPacket.constructor | test_code/libccrtp-1.8.0/src/rtppkt.cpp:133-166 | the buffer holds version, padding, extension bit, CSRC count and list, extension, data and padding; sizes are consistent |
| RtpPackets.OutgoingRtpPacket.SetCsrcArray | test_code/libccrtp-1.8.0/src/rtppkt.cpp:241-248 | identifiers in network order, the count in the first octet, nothing else changed |
| RtpPackets.OutgoingRtpPacket.Protect | test_code/libccrtp-1.8.0/src/rtppkt.cpp:250-267 | the buffer becomes the protected packet, the rollover counter moves only after sequence number 65535 |
| RtpPackets.NewDataPacket | test_code/libccrtp-1.8.0/src/outqueue.cpp:430-446 | the packet that the queue builds carries exactly the given header fields and data |
| RtpPackets.IncomingRtpPacket.constructor | test_code/libccrtp-1.8.0/src/rtppkt.cpp:273-293 | header size, payload size, validity and cached fields are those of the octets |
| RtpPackets.IncomingRtpPacket.UnprotectWith | test_code/libccrtp-1.8.0/src/rtppkt.cpp:295-352 | code, buffer and context after the method are the specified ones; total and payload size exclude the tag |
| RtpPackets.IncomingRtpPacket.ReComputePayLength | test_code/libccrtp-1.8.0/src/rtppkt.cpp:179-190 | the padding bit is set again, and the payload size grows by the octet at payloadSize - 1 |
| SrtpRoundTrip.ProtectThenUnprotect | test_code/libccrtp-1.8.0/src/rtppkt.cpp:295-352 | for every cipher, MAC, payload and index-synchronised receiver that admits it, unprotect after protect returns 1 and restores the packet |
| SrtpRoundTrip.WireTag | test_code/libccrtp-1.8.0/src/rtppkt.cpp:250-267 | the tag stands behind the packet and covers the octets in front of it as they are on the wire |
| SrtpRoundTrip.NoKeyStreamRepeats | test_code/libccrtp-1.8.0/src/rtppkt.cpp:250-267 | payload octets of two packets of one sender on the wire are masked with octets of the cipher, drawn from one input if and only if they lie in one 16-octet block of one packet |
| SrtpRoundTrip.RolloverDecides | test_code/libccrtp-1.8.0/src/rtppkt.cpp:333-349 | under a digest that shows its input, a receiver that admits the packet accepts it if and only if the rollover counter it guessed is the sender's |
| SrtpRoundTrip.OtherTagRefused | test_code/libccrtp-1.8.0/src/rtppkt.cpp:337-342 | with any other tag the packet is refused, and no octet changes |
| SrtpRoundTrip.ReplayUntouched | test_code/libccrtp-1.8.0/src/rtppkt.cpp:328-331 | a replay returns -2 and leaves the octets as they came |
| SrtpRoundTrip.EveryPacketRestored | test_code/libccrtp-1.8.0/src/rtppkt.cpp:250-352 | over every orderly run between two contexts each packet is either refused as a replay or restored exactly |
| SrtpRoundTrip.WireParses | test_code/libccrtp-1.8.0/src/rtppkt.cpp:250-293 | a protected packet parses to the same header, with a payload longer by the tag |
| SrtpRoundTrip.PacketSurvives | test_code/libccrtp-1.8.0/src/rtppkt.cpp:250-352 | from the application data through build, protect, parse and unprotect back to the same data |
| SrtpRoundTrip.ClearedThenUnprotect | test_code/libccrtp-1.8.0/src/incqueue.cpp:203-206 | a protected packet whose padding bit the receiver clears before unprotect is accepted if and only if the tags of the two octet strings agree; then everything but that bit is restored |
| SrtpRoundTrip.PaddedPacketSurvives | test_code/libccrtp-1.8.0/src/incqueue.cpp:203-255 | for a padded packet of the application the header still parses, the payload comes back exactly when those tags agree, and setting the bit again restores the packet |
| SrtpRoundTrip.PaddingNeverDiscounted | test_code/libccrtp-1.8.0/src/rtppkt.cpp:179-190 | without SRTP the payload size of a padded packet is never corrected: it counts the padding, and reComputePayLength makes it larger |
| Threefish.Size256 | test_code/libccrtp-1.8.0/src/ccrtp/crypto/skein_block.c:135-145 | the 256-bit permutation, its inverse and its renamed register orders belong together |
| Threefish.Size512 | test_code/libccrtp-1.8.0/src/ccrtp/crypto/skein_block.c:338-349 | the same for 512 bits |
| Threefish.Size1024 | test_code/libccrtp-1.8.0/src/ccrtp/crypto/skein_block.c:586-597 | the same for 1024 bits |
| Threefish.RotateBack | test_code/libccrtp-1.8.0/src/ccrtp/crypto/skein_block.c:103-105 | rotating left and right by the same amount undo each other |
| Threefish.RotLShifts | test_code/libccrtp-1.8.0/src/ccrtp/crypto/skein_block.c:103-105 | a rotation is a shift left by n whose overflow comes back at the bottom |
| Threefish.MixInverse | test_code/libccrtp-1.8.0/src/ccrtp/crypto/skein_block.c:103-105 | mixing all pairs of words has an explicit inverse, on both sides |
| Threefish.RoundInverse | test_code/libccrtp-1.8.0/src/ccrtp/crypto/skein_block.c:103-145 | a round, mix then permute, has an explicit inverse |
| Threefish.SubkeyInverse | test_code/libccrtp-1.8.0/src/ccrtp/crypto/skein_block.c:111-117 | subtracting a subkey undoes adding it |
| Threefish.EncryptBijective | test_code/libccrtp-1.8.0/src/ccrtp/crypto/skein_block.c:297-349 | for every key and tweak the whole transform before the feedforward is a bijection, for all three block sizes |
| SkeinBlock.OrdersInjective | test_code/libccrtp-1.8.0/src/ccrtp/crypto/skein_block.c:135-145 | the renamed register orders are permutations |
| SkeinBlock.RoundInPlace | test_code/libccrtp-1.8.0/src/ccrtp/crypto/skein_block.c:103-105 | the in-place round on renamed registers mixes the words read in that order |
| SkeinBlock.FourRoundsInPlace | test_code/libccrtp-1.8.0/src/ccrtp/crypto/skein_block.c:525-597 | four rounds on renamed registers equal four mix-and-permute rounds, the renaming being back at the identity |
| SkeinBlock.RoundsModular | test_code/libccrtp-1.8.0/src/ccrtp/crypto/skein_block.c:297-313 | the unrolled form with the modular key schedule computes the reference cipher |
| SkeinBlock.WindowReads | test_code/libccrtp-1.8.0/src/ccrtp/crypto/skein_block.c:28-32 | at injection j the cells of the shared array hold the key words at (j+k) mod (WCNT+1) and the tweak words j, j+1 mod 3 |
| SkeinBlock.WindowSlides | test_code/libccrtp-1.8.0/src/ccrtp/crypto/skein_block.c:128-129 | the two rotating writes keep that meaning for j + 1 although their cells overlap |
| SkeinBlock.InjectLooping | test_code/libccrtp-1.8.0/src/ccrtp/crypto/skein_block.c:123-130 | the looping injection adds subkey j and slides both windows |
| SkeinBlock.RoundsLooping | test_code/libccrtp-1.8.0/src/ccrtp/crypto/skein_block.c:314-349 | the looping form, for every unroll count that divides the rounds, computes the reference cipher without writing outside its array |
| SkeinSpec.HeldBack | test_code/libccrtp-1.8.0/src/ccrtp/crypto/skein.c:331-375 | the octets held back are the last 1 to BLOCK of the data, none only when there was none |
| SkeinSpec.AbsorbTwice | test_code/libccrtp-1.8.0/src/ccrtp/crypto/skein.c:331-375 | absorbing data in two pieces equals absorbing the concatenation |
| SkeinSpec.ChunkIndependent | test_code/libccrtp-1.8.0/src/ccrtp/crypto/skein.c:331-375 | any sequence of updates leaves the chaining words, tweak and pending octets of one update on the concatenation |
| SkeinSpec.AbsorbSteps | test_code/libccrtp-1.8.0/src/ccrtp/crypto/skein_block.c:262-417 | processing several blocks in one call equals processing them one by one |
| SkeinSpec.WordsBack | test_code/libccrtp-1.8.0/src/ccrtp/crypto/skein.c:298-306 | words written in little-endian order read back as themselves |
| SkeinStandard.CallsCount | test_code/libccrtp-1.8.0/src/ccrtp/crypto/skein.c:379-389 | call i of UBI is made at position min((i + 1) BLOCK, length), marked first exactly when i is 0 and final exactly when no call follows |
| SkeinStandard.CallsDetermine | test_code/libccrtp-1.8.0/src/ccrtp/crypto/skein.c:331-389 | two messages, of whatever types, that lead to the same calls of the cipher are one message of one type |
| SkeinStandard.FinishedIsUbi | test_code/libccrtp-1.8.0/src/ccrtp/crypto/skein.c:331-389 | absorbing and finishing any message below 2^64 octets is UBI of section 3.4 of the Skein 1.3 specification, and the position ends at the length of the message |
| SkeinStandard.ConfigIsStandard | test_code/libccrtp-1.8.0/src/ccrtp/crypto/skein.c:311-318 | the configuration block is the 32 octets of the specification, padded |
| SkeinStandard.OutputIsStandard | test_code/libccrtp-1.8.0/src/ccrtp/crypto/skein.c:395-410 | each octet of the output is that of UBI over the 8-octet counter with the output type |
| SkeinStandard.MacIsStandard | test_code/libccrtp-1.8.0/src/ccrtp/crypto/macSkein.cpp:34-49 | for every key, output length and message the MAC is that of the specification: key, configuration, message and output stage |
| Skein.SkeinCtx.ProcessBlock | test_code/libccrtp-1.8.0/src/ccrtp/crypto/skein_block.c:227-417 | the method over a run of blocks computes the iterated step, in either form of the key schedule |
| Skein.SkeinCtx.Update | test_code/libccrtp-1.8.0/src/ccrtp/crypto/skein.c:331-375 | the context after an update is the absorption of what was pending and the message |
| Skein.SkeinCtx.Final | test_code/libccrtp-1.8.0/src/ccrtp/crypto/skein.c:379-413 | the output array holds the counter-mode output of the finished chain, which counts bCnt octets for the last block (SkeinStandard.FinishedIsUbi) |
| Skein.SkeinCtx.FinalPad | test_code/libccrtp-1.8.0/src/ccrtp/crypto/skein.c:625-639 | the padded final chain as octets, whatever lay behind the buffered ones |
| Skein.SkeinCtx.InitExt | test_code/libccrtp-1.8.0/src/ccrtp/crypto/skein.c:274-327 | the context is at the start of a message under the key, the output length and the tree information |
| Skein.SkeinCtx.MacInit | test_code/libccrtp-1.8.0/src/ccrtp/crypto/skeinApi.c:83-122 | a zero length is refused with code 2, otherwise the context serves the key and its start is saved |
| Skein.SkeinCtx.Reset | test_code/libccrtp-1.8.0/src/ccrtp/crypto/skeinApi.c:124-145 | the context is ready for a message under the saved words, nothing pending |
| Skein.SkeinCtx.UpdateAndFinal | test_code/libccrtp-1.8.0/src/ccrtp/crypto/macSkein.cpp:71-83 | the tag of the concatenated chunks under the key |
| Skein.SkeinCtx.MacSkeinCtx | test_code/libccrtp-1.8.0/src/ccrtp/crypto/macSkein.cpp:61-83 | the tag equals that of a fresh context, and the context is again keyed the same way, after any history |
| Skein.MacSkein | test_code/libccrtp-1.8.0/src/ccrtp/crypto/macSkein.cpp:34-49 | the one-shot MAC computes the same tag |
| Md5Spec.LowBits | test_code/libccrtp-1.8.0/src/queue.cpp:193-211 | the low k bits of F, G, H and I depend on the low k bits of the operands alone |
| Md5Spec.RotateTracks | test_code/libccrtp-1.8.0/src/queue.cpp:183-191 | the low half of the 64-bit rotation is the 32-bit rotation of the low half |
| Md5Spec.AuxTracks | test_code/libccrtp-1.8.0/src/queue.cpp:193-211 | the low half of the 64-bit auxiliary functions is the 32-bit function of the low halves |
| Md5Spec.ComposedIs | test_code/libccrtp-1.8.0/src/queue.cpp:193-211 | the compositions of and, or, not and exclusive or in the source are the standard's functions on every bit |
| Md5Spec.AuxLaws | test_code/libccrtp-1.8.0/src/queue.cpp:193-211 | F selects between its operands, G is F with operands turned, H is exclusive or in any order, I complements it or its second operand |
| Md5.OpTracks | test_code/libccrtp-1.8.0/src/queue.cpp:214-236 | whatever the upper halves hold, the low half of FF, GG, HH and II is the operation of section 3.4 of RFC 1321 |
| Md5.LoadWordLow | test_code/libccrtp-1.8.0/src/queue.cpp:290-294 | the sign-extended input word has the little-endian word as its low half |
| Md5.Step | test_code/libccrtp-1.8.0/src/queue.cpp:214-236 | one statement keeps the registers tracking the standard, when word, shift and constant are those of its table |
| Md5.FirstRound | test_code/libccrtp-1.8.0/src/queue.cpp:296-311 | the 16 statements of round 1 leave the standard's registers in the low halves |
| Md5.SecondRound | test_code/libccrtp-1.8.0/src/queue.cpp:313-328 | the same for round 2 |
| Md5.ThirdRound | test_code/libccrtp-1.8.0/src/queue.cpp:330-345 | the same for round 3 |
| Md5.FourthRound | test_code/libccrtp-1.8.0/src/queue.cpp:347-362 | the same for round 4 |
| Md5.OctetsOfWordLow | test_code/libccrtp-1.8.0/src/queue.cpp:402-407 | the octets taken from a 64-bit register are those of its low half |
| Md5.CountersAdd | test_code/libccrtp-1.8.0/src/queue.cpp:281-282 | the two 64-bit counters with their carry count 8 n bits modulo 2^128 |
| Md5.LengthRight | test_code/libccrtp-1.8.0/src/queue.cpp:385-394 | the length field written is the standard's exactly when bits 64 to 95 of the bit count repeat bits 32 to 63; below 2^61 octets, exactly below 2^29 |
| Md5.PadFromCounter | test_code/libccrtp-1.8.0/src/queue.cpp:396-398 | the pad computed from the counter is the standard's pad |
| Md5.PaddedShape | test_code/libccrtp-1.8.0/src/queue.cpp:385-401 | a padded message is the message, one bit, zeros, and its length in bits as 64 bits, in whole blocks |
| Md5.CodedIsPadded | test_code/libccrtp-1.8.0/src/queue.cpp:385-401 | what is digested is the standard's padded message, below 2^61 octets, iff the message is under 2^29 octets |
| Md5.MD5Digest.constructor | test_code/libccrtp-1.8.0/src/queue.cpp:238-255 | an accumulator starts with the standard's registers and an empty message |
| Md5.MD5Digest.Update | test_code/libccrtp-1.8.0/src/queue.cpp:270-369 | the registers advance by the standard's transform of the zero-filled buffer, the counters by 512 bits |
| Md5.MD5Digest.PutDigest | test_code/libccrtp-1.8.0/src/queue.cpp:420-431 | for any chunk, the registers have absorbed all whole blocks of the message so far and the buffer holds the rest |
| Md5.MD5Digest.Overflow | test_code/libccrtp-1.8.0/src/queue.cpp:257-268 | a full buffer is absorbed first; then one octet is put, or none for EOF; the invariant of the accumulator is kept |
| Md5.MD5Digest.Commit | test_code/libccrtp-1.8.0/src/queue.cpp:371-410 | the digest is that of the message with its pad and length field, and the accumulator starts over |
| Md5.MD5Digest.GetDigest | test_code/libccrtp-1.8.0/src/queue.cpp:412-418 | for any chunking of a message under 2^29 octets, the digest of RFC 1321; afterwards the message is empty again |
| RtcpFormat.WalkIffTiled | test_code/libccrtp-1.8.0/src/rtcppkt.cpp:122-136 | the length walk accepts if and only if the length fields tile the compound and every packet but the last has version 2 |
| RtcpFormat.LastVersionUnchecked | test_code/libccrtp-1.8.0/src/rtcppkt.cpp:127-131 | a compound whose last packet claims version 0 is accepted |
| RtcpFormat.CompoundTiles | test_code/libccrtp-1.8.0/src/control.cpp:902-909 | the length fields of any built run of packets lead from each packet to the next and to the end |
| RtcpFormat.CompoundHeaders | test_code/libccrtp-1.8.0/src/control.cpp:902-909 | every packet of a built compound begins with version 2, its number of blocks or 1 for a description in five bits, its type and its length in words |
| RtcpFormat.ReportBack | test_code/libccrtp-1.8.0/src/control.cpp:1015-1040 | a report block reads back as the report, with the loss count modulo 2^24 |
| RtcpFormat.BlocksBack | test_code/libccrtp-1.8.0/src/control.cpp:1003-1047 | the k-th block of a report packet reads back as the k-th report |
| RtcpFormat.SenderBack | test_code/libccrtp-1.8.0/src/control.cpp:856-876 | identifier and sender info of a sender report read back |
| RtcpFormat.ItemsBack | test_code/libccrtp-1.8.0/src/control.cpp:963-999 | items with texts up to 255 octets read back from a chunk, whatever padding follows END |
| RtcpReports.BlocksBest | test_code/libccrtp-1.8.0/src/control.cpp:1008-1013 | with room for a block, blocks are packed until sources, room or the 31 of the count field run out |
| RtcpReports.BlocksUnchecked | test_code/libccrtp-1.8.0/src/control.cpp:1009-1010 | with less room the unsigned difference wraps and min(31, sources) blocks are packed regardless |
| RtcpReports.RunShape | test_code/libccrtp-1.8.0/src/control.cpp:902-932 | a run is full packets of the first 31 sources and one last packet, only the first with sender info, ending below the room when there is room for a block |
| RtcpReports.DanglingExactly | test_code/libccrtp-1.8.0/src/control.cpp:910-932 | the header of one more report packet is written and never filled if and only if the room is below one block and there are 31 sources or more |
| RtcpReports.AllReported | test_code/libccrtp-1.8.0/src/control.cpp:1003-1013 | every source is reported if and only if there are at most 31 and the first packet has room for them: further packets start again at the first source |
| RtcpPackets.RtcpQueue.CheckCompoundRTCPHeader | test_code/libccrtp-1.8.0/src/rtcppkt.cpp:108-137 | true iff the first octets are right and the walk over the receive buffer ends at the length, for every length whose whole words lie in the buffer |
| RtcpPackets.RtcpQueue.PackReportBlocks | test_code/libccrtp-1.8.0/src/control.cpp:1003-1047 | as many blocks as specified are in the buffer, for a prefix of the sources |
| RtcpPackets.RtcpQueue.PackSDES | test_code/libccrtp-1.8.0/src/control.cpp:950-1001 | the chunk of the local source is appended: CNAME, at most one more item, END and padding to a word |
| RtcpPackets.RtcpQueue.PackReports | test_code/libccrtp-1.8.0/src/control.cpp:894-932 | for every room, the loop leaves the run of report packets in the send buffer, and behind it the unfilled header exactly in that case |
| RtcpPackets.RtcpQueue.DispatchControlPacket | test_code/libccrtp-1.8.0/src/control.cpp:831-948 | what is sent is the compound of reports and description, with the 16-bit room as computed; only an unfilled header may stand between them |
| RtcpPackets.DefaultHasRoom | test_code/libccrtp-1.8.0/src/control.cpp:886-891 | with the 1500-octet default, a CNAME up to 255 octets and IPv4 or IPv6 headers there is room |
| RtcpPackets.BuiltSize | test_code/libccrtp-1.8.0/src/control.cpp:886-936 | with room for a block no header is left unfilled, and with a scheduled item of at most 99 octets compound and lower headers fit the path MTU |
| RtcpPackets.BuiltIsAccepted | test_code/libccrtp-1.8.0/src/rtcppkt.cpp:108-137 | every compound built without an unfilled header passes the header check, its length fields tile it exactly and every packet has version 2 |
| RtcpPackets.BuiltIsHeaded | test_code/libccrtp-1.8.0/src/control.cpp:902-909 | count, type and length of every packet of such a compound are its own |
| IncomingQueues.PlacesAgree | test_code/libccrtp-1.8.0/src/incqueue.cpp:374-424 | the place in the source list and the place in the global list are the same packet |
| IncomingQueues.PlaceSplits | test_code/libccrtp-1.8.0/src/incqueue.cpp:376-388 | in front of the place nothing is newer, behind it everything is |
| IncomingQueues.IncomingQueue.InsertOrdered | test_code/libccrtp-1.8.0/src/incqueue.cpp:425-462 | a newest packet goes behind its source's last and behind everything else, both lists stay linked |
| IncomingQueues.IncomingQueue.InsertDisordered | test_code/libccrtp-1.8.0/src/incqueue.cpp:374-424 | an older packet enters both lists in front of the first newer packet of its source; the head pointer stays, so what belongs in front of it is hidden |
| IncomingQueues.IncomingQueue.InsertRecvPacket | test_code/libccrtp-1.8.0/src/incqueue.cpp:369-469 | refused iff it repeats the newest number of its source in the queue; otherwise the global list holds it where nothing newer of its source is in front and a newer one or the end behind; a head that was visible stays the head |
| IncomingQueues.IncomingQueue.GetWaiting | test_code/libccrtp-1.8.0/src/incqueue.cpp:574-627 | every expired packet is of an earlier time or late; the result is non-null iff a visible packet has exactly the time asked for, is not late, and all in front of it are earlier or late, and it is that packet; hidden packets are lost or cut off as specified |
| IncomingQueues.IncomingQueue.AddSource | test_code/libccrtp-1.8.0/src/ccrtp/iqueue.h:472-486 | a new source brings no packets and leaves the queue valid |
| IncomingQueues.IncomingQueue.GetFirstTimestamp | test_code/libccrtp-1.8.0/src/incqueue.cpp:159-180 | the timestamp at the head, or 0 |
| IncomingQueues.HeadRunMaximal | test_code/libccrtp-1.8.0/src/incqueue.cpp:576-582 | the expired packets are earlier than the time asked for or late, and the one behind them is neither |
| IncomingQueues.RunBalances | test_code/libccrtp-1.8.0/src/incqueue.cpp:369-627 | over every run what was accepted was returned or expired, is queued, or is lost, and the packets lost or still hidden are exactly those that belonged in front of the head on arrival |
| IncomingQueues.RunConserves | test_code/libccrtp-1.8.0/src/incqueue.cpp:369-627 | from a queue that hides nothing: accepted packets are those that left and those requests can still see, if and only if no arrival of the run belonged in front of the head at its moment |
| IncomingQueues.RunLeavesRight | test_code/libccrtp-1.8.0/src/incqueue.cpp:574-627 | over every run a packet leaves as a result exactly when the request is for its own time and it is not late; otherwise it expires, and then its time has passed or it is late |
| IncomingQueues.AskedIsReturned | test_code/libccrtp-1.8.0/src/incqueue.cpp:608-611 | a visible packet that is asked for at its own time is the result of the request |
| IncomingQueues.OrderlyNeverHides | test_code/libccrtp-1.8.0/src/incqueue.cpp:374-406 | a run has no such arrival if and only if nothing is hidden at any moment of it |
| IncomingQueues.IncomingQueue.Serve | test_code/libccrtp-1.8.0/src/incqueue.cpp:369-627 | performing any run of arrivals and requests on the linked lists does what the run function says, and an orderly run leaves the queue with nothing hidden |
| IncomingQueues.EarlierPacketLost | test_code/libccrtp-1.8.0/src/incqueue.cpp:391-406 | packets 10 and then 5 of one source, then a request past both: packet 10 expires, packet 5 is neither returned nor expired nor queued |
| IncomingQueues.LinkLostByRequest | test_code/libccrtp-1.8.0/src/incqueue.cpp:407-417 | packets 10 and 5, then a request that takes nothing: packet 7 would be put behind a link that is null |
| IncomingQueues.RunKeepsOrder | test_code/libccrtp-1.8.0/src/incqueue.cpp:369-627 | over every run the packets of each source stay in order of sequence numbers, and what is hidden is of the source of the visible head |
| IncomingQueues.OrderIsSendingOrder | test_code/libccrtp-1.8.0/src/incqueue.cpp:369-388 | packets sent less than 2^16 apart are queued in the order of sending if and only if no cycle of sequence numbers began between them |
| IncomingQueues.NextCycleInFront | test_code/libccrtp-1.8.0/src/incqueue.cpp:374-406 | a packet sent after the visible head of its source is put in front of it if and only if a new cycle of numbers began in between |
| Memberships.Membership.constructor | test_code/libccrtp-1.8.0/src/members.cpp:172-179 | a new table is empty and valid |
| Memberships.Membership.IsRegistered | test_code/libccrtp-1.8.0/src/members.cpp:206-224 | true iff the identifier has a record |
| Memberships.Membership.GetSourceBySSRC | test_code/libccrtp-1.8.0/src/members.cpp:226-281 | a record is created iff the identifier had none; chains stay sorted and in the right bucket, the list is the insertion order, the count its length |
| Memberships.Membership.OneRecord | test_code/libccrtp-1.8.0/src/members.cpp:227-281 | two records of one identifier are the same object, so later lookups return the same link |
| Memberships.Membership.Decided | test_code/libccrtp-1.8.0/src/members.cpp:212-222 | stopping at the first identifier not smaller decides membership |
| Memberships.TableIsRequests | test_code/libccrtp-1.8.0/src/members.cpp:226-281 | after any run the table holds exactly what was requested, each once, ordered by first request |
| OutgoingQueues.SegmentsRejoin | test_code/libccrtp-1.8.0/src/outqueue.cpp:411-417 | the segments rejoin to the data, none is empty and all but the last are full |
| OutgoingQueues.DataPacketsCarry | test_code/libccrtp-1.8.0/src/outqueue.cpp:411-461 | the payloads of one call rejoin to its data, sequence numbers are consecutive modulo 2^16, at most the first packet is marked, timestamp, source, payload type and CSRC list are as set |
| OutgoingQueues.DueAtStamp | test_code/libccrtp-1.8.0/src/outqueue.cpp:314-328 | a packet queued with a timestamp is due at the time of that timestamp, counted from the time the queue started |
| OutgoingQueues.OutgoingQueue.PutData | test_code/libccrtp-1.8.0/src/outqueue.cpp:405-463 | those packets and no others are queued at the tail, the counter and the mark follow |
| OutgoingQueues.OutgoingQueue.DispatchDataPacket | test_code/libccrtp-1.8.0/src/outqueue.cpp:550-580 | the head is sent and removed; the counters equal the number and octets of all that was sent |
| OutgoingQueues.OctetCountIs | test_code/libccrtp-1.8.0/src/outqueue.cpp:570-576 | the octet counter is the number of payload octets of all packets sent, modulo 2^32 |
| OutgoingQueues.OutgoingQueue.GetSchedulingTimeout | test_code/libccrtp-1.8.0/src/outqueue.cpp:304-403 | the loop ends; what it drops is a prefix of the queue and its outcome is the specified schedule |
| OutgoingQueues.HeadOnTime | test_code/libccrtp-1.8.0/src/outqueue.cpp:314-391 | a head due less than 2^31 microseconds from now, as its timestamp gives it: ahead, it is waited for exactly that long; late up to the limit, sent at once; later, and only then, dropped; no cycle is counted as lost |
| OutgoingQueues.LateOnesExpire | test_code/libccrtp-1.8.0/src/outqueue.cpp:304-403 | over the whole queue, exactly the packets in front that are late by more than the limit are dropped, and the timeout is the distance of the first that is not |
| OutgoingQueues.HeadFarAhead | test_code/libccrtp-1.8.0/src/outqueue.cpp:364-374 | from an hour to 20000 seconds ahead the timeout is an hour |
| OutgoingQueues.HeadTurnedBack | test_code/libccrtp-1.8.0/src/outqueue.cpp:364-370 | beyond 20000 seconds ahead the due time is taken back by one full cycle of timestamps |
| OutgoingQueues.OutgoingQueue.PurgeOutgoingQueue | test_code/libccrtp-1.8.0/src/outqueue.cpp:204-218 | nothing is pending afterwards |
| OutgoingQueues.RunConserves | test_code/libccrtp-1.8.0/src/outqueue.cpp:304-580 | over every run of putData, dispatchDataPacket and getSchedulingTimeout, what was sent or dropped, in order, and what is pending, in order, are what was pending and what was queued |
| OutgoingQueues.RunCarries | test_code/libccrtp-1.8.0/src/outqueue.cpp:405-463 | the payloads of the packets a run queues rejoin to the data of its calls, with consecutive sequence numbers |
| OutgoingQueues.OutgoingQueue.Serve | test_code/libccrtp-1.8.0/src/outqueue.cpp:304-580 | performing any run of these calls on the linked queue does what the run function says and conserves the packets |
| OutgoingQueues.CyclesLostEnough | test_code/libccrtp-1.8.0/src/outqueue.cpp:348-358 | the overflow loop adds the least number of timestamp cycles that makes the packet at most 5000 seconds late |
| OutgoingQueues.StampTimeExact | test_code/libccrtp-1.8.0/src/outqueue.cpp:325-327 | all timestamps of a rate are translated to the microsecond if and only if the rate is of whole kilohertz |
| OutgoingQueues.OtherRateOvershoots | test_code/libccrtp-1.8.0/src/outqueue.cpp:327 | at every other rate the last sample of the first second is put into the next second |
| OutgoingQueues.DecisionRight | test_code/libccrtp-1.8.0/src/outqueue.cpp:371-389 | for all times the decision is the intended one exactly when the distance fits 32 signed bits, or the hour cap applies, or it is a lateness whose 32-bit residue is again a lateness above the limit |
| OutgoingQueues.TurnedBackWaits | test_code/libccrtp-1.8.0/src/outqueue.cpp:364-389 | at 90 kHz a packet due 22722 seconds ahead is turned back to 25000 seconds late and waited for instead of dropped |
| OutgoingQueues.FarPacketExpires | test_code/libccrtp-1.8.0/src/outqueue.cpp:375-389 | a packet due in 50 minutes is dropped at once |
| StationChange.RunsAreSafe | Transcoder.c:195-225 | in every interleaving at most one announcement or answer is under way, a streaming fetcher finds only its own station in the pipe, and no byte written before a flush is sent after the server consumed it |
| StationChange.FetcherKeeps | mp3fetcher.c:616-681 | every step of the fetcher keeps that |
| StationChange.TranscoderKeepsChange | Transcoder.c:195-250 | every step of the transcoder keeps the first two parts |
| StationChange.TranscoderKeepsAudio | Transcoder.c:200-246 | every step of the transcoder keeps the third |
| StationChange.ServerKeepsAudio | rtp_connection.c:92-153 | every step of the server, draining in chunks included, keeps the third |
| StationChange.ServerEndsWithTranscoder | main.c:62-69 | in every run the server is told to end, or has ended, exactly when the transcoder has |
| StationChange.PauseNeverFlushes | mp3fetcher.c:644-650 | the server is never told to flush because of a pause: flushes never outnumber station changes |
| StationChange.LostExactly | Transcoder.c:195-250 | a change of station is lost in exactly three ways: one read takes its announcement together with a command in front of it, the transcoder ends before reading it, or had ended before |
| StationChange.StreamsAgainExactly | Transcoder.c:195-225 | in every reachable state in which the fetcher waits, some continuation lets it stream if and only if an answer is under way or the running transcoder still has the announcement to read |
| StationChange.EndLosesChange | Transcoder.c:221-228 | a transcoder that ends right after the announcement leaves the fetcher waiting |
| StationChange.LostForever | mp3fetcher.c:619-625 | once lost, the fetcher waits for ever in every continuation |
| StationChange.PauseLosesChange | mp3fetcher.c:644-650 | a concrete run in which pausing before a change of station loses the announcement |
| SequenceTracking.SourceStatistics.constructor | test_code/libccrtp-1.8.0/src/members.cpp:73-98 | the initial statistics |
| SequenceTracking.SourceStatistics.RecordReception | test_code/libccrtp-1.8.0/src/incqueue.cpp:630-690 | verdict and fields after the method are the specified ones |
| SequenceTracking.StepAdvances | test_code/libccrtp-1.8.0/src/incqueue.cpp:658-665 | a packet ahead by less than the dropout limit advances the extended number by exactly its step, modulo 2^32 |
| SequenceTracking.RefusedKeeps | test_code/libccrtp-1.8.0/src/incqueue.cpp:666-681 | a refused packet of a valid source leaves the extended number and validity alone |
| SequenceTracking.LateAccepted | test_code/libccrtp-1.8.0/src/incqueue.cpp:659-685 | a packet k behind the highest is accepted iff k is below the misorder limit |
| SequenceTracking.ResyncDoubles | test_code/libccrtp-1.8.0/src/ccrtp/iqueue.h:714-721 | a restarted sequence has twice the packet's number as extended number, right only for number 0 |
| SequenceTracking.SuccessorRestarts | test_code/libccrtp-1.8.0/src/incqueue.cpp:666-681 | of two far packets the first is refused and the second restarts the sequence if and only if its number is the next one |
| SequenceTracking.BecomesValid | test_code/libccrtp-1.8.0/src/incqueue.cpp:637-655 | a new source becomes valid with exactly the required number of consecutive packets, the last of which is the first accepted |
| SequenceTracking.GapStartsAnew | test_code/libccrtp-1.8.0/src/incqueue.cpp:650-655 | on probation a packet out of sequence makes the count begin with itself |
| SequenceTracking.RunFollowsPackets | test_code/libccrtp-1.8.0/src/incqueue.cpp:657-685 | over any number of 16-bit wraps the extended number moves as far as the highest packet |

## Left out

- IncomingQueues.IncomingQueue.GetWaiting: the source-specific branch is not modelled; it leaves links of other lists stale.
- OutgoingQueues.OutgoingQueue.PurgeOutgoingQueue: deletion of the packets is not modelled, only that none stays reachable.
- IncomingQueues.IncomingQueue.InsertRecvPacket: requires that the packet's place is not right in front of a head that a request cut off, where the code follows a null link (`LinkLostByRequest`); runs are performed up to there.
- RtpPackets.IncomingRtpPacket.constructor: datagrams shorter than the fixed header, or whose extension header is cut off, are excluded; the code reads behind them.
- RtpPackets.IncomingRtpPacket.UnprotectWith: datagrams with fewer octets behind the header than the tag has are excluded; there the code's unsigned differences wrap and it reads and writes outside the packet. Its payload size is the one without padding, as the receiving queue clears that bit first.
- RtpPackets.IncomingRtpPacket.ReComputePayLength: an empty payload is excluded, for which the code reads octet 2^32 - 1.
- CryptoContexts.CryptoContext.SrtpEncrypt: lengths of 2^20 octets and more are excluded, on which the code does not end (`BlockLoopEnds`).
- CounterMode.GetCtrCipherStream: the same.
- CounterMode.CtrEncrypt: the same.
- RtcpPackets.RtcpQueue.PackReportBlocks: requires that the blocks it will pack fit the send buffer, which the code does not check.
- RtcpPackets.RtcpQueue.PackReports: requires that of the run, and of a header left unfilled.
- RtcpPackets.RtcpQueue.PackSDES: requires that of the description.
- RtcpPackets.RtcpQueue.DispatchControlPacket: requires that of the whole compound; `BuiltSize` says when it holds.
- RtcpPackets.RtcpQueue.CheckCompoundRTCPHeader: requires that the length, rounded up to whole words, lies in the receive buffer; otherwise the code reads a length field behind it.
- OutgoingQueues.OutgoingQueue.GetSchedulingTimeout: rates below 1000, which a dynamic payload format accepts, are excluded; line 327 divides by their thousandth, which is 0.
- OutgoingQueues.StampTimeExact: the same rates are excluded.
- SequenceTracking.RunFollowsPackets: for fewer than 2^32 packets, since the count of packets then returns to 0 and the exception for the first packet applies again.
- Md5.MD5Digest.GetDigest: for messages of 2^61 octets and more the length field is described but not compared with the standard beyond `LengthRight`.
- StationChange.RunsAreSafe: the pipe between decoder and encoder inside the transcoder is not modelled, so samples decoded from the old station may still be encoded after a change.
- ReplayProtection.WindowIsHistory: runs with a first-time packet up to 64 behind the highest, a repetition exactly 64 behind, or an advance of 64 or more are excluded, because their outcome is undefined in C (`LateArrivalRecordedByChance`, `DistanceOf64Undecided`, `FarAdvanceClearsByChance`).
- Mutable state that other threads share: locks are not modelled, each method is one step.
- AES, HMAC-SHA1, F8 mode, Twofish, key derivation and the master key identifier: functions of libraries, or not needed for these properties.
- The precomputed initial values of unkeyed Skein, tree levels behind the configuration block and partial octets: no caller in the SRTP path.
- The 32-bit branch of the MD5 rotation: the model is the 64-bit one.
- The `|` of values without common bits is written as `+`, and words are integers below 2^64 with the wrap written out.
- The replay mask is 64 booleans; a pointer to a record is a reference, and deleted records are simply unreachable.
- Packet octets in the outgoing queue: it holds header fields and payload; their octets are those of `RtpPackets.NewDataPacket`.
- Jitter, reception times, fraction lost, RTCP intervals and wall clocks: floating point or input; report contents and times are parameters.
- removeSource, BYE and SDES processing on reception, collision handling and destination lists: pointer handling without a clean invariant, or easy.
- The walk of a report or of items on reception: `ReadReport`, `ReadSender` and `ReadItems` read as RFC 3550 lays them out.
- sendImmediate, setPartial and the choice of the next SDES item: like what is modelled, or a parameter.
- Sockets, select, forking, ffmpeg, HTML and menus: input and output. Decoding takes some prefix of its pipe and writes some samples.
- Liveness of the handshake: it does not hold (`LostForever`).
