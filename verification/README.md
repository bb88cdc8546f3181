# Verified models of a router firmware

A Dafny model of the parts of a home-router firmware whose behaviour spans several functions, and proofs of
what they guarantee. Every component is modelled from its C source, as the source has it: objects that are
updated in place are classes, loops are loops, and each method is proved against a pure specification about
which the theorems are stated.

| files | component |
|---|---|
| `PptpWire`, `PptpChannel`, `PptpRun`, `PptpDelivery`, `PptpBound` | PPTP data channel: frames, one end, two ends over a lossy network, what is delivered, why runs are bounded |
| `Md5Fold`, `Md5Transform`, `Md5Stream`, `Md5Steps`, `Md5Answers` | MD5 (RFC 1321): the reference, the unrolled transform, the streaming context, files, known answers |
| `Crc32Table`, `Crc32`, `Crc32Burst` | the table-driven CRC-32, its refinement of polynomial division, burst detection |
| `Rc4`, `Rc4Relation` | key schedule and stream cipher, and both as tables in plain arithmetic |
| `LinuxList` | the intrusive circular list, refining sequences |
| `FilterSpec`, `FilterRun`, `Filter` | per-MAC deny and rate rules mirrored into the kernel |
| `AliSpec`, `AliHosts`, `ProbeRing` | the host list mirrored into the cloud; the ring of probed MACs |
| `TransferWire`, `TransferRequest`, `TransferOut`, `TransferIn`, `TransferRuns`, `Digest` | stop-and-wait file transfer in both directions |
| `CgiTable` | the table of pending CGI requests |
| `QueryString`, `Connection` | percent-decoding and query-string parsing |
| `Netmask` | LAN address checks |
| `FileCopy`, `CopyJob` | copying a tree with a progress log |
| `Label` | UTF-16 volume labels to UTF-8 |
| `Bytes` | octets, fixed-width integers, C strings |

What the environment does - the network, replies of the kernel and of servers, short reads, failing writes,
full disks, the clock, other processes writing the same log - is a parameter of the steps or an arbitrary
choice in a method, so every theorem holds for all of it.

`dafny verify dfyconfig.toml` checks everything.

## What turned out different from what one would expect

- Streaming MD5: the block loop's guard is computed in 32 bits and wraps for a single chunk close to 4 GiB
  (`Md5Stream.LoopStopsIff`). The file digest takes the size as an `int`: a file with bit 31 of its size set
  is refused, and of a file of 4 GiB or more that is not refused only a prefix is hashed
  (`Md5Stream.WholeFileDigestedIff`). The same holds for the digest that accepts an uploaded file.
- The function called `generate_crc32c` is the CRC-32 of RFC 1952, not CRC-32C.
- `rc4` restarts its key stream on every call, and its `short` counter never reaches a length above 32767
  (`Rc4.CounterStopsIff`). Key bytes past the 256th are not used.
- A PPTP receiver that stands at sequence number 2^32 - 1 takes every old packet for a new one
  (`PptpChannel.ReplayAcceptedIff`), and a run of 2^32 - 1 frames can bring it there and deliver a frame twice
  (`PptpBound.BoundIsLargest`), so the bound on runs is tight. Frames come back only if their protocol
  field allows it (`PptpWire.PayloadRoundTrip` gives the exact condition); the 16-bit length is not part of
  it, because a receiver never trims a packet.
- Deleting a filter application tests the application number where the reply of the registration is meant
  (`FilterSpec.DelIdDiverges`). The result of deleting a deny rule is not looked at, so a rule the kernel keeps
  is forgotten (`FilterSpec.AddIdDiverges`, `FilterSpec.MacDownDiverges`). A negative stored speed makes dropping
  a rate do nothing (`FilterSpec.RateDelEndsIff`, `FilterRun.NegativeSpeedStays`). Rules for more than 2048
  applications are clipped.
- The Ali refresh compares its counter with the length of the dump, so a dump that names a MAC twice leaves
  stale hosts (`AliSpec.RefreshListsDumpIff`).
- File transfer: a failed read at the start of a block is taken for the end of the file
  (`TransferOut.OverSentIff`); a full block makes a frame 26 bytes above the router's own receive limit
  (`TransferWire.FullBlockRefused`); the length check of an order lets a frame pass that is two bytes short,
  so orders are modelled with arbitrary bytes behind the frame; any order that announces the end, right or
  wrong, removes the partial file; the result of the rename is ignored.
- Up to 31 CGI requests are pending, one more than `CC_CGI_MAX` (`CgiTable.AddedIff`).
- Query values are cut at 1023 decoded bytes and at an encoded zero (`QueryString.StoredWholeIff`), and a
  plus sign is not a space.
- The DHCP range may contain the LAN address, as only its ends are compared with it
  (`Netmask.AddressInRange`).
- Volume labels: the halves of a surrogate pair are encoded one by one, so a label with a character outside the
  first plane is not UTF-8 (`Label.IsUtf8Iff`, `Label.PairIsNotJoined`).
- A progress log is settled only by a line of the copy that is in it, so the log is required to keep that
  line; concurrent copies are allowed to change every other one.

## Model

| member | source | states |
|---|---|---|
| PptpRun.DeliveryInOrder | package/accel-pptp/src/pptp.c:373-432 | In every run of two ends over a network that loses, duplicates and reorders packets but forges none, with fewer than 2^32 - 1 frames each way, the frames delivered in sequence are a subsequence of those sent, in order, each at most once; whatever else is delivered is an LCP echo that was sent |
| PptpRun.AckChain | package/accel-pptp/src/pptp.c:251-277 | In the same runs, both ways: acknowledged as the sender sees it <= acknowledged by the receiver <= received <= sent = number of frames sent, whatever stale acknowledgements arrive |
| PptpDelivery.LosslessDeliversAll | package/accel-pptp/src/pptp.c:373-432 | In a run that delivers every packet to one end once and in order, with fewer than 2^32 - 256 frames, exactly the frames delivered are handed up, in order and unchanged, whatever happens in the other direction |
| PptpDelivery.TurnedRun | package/accel-pptp/src/pptp.c:234-433 | The ends of a run can be exchanged, so what is said of one direction holds of the other |
| PptpDelivery.DeliveredIff | package/accel-pptp/src/pptp.c:373-428 | In numbers alone: a packet is delivered in sequence if and only if its number is above the last one and not among the last 256 while that one is among the first 256; the last number moves exactly then |
| PptpDelivery.OldDeliveredIff | package/accel-pptp/src/pptp.c:373-428 | Any other packet of the call is handed up if and only if it is an LCP echo sent with its address and control field, and dropped otherwise |
| PptpDelivery.RejectedIff | package/accel-pptp/src/pptp.c:446-474 | In bytes alone: which packets are refused by the header check and the call number |
| PptpDelivery.ForeignCallIgnored | package/accel-pptp/src/pptp.c:446-474 | A packet of another call changes nothing |
| PptpDelivery.CutPacketDropped | package/accel-pptp/src/pptp.c:357-371 | A packet that lost bytes at its end is dropped and its number not noted |
| PptpDelivery.BareAck | package/accel-pptp/src/pptp.c:341-355 | An acknowledgement without data is read from the place of the sequence number, recorded if it is higher or wrapped, and the packet dropped |
| PptpDelivery.AckCarriedIff | package/accel-pptp/src/pptp.c:251-277 | A packet carries the next number and an acknowledgement exactly when something was received since the last one sent |
| PptpDelivery.Layout | package/accel-pptp/src/pptp.c:99-109 | Every byte of the header as section 4.1 of RFC 2637 has it |
| PptpDelivery.PayloadIs | package/accel-pptp/src/pptp.c:234-250 | Which payloads are compressed and how, by sections 6.5 and 6.6 of RFC 1661; LCP codes 1 to 7 never are |
| PptpRun.RunKeepsInv | package/accel-pptp/src/pptp.c:234-433 | The link invariant (logs, counters, acknowledgements and every packet in flight agree) holds after every run within the bound |
| PptpRun.StepKeepsInv | package/accel-pptp/src/pptp.c:234-433 | One step of either end - sending, receiving any packet in flight any number of times, or losing it - keeps the invariant |
| PptpRun.DeliverKeepsInv | package/accel-pptp/src/pptp.c:339-433 | Receiving any packet in flight keeps the invariant |
| PptpRun.SendKeepsInv | package/accel-pptp/src/pptp.c:234-281 | Sending a frame keeps the invariant |
| PptpRun.ReceivedHasOutcome | package/accel-pptp/src/pptp.c:339-433 | What a receiver can do with a well-formed packet: deliver it in sequence, deliver an echo, or drop it, with just these changes of its counters |
| PptpChannel.Channel.Xmit | package/accel-pptp/src/pptp.c:234-281 | The transmit path, header pushed in place: new counters and the bytes of the packet are those of the specification |
| PptpChannel.Channel.Rcv | package/accel-pptp/src/pptp.c:339-433 | The receive path, acknowledgement, length, sequence and unframing steps: new counters and verdict are those of the specification |
| PptpChannel.FrameRoundTrip | package/accel-pptp/src/pptp.c:234-428 | Every packet sent, for every flag setting and with or without an acknowledgement, is delivered as the frame that was sent if and only if the frame is restorable (a condition on protocol field and flags) |
| PptpChannel.ReplayAcceptedIff | package/accel-pptp/src/pptp.c:373-397 | An old sequence number is taken for a new one if and only if the receiver stands at 2^32 - 1 |
| PptpBound.BoundIsLargest | package/accel-pptp/src/pptp.c:373-397 | There is a run with 2^32 - 1 frames one way, one more than the bound allows, in which a frame sent once is delivered in sequence twice and out of order |
| PptpChannel.AckRoundTrip | package/accel-pptp/src/pptp.c:251-351 | A received frame is acknowledged by the next transmission back, and the acknowledgement is recorded if it is new or the counter wrapped |
| PptpWire.PayloadRoundTrip | package/accel-pptp/src/pptp.c:234-428 | Protocol and address-control compression undone on receipt, if and only if the frame is restorable |
| PptpWire.WellFormedIsRestorable | package/accel-pptp/src/pptp.c:412-428 | Frames whose protocol has an even first and odd second byte and is not 0x00FF are restorable under every flag setting, whatever lies behind the packet in memory |
| PptpWire.HeaderRoundTrip | package/accel-pptp/src/pptp.c:446-474 | Every header field is read as written, the header passes the check and the packet is never taken for a truncated one |
| PptpWire.OldPacketsAreEchoes | package/accel-pptp/src/pptp.c:373-397 | A packet let through although it is old carries an LCP echo |
| Md5Stream.Context.Update | package/cloud/plug/igd_md5.c:115-154 | After an update the context stands for the message so far and the new chunk: state is the fold of the whole blocks, the buffer the rest, the two words the bit count modulo 2^64 |
| Md5Stream.Context.Fill | package/cloud/plug/igd_md5.c:137-140 | The first block of an update, from buffer and input, is folded |
| Md5Stream.Context.Blocks | package/cloud/plug/igd_md5.c:122-148 | Everything of an update but the counter and the last copy: the fold of all whole blocks |
| Md5Stream.Context.Pad | package/cloud/plug/igd_md5.c:163-176 | Padding and length give the padded message of section 3 of RFC 1321, and the state is its fold |
| Md5Stream.Context.Final | package/cloud/plug/igd_md5.c:159-184 | The digest of the message fed, and the context wiped |
| Md5Stream.Context.Wipe | package/cloud/plug/igd_md5.c:181-183 | All words and the buffer zero |
| Md5Stream.Digest | package/cloud/plug/igd_md5.c:99-184 | Any division of a message into chunks gives the same digest, that of the whole message |
| Md5Answers.EmptyAnswer | package/cloud/plug/igd_md5.c:99-310 | The digest of the empty message is that of appendix A.5 of RFC 1321 |
| Md5Answers.EightyDigitsAnswer | package/cloud/plug/igd_md5.c:99-310 | So is that of eighty digits, which takes two blocks |
| Md5Answers.FSelects | package/cloud/plug/igd_md5.c:64 | Bit by bit, if X then Y else Z |
| Md5Answers.GSelects | package/cloud/plug/igd_md5.c:65 | Bit by bit, if Z then X else Y |
| Md5Answers.HIsParity | package/cloud/plug/igd_md5.c:66 | Bit by bit, the parity of the three |
| Md5Answers.IInverts | package/cloud/plug/igd_md5.c:67 | Bit by bit, Y inverted where X is one or Z zero |
| Md5Stream.GetMd5Numbers | package/cloud/plug/igd_md5.c:341-349 | The digest of one buffer |
| Md5Stream.CountAdds | package/cloud/plug/igd_md5.c:125-131 | The two-word counter, its carry found by comparison, counts bits modulo 2^64 |
| Md5Stream.LoopStopsIff | package/cloud/plug/igd_md5.c:142-143 | The block loop stops at the last whole block if and only if the chunk fits: for chunks near 4 GiB the 32-bit guard wraps and the loop reads on |
| Md5Stream.PaddedIsWhole | package/cloud/plug/igd_md5.c:166-176 | What is fed in the end is whole blocks |
| Md5Fold.PadLengthIsRfc | package/cloud/plug/igd_md5.c:169-173 | The pad length is the only one from 1 to 64 that leaves 56 modulo 64 |
| Md5Fold.WordsRoundTrip | package/cloud/plug/igd_md5.c:282-310 | Encode and Decode undo each other |
| Md5Transform.Transform | package/cloud/plug/igd_md5.c:188-277 | The unrolled transform is the 64 steps of section 3.4 of RFC 1321, on every state and block |
| Md5Transform.FourFF | package/cloud/plug/igd_md5.c:196-212 | Four lines of round 1 are four steps |
| Md5Transform.FourGG | package/cloud/plug/igd_md5.c:214-231 | Four lines of round 2 are four steps |
| Md5Transform.FourHH | package/cloud/plug/igd_md5.c:233-249 | Four lines of round 3 are four steps |
| Md5Transform.FourII | package/cloud/plug/igd_md5.c:251-267 | Four lines of round 4 are four steps |
| Md5Transform.Decode | package/cloud/plug/igd_md5.c:300-310 | Words from bytes, lowest byte first |
| Md5Transform.Encode | package/cloud/plug/igd_md5.c:282-295 | Bytes from words, lowest byte first |
| Md5Stream.SafeRead | package/cloud/plug/libcom.c:89-110 | Reads until the buffer is full or the file ends, however short single reads are, and fails exactly when a read that is needed fails |
| Md5Stream.Md5Sum | package/cloud/plug/libcom.c:112-146 | The digest of the hashed prefix of a file; refused if and only if the file cannot be opened, its size as a 32-bit integer is negative, or a buffer cannot be read |
| Md5Stream.WholeFileDigestedIff | package/cloud/plug/libcom.c:126-141 | All of the file is hashed if and only if its size is below 2^31 |
| Md5Stream.PrefixHashed | package/cloud/plug/libcom.c:126-141 | Of a larger file that is not refused, the least number of whole buffers that holds the low 32 bits of its size is hashed |
| Crc32.CrcIsBitwise | package/ioos/src/crc32.c:3-82 | The table form is the bit-at-a-time reflected division by 0xEDB88320 of section 8 of RFC 1952, on every buffer |
| Crc32.CheckValue | package/ioos/src/crc32.c:73-82 | The CRC of "123456789" is CBF43926 |
| Crc32.EmptyCrc | package/ioos/src/crc32.c:73-82 | The CRC of nothing is 0 |
| Crc32.GenerateCrc | package/ioos/src/crc32.c:73-82 | The loop computes that CRC |
| Crc32.TableDivides | package/ioos/src/crc32.c:5-70 | Each of the 256 constants is eight division steps on its index |
| Crc32.UpdateDivides | package/ioos/src/crc32.c:3 | One table step is eight division steps on the register with the byte added |
| Crc32.Shift8Linear | package/ioos/src/crc32.c:3 | Division steps are linear |
| Crc32.UpdateAllConcat | package/ioos/src/crc32.c:73-82 | A concatenation continues from the register after the first part |
| Crc32Burst.BurstDetected | package/ioos/src/crc32.c:73-81 | Buffers of equal length that differ only inside four consecutive bytes have different CRCs, for every length |
| Crc32Burst.FiveBytesUndetected | package/ioos/src/crc32.c:73-81 | Five bytes are not covered: everywhere a change of five bytes keeps the CRC |
| Crc32Burst.RegisterRemembered | package/ioos/src/crc32.c:73-81 | Different registers stay different over the same bytes |
| Crc32Burst.WindowRemembered | package/ioos/src/crc32.c:73-81 | Different windows of up to four bytes leave different registers |
| Rc4.Key.Prepare | package/diskm/src/fileserv_send.c:318-340 | The key schedule, leaving a permutation of 0 to 255 |
| Rc4.Key.Rc4 | package/diskm/src/fileserv_send.c:342-366 | Encrypts the first bytes of a buffer in place, touches no other byte, and leaves the key as it was |
| Rc4.SchedulePermutes | package/diskm/src/fileserv_send.c:318-340 | Every prefix of the schedule leaves a permutation, for every non-empty key |
| Rc4Relation.ScheduleIs | package/diskm/src/fileserv_send.c:328-339 | Any table of 257 states and indices that follows the rounds - add cell and key byte to the index, exchange two cells, in plain arithmetic - holds the scheduled states, so a key determines its permutation |
| Rc4Relation.ScheduleExists | package/diskm/src/fileserv_send.c:328-339 | There is such a table for every key |
| Rc4Relation.StreamIs | package/diskm/src/fileserv_send.c:357-363 | The same for the generator: any table of its steps holds its states, and its outputs are the key stream |
| Rc4Relation.CryptIs | package/diskm/src/fileserv_send.c:357-363 | Encryption adds these output bytes to the text without carry |
| Rc4.KeyIndexCycles | package/diskm/src/fileserv_send.c:335-339 | Key bytes are used in a cycle of the key length |
| Rc4.AfterPermutes | package/diskm/src/fileserv_send.c:357-363 | Every step of the generator leaves a permutation |
| Rc4.EveryByteOnce | package/diskm/src/fileserv_send.c:318-340 | In a permutation every byte value stands exactly once |
| Rc4.CryptTwice | package/diskm/src/fileserv_send.c:342-366 | Encrypting twice restores every text |
| Rc4.CryptRestarts | package/diskm/src/fileserv_send.c:350-356 | Two texts encrypted with one key differ as the texts do: the key stream restarts with every call |
| Rc4.CounterStopsIff | package/diskm/src/fileserv_send.c:349-357 | The loop over a `short` counter ends after some number of increments with 16-bit wrap if and only if the length is at most 32767, and then after as many as there are bytes |
| LinuxList.AddBetween | package/cloud/plug/linux_list.h:42-50 | A ring stays a ring with the node between the two |
| LinuxList.Add | package/cloud/plug/linux_list.h:60-63 | Insertion at the front |
| LinuxList.AddTail | package/cloud/plug/linux_list.h:73-76 | Insertion at the back |
| LinuxList.DelBetween | package/cloud/plug/linux_list.h:85-89 | The ring without the node between the two |
| LinuxList.Del | package/cloud/plug/linux_list.h:97-102 | Removal; the removed node has no neighbours |
| LinuxList.DelInit | package/cloud/plug/linux_list.h:109-113 | Removal; the removed node is a ring of its own |
| LinuxList.Move | package/cloud/plug/linux_list.h:120-124 | Removal and insertion at the front of the same list |
| LinuxList.MoveTail | package/cloud/plug/linux_list.h:131-136 | Removal and insertion at the back of the same list |
| LinuxList.MoveAcross | package/cloud/plug/linux_list.h:120-124 | From one ring to the front of another |
| LinuxList.IsEmpty | package/cloud/plug/linux_list.h:142-145 | True if and only if there is only the head |
| LinuxList.SpliceNodes | package/cloud/plug/linux_list.h:165-177 | All nodes of one ring, in order, at the front of another |
| LinuxList.SpliceInit | package/cloud/plug/linux_list.h:197-204 | The same for an empty list too, and the first ring is empty afterwards |
| LinuxList.ForEach | package/cloud/plug/linux_list.h:223-225 | Visits every node but the head once, in order |
| LinuxList.ForEachSafe | package/cloud/plug/linux_list.h:339-343 | With a body that may delete the current node: every original node is visited once, in order, and the ring left has just those not deleted |
| LinuxList.Visit | package/cloud/plug/linux_list.h:339-343 | One pass of that loop; the next node is the next one of the original list |
| LinuxList.OneFurther | package/cloud/plug/linux_list.h:339-343 | Where the current node lies in the partly thinned list |
| FilterRun.KernelMatchesHistory | package/ioos/src/filter.c:87-475 | After any sequence of add, delete, up, down and rate calls whose registrations and deletions of rules succeed and that set no negative speed, the kernel holds exactly the rules the history of calls asks for: one deny rule for each online MAC with applications (for all traffic if and only if application 0 is among them, otherwise for just these, up to the limit), one rate rule at the last speed, nothing for others |
| FilterRun.NegativeSpeedStays | package/ioos/src/filter.c:511-522 | With a negative speed this fails: after setting one and dropping it the rate rule is still in the kernel |
| FilterRun.RunMirrors | package/ioos/src/filter.c:87-475 | List and kernel mirror the history after every run |
| FilterRun.ApplyKeepsMirror | package/ioos/src/filter.c:305-347 | One call keeps them so |
| FilterRun.EntryStepExact | package/ioos/src/filter.c:133-304 | A call keeps the rules of its MAC exact and touches no rule of another |
| FilterRun.EntryStepWantsIff | package/ioos/src/filter.c:133-522 | When nothing fails, a call turns an entry into what it asks for, except exactly in dropping a negative rate |
| FilterSpec.RateDelEndsIff | package/ioos/src/filter.c:395-522 | Deleting a rate clears its flag if and only if it was clear, or the stored speed is not negative and the kernel deletes the rule it has |
| FilterRun.ClipComplete | package/ioos/src/filter.c:377-394 | A rule has the first applications of the list, and all of them if and only if there are at most 2048 |
| FilterRun.ApplyHealthy | package/ioos/src/filter.c:133-347 | The list is well formed after every call, successful or not |
| FilterSpec.AddIdExactIff | package/ioos/src/filter.c:133-193 | Adding an application keeps the rules exact, whether or not it can be registered, if and only if an old rule that is replaced is deleted |
| FilterSpec.DelIdExactIff | package/ioos/src/filter.c:194-240 | Deleting one keeps them exact unless the old rule is not deleted, or a new one is needed and its registration fails, or the application number is -1, which the program tests in place of the reply; and in exactly these cases it does not (`FilterSpec.DelIdDiverges`) |
| FilterSpec.MacUpExactIff | package/ioos/src/filter.c:241-271 | Going up keeps them exact if and only if the registrations needed succeed |
| FilterSpec.MacDownExactIff | package/ioos/src/filter.c:272-304 | Going offline leaves no rule of the MAC if and only if the kernel deletes those there were |
| FilterSpec.RateAddExact | package/ioos/src/filter.c:409-510 | Setting a rate keeps the rules exact, whatever the kernel answers |
| FilterSpec.RateDelExact | package/ioos/src/filter.c:395-522 | Dropping a rate keeps the rules exact, whatever the kernel answers |
| FilterSpec.WithoutAppKeeps | package/ioos/src/filter.c:219-225 | The rebuilt array has the other applications, each once, in order |
| FilterSpec.AddIdResult | package/ioos/src/filter.c:133-193 | Adding fails exactly for a new application of an online MAC whose registration is refused, and then changes nothing |
| FilterSpec.DelIdResult | package/ioos/src/filter.c:194-240 | Deleting fails exactly for a listed application -1 that is not the only one |
| FilterSpec.MacUpResult | package/ioos/src/filter.c:241-271 | Going online fails exactly when the deny rule is refused, and then no rate rule is registered |
| FilterSpec.RateAddResult | package/ioos/src/filter.c:491-510 | When setting a rate succeeds and fails, and that it stands after success |
| FilterSpec.RateDelResult | package/ioos/src/filter.c:511-522 | When ending a rate fails, and that nothing changes then |
| FilterSpec.AddThenDelete | package/ioos/src/filter.c:150-225 | A new application comes in front, behind application 0; deleting it again restores the list |
| Filter.FilterEntry.RegisterDeny | package/ioos/src/filter.c:87-113 | Registers the rule for all traffic or for the applications |
| Filter.FilterEntry.ClearRule | package/ioos/src/filter.c:114-131 | Unregisters the rule that is held and forgets it, whether or not the kernel deletes it |
| Filter.FilterEntry.HasApp | package/ioos/src/filter.c:133-150 | Finds an application |
| Filter.FilterEntry.AddApp | package/ioos/src/filter.c:133-193 | Entry, kernel and result of adding an application |
| Filter.FilterEntry.DelApp | package/ioos/src/filter.c:194-240 | Entry, kernel and result of deleting one |
| Filter.FilterEntry.GoUp | package/ioos/src/filter.c:241-271 | Entry, kernel and result of going online |
| Filter.FilterEntry.GoDown | package/ioos/src/filter.c:272-304 | Entry and kernel after going offline |
| Filter.FilterEntry.PutRate | package/ioos/src/filter.c:409-437 | Entry, kernel and result of replacing the rate rule |
| Filter.FilterEntry.DropRate | package/ioos/src/filter.c:395-408 | Entry, kernel and result of unregistering it; if the kernel refuses, everything stays |
| Filter.FilterEntry.SetRate | package/ioos/src/filter.c:491-510 | Entry, kernel and result of setting a rate |
| Filter.FilterEntry.EndRate | package/ioos/src/filter.c:511-522 | Entry, kernel and result of ending a rate |
| Filter.FilterList.Search | package/ioos/src/filter.c:43-56 | The first entry of a MAC |
| Filter.FilterList.Obtain | package/ioos/src/filter.c:305-333 | The entry of a MAC, made in front if there is none |
| Filter.FilterList.AddMac | package/ioos/src/filter.c:305-333 | List and kernel after adding an application for a MAC |
| Filter.FilterList.DelMac | package/ioos/src/filter.c:334-347 | List and kernel after deleting one |
| Filter.FilterList.MacIsUp | package/ioos/src/filter.c:241-271 | List and kernel after a MAC came online |
| Filter.FilterList.MacIsDown | package/ioos/src/filter.c:272-304 | List and kernel after a MAC went offline |
| Filter.FilterList.RateMacAdd | package/ioos/src/filter.c:491-510 | List and kernel after setting a rate |
| Filter.FilterList.RateMacDel | package/ioos/src/filter.c:511-522 | List and kernel after ending a rate |
| AliSpec.AttachedAreOnline | package/ali/src/ali_cloud.c:557-657 | After any refreshes the devices attached and not detached are exactly those recorded online, and the counter is the list length |
| AliSpec.RefreshKeepsInv | package/ali/src/ali_cloud.c:557-657 | One refresh keeps that, whatever the dump |
| AliSpec.RefreshListsDumpIff | package/ali/src/ali_cloud.c:557-657 | After a refresh the list has exactly the dumped MACs if and only if the dump names none twice or there was nothing stale: the counter compared is that of the dump |
| AliSpec.RefreshRecordsDump | package/ali/src/ali_cloud.c:557-657 | After a dump of distinct MACs the records are just those of the dump, the last one first, with its names, systems and online bits, and the attached devices are its online, not denied hosts |
| AliSpec.EmptyDump | package/ali/src/ali_cloud.c:565-569 | A dump without hosts changes nothing |
| AliSpec.AddHostKeepsInv | package/ali/src/ali_cloud.c:364-395 | Finding or adding a host brings it to the front and keeps the invariant |
| AliSpec.CompareKeepsInv | package/ali/src/ali_cloud.c:583-655 | Comparing a record with the dump keeps the invariant |
| AliSpec.DelHostKeepsInv | package/ali/src/ali_cloud.c:397-423 | Removing the stale tail keeps the invariant |
| AliHosts.HostList.FindHost | package/ali/src/ali_cloud.c:364-373 | The first record of a MAC |
| AliHosts.HostList.AddRecord | package/ali/src/ali_cloud.c:375-395 | The record of a MAC, moved or put in front |
| AliHosts.HostList.CompareRecord | package/ali/src/ali_cloud.c:583-655 | Attach or detach on a change of the online bit, and the record as dumped |
| AliHosts.HostList.DelHosts | package/ali/src/ali_cloud.c:397-423 | Everything behind the first records is detached and removed |
| AliHosts.HostList.RefreshHosts | package/ali/src/ali_cloud.c:557-657 | The whole refresh |
| ProbeRing.Ring.Save | package/ali/src/ali_cloud.c:1123-1175 | A new MAC is appended to the recent ones, dropping the oldest of 64; a known or connected one changes nothing |
| ProbeRing.OverwriteOldest | package/ali/src/ali_cloud.c:1149-1159 | Writing one cell further drops the oldest |
| ProbeRing.ReportedIff | package/ali/src/ali_cloud.c:1129-1159 | A report changes the ring exactly for a MAC that is neither in it nor connected; it is then the newest, and the oldest of 64 is gone |
| ProbeRing.RecentDistinct | package/ali/src/ali_cloud.c:1123-1175 | In every run each MAC is held at most once and at most 64 are |
| TransferOut.RunKeepsInv | package/cloud/src/cloud_client.c:2328-2370 | In every router-to-server session, whatever is answered and whenever a read or send fails: the payloads sent are the file from the offset to the count, in order; at most one order is unacknowledged, none when the next is sent; only the last order can be the final one |
| TransferOut.OverMeansComplete | package/cloud/src/cloud_client.c:2328-2370 | If no read fails, the final order is sent only after the whole suffix, and a session that ends well has carried exactly the suffix, all of it acknowledged |
| TransferOut.OverSentIff | package/cloud/src/cloud_client.c:2240-2286 | The final order is sent if and only if the file is at its end or a read failed with nothing read |
| TransferOut.AckIsOwedIff | package/cloud/src/cloud_client.c:2288-2326 | An acknowledgement as the other end frames it is the one waited for if and only if it reports success for the same file |
| TransferOut.ShortAckRefused | package/cloud/src/cloud_client.c:2288-2326 | An acknowledgement that is too short is refused |
| TransferOut.TransferAckWaits | package/cloud/src/cloud_client.c:2360-2361 | A frame 5306 is passed over, and the wait goes on |
| TransferOut.NoSecondSend | package/cloud/src/cloud_client.c:2334-2361 | Nothing is sent again after one |
| TransferOut.ResponsiveServerCompletes | package/cloud/src/cloud_client.c:2328-2370 | With a server that answers, the session ends well after exactly one round for each 61440 bytes and one more |
| TransferOut.SendsBounded | package/cloud/src/cloud_client.c:2328-2370 | No session sends more orders than one for each byte and one more, whatever the server does |
| TransferOut.SendKeepsInv | package/cloud/src/cloud_client.c:2240-2286 | One send keeps the invariant |
| TransferOut.HearKeepsInv | package/cloud/src/cloud_client.c:2338-2366 | One answer keeps the invariant |
| TransferOut.StepKeepsInv | package/cloud/src/cloud_client.c:2328-2370 | One pass of the loop keeps it |
| TransferOut.Sender.FileSend | package/cloud/src/cloud_client.c:2240-2286 | New counts, read position, orders sent and the order to wait for |
| TransferOut.Sender.Listen | package/cloud/src/cloud_client.c:2338-2366 | What an answer does: go on, wait on, end well or give up |
| TransferOut.Sender.FileR2S | package/cloud/src/cloud_client.c:2328-2370 | The loop, for any behaviour of server, socket and file |
| TransferIn.Receiver.Offer | package/cloud/src/cloud_client.c:2004-2037 | Refuses a bad path, an existing file or one that cannot be opened; otherwise reports the length of what is there; ends the session if the reply cannot be sent |
| TransferIn.Receiver.SyncFile | package/cloud/src/cloud_client.c:2039-2076 | Checks an order, appends its block and acknowledges; a failed write leaves its part but does not count |
| TransferIn.Receiver.Write | package/libshare/src/nlk_ipc.c:988-1009 | Appends all the bytes or as many as fit, with a length that may be negative |
| TransferIn.Receiver.SyncOver | package/cloud/src/cloud_client.c:2078-2128 | Renames the file if size and digest match, and removes the partial file in any case |
| TransferIn.Receiver.FileS2R | package/cloud/src/cloud_client.c:2130-2161 | The loop, for any behaviour of server, socket and disk |
| TransferRuns.RunAppends | package/cloud/src/cloud_client.c:2039-2161 | In every server-to-router session: while it runs, the partial file is its old content and the accepted payloads in order and the count is its length; the final name appears only for such a content of the announced size and digest |
| TransferRuns.StepAppends | package/cloud/src/cloud_client.c:2039-2128 | One order; the final name appears if and only if the end is accepted and the rename works |
| TransferRuns.OfferTells | package/cloud/src/cloud_client.c:2004-2037 | An accepted request is answered with success and the length of the partial file, from where the transfer goes on; a refused one with its reason |
| TransferRuns.StartAckFields | package/cloud/src/cloud_client.c:2026-2030 | The fields of that answer at their places, the length in eight bytes |
| TransferRuns.RefusedIff | package/cloud/src/cloud_client.c:1791-1798 | A path is refused if and only if it does not start with /data/ or leads through /../ |
| TransferRuns.DataArrives | package/cloud/src/cloud_client.c:2039-2076 | A data order appends its payload and is acknowledged with success and its length if it is for the file of the session and the disk has room; otherwise failure is told and the session ends |
| TransferRuns.EndArrives | package/cloud/src/cloud_client.c:2078-2128 | An end order gives the final name if and only if file, size and digest are right; the partial file is gone in any case, and the outcome is told |
| TransferRuns.ResumedTransferIsTheFile | package/cloud/src/cloud_client.c:2004-2161 | Over any number of sessions cut off anywhere, even in the middle of a write, with a server that sends one file from the offset it reads in the reply: the partial file is a prefix of it, and under the final name stands nothing or exactly the file |
| TransferRuns.RunKeepsPrefix | package/cloud/src/cloud_client.c:2039-2161 | The same within one session |
| TransferRuns.RouterToRouter | package/cloud/src/cloud_client.c:2004-2370 | A file sent by one router and passed on to another in any blocks arrives whole if both sides end well; below 2 GiB the announced digest is its own |
| TransferRuns.BlockReadBack | package/cloud/src/cloud_client.c:1914-2076 | A data order as the router writes it is read back as the same block |
| TransferRuns.RepliesAcceptedIff | package/cloud/src/cloud_client.c:2288-2326 | The two acknowledgements are accepted if and only if they report success for the same file |
| TransferWire.FrameReadBackIff | package/cloud/src/cloud_client.c:258-299 | A frame as the router writes it is read back if and only if it is within the receive limit |
| TransferWire.OrderMeans | package/cloud/src/cloud_client.c:1914-1938 | An order is taken only from a frame for this user whose length fields agree and do not reach more than two bytes past its end |
| TransferWire.DataOrderFields | package/cloud/src/cloud_client.c:2260-2263 | The fields of a data order at their places |
| TransferWire.OverOrderFields | package/cloud/src/cloud_client.c:2273-2275 | The fields of an end order at their places |
| TransferWire.AckFields | package/cloud/src/cloud_client.c:2064-2068 | The fields of the acknowledgements at their places |
| TransferWire.HeaderFields | package/cloud/src/cloud_client.c:1951-1955 | The fields of the frame header at their places |
| Bytes.NetworkOrder | package/mu/src/include/igd_cloud.h:101-108 | The highest byte comes first |
| TransferWire.FullBlockRefused | package/cloud/src/cloud_client.c:2239-2269 | A data order fits the receive limit if and only if its block is at most 61414 bytes: a full block of 61440 does not |
| TransferRequest.ToRouterRoundTrip | package/cloud/src/cloud_client.c:1965-2002 | A request to send a file is read as it was asked, name and digest cut to their room, and refused if one is empty or a file is in progress |
| TransferRequest.FromRouterRoundTrip | package/cloud/src/cloud_client.c:2163-2189 | The same for a request to fetch a file |
| Digest.MatchesIff | package/cloud/src/cloud_client.c:833-867 | For a file below 2 GiB the comparison succeeds if and only if the announced text spells its digest |
| Digest.ComparesSpellings | package/cloud/src/cloud_client.c:2101-2107 | Printing the digest and comparing without regard to case accepts exactly the spellings of the digest |
| Digest.SpellsOneDigest | package/cloud/src/cloud_client.c:2101-2107 | No text spells two digests |
| Digest.MatchesFile | package/cloud/src/cloud_client.c:2097-2107 | Digest, print and compare |
| CgiTable.RunKeepsInv | package/cloud/src/cloud_client.c:403-615 | In every run each well-formed request is exactly one of: answered once and to its own user, pending, discarded by a relink, or lost because the line did not take its reply; none is lost while the line takes everything; the counter is the list length, at most CC_CGI_MAX + 1 |
| CgiTable.OneReplyEach | package/cloud/src/cloud_client.c:403-615 | No request gets two replies and none that is answered is still pending |
| CgiTable.PollEffect | package/cloud/src/cloud_client.c:590-615 | One look answers every late request with error 104 and every readable one with its message or error 102, and keeps the others in order |
| CgiTable.AddedIff | package/cloud/src/cloud_client.c:422-439 | A request becomes the first entry, with its socket, time, text and user, if and only if fewer than 31 are pending and it could be sent on; otherwise it gets error 103 or 101 |
| CgiTable.NoRequestIgnored | package/cloud/src/cloud_client.c:921-936 | A message whose length fields do not agree is passed over |
| CgiTable.RelinkDiscards | package/cloud/src/cloud_client.c:412-420 | A relink discards just what is pending |
| CgiTable.SecondTry | package/cloud/src/cloud_client.c:603-609 | A message that cannot be passed on is replaced by error 102 |
| CgiTable.TransferKeepsInv | package/cloud/src/cloud_client.c:921-957 | A request, well-formed or not, keeps the invariant |
| CgiTable.PollKeepsInv | package/cloud/src/cloud_client.c:590-615 | A look at the table keeps it |
| CgiTable.FreeKeepsInv | package/cloud/src/cloud_client.c:412-420 | A relink keeps it |
| CgiTable.Client.FreeCgi | package/cloud/src/cloud_client.c:412-420 | All entries gone and the counter down by as many |
| CgiTable.Client.AddCgi | package/cloud/src/cloud_client.c:422-439 | The new entry is the first |
| CgiTable.Client.Transfer | package/cloud/src/cloud_client.c:921-957 | New table, counter and replies for a request |
| CgiTable.Client.CheckOne | package/cloud/src/cloud_client.c:597-613 | New table, counter and replies for one entry |
| CgiTable.Client.CheckCgi | package/cloud/src/cloud_client.c:590-615 | The walk that deletes as it goes |
| QueryString.RoundTrip | package/ioos/src/connection.c:20-437 | Fields with percent-encoded values, joined and parsed into any list: each key has the value of its last field, cut at 1023 bytes, and other keys what they had |
| QueryString.StoredWholeIff | package/ioos/src/connection.c:430-432 | An encoded value is stored as it was if and only if it has at most 1023 bytes and no zero |
| QueryString.QueryParses | package/ioos/src/connection.c:412-437 | A joined query is parsed into its fields, in order |
| QueryString.BarePieceSkipped | package/ioos/src/connection.c:424-428 | A piece without an equals sign binds nothing |
| QueryString.PlainTextKept | package/ioos/src/common.c:186-202 | Text without a complete escape is kept, percent and plus signs too |
| QueryString.EscapeDigits | package/ioos/src/common.c:185 | The digits of an escape in either case |
| QueryString.GetNoneIff | package/ioos/src/connection.c:42-52 | A key has no value if and only if it is not bound |
| QueryString.DecodeEncoded | package/ioos/src/common.c:179-205 | Decoding undoes every percent-encoding, as far as there is room |
| QueryString.PercentEncodeEncodes | package/ioos/src/common.c:179-205 | The encoding of section 2.1 of RFC 3986 is one of these |
| QueryString.GetLast | package/ioos/src/connection.c:42-52 | The binding added last is found |
| QueryString.GetOther | package/ioos/src/connection.c:42-52 | Bindings of other keys are not in the way |
| Connection.StrDecodeUrl | package/ioos/src/common.c:179-205 | Decodes into a buffer of any size and ends it with a zero |
| Connection.StrChr | package/ioos/src/connection.c:419-424 | The first occurrence in a C string |
| Connection.Con.VListAdd | package/ioos/src/connection.c:20-40 | A binding in front of the list |
| Connection.Con.VListGet | package/ioos/src/connection.c:42-52 | The first binding of a key |
| Connection.Con.ParsePiece | package/ioos/src/connection.c:424-432 | One piece cut at its first equals sign and added |
| Connection.Con.Parse | package/ioos/src/connection.c:412-437 | The list after the parse and the buffer as it is cut: every ampersand and the first equals sign of each piece made a zero, nothing else touched |
| Connection.CutIs | package/ioos/src/connection.c:418-429 | After the parse the buffer has a zero exactly where there was one, an ampersand or the first equals sign of a piece |
| Netmask.AcceptedIff | package/ioos/src/common.c:18-40 | The settings are accepted if and only if the mask is ones and then zeros, the range is not empty, its ends are not the LAN address, and the LAN address and every address of the range are hosts of one subnet, neither its network nor its broadcast address |
| Netmask.LanCheck | package/ioos/src/cgi.c:3855-3862 | The checks in their order, on words in network order |
| Netmask.MaskAcceptedIff | package/ioos/src/common.c:18-24 | checkmask gives 0 if and only if the mask is ones followed by zeros |
| Netmask.CheckMask | package/ioos/src/common.c:18-24 | The loop shifts out the leading ones |
| Netmask.CheckMeans | package/ioos/src/common.c:26-40 | ip_check2 accepts two addresses if and only if they differ and both are hosts of one subnet |
| Netmask.RangeInSubnet | package/ioos/src/common.c:26-40 | Between two hosts of a subnet there are only hosts of it |
| Netmask.OrderDoesNotMatter | package/ioos/src/cgi.c:3855-3862 | ip_check2 gives the same answer in network and in host order |
| Netmask.AddressInRange | package/ioos/src/cgi.c:3855-3862 | The LAN address can lie inside an accepted range |
| Netmask.Examples | package/ioos/src/cgi.c:3855-3862 | The operations on words of known value |
| CopyJob.CopyTree | package/diskm/src/filecp.c:528-575 | On an unchanging tree: the bytes accounted for are the bytes written and never more than there are, and on success the destination is the whole tree without hidden entries, every file with all its bytes, and the last report of this copy says the total of the size walk; it succeeds unless something fails or a copy to the same place is running |
| CopyJob.CpFile.LoopDir | package/diskm/src/filecp.c:360-406 | The walk with either callback: sum of the sizes, or copy with the account kept; path buffer as before on every way out |
| CopyJob.CpFile.LoopEntries | package/diskm/src/filecp.c:386-405 | The part of it for the entries of a directory |
| CopyJob.CpFile.FileCpOne | package/diskm/src/filecp.c:327-359 | One file or directory made under the destination path |
| CopyJob.CpFile.CopyFile | package/diskm/src/filecp.c:273-310 | Block by block; on success exactly the size that stat reported, otherwise nothing is left; the account is kept whatever fails |
| CopyJob.CpFile.LogSyncCheck | package/diskm/src/filecp.c:234-255 | Below 1 MiB nothing happens, within the second of the last report the bytes are put off, and otherwise the log says all bytes written; the account is kept, and it fails only if something did |
| CopyJob.CpFile.LogSync | package/diskm/src/filecp.c:189-212 | The log says all bytes written so far |
| CopyJob.CpFile.Relog | package/diskm/src/filecp.c:189-233 | Every line of this copy replaced by one that says all bytes written, whatever lines others have |
| CopyJob.CpFile.LogCallback | package/diskm/src/filecp.c:92-145 | Lines of others unchanged; for the own line the put-off bytes are settled |
| CopyJob.CpFile.LogInit | package/diskm/src/filecp.c:168-188 | Refused if and only if a copy to the same place is running or the log cannot be opened; otherwise exactly one line of this copy, the others as they were |
| CopyJob.CpFile.SetTimeSize | package/diskm/src/filecp.c:553-562 | The total of the tree |
| CopyJob.CpFile.Copy | package/diskm/src/filecp.c:563-575 | The walk and the final report |
| FileCopy.MirrorHas | package/diskm/src/filecp.c:327-406 | Everything reached without a hidden name is copied to the path of the same names |
| FileCopy.MirrorOnly | package/diskm/src/filecp.c:327-406 | Nothing else is copied |
| FileCopy.SteadyMirror | package/diskm/src/filecp.c:273-406 | Of an unchanging tree the copy is the whole tree: every entry reached, with all its bytes, and nothing else |
| FileCopy.SteadyTotal | package/diskm/src/filecp.c:317-325 | On an unchanging tree the sizes add up to the bytes there are |
| FileCopy.RelogOnlyOwn | package/diskm/src/filecp.c:92-145 | Replacing its lines a copy touches no other line |
| Label.LabelDecodes | package/diskm/src/libblkid-tiny.c:223-285 | The label encodes the UTF-16 units, as many as fit and never part of one, without trailing white space, and all of them if and only if their encoding is shorter than the label; it is well-formed UTF-8 (section 4 of RFC 3629) if and only if no half of a surrogate pair is left among them |
| Label.IsUtf8Iff | package/diskm/src/libblkid-tiny.c:240-260 | The encoding of units is well-formed UTF-8 if and only if none is half of a surrogate pair |
| Label.PairIsNotJoined | package/diskm/src/libblkid-tiny.c:223-285 | For U+1F600 the label is ED A0 BD ED B8 80, which is not UTF-8 |
| Label.BigIsTurned | package/diskm/src/libblkid-tiny.c:231-234 | Big-endian units are little-endian ones with their bytes exchanged |
| Label.TrimsWholeUnits | package/diskm/src/libblkid-tiny.c:266-277 | Trimming bytes never cuts into a character |
| Label.FittingIsMost | package/diskm/src/libblkid-tiny.c:223-264 | As many units as possible are encoded |
| Label.DecodeAll | package/diskm/src/libblkid-tiny.c:240-260 | The encoding, in which surrogate halves are coded one by one, is undone by a decoder of its shortest forms |
| Label.EncodeToUtf8 | package/diskm/src/libblkid-tiny.c:223-264 | The loop writes that text and a zero |
| Label.RtrimWhitespace | package/diskm/src/libblkid-tiny.c:266-277 | The text without trailing white space, in place |
| Label.SetUtf8Label | package/diskm/src/libblkid-tiny.c:279-285 | Both together |

## Left out

- PPTP runs of 2^32 - 1 frames or more, for which the promises fail: see `PptpBound.BoundIsLargest`.
- PptpChannel.Channel.Rcv: packets shorter than their header, for which the program subtracts past zero, are not modelled.
- Failing transmissions, unconnected and dying sockets (they only lose packets), socket creation and binding, and all kernel locking and buffer space.
- `get_flashid` and the other users of digests; reads and writes that are interrupted and tried again, and `cc_read`, whose loop is one outcome.
- TransferIn.Receiver.SyncOver: opening, looking at and reading the file to digest it is one outcome.
- Allocation failures everywhere, and the `itime_*` rules, vendor fields and ACL queries beyond "denied or not".
- Md5Stream.Context.Update: a chunk must fit as `Md5Stream.ChunkFits` says; `Md5Stream.LoopStopsIff` shows what happens to the others.
- Rc4.Key.Rc4: lengths above 32767, for which the loop does not stop, are excluded; `Rc4.CounterStopsIff` is exact about them.
- FilterRun.KernelMatchesHistory: registrations and deletions succeed; failures are covered entry by entry by `FilterSpec.AddIdExactIff`, `FilterSpec.DelIdExactIff`, `FilterSpec.MacUpExactIff`, `FilterSpec.MacDownExactIff`, `FilterSpec.RateAddExact` and `FilterSpec.RateDelExact`.
- Poisoned pointers of a removed list node are null; iteration macros are methods over nodes, not over the records around them, and client lists (filter, hosts, CGI table) are sequences of objects.
- Transfer session set-up (`cp_connect`, `cp_keep`), the answer that announces a fetched file with its digest (`cp_file_r2s_ack`), the XOR of key and message number in frames, and other processes touching the files of a session.
- cc_recv_cgi: the scan of the HTTP reply for its end and length is one outcome, a complete message or none; the texts of error replies are not cut to 511 characters, and sockets are numbers.
- CgiTable.Entry carries the position of its request, which the program does not have, to tell requests of one user apart.
- FileCopy.Line: log lines are structured, not formatted text; lines longer than 2047 characters, the reported speed, file times, the space check and the 2048-byte limit of the path buffer are not modelled.
- FileCopy.Node: a tree is what the walks find, each name once or more; links are what `stat` says of their targets, so cycles are excluded.
- Query strings: signed characters and locale-dependent character classes; keys and values are bytes in the C locale.
- The write path of file serving (`write_begin`, `write_mid`, `write_end`, `parse`), JSON handlers, attribute tables, vendor keys, firmware updates, disk probing and zlib.
