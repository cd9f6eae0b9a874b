# A model of EtherCrab's core, with proofs

EtherCrab is an EtherCAT MainDevice. This project models five of its components in Dafny and proves what they do
for all inputs, all layouts, all networks or all interleavings. `dafny verify dfyconfig.toml` checks everything.
Nothing was executed: the statements are about the model, which follows the source branch by branch.

**Distributed clocks** (`Ports`, `Topology`, `Dc`, `DcExact`, `DcMislinks`, `DcTotals`). A network is a tree with link
delays; an ideal frame walks it and every port latches the time on its device's own clock. The list of devices in
discovery order is the preorder of the tree. The pass over that list succeeds and recovers the network, parents and
ports, exactly when no junction hides in a branch that is not the last one of its device. In that case the delays it
records are the true arrival times exactly when every cross is balanced, so always when there are no crosses. The last
child of a cross gets a heuristic delay; the condition under which it is right is `DcExact.Balanced`. In other
networks a device can be linked to the port by which frames enter its supposed parent; `DcMislinks` says exactly when.
For any list at all, with any mix of DC support, `DcTotals` reads every recorded delay off the devices as they are in
the end.

**The wire codec** (`Bits`, `LittleEndian`, `WireEnum`, `WireLayout`, `WireCodec`, `WireRoundTrip`, `WireWriter`). The
derive macros turn declarations into layouts and match arms and emit a writer and a reader. The layout pass and the
enum parser are methods; the emitted code is interpreted over any layout and any value, nested structs included. The
writer works in place and is proved against a function. Round trips are stated as equivalences: packing and unpacking
is the identity exactly for the values that survive the widths of their fields; for an enum the condition is one on
its declaration.

**The SII EEPROM** (`Eeprom`, `EepromCursor`, `Categories`, `SiiStrings`, `SiiPdos`, `StationAlias`, `CrcRemainder`).
A cursor reads a word-addressed chip that decides by itself whether a chunk has four or eight bytes. It refines a
cursor on a plain byte array. Above it lie the walk over the linked categories, the string table, the PDO parser and
the update of the station alias with its CRC; each is connected with an encoder of the format, up to a whole image.
The checksum is shown to be the remainder of the message modulo x^8 + x^2 + x + 1.

**Frame slots** (`FrameSlots`, `FrameRouting`, `PduStorage`, `FrameInterleaving`, `FrameProgress`, `FrameProgram`).
Slots are found with a wrapping counter and claimed with a compare-and-swap; responses are routed by the index of a
frame's first PDU. The routing model takes any series of accesses to slots and counters from fresh storage and says
exactly which of them makes a response go astray. The storage is a class whose methods are such accesses. A third
model takes the atomic steps of any number of callers, one sender and one receiver apart, lets them interleave in any
order and says exactly which of them loses a slot; and, unless that happens, that a caller who waits for a response
can always still get it. The product of the two follows each caller in program order, with the accesses to PDU indices
between its steps: in any interleaving only two kinds of access make a response go astray.

**Process data image** (`FmmuMapping`, `ImageSizes`, `Pdi`). Devices of a group get consecutive parts of a logical
image and write FMMUs that map it to their memory, one shared FMMU per direction with CoE, one per sync manager
without. Every byte of the image belongs to exactly one device and direction, and the segments hold every PDO as often
as it is sampled. Whatever the registers held before: after the whole group has been configured, the FMMUs of a device
map exactly the bits of its segments, each by one FMMU, if and only if each of its FMMUs was free, or empty and already
in its place. Blank registers are; those of an earlier configuration are not.

Machine integers are bounded integers (`u8`, `u16`, `u32` in `Common`). Where the source would overflow, which panics
with overflow checks on, the model returns an error (`Overflow`, `Panic`). Awaits are direct calls. Values that come
from the network, such as CoE objects, register contents and the state of a device, are parameters or fields.

## What the code does differently from what it says

- Several comments are not followed by the code, and the model follows the code: `src/pdu_loop/storage.rs:98-99` takes
  up to 256 frames as enough for unique first PDU indices, but a frame can hold many PDUs
  (`FrameRouting.ResponseReachesWrongFrame`); `src/pdu_loop/storage.rs:238` names another source state than the swap at
  `src/pdu_loop/frame_element/mod.rs:199-200`; `src/eeprom/mod.rs:75` calls `end` the last address, it is one past it.
- The `check` value given with the checksum algorithm (`src/eeprom/mod.rs:26`) is not what the algorithm yields for the
  usual check message; the model follows the other parameters (`CrcRemainder.CheckMessageHasChecksum`).
- A string index of one more than the count is not refused (`SiiStrings.IndexAfterLastIsNotRefused`).
- An enum whose first variant has no explicit discriminant does not survive the wire
  (`WireEnum.ImplicitFirstVariantIsLost`).
- The lookup of an FMMU in the FMMU_EX category returns the sync manager's own number
  (`FmmuMapping.EepromFmmuIsSm`).
- A response timeout or a drop of a future while its frame is being sent loses the slot
  (`FrameInterleaving.FreeingUnderSenderLeaks`, `FrameInterleaving.LossIsReachable`).
- A slot given up by timeout or drop keeps its PDU index and can hide a live slot
  (`FrameRouting.LeftoverIndexBlocksResponse`).
- Slots of fresh storage are zeroed memory, not frames marked as empty, and answer to PDU index 0. The very first frame
  can lose its response to one (`FrameRouting.FreshSlotTakesFirstResponse`).
- When a received frame is dropped, its slot is free before its PDU index is cleared; who claims the slot in between can
  lose the index of the new frame (`FrameRouting.LateClearLosesResponse`).
- With a junction in a side branch the pass over the network can succeed and link a device to the port by which the frame
  enters another one (`DcMislinks.JunctionInSideBranchLinksUpstream`).
- The search for a downstream port steps over open ports by a position that counts closed ports too. A device with two
  open ports that is not entered at port 0 can be given its own entry port although the other one is free
  (`DcMislinks.ReversedDeviceLinksUpstreamIff`).
- With CoE one FMMU serves all sync managers of a direction, which is right exactly if their memory is contiguous
  (`FmmuMapping.CoeReachesIff`, `FmmuMapping.SecondInputIsMisplacedIff`).
- An enabled FMMU is taken for one of the same configuration and extended. A group that goes back to PRE-OP and is
  configured again extends all its FMMUs into what belongs to others (`Pdi.SecondConfigurationMirrorsIff`,
  `FmmuMapping.TwoInputsTwice`): the reset at the start of the main device blanks them, the way back does not.

## Model

| member | source | states |
|---|---|---|
| Ports.EntryPortIsFirst | src/subdevice/ports.rs:136-143 | the entry port is the first open port with the smallest receive time |
| Ports.NthNumbersOpenPorts | src/subdevice/ports.rs:128-134 | open ports are numbered in processing order 0, 3, 1, 2 without a gap |
| Ports.NoPortIsLeftIff | src/subdevice/ports.rs:150-179 | the search for a free port fails only if all open ports are taken, the entry port included |
| Ports.PortAssignedToIff | src/subdevice/ports.rs:182-185 | a device's port is the first open one that it is linked to |
| Ports.NextPortIff | src/subdevice/ports.rs:150-179 | wherever a device is entered: an open port is given to the next downstream device if and only if it is free and the open ports before it, from the one whose number follows the entry port's position, are taken |
| Ports.EntryPortIsGivenAwayIff | src/subdevice/ports.rs:150-179 | wherever a device is entered: it gives its entry port to a downstream device if and only if that port is free and the open ports before it in that order are taken |
| Ports.EntryPortZeroIsGivenAwayIff | src/subdevice/ports.rs:150-179 | a device entered at port 0 does so if and only if all its other open ports are taken |
| Ports.EntryPortGoesFirstIff | src/subdevice/ports.rs:150-179 | a device with two or more open ports and nobody linked to it gives its entry port away first if and only if two ports are open and it is entered at port 1 with port 2 closed or at port 3 with port 0 closed |
| Dc.NearestJunction | src/dc.rs:165-167 | the backward search stops at the nearest fork or cross, and finds none only if there is none |
| Dc.Position | src/dc.rs:235-237 | the device with an index, and it is the first one |
| Dc.LinkInPlace | src/dc.rs:332-341 | taking the parent's next free port changes the device array as specified, or fails as the unwraps do |
| Dc.AssignParentRelationships | src/dc.rs:313-351 | the loop over the array computes the specified pass, or its first failure |
| Topology.DiscoveredIsPlaced | src/dc.rs:116-145 | the preorder list of a tree has every device after its parent, with its rank, link and arrival time |
| Topology.JunctionInSideBranch | src/dc.rs:161-167 | if a side branch is not a chain, some device is preceded by a line end and a junction nearer than its parent |
| DcExact.ParentsRecoveredIff | src/dc.rs:146-190 | the list scan finds the parent of every device if and only if no junction lies in a branch other than a device's last |
| DcExact.EntryIsPortZero | src/subdevice/ports.rs:136-143 | in an ideal walk that enters at port 0 the earliest open port is port 0 |
| DcExact.TotalIsLoop | src/subdevice/ports.rs:201-214 | the total propagation time is the time the frame spends below the device |
| DcExact.TimeToIsEcho | src/subdevice/ports.rs:242-258 | the propagation time to a port is when the frame comes back on it |
| DcExact.CrossGapsSumToEcho | src/subdevice/ports.rs:216-240 | in a cross the summed gaps before a port are when the frame comes back on it |
| DcExact.ChildTakesNextPort | src/subdevice/ports.rs:150-179 | the k-th child found takes the k-th downstream port, so a free port always exists |
| DcExact.ChildIffNotLast | src/subdevice/mod.rs:434-446 | being a child means being attached to a port other than the last one |
| DcExact.DelayIs | src/dc.rs:261-300 | what a device adds to the running total, in terms of the walk |
| DcExact.ArrivalWithinLoop | src/dc.rs:224-309 | the frame is back at the first device after everything else, so totals stay in range |
| DcExact.NextTotal | src/dc.rs:275-300 | if the running total is right for one device, it is right for the next unless that is the third child of an unbalanced cross |
| DcExact.PassIsGood | src/dc.rs:313-351 | after each iteration ports, parents and delays are those of the tree walked so far |
| DcExact.TreeIsRecovered | src/dc.rs:329-341 | after the pass every parent is right and every downstream port holds the child that hangs off it |
| DcExact.DelaysExactIff | src/dc.rs:227-351 | with chains as side branches the pass succeeds and recovers the tree, and all delays are the true arrival times if and only if every cross is balanced |
| DcExact.ForkNetworksAreExact | src/dc.rs:227-351 | in a network without crosses all delays are exact |
| DcExact.FirstCrossIsOverestimated | src/dc.rs:286-293 | the third child of a first cross gets the whole loop time instead of its arrival time |
| DcMislinks.PassSetsParents | src/dc.rs:313-351 | the pass leaves every device with the parent that the search finds on the list as it was at the start |
| DcMislinks.ParentsAfterPassIff | src/dc.rs:313-351 | whatever times and links the ports hold, a pass that succeeds leaves all devices with their parents if and only if side branches are chains |
| DcMislinks.NetworkRecoveredIff | src/dc.rs:313-351 | after an ideal walk the pass succeeds and recovers all parents and ports if and only if side branches are chains |
| DcMislinks.LinksUpstreamIff | src/dc.rs:332-341 | a device is linked to the port by which its supposed parent is entered, whichever that is, if and only if that port is free and the open ports before it are taken |
| DcMislinks.SearchFailsIff | src/dc.rs:146-190 | the search for a parent fails exactly behind a line end with no junction before it, and never ends at a line end |
| DcMislinks.JunctionInSideBranchLinksUpstream | src/dc.rs:313-351 | for forks entered at port 0, one in the side branch of the other, whatever the delays and the DC support: the pass succeeds and links the last device to the inner fork's upstream port |
| DcMislinks.ReversedDeviceLinksUpstreamIff | src/dc.rs:313-351 | two devices in a line: the pass succeeds, and links the second one to the port by which the first is entered if and only if that is port 1 with port 2 closed or port 3 with port 0 closed |
| DcTotals.TotalsAreRecorded | src/dc.rs:343-350 | on any list, with any mix of DC support: the running total is the last delay recorded, devices without DC support or parent have none, recorded delays never fall |
| DcTotals.EachDelayIsRecorded | src/dc.rs:224-310 | on any list each recorded delay is the last one before it plus what the device adds by the port it is linked to, as the devices are in the end |
| DcTotals.UntimedParentAddsNothing | src/dc.rs:343-350 | a device behind one that has latched no times gets the last total recorded before it |
| Bits.BitOfMerge | ethercrab-wire-derive/src/generate_struct.rs:43-52 | OR-ing a shifted and masked byte in sets the field's bits and no others |
| Bits.BitOfExtract | ethercrab-wire-derive/src/generate_struct.rs:119-143 | masking and shifting takes out exactly the field's bits |
| LittleEndian.BytesRoundTrip | ethercrab-wire/src/impls.rs:8-58 | a number in range survives its little-endian bytes, signed or not |
| LittleEndian.IntegerRoundTrip | ethercrab-wire/src/impls.rs:8-58 | all bytes are the encoding of a number in range |
| LittleEndian.FirstByteIsLowest | ethercrab-wire/src/impls.rs:8-58 | the first byte counts once, what follows 256 times |
| LittleEndian.NegativeIsComplement | ethercrab-wire/src/impls.rs:8-58 | negative numbers are written as two's complement |
| WireEnum.PushVariant | ethercrab-wire-derive/src/parse_enum.rs:137-153 | one record for a variant and one for each alternative, and the running discriminant that results |
| WireEnum.ParseEnum | ethercrab-wire-derive/src/parse_enum.rs:29-163 | the parser accepts exactly what its rules allow and collects arms, catch-all and default as specified |
| WireEnum.AcceptedIff | ethercrab-wire-derive/src/parse_enum.rs:97-134 | accepted are enums with at most one catch-all, which has no alternatives, and at most one default |
| WireEnum.ArmsAreDeclared | ethercrab-wire-derive/src/parse_enum.rs:139-153 | every arm carries the discriminant or an alternative of the variant it names |
| WireEnum.CaughtIsFirstLister | ethercrab-wire-derive/src/generate_enum.rs:114-147 | the arms catch a value for the first variant that lists it, and catch none that no variant lists |
| WireEnum.DecodesIff | ethercrab-wire-derive/src/generate_enum.rs:114-199 | a number decodes to a variant if and only if that variant is the first to list it, or nobody lists it and it is the catch-all with this value or, without a catch-all, the default |
| WireEnum.ListedValuesDecodeToOwner | ethercrab-wire-derive/src/generate_enum.rs:114-147 | the discriminant and every alternative decode to the variant that lists them, if and only if no earlier one lists them too |
| WireEnum.WrittenValue | ethercrab-wire-derive/src/generate_enum.rs:21-49 | the parser's discriminant is written with a catch-all, the compiler's without one |
| WireEnum.EncodedIs | ethercrab-wire-derive/src/generate_enum.rs:21-49 | exactly the declared variants have an encoding, with a catch-all any value too, and it is their own |
| WireEnum.NamedRoundTripIff | ethercrab-wire-derive/src/generate_enum.rs:21-199 | a named variant survives encoding and decoding if and only if it is the first to list the value written for it, or nobody lists that and it is the default of an enum without a catch-all |
| WireEnum.ListedOnceRoundTripIff | ethercrab-wire-derive/src/generate_enum.rs:21-199 | when no value is listed twice: with a catch-all always, without one if and only if rustc's discriminant is the parser's, an alternative of the variant, or unlisted while the variant is the default |
| WireEnum.ExplicitVariantsRoundTrip | ethercrab-wire-derive/src/parse_enum.rs:48-91 | with explicit discriminants and no value listed twice every named variant survives |
| WireEnum.DiscriminantsAgreeIff | ethercrab-wire-derive/src/parse_enum.rs:91-91 | parser and compiler agree on all discriminants if and only if every implicit one follows a variant whose last value is its discriminant |
| WireEnum.ImplicitFirstVariantIsLost | ethercrab-wire-derive/src/parse_enum.rs:48-91 | a concrete enum with implicit discriminants that decodes to the wrong variant |
| WireEnum.CatchAllNormalises | ethercrab-wire-derive/src/generate_enum.rs:27-34 | a catch-all value comes back as itself if and only if no variant lists it |
| WireEnum.DecodeFailsIff | ethercrab-wire-derive/src/generate_enum.rs:114-199 | decoding fails exactly on unlisted values of an enum with neither catch-all nor default |
| WireLayout.LayField | ethercrab-wire-derive/src/parse_struct.rs:99-196 | one field is placed or refused, and the running width moves on |
| WireLayout.ParseStruct | ethercrab-wire-derive/src/parse_struct.rs:47-215 | acceptance, layout and each refusal of the pass, with the field at fault |
| WireLayout.AllFitIff | ethercrab-wire-derive/src/parse_struct.rs:161-189 | all fields are accepted if and only if each that is not skipped has a width and lies in one byte or starts and ends between bytes |
| WireLayout.FirstFieldStarts | ethercrab-wire-derive/src/parse_struct.rs:113-118 | the first field starts behind its own padding |
| WireLayout.FieldFollows | ethercrab-wire-derive/src/parse_struct.rs:99-196 | each further field starts where the one before it ends, plus that one's padding behind and its own before; skipped ones take nothing |
| WireLayout.LastFieldEnds | ethercrab-wire-derive/src/parse_struct.rs:189-207 | the width is where the last field ends plus its padding |
| WireLayout.FieldIsWide | ethercrab-wire-derive/src/parse_struct.rs:82-124 | a field is as wide as its attribute or its type says, and has the bytes that its bits touch |
| WireLayout.FmmuIsLaidOut | src/fmmu.rs:8-40 | the FMMU register is accepted with 16 bytes, its nine fields at the bits of ETG1000.4 Table 56 |
| WireLayout.CoeHeaderIsLaidOut | src/mailbox/coe/headers.rs:28-36 | the service of a CoE header lies at bits 12 to 16 |
| WireLayout.NarrowFieldsNeverCross | ethercrab-wire-derive/src/parse_struct.rs:175-187 | the check for narrow fields that cross a byte can never fail, the alignment check comes first |
| WireLayout.AcceptedIsLaidOut | ethercrab-wire-derive/src/parse_struct.rs:79-207 | accepted fields are ordered, disjoint, inside the width, each in one byte or byte-aligned at both ends |
| WireLayout.WriterAndReaderAgreeIff | ethercrab-wire-derive/src/generate_struct.rs:43-119 | the writer's test for one byte and the reader's for eight bits agree except on an empty field at a byte boundary |
| WireCodec.WriteFieldBit | ethercrab-wire-derive/src/generate_struct.rs:33-60 | writing a field sets its own bits to the value's and leaves all others |
| WireCodec.ReadFieldBit | ethercrab-wire-derive/src/generate_struct.rs:119-153 | reading a field gives its bits, filled up with zeros |
| WireCodec.DefaultWidthIs | ethercrab-wire-derive/src/parse_struct.rs:82-98 | integers need no width, it is that of their bytes; other types do |
| WireCodec.FlagsAre | ethercrab-wire/src/impls.rs:153-192 | a flag is all ones on its own and one in a struct, and any byte but zero is true |
| WireCodec.TooShortIff | ethercrab-wire-derive/src/generate_struct.rs:160-185 | unpacking reports a short buffer if and only if it is shorter than the type, at any depth of nesting |
| WireCodec.UnownedBitsAreClear | ethercrab-wire-derive/src/generate_struct.rs:73-77 | bits of no field are zero after packing |
| WireCodec.OwnedBitsAreKept | ethercrab-wire-derive/src/generate_struct.rs:33-77 | a field's bits are those of its value whatever else is written |
| WireCodec.FieldsAreIndependent | ethercrab-wire-derive/src/generate_struct.rs:11-155 | a field reads back the low bits of its own encoded value, whatever the other fields hold |
| WireRoundTrip.CutReduces | ethercrab-wire-derive/src/generate_struct.rs:34-52 | what a field of fewer than eight bits keeps of an encoded number, signed or not, is its remainder; a wider one keeps all |
| WireRoundTrip.LeafRoundTripIff | ethercrab-wire-derive/src/generate_struct.rs:11-155 | a number, byte, bool or enum in a field reads back as itself if and only if its number fits, or what is left of its variant's number still means the variant on the declaration |
| WireRoundTrip.EnumFieldSurvivesIff | ethercrab-wire-derive/src/generate_enum.rs:21-199 | in a field its number fits an enum survives if and only if its declaration keeps the variant |
| WireRoundTrip.ExplicitEnumFieldRoundTrips | ethercrab-wire-derive/src/generate_enum.rs:21-199 | a named variant with explicit discriminants, none listed twice, reads back from any field it fits |
| WireRoundTrip.CatchAllFieldRoundTripsIff | ethercrab-wire-derive/src/generate_enum.rs:27-34 | a catch-all value reads back from a field it fits if and only if no variant lists it |
| WireRoundTrip.RoundTripIff | ethercrab-wire-derive/src/generate_struct.rs:11-155 | a value of any type written into a field reads back as itself if and only if its numbers fit and its variants are kept by their declarations, at every depth |
| WireRoundTrip.StructRoundTripIff | ethercrab-wire-derive/src/generate_struct.rs:11-155 | unpacking a packed struct gives it back if and only if every field, at every depth, survives |
| WireRoundTrip.StructFitsItsWidth | ethercrab-wire-derive/src/generate_struct.rs:63-80 | a nested struct never uses bits beyond its width |
| WireRoundTrip.RepackClearsPadding | ethercrab-wire-derive/src/generate_struct.rs:34-52 | packing what was unpacked from any buffer gives the buffer back with exactly the bits outside fields cleared |
| WireRoundTrip.OverwideIsReduced | ethercrab-wire-derive/src/generate_struct.rs:34-41 | an over-wide byte is reduced modulo two to the width |
| WireRoundTrip.AcceptedIsWellFormed | ethercrab-wire-derive/src/parse_struct.rs:79-207 | every accepted layout over fields as wide as their types meets what the codec theorems ask for |
| WireWriter.CopyInto | ethercrab-wire-derive/src/generate_enum.rs:43-48 | copying into the buffer replaces these bytes only |
| WireWriter.PackToSlice | ethercrab-wire-derive/src/generate_struct.rs:67-80 | packing in place leaves the encoding in the buffer and the rest alone |
| WireWriter.PackStruct | ethercrab-wire-derive/src/generate_struct.rs:67-80 | zeroing and merging field by field leaves the struct's encoding |
| WireWriter.MergeByte | ethercrab-wire-derive/src/generate_struct.rs:43-52 | a narrow field is OR-ed into its byte in place |
| WireWriter.StoreBytes | ethercrab-wire-derive/src/generate_struct.rs:54-60 | a wide field is packed over its bytes in place |
| Eeprom.Device.ReadChunk | src/eeprom/mod.rs:33-34 | a chunk is four or eight bytes of memory from a word on |
| Eeprom.Device.WriteWord | src/eeprom/mod.rs:36-37 | two bytes of memory are replaced |
| Eeprom.EepromRange.constructor | src/eeprom/mod.rs:83-90 | a range starts at its first byte and ends one past its last |
| Eeprom.EepromRange.SkipAheadBytes | src/eeprom/mod.rs:92-108 | a skip moves the cursor unless it would reach the end |
| Eeprom.EepromRange.ReadByte | src/eeprom/mod.rs:110-124 | the byte under the cursor, from even and odd positions |
| Eeprom.EepromRange.Read | src/eeprom/mod.rs:136-204 | as many bytes as buffer and range allow, in order, whatever chunks the chip returns |
| Eeprom.EepromRange.ReadExact | src/subdevice/eeprom.rs:114-114 | the buffer is filled if and only if the range holds enough |
| Eeprom.EepromRange.Write | src/eeprom/mod.rs:211-254 | the write loop leaves memory, position and count as specified |
| EepromCursor.PerformAll | src/eeprom/mod.rs:92-204 | any sequence of reads, skips and single bytes delivers what a cursor on a plain byte array delivers |
| EepromCursor.ReadsAreContiguous | src/eeprom/mod.rs:136-204 | how a read is split makes no difference |
| EepromCursor.ReadsAndSkipsStayInside | src/eeprom/mod.rs:92-204 | reads and skips never leave the range |
| EepromCursor.EvenWriteCounts | src/eeprom/mod.rs:211-254 | what is written is what there is room for, an odd byte padded |
| EepromCursor.EvenWriteSplices | src/eeprom/mod.rs:211-254 | from an even position a write replaces exactly these bytes |
| EepromCursor.OddWriteLandsOneEarly | src/eeprom/mod.rs:238-241 | from an odd position a write lands one byte early |
| Categories.VisitHeader | src/subdevice/eeprom.rs:47-101 | what one category header decides |
| Categories.Category | src/subdevice/eeprom.rs:39-103 | the walk's answer, after a bounded number of chunk reads |
| Categories.HeaderDecides | src/subdevice/eeprom.rs:48-95 | on any memory: the search ends at the top of the address space; a wanted category is found, or an error if its bytes have no 16-bit addresses |
| Categories.CodesAre | src/eeprom/types.rs:233-258 | which raw type is which category, both ways |
| Categories.WalkIsBounded | src/subdevice/eeprom.rs:46-102 | for any contents the walk reads at most 32 chunks and a third of the remaining words |
| Categories.EncodedHolds | src/eeprom/types.rs:233-258 | an image made by the encoder is a chain of categories as the walk sees it |
| Categories.WalkFindsFirstMatch | src/subdevice/eeprom.rs:39-103 | the walk finds the first match or nothing, exactly as long as fewer than 32 empty categories come up to the answer |
| Categories.FoundRangeHoldsData | src/subdevice/eeprom.rs:88-95 | the range found holds exactly the data of the first category of that type |
| Categories.SearchDeliversData | src/subdevice/eeprom.rs:39-103 | from an image to the data of the wanted category |
| SiiStrings.CleanBuffer | src/subdevice/eeprom.rs:423-434 | the two passes over the buffer drop NULs and replace what is not ASCII |
| SiiStrings.CleanOfParts | src/subdevice/eeprom.rs:423-434 | each byte on its own: NULs go, what is not below 0x80 becomes a question mark, the rest stays |
| SiiStrings.CleanIsAscii | src/subdevice/eeprom.rs:423-438 | the result is NUL-free ASCII, as the unchecked conversion to UTF-8 needs |
| SiiStrings.CleanKeepsIff | src/subdevice/eeprom.rs:423-434 | a string is unchanged if and only if it is NUL-free ASCII |
| SiiStrings.TakeString | src/subdevice/eeprom.rs:405-447 | the string under the cursor, or why it cannot be returned |
| SiiStrings.SkipStrings | src/subdevice/eeprom.rs:397-403 | skipping length-prefixed strings |
| SiiStrings.FindString | src/subdevice/eeprom.rs:374-451 | the lookup as specified, for any memory, index and capacity |
| SiiStrings.SkipLandsOn | src/subdevice/eeprom.rs:397-403 | skipping k strings of a table lands on string k, or fails where no byte of the range is left |
| SiiStrings.LookupInTable | src/subdevice/eeprom.rs:388-447 | every index into an encoded table: listed strings are found, two past the count is refused, one past reads the byte after the table |
| SiiStrings.IndexAfterLastIsNotRefused | src/subdevice/eeprom.rs:393-395 | with padding after the table the index after the last string gives an empty string |
| SiiStrings.NoStringIff | src/subdevice/eeprom.rs:380-395 | exactly when no string is reported, for any memory |
| SiiStrings.ListedStringIsFound | src/subdevice/eeprom.rs:374-451 | from an image with an encoded table to each of its strings |
| SiiPdos.EntryBits | src/subdevice/eeprom.rs:332-342 | entry lengths add up to at most 255 per entry and lie inside the range |
| SiiPdos.NextItem | src/subdevice/eeprom.rs:488-499 | an item of eight bytes, or the end of the category |
| SiiPdos.SumEntries | src/subdevice/eeprom.rs:332-342 | the sum of the entry lengths fits its 16 bits, a missing entry is a decoding error |
| SiiPdos.ReadAll | src/subdevice/eeprom.rs:329-351 | the loop over PDOs and their entries as specified |
| SiiPdos.Pdos | src/subdevice/eeprom.rs:322-352 | all PDOs of a direction as specified |
| SiiPdos.DirectionsAre | src/eeprom/types.rs:263-277 | inputs are in category 50, outputs in category 51 |
| SiiPdos.ParseAccountsForRange | src/subdevice/eeprom.rs:329-351 | a successful parse of any contents accounts for all bytes but a rest shorter than an item and stores at most 64 PDOs |
| SiiPdos.WholePdoIsParsed | src/eeprom/types.rs:564-593 | an encoded PDO is parsed to its index, entry count, sync manager and summed length |
| SiiPdos.MissingEntryIsNoticed | src/subdevice/eeprom.rs:333-337 | an entry is missing if and only if the range ends before it |
| SiiPdos.PdosRoundTrip | src/subdevice/eeprom.rs:322-352 | encoded PDOs are read back in order if and only if there are at most 64, otherwise a capacity error |
| SiiPdos.TruncatedEntriesAreRefused | src/subdevice/eeprom.rs:333-337 | a category that ends inside a PDO's entries is a decoding error |
| SiiPdos.EncodedPdosAreFound | src/subdevice/eeprom.rs:322-352 | from an image with an encoded category to its PDOs |
| SiiPdos.NoCategoryNoPdos | src/subdevice/eeprom.rs:453-469 | without the category there are no PDOs |
| StationAlias.ShiftByteKeepsApart | src/eeprom/mod.rs:18-29 | a CRC step loses no information |
| StationAlias.OneChangedByteIsDetected | src/eeprom/mod.rs:18-29 | changing one byte of any block changes its CRC |
| StationAlias.ZeroIffCrcFollows | src/eeprom/mod.rs:18-29 | a block with one more byte has CRC zero if and only if that byte is the block's CRC |
| CrcRemainder.ShiftByteIsTimesX8 | src/eeprom/mod.rs:18-29 | shifting a byte multiplies by x^8 modulo x^8 + x^2 + x + 1 |
| CrcRemainder.RemainderIsLeft | src/eeprom/mod.rs:18-29 | for every message there is a quotient such that message and remainder differ by that multiple of x^8 + x^2 + x + 1 |
| CrcRemainder.ChecksumIsRemainder | src/eeprom/mod.rs:18-29 | the checksum is the remainder of the message, its first eight bits inverted and eight zeros behind it |
| CrcRemainder.BlockHasChecksum | src/eeprom/mod.rs:462-499 | the block that the tests expect has the checksum 0x04 |
| StationAlias.ReadStationAlias | src/subdevice/eeprom.rs:107-125 | the alias word |
| StationAlias.WriteAll | src/subdevice/eeprom.rs:149-158 | one word of memory is replaced |
| StationAlias.SetStationAlias | src/subdevice/eeprom.rs:128-161 | memory after an update |
| CrcRemainder.BlockIsUpdated | src/eeprom/mod.rs:462-499 | an update leaves the 16 bytes that the tests expect |
| StationAlias.UpdateReadsBack | src/subdevice/eeprom.rs:107-161 | the new alias reads back, the checksum is valid, all other bytes stay |
| StationAlias.OnlyLastUpdateCounts | src/subdevice/eeprom.rs:128-161 | after any series of updates memory is as after the last one alone |
| StationAlias.ValidIffCrcIsZero | src/subdevice/eeprom.rs:129-141 | a checksum is valid if and only if the CRC including it is zero and a zero byte follows |
| StationAlias.CorruptionInvalidates | src/subdevice/eeprom.rs:129-141 | one changed byte in the guarded words makes a valid checksum invalid |
| FrameSlots.ValidSizeDivides256 | src/pdu_loop/storage.rs:97-117 | the sizes the constructor accepts divide the range of the counter |
| FrameSlots.ValidSizeIff | src/pdu_loop/storage.rs:97-117 | accepted sizes are exactly the powers of two up to 128 |
| FrameSlots.ProbesCoverSlotsOnce | src/pdu_loop/storage.rs:211-212 | any n consecutive probes look at every slot once, across the wrap of the counter too |
| FrameSlots.SearchSucceedsIff | src/pdu_loop/storage.rs:202-236 | run alone, allocation succeeds if and only if a slot is free, and then within one round |
| FrameSlots.AllocationTakesFirstFree | src/pdu_loop/storage.rs:202-236 | run alone, an allocation takes the first free slot from the counter on and leaves the counter behind it, or fails with the counter two rounds on |
| FrameSlots.AllocationTakesFreeSlot | src/pdu_loop/storage.rs:202-236 | an allocation takes one free slot and changes no other |
| FrameSlots.AllocationsExhaustFreeSlots | src/pdu_loop/storage.rs:202-236 | from any state exactly as many allocations in a row succeed as slots are free, with distinct slots |
| FrameSlots.ResetMakesAllSlotsAvailable | src/pdu_loop/storage.rs:188-199 | after a reset exactly n allocations succeed |
| FrameRouting.RoutedToIff | src/pdu_loop/storage.rs:258-278 | a response is routed to a slot if and only if it carries the index and no lower slot does |
| FrameRouting.StoredIff | src/pdu_loop/pdu_rx.rs:97-129 | a response is stored if and only if the lowest slot with its index waits for one and has room; no other slot changes |
| FrameRouting.RefusedIff | src/pdu_loop/pdu_rx.rs:97-129 | each refusal of a response, and what it leaves: nothing changes, but a slot whose response is too long stays busy |
| FrameRouting.ResponseIsStoredOnce | src/pdu_loop/frame_element/mod.rs:199-210 | the same response a second time is refused |
| FrameRouting.RoutableIff | src/pdu_loop/storage.rs:258-278 | every response finds its slot if and only if every waiting frame's slot carries its index and no lower slot, in use, left over or fresh, does |
| FrameRouting.StepRoutesIff | src/pdu_loop/frame_element/mod.rs:227-247 | an access to a slot keeps all responses on their way if and only if it does not clash: it wipes out no frame's index, and gives no frame an index that a lower slot carries or a higher frame waits for |
| FrameRouting.ResponsesFindTheirSlotsIff | src/pdu_loop/storage.rs:95-129 | from construction on, in any order of claims, pushes, state changes, clearings and resets: responses find their slots at every moment if and only if no access clashes |
| FrameRouting.OwnResponseIsStored | src/pdu_loop/pdu_rx.rs:103-129 | where responses find their slots, a waiting frame gets its own |
| FrameRouting.CarefulRunsRouteRight | src/pdu_loop/storage.rs:98-99 | from construction on routing is right while first PDUs are fewer than 256 PDUs apart, index 0 is not used below a fresh slot and frames in use are not cleared |
| FrameRouting.FreshSlotTakesFirstResponse | src/pdu_loop/storage.rs:119-119 | a run from fresh storage on which the first response of all is refused, a free slot below carries its index 0 |
| FrameRouting.TwoFramesShareIndex | src/pdu_loop/frame_element/created_frame.rs:229-280 | the runs from fresh storage on which 255 further PDUs give the next frame the index of the first one again |
| FrameRouting.ResponseReachesWrongFrame | src/pdu_loop/storage.rs:98-99 | on such a run, with two frames in flight, the second one's response is stored in the first one |
| FrameRouting.LeftoverIndexBlocksResponse | src/pdu_loop/frame_element/receiving_frame.rs:97-100 | on such a run, the first frame having been given up, its leftover index keeps the response from the second one |
| FrameRouting.LateClearLosesResponse | src/pdu_loop/frame_element/received_frame.rs:152-165 | a run on which a slot is claimed between its release and the clearing of its index, and the new frame's response finds no slot |
| PduStorage.PduStorage.constructor | src/pdu_loop/storage.rs:95-129 | all slots start free, with zeroed memory |
| PduStorage.PduStorage.Reset | src/pdu_loop/storage.rs:188-199 | counters are zero and all slots free; indices and data stay |
| PduStorage.PduStorage.ClaimCreated | src/pdu_loop/frame_element/created_frame.rs:38-55 | a free slot becomes a blank created frame, any other is left alone |
| PduStorage.PduStorage.AllocFrame | src/pdu_loop/storage.rs:202-236 | the probing loop computes the specified allocation, new counter included |
| PduStorage.PduStorage.PushPdu | src/pdu_loop/frame_element/created_frame.rs:229-280 | an index is used up in any case, the first one that fits is remembered |
| PduStorage.PduStorage.DropReceived | src/pdu_loop/frame_element/received_frame.rs:152-165 | the slot is free and is not found any more |
| PduStorage.PduStorage.FrameIndexByFirstPduIndex | src/pdu_loop/storage.rs:258-278 | the lowest slot with the index |
| PduStorage.PduStorage.ClaimReceiving | src/pdu_loop/storage.rs:238-256 | only a sent frame in range is claimed |
| PduStorage.PduStorage.ReceiveFrame | src/pdu_loop/pdu_rx.rs:97-129 | every outcome of receiving a payload, and the slots after it |
| FrameInterleaving.StepKeepsInv | src/pdu_loop/frame_element/mod.rs:133-210 | every atomic step of callers, sender and receiver keeps ownership, states and probe counts consistent |
| FrameInterleaving.SlotsHaveOneOwner | src/pdu_loop/storage.rs:211-228 | in any interleaving no slot has two owners, and an owned slot is never free |
| FrameInterleaving.AllocationsAreBounded | src/pdu_loop/storage.rs:205-211 | in any interleaving an allocation makes at most two rounds of probes, and gives up only after exactly two |
| FrameInterleaving.DropOfReceivedFrameSucceeds | src/pdu_loop/frame_element/received_frame.rs:152-165 | in any interleaving the unwrap at the drop of a received frame does not panic |
| FrameInterleaving.LeakIsPermanent | src/pdu_loop/frame_element/mod.rs:163-193 | a slot in use without an owner stays so in every continuation |
| FrameInterleaving.FreeingUnderSenderLeaks | src/pdu_loop/frame_element/sendable_frame.rs:70-85 | freeing a slot while it is being sent loses it for good, whether sending succeeds or fails and whatever happens in between, unless somebody claims the slot first |
| FrameInterleaving.LossIsReachable | src/pdu_loop/frame_element/receiving_frame.rs:97-101 | from any initial state a run of seven steps loses the slot |
| FrameInterleaving.StepLosesIff | src/pdu_loop/frame_element/sendable_frame.rs:70-85 | a step leaves a slot in use without an owner if and only if the sender finishes an ownerless slot, or a caller lets go of a slot in a state it does not expect |
| FrameInterleaving.SlotsAreLostIff | src/pdu_loop/frame_element/mod.rs:133-210 | from any initial state, in any interleaving, no slot is ever lost if and only if no such step occurs |
| FrameInterleaving.StepKeepsTidyIff | src/pdu_loop/frame_element/receiving_frame.rs:112-210 | the one step that breaks the order of states and owners is freeing a slot under the sender |
| FrameInterleaving.PromptRunsLoseNothing | src/pdu_loop/frame_element/receiving_frame.rs:112-210 | from any initial state every slot in use has an owner and every poll finds a state it expects at every moment if and only if no slot is freed under the sender, and then no slot is ever lost |
| FrameProgress.FrameGetsThrough | src/pdu_loop/frame_element/sendable_frame.rs:70-85 | built, queued, sent, received and polled in this order, with any steps elsewhere in between, a frame ends with its caller reading the response |
| FrameProgress.LoneFrameGetsThrough | src/pdu_loop/frame_element/receiving_frame.rs:112-210 | from any initial state a caller that goes through all steps reads its response |
| FrameProgress.FailuresLeadBack | src/pdu_loop/frame_element/sendable_frame.rs:76-85 | a frame that could not be sent is queued again; a response that could not be stored leaves its slot busy |
| FrameProgress.RetryQueuesAgain | src/pdu_loop/frame_element/receiving_frame.rs:140-175 | a retry queues the frame again, wherever it has got to |
| FrameProgress.WaitingFrameCanComplete | src/pdu_loop/frame_element/receiving_frame.rs:112-210 | wherever a frame that somebody waits for has got to, there is a run after which the response is read |
| FrameProgress.NobodyWaitsInVain | src/pdu_loop/frame_element/receiving_frame.rs:112-210 | so in every interleaving from the start, as long as no slot is freed under the sender |
| FrameProgram.ActionKeepsOrdered | src/pdu_loop/frame_element/created_frame.rs:38-55 | in program order free slots have no frame, only owners access a slot's index except for a late clearing, and a claimed slot is blank until its frame has a PDU |
| FrameProgram.ActionRoutesIff | src/pdu_loop/frame_element/mod.rs:227-247 | in program order an access makes a response go astray if and only if it clears the index of a slot that a new frame has, or gives a frame's first PDU an index that a lower slot carries or a higher frame waits for |
| FrameProgram.ProgramsRouteRightIff | src/pdu_loop/storage.rs:95-129 | from fresh storage on, with any number of callers in any interleaving, responses find their slots at every moment if and only if no such access occurs |
| FrameProgram.OvertakingGoesAstray | src/pdu_loop/storage.rs:211-228 | such a run of two callers: one is given slot 0 to try, the other one claims slot 1 and pushes the first PDU before it |
| FmmuMapping.EepromFmmuIsSm | src/subdevice/configuration.rs:551-562 | the FMMU number is always the sync manager's number |
| FmmuMapping.OffsetMovesByMapped | src/pdi.rs:17-43 | a pass moves the offset by exactly the bytes it maps |
| FmmuMapping.PassSucceedsIff | src/subdevice/configuration.rs:267-582 | from any registers a pass succeeds if and only if each sync manager's bits fit 16 bits, the segment fits the image, what is mapped fits the lengths of the FMMUs, and there is one if anything is to be mapped |
| FmmuMapping.ChannelsAfterPass | src/subdevice/configuration.rs:129-162 | after a pass each sync manager of the direction has its address and its bytes, and is enabled if the EEPROM says so and it has data |
| FmmuMapping.FirstMappedStartsSegment | src/subdevice/configuration.rs:397-414 | the first sync manager with data is at the start of the segment |
| FmmuMapping.CoeFmmuCoversMapped | src/subdevice/configuration.rs:267-475 | created, the FMMU covers exactly the bytes mapped so far; enabled before, it is extended by them; no other FMMU is touched |
| FmmuMapping.CoeWithoutFmmu | src/subdevice/configuration.rs:398-404 | without an FMMU for the direction a pass succeeds only with nothing to map |
| FmmuMapping.CoeReachesIff | src/subdevice/configuration.rs:441-459 | a sync manager's bytes reach its own memory if and only if that lies at the distance of their data behind the first one's, or behind where an FMMU enabled before takes the start of the segment |
| FmmuMapping.SecondInputIsMisplacedIff | src/subdevice/configuration.rs:425-475 | a device with two one-byte inputs, for which the second one's byte is exchanged with the address behind the first one's, right if and only if its memory is there |
| FmmuMapping.EepromFmmusTile | src/subdevice/configuration.rs:478-582 | each sync manager has its own FMMU at its offset, of its length, at its address, or extends the one that is enabled; others stay |
| FmmuMapping.EepromReachesIff | src/subdevice/configuration.rs:478-582 | without CoE each sync manager's bytes reach its own memory, unless an FMMU that was enabled before takes them elsewhere |
| FmmuMapping.TwoOutputsAreMapped | src/subdevice/configuration.rs:425-475 | a device with two output PDOs on one sync manager: every field of its FMMU and sync manager register |
| FmmuMapping.FmmuAfterPass | src/subdevice/configuration.rs:425-475 | with and without CoE: after a pass an FMMU is extended by its part if it was enabled, set up for its part if it has one, and else as before |
| FmmuMapping.PassServesIff | src/subdevice/configuration.rs:59-128 | from any registers: after a pass each FMMU maps exactly the bits of its part of the returned segment if and only if each was free, or empty and whole bytes from where its part starts, or without a part and mapping nothing |
| FmmuMapping.ServingCovers | src/subdevice/configuration.rs:267-582 | FMMUs that map their parts map exactly the bits of the segment, each by one FMMU |
| FmmuMapping.PassCovers | src/subdevice/configuration.rs:267-582 | after a pass from such registers the FMMUs of the direction map exactly the returned segment, each byte once |
| FmmuMapping.PassKeepsOther | src/subdevice/configuration.rs:59-128 | a pass leaves the mapping of the other direction alone if and only if it extends no FMMU that is set up for it |
| FmmuMapping.SecondPassCoversIff | src/subdevice/configuration.rs:433-445 | a second pass over the FMMUs of a first one maps the byte behind the segment too, so it covers exactly the segment if and only if there are no data |
| FmmuMapping.TwoInputsTwice | src/subdevice/configuration.rs:433-445 | a device for which two passes succeed and the second one maps a byte behind the segment |
| ImageSizes.WantedIff | src/subdevice/configuration.rs:585-602 | which sync managers and FMMUs serve inputs and outputs, stated or told by the control byte |
| ImageSizes.MultiplierIs | src/subdevice/configuration.rs:353-358 | a PDO is sampled as often as the first setting for its index says, otherwise once |
| ImageSizes.CoeBitsOfParts | src/subdevice/configuration.rs:314-385 | bits over CoE add up over lists; a PDO counts its mappings as often as it is sampled |
| ImageSizes.EepromBitsOfParts | src/subdevice/configuration.rs:517-544 | bits in the EEPROM add up over lists; a PDO counts for its own sync manager, as often as it is sampled |
| ImageSizes.MappedHoldsBits | src/pdi.rs:17-43 | the bytes mapped hold all bits with less than a byte of padding for each sync manager |
| ImageSizes.SegmentHoldsAllPdos | src/subdevice/configuration.rs:267-582 | the returned segment holds every PDO of the direction, as often as it is sampled, with less than a byte of padding for each sync manager |
| Pdi.SubDevice.constructor | src/maindevice.rs:93-97 | a device starts with blank registers |
| Pdi.SubDevice.SumCoe | src/subdevice/configuration.rs:314-385 | the bits assigned over CoE, or an overflow exactly when they leave 16 bits |
| Pdi.SubDevice.SumEeprom | src/subdevice/configuration.rs:517-544 | the bits assigned in the EEPROM, or an overflow exactly when they leave 16 bits |
| Pdi.SubDevice.WriteSmConfig | src/subdevice/configuration.rs:129-162 | a sync manager without data stays disabled |
| Pdi.SubDevice.WriteFmmuConfig | src/subdevice/configuration.rs:425-475 | an FMMU is created or extended and the offset moves on |
| Pdi.SubDevice.ConfigureSm | src/subdevice/configuration.rs:292-417 | one sync manager is configured as specified, with or without CoE |
| Pdi.SubDevice.ConfigurePdos | src/subdevice/configuration.rs:267-582 | the loop over the sync managers computes the specified registers and offset |
| Pdi.SubDevice.ConfigureFmmus | src/subdevice/configuration.rs:59-128 | the device's segment is what the pass mapped, relative to the group's start; the other segment stays |
| Pdi.SubDeviceGroup.ConfigureDirection | src/subdevice_group/mod.rs:211-243 | devices are configured one behind the other |
| Pdi.SubDeviceGroup.ConfigureFmmus | src/subdevice_group/mod.rs:200-264 | from any registers: on success the image fits, segments are shares, and a device mirrors its shares of the image in hardware if and only if its registers accepted them |
| Pdi.BothPassesMirrorIff | src/subdevice_group/mod.rs:211-243 | two passes from any registers leave segments and FMMUs that agree in both directions if and only if each FMMU was free, or empty and in its place, or empty and without a part |
| Pdi.BlankIsAccepting | src/maindevice.rs:93-97 | registers blanked by the reset of the main device accept every share |
| Pdi.MirroringAcceptsIff | src/subdevice_group/mod.rs:556-562 | the registers of a device that mirrors its shares accept them again if and only if they are empty |
| Pdi.SecondConfigurationMirrorsIff | src/subdevice_group/mod.rs:556-562 | after a way back to PRE-OP and a second configuration a device mirrors its shares if and only if they are empty; else it maps the byte behind a share too |
| Pdi.EveryByteHasShare | src/subdevice_group/mod.rs:223-247 | every byte of the image belongs to some device and direction |
| Pdi.SharesAreDisjoint | src/subdevice_group/mod.rs:223-247 | no byte belongs to two, and none outside the image to any |

## Left out

- Network drivers, wakers, timers and scheduling: I/O; a poll is a step, a timeout may happen at any poll, with or without retries left.
- Memory ordering, pointers, strides and lifetimes: slots are array elements and atomic operations are single steps.
- Access to a frame's data by a sender or receiver after its owner has freed it: only the slot states are modelled.
- More than one frame in a sender's hands at a time: the drivers finish each frame before they take the next.
- Wrap-around where overflow checks are off: an overflow is a failure in the model.
- DcExact.DelaysExactIff: assumes that every device has DC support, enters at port 0 and does not wrap its clock during the walk; without chains as side branches, or with devices entered elsewhere, parents and links are treated in `DcMislinks`, the delays are not.
- DC parameter registers, static drift compensation and the latching of times: fixed register accesses.
- Floating-point fields, among them the default width of `f32`, and 128-bit integers.
- Attribute parsing, token handling and generic parameters of the derive macros; discriminants are passed in as numbers.
- Tuples and arrays of numbers as leaf codecs, other than byte arrays.
- Errors of the EEPROM device itself, `clear_errors`, and `read_byte` at the last address of a range that is already at its end.
- EepromCursor.EvenWriteSplices: starts inside the range; what an odd position does is `EepromCursor.OddWriteLandsOneEarly`.
- StationAlias.SetStationAlias: the CRC computation of the external `crc` crate is a function here, not its table-driven loop.
- The remaining EEPROM categories, the mailbox configuration and the identity: fixed structs, read with the same cursor and codec.
- Ethernet and EtherCAT frame headers before the first PDU in `receive_frame`: filtering and length checks on fixed fields.
- PDU headers, flags and the iterator over the PDUs of a response.
- Reset of the storage among the steps of `FrameInterleaving` and `FrameProgram`: callers are to have nothing in flight then (src/maindevice.rs:518-522); `FrameRouting` has it at any moment.
- SDO transfers: the objects a device reports are part of `FmmuMapping.Info`.
- The mailbox half of the sync manager configuration.
