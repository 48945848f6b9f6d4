# eet: a verified model of the protocol node

eet is a small CAN-bus protocol for a team of devices.  Every device is a
**Master** or a **Slave** with an id from 1 to 12.  Every period, each device
first hears the other devices' frames, one `pushMsg` call per frame.  It then
calls `update()`, which folds what it heard into a 7-bit status byte and
starts a new period.  There are three kinds of frame:

- **Activate**: a Slave asks to become the active one;
- **Heartbeat**: a device's slave state, approval state and command;
- **Cmd**: a Master's command.

Each frame carries its fields in the first 32-bit data word, `dataL`.

The model has three layers, one Dafny module each, plus a module of
arithmetic facts:

- `Helpers` (`helpers.dfy`): the bit-field helpers `bits2type`, `setBits`
  and `enum2type`.  A 32-bit word is an integer in [0, 2^32), and every
  bitwise operation is stated by its arithmetic meaning.  `bits2type` and
  `setBits` keep their mask-building loop as the method `BuildMask`.
- `Protocol` (`protocol.dfy`): the enumerations with their ordinals and
  INVALID sentinels, the constants, the raw frame, the validation masks,
  the three encoders (`ToRawMsg`, building `dataL` with successive
  `SetBits` calls) and the decoders of the fields.  The encoders are proved
  equal to the function `Frame()`.  The round trips are proved about
  `Frame()`, including the asymmetries of the code:
  - the command type is written 6 bits wide and read 7 bits wide;
  - an INVALID slave or approve state is written as bit 1 and reads back as
    ACTIVE or APPROVED;
  - the id is sign-extended before its 6 low bits are written, so the INVALID
    id -1 reads back as 63.
- `Devices` (`device.dfy`): the node.
  - The class `Device` has the fields of `Device`, `Master` and `Slave`.  The
    role is its `deviceType`, and the methods branch on `deviceType` where
    the source overrides per role.
  - Each method is proved to leave `State()` equal to a transition function
    of the old state: `Pushed` for `pushMsg`, `Updated` for `update`,
    `Activated` for `activate`, and so on.
  - The properties are proved as lemmas about those functions.  pushMsg is
    covered from every angle: its error mask, what it records, when a handler
    runs, and the frames other nodes' encoders build.  update is covered by
    its status byte, its queries and its resets, and the validity invariant
    is proved across both.
- `Masters` (`master.dfy`) and `Slaves` (`slave.dfy`) state the behaviour of
  each role's overrides on the node model.  They follow a frame from the
  sender's encoder through pushMsg to the role's handler.  They also prove
  the Slave's activation exclusion: a Slave ends a period ACTIVE only if it
  heard no active slave and kept a connection.

Where a plain reading of the protocol and the code differ, the model follows
the code.

- A node that expects slaves and hears none reports both "all slaves
  lost" and "some slaves lost", even when it counts itself among them, as
  a Slave expecting two does (`Slaves.AllSlavesLostWhenNoneHeard`).
- A Slave's heartbeat handler does not look at the sender's type
  (`Slaves.SlaveHeartbeatAnySender`).
- The sender is registered before the CAN id and length are checked, so a
  rejected frame still marks its sender as responded
  (`Devices.PushRegisters`).

## Model

| member | source | states |
|---|---|---|
| Helpers.FieldValue | src/Helpers.h:20 | an extracted field is an unsigned value below 2^n, never sign-extended |
| Helpers.BuildMask | src/Helpers.h:16-19 | the loop that ORs in `1U << i` for each i below n leaves the mask of the n low bits, 2^n - 1 |
| Helpers.Bits2Type | src/Helpers.h:12-21 | under the helper's asserts (byte < 4, field inside the word, empty field at offset 0 rejected), the result is (src >> offset) & mask, i.e. the field value, below 2^n |
| Helpers.SetBits | src/Helpers.h:26-39 | the new target holds value mod 2^n in the field; every bit below and above the field is unchanged |
| Helpers.Enum2Type | src/Helpers.h:44-53 | the result is the range check of the extracted field: the cast value when lower <= v <= upper, the INVALID sentinel otherwise |
| Helpers.EnumFieldInRange | src/Helpers.h:46-52 | if no in-range value casts to INVALID, the result is INVALID exactly when the field is out of [lower, upper], and otherwise it is the cast field value |
| Helpers.Decompose | src/Helpers.h:36-38 | a word is its bits above the field, the field and its bits below |
| Helpers.GetAfterSet | src/Helpers.h:36-38 | get after set: reading the field just written gives value mod 2^n |
| Helpers.WithFieldKeepsOutside | src/Helpers.h:36-38 | a write leaves the bits below the field and the bits above it unchanged |
| Helpers.DisjointRead | src/Helpers.h:36-38 | reading a field disjoint from the one written gives its value from before the write |
| Helpers.LastWriteWins | src/Helpers.h:36-38 | two writes to the same field equal the second write alone |
| Helpers.SetBitsIdempotent | src/Helpers.h:36-38 | writing the same value twice equals writing it once |
| Helpers.WriteBackUnchanged | src/Helpers.h:36-38 | writing back the value a field holds leaves the word unchanged |
| Helpers.WithFieldStaysBelow | src/Helpers.h:36-38 | a write inside the low k bits of a word below 2^k leaves it below 2^k |
| Helpers.FieldAboveTop | src/Helpers.h:20 | a field of x that starts at a bit position k with x < 2^k reads 0 |
| Helpers.FieldConcat | src/Helpers.h:20 | an (n+m)-bit field is its n low bits plus 2^n times the m-bit field just above them |
| Protocol.DeviceType.Ordinal | src/Protocol.h:8-12 | the ordinal is UINT8_MAX exactly for INVALID (MASTER 1, SLAVE 2) |
| Protocol.DeviceType.OfOrdinal | src/Helpers.h:50 | the cast of an in-range ordinal 1..2 gives the enumerator with that ordinal |
| Protocol.SlaveState.Ordinal | src/Protocol.h:24-28 | the ordinal is UINT8_MAX exactly for INVALID (NOT_ACTIVE 0, ACTIVE 1) |
| Protocol.SlaveState.OfOrdinal | src/Helpers.h:50 | the cast of an in-range ordinal 0..1 gives the enumerator with that ordinal |
| Protocol.ApproveState.Ordinal | src/Protocol.h:30-34 | the ordinal is UINT8_MAX exactly for INVALID (NOT_APPROVED 0, APPROVED 1) |
| Protocol.ApproveState.OfOrdinal | src/Helpers.h:50 | the cast of an in-range ordinal 0..1 gives the enumerator with that ordinal |
| Protocol.CmdType.Ordinal | src/Protocol.h:36-49 | the ordinal is UINT8_MAX exactly for INVALID (COMPLETE 0 to FULL_ASTERN 10) |
| Protocol.CmdType.OfOrdinal | src/Helpers.h:50 | the cast of an in-range ordinal 0..10 gives the enumerator with that ordinal |
| Protocol.OrdinalsRoundTrip | src/Protocol.h:8-49 | every valid enumerator's ordinal lies in its range (1..2, 0..1, 0..1, 0..10), so it is never the sentinel, and casting it back gives the enumerator |
| Protocol.DeviceIdRange | src/Protocol.h:51-56 | isCorrectId holds exactly for ids 1..12, so id - 1 is a slot 0..11; the INVALID id -1 is not correct |
| Protocol.ConstantsDistinct | src/Protocol.h:58-63 | the CAN ids 0x10, 0x20 and 0x40 are pairwise distinct, also in their low byte, which they equal; the mask and status positions fit 16 and 7 bits |
| Protocol.CommonFields.NotValid | src/Protocol.cpp:125-132 | bit INVALID_DEVICE_ID iff the id is not in 1..12, bit INVALID_DEVICE_TYPE iff the type is INVALID, no other bit; zero iff both are valid |
| Protocol.Activate.NotValid | src/Protocol.cpp:20-22 | the common mask: each of the invalid-id and invalid-type bits set exactly when its field is invalid, no other bit set, zero exactly when both are valid |
| Protocol.Heartbeat.NotValid | src/Protocol.cpp:48-54 | the common bits, plus bits 5, 6 and 7 each iff its field is INVALID; no duplicate, CAN-id or length bit, nothing above bit 7 |
| Protocol.Cmd.NotValid | src/Protocol.cpp:95-99 | the common bits plus bit 7 iff the command is INVALID |
| Protocol.Activate.ToRawMsg | src/Protocol.cpp:25-36 | the frame built by the successive setBits calls: canId 0x10, dlc 2, dataH 0, dataL the common word |
| Protocol.Heartbeat.ToRawMsg | src/Protocol.cpp:57-71 | canId 0x20, dlc 3, dataH 0, dataL the common word with slave state, approve state and command written over it |
| Protocol.Cmd.ToRawMsg | src/Protocol.cpp:80-92 | canId 0x40, dlc 3, dataH 0, dataL the common word with the command written over it |
| Protocol.DecodeCommon | src/Protocol.cpp:114-122 | the decoded id is a 6-bit field, 0..63 |
| Protocol.ReadCommonFields | src/Protocol.cpp:114-122 | decoding through bits2type and enum2type gives exactly DecodeCommon |
| Protocol.CommonWordLayout | src/Protocol.cpp:32-34 | the common word holds the id mod 64 in bits 0-5, the type's ordinal mod 4 in bits 6-7, the errors byte in bits 8-15, and zeros above |
| Protocol.CommonRoundTrip | src/Protocol.cpp:114-122 | decoding an encoded common word gives back the type (INVALID included), the errors byte and the id mod 64, so any id in 0..63 comes back unchanged |
| Protocol.CmdFieldRoundTrip | src/Protocol.cpp:69 | the 6-bit command written below bit 24 reads back through the 7-bit read as the same command type, INVALID (63 > 10) included |
| Protocol.ActivateRoundTrip | src/Protocol.cpp:25-36 | an encoded Activate frame has canId 0x10, dlc 2, dataH 0 and dataL below 2^16, and its common fields decode back |
| Protocol.HeartbeatRoundTrip | src/Protocol.cpp:57-71 | an encoded Heartbeat frame has canId 0x20, dlc 3, dataH 0 and zeros in bits 24-31; common fields and command decode back; an INVALID slave or approve state reads back as ACTIVE or APPROVED, a valid one as itself |
| Protocol.CmdRoundTrip | src/Protocol.cpp:80-92 | an encoded Cmd frame has canId 0x40, dlc 3, dataH 0, zeros in bits 16-17 and 24-31; common fields and command decode back |
| Protocol.DecodedStatesValid | src/Device.cpp:45-50 | a received slave or approve state, read from a single bit, is never INVALID |
| Protocol.DecodedTypeInvalid | src/Protocol.cpp:118-120 | the received type is INVALID exactly when its 2-bit field is 0 or 3 |
| Protocol.DecodedCmdInvalid | src/Device.cpp:51-53 | the received command is INVALID exactly when the 7-bit value of bits 18-24 exceeds 10, in particular whenever bit 24 is set |
| Devices.Device.constructor | src/Device.cpp:6-16 | the initial state: INVALID id, zero status byte and counts, flags false, NOT_ACTIVE, command INVALID, NOT_APPROVED, empty sets, no activation request; it satisfies the invariant |
| Devices.Device.RegisterResponderId | src/Device.cpp:204-223 | the new fields and the returned mask are those of Registered: another sender is added to the set of its type, an INVALID type gives its bit, the own id sets the duplicate flag and bit |
| Devices.Device.PushMsg | src/Device.cpp:19-86 | the new fields and the returned mask are those of Pushed, the layered validate-register-dispatch pipeline |
| Devices.Device.PushActivate | src/Slave.cpp:37-41 | the new fields are those of OnActivate: a Slave hearing a Slave becomes NOT_ACTIVE, a Master changes nothing |
| Devices.Device.PushHeartbeat | src/Master.cpp:14-32 | the new fields are those of OnHeartbeat, the role's heartbeat handler (Master: src/Master.cpp:14-32, Slave: src/Slave.cpp:44-57) |
| Devices.Device.PushCmd | src/Slave.cpp:60-65 | the new fields are those of OnCmd: a Master takes any command, a Slave a Master's only, and the approval is reset |
| Devices.Device.SetCmdType | src/Master.cpp:84-87 | the new fields are those of WithCmdType: a Master also resets the approval, a Slave (src/Slave.cpp:11-13) only sets the command |
| Devices.Device.WipeErrors | src/Master.cpp:65-71 | the status byte becomes the six connection bits of the period, and nothing else changes |
| Devices.Device.Transition | src/Slave.cpp:79-85 | the new fields are those of Transitioned: any active slave remembered, and the Slave's transition with the request dropped |
| Devices.Device.FlagNoActiveSlave | src/Master.cpp:74 | the no-active-slave bit is OR-ed in, judged on the state after the transition |
| Devices.Device.ClearPeriod | src/Master.cpp:76-80 | the three sets are emptied and the duplicate and active-slave flags cleared, nothing else changes |
| Devices.Device.Update | src/Slave.cpp:68-93 | the new fields are those of Updated, the composition of the four blocks (the Master's update, src/Master.cpp:62-81, is the same without the transition) |
| Devices.Device.Activate | src/Slave.cpp:96-98 | the new fields are those of Activated |
| Devices.Device.Approve | src/Slave.cpp:115-119 | the new fields are those of ApproveCmd |
| Devices.Device.SetDeviceId | src/Master.cpp:47-49 | only the id changes, to the given one |
| Devices.Device.SetNumOfMasters | src/Master.cpp:52-54 | only the expected number of masters changes |
| Devices.Device.SetNumOfSlaves | src/Master.cpp:57-59 | only the expected number of slaves changes |
| Devices.Device.GetActivateMsg | src/Device.cpp:119-123 | a Slave gets the Activate frame of its own id, type and status byte; a Master's override (src/Master.cpp:41-44) returns the all-zero frame |
| Devices.Device.GetHeartbeatMsg | src/Device.cpp:126-130 | the Heartbeat frame of the node's own fields |
| Devices.Device.GetCmdMsg | src/Device.cpp:133-137 | a Master gets the Cmd frame of its own fields; a Slave's override (src/Slave.cpp:16-19) returns the all-zero frame |
| Devices.PushedValid | src/Device.cpp:19-86 | pushMsg preserves the invariant: a role, valid states, a Master never active nor activating, no active-slave flag, status byte below 128, set slots only in 0..11 |
| Devices.DispatchedValid | src/Device.cpp:28-81 | every case of the CAN-id switch preserves the invariant |
| Devices.HeartbeatKeepsValid | src/Slave.cpp:44-57 | a heartbeat with a valid approve state keeps the invariant, also when it marks slot id - 1 active |
| Devices.UpdatedValid | src/Slave.cpp:68-93 | update preserves the invariant |
| Devices.ActivatedValid | src/Slave.cpp:96-98 | activate keeps the invariant on a Slave; on a connected Master it would break it, which is why only a Slave has activate |
| Devices.ApprovedValid | src/Slave.cpp:115-119 | approve keeps the invariant |
| Devices.CmdTypeKeepsValid | src/Master.cpp:84-87 | setCmdType (also src/Slave.cpp:11-13) keeps the invariant for any command |
| Devices.SettersKeepValid | src/Master.cpp:47-59 | setting the id or either expected count keeps the invariant for any value |
| Devices.HandledRoleStateOnly | src/Slave.cpp:37-65 | the handlers change only the role state: slave state, command, approval and active slaves |
| Devices.DispatchedHandlerIffZero | src/Device.cpp:28-81 | after registration the mask is zero exactly for a known kind with its length and (Heartbeat, Cmd) a valid command; then the handler has run, otherwise nothing changed |
| Devices.DispatchedRoleStateOnly | src/Device.cpp:28-81 | dispatching changes only the role state |
| Devices.PushInvalidCommon | src/Device.cpp:22-24 | a frame whose id or type is invalid returns just those common bits and changes nothing |
| Devices.PushDuplicate | src/Device.cpp:218-221 | a frame with the own id returns exactly the duplicate bit, sets the duplicate flag and touches neither responded set, whatever the sender's type |
| Devices.PushRegisters | src/Device.cpp:23-27 | any other valid sender is recorded at slot id - 1 (in 0..11) in the set of its type and kept there whatever the rest of the frame holds; besides that only the role state changes |
| Devices.PushedRegistered | src/Device.cpp:25-28 | a valid frame from another node is dispatched on the registered state |
| Devices.RegisteredKeepsRoleState | src/Device.cpp:204-223 | registration leaves the role state as it is |
| Devices.RegisteredRecords | src/Device.cpp:207-214 | registering another node of a valid type returns 0 and adds exactly its slot to the set of its type |
| Devices.PushUnknownCanId | src/Device.cpp:78-80 | after registration an unknown CAN id returns exactly the invalid-CAN-id bit and no handler runs |
| Devices.PushBadLength | src/Device.cpp:30-65 | after registration a known kind with the wrong length returns exactly the invalid-length bit and no handler runs |
| Devices.PushHandlerIffZero | src/Device.cpp:19-86 | pushMsg returns 0 exactly when the common fields are valid, the sender is another node, the kind is known with its length and (Heartbeat, Cmd) the command is valid; then the handler has run on the registered state, otherwise at most the responded sets and the duplicate flag changed |
| Devices.PushBit24 | src/Device.cpp:51-74 | a Heartbeat or Cmd with bit 24 set returns exactly the invalid-command bit, because of the 7-bit read |
| Devices.PushMaskBits | src/Device.cpp:19-86 | the returned mask uses only bits 0..7 and never reports an invalid slave or approve state |
| Devices.LostImpliesSomeLost | src/Device.cpp:169-190 | all-slaves-lost implies some-slaves-lost, and the same for masters |
| Devices.UpdatedStatus | src/Slave.cpp:71-86 | the status byte is rebuilt from zero: each of bits 0..6 is set exactly when its condition held, the no-active-slave bit judged after the transition; bit 7 is never set |
| Devices.UpdatedQueries | src/Device.cpp:140-166 | isAnyCon, isAnyConLost, isAnyActiveSlave and isAnyError read the new status byte as the period's conditions; all-lost bits imply some-lost bits |
| Devices.UpdatedClears | src/Slave.cpp:85-92 | update empties the three sets and clears the duplicate and active-slave flags; it keeps type, id, counts, command and approval; a Master keeps its slave state, a Slave drops its request |
| Devices.ActivateDelivered | src/Device.cpp:29-40 | another valid node's encoded Activate frame is accepted (mask 0) and handed to pushActivate on the registered state |
| Devices.ActivateAccepted | src/Device.cpp:29-40 | any Activate frame with the right length whose common fields decode to a valid sender is accepted in the same way |
| Devices.HeartbeatDelivered | src/Device.cpp:41-62 | another valid node's encoded Heartbeat with valid fields is accepted and handed to pushHeartbeat unchanged |
| Devices.HeartbeatAccepted | src/Device.cpp:41-62 | any Heartbeat frame with the right length that decodes to such a message is accepted in the same way |
| Devices.CmdDelivered | src/Device.cpp:63-77 | another valid node's encoded Cmd with a valid command is accepted and handed to pushCmd unchanged |
| Devices.CmdAccepted | src/Device.cpp:63-77 | any Cmd frame with the right length that decodes to such a message is accepted in the same way |
| Devices.PushedKeepsConfiguration | src/Device.cpp:19-86 | pushMsg never changes the type, id, counts, status byte, activation request or active-slave flag |
| Masters.MasterIgnoresActivate | src/Master.cpp:9-11 | an accepted Activate frame only registers its sender at a Master |
| Masters.MasterHearsActiveSlave | src/Master.cpp:17-20 | an ACTIVE Slave heartbeat makes the Master adopt its command and approval, the approval overwriting setCmdType's NOT_APPROVED, and marks slot id - 1 active |
| Masters.MasterHearsIdleSlave | src/Master.cpp:21-23 | a NOT_ACTIVE Slave heartbeat only clears the sender's active mark |
| Masters.MasterIgnoresMasterHeartbeat | src/Master.cpp:26-30 | a Master's heartbeat only registers its sender |
| Masters.OnHeartbeatMaster | src/Master.cpp:14-32 | the Master's heartbeat handler in its three cases, on any state |
| Masters.MasterTakesAnyCmd | src/Master.cpp:35-38 | a command from a sender of either type replaces the Master's, with approval NOT_APPROVED |
| Masters.MasterCmdNeedsApproval | src/Master.cpp:84-87 | the Master's setCmdType always resets the approval to NOT_APPROVED |
| Masters.MasterNoActiveSlave | src/Master.cpp:73-74 | a valid Master reports no active slave exactly when no slave reported ACTIVE in the period |
| Masters.MasterNeverActive | src/Master.cpp:62-81 | a valid Master stays a Master and NOT_ACTIVE through pushMsg and update |
| Slaves.SlaveYieldsToSlave | src/Slave.cpp:37-41 | another Slave's Activate frame registers it and makes this Slave NOT_ACTIVE, mask 0, nothing else changed |
| Slaves.SlaveIgnoresMasterActivate | src/Slave.cpp:37-41 | a Master's Activate frame only registers it |
| Slaves.SlaveActivateHandled | src/Slave.cpp:37-41 | on a Slave, registering an Activate sender and then pushActivate gives way to a Slave and only records a Master |
| Slaves.SlaveHeartbeatAnySender | src/Slave.cpp:44-57 | the Slave's heartbeat handler does not depend on the sender's type |
| Slaves.SlaveHearsActive | src/Slave.cpp:46-50 | an ACTIVE heartbeat from any other node makes the Slave adopt its command and approval and mark the sender active |
| Slaves.OnHeartbeatSlave | src/Slave.cpp:44-57 | the Slave's heartbeat handler for ACTIVE and NOT_ACTIVE, on any state |
| Slaves.SlaveHearsIdle | src/Slave.cpp:51-53 | a NOT_ACTIVE heartbeat only clears the sender's active mark |
| Slaves.SlaveCmdOnlyFromMaster | src/Slave.cpp:60-65 | a Master's command is taken with approval NOT_APPROVED; another Slave's command only registers its sender |
| Slaves.SlaveCmdTypeKeepsApproval | src/Slave.cpp:11-13 | the Slave's setCmdType sets the command and leaves the approval |
| Slaves.SlaveTransition | src/Slave.cpp:79-85 | at update an active slave heard or no connection makes the Slave NOT_ACTIVE, else a request makes it ACTIVE, else the state stays; the request is always dropped |
| Slaves.ActiveSlaveReportsActive | src/Slave.cpp:79-86 | a Slave that ends update ACTIVE never reports NO_ACTIVE_SLAVE |
| Slaves.ActivationExclusion | src/Slave.cpp:79-86 | a Slave ends update ACTIVE only if it heard no active slave, kept a connection and had requested activation or was already active; it then reports a connection |
| Slaves.SlaveGivesWay | src/Slave.cpp:44-85 | a Slave that hears another node's ACTIVE heartbeat is NOT_ACTIVE at the end of the period, whatever it had requested |
| Slaves.ActivateRequest | src/Slave.cpp:96-98 | activate records a request exactly when NOT_ACTIVE and the last status byte shows a connection; it changes nothing else, and a call while ACTIVE or disconnected cancels a request |
| Slaves.ActivateThenUpdate | src/Slave.cpp:79-85 | a request made while NOT_ACTIVE and connected makes the Slave ACTIVE at the next update if no active slave is heard and a connection is kept |
| Slaves.ApproveEffect | src/Slave.cpp:115-119 | approve makes the approval APPROVED exactly when the Slave is ACTIVE and the command is its own (or it already was), and changes nothing else |
| Slaves.AllSlavesLostWhenNoneHeard | src/Device.cpp:175-178 | with any positive number of expected slaves and none heard, update sets both the all-slaves-lost and the some-slaves-lost bits |

## Left out

- The diagnostic formatter `LogMsg` (its struct, two constructors and `clean`) is not modelled.  It only formats text into a 512-byte buffer.
- `dataH` is carried in the frame but is always 0 and never read; the model states that it is 0.
- The conversion of `m_canId` to the `char`-based `Can::Id` in pushMsg's switch is modelled as a dispatch on the id's low byte (`canId % 256`), not through the conversion's implementation-defined rules.
- Signed `char` details.  Device ids are integers in -128..127 with -1 as the INVALID sentinel.  The encoder's cast of a negative id is modelled as two's complement: the id mod 2^32, of which 6 bits are kept.  Error and status bytes are values 0..255.
- The `assert`s of the helpers become preconditions (`FieldInWord`), not aborts.  Fields whose unsigned offset would wrap around 2^32 are outside the precondition.
- Helpers.FieldInWord: like the source's assert, it admits an empty field (n = 0) at offset 32 (byte 3, bit 8).  There the source shifts by the full word width, which C++ leaves undefined; the model reads 0 and leaves the target unchanged.  No caller uses such a field.
- Helpers.SetBits: `setBits` writes through a reference to its target; the model returns the new word, and each caller assigns it back, so aliasing of the target is not modelled.
- `std::bitset<12>` is a set of slot numbers, with `count()` as its cardinality; that only slots 0..11 are used is part of the invariant `StateValid`.  `std::bitset` exceptions cannot occur because ids are validated before indexing.
- `size_t` counts are unbounded naturals.
- Virtual dispatch and object lifetime.  A single class carries a Master's and a Slave's fields, and the role is the constant `deviceType`.  `isActivating` exists for both roles; a Master never sets it.  The Master's and the Slave's setters `setDeviceId`, `setNumOfMasters` and `setNumOfSlaves` have identical bodies and are modelled once.
- Access control is not modelled.  Public, private and protected members of the source are all plain members.  `Device.Activate` and `Device.Approve` require a Slave, the only role that has them.
- The plain getters `getDeviceId`, `getErrors`, `getDeviceType`, `getSlaveState`, `getApproveState`, `getCmdType`, `isDuplicatedDeviceId`, `Slave::isActivating`, `Slave::isAnyActiveSlaveResponded` and `Slave::getState` are field reads of `State()`, not separate members.  The status-byte queries `isAnyCon`, `isAnyConLost`, `isAnyActiveSlave` and `isAnyError` are predicates on the state.
- Devices.PushedValid: the invariant `StateValid` is proved about the transition functions as lemmas, not as a pre- and postcondition of each method.  The methods' contracts state the whole new state as a function of the old one, and a lemma for every state-changing operation (`PushedValid`, `UpdatedValid`, `ActivatedValid`, `ApprovedValid`, `CmdTypeKeepsValid`, `SettersKeepValid`) shows that it keeps the invariant, so the invariant holds after any sequence of calls that starts at the constructor.  For `activate` this relies on its precondition that the node is a Slave: on a connected Master, `Activated` would set `isActivating`, which the invariant forbids; the source offers `activate` only on the Slave class.
- Devices.Device.Update: update's body is split into four methods, one per block of the source, and composed in order.
- The bus transport, the period scheduler and the application that calls `activate`, `approve` and `setCmdType` are outside the modelled files.
