/**
 * The protocol node (src/Device.h, src/Device.cpp, src/Master.cpp,
 * src/Slave.cpp).  A node is either a Master or a Slave; the role is the
 * device type it was built with, and every operation that the source
 * overrides per role branches on it.
 *
 * Within one period the node is told about received frames (pushMsg), which
 * validates them, records who responded and hands valid messages to the
 * role's handler; then update() rebuilds the 7-bit status byte from what was
 * recorded and clears the per-period records.
 *
 * The state is specified by the value DeviceState and by functions from old
 * state to new state; the class Device holds the same state in fields and
 * its methods update them in place.
 */
module Devices {
  import opened Arith
  import opened Helpers
  import opened Protocol

  /** `std::bitset<MAX_DEVICE_ID>`, as the set of its set slots: slot i
      stands for device id i + 1, and `count()` is the cardinality. */
  type Bitset = set<nat>

  const NO_SLOTS: Bitset := {}

  /** The status byte (`char m_errors`) as its 8 bits. */
  type Status = bv8

  /** `1 << pos` in the status byte. */
  function StatusBit(pos: nat): Status
    requires pos < 8
  {
    if pos == 0 then 0x01 else if pos == 1 then 0x02 else if pos == 2 then 0x04
    else if pos == 3 then 0x08 else if pos == 4 then 0x10 else if pos == 5 then 0x20
    else if pos == 6 then 0x40 else 0x80
  }

  /** `(cond << pos)`. */
  function StatusFlag(cond: bool, pos: nat): Status
    requires pos < 8
  {
    if cond then StatusBit(pos) else 0
  }

  /** `(m_errors >> pos) & 0x01`. */
  predicate StatusHas(e: Status, pos: nat)
    requires pos < 8
  {
    e & StatusBit(pos) != 0
  }

  /** The fields of a node.  isActivating is the Slave's only extra field;
      a Master never sets it. */
  datatype DeviceState = DeviceState(
    deviceType: DeviceType,
    deviceId: Char,
    errors: Status,
    numOfMasters: nat,
    numOfSlaves: nat,
    isAnyDuplicatedId: bool,
    isAnyActiveSlave: bool,
    slaveState: SlaveState,
    cmdType: CmdType,
    approveState: ApproveState,
    activeSlaves: Bitset,
    respondedSlaves: Bitset,
    respondedMasters: Bitset,
    isActivating: bool)

  /** Only the slots of a 12-slot bitset are used. */
  predicate SlotsInRange(b: Bitset)
  {
    forall i :: i in b ==> i < MAX_DEVICE_ID as int
  }

  /** What holds between calls: a role, a Master that is never active nor
      activating, valid states, no leftover active-slave flag, a status
      byte that uses only its 7 low bits and sets that use only slots
      0..11. */
  predicate StateValid(s: DeviceState)
  {
    && s.deviceType != DeviceType.Invalid
    && (s.deviceType == DeviceType.Master ==> s.slaveState == NotActive && !s.isActivating)
    && s.slaveState != SlaveState.Invalid
    && s.approveState != ApproveState.Invalid
    && !s.isAnyActiveSlave
    && s.errors < 0x80
    && SlotsInRange(s.activeSlaves) && SlotsInRange(s.respondedSlaves) && SlotsInRange(s.respondedMasters)
  }

  /** The state the constructor leaves. */
  function Initial(deviceType: DeviceType): DeviceState
  {
    DeviceState(deviceType, DEVICE_ID_INVALID, 0, 0, 0, false, false, NotActive, CmdType.Invalid,
                NotApproved, NO_SLOTS, NO_SLOTS, NO_SLOTS, false)
  }

  // ---------------------------------------------------------------------------
  // Per-period predicates (src/Device.cpp).

  predicate ConWithSomeSlavesLost(s: DeviceState)
  {
    |s.respondedSlaves| < s.numOfSlaves
  }

  predicate ConWithAllSlavesLost(s: DeviceState)
  {
    |s.respondedSlaves| == 0 && s.numOfSlaves != 0
  }

  predicate ConWithSomeMastersLost(s: DeviceState)
  {
    |s.respondedMasters| < s.numOfMasters
  }

  predicate ConWithAllMastersLost(s: DeviceState)
  {
    |s.respondedMasters| == 0 && s.numOfMasters != 0
  }

  predicate NoConnection(s: DeviceState)
  {
    (ConWithAllSlavesLost(s) || s.numOfSlaves == 0) && (ConWithAllMastersLost(s) || s.numOfMasters == 0)
  }

  predicate NoActiveSlave(s: DeviceState)
  {
    !s.isAnyActiveSlave && s.slaveState != Active
  }

  /** The queries on the last status byte. */
  predicate IsAnyConLost(s: DeviceState)
  {
    StatusHas(s.errors, STATUS_CON_WITH_SOME_SLAVES_LOST) || StatusHas(s.errors, STATUS_CON_WITH_SOME_MASTERS_LOST)
  }

  predicate IsAnyCon(s: DeviceState)
  {
    !StatusHas(s.errors, STATUS_NO_CONNECTION)
  }

  predicate IsAnyActiveSlave(s: DeviceState)
  {
    !StatusHas(s.errors, STATUS_NO_ACTIVE_SLAVE)
  }

  predicate IsAnyError(s: DeviceState)
  {
    s.errors != 0
  }

  // ---------------------------------------------------------------------------
  // Transitions, as functions of the old state.

  /** `registerResponderId`: a sender with the node's own id is a duplicate;
      any other sender is recorded in the set of its type. */
  function Registered(s: DeviceState, id: Char, t: DeviceType): (DeviceState, Mask)
    requires IsCorrectId(id)
  {
    if id != s.deviceId then
      match t
      case Slave => (s.(respondedSlaves := s.respondedSlaves + {id - 1}), 0)
      case Master => (s.(respondedMasters := s.respondedMasters + {id - 1}), 0)
      case Invalid => (s, Bit(ERR_INVALID_DEVICE_TYPE))
    else
      (s.(isAnyDuplicatedId := true), Bit(ERR_DUPLICATED_DEVICE_ID))
  }

  /** `pushActivate`: a Master ignores it; a Slave that hears another Slave
      activate gives way. */
  function OnActivate(s: DeviceState, m: Activate): DeviceState
  {
    if s.deviceType == DeviceType.Master then s
    else if m.common.deviceType == DeviceType.Slave then s.(slaveState := NotActive)
    else s
  }

  /** `pushHeartbeat`.  A Master listens to Slaves only; a Slave does not
      check the sender's type. */
  function OnHeartbeat(s: DeviceState, m: Heartbeat): DeviceState
    requires IsCorrectId(m.common.deviceId)
  {
    var i := m.common.deviceId - 1;
    if s.deviceType == DeviceType.Master then
      match m.common.deviceType
      case Slave =>
        if m.slaveState == Active then
          s.(cmdType := m.cmdType, approveState := m.approveState, activeSlaves := s.activeSlaves + {i})
        else
          s.(activeSlaves := s.activeSlaves - {i})
      case Master => s
      case Invalid => s
    else
      match m.slaveState
      case Active =>
        s.(cmdType := m.cmdType, approveState := m.approveState, activeSlaves := s.activeSlaves + {i})
      case NotActive => s.(activeSlaves := s.activeSlaves - {i})
      case Invalid => s
  }

  /** `pushCmd`: a Master takes every command; a Slave only a Master's. */
  function OnCmd(s: DeviceState, m: Cmd): DeviceState
  {
    if s.deviceType == DeviceType.Master || m.common.deviceType == DeviceType.Master then
      s.(cmdType := m.cmdType, approveState := NotApproved)
    else
      s
  }

  /** A received Heartbeat: the common fields and the three state fields of
      the first data word. */
  function HeartbeatOf(common: CommonFields, data: U32): Heartbeat
  {
    Heartbeat(common, DecodeSlaveState(data), DecodeApproveState(data), DecodeCmdType(data))
  }

  /** The tail of each case of pushMsg: the message's own validation, then
      its handler. */
  function ActivateReceived(s: DeviceState, m: Activate): (DeviceState, Mask)
  {
    if m.NotValid() != 0 then (s, m.NotValid()) else (OnActivate(s, m), 0)
  }

  function HeartbeatReceived(s: DeviceState, m: Heartbeat): (DeviceState, Mask)
    requires IsCorrectId(m.common.deviceId)
  {
    if m.NotValid() != 0 then (s, m.NotValid()) else (OnHeartbeat(s, m), 0)
  }

  function CmdReceived(s: DeviceState, m: Cmd): (DeviceState, Mask)
  {
    if m.NotValid() != 0 then (s, m.NotValid()) else (OnCmd(s, m), 0)
  }

  /** The switch of pushMsg on the CAN id (its low byte, which is what the
      cast to `Can::Id` keeps), with the length check of each case. */
  function Dispatched(s: DeviceState, common: CommonFields, raw: RawMsg): (DeviceState, Mask)
    requires IsCorrectId(common.deviceId)
  {
    var kind := raw.canId % 256;
    if kind == CAN_ID_ACTIVATE then
      if raw.dlc != ACTIVATE_DLC then (s, Bit(ERR_INVALID_CAN_DLC))
      else ActivateReceived(s, Protocol.Activate(common))
    else if kind == CAN_ID_HEARTBEAT then
      if raw.dlc != HEARTBEAT_DLC then (s, Bit(ERR_INVALID_CAN_DLC))
      else HeartbeatReceived(s, HeartbeatOf(common, raw.dataL))
    else if kind == CAN_ID_CMD then
      if raw.dlc != CMD_DLC then (s, Bit(ERR_INVALID_CAN_DLC))
      else CmdReceived(s, Cmd(common, DecodeCmdType(raw.dataL)))
    else
      (s, Bit(ERR_INVALID_CAN_ID))
  }

  /** `pushMsg`: validate the common fields, register the sender, then
      dispatch.  The result is the new state and the 16-bit error mask. */
  function Pushed(s: DeviceState, raw: RawMsg): (DeviceState, Mask)
  {
    var common := DecodeCommon(raw.dataL);
    if common.NotValid() != 0 then (s, common.NotValid())
    else
      var r := Registered(s, common.deviceId, common.deviceType);
      if r.1 != 0 then r else Dispatched(r.0, common, raw)
  }

  /** The six connection bits of the status byte, as update() computes them
      before it looks at the active slaves. */
  function ConnectionStatus(s: DeviceState): Status
  {
    StatusFlag(s.isAnyDuplicatedId, STATUS_DUPLICATED_DEVICE_ID)
      | StatusFlag(ConWithSomeSlavesLost(s), STATUS_CON_WITH_SOME_SLAVES_LOST)
      | StatusFlag(ConWithAllSlavesLost(s), STATUS_CON_WITH_ALL_SLAVES_LOST)
      | StatusFlag(ConWithSomeMastersLost(s), STATUS_CON_WITH_SOME_MASTERS_LOST)
      | StatusFlag(ConWithAllMastersLost(s), STATUS_CON_WITH_ALL_MASTERS_LOST)
      | StatusFlag(NoConnection(s), STATUS_NO_CONNECTION)
  }

  /** The Slave's transition: give way to an active slave or on losing every
      connection, else become active if activation was requested. */
  function NextSlaveState(s: DeviceState, anyActive: bool): SlaveState
  {
    if anyActive || NoConnection(s) then NotActive
    else if s.isActivating then Active
    else s.slaveState
  }

  /** The first half of the period's end: any active slave heard, and the
      Slave's transition. */
  function Transitioned(s: DeviceState): DeviceState
  {
    var anyActive := s.isAnyActiveSlave || |s.activeSlaves| != 0;
    if s.deviceType == DeviceType.Master then s.(isAnyActiveSlave := anyActive)
    else s.(isAnyActiveSlave := anyActive, slaveState := NextSlaveState(s, anyActive), isActivating := false)
  }

  /** The per-period records cleared. */
  function Cleared(s: DeviceState): DeviceState
  {
    s.(activeSlaves := NO_SLOTS, respondedMasters := NO_SLOTS, respondedSlaves := NO_SLOTS,
       isAnyDuplicatedId := false, isAnyActiveSlave := false)
  }

  /** `update`: the status byte from zero, the Slave's transition, and the
      per-period records cleared. */
  function Updated(s: DeviceState): DeviceState
  {
    var mid := Transitioned(s);
    Cleared(mid.(errors := ConnectionStatus(s) | StatusFlag(NoActiveSlave(mid), STATUS_NO_ACTIVE_SLAVE)))
  }

  /** `Slave::activate`: request activation if not active and connected;
      a request made otherwise cancels an earlier one. */
  function Activated(s: DeviceState): DeviceState
  {
    s.(isActivating := s.slaveState == NotActive && IsAnyCon(s))
  }

  /** `Slave::approve`. */
  function ApproveCmd(s: DeviceState, cmdType: CmdType): DeviceState
  {
    if s.slaveState == Active && cmdType == s.cmdType then s.(approveState := ApproveState.Approved) else s
  }

  /** `setCmdType`: a Master's new command waits for approval again. */
  function WithCmdType(s: DeviceState, cmdType: CmdType): DeviceState
  {
    if s.deviceType == DeviceType.Master then s.(cmdType := cmdType, approveState := NotApproved)
    else s.(cmdType := cmdType)
  }

  /** The common fields a node sends. */
  function OwnCommon(s: DeviceState): CommonFields
  {
    CommonFields(s.deviceId, s.deviceType, s.errors as int)
  }

  // ---------------------------------------------------------------------------
  // The node.

  class Device {
    const deviceType: DeviceType
    var deviceId: Char
    var errors: Status
    var numOfMasters: nat
    var numOfSlaves: nat
    var isAnyDuplicatedId: bool
    var isAnyActiveSlave: bool
    var slaveState: SlaveState
    var cmdType: CmdType
    var approveState: ApproveState
    var activeSlaves: Bitset
    var respondedSlaves: Bitset
    var respondedMasters: Bitset
    var isActivating: bool

    function State(): DeviceState
      reads this
    {
      DeviceState(deviceType, deviceId, errors, numOfMasters, numOfSlaves, isAnyDuplicatedId,
                  isAnyActiveSlave, slaveState, cmdType, approveState, activeSlaves,
                  respondedSlaves, respondedMasters, isActivating)
    }

    /** `Device(DeviceType)`, as `Master()` and `Slave()` call it. */
    constructor (deviceType: DeviceType)
      requires deviceType != DeviceType.Invalid
      ensures StateValid(State()) && State() == Initial(deviceType)
    {
      this.deviceType := deviceType;
      deviceId := DEVICE_ID_INVALID;
      errors := 0;
      numOfMasters := 0;
      numOfSlaves := 0;
      isAnyDuplicatedId := false;
      isAnyActiveSlave := false;
      slaveState := NotActive;
      cmdType := CmdType.Invalid;
      approveState := NotApproved;
      activeSlaves := NO_SLOTS;
      respondedSlaves := NO_SLOTS;
      respondedMasters := NO_SLOTS;
      isActivating := false;
    }

    method RegisterResponderId(id: Char, t: DeviceType) returns (ret: Mask)
      requires IsCorrectId(id)
      modifies this
      ensures (State(), ret) == Registered(old(State()), id, t)
    {
      ret := 0;
      if id != deviceId {
        match t
        case Slave =>
          respondedSlaves := respondedSlaves + {id - 1};
        case Master =>
          respondedMasters := respondedMasters + {id - 1};
        case Invalid =>
          ret := Bit(ERR_INVALID_DEVICE_TYPE);
      } else {
        isAnyDuplicatedId := true;
        ret := Bit(ERR_DUPLICATED_DEVICE_ID);
      }
    }

    method PushMsg(raw: RawMsg) returns (notValid: Mask)
      modifies this
      ensures (State(), notValid) == Pushed(old(State()), raw)
    {
      notValid := 0;
      var common := ReadCommonFields(raw.dataL);
      notValid := notValid | common.NotValid();
      if notValid == 0 {
        var reg := RegisterResponderId(common.deviceId, common.deviceType);
        notValid := notValid | reg;
        if notValid == 0 {
          var kind := raw.canId % 256;
          if kind == CAN_ID_ACTIVATE {
            if raw.dlc != ACTIVATE_DLC {
              notValid := notValid | Bit(ERR_INVALID_CAN_DLC);
            } else {
              var m := Protocol.Activate(common);
              notValid := notValid | m.NotValid();
              if notValid == 0 {
                PushActivate(m);
              }
            }
          } else if kind == CAN_ID_HEARTBEAT {
            if raw.dlc != HEARTBEAT_DLC {
              notValid := Bit(ERR_INVALID_CAN_DLC);
            } else {
              var slave := Enum2Type(raw.dataL, 2, 0, 1, 0, 1, SlaveState.OfOrdinal, SlaveState.Invalid);
              var approve := Enum2Type(raw.dataL, 2, 1, 1, 0, 1, ApproveState.OfOrdinal, ApproveState.Invalid);
              var cmd := Enum2Type(raw.dataL, 2, 2, 7, 0, 10, CmdType.OfOrdinal, CmdType.Invalid);
              var m := Heartbeat(common, slave, approve, cmd);
              notValid := notValid | m.NotValid();
              if notValid == 0 {
                PushHeartbeat(m);
              }
            }
          } else if kind == CAN_ID_CMD {
            if raw.dlc != CMD_DLC {
              notValid := notValid | Bit(ERR_INVALID_CAN_DLC);
            } else {
              var cmd := Enum2Type(raw.dataL, 2, 2, 7, 0, 10, CmdType.OfOrdinal, CmdType.Invalid);
              var m := Cmd(common, cmd);
              notValid := notValid | m.NotValid();
              if notValid == 0 {
                PushCmd(m);
              }
            }
          } else {
            notValid := notValid | Bit(ERR_INVALID_CAN_ID);
          }
        }
      }
    }

    method PushActivate(m: Activate)
      modifies this
      ensures State() == OnActivate(old(State()), m)
    {
      if deviceType != DeviceType.Master && m.common.deviceType == DeviceType.Slave {
        slaveState := NotActive;
      }
    }

    method PushHeartbeat(m: Heartbeat)
      requires IsCorrectId(m.common.deviceId)
      modifies this
      ensures State() == OnHeartbeat(old(State()), m)
    {
      var i := m.common.deviceId - 1;
      if deviceType == DeviceType.Master {
        match m.common.deviceType
        case Slave =>
          if m.slaveState == Active {
            SetCmdType(m.cmdType);
            approveState := m.approveState;
            activeSlaves := activeSlaves + {i};
          } else {
            activeSlaves := activeSlaves - {i};
          }
        case Master =>
        case Invalid =>
      } else {
        match m.slaveState
        case Active =>
          SetCmdType(m.cmdType);
          approveState := m.approveState;
          activeSlaves := activeSlaves + {i};
        case NotActive =>
          activeSlaves := activeSlaves - {i};
        case Invalid =>
      }
    }

    method PushCmd(m: Cmd)
      modifies this
      ensures State() == OnCmd(old(State()), m)
    {
      if deviceType == DeviceType.Master || m.common.deviceType == DeviceType.Master {
        SetCmdType(m.cmdType);
        approveState := NotApproved;
      }
    }

    method SetCmdType(c: CmdType)
      modifies this
      ensures State() == WithCmdType(old(State()), c)
    {
      cmdType := c;
      if deviceType == DeviceType.Master {
        approveState := NotApproved;
      }
    }

    /** The first block of `update`: the status byte wiped and its six
        connection bits set from this period's records. */
    method WipeErrors()
      modifies this
      ensures State() == old(State()).(errors := ConnectionStatus(old(State())))
    {
      // The predicates read only the records and the expected counts, which
      // writing the status byte leaves alone.
      var s := State();
      errors := 0;
      errors := errors | StatusFlag(isAnyDuplicatedId, STATUS_DUPLICATED_DEVICE_ID);
      errors := errors | StatusFlag(ConWithSomeSlavesLost(s), STATUS_CON_WITH_SOME_SLAVES_LOST);
      errors := errors | StatusFlag(ConWithAllSlavesLost(s), STATUS_CON_WITH_ALL_SLAVES_LOST);
      errors := errors | StatusFlag(ConWithSomeMastersLost(s), STATUS_CON_WITH_SOME_MASTERS_LOST);
      errors := errors | StatusFlag(ConWithAllMastersLost(s), STATUS_CON_WITH_ALL_MASTERS_LOST);
      errors := errors | StatusFlag(NoConnection(s), STATUS_NO_CONNECTION);
    }

    /** The second block of `update`: any active slave heard this period is
        remembered, and a Slave makes its transition. */
    method Transition()
      modifies this
      ensures State() == Transitioned(old(State()))
    {
      isAnyActiveSlave := isAnyActiveSlave || |activeSlaves| != 0;
      if deviceType != DeviceType.Master {
        if isAnyActiveSlave || NoConnection(State()) {
          slaveState := NotActive;
        } else if isActivating {
          slaveState := Active;
        }
        isActivating := false;
      }
    }

    /** The third block of `update`: the no-active-slave bit, on the state
        after the transition. */
    method FlagNoActiveSlave()
      modifies this
      ensures State() == old(State()).(errors := old(errors) | StatusFlag(NoActiveSlave(old(State())), STATUS_NO_ACTIVE_SLAVE))
    {
      errors := errors | StatusFlag(NoActiveSlave(State()), STATUS_NO_ACTIVE_SLAVE);
    }

    /** The last block of `update`: the per-period records reset. */
    method ClearPeriod()
      modifies this
      ensures State() == Cleared(old(State()))
    {
      activeSlaves := NO_SLOTS;
      respondedMasters := NO_SLOTS;
      respondedSlaves := NO_SLOTS;
      isAnyDuplicatedId := false;
      isAnyActiveSlave := false;
    }

    /** `Master::update` and `Slave::update`: the same four blocks, of which
        only the Slave's second one changes its state. */
    method Update()
      modifies this
      ensures State() == Updated(old(State()))
    {
      ghost var s := State();
      WipeErrors();
      Transition();
      TransitionedIgnoresErrors(s, ConnectionStatus(s));
      ghost var y := State();
      FlagNoActiveSlave();
      ghost var z := State();
      ClearPeriod();
      UpdateSteps(s, y, z);
    }

    /** `Slave::activate`. */
    method Activate()
      requires deviceType == DeviceType.Slave
      modifies this
      ensures State() == Activated(old(State()))
    {
      isActivating := slaveState == NotActive && IsAnyCon(State());
    }

    /** `Slave::approve`. */
    method Approve(c: CmdType)
      requires deviceType == DeviceType.Slave
      modifies this
      ensures State() == ApproveCmd(old(State()), c)
    {
      if slaveState == Active && c == cmdType {
        approveState := ApproveState.Approved;
      }
    }

    method SetDeviceId(id: Char)
      modifies this
      ensures State() == old(State()).(deviceId := id)
    {
      deviceId := id;
    }

    method SetNumOfMasters(n: nat)
      modifies this
      ensures State() == old(State()).(numOfMasters := n)
    {
      numOfMasters := n;
    }

    method SetNumOfSlaves(n: nat)
      modifies this
      ensures State() == old(State()).(numOfSlaves := n)
    {
      numOfSlaves := n;
    }

    /** `getActivateMsg`: a Slave's Activate frame; a Master's override
        returns the empty frame. */
    method GetActivateMsg() returns (msg: RawMsg)
      ensures deviceType == DeviceType.Master ==> msg == EMPTY_FRAME
      ensures deviceType != DeviceType.Master ==> msg == Protocol.Activate(OwnCommon(State())).Frame()
    {
      if deviceType == DeviceType.Master {
        msg := EMPTY_FRAME;
      } else {
        var m := Protocol.Activate(CommonFields(deviceId, deviceType, errors as int));
        msg := m.ToRawMsg();
      }
    }

    /** `getHeartbeatMsg`. */
    method GetHeartbeatMsg() returns (msg: RawMsg)
      ensures msg == Heartbeat(OwnCommon(State()), slaveState, approveState, cmdType).Frame()
    {
      var m := Heartbeat(CommonFields(deviceId, deviceType, errors as int), slaveState, approveState, cmdType);
      msg := m.ToRawMsg();
    }

    /** `getCmdMsg`: a Master's Cmd frame; a Slave's override returns the
        empty frame. */
    method GetCmdMsg() returns (msg: RawMsg)
      ensures deviceType == DeviceType.Slave ==> msg == EMPTY_FRAME
      ensures deviceType != DeviceType.Slave ==> msg == Cmd(OwnCommon(State()), cmdType).Frame()
    {
      if deviceType == DeviceType.Slave {
        msg := EMPTY_FRAME;
      } else {
        var m := Cmd(CommonFields(deviceId, deviceType, errors as int), cmdType);
        msg := m.ToRawMsg();
      }
    }
  }

  // ---------------------------------------------------------------------------
  // Invariants.

  lemma PushedValid(s: DeviceState, raw: RawMsg)
    requires StateValid(s)
    ensures StateValid(Pushed(s, raw).0)
  {
    var common := DecodeCommon(raw.dataL);
    if common.NotValid() == 0 {
      var r := Registered(s, common.deviceId, common.deviceType);
      if r.1 == 0 {
        DispatchedValid(r.0, common, raw);
      }
    }
  }

  lemma DispatchedValid(s: DeviceState, common: CommonFields, raw: RawMsg)
    requires StateValid(s) && IsCorrectId(common.deviceId)
    ensures StateValid(Dispatched(s, common, raw).0)
  {
    var kind := raw.canId % 256;
    if kind == CAN_ID_HEARTBEAT && raw.dlc == HEARTBEAT_DLC {
      DecodedStatesValid(raw.dataL);
      HeartbeatKeepsValid(s, HeartbeatOf(common, raw.dataL));
    }
  }

  lemma HeartbeatKeepsValid(s: DeviceState, m: Heartbeat)
    requires StateValid(s) && IsCorrectId(m.common.deviceId) && m.approveState != ApproveState.Invalid
    ensures StateValid(HeartbeatReceived(s, m).0)
  {
  }

  /** The transition does not look at the status byte. */
  lemma TransitionedIgnoresErrors(s: DeviceState, e: Status)
    ensures Transitioned(s.(errors := e)) == Transitioned(s).(errors := e)
  {
    var w := s.(errors := e);
    assert NoConnection(w) == NoConnection(s) by {
      assert w.respondedSlaves == s.respondedSlaves && w.respondedMasters == s.respondedMasters;
      assert w.numOfSlaves == s.numOfSlaves && w.numOfMasters == s.numOfMasters;
    }
  }

  /** The three steps of update() compose to Updated. */
  lemma UpdateSteps(s: DeviceState, y: DeviceState, z: DeviceState)
    requires y == Transitioned(s).(errors := ConnectionStatus(s))
    requires z == y.(errors := y.errors | StatusFlag(NoActiveSlave(y), STATUS_NO_ACTIVE_SLAVE))
    ensures Cleared(z) == Updated(s)
  {
  }

  lemma UpdatedValid(s: DeviceState)
    requires StateValid(s)
    ensures StateValid(Updated(s))
  {
  }

  /** `Slave::activate` keeps the invariant on a Slave, the only role that
      has it. */
  lemma ActivatedValid(s: DeviceState)
    requires StateValid(s)
    ensures s.deviceType == DeviceType.Slave ==> StateValid(Activated(s))
    ensures s.deviceType == DeviceType.Master && IsAnyCon(s) ==> !StateValid(Activated(s))
  {
  }

  /** `Slave::approve` keeps the invariant. */
  lemma ApprovedValid(s: DeviceState, c: CmdType)
    requires StateValid(s)
    ensures StateValid(ApproveCmd(s, c))
  {
  }

  /** `setCmdType` keeps the invariant, whatever the command. */
  lemma CmdTypeKeepsValid(s: DeviceState, c: CmdType)
    requires StateValid(s)
    ensures StateValid(WithCmdType(s, c))
  {
  }

  /** The three setters keep the invariant, whatever the value. */
  lemma SettersKeepValid(s: DeviceState, id: Char, n: nat)
    requires StateValid(s)
    ensures StateValid(s.(deviceId := id))
    ensures StateValid(s.(numOfMasters := n))
    ensures StateValid(s.(numOfSlaves := n))
  {
  }

  // ---------------------------------------------------------------------------
  // What pushMsg returns and records.

  /** b differs from a at most in the role state that the handlers write. */
  predicate OnlyRoleStateChanged(a: DeviceState, b: DeviceState)
  {
    && b.deviceType == a.deviceType && b.deviceId == a.deviceId && b.errors == a.errors
    && b.numOfMasters == a.numOfMasters && b.numOfSlaves == a.numOfSlaves
    && b.isAnyDuplicatedId == a.isAnyDuplicatedId && b.isAnyActiveSlave == a.isAnyActiveSlave
    && b.respondedSlaves == a.respondedSlaves && b.respondedMasters == a.respondedMasters
    && b.isActivating == a.isActivating
  }

  /** The frame kinds pushMsg knows, each with its declared length. */
  predicate KnownFrame(raw: RawMsg)
  {
    var kind := raw.canId % 256;
    || (kind == CAN_ID_ACTIVATE && raw.dlc == ACTIVATE_DLC)
    || (kind == CAN_ID_HEARTBEAT && raw.dlc == HEARTBEAT_DLC)
    || (kind == CAN_ID_CMD && raw.dlc == CMD_DLC)
  }

  /** The handler pushMsg would call for a frame, applied to a state. */
  function Handled(s: DeviceState, common: CommonFields, raw: RawMsg): DeviceState
    requires IsCorrectId(common.deviceId)
  {
    var kind := raw.canId % 256;
    if kind == CAN_ID_ACTIVATE then OnActivate(s, Protocol.Activate(common))
    else if kind == CAN_ID_HEARTBEAT then OnHeartbeat(s, HeartbeatOf(common, raw.dataL))
    else if kind == CAN_ID_CMD then OnCmd(s, Cmd(common, DecodeCmdType(raw.dataL)))
    else s
  }

  /** The handlers write the role state only. */
  lemma HandledRoleStateOnly(s: DeviceState, common: CommonFields, raw: RawMsg)
    requires IsCorrectId(common.deviceId)
    ensures OnlyRoleStateChanged(s, Handled(s, common, raw))
  {
    var kind := raw.canId % 256;
    if kind == CAN_ID_HEARTBEAT {
      HeartbeatRoleStateOnly(s, HeartbeatOf(common, raw.dataL));
    } else if kind == CAN_ID_CMD {
      var c := Cmd(common, DecodeCmdType(raw.dataL));
      assert Handled(s, common, raw) == OnCmd(s, c);
    } else if kind == CAN_ID_ACTIVATE {
      assert Handled(s, common, raw) == OnActivate(s, Protocol.Activate(common));
    }
  }

  lemma HeartbeatRoleStateOnly(s: DeviceState, m: Heartbeat)
    requires IsCorrectId(m.common.deviceId)
    ensures OnlyRoleStateChanged(s, OnHeartbeat(s, m))
  {
  }

  /** After registration: a zero mask exactly for a known frame whose message
      validates, and then the handler has run; otherwise nothing changed. */
  lemma DispatchedHandlerIffZero(s: DeviceState, common: CommonFields, raw: RawMsg)
    requires IsCorrectId(common.deviceId) && common.deviceType != DeviceType.Invalid
    ensures Dispatched(s, common, raw).1 == 0
        <==> KnownFrame(raw) && (raw.canId % 256 == CAN_ID_ACTIVATE || DecodeCmdType(raw.dataL) != CmdType.Invalid)
    ensures Dispatched(s, common, raw).1 == 0 ==> Dispatched(s, common, raw).0 == Handled(s, common, raw)
    ensures Dispatched(s, common, raw).1 != 0 ==> Dispatched(s, common, raw).0 == s
  {
    ConstantsDistinct();
    var kind := raw.canId % 256;
    if kind == CAN_ID_HEARTBEAT && raw.dlc == HEARTBEAT_DLC {
      DecodedStatesValid(raw.dataL);
    }
  }

  /** A frame whose id or type does not decode is refused with exactly those
      bits, and nothing is recorded. */
  lemma PushInvalidCommon(s: DeviceState, raw: RawMsg)
    requires DecodeCommon(raw.dataL).NotValid() != 0
    ensures Pushed(s, raw) == (s, DecodeCommon(raw.dataL).NotValid())
    ensures Pushed(s, raw).1 & !(Bit(ERR_INVALID_DEVICE_ID) | Bit(ERR_INVALID_DEVICE_TYPE)) == 0
  {
  }

  /** A frame that carries the node's own id: exactly the duplicate bit, the
      duplicate flag set, and neither responded set touched, whatever the
      sender's type. */
  lemma PushDuplicate(s: DeviceState, raw: RawMsg)
    requires DecodeCommon(raw.dataL).NotValid() == 0 && DecodeCommon(raw.dataL).deviceId == s.deviceId
    ensures Pushed(s, raw) == (s.(isAnyDuplicatedId := true), Bit(ERR_DUPLICATED_DEVICE_ID))
  {
  }

  /** Any other valid sender is recorded at slot id - 1, which is below 12,
      in the set of its type, whatever the rest of the frame holds; besides
      that only the role state may change. */
  lemma PushRegisters(s: DeviceState, raw: RawMsg)
    requires DecodeCommon(raw.dataL).NotValid() == 0 && DecodeCommon(raw.dataL).deviceId != s.deviceId
    ensures 0 <= DecodeCommon(raw.dataL).deviceId - 1 < MAX_DEVICE_ID as int
    ensures SenderRecorded(s, Pushed(s, raw).0, DecodeCommon(raw.dataL).deviceId, DecodeCommon(raw.dataL).deviceType)
    ensures OnlyRoleStateChanged(Registered(s, DecodeCommon(raw.dataL).deviceId, DecodeCommon(raw.dataL).deviceType).0,
                                 Pushed(s, raw).0)
  {
    var c := DecodeCommon(raw.dataL);
    DeviceIdRange(c.deviceId);
    PushedRegistered(s, raw);
    var reg := Registered(s, c.deviceId, c.deviceType).0;
    DispatchedRoleStateOnly(reg, c, raw);
    RegisteredRecords(s, c.deviceId, c.deviceType);
    RecordedKept(s, reg, Dispatched(reg, c, raw).0, c.deviceId, c.deviceType);
  }

  /** A valid frame from another node is dispatched on the registered state. */
  lemma PushedRegistered(s: DeviceState, raw: RawMsg)
    requires DecodeCommon(raw.dataL).NotValid() == 0 && DecodeCommon(raw.dataL).deviceId != s.deviceId
    ensures var c := DecodeCommon(raw.dataL);
      Pushed(s, raw) == Dispatched(Registered(s, c.deviceId, c.deviceType).0, c, raw)
  {
  }

  /** Dispatching writes the role state only. */
  lemma DispatchedRoleStateOnly(s: DeviceState, common: CommonFields, raw: RawMsg)
    requires IsCorrectId(common.deviceId) && common.deviceType != DeviceType.Invalid
    ensures OnlyRoleStateChanged(s, Dispatched(s, common, raw).0)
  {
    DispatchedHandlerIffZero(s, common, raw);
    HandledRoleStateOnly(s, common, raw);
  }

  lemma RecordedKept(s: DeviceState, reg: DeviceState, r: DeviceState, id: Char, t: DeviceType)
    requires IsCorrectId(id)
    requires SenderRecorded(s, reg, id, t) && OnlyRoleStateChanged(reg, r)
    ensures SenderRecorded(s, r, id, t)
  {
  }

  /** r records a sender with id and type t in the set of its type, at
      slot id - 1, and the other set is as in s. */
  predicate SenderRecorded(s: DeviceState, r: DeviceState, id: Char, t: DeviceType)
    requires IsCorrectId(id)
  {
    && r.respondedSlaves == (if t == DeviceType.Slave then s.respondedSlaves + {id - 1} else s.respondedSlaves)
    && r.respondedMasters == (if t == DeviceType.Master then s.respondedMasters + {id - 1} else s.respondedMasters)
  }

  /** registerResponderId leaves the role state as it is. */
  lemma RegisteredKeepsRoleState(s: DeviceState, id: Char, t: DeviceType)
    requires IsCorrectId(id)
    ensures var r := Registered(s, id, t).0;
      && r.deviceType == s.deviceType && r.slaveState == s.slaveState && r.cmdType == s.cmdType
      && r.approveState == s.approveState && r.activeSlaves == s.activeSlaves
  {
  }

  /** registerResponderId for another node of a valid type: one slot added
      to the set of that type, and nothing else. */
  lemma RegisteredRecords(s: DeviceState, id: Char, t: DeviceType)
    requires IsCorrectId(id) && id != s.deviceId && t != DeviceType.Invalid
    ensures Registered(s, id, t).1 == 0
    ensures SenderRecorded(s, Registered(s, id, t).0, id, t)
  {
  }

  /** After registration an unknown CAN id gives exactly its bit. */
  lemma PushUnknownCanId(s: DeviceState, raw: RawMsg)
    requires DecodeCommon(raw.dataL).NotValid() == 0 && DecodeCommon(raw.dataL).deviceId != s.deviceId
    requires raw.canId % 256 != CAN_ID_ACTIVATE && raw.canId % 256 != CAN_ID_HEARTBEAT && raw.canId % 256 != CAN_ID_CMD
    ensures Pushed(s, raw)
         == (Registered(s, DecodeCommon(raw.dataL).deviceId, DecodeCommon(raw.dataL).deviceType).0, Bit(ERR_INVALID_CAN_ID))
  {
  }

  /** After registration a known kind with the wrong length gives exactly
      the length bit, and no handler runs. */
  lemma PushBadLength(s: DeviceState, raw: RawMsg)
    requires DecodeCommon(raw.dataL).NotValid() == 0 && DecodeCommon(raw.dataL).deviceId != s.deviceId
    requires || (raw.canId % 256 == CAN_ID_ACTIVATE && raw.dlc != ACTIVATE_DLC)
             || (raw.canId % 256 == CAN_ID_HEARTBEAT && raw.dlc != HEARTBEAT_DLC)
             || (raw.canId % 256 == CAN_ID_CMD && raw.dlc != CMD_DLC)
    ensures Pushed(s, raw)
         == (Registered(s, DecodeCommon(raw.dataL).deviceId, DecodeCommon(raw.dataL).deviceType).0, Bit(ERR_INVALID_CAN_DLC))
  {
    ConstantsDistinct();
  }

  /** pushMsg returns 0 exactly when the frame is accepted: valid common
      fields from another node, a known kind with its length, and (for a
      Heartbeat or a Cmd) a valid command type.  Then the handler has run on
      the registered state; otherwise no handler ran and the role state is
      as before. */
  lemma PushHandlerIffZero(s: DeviceState, raw: RawMsg)
    ensures var c := DecodeCommon(raw.dataL);
      Pushed(s, raw).1 == 0
      <==> && c.NotValid() == 0 && c.deviceId != s.deviceId && KnownFrame(raw)
           && (raw.canId % 256 == CAN_ID_ACTIVATE || DecodeCmdType(raw.dataL) != CmdType.Invalid)
    ensures var c := DecodeCommon(raw.dataL);
      Pushed(s, raw).1 == 0
      ==> && IsCorrectId(c.deviceId) && c.deviceType != DeviceType.Invalid
          && Pushed(s, raw).0 == Handled(Registered(s, c.deviceId, c.deviceType).0, c, raw)
    ensures var r := Pushed(s, raw).0;
      Pushed(s, raw).1 != 0
      ==> r == s.(respondedSlaves := r.respondedSlaves, respondedMasters := r.respondedMasters,
                  isAnyDuplicatedId := r.isAnyDuplicatedId)
  {
    var c := DecodeCommon(raw.dataL);
    if c.NotValid() == 0 && c.deviceId != s.deviceId {
      var reg := Registered(s, c.deviceId, c.deviceType);
      DispatchedHandlerIffZero(reg.0, c, raw);
    }
  }

  /** A Heartbeat or a Cmd with bit 24 set is always refused with exactly the
      invalid-command bit, since the command type is read 7 bits wide. */
  lemma PushBit24(s: DeviceState, raw: RawMsg)
    requires DecodeCommon(raw.dataL).NotValid() == 0 && DecodeCommon(raw.dataL).deviceId != s.deviceId
    requires || (raw.canId % 256 == CAN_ID_HEARTBEAT && raw.dlc == HEARTBEAT_DLC)
             || (raw.canId % 256 == CAN_ID_CMD && raw.dlc == CMD_DLC)
    requires FieldValue(raw.dataL, 3, 0, 1) == 1
    ensures Pushed(s, raw)
         == (Registered(s, DecodeCommon(raw.dataL).deviceId, DecodeCommon(raw.dataL).deviceType).0,
             Bit(ERR_INVALID_CMD_TYPE))
  {
    ConstantsDistinct();
    DecodedCmdInvalid(raw.dataL);
    DecodedStatesValid(raw.dataL);
  }

  /** The mask pushMsg returns uses only the eight error positions and never
      reports an invalid slave or approve state: one-bit fields cannot hold
      an out-of-range value. */
  lemma PushMaskBits(s: DeviceState, raw: RawMsg)
    ensures Pushed(s, raw).1 & 0xFF00 == 0
    ensures !Has(Pushed(s, raw).1, ERR_INVALID_SLAVE_STATE) && !Has(Pushed(s, raw).1, ERR_INVALID_APPROVE_STATE)
  {
    var c := DecodeCommon(raw.dataL);
    if c.NotValid() == 0 && c.deviceId != s.deviceId {
      DispatchedMaskBits(Registered(s, c.deviceId, c.deviceType).0, c, raw);
    }
  }

  lemma DispatchedMaskBits(s: DeviceState, common: CommonFields, raw: RawMsg)
    requires common.NotValid() == 0
    ensures Dispatched(s, common, raw).1 & 0xFF00 == 0
    ensures !Has(Dispatched(s, common, raw).1, ERR_INVALID_SLAVE_STATE)
    ensures !Has(Dispatched(s, common, raw).1, ERR_INVALID_APPROVE_STATE)
  {
    var kind := raw.canId % 256;
    if kind == CAN_ID_HEARTBEAT && raw.dlc == HEARTBEAT_DLC {
      DecodedStatesValid(raw.dataL);
    } else if kind == CAN_ID_CMD && raw.dlc == CMD_DLC {
      var m := Cmd(common, DecodeCmdType(raw.dataL));
      assert m.NotValid() == FlagIf(m.cmdType == CmdType.Invalid, ERR_INVALID_CMD_TYPE);
    }
  }

  // ---------------------------------------------------------------------------
  // What update() leaves.

  /** Every all-lost condition implies the matching some-lost one. */
  lemma LostImpliesSomeLost(s: DeviceState)
    ensures ConWithAllSlavesLost(s) ==> ConWithSomeSlavesLost(s)
    ensures ConWithAllMastersLost(s) ==> ConWithSomeMastersLost(s)
  {
  }

  /** The status byte update() builds from zero: each bit is set exactly
      when its condition held over the period that ends, the no-active-slave
      bit judged after the transition; bit 7 is never set. */
  lemma UpdatedStatus(s: DeviceState)
    ensures var e := Updated(s).errors;
      && (StatusHas(e, STATUS_DUPLICATED_DEVICE_ID) <==> s.isAnyDuplicatedId)
      && (StatusHas(e, STATUS_CON_WITH_SOME_SLAVES_LOST) <==> ConWithSomeSlavesLost(s))
      && (StatusHas(e, STATUS_CON_WITH_ALL_SLAVES_LOST) <==> ConWithAllSlavesLost(s))
      && (StatusHas(e, STATUS_CON_WITH_SOME_MASTERS_LOST) <==> ConWithSomeMastersLost(s))
      && (StatusHas(e, STATUS_CON_WITH_ALL_MASTERS_LOST) <==> ConWithAllMastersLost(s))
      && (StatusHas(e, STATUS_NO_CONNECTION) <==> NoConnection(s))
      && (StatusHas(e, STATUS_NO_ACTIVE_SLAVE) <==> NoActiveSlave(Transitioned(s)))
      && e < 0x80
  {
    var mid := Transitioned(s);
    StatusByte(s.isAnyDuplicatedId, ConWithSomeSlavesLost(s), ConWithAllSlavesLost(s),
               ConWithSomeMastersLost(s), ConWithAllMastersLost(s), NoConnection(s), NoActiveSlave(mid));
  }

  /** Seven flags OR-ed into their positions can each be read back. */
  lemma StatusByte(b0: bool, b1: bool, b2: bool, b3: bool, b4: bool, b5: bool, b6: bool)
    ensures var e := StatusFlag(b0, 0) | StatusFlag(b1, 1) | StatusFlag(b2, 2) | StatusFlag(b3, 3)
                   | StatusFlag(b4, 4) | StatusFlag(b5, 5) | StatusFlag(b6, 6);
      && (StatusHas(e, 0) <==> b0) && (StatusHas(e, 1) <==> b1) && (StatusHas(e, 2) <==> b2)
      && (StatusHas(e, 3) <==> b3) && (StatusHas(e, 4) <==> b4) && (StatusHas(e, 5) <==> b5)
      && (StatusHas(e, 6) <==> b6) && e < 0x80
  {
  }

  /** The queries read the new status byte: connected unless no connection
      was left, some connection lost, an active slave seen or the node
      itself active, and an error whenever any condition held. */
  lemma UpdatedQueries(s: DeviceState)
    ensures IsAnyCon(Updated(s)) <==> !NoConnection(s)
    ensures IsAnyConLost(Updated(s)) <==> ConWithSomeSlavesLost(s) || ConWithSomeMastersLost(s)
    ensures IsAnyActiveSlave(Updated(s)) <==> !NoActiveSlave(Transitioned(s))
    ensures IsAnyError(Updated(s))
        <==> s.isAnyDuplicatedId || ConWithSomeSlavesLost(s) || ConWithSomeMastersLost(s)
             || NoConnection(s) || NoActiveSlave(Transitioned(s))
    ensures StatusHas(Updated(s).errors, STATUS_CON_WITH_ALL_SLAVES_LOST)
        ==> StatusHas(Updated(s).errors, STATUS_CON_WITH_SOME_SLAVES_LOST)
    ensures StatusHas(Updated(s).errors, STATUS_CON_WITH_ALL_MASTERS_LOST)
        ==> StatusHas(Updated(s).errors, STATUS_CON_WITH_SOME_MASTERS_LOST)
  {
    UpdatedStatus(s);
    LostImpliesSomeLost(s);
    var e := Updated(s).errors;
    if e == 0 {
      assert !StatusHas(e, 0) && !StatusHas(e, 1) && !StatusHas(e, 3) && !StatusHas(e, 5) && !StatusHas(e, 6);
    }
  }

  /** update() clears the period's records and flags and keeps the
      configuration and the command; a Master keeps its slave state, a
      Slave drops its activation request. */
  lemma UpdatedClears(s: DeviceState)
    ensures var u := Updated(s);
      && u.activeSlaves == {} && u.respondedSlaves == {} && u.respondedMasters == {}
      && !u.isAnyDuplicatedId && !u.isAnyActiveSlave
      && u.deviceType == s.deviceType && u.deviceId == s.deviceId
      && u.numOfMasters == s.numOfMasters && u.numOfSlaves == s.numOfSlaves
      && u.cmdType == s.cmdType && u.approveState == s.approveState
      && (s.deviceType == DeviceType.Master ==> u.slaveState == s.slaveState && u.isActivating == s.isActivating)
      && (s.deviceType != DeviceType.Master ==> !u.isActivating)
  {
  }

  // ---------------------------------------------------------------------------
  // Frames from another node, as its encoders build them.

  /** The common fields a node can be heard with: a valid id and type. */
  predicate ValidSender(c: CommonFields)
  {
    IsCorrectId(c.deviceId) && c.deviceType != DeviceType.Invalid
  }

  /** The Activate frame of another valid node is accepted and handed to
      pushActivate with exactly the fields that were sent. */
  lemma ActivateDelivered(s: DeviceState, c: CommonFields)
    requires ValidSender(c) && c.deviceId != s.deviceId
    ensures Pushed(s, Protocol.Activate(c).Frame())
         == (OnActivate(Registered(s, c.deviceId, c.deviceType).0, Protocol.Activate(c)), 0)
  {
    var raw := Protocol.Activate(c).Frame();
    ActivateRoundTrip(Protocol.Activate(c));
    DeviceIdRange(c.deviceId);
    DivModUnique(c.deviceId, 64, 0, c.deviceId);
    assert CommonFields(c.deviceId % 64, c.deviceType, c.errors) == c;
    ActivateAccepted(s, raw, c);
  }

  /** raw is an Activate frame of the right length whose common fields read
      as c. */
  predicate ActivateFrame(raw: RawMsg, c: CommonFields)
  {
    raw.canId == CAN_ID_ACTIVATE && raw.dlc == ACTIVATE_DLC && DecodeCommon(raw.dataL) == c
  }

  /** raw is a Heartbeat frame of the right length whose fields read as m. */
  predicate HeartbeatFrame(raw: RawMsg, m: Heartbeat)
  {
    && raw.canId == CAN_ID_HEARTBEAT && raw.dlc == HEARTBEAT_DLC
    && DecodeCommon(raw.dataL) == m.common && HeartbeatOf(m.common, raw.dataL) == m
  }

  /** raw is a Cmd frame of the right length whose fields read as m. */
  predicate CmdFrame(raw: RawMsg, m: Cmd)
  {
    && raw.canId == CAN_ID_CMD && raw.dlc == CMD_DLC
    && DecodeCommon(raw.dataL) == m.common && DecodeCmdType(raw.dataL) == m.cmdType
  }

  /** Any Activate frame from another valid node is handed to pushActivate
      with the fields it carries. */
  lemma ActivateAccepted(s: DeviceState, raw: RawMsg, c: CommonFields)
    requires ValidSender(c) && c.deviceId != s.deviceId && ActivateFrame(raw, c)
    ensures Pushed(s, raw) == (OnActivate(Registered(s, c.deviceId, c.deviceType).0, Protocol.Activate(c)), 0)
  {
    PushedRegistered(s, raw);
    var reg := Registered(s, c.deviceId, c.deviceType).0;
    ConstantsDistinct();
    assert Protocol.Activate(c).NotValid() == 0;
    assert Dispatched(reg, c, raw) == ActivateReceived(reg, Protocol.Activate(c));
  }

  /** The Heartbeat frame of another valid node with valid states and a
      valid command is accepted and handed to pushHeartbeat unchanged. */
  lemma HeartbeatDelivered(s: DeviceState, m: Heartbeat)
    requires ValidSender(m.common) && m.common.deviceId != s.deviceId
    requires m.slaveState != SlaveState.Invalid && m.approveState != ApproveState.Invalid
    requires m.cmdType != CmdType.Invalid
    ensures Pushed(s, m.Frame())
         == (OnHeartbeat(Registered(s, m.common.deviceId, m.common.deviceType).0, m), 0)
  {
    var raw := m.Frame();
    var c := m.common;
    HeartbeatRoundTrip(m);
    DeviceIdRange(c.deviceId);
    DivModUnique(c.deviceId, 64, 0, c.deviceId);
    assert CommonFields(c.deviceId % 64, c.deviceType, c.errors) == c;
    assert DecodeCommon(raw.dataL) == c;
    assert HeartbeatOf(c, raw.dataL) == m;
    HeartbeatAccepted(s, raw, m);
  }

  /** Any Heartbeat frame from another valid node with a valid command is
      handed to pushHeartbeat with the fields it carries. */
  lemma HeartbeatAccepted(s: DeviceState, raw: RawMsg, m: Heartbeat)
    requires ValidSender(m.common) && m.common.deviceId != s.deviceId
    requires m.cmdType != CmdType.Invalid && HeartbeatFrame(raw, m)
    ensures Pushed(s, raw) == (OnHeartbeat(Registered(s, m.common.deviceId, m.common.deviceType).0, m), 0)
  {
    DecodedStatesValid(raw.dataL);
    PushedRegistered(s, raw);
    var reg := Registered(s, m.common.deviceId, m.common.deviceType).0;
    ConstantsDistinct();
    assert m.NotValid() == 0;
    assert Dispatched(reg, m.common, raw) == HeartbeatReceived(reg, m);
  }

  /** The Cmd frame of another valid node with a valid command is accepted
      and handed to pushCmd unchanged. */
  lemma CmdDelivered(s: DeviceState, m: Cmd)
    requires ValidSender(m.common) && m.common.deviceId != s.deviceId && m.cmdType != CmdType.Invalid
    ensures Pushed(s, m.Frame()) == (OnCmd(Registered(s, m.common.deviceId, m.common.deviceType).0, m), 0)
  {
    var raw := m.Frame();
    var c := m.common;
    CmdRoundTrip(m);
    DeviceIdRange(c.deviceId);
    DivModUnique(c.deviceId, 64, 0, c.deviceId);
    assert CommonFields(c.deviceId % 64, c.deviceType, c.errors) == c;
    CmdAccepted(s, raw, m);
  }

  /** Any Cmd frame from another valid node with a valid command is handed
      to pushCmd with the fields it carries. */
  lemma CmdAccepted(s: DeviceState, raw: RawMsg, m: Cmd)
    requires ValidSender(m.common) && m.common.deviceId != s.deviceId && m.cmdType != CmdType.Invalid
    requires CmdFrame(raw, m)
    ensures Pushed(s, raw) == (OnCmd(Registered(s, m.common.deviceId, m.common.deviceType).0, m), 0)
  {
    PushedRegistered(s, raw);
    var reg := Registered(s, m.common.deviceId, m.common.deviceType).0;
    ConstantsDistinct();
    assert Cmd(m.common, DecodeCmdType(raw.dataL)) == m;
    assert Dispatched(reg, m.common, raw) == CmdReceived(reg, m);
  }

  /** The configuration, the status byte and the activation request are the
      same in a and b. */
  predicate SameConfiguration(a: DeviceState, b: DeviceState)
  {
    && b.deviceType == a.deviceType && b.deviceId == a.deviceId && b.errors == a.errors
    && b.numOfMasters == a.numOfMasters && b.numOfSlaves == a.numOfSlaves
    && b.isActivating == a.isActivating && b.isAnyActiveSlave == a.isAnyActiveSlave
  }

  /** pushMsg never changes the role, the id, the expected counts, the
      status byte or the activation request. */
  lemma PushedKeepsConfiguration(s: DeviceState, raw: RawMsg)
    ensures SameConfiguration(s, Pushed(s, raw).0)
  {
    var c := DecodeCommon(raw.dataL);
    if c.NotValid() == 0 && c.deviceId != s.deviceId {
      PushedRegistered(s, raw);
      var reg := Registered(s, c.deviceId, c.deviceType).0;
      DispatchedRoleStateOnly(reg, c, raw);
    }
  }
}
