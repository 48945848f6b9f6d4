/**
 * The Master's overrides (src/Master.cpp), stated on the node model of
 * module Devices for a node whose device type is MASTER.  The frames in
 * these lemmas are the ones another node's encoders build, so each lemma
 * follows a message from the sender's encoder through pushMsg to the
 * Master's handler.
 */
module Masters {
  import opened Protocol
  import opened Devices

  predicate IsMaster(s: DeviceState)
  {
    s.deviceType == DeviceType.Master
  }

  /** `Master::pushActivate`: an accepted Activate frame only registers its
      sender. */
  lemma MasterIgnoresActivate(s: DeviceState, c: CommonFields)
    requires IsMaster(s) && ValidSender(c) && c.deviceId != s.deviceId
    ensures Pushed(s, Protocol.Activate(c).Frame()) == (Registered(s, c.deviceId, c.deviceType).0, 0)
  {
    ActivateDelivered(s, c);
  }

  /** `Master::pushHeartbeat` for an ACTIVE slave: once the slave is
      registered, the Master adopts its command and approval (the approval
      overwriting the NOT_APPROVED that setCmdType writes) and marks it
      active. */
  lemma MasterHearsActiveSlave(s: DeviceState, m: Heartbeat)
    requires IsMaster(s) && ValidSender(m.common) && m.common.deviceId != s.deviceId
    requires m.common.deviceType == DeviceType.Slave && m.slaveState == Active
    requires m.approveState != ApproveState.Invalid && m.cmdType != CmdType.Invalid
    ensures Pushed(s, m.Frame())
         == (Registered(s, m.common.deviceId, m.common.deviceType).0.(
               cmdType := m.cmdType, approveState := m.approveState,
               activeSlaves := s.activeSlaves + {m.common.deviceId - 1}), 0)
  {
    HeartbeatDelivered(s, m);
    RegisteredKeepsRoleState(s, m.common.deviceId, m.common.deviceType);
    OnHeartbeatMaster(Registered(s, m.common.deviceId, m.common.deviceType).0, m);
  }

  /** `Master::pushHeartbeat` for a NOT_ACTIVE slave: once the slave is
      registered, only its active mark is cleared. */
  lemma MasterHearsIdleSlave(s: DeviceState, m: Heartbeat)
    requires IsMaster(s) && ValidSender(m.common) && m.common.deviceId != s.deviceId
    requires m.common.deviceType == DeviceType.Slave && m.slaveState == NotActive
    requires m.approveState != ApproveState.Invalid && m.cmdType != CmdType.Invalid
    ensures Pushed(s, m.Frame())
         == (Registered(s, m.common.deviceId, m.common.deviceType).0.(
               activeSlaves := s.activeSlaves - {m.common.deviceId - 1}), 0)
  {
    HeartbeatDelivered(s, m);
    RegisteredKeepsRoleState(s, m.common.deviceId, m.common.deviceType);
    OnHeartbeatMaster(Registered(s, m.common.deviceId, m.common.deviceType).0, m);
  }

  /** `Master::pushHeartbeat` for another Master: only the sender is
      registered. */
  lemma MasterIgnoresMasterHeartbeat(s: DeviceState, m: Heartbeat)
    requires IsMaster(s) && ValidSender(m.common) && m.common.deviceId != s.deviceId
    requires m.common.deviceType == DeviceType.Master
    requires m.slaveState != SlaveState.Invalid && m.approveState != ApproveState.Invalid
    requires m.cmdType != CmdType.Invalid
    ensures Pushed(s, m.Frame()) == (Registered(s, m.common.deviceId, m.common.deviceType).0, 0)
  {
    HeartbeatDelivered(s, m);
    RegisteredKeepsRoleState(s, m.common.deviceId, m.common.deviceType);
    OnHeartbeatMaster(Registered(s, m.common.deviceId, m.common.deviceType).0, m);
  }

  /** The Master's heartbeat handler on a state of any history. */
  lemma OnHeartbeatMaster(s: DeviceState, m: Heartbeat)
    requires IsMaster(s) && IsCorrectId(m.common.deviceId)
    ensures m.common.deviceType == DeviceType.Slave && m.slaveState == Active
        ==> OnHeartbeat(s, m) == s.(cmdType := m.cmdType, approveState := m.approveState,
                                    activeSlaves := s.activeSlaves + {m.common.deviceId - 1})
    ensures m.common.deviceType == DeviceType.Slave && m.slaveState != Active
        ==> OnHeartbeat(s, m) == s.(activeSlaves := s.activeSlaves - {m.common.deviceId - 1})
    ensures m.common.deviceType != DeviceType.Slave ==> OnHeartbeat(s, m) == s
  {
  }

  /** `Master::pushCmd`: a command from a sender of either type replaces the
      Master's and waits for approval again. */
  lemma MasterTakesAnyCmd(s: DeviceState, m: Cmd)
    requires IsMaster(s) && ValidSender(m.common) && m.common.deviceId != s.deviceId
    requires m.cmdType != CmdType.Invalid
    ensures Pushed(s, m.Frame())
         == (Registered(s, m.common.deviceId, m.common.deviceType).0.(cmdType := m.cmdType, approveState := NotApproved), 0)
  {
    CmdDelivered(s, m);
  }

  /** `Master::setCmdType`: the new command is never approved yet. */
  lemma MasterCmdNeedsApproval(s: DeviceState, c: CmdType)
    requires IsMaster(s)
    ensures WithCmdType(s, c) == s.(cmdType := c, approveState := NotApproved)
  {
  }

  /** `Master::update`: since a Master's own state stays NOT_ACTIVE, the
      no-active-slave bit is set exactly when no slave reported ACTIVE in
      the period. */
  lemma MasterNoActiveSlave(s: DeviceState)
    requires StateValid(s) && IsMaster(s)
    ensures StatusHas(Updated(s).errors, STATUS_NO_ACTIVE_SLAVE) <==> s.activeSlaves == {}
  {
    UpdatedStatus(s);
    assert |s.activeSlaves| == 0 <==> s.activeSlaves == {};
  }

  /** A Master stays a Master and stays NOT_ACTIVE, whatever it receives and
      at every period's end. */
  lemma MasterNeverActive(s: DeviceState, raw: RawMsg)
    requires StateValid(s) && IsMaster(s)
    ensures IsMaster(Pushed(s, raw).0) && Pushed(s, raw).0.slaveState == NotActive
    ensures IsMaster(Updated(s)) && Updated(s).slaveState == NotActive
  {
    PushedValid(s, raw);
    PushedKeepsConfiguration(s, raw);
  }
}
