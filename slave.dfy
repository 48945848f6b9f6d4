/**
 * The Slave's overrides (src/Slave.cpp), stated on the node model of module
 * Devices for a node whose device type is SLAVE: how it reacts to other
 * nodes' frames, its transition at the end of a period, and the
 * activation request and approval the application makes.
 */
module Slaves {
  import opened Protocol
  import opened Devices

  predicate IsSlave(s: DeviceState)
  {
    s.deviceType == DeviceType.Slave
  }

  /** `Slave::pushActivate`: another Slave asking to activate makes this one
      give way at once. */
  lemma SlaveYieldsToSlave(s: DeviceState, c: CommonFields)
    requires IsSlave(s) && ValidSender(c) && c.deviceId != s.deviceId && c.deviceType == DeviceType.Slave
    ensures Pushed(s, Protocol.Activate(c).Frame())
         == (s.(respondedSlaves := s.respondedSlaves + {c.deviceId - 1}, slaveState := NotActive), 0)
  {
    ActivateDelivered(s, c);
    SlaveActivateHandled(s, c);
  }

  /** The two steps of a received Activate frame on a Slave: registration,
      then pushActivate. */
  lemma SlaveActivateHandled(s: DeviceState, c: CommonFields)
    requires IsSlave(s) && ValidSender(c) && c.deviceId != s.deviceId
    ensures OnActivate(Registered(s, c.deviceId, c.deviceType).0, Protocol.Activate(c))
         == if c.deviceType == DeviceType.Slave
            then s.(respondedSlaves := s.respondedSlaves + {c.deviceId - 1}, slaveState := NotActive)
            else s.(respondedMasters := s.respondedMasters + {c.deviceId - 1})
  {
  }

  /** `Slave::pushActivate`: a Master's Activate frame only registers it. */
  lemma SlaveIgnoresMasterActivate(s: DeviceState, c: CommonFields)
    requires IsSlave(s) && ValidSender(c) && c.deviceId != s.deviceId && c.deviceType == DeviceType.Master
    ensures Pushed(s, Protocol.Activate(c).Frame())
         == (s.(respondedMasters := s.respondedMasters + {c.deviceId - 1}), 0)
  {
    ActivateDelivered(s, c);
    SlaveActivateHandled(s, c);
  }

  /** `Slave::pushHeartbeat` does not look at the sender's type. */
  lemma SlaveHeartbeatAnySender(s: DeviceState, m: Heartbeat, t: DeviceType)
    requires IsSlave(s) && IsCorrectId(m.common.deviceId)
    ensures OnHeartbeat(s, m) == OnHeartbeat(s, m.(common := m.common.(deviceType := t)))
  {
  }

  /** An ACTIVE heartbeat from any other node: the Slave adopts its command
      and approval and marks the sender active. */
  lemma SlaveHearsActive(s: DeviceState, m: Heartbeat)
    requires IsSlave(s) && ValidSender(m.common) && m.common.deviceId != s.deviceId
    requires m.slaveState == Active && m.approveState != ApproveState.Invalid && m.cmdType != CmdType.Invalid
    ensures var i := m.common.deviceId - 1;
      Pushed(s, m.Frame())
      == (Registered(s, m.common.deviceId, m.common.deviceType).0.(
            cmdType := m.cmdType, approveState := m.approveState, activeSlaves := s.activeSlaves + {i}), 0)
  {
    HeartbeatDelivered(s, m);
    RegisteredKeepsRoleState(s, m.common.deviceId, m.common.deviceType);
    OnHeartbeatSlave(Registered(s, m.common.deviceId, m.common.deviceType).0, m);
  }

  /** The Slave's heartbeat handler on a state of any history. */
  lemma OnHeartbeatSlave(s: DeviceState, m: Heartbeat)
    requires IsSlave(s) && IsCorrectId(m.common.deviceId)
    ensures m.slaveState == Active
        ==> OnHeartbeat(s, m) == s.(cmdType := m.cmdType, approveState := m.approveState,
                                    activeSlaves := s.activeSlaves + {m.common.deviceId - 1})
    ensures m.slaveState == NotActive
        ==> OnHeartbeat(s, m) == s.(activeSlaves := s.activeSlaves - {m.common.deviceId - 1})
  {
  }

  /** A NOT_ACTIVE heartbeat from any other node only clears its active
      mark. */
  lemma SlaveHearsIdle(s: DeviceState, m: Heartbeat)
    requires IsSlave(s) && ValidSender(m.common) && m.common.deviceId != s.deviceId
    requires m.slaveState == NotActive && m.approveState != ApproveState.Invalid && m.cmdType != CmdType.Invalid
    ensures Pushed(s, m.Frame())
         == (Registered(s, m.common.deviceId, m.common.deviceType).0.(
               activeSlaves := s.activeSlaves - {m.common.deviceId - 1}), 0)
  {
    HeartbeatDelivered(s, m);
    RegisteredKeepsRoleState(s, m.common.deviceId, m.common.deviceType);
    OnHeartbeatSlave(Registered(s, m.common.deviceId, m.common.deviceType).0, m);
  }

  /** `Slave::pushCmd`: only a Master's command is taken, and it waits for
      approval; another Slave's command only registers its sender. */
  lemma SlaveCmdOnlyFromMaster(s: DeviceState, m: Cmd)
    requires IsSlave(s) && ValidSender(m.common) && m.common.deviceId != s.deviceId
    requires m.cmdType != CmdType.Invalid
    ensures var reg := Registered(s, m.common.deviceId, m.common.deviceType).0;
      Pushed(s, m.Frame())
      == (if m.common.deviceType == DeviceType.Master then reg.(cmdType := m.cmdType, approveState := NotApproved)
          else reg, 0)
  {
    CmdDelivered(s, m);
  }

  /** `Slave::setCmdType` leaves the approval as it is. */
  lemma SlaveCmdTypeKeepsApproval(s: DeviceState, c: CmdType)
    requires IsSlave(s)
    ensures WithCmdType(s, c) == s.(cmdType := c)
  {
  }

  /** Whether an active slave was heard in the period that ends. */
  predicate HeardActiveSlave(s: DeviceState)
  {
    s.isAnyActiveSlave || s.activeSlaves != {}
  }

  /** The transition of `Slave::update`: give way if an active slave was
      heard or no connection is left; else become ACTIVE if activation was
      requested; else stay.  The request is always dropped. */
  lemma SlaveTransition(s: DeviceState)
    requires IsSlave(s)
    ensures HeardActiveSlave(s) || NoConnection(s) ==> Updated(s).slaveState == NotActive
    ensures !HeardActiveSlave(s) && !NoConnection(s) && s.isActivating ==> Updated(s).slaveState == Active
    ensures !HeardActiveSlave(s) && !NoConnection(s) && !s.isActivating ==> Updated(s).slaveState == s.slaveState
    ensures !Updated(s).isActivating
  {
    assert |s.activeSlaves| == 0 <==> s.activeSlaves == {};
  }

  /** A Slave that ends the period ACTIVE never reports that no slave is
      active. */
  lemma ActiveSlaveReportsActive(s: DeviceState)
    requires IsSlave(s) && Updated(s).slaveState == Active
    ensures !StatusHas(Updated(s).errors, STATUS_NO_ACTIVE_SLAVE) && IsAnyActiveSlave(Updated(s))
  {
    UpdatedStatus(s);
  }

  /** Activation exclusion: a Slave ends the period ACTIVE only if it heard
      no active slave, kept a connection, and either asked to activate or
      was already active; it then reports being connected. */
  lemma ActivationExclusion(s: DeviceState)
    requires IsSlave(s) && Updated(s).slaveState == Active
    ensures !HeardActiveSlave(s) && !NoConnection(s)
    ensures s.isActivating || s.slaveState == Active
    ensures IsAnyCon(Updated(s))
  {
    SlaveTransition(s);
    UpdatedQueries(s);
  }

  /** A Slave that hears another node's ACTIVE heartbeat in a period is
      NOT_ACTIVE when the period ends, whatever it had requested. */
  lemma SlaveGivesWay(s: DeviceState, m: Heartbeat)
    requires IsSlave(s) && ValidSender(m.common) && m.common.deviceId != s.deviceId
    requires m.slaveState == Active && m.approveState != ApproveState.Invalid && m.cmdType != CmdType.Invalid
    ensures Updated(Pushed(s, m.Frame()).0).slaveState == NotActive
  {
    SlaveHearsActive(s, m);
    var r := Pushed(s, m.Frame()).0;
    assert m.common.deviceId - 1 in r.activeSlaves;
    SlaveTransition(r);
  }

  /** `Slave::activate` records a request exactly when the Slave is
      NOT_ACTIVE and the last status byte shows a connection, and changes
      nothing else; being an assignment, a call made otherwise cancels an
      earlier request. */
  lemma ActivateRequest(s: DeviceState)
    ensures Activated(s).isActivating <==> s.slaveState == NotActive && IsAnyCon(s)
    ensures Activated(s).(isActivating := s.isActivating) == s
    ensures s.slaveState == Active || !IsAnyCon(s) ==> !Activated(s).isActivating
  {
  }

  /** A request made while NOT_ACTIVE and connected turns the Slave ACTIVE
      at the next period's end if no active slave is heard and a connection
      is kept. */
  lemma ActivateThenUpdate(s: DeviceState)
    requires IsSlave(s) && s.slaveState == NotActive && IsAnyCon(s)
    requires !HeardActiveSlave(s) && !NoConnection(s)
    ensures Updated(Activated(s)).slaveState == Active
  {
    var a := Activated(s);
    assert a.activeSlaves == s.activeSlaves && a.respondedSlaves == s.respondedSlaves;
    assert a.respondedMasters == s.respondedMasters;
    SlaveTransition(a);
  }

  /** `Slave::approve`: the approval becomes APPROVED when the Slave is
      ACTIVE and the command is its current one, and nothing else changes. */
  lemma ApproveEffect(s: DeviceState, c: CmdType)
    ensures ApproveCmd(s, c).(approveState := s.approveState) == s
    ensures ApproveCmd(s, c).approveState == ApproveState.Approved
        <==> s.approveState == ApproveState.Approved || (s.slaveState == Active && c == s.cmdType)
  {
  }

  /** Following the code: a node that expects any positive number of
      slaves (possibly itself among them, as with two) and hears none
      reports that all slave connections are lost, and that some are. */
  lemma AllSlavesLostWhenNoneHeard(s: DeviceState)
    requires s.numOfSlaves > 0 && s.respondedSlaves == {}
    ensures StatusHas(Updated(s).errors, STATUS_CON_WITH_ALL_SLAVES_LOST)
    ensures StatusHas(Updated(s).errors, STATUS_CON_WITH_SOME_SLAVES_LOST)
  {
    UpdatedStatus(s);
  }
}
