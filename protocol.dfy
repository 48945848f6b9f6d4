/**
 * The wire protocol (src/Protocol.h, src/Protocol.cpp): the enumerations with
 * their ordinals and INVALID sentinels, the device-id range, the CAN ids and
 * declared lengths, the raw frame, the validation masks, the three encoders
 * and the decoding of the fields of a frame.
 *
 * Every frame carries its payload in the 32-bit word dataL:
 *   bits 0-5   device id          bits 6-7   device type
 *   bits 8-15  errors byte
 *   bit  16    slave state        bit  17    approve state   (Heartbeat)
 *   bits 18-23 command type                                  (Heartbeat, Cmd)
 * The command type is written 6 bits wide but read back 7 bits wide (bits
 * 18-24).
 */
module Protocol {
  import opened Arith
  import opened Helpers

  /** A signed `char`. */
  type Char = x: int | -128 <= x < 128

  /** A `uint8_t`. */
  type U8 = x: int | 0 <= x < 256

  const UINT8_MAX: U8 := 255

  // ---------------------------------------------------------------------------
  // Enumerations.  Each has an INVALID sentinel with ordinal UINT8_MAX.

  datatype DeviceType = Master | Slave | Invalid
  {
    function Ordinal(): (k: U8)
      ensures k == UINT8_MAX <==> this.Invalid?
    {
      match this
      case Master => 1
      case Slave => 2
      case Invalid => UINT8_MAX
    }

    /** `static_cast<DeviceType>(k)`, used for k in the valid range only. */
    static function OfOrdinal(k: nat): (t: DeviceType)
      ensures 1 <= k <= 2 ==> t.Ordinal() == k
    {
      if k == 1 then Master else if k == 2 then Slave else DeviceType.Invalid
    }
  }

  datatype SlaveState = NotActive | Active | Invalid
  {
    function Ordinal(): (k: U8)
      ensures k == UINT8_MAX <==> this.Invalid?
    {
      match this
      case NotActive => 0
      case Active => 1
      case Invalid => UINT8_MAX
    }

    static function OfOrdinal(k: nat): (s: SlaveState)
      ensures k <= 1 ==> s.Ordinal() == k
    {
      if k == 0 then NotActive else if k == 1 then Active else SlaveState.Invalid
    }
  }

  datatype ApproveState = NotApproved | Approved | Invalid
  {
    function Ordinal(): (k: U8)
      ensures k == UINT8_MAX <==> this.Invalid?
    {
      match this
      case NotApproved => 0
      case Approved => 1
      case Invalid => UINT8_MAX
    }

    static function OfOrdinal(k: nat): (a: ApproveState)
      ensures k <= 1 ==> a.Ordinal() == k
    {
      if k == 0 then NotApproved else if k == 1 then Approved else ApproveState.Invalid
    }
  }

  datatype CmdType =
    | Complete | GetReady | FullAhead | HalfAhead | SlowAhead | DeadSlowAhead
    | Stop | DeadSlowAstern | SlowAstern | HalfAstern | FullAstern | Invalid
  {
    function Ordinal(): (k: U8)
      ensures k == UINT8_MAX <==> this.Invalid?
    {
      match this
      case Complete => 0
      case GetReady => 1
      case FullAhead => 2
      case HalfAhead => 3
      case SlowAhead => 4
      case DeadSlowAhead => 5
      case Stop => 6
      case DeadSlowAstern => 7
      case SlowAstern => 8
      case HalfAstern => 9
      case FullAstern => 10
      case Invalid => UINT8_MAX
    }

    static function OfOrdinal(k: nat): (t: CmdType)
      ensures k <= 10 ==> t.Ordinal() == k
    {
      if k == 0 then Complete else if k == 1 then GetReady
      else if k == 2 then FullAhead else if k == 3 then HalfAhead
      else if k == 4 then SlowAhead else if k == 5 then DeadSlowAhead
      else if k == 6 then Stop else if k == 7 then DeadSlowAstern
      else if k == 8 then SlowAstern else if k == 9 then HalfAstern
      else if k == 10 then FullAstern else CmdType.Invalid
    }
  }

  // ---------------------------------------------------------------------------
  // Constants.

  /** Positions of the status bits a device reports in its errors byte. */
  const STATUS_DUPLICATED_DEVICE_ID: nat := 0
  const STATUS_CON_WITH_SOME_SLAVES_LOST: nat := 1
  const STATUS_CON_WITH_ALL_SLAVES_LOST: nat := 2
  const STATUS_CON_WITH_SOME_MASTERS_LOST: nat := 3
  const STATUS_CON_WITH_ALL_MASTERS_LOST: nat := 4
  const STATUS_NO_CONNECTION: nat := 5
  const STATUS_NO_ACTIVE_SLAVE: nat := 6

  /** Positions of the bits of the validation mask of a received frame. */
  const ERR_INVALID_DEVICE_ID: nat := 0
  const ERR_DUPLICATED_DEVICE_ID: nat := 1
  const ERR_INVALID_CAN_ID: nat := 2
  const ERR_INVALID_CAN_DLC: nat := 3
  const ERR_INVALID_DEVICE_TYPE: nat := 4
  const ERR_INVALID_SLAVE_STATE: nat := 5
  const ERR_INVALID_APPROVE_STATE: nat := 6
  const ERR_INVALID_CMD_TYPE: nat := 7

  const DEVICE_ID_INVALID: Char := -1
  const MIN_DEVICE_ID: Char := 1
  const MAX_DEVICE_ID: Char := 12

  const CAN_ID_ACTIVATE: U32 := 0x10
  const CAN_ID_HEARTBEAT: U32 := 0x20
  const CAN_ID_CMD: U32 := 0x40

  const ACTIVATE_DLC: U32 := 2
  const HEARTBEAT_DLC: U32 := 3
  const CMD_DLC: U32 := 3

  /** `DeviceId::isCorrectId`. */
  predicate IsCorrectId(id: int)
  {
    MIN_DEVICE_ID <= id <= MAX_DEVICE_ID
  }

  /** A CAN frame: id, length and the two 32-bit data words. */
  datatype RawMsg = RawMsg(canId: U32, dlc: U32, dataL: U32, dataH: U32)

  /** The value-initialised frame `{}`. */
  const EMPTY_FRAME := RawMsg(0, 0, 0, 0)

  // ---------------------------------------------------------------------------
  // Validation masks (`uint16_t`): bit pos is set by `(cond << pos)`.

  type Mask = bv16

  function Bit(pos: nat): Mask
    requires pos < 16
  {
    1 << pos
  }

  function FlagIf(cond: bool, pos: nat): Mask
    requires pos < 16
  {
    if cond then Bit(pos) else 0
  }

  predicate Has(m: Mask, pos: nat)
    requires pos < 16
  {
    m & Bit(pos) != 0
  }

  // ---------------------------------------------------------------------------
  // Messages.

  datatype CommonFields = CommonFields(deviceId: Char, deviceType: DeviceType, errors: U8)
  {
    /** `CommonFields::isNotValid`: exactly the invalid-id and invalid-type bits. */
    function NotValid(): (m: Mask)
      ensures Has(m, ERR_INVALID_DEVICE_ID) <==> !IsCorrectId(deviceId)
      ensures Has(m, ERR_INVALID_DEVICE_TYPE) <==> deviceType == DeviceType.Invalid
      ensures m & !(Bit(ERR_INVALID_DEVICE_ID) | Bit(ERR_INVALID_DEVICE_TYPE)) == 0
      ensures m == 0 <==> IsCorrectId(deviceId) && deviceType != DeviceType.Invalid
    {
      FlagIf(!IsCorrectId(deviceId), ERR_INVALID_DEVICE_ID)
        | FlagIf(deviceType == DeviceType.Invalid, ERR_INVALID_DEVICE_TYPE)
    }

    /** The common part of dataL: id, type and errors written one after the
        other into a zero word; a negative id is sign-extended before its 6
        low bits are taken. */
    function Word(): U32
    {
      var w0 := WithField(0, ToU32(deviceId), 0, 0, 6);
      var w1 := WithField(w0, deviceType.Ordinal(), 0, 6, 2);
      WithField(w1, errors, 1, 0, 8)
    }
  }

  datatype Activate = Activate(common: CommonFields)
  {
    /** `Activate::isNotValid`: the common mask, so exactly the invalid-id and
        invalid-type bits. */
    function NotValid(): (m: Mask)
      ensures Has(m, ERR_INVALID_DEVICE_ID) <==> !IsCorrectId(common.deviceId)
      ensures Has(m, ERR_INVALID_DEVICE_TYPE) <==> common.deviceType == DeviceType.Invalid
      ensures m & !(Bit(ERR_INVALID_DEVICE_ID) | Bit(ERR_INVALID_DEVICE_TYPE)) == 0
      ensures m == 0 <==> IsCorrectId(common.deviceId) && common.deviceType != DeviceType.Invalid
    {
      common.NotValid()
    }

    /** The frame `operator Can::RawMsg` builds. */
    function Frame(): RawMsg
    {
      RawMsg(CAN_ID_ACTIVATE, ACTIVATE_DLC, common.Word(), 0)
    }

    /** `Activate::operator Can::RawMsg`. */
    method ToRawMsg() returns (msg: RawMsg)
      ensures msg == Frame()
      ensures msg.canId == CAN_ID_ACTIVATE && msg.dlc == ACTIVATE_DLC && msg.dataH == 0
    {
      var dataL: U32 := 0;
      dataL := SetBits(dataL, ToU32(common.deviceId), 0, 0, 6);
      dataL := SetBits(dataL, common.deviceType.Ordinal(), 0, 6, 2);
      dataL := SetBits(dataL, common.errors, 1, 0, 8);
      msg := RawMsg(CAN_ID_ACTIVATE, ACTIVATE_DLC, dataL, 0);
    }
  }

  datatype Heartbeat = Heartbeat(common: CommonFields, slaveState: SlaveState,
                                 approveState: ApproveState, cmdType: CmdType)
  {
    /** `Heartbeat::isNotValid`: the common mask plus one bit for each INVALID
        field. */
    function NotValid(): (m: Mask)
      ensures m & (Bit(ERR_INVALID_DEVICE_ID) | Bit(ERR_INVALID_DEVICE_TYPE)) == common.NotValid()
      ensures Has(m, ERR_INVALID_SLAVE_STATE) <==> slaveState == SlaveState.Invalid
      ensures Has(m, ERR_INVALID_APPROVE_STATE) <==> approveState == ApproveState.Invalid
      ensures Has(m, ERR_INVALID_CMD_TYPE) <==> cmdType == CmdType.Invalid
      ensures !Has(m, ERR_DUPLICATED_DEVICE_ID) && !Has(m, ERR_INVALID_CAN_ID) && !Has(m, ERR_INVALID_CAN_DLC)
      ensures m & 0xFF00 == 0
    {
      common.NotValid()
        | FlagIf(slaveState == SlaveState.Invalid, ERR_INVALID_SLAVE_STATE)
        | FlagIf(approveState == ApproveState.Invalid, ERR_INVALID_APPROVE_STATE)
        | FlagIf(cmdType == CmdType.Invalid, ERR_INVALID_CMD_TYPE)
    }

    function Frame(): RawMsg
    {
      var w2 := WithField(common.Word(), slaveState.Ordinal(), 2, 0, 1);
      var w3 := WithField(w2, approveState.Ordinal(), 2, 1, 1);
      RawMsg(CAN_ID_HEARTBEAT, HEARTBEAT_DLC, WithField(w3, cmdType.Ordinal(), 2, 2, 6), 0)
    }

    /** `Heartbeat::operator Can::RawMsg`. */
    method ToRawMsg() returns (msg: RawMsg)
      ensures msg == Frame()
      ensures msg.canId == CAN_ID_HEARTBEAT && msg.dlc == HEARTBEAT_DLC && msg.dataH == 0
    {
      var dataL: U32 := 0;
      dataL := SetBits(dataL, ToU32(common.deviceId), 0, 0, 6);
      dataL := SetBits(dataL, common.deviceType.Ordinal(), 0, 6, 2);
      dataL := SetBits(dataL, common.errors, 1, 0, 8);
      dataL := SetBits(dataL, slaveState.Ordinal(), 2, 0, 1);
      dataL := SetBits(dataL, approveState.Ordinal(), 2, 1, 1);
      dataL := SetBits(dataL, cmdType.Ordinal(), 2, 2, 6);
      msg := RawMsg(CAN_ID_HEARTBEAT, HEARTBEAT_DLC, dataL, 0);
    }
  }

  datatype Cmd = Cmd(common: CommonFields, cmdType: CmdType)
  {
    /** `Cmd::isNotValid`: the common mask plus the invalid-command bit. */
    function NotValid(): (m: Mask)
      ensures m & !Bit(ERR_INVALID_CMD_TYPE) == common.NotValid()
      ensures Has(m, ERR_INVALID_CMD_TYPE) <==> cmdType == CmdType.Invalid
    {
      common.NotValid() | FlagIf(cmdType == CmdType.Invalid, ERR_INVALID_CMD_TYPE)
    }

    function Frame(): RawMsg
    {
      RawMsg(CAN_ID_CMD, CMD_DLC, WithField(common.Word(), cmdType.Ordinal(), 2, 2, 6), 0)
    }

    /** `Cmd::operator Can::RawMsg`. */
    method ToRawMsg() returns (msg: RawMsg)
      ensures msg == Frame()
      ensures msg.canId == CAN_ID_CMD && msg.dlc == CMD_DLC && msg.dataH == 0
    {
      var dataL: U32 := 0;
      dataL := SetBits(dataL, ToU32(common.deviceId), 0, 0, 6);
      dataL := SetBits(dataL, common.deviceType.Ordinal(), 0, 6, 2);
      dataL := SetBits(dataL, common.errors, 1, 0, 8);
      dataL := SetBits(dataL, cmdType.Ordinal(), 2, 2, 6);
      msg := RawMsg(CAN_ID_CMD, CMD_DLC, dataL, 0);
    }
  }

  // ---------------------------------------------------------------------------
  // Decoding.

  /** The `CommonFields(uint32_t)` constructor.  The id and the errors byte are
      plain fields (the errors byte passes through `char` and back to
      `uint8_t` unchanged); the type is range-checked into [MASTER, SLAVE]. */
  function DecodeCommon(data: U32): (c: CommonFields)
    ensures 0 <= c.deviceId < 64
  {
    Pow2Small();
    CommonFields(FieldValue(data, 0, 0, 6),
                 EnumField(data, 0, 6, 2, 1, 2, DeviceType.OfOrdinal, DeviceType.Invalid),
                 FieldValue(data, 1, 0, 8))
  }

  /** The same decoding, done the way the source does it: through
      `bits2type` and `enum2type`. */
  method ReadCommonFields(data: U32) returns (c: CommonFields)
    ensures c == DecodeCommon(data)
  {
    Pow2Small();
    var id := Bits2Type(data, 0, 0, 6);
    var deviceType := Enum2Type(data, 0, 6, 2, 1, 2, DeviceType.OfOrdinal, DeviceType.Invalid);
    var errors := Bits2Type(data, 1, 0, 8);
    c := CommonFields(id, deviceType, errors);
  }

  /** The slave-state field of a received Heartbeat: bit 16 range-checked into
      [NOT_ACTIVE, ACTIVE]. */
  function DecodeSlaveState(data: U32): SlaveState
  {
    EnumField(data, 2, 0, 1, 0, 1, SlaveState.OfOrdinal, SlaveState.Invalid)
  }

  /** The approve-state field of a received Heartbeat: bit 17 range-checked
      into [NOT_APPROVED, APPROVED]. */
  function DecodeApproveState(data: U32): ApproveState
  {
    EnumField(data, 2, 1, 1, 0, 1, ApproveState.OfOrdinal, ApproveState.Invalid)
  }

  /** The command-type field of a received Heartbeat or Cmd: the 7 bits
      18-24 range-checked into [COMPLETE, FULL_ASTERN]. */
  function DecodeCmdType(data: U32): CmdType
  {
    EnumField(data, 2, 2, 7, 0, 10, CmdType.OfOrdinal, CmdType.Invalid)
  }

  // ---------------------------------------------------------------------------
  // Properties of the constants.

  /** Valid ids are exactly 1..12, so id - 1 indexes a 12-slot set; the
      INVALID sentinel is not one of them. */
  lemma DeviceIdRange(id: int)
    ensures IsCorrectId(id) <==> 0 <= id - 1 < MAX_DEVICE_ID as int
    ensures !IsCorrectId(DEVICE_ID_INVALID)
  {
  }

  /** A range-checked ordinal never decodes to INVALID, and decoding the
      ordinal of a valid enumerator gives it back. */
  lemma OrdinalsRoundTrip(d: DeviceType, s: SlaveState, a: ApproveState, t: CmdType)
    ensures d != DeviceType.Invalid ==> 1 <= d.Ordinal() <= 2 && DeviceType.OfOrdinal(d.Ordinal()) == d
    ensures s != SlaveState.Invalid ==> s.Ordinal() <= 1 && SlaveState.OfOrdinal(s.Ordinal()) == s
    ensures a != ApproveState.Invalid ==> a.Ordinal() <= 1 && ApproveState.OfOrdinal(a.Ordinal()) == a
    ensures t != CmdType.Invalid ==> t.Ordinal() <= 10 && CmdType.OfOrdinal(t.Ordinal()) == t
  {
  }

  /** The three CAN ids differ, also in their low byte, and the two masks'
      bit positions fit their widths. */
  lemma ConstantsDistinct()
    ensures CAN_ID_ACTIVATE % 256 != CAN_ID_HEARTBEAT % 256
    ensures CAN_ID_ACTIVATE % 256 != CAN_ID_CMD % 256
    ensures CAN_ID_HEARTBEAT % 256 != CAN_ID_CMD % 256
    ensures CAN_ID_ACTIVATE % 256 == CAN_ID_ACTIVATE && CAN_ID_HEARTBEAT % 256 == CAN_ID_HEARTBEAT
    ensures CAN_ID_CMD % 256 == CAN_ID_CMD
    ensures ERR_INVALID_CMD_TYPE < 16 && STATUS_NO_ACTIVE_SLAVE < 7
  {
  }

  // ---------------------------------------------------------------------------
  // Layout of encoded frames.

  /** The common word: id in bits 0-5 (the id modulo 64, two's complement),
      type in bits 6-7 (its ordinal modulo 4), errors in bits 8-15, nothing
      above. */
  lemma {:induction false} CommonWordLayout(c: CommonFields)
    ensures FieldValue(c.Word(), 0, 0, 6) == c.deviceId % 64
    ensures FieldValue(c.Word(), 0, 6, 2) == c.deviceType.Ordinal() % 4
    ensures FieldValue(c.Word(), 1, 0, 8) == c.errors
    ensures c.Word() < Pow2(16)
  {
    var w0 := WithField(0, ToU32(c.deviceId), 0, 0, 6);
    var w1 := WithField(w0, c.deviceType.Ordinal(), 0, 6, 2);
    assert c.Word() == WithField(w1, c.errors, 1, 0, 8);
    Pow2Small();
    assert FieldValue(c.Word(), 0, 0, 6) == c.deviceId % 64 by {
      assert ToU32(c.deviceId) % Pow2(6) == c.deviceId % 64 by {
        ModMul(c.deviceId, 64, 0x400_0000);
      }
      GetAfterSet(0, ToU32(c.deviceId), 0, 0, 6);
      DisjointRead(w0, c.deviceType.Ordinal(), 0, 6, 2, 0, 0, 6);
      DisjointRead(w1, c.errors, 1, 0, 8, 0, 0, 6);
    }
    assert FieldValue(c.Word(), 0, 6, 2) == c.deviceType.Ordinal() % 4 by {
      GetAfterSet(w0, c.deviceType.Ordinal(), 0, 6, 2);
      DisjointRead(w1, c.errors, 1, 0, 8, 0, 6, 2);
    }
    assert FieldValue(c.Word(), 1, 0, 8) == c.errors by {
      GetAfterSet(w1, c.errors, 1, 0, 8);
      DivModUnique(c.errors, 256, 0, c.errors);
    }
    WithFieldStaysBelow(0, ToU32(c.deviceId), 0, 0, 6, 16);
    WithFieldStaysBelow(w0, c.deviceType.Ordinal(), 0, 6, 2, 16);
    WithFieldStaysBelow(w1, c.errors, 1, 0, 8, 16);
  }

  /** A write at or above bit 16 leaves the common word untouched. */
  lemma {:induction false} HighWriteKeepsCommon(target: U32, value: nat, byte: nat, bit: nat, n: nat)
    requires FieldInWord(byte, bit, n) && 16 <= 8 * byte + bit
    ensures WithField(target, value, byte, bit, n) % Pow2(16) == target % Pow2(16)
  {
    WithFieldKeepsOutside(target, value, byte, bit, n);
    LowBitsAgree(WithField(target, value, byte, bit, n), target, 16, 8 * byte + bit);
  }

  /** The common fields are read from the low 16 bits only. */
  lemma {:induction false} DecodeCommonLow(d: U32, w: U32)
    requires d % Pow2(16) == w % Pow2(16)
    ensures DecodeCommon(d) == DecodeCommon(w)
  {
    FieldBelowDependsOnLow(d, w, 0, 0, 6, 16);
    FieldBelowDependsOnLow(d, w, 0, 6, 2, 16);
    FieldBelowDependsOnLow(d, w, 1, 0, 8, 16);
  }

  // ---------------------------------------------------------------------------
  // Round trips.

  /** Decoding an encoded common word gives back the type (INVALID included,
      since its ordinal 255 leaves 3 in the 2-bit field) and the errors byte,
      and the id modulo 64: an id in 0..63 comes back unchanged, the INVALID
      id -1 comes back as 63. */
  lemma {:induction false} CommonRoundTrip(c: CommonFields)
    ensures DecodeCommon(c.Word()) == CommonFields(c.deviceId % 64, c.deviceType, c.errors)
    ensures 0 <= c.deviceId < 64 ==> DecodeCommon(c.Word()) == c
  {
    var w := c.Word();
    CommonWordLayout(c);
    assert EnumField(w, 0, 6, 2, 1, 2, DeviceType.OfOrdinal, DeviceType.Invalid) == c.deviceType by {
      TypeFromField(c.deviceType, FieldValue(w, 0, 6, 2));
    }
    if 0 <= c.deviceId < 64 {
      DivModUnique(c.deviceId, 64, 0, c.deviceId);
    }
  }

  lemma TypeFromField(t: DeviceType, v: int)
    requires v == t.Ordinal() % 4
    ensures (if 1 <= v <= 2 then DeviceType.OfOrdinal(v) else DeviceType.Invalid) == t
  {
  }

  /** The 6-bit command field written below bit 24 reads back through the
      7-bit read as the same command type: a valid ordinal is at most 10 and
      stays itself, INVALID leaves 63, which is out of range again. */
  lemma {:induction false} CmdFieldRoundTrip(w: U32, t: CmdType)
    requires w < Pow2(24)
    ensures DecodeCmdType(WithField(w, t.Ordinal(), 2, 2, 6)) == t
  {
    var d := WithField(w, t.Ordinal(), 2, 2, 6);
    Pow2Small();
    WithFieldStaysBelow(w, t.Ordinal(), 2, 2, 6, 24);
    FieldAboveTop(d, 3, 0, 1);
    FieldConcat(d, 2, 2, 6, 3, 0, 1);
    GetAfterSet(w, t.Ordinal(), 2, 2, 6);
    DecodeCmdField(d, t);
  }

  lemma DecodeCmdField(d: U32, t: CmdType)
    requires FieldValue(d, 2, 2, 7) == t.Ordinal() % 64
    ensures DecodeCmdType(d) == t
  {
    var k := t.Ordinal();
    if t != CmdType.Invalid {
      OrdinalsRoundTrip(DeviceType.Invalid, SlaveState.Invalid, ApproveState.Invalid, t);
      assert k % 64 == k by { DivModUnique(k, 64, 0, k); }
    } else {
      assert k % 64 == 63;
    }
  }

  /** An encoded Activate frame: canId 0x10, dlc 2, dataH 0, the common
      fields in bits 0-15 and zeros above. */
  lemma ActivateRoundTrip(m: Activate)
    ensures m.Frame().canId == CAN_ID_ACTIVATE && m.Frame().dlc == ACTIVATE_DLC && m.Frame().dataH == 0
    ensures m.Frame().dataL < Pow2(16)
    ensures DecodeCommon(m.Frame().dataL)
         == CommonFields(m.common.deviceId % 64, m.common.deviceType, m.common.errors)
  {
    CommonWordLayout(m.common);
    CommonRoundTrip(m.common);
  }

  /** An encoded Heartbeat frame: canId 0x20, dlc 3, dataH 0, zeros in bits
      24-31; every field decodes back, except that an INVALID slave or
      approve state, written as the single bit 1, reads back as ACTIVE or
      APPROVED. */
  lemma {:induction false} HeartbeatRoundTrip(m: Heartbeat)
    ensures m.Frame().canId == CAN_ID_HEARTBEAT && m.Frame().dlc == HEARTBEAT_DLC && m.Frame().dataH == 0
    ensures m.Frame().dataL < Pow2(24)
    ensures DecodeCommon(m.Frame().dataL)
         == CommonFields(m.common.deviceId % 64, m.common.deviceType, m.common.errors)
    ensures DecodeSlaveState(m.Frame().dataL)
         == if m.slaveState == SlaveState.Invalid then SlaveState.Active else m.slaveState
    ensures DecodeApproveState(m.Frame().dataL)
         == if m.approveState == ApproveState.Invalid then ApproveState.Approved else m.approveState
    ensures DecodeCmdType(m.Frame().dataL) == m.cmdType
  {
    var w := m.common.Word();
    var w2 := WithField(w, m.slaveState.Ordinal(), 2, 0, 1);
    var w3 := WithField(w2, m.approveState.Ordinal(), 2, 1, 1);
    var d := WithField(w3, m.cmdType.Ordinal(), 2, 2, 6);
    assert m.Frame().dataL == d;
    var c := m.common;
    CommonWordLayout(c);
    CommonRoundTrip(c);
    Pow2Monotone(16, 24);
    WithFieldStaysBelow(w, m.slaveState.Ordinal(), 2, 0, 1, 24);
    WithFieldStaysBelow(w2, m.approveState.Ordinal(), 2, 1, 1, 24);
    WithFieldStaysBelow(w3, m.cmdType.Ordinal(), 2, 2, 6, 24);
    assert DecodeCommon(d) == CommonFields(c.deviceId % 64, c.deviceType, c.errors) by {
      HighWriteKeepsCommon(w, m.slaveState.Ordinal(), 2, 0, 1);
      HighWriteKeepsCommon(w2, m.approveState.Ordinal(), 2, 1, 1);
      HighWriteKeepsCommon(w3, m.cmdType.Ordinal(), 2, 2, 6);
      DecodeCommonLow(d, w);
    }
    HeartbeatStates(w, w2, w3, d, m.slaveState, m.approveState, m.cmdType);
    CmdFieldRoundTrip(w3, m.cmdType);
  }

  lemma {:induction false} HeartbeatStates(w: U32, w2: U32, w3: U32, d: U32,
                                           s: SlaveState, a: ApproveState, t: CmdType)
    requires w2 == WithField(w, s.Ordinal(), 2, 0, 1)
    requires w3 == WithField(w2, a.Ordinal(), 2, 1, 1)
    requires d == WithField(w3, t.Ordinal(), 2, 2, 6)
    ensures DecodeSlaveState(d) == if s == SlaveState.Invalid then SlaveState.Active else s
    ensures DecodeApproveState(d) == if a == ApproveState.Invalid then ApproveState.Approved else a
  {
    Pow2Small();
    GetAfterSet(w, s.Ordinal(), 2, 0, 1);
    DisjointRead(w2, a.Ordinal(), 2, 1, 1, 2, 0, 1);
    DisjointRead(w3, t.Ordinal(), 2, 2, 6, 2, 0, 1);
    StateFromBit(s, FieldValue(d, 2, 0, 1));
    GetAfterSet(w2, a.Ordinal(), 2, 1, 1);
    DisjointRead(w3, t.Ordinal(), 2, 2, 6, 2, 1, 1);
    ApproveFromBit(a, FieldValue(d, 2, 1, 1));
  }

  lemma StateFromBit(s: SlaveState, v: int)
    requires v == s.Ordinal() % 2
    ensures (if 0 <= v <= 1 then SlaveState.OfOrdinal(v) else SlaveState.Invalid)
         == if s == SlaveState.Invalid then SlaveState.Active else s
  {
  }

  lemma ApproveFromBit(a: ApproveState, v: int)
    requires v == a.Ordinal() % 2
    ensures (if 0 <= v <= 1 then ApproveState.OfOrdinal(v) else ApproveState.Invalid)
         == if a == ApproveState.Invalid then ApproveState.Approved else a
  {
  }

  /** An encoded Cmd frame: canId 0x40, dlc 3, dataH 0, zeros in bits 16-17
      and 24-31; the common fields and the command type decode back. */
  lemma {:induction false} CmdRoundTrip(m: Cmd)
    ensures m.Frame().canId == CAN_ID_CMD && m.Frame().dlc == CMD_DLC && m.Frame().dataH == 0
    ensures m.Frame().dataL < Pow2(24)
    ensures FieldValue(m.Frame().dataL, 2, 0, 2) == 0
    ensures DecodeCommon(m.Frame().dataL)
         == CommonFields(m.common.deviceId % 64, m.common.deviceType, m.common.errors)
    ensures DecodeCmdType(m.Frame().dataL) == m.cmdType
  {
    var w := m.common.Word();
    var d := WithField(w, m.cmdType.Ordinal(), 2, 2, 6);
    assert m.Frame().dataL == d;
    var c := m.common;
    CommonWordLayout(c);
    CommonRoundTrip(c);
    Pow2Monotone(16, 24);
    WithFieldStaysBelow(w, m.cmdType.Ordinal(), 2, 2, 6, 24);
    assert DecodeCommon(d) == CommonFields(c.deviceId % 64, c.deviceType, c.errors) by {
      HighWriteKeepsCommon(w, m.cmdType.Ordinal(), 2, 2, 6);
      DecodeCommonLow(d, w);
    }
    assert FieldValue(d, 2, 0, 2) == 0 by {
      FieldAboveTop(w, 2, 0, 2);
      DisjointRead(w, m.cmdType.Ordinal(), 2, 2, 6, 2, 0, 2);
    }
    CmdFieldRoundTrip(w, m.cmdType);
  }

  // ---------------------------------------------------------------------------
  // What the decoders can produce.

  /** A one-bit state field always holds 0 or 1, so a received slave or
      approve state is never INVALID. */
  lemma DecodedStatesValid(d: U32)
    ensures DecodeSlaveState(d) != SlaveState.Invalid
    ensures DecodeApproveState(d) != ApproveState.Invalid
  {
    Pow2Small();
  }

  /** The received device type is INVALID exactly when its 2-bit field is 0
      or 3. */
  lemma DecodedTypeInvalid(d: U32)
    ensures DecodeCommon(d).deviceType == DeviceType.Invalid
        <==> FieldValue(d, 0, 6, 2) == 0 || FieldValue(d, 0, 6, 2) == 3
  {
    Pow2Small();
  }

  /** The received command type is INVALID exactly when the 7-bit value of
      bits 18-24 exceeds 10; in particular whenever bit 24 is set. */
  lemma {:induction false} DecodedCmdInvalid(d: U32)
    ensures DecodeCmdType(d) == CmdType.Invalid
        <==> FieldValue(d, 2, 2, 6) + 64 * FieldValue(d, 3, 0, 1) > 10
    ensures FieldValue(d, 3, 0, 1) == 1 ==> DecodeCmdType(d) == CmdType.Invalid
  {
    Pow2Small();
    FieldConcat(d, 2, 2, 6, 3, 0, 1);
  }
}
