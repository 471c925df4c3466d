/** The NVIC driver of the TM4C123 (ARM Cortex-M4): enabling, disabling and prioritising
    peripheral interrupt lines (IRQs) and the configurable system exceptions.

    The memory-mapped registers the driver touches are two immutable records: `IrqRegs`
    for the interrupt-line services and `SysRegs` for the system-exception services, which
    touch disjoint registers. Every driver service is a pure transition of its record.
    Register addresses become indices: NVIC_ENn / NVIC_DISn are `en[n]` / `dis[n]`, the
    word at NVIC_PRI_BASE_ADDRESS + 4k is `pri[k]`, and the system handler control and
    priority registers are named fields. */
module Nvic {
  import opened Wrappers
  import opened Bits

  /** An IRQ number of the vector table (`NVIC_IRQType`, taken to be `uint8`). */
  type IrqNum = bv8

  /** A priority argument (`NVIC_IRQPriorityType`, `NVIC_ExceptionPriorityType`, taken to be
      `uint8`). Only 0..7 fit the 3 implemented priority bits; the driver does not check. */
  type Priority = bv8

  /** The highest IRQ number the enable and disable switches name. */
  const MaxIrq: IrqNum := 138

  /** NVIC_EN0..NVIC_EN4, or NVIC_DIS0..NVIC_DIS4. */
  type LineBank = s: seq<bv32> | |s| == 5 witness [0, 0, 0, 0, 0]

  /** The words at NVIC_PRI_BASE_ADDRESS + 4k for k = 0..63: every word the priority service
      can address with an 8-bit IRQ number. Words 0..34 are PRI0..PRI34 of the TM4C123; the
      driver does not keep a larger IRQ number from reaching the words past them. */
  type PriorityBank = s: seq<bv32> | |s| == 64 witness seq(64, _ => 0)

  /** The registers of the interrupt-line services. */
  datatype IrqRegs = IrqRegs(
    en: LineBank,       // interrupt set-enable registers
    dis: LineBank,      // interrupt clear-enable registers
    pri: PriorityBank   // interrupt priority words
  )

  /** The registers of the system-exception services. */
  datatype SysRegs = SysRegs(
    sysHndCtrl: bv32,   // NVIC_SYSTEM_SYSHNDCTRL (SHCSR)
    sysPri1: bv32,      // NVIC_SYSTEM_PRI1_REG (SHPR1)
    sysPri2: bv32,      // NVIC_SYSTEM_PRI2_REG (SHPR2)
    sysPri3: bv32       // NVIC_SYSTEM_PRI3_REG (SHPR3)
  )

  // ---------------------------------------------------------------------------------------
  // Interrupt lines: enable and disable
  // ---------------------------------------------------------------------------------------

  /** The enable (or disable) register that holds `id`'s bit: banks of 32 lines. */
  function LineReg(id: IrqNum): nat {
    (id / 32) as nat
  }

  /** The bit of `id` inside its enable (or disable) register. */
  function LineBit(id: IrqNum): BitPos {
    id % 32
  }

  /** The switch shared by NVIC_EnableIRQ and NVIC_DisableIRQ: the case range of `id`
      selects one register of the bank, and `1 << (id & 0x1F)` is OR-ed into it. An IRQ
      number above 138 matches no case. Only the selected register can change. */
  function OrLineBit(b: LineBank, id: IrqNum): (b': LineBank)
    ensures id <= MaxIrq ==> LineReg(id) < 5
    ensures forall k :: 0 <= k < 5 && k != LineReg(id) ==> b'[k] == b[k]
    ensures MaxIrq < id ==> b' == b
  {
    if id <= 31 then b[0 := b[0] | (1 << id)]
    else if id <= 63 then b[1 := b[1] | (1 << (id & 0x1F))]
    else if id <= 95 then b[2 := b[2] | (1 << (id & 0x1F))]
    else if id <= 127 then b[3 := b[3] | (1 << (id & 0x1F))]
    else if id <= 138 then b[4 := b[4] | (1 << (id & 0x1F))]
    else b
  }

  /** The selected register receives exactly bit `id % 32` of register `id / 32`: the case
      ranges are the banks of 32, and masking with 0x1F is the remainder by 32. */
  lemma OrLineBitValue(b: LineBank, id: IrqNum)
    requires id <= MaxIrq
    ensures LineReg(id) < 5
    ensures OrLineBit(b, id)[LineReg(id)] == b[LineReg(id)] | Bit(LineBit(id))
  {
  }

  /** NVIC_EnableIRQ: for an IRQ number up to 138 the enable bank is rewritten; nothing
      else is written. */
  function EnableIrq(r: IrqRegs, id: IrqNum): (r': IrqRegs)
    ensures r'.(en := r.en) == r
    ensures MaxIrq < id ==> r' == r
  {
    r.(en := OrLineBit(r.en, id))
  }

  /** NVIC_DisableIRQ: the same switch on the disable registers. The hardware's
      write-one-to-clear effect on the enable bit is not part of this model. */
  function DisableIrq(r: IrqRegs, id: IrqNum): (r': IrqRegs)
    ensures r'.(dis := r.dis) == r
    ensures MaxIrq < id ==> r' == r
  {
    r.(dis := OrLineBit(r.dis, id))
  }

  /** Enabling a valid line sets the line's bit in its enable register. */
  lemma EnableIrqSetsBit(r: IrqRegs, id: IrqNum)
    requires id <= MaxIrq
    ensures LineReg(id) < 5
    ensures TestBit(EnableIrq(r, id).en[LineReg(id)], LineBit(id))
  {
    OrLineBitValue(r.en, id);
    SetBitSets(r.en[LineReg(id)], LineBit(id));
  }

  /** Enabling a line changes no other bit: the other bits of its register and the other
      enable registers keep their values. */
  lemma EnableIrqKeepsOtherBits(r: IrqRegs, id: IrqNum)
    requires id <= MaxIrq
    ensures LineReg(id) < 5
    ensures EnableIrq(r, id).en[LineReg(id)] & !Bit(LineBit(id)) == r.en[LineReg(id)] & !Bit(LineBit(id))
  {
    OrLineBitValue(r.en, id);
    SetBitKeepsOthers(r.en[LineReg(id)], LineBit(id));
  }

  /** Disabling a valid line sets the line's bit in its disable register. */
  lemma DisableIrqSetsBit(r: IrqRegs, id: IrqNum)
    requires id <= MaxIrq
    ensures LineReg(id) < 5
    ensures TestBit(DisableIrq(r, id).dis[LineReg(id)], LineBit(id))
  {
    OrLineBitValue(r.dis, id);
    SetBitSets(r.dis[LineReg(id)], LineBit(id));
  }

  /** Disabling a line writes no other bit of the disable registers. */
  lemma DisableIrqKeepsOtherBits(r: IrqRegs, id: IrqNum)
    requires id <= MaxIrq
    ensures LineReg(id) < 5
    ensures DisableIrq(r, id).dis[LineReg(id)] & !Bit(LineBit(id)) == r.dis[LineReg(id)] & !Bit(LineBit(id))
  {
    OrLineBitValue(r.dis, id);
    SetBitKeepsOthers(r.dis[LineReg(id)], LineBit(id));
  }

  /** Setting a line bit twice is setting it once. */
  lemma OrLineBitIdempotent(b: LineBank, id: IrqNum)
    ensures OrLineBit(OrLineBit(b, id), id) == OrLineBit(b, id)
  {
  }

  lemma EnableIrqIdempotent(r: IrqRegs, id: IrqNum)
    ensures EnableIrq(EnableIrq(r, id), id) == EnableIrq(r, id)
  {
    OrLineBitIdempotent(r.en, id);
  }

  lemma DisableIrqIdempotent(r: IrqRegs, id: IrqNum)
    ensures DisableIrq(DisableIrq(r, id), id) == DisableIrq(r, id)
  {
    OrLineBitIdempotent(r.dis, id);
  }

  /** Enabling and disabling write disjoint registers, so their order does not matter. */
  lemma EnableDisableCommute(r: IrqRegs, a: IrqNum, b: IrqNum)
    ensures EnableIrq(DisableIrq(r, b), a) == DisableIrq(EnableIrq(r, a), b)
  {
  }

  // ---------------------------------------------------------------------------------------
  // Interrupt lines: priority
  // ---------------------------------------------------------------------------------------

  /** The priority word of `id`: NVIC_PRI_BASE_ADDRESS + (id / 4) * 4 bytes. */
  function PriWord(id: IrqNum): (k: nat)
    ensures k < 64
  {
    (id / 4) as nat
  }

  /** The byte lane of `id` inside its priority word. */
  function PriLane(id: IrqNum): bv8 {
    id % 4
  }

  /** The lowest implemented priority bit of byte lane `lane`: bits 5..7 of each byte. */
  function LanePos(lane: bv8): FieldPos
    requires lane < 4
  {
    lane * 8 + 5
  }

  /** Pri_Bits_Pos: the low two bits of the IRQ number shifted left by 3, with 0x05 OR-ed
      in. It is the lowest implemented bit of the IRQ's own byte lane. */
  function PriPos(id: IrqNum): (pos: FieldPos)
    ensures pos == LanePos(PriLane(id))
    ensures pos == 5 || pos == 13 || pos == 21 || pos == 29
  {
    ((id & 0x03) << 3) | 0x05
  }

  /** Pri_Mask: the complement of the field mask, stored in a `uint8` variable and so cut
      down to its low byte. For lane 0 the cut-down mask is 0x1F and still clears the
      field; for the other lanes it is 0xFF, which clears nothing of the field and
      everything above bit 7. */
  function PriMaskAsWritten(pos: FieldPos): (m: bv8)
    ensures m as bv32 == !FieldMask(pos) & 0xFF
    ensures pos == 5 ==> m == 0x1F
    ensures pos == 13 || pos == 21 || pos == 29 ==> m == 0xFF
  {
    TruncateToU8(!((0x07 as bv32) << pos))
  }

  /** The new value of a priority word, as NVIC_SetPriorityIRQ writes it for the field at
      `pos`: the word AND-ed with the zero-extended 8-bit Pri_Mask, with the priority
      shifted to the field OR-ed in. */
  function PriWordAsWritten(w: bv32, pos: FieldPos, p: Priority): (v: bv32)
    ensures p < 8 && (pos == 5 || pos == 13 || pos == 21 || pos == 29) ==> Field3(v, pos) == p as bv32
  {
    (w & (PriMaskAsWritten(pos) as bv32)) | ((p as bv32) << pos)
  }

  /** NVIC_SetPriorityIRQ as written: only the IRQ's priority word changes. There is no
      range check on the IRQ number or on the priority. */
  function SetPriorityIrq(r: IrqRegs, id: IrqNum, p: Priority): (r': IrqRegs)
    ensures r'.(pri := r.pri) == r
    ensures forall k :: 0 <= k < 64 && k != PriWord(id) ==> r'.pri[k] == r.pri[k]
  {
    var k := PriWord(id);
    r.(pri := r.pri[k := PriWordAsWritten(r.pri[k], PriPos(id), p)])
  }

  /** After SetPriorityIRQ with a priority below 8 the IRQ's field reads back as that
      priority. */
  lemma SetPriorityIrqReadBack(r: IrqRegs, id: IrqNum, p: Priority)
    requires p < 8
    ensures Field3(SetPriorityIrq(r, id, p).pri[PriWord(id)], PriPos(id)) == p as bv32
  {
    assert PriPos(id) == 5 || PriPos(id) == 13 || PriPos(id) == 21 || PriPos(id) == 29;
  }

  /** Word level: of the other three priority fields, the one in lane 0 keeps its value
      and the ones in lanes 1..3 are cleared. */
  lemma PriWordAsWrittenNeighbour(w: bv32, pos: FieldPos, other: FieldPos, p: Priority)
    requires other != pos
    requires pos == 5 || pos == 13 || pos == 21 || pos == 29
    requires other == 5 || other == 13 || other == 21 || other == 29
    ensures Field3(PriWordAsWritten(w, pos, p), other) == (if other == 5 then Field3(w, other) else 0)
  {
  }

  /** What SetPriorityIRQ does to the other three priority fields of the same word: the
      field in lane 0 survives (it lies in the low byte the truncated mask keeps), the
      fields in lanes 1..3 are cleared. So a neighbour keeps its priority exactly when it
      sits in lane 0 or its priority was already 0. */
  lemma SetPriorityIrqNeighbourFields(r: IrqRegs, id: IrqNum, p: Priority, lane: bv8)
    requires lane < 4 && lane != PriLane(id)
    ensures var after := SetPriorityIrq(r, id, p).pri[PriWord(id)];
            var before := r.pri[PriWord(id)];
            && Field3(after, LanePos(lane)) == (if lane == 0 then Field3(before, LanePos(lane)) else 0)
            && (Field3(after, LanePos(lane)) == Field3(before, LanePos(lane))
                <==> lane == 0 || Field3(before, LanePos(lane)) == 0)
  {
    PriWordAsWrittenNeighbour(r.pri[PriWord(id)], PriPos(id), LanePos(lane), p);
  }

  /** Two different IRQ numbers that share a priority word sit in different byte lanes. */
  lemma SameWordDifferentLane(a: IrqNum, b: IrqNum)
    requires a != b && PriWord(a) == PriWord(b)
    ensures PriLane(a) != PriLane(b)
  {
    assert a / 4 == b / 4;
  }

  /** The same loss stated over IRQ numbers: setting the priority of `id` clears the
      priority of every other IRQ that shares its word and sits in lanes 1..3, and such an
      IRQ keeps its priority only when that priority was already 0. */
  lemma SetPriorityIrqClearsOtherIrqs(r: IrqRegs, id: IrqNum, other: IrqNum, p: Priority)
    requires other != id && PriWord(other) == PriWord(id) && PriLane(other) != 0
    ensures Field3(SetPriorityIrq(r, id, p).pri[PriWord(other)], PriPos(other)) == 0
    ensures Field3(SetPriorityIrq(r, id, p).pri[PriWord(other)], PriPos(other))
         == Field3(r.pri[PriWord(other)], PriPos(other))
        <==> Field3(r.pri[PriWord(other)], PriPos(other)) == 0
  {
    SameWordDifferentLane(other, id);
    SetPriorityIrqNeighbourFields(r, id, p, PriLane(other));
  }

  /** Word level: after the write every bit above bit 7 outside the field is 0. */
  lemma PriWordAsWrittenClearsUpperBytes(w: bv32, pos: FieldPos, p: Priority)
    requires p < 8 && (pos == 5 || pos == 13 || pos == 21 || pos == 29)
    ensures PriWordAsWritten(w, pos, p) & !(0xFF | FieldMask(pos)) == 0
  {
  }

  /** Word level: the whole word after the write. Of the old word only byte 0 survives,
      less the written field when that lies in byte 0; the priority fills the field. */
  lemma PriWordAsWrittenExact(w: bv32, pos: FieldPos, p: Priority)
    requires p < 8 && (pos == 5 || pos == 13 || pos == 21 || pos == 29)
    ensures PriWordAsWritten(w, pos, p) == (w & 0xFF & !FieldMask(pos)) | ((p as bv32) << pos)
  {
  }

  /** After SetPriorityIRQ the IRQ's priority word holds byte 0 of its old value (less the
      written field) and the priority, and nothing else. */
  lemma SetPriorityIrqExact(r: IrqRegs, id: IrqNum, p: Priority)
    requires p < 8
    ensures SetPriorityIrq(r, id, p).pri[PriWord(id)]
         == (r.pri[PriWord(id)] & 0xFF & !FieldMask(PriPos(id))) | ((p as bv32) << PriPos(id))
  {
    PriWordAsWrittenExact(r.pri[PriWord(id)], PriPos(id), p);
  }

  /** After SetPriorityIRQ every bit of the word above bit 7 outside the written field is
      0, whatever the word held before. */
  lemma SetPriorityIrqClearsUpperBytes(r: IrqRegs, id: IrqNum, p: Priority)
    requires p < 8
    ensures SetPriorityIrq(r, id, p).pri[PriWord(id)] & !(0xFF | FieldMask(PriPos(id))) == 0
  {
    PriWordAsWrittenClearsUpperBytes(r.pri[PriWord(id)], PriPos(id), p);
  }

  /** A concrete loss: with every bit of PRI0 set, giving IRQ 0 priority 0 wipes the
      priority 7 of IRQ 1, IRQ 2 and IRQ 3. */
  lemma NeighbourPriorityLost()
    ensures var r := IrqRegs([0, 0, 0, 0, 0], [0, 0, 0, 0, 0], seq(64, _ => 0xFFFF_FFFF));
            && Field3(r.pri[0], 13) == 7
            && Field3(SetPriorityIrq(r, 0, 0).pri[0], 13) == 0
            && Field3(SetPriorityIrq(r, 0, 0).pri[0], 21) == 0
            && Field3(SetPriorityIrq(r, 0, 0).pri[0], 29) == 0
  {
  }

  /** NVIC_SetPriorityIRQ with the clear-mask kept at 32 bits, as the driver's comments
      describe: a plain field write. */
  function SetPriorityIrqIntended(r: IrqRegs, id: IrqNum, p: Priority): (r': IrqRegs)
    ensures r'.(pri := r.pri) == r
    ensures forall k :: 0 <= k < 64 && k != PriWord(id) ==> r'.pri[k] == r.pri[k]
  {
    var k := PriWord(id);
    r.(pri := r.pri[k := FieldWritten(r.pri[k], PriPos(id), p)])
  }

  /** With the intended mask the IRQ's field reads back as the priority. */
  lemma SetPriorityIrqIntendedReadBack(r: IrqRegs, id: IrqNum, p: Priority)
    requires p < 8
    ensures Field3(SetPriorityIrqIntended(r, id, p).pri[PriWord(id)], PriPos(id)) == p as bv32
  {
    FieldWrittenReadBack(r.pri[PriWord(id)], PriPos(id), p);
  }

  /** With the intended mask every bit of the word outside the IRQ's field keeps its
      value, so in particular every neighbour keeps its priority. */
  lemma SetPriorityIrqIntendedKeepsOthers(r: IrqRegs, id: IrqNum, p: Priority)
    requires p < 8
    ensures SetPriorityIrqIntended(r, id, p).pri[PriWord(id)] & !FieldMask(PriPos(id))
         == r.pri[PriWord(id)] & !FieldMask(PriPos(id))
  {
    FieldWrittenKeepsOthers(r.pri[PriWord(id)], PriPos(id), p);
  }

  /** Word level: the field write keeps the neighbouring fields. */
  lemma FieldWrittenKeepsNeighbour(w: bv32, pos: FieldPos, other: FieldPos, p: Priority)
    requires other != pos
    requires pos == 5 || pos == 13 || pos == 21 || pos == 29
    requires other == 5 || other == 13 || other == 21 || other == 29
    ensures Field3(FieldWritten(w, pos, p), other) == Field3(w, other)
  {
  }

  /** With the intended mask every neighbour in the word keeps its priority. */
  lemma SetPriorityIrqIntendedKeepsNeighbours(r: IrqRegs, id: IrqNum, p: Priority, lane: bv8)
    requires lane < 4 && lane != PriLane(id)
    ensures Field3(SetPriorityIrqIntended(r, id, p).pri[PriWord(id)], LanePos(lane))
         == Field3(r.pri[PriWord(id)], LanePos(lane))
  {
    FieldWrittenKeepsNeighbour(r.pri[PriWord(id)], PriPos(id), LanePos(lane), p);
  }

  /** With the intended mask, setting the priority of `id` keeps the priority of every
      other IRQ number, in the same word or not. */
  lemma SetPriorityIrqIntendedKeepsOtherIrqs(r: IrqRegs, id: IrqNum, other: IrqNum, p: Priority)
    requires other != id
    ensures Field3(SetPriorityIrqIntended(r, id, p).pri[PriWord(other)], PriPos(other))
         == Field3(r.pri[PriWord(other)], PriPos(other))
  {
    if PriWord(other) == PriWord(id) {
      SameWordDifferentLane(other, id);
      SetPriorityIrqIntendedKeepsNeighbours(r, id, p, PriLane(other));
    }
  }

  /** Word level: the word as written differs from the intended word in exactly the bits
      of the old word that lie above bit 7 and outside the written field. */
  lemma PriWordsDifference(w: bv32, pos: FieldPos, p: Priority)
    requires p < 8 && (pos == 5 || pos == 13 || pos == 21 || pos == 29)
    ensures PriWordAsWritten(w, pos, p) ^ FieldWritten(w, pos, p) == w & !(0xFF | FieldMask(pos))
  {
  }

  /** Word level: the two ways of writing the word agree exactly when the old word held
      nothing above bit 7 outside the written field. */
  lemma PriWordsAgreeIff(w: bv32, pos: FieldPos, p: Priority)
    requires p < 8 && (pos == 5 || pos == 13 || pos == 21 || pos == 29)
    ensures PriWordAsWritten(w, pos, p) == FieldWritten(w, pos, p)
        <==> w & !(0xFF | FieldMask(pos)) == 0
  {
    PriWordsDifference(w, pos, p);
    XorZeroIff(PriWordAsWritten(w, pos, p), FieldWritten(w, pos, p));
  }

  /** The service as written agrees with the intended one exactly when the old word held
      nothing above bit 7 outside the written field. */
  lemma SetPriorityIrqAgreesWithIntendedIff(r: IrqRegs, id: IrqNum, p: Priority)
    requires p < 8
    ensures SetPriorityIrq(r, id, p) == SetPriorityIrqIntended(r, id, p)
        <==> r.pri[PriWord(id)] & !(0xFF | FieldMask(PriPos(id))) == 0
  {
    var k := PriWord(id);
    PriWordsAgreeIff(r.pri[k], PriPos(id), p);
    if SetPriorityIrq(r, id, p) == SetPriorityIrqIntended(r, id, p) {
      assert SetPriorityIrq(r, id, p).pri[k] == SetPriorityIrqIntended(r, id, p).pri[k];
    }
  }

  // ---------------------------------------------------------------------------------------
  // System exceptions
  // ---------------------------------------------------------------------------------------

  /** An `NVIC_ExceptionType` value: the seven exceptions the switches name, and any other
      value of the enumeration. */
  datatype Exception =
    | MemFault | BusFault | UsageFault | SvCall | DebugMonitor | PendSv | SysTick
    | Unlisted(code: int)

  // The constants below come from the driver's own header, which is not part of this
  // model. Their values are assumed from section B3.2 of the ARMv7-M Architecture
  // Reference Manual: MEMFAULTENA, BUSFAULTENA and USGFAULTENA are bits 16, 17 and 18 of
  // SHCSR; the TM4C123 implements the top 3 bits of each 8-bit priority, so the fields
  // are bits 5..7 of their byte: MemManage, BusFault and UsageFault in bytes 0, 1, 2 of
  // SHPR1, SVCall in byte 3 of SHPR2, DebugMonitor, PendSV and SysTick in bytes 0, 2, 3
  // of SHPR3. Each priority mask is the complement of its field.

  const MemFaultEnableMask: bv32 := 0x0001_0000
  const BusFaultEnableMask: bv32 := 0x0002_0000
  const UsageFaultEnableMask: bv32 := 0x0004_0000

  const MemFaultPriorityMask: bv32 := 0xFFFF_FF1F
  const MemFaultPriorityPos: FieldPos := 5
  const BusFaultPriorityMask: bv32 := 0xFFFF_1FFF
  const BusFaultPriorityPos: FieldPos := 13
  const UsageFaultPriorityMask: bv32 := 0xFF1F_FFFF
  const UsageFaultPriorityPos: FieldPos := 21
  const SvcPriorityMask: bv32 := 0x1FFF_FFFF
  const SvcPriorityPos: FieldPos := 29
  const DebugMonitorPriorityMask: bv32 := 0xFFFF_FF1F
  const DebugMonitorPriorityPos: FieldPos := 5
  const PendSvPriorityMask: bv32 := 0xFF1F_FFFF
  const PendSvPriorityPos: FieldPos := 21
  const SysTickPriorityMask: bv32 := 0x1FFF_FFFF
  const SysTickPriorityPos: FieldPos := 29

  /** The three faults the enable and disable switches name. */
  predicate IsConfigurableFault(e: Exception) {
    e == MemFault || e == BusFault || e == UsageFault
  }

  /** The SHCSR bit that enables each configurable fault. */
  function FaultEnableBit(e: Exception): BitPos
    requires IsConfigurableFault(e)
  {
    match e
    case MemFault => 16
    case BusFault => 17
    case UsageFault => 18
  }

  /** The enable mask the switch case of a configurable fault names. */
  function FaultEnableMask(e: Exception): (m: bv32)
    requires IsConfigurableFault(e)
    ensures m != 0 && m & !0x0007_0000 == 0
  {
    match e
    case MemFault => MemFaultEnableMask
    case BusFault => BusFaultEnableMask
    case UsageFault => UsageFaultEnableMask
  }

  /** Each assumed enable mask is the single bit of its fault. */
  lemma FaultEnableMaskIsBit(e: Exception)
    requires IsConfigurableFault(e)
    ensures FaultEnableMask(e) == Bit(FaultEnableBit(e))
  {
    match e
    case MemFault =>
    case BusFault =>
    case UsageFault =>
  }

  /** NVIC_EnableException: for the three faults the fault's enable mask is OR-ed into
      SHCSR; for any other value nothing is written. */
  function EnableException(r: SysRegs, e: Exception): (r': SysRegs)
    ensures r'.(sysHndCtrl := r.sysHndCtrl) == r
    ensures !IsConfigurableFault(e) ==> r' == r
  {
    if IsConfigurableFault(e) then r.(sysHndCtrl := r.sysHndCtrl | FaultEnableMask(e)) else r
  }

  /** NVIC_DisableException: the same switch, AND-ing SHCSR with the complement of the
      fault's enable mask. */
  function DisableException(r: SysRegs, e: Exception): (r': SysRegs)
    ensures r'.(sysHndCtrl := r.sysHndCtrl) == r
    ensures !IsConfigurableFault(e) ==> r' == r
  {
    if IsConfigurableFault(e) then r.(sysHndCtrl := r.sysHndCtrl & !FaultEnableMask(e)) else r
  }

  /** Enabling a fault sets its SHCSR enable bit. */
  lemma EnableExceptionSetsBit(r: SysRegs, e: Exception)
    requires IsConfigurableFault(e)
    ensures TestBit(EnableException(r, e).sysHndCtrl, FaultEnableBit(e))
  {
    FaultEnableMaskIsBit(e);
    SetBitSets(r.sysHndCtrl, FaultEnableBit(e));
  }

  /** Enabling a fault keeps every other SHCSR bit. */
  lemma EnableExceptionKeepsOtherBits(r: SysRegs, e: Exception)
    requires IsConfigurableFault(e)
    ensures EnableException(r, e).sysHndCtrl & !Bit(FaultEnableBit(e))
         == r.sysHndCtrl & !Bit(FaultEnableBit(e))
  {
    FaultEnableMaskIsBit(e);
    SetBitKeepsOthers(r.sysHndCtrl, FaultEnableBit(e));
  }

  /** Disabling a fault clears its SHCSR enable bit. */
  lemma DisableExceptionClearsBit(r: SysRegs, e: Exception)
    requires IsConfigurableFault(e)
    ensures !TestBit(DisableException(r, e).sysHndCtrl, FaultEnableBit(e))
  {
    FaultEnableMaskIsBit(e);
    ClearBitClears(r.sysHndCtrl, FaultEnableBit(e));
  }

  /** Disabling a fault keeps every other SHCSR bit. */
  lemma DisableExceptionKeepsOtherBits(r: SysRegs, e: Exception)
    requires IsConfigurableFault(e)
    ensures DisableException(r, e).sysHndCtrl & !Bit(FaultEnableBit(e))
         == r.sysHndCtrl & !Bit(FaultEnableBit(e))
  {
    FaultEnableMaskIsBit(e);
    ClearBitKeepsOthers(r.sysHndCtrl, FaultEnableBit(e));
  }

  /** Disabling after enabling leaves SHCSR with the fault's bits cleared. */
  lemma DisableAfterEnableWord(r: SysRegs, e: Exception)
    requires IsConfigurableFault(e)
    ensures DisableException(EnableException(r, e), e).sysHndCtrl == r.sysHndCtrl & !FaultEnableMask(e)
  {
    SetThenClearMask(r.sysHndCtrl, FaultEnableMask(e));
  }

  /** Disabling after enabling is disabling. */
  lemma DisableAfterEnable(r: SysRegs, e: Exception)
    ensures DisableException(EnableException(r, e), e) == DisableException(r, e)
  {
    if IsConfigurableFault(e) {
      DisableAfterEnableWord(r, e);
    }
  }

  /** Enabling after disabling leaves SHCSR with the fault's bits set. */
  lemma EnableAfterDisableWord(r: SysRegs, e: Exception)
    requires IsConfigurableFault(e)
    ensures EnableException(DisableException(r, e), e).sysHndCtrl == r.sysHndCtrl | FaultEnableMask(e)
  {
    ClearThenSetMask(r.sysHndCtrl, FaultEnableMask(e));
  }

  /** Enabling after disabling is enabling. */
  lemma EnableAfterDisable(r: SysRegs, e: Exception)
    ensures EnableException(DisableException(r, e), e) == EnableException(r, e)
  {
    if IsConfigurableFault(e) {
      EnableAfterDisableWord(r, e);
    }
  }

  /** The three system priority registers. */
  datatype SysPriReg = Pri1 | Pri2 | Pri3

  function SysPri(r: SysRegs, which: SysPriReg): bv32 {
    match which
    case Pri1 => r.sysPri1
    case Pri2 => r.sysPri2
    case Pri3 => r.sysPri3
  }

  /** The exceptions NVIC_SetPriorityException names: all but the unnamed values. */
  predicate HasPriority(e: Exception) {
    !e.Unlisted?
  }

  /** The system priority register that holds an exception's priority: SHPR1 for the
      three faults, SHPR2 for SVCall, SHPR3 for DebugMonitor, PendSV and SysTick. */
  function PriorityRegisterOf(e: Exception): (which: SysPriReg)
    requires HasPriority(e)
    ensures which == Pri1 <==> IsConfigurableFault(e)
    ensures which == Pri2 <==> e == SvCall
  {
    match e
    case MemFault => Pri1
    case BusFault => Pri1
    case UsageFault => Pri1
    case SvCall => Pri2
    case DebugMonitor => Pri3
    case PendSv => Pri3
    case SysTick => Pri3
  }

  /** The priority mask the switch case of an exception names. */
  function PriorityMaskOf(e: Exception): (m: bv32)
    requires HasPriority(e)
    ensures m == !FieldMask(PriorityPosOf(e))
  {
    match e
    case MemFault => MemFaultPriorityMask
    case BusFault => BusFaultPriorityMask
    case UsageFault => UsageFaultPriorityMask
    case SvCall => SvcPriorityMask
    case DebugMonitor => DebugMonitorPriorityMask
    case PendSv => PendSvPriorityMask
    case SysTick => SysTickPriorityMask
  }

  /** The priority position the switch case of an exception names. */
  function PriorityPosOf(e: Exception): (pos: FieldPos)
    requires HasPriority(e)
    ensures pos == 5 || pos == 13 || pos == 21 || pos == 29
  {
    match e
    case MemFault => MemFaultPriorityPos
    case BusFault => BusFaultPriorityPos
    case UsageFault => UsageFaultPriorityPos
    case SvCall => SvcPriorityPos
    case DebugMonitor => DebugMonitorPriorityPos
    case PendSv => PendSvPriorityPos
    case SysTick => SysTickPriorityPos
  }

  /** Two exceptions that share a system priority register have their fields at
      different positions. */
  lemma PriorityFieldsDisjoint(e: Exception, other: Exception)
    requires HasPriority(e) && HasPriority(other) && e != other
    requires PriorityRegisterOf(e) == PriorityRegisterOf(other)
    ensures PriorityPosOf(e) != PriorityPosOf(other)
  {
  }

  /** The new value of a system priority register: AND-ed with the exception's mask, with
      the priority shifted to the exception's position OR-ed in. */
  function SysPriWritten(w: bv32, e: Exception, p: Priority): (v: bv32)
    requires HasPriority(e)
    ensures p < 8 ==> Field3(v, PriorityPosOf(e)) == p as bv32
  {
    (w & PriorityMaskOf(e)) | ((p as bv32) << PriorityPosOf(e))
  }

  /** NVIC_SetPriorityException: exactly one system priority register is written, the one
      the exception's case names; an unnamed value writes nothing. */
  function SetPriorityException(r: SysRegs, e: Exception, p: Priority): (r': SysRegs)
    ensures !HasPriority(e) ==> r' == r
    ensures HasPriority(e) && PriorityRegisterOf(e) == Pri1 ==> r'.(sysPri1 := r.sysPri1) == r
    ensures HasPriority(e) && PriorityRegisterOf(e) == Pri2 ==> r'.(sysPri2 := r.sysPri2) == r
    ensures HasPriority(e) && PriorityRegisterOf(e) == Pri3 ==> r'.(sysPri3 := r.sysPri3) == r
  {
    if !HasPriority(e) then r
    else match PriorityRegisterOf(e)
      case Pri1 => r.(sysPri1 := SysPriWritten(r.sysPri1, e, p))
      case Pri2 => r.(sysPri2 := SysPriWritten(r.sysPri2, e, p))
      case Pri3 => r.(sysPri3 := SysPriWritten(r.sysPri3, e, p))
  }

  /** The register the exception names receives the written value. */
  lemma SetPriorityExceptionWrites(r: SysRegs, e: Exception, p: Priority)
    requires HasPriority(e)
    ensures SysPri(SetPriorityException(r, e, p), PriorityRegisterOf(e))
         == SysPriWritten(SysPri(r, PriorityRegisterOf(e)), e, p)
  {
  }

  /** The exception's field reads back as the priority. */
  lemma SetPriorityExceptionReadBack(r: SysRegs, e: Exception, p: Priority)
    requires HasPriority(e) && p < 8
    ensures Field3(SysPri(SetPriorityException(r, e, p), PriorityRegisterOf(e)), PriorityPosOf(e)) == p as bv32
  {
    var w := SysPri(r, PriorityRegisterOf(e));
    SetPriorityExceptionWrites(r, e, p);
    FieldWrittenReadBack(w, PriorityPosOf(e), p);
  }

  /** Every bit of the exception's register outside its field keeps its value. */
  lemma SetPriorityExceptionKeepsBits(r: SysRegs, e: Exception, p: Priority)
    requires HasPriority(e) && p < 8
    ensures SysPri(SetPriorityException(r, e, p), PriorityRegisterOf(e)) & !FieldMask(PriorityPosOf(e))
         == SysPri(r, PriorityRegisterOf(e)) & !FieldMask(PriorityPosOf(e))
  {
    var w := SysPri(r, PriorityRegisterOf(e));
    SetPriorityExceptionWrites(r, e, p);
    FieldWrittenKeepsOthers(w, PriorityPosOf(e), p);
  }

  /** Setting one exception's priority keeps the priority of every other exception. */
  lemma SetPriorityExceptionKeepsOthers(r: SysRegs, e: Exception, other: Exception, p: Priority)
    requires HasPriority(e) && HasPriority(other) && e != other
    ensures Field3(SysPri(SetPriorityException(r, e, p), PriorityRegisterOf(other)), PriorityPosOf(other))
         == Field3(SysPri(r, PriorityRegisterOf(other)), PriorityPosOf(other))
  {
    if PriorityRegisterOf(e) == PriorityRegisterOf(other) {
      var w := SysPri(r, PriorityRegisterOf(e));
      SetPriorityExceptionWrites(r, e, p);
      PriorityFieldsDisjoint(e, other);
      FieldWrittenKeepsNeighbour(w, PriorityPosOf(e), PriorityPosOf(other), p);
    }
  }
}
