// Machine instructions of the Hexagon back end as its VLIW packetizer sees
// them: an opcode, a list of operands and the memory-ordering flag. Every
// question the packetizer asks the instruction information or the register
// information of the target is a field of `Target`, left uninterpreted.

module HexagonInstr {

  /** A physical register number; 0 stands for "no register". */
  type Reg = nat

  const NoRegister: Reg := 0

  /** The minimal physical register classes the packetizer distinguishes. */
  datatype RegClass = PredRegs | IntRegs | DoubleRegs | VecDblRegs | OtherRegs

  datatype Operand =
    | RegOp(reg: Reg, isDef: bool, isImplicit: bool, isDead: bool)
    | ImmOp(imm: int)
    | OtherOp

  predicate IsUse(o: Operand) {
    o.RegOp? && !o.isDef
  }

  predicate IsDef(o: Operand) {
    o.RegOp? && o.isDef
  }

  /** The four base-plus-offset stores that may be glued to an allocframe. */
  datatype StoreWidth = StoreDouble | StoreWord | StoreHalf | StoreByte

  /** The six absolute-set loads. */
  datatype LoadApWidth = ApDouble | ApByte | ApHalf | ApUByte | ApUHalf | ApWord

  /** Opcodes the packetizer names, target-independent pseudo opcodes
      included; every other opcode is `OtherOpcode`. */
  datatype Opcode =
    | Kill | DebugValue | InlineAsm | ImplicitDef | CfiInstruction | EhLabel
    | J2Jump | Y2Barrier | Y2Dcfetchbo | A2Nop | A4Ext | S2Allocframe
    | StoreIo(width: StoreWidth)
    | LoadAp(apWidth: LoadApWidth)
    | VL32bCurAi | VL32bAi
    | OtherOpcode(id: nat)

  /** The flags of an instruction descriptor the packetizer reads. */
  datatype Desc = Desc(
    isCall: bool,
    isReturn: bool,
    isBranch: bool,
    isConditionalBranch: bool,
    isBarrier: bool,
    isTerminator: bool,
    mayLoad: bool,
    mayStore: bool,
    implicitDefs: seq<Reg>)

  datatype Instr = Instr(opcode: Opcode, operands: seq<Operand>, hasOrderedMemoryRef: bool)

  /** The queries of the Hexagon instruction and register information, the
      resource automaton (`fits`: can these opcodes share one packet) and the
      subtarget feature the packetizer consults. */
  datatype Target = Target(
    desc: Opcode -> Desc,
    regClass: Reg -> RegClass,
    destClass: Opcode -> RegClass,
    overlaps: (Reg, Reg) -> bool,
    isSuperRegister: (Reg, Reg) -> bool,
    superRegOf: Reg -> Reg,
    raRegister: Reg,
    frameRegister: Reg,
    stackRegister: Reg,
    usrOvf: Reg,
    calleeSaved: seq<Reg>,
    isPredicated: Opcode -> bool,
    isPredicatedTrue: Opcode -> bool,
    isPredicatedNew: Opcode -> bool,
    isDotNewInst: Opcode -> bool,
    isDotCurInst: Opcode -> bool,
    mayBeCurLoad: Opcode -> bool,
    mayBeNewStore: Opcode -> bool,
    isCondInst: Opcode -> bool,
    isV60Vector: Opcode -> bool,
    isNewValueJump: Opcode -> bool,
    isNewValueInst: Opcode -> bool,
    isMemOp: Opcode -> bool,
    isDeallocRet: Opcode -> bool,
    isLoopN: Opcode -> bool,
    isJumpR: Opcode -> bool,
    isSolo: Opcode -> bool,
    isTailCall: Opcode -> bool,
    isIndirectCall: Opcode -> bool,
    isPostIncrement: Opcode -> bool,
    hasFuncUnits: Opcode -> bool,
    isSaveCalleeSavedRegsCall: Instr -> bool,
    isExtended: Instr -> bool,
    isSchedulingBoundary: Instr -> bool,
    predCanBeUsedAsDotNew: (Instr, Reg) -> bool,
    isHvxMemWithAIndirect: (Instr, Instr) -> bool,
    hasV60TOpsOnly: bool,
    dotNewOp: Opcode -> Opcode,
    dotNewPredOp: Opcode -> Opcode,
    dotCurOp: Opcode -> Opcode,
    dotOldOp: Opcode -> Opcode,
    isValidOffset: (Opcode, int) -> bool,
    fits: seq<Opcode> -> bool)

  /** The command-line switches of the packetizer. */
  datatype Options = Options(packetizeVolatiles: bool, scheduleInlineAsm: bool, disableVecDblNvStores: bool)

  /** Operand `k`; an operand the instruction does not have reads as a
      non-register. */
  function Op(mi: Instr, k: int): Operand {
    if 0 <= k < |mi.operands| then mi.operands[k] else OtherOp
  }

  /** The register of an operand; a non-register operand gives no register. */
  function RegOf(o: Operand): Reg {
    if o.RegOp? then o.reg else NoRegister
  }

  function D(t: Target, mi: Instr): Desc {
    t.desc(mi.opcode)
  }

  predicate IsPredicated(t: Target, mi: Instr) {
    t.isPredicated(mi.opcode)
  }

  /** Some use operand reads a register overlapping `r`. */
  predicate ReadsRegister(t: Target, mi: Instr, r: Reg) {
    exists k | 0 <= k < |mi.operands| :: IsUse(mi.operands[k]) && t.overlaps(mi.operands[k].reg, r)
  }

  /** Some def operand writes a register overlapping `r`. */
  predicate ModifiesRegister(t: Target, mi: Instr, r: Reg) {
    exists k | 0 <= k < |mi.operands| :: IsDef(mi.operands[k]) && t.overlaps(mi.operands[k].reg, r)
  }

  /** Some def operand is exactly `r`. */
  predicate DefinesRegister(mi: Instr, r: Reg) {
    exists k | 0 <= k < |mi.operands| :: IsDef(mi.operands[k]) && mi.operands[k].reg == r
  }

  /** Some register operand, def or use, is exactly `r`. */
  predicate HasRegOperand(mi: Instr, r: Reg) {
    exists k | 0 <= k < |mi.operands| :: mi.operands[k].RegOp? && mi.operands[k].reg == r
  }

  /** `first` writes a register that `second` reads. */
  predicate HasWriteToReadDep(t: Target, first: Instr, second: Instr) {
    exists k | 0 <= k < |first.operands| ::
      IsDef(first.operands[k]) && ReadsRegister(t, second, first.operands[k].reg)
  }

  /** Dependence edges of the scheduling graph, between instructions named by
      their position in the block. */
  datatype DepKind = Data | Anti | Output | Order

  datatype Dep = Dep(pred: nat, succ: nat, kind: DepKind, reg: Reg)

  /** Instruction `i` is a successor of instruction `j`. */
  predicate IsSucc(deps: seq<Dep>, j: nat, i: nat) {
    exists k | 0 <= k < |deps| :: deps[k].pred == j && deps[k].succ == i
  }

  /** Positions held in a packet or a list are positions of the block. */
  predicate InBlock(mis: seq<Instr>, ids: seq<nat>) {
    forall k | 0 <= k < |ids| :: ids[k] < |mis|
  }
}
