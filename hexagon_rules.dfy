// The legality rules of the Hexagon packetizer that only inspect
// instructions: which pairs may never share a packet, the dead-definition,
// control and store-class hazards, the feasibility of dot-new, dot-cur and
// new-value-store promotions, and the complementary-predicate test.

module HexagonRules {
  import opened HexagonInstr

  // ---------------------------------------------------------------------
  // Mutual exclusion.

  /** The one-way quick test: an inline asm cannot share a packet with
      another inline asm, a branch, a barrier, a call or a terminator. */
  predicate CannotCoexistAsymm(t: Target, mi: Instr, mj: Instr) {
    (t.hasV60TOpsOnly && t.isHvxMemWithAIndirect(mi, mj)) ||
    (mi.opcode == InlineAsm &&
      (mj.opcode == InlineAsm || D(t, mj).isBranch || D(t, mj).isBarrier ||
       D(t, mj).isCall || D(t, mj).isTerminator))
  }

  predicate CannotCoexist(t: Target, mi: Instr, mj: Instr) {
    CannotCoexistAsymm(t, mi, mj) || CannotCoexistAsymm(t, mj, mi)
  }

  /** The full test is symmetric, and an inline asm excludes the other
      inline asms and every control-flow or barrier instruction, in either
      order. */
  lemma CannotCoexistSymmetric(t: Target, mi: Instr, mj: Instr)
    ensures CannotCoexist(t, mi, mj) <==> CannotCoexist(t, mj, mi)
    ensures mi.opcode == InlineAsm &&
            (mj.opcode == InlineAsm || D(t, mj).isBranch || D(t, mj).isBarrier ||
             D(t, mj).isCall || D(t, mj).isTerminator)
            ==> CannotCoexist(t, mi, mj) && CannotCoexist(t, mj, mi)
    ensures !t.hasV60TOpsOnly && mi.opcode != InlineAsm && mj.opcode != InlineAsm ==>
            !CannotCoexist(t, mi, mj)
  {
  }

  // ---------------------------------------------------------------------
  // Dead definitions.

  predicate IsDeadDef(o: Operand) {
    o.RegOp? && o.isDef && o.isDead
  }

  /** Registers `mi` defines without using the value. */
  function DeadDefs(mi: Instr): set<Reg> {
    set k | 0 <= k < |mi.operands| && IsDeadDef(mi.operands[k]) :: mi.operands[k].reg
  }

  /** Two instructions defining the same dead register must not share a
      packet (the dependence graph may have no edge between them). */
  predicate HasDeadDependence(t: Target, mi: Instr, mj: Instr) {
    if D(t, mi).isCall || D(t, mj).isCall then false
    else if IsPredicated(t, mi) || IsPredicated(t, mj) then false
    else
      var deadDefs := DeadDefs(mi);
      exists k | 0 <= k < |mj.operands| ::
        IsDeadDef(mj.operands[k]) && mj.operands[k].reg != t.usrOvf && mj.operands[k].reg in deadDefs
  }

  /** `r` is defined dead by `mi`. */
  predicate DefinesDead(mi: Instr, r: Reg) {
    exists k | 0 <= k < |mi.operands| :: IsDeadDef(mi.operands[k]) && mi.operands[k].reg == r
  }

  lemma DeadDependenceCases(t: Target, mi: Instr, mj: Instr)
    ensures D(t, mi).isCall || D(t, mj).isCall || IsPredicated(t, mi) || IsPredicated(t, mj) ==>
      !HasDeadDependence(t, mi, mj)
    ensures !(D(t, mi).isCall || D(t, mj).isCall || IsPredicated(t, mi) || IsPredicated(t, mj)) ==>
      (HasDeadDependence(t, mi, mj) <==>
       exists r :: r != t.usrOvf && DefinesDead(mi, r) && DefinesDead(mj, r))
  {
    if !(D(t, mi).isCall || D(t, mj).isCall || IsPredicated(t, mi) || IsPredicated(t, mj)) {
      if HasDeadDependence(t, mi, mj) {
        var k :| 0 <= k < |mj.operands| && IsDeadDef(mj.operands[k]) &&
                 mj.operands[k].reg != t.usrOvf && mj.operands[k].reg in DeadDefs(mi);
        var r := mj.operands[k].reg;
        var l :| 0 <= l < |mi.operands| && IsDeadDef(mi.operands[l]) && mi.operands[l].reg == r;
        assert DefinesDead(mi, r) && DefinesDead(mj, r);
      }
      if exists r :: r != t.usrOvf && DefinesDead(mi, r) && DefinesDead(mj, r) {
        var r :| r != t.usrOvf && DefinesDead(mi, r) && DefinesDead(mj, r);
        var l :| 0 <= l < |mi.operands| && IsDeadDef(mi.operands[l]) && mi.operands[l].reg == r;
        assert r in DeadDefs(mi);
        var k :| 0 <= k < |mj.operands| && IsDeadDef(mj.operands[k]) && mj.operands[k].reg == r;
        assert IsDeadDef(mj.operands[k]) && mj.operands[k].reg != t.usrOvf && mj.operands[k].reg in DeadDefs(mi);
      }
    }
  }

  // ---------------------------------------------------------------------
  // Control hazards.

  predicate IsControlFlow(t: Target, mi: Instr) {
    D(t, mi).isTerminator || D(t, mi).isCall
  }

  predicate DoesModifyCalleeSavedReg(t: Target, mi: Instr) {
    exists k | 0 <= k < |t.calleeSaved| :: ModifiesRegister(t, mi, t.calleeSaved[k])
  }

  /** What a loop-setup packet must not contain (section 7.3.4 of the
      Hexagon reference manual). */
  predicate IsBadForLoopN(t: Target, mi: Instr) {
    D(t, mi).isCall || t.isDeallocRet(mi.opcode) || t.isNewValueJump(mi.opcode) ||
    (IsPredicated(t, mi) && t.isPredicatedNew(mi.opcode) && t.isJumpR(mi.opcode))
  }

  /** The rule that only looks at `mi`: a dealloc_return excludes branches,
      calls and barriers. */
  predicate DeallocRetExcludes(t: Target, mi: Instr, mj: Instr) {
    t.isDeallocRet(mi.opcode) && (D(t, mj).isBranch || D(t, mj).isCall || D(t, mj).isBarrier)
  }

  predicate HasControlDependence(t: Target, mi: Instr, mj: Instr) {
    if (t.isSaveCalleeSavedRegsCall(mi) && DoesModifyCalleeSavedReg(t, mj)) ||
       (t.isSaveCalleeSavedRegsCall(mj) && DoesModifyCalleeSavedReg(t, mi)) then true
    else if IsControlFlow(t, mi) && IsControlFlow(t, mj) then true
    else if t.isLoopN(mi.opcode) && IsBadForLoopN(t, mj) then true
    else if t.isLoopN(mj.opcode) && IsBadForLoopN(t, mi) then true
    else DeallocRetExcludes(t, mi, mj)
  }

  /** Every control rule but the dealloc_return one is symmetric; two
      control-flow instructions always conflict. */
  lemma ControlDependenceSymmetric(t: Target, mi: Instr, mj: Instr)
    ensures HasControlDependence(t, mi, mj) && !DeallocRetExcludes(t, mi, mj) ==>
      HasControlDependence(t, mj, mi)
    ensures IsControlFlow(t, mi) && IsControlFlow(t, mj) ==> HasControlDependence(t, mi, mj)
    ensures t.isLoopN(mi.opcode) && D(t, mj).isCall ==> HasControlDependence(t, mi, mj)
  {
  }

  // ---------------------------------------------------------------------
  // Store classes (section 3.4.4.2 of the Hexagon architecture
  // specification: dual stores, slot 0).

  predicate IsSystemInstr(mi: Instr) {
    mi.opcode == Y2Barrier || mi.opcode == Y2Dcfetchbo
  }

  predicate HasV4SpecificDependence(t: Target, mi: Instr, mj: Instr) {
    var sysI, sysJ := IsSystemInstr(mi), IsSystemInstr(mj);
    var storeI, storeJ := D(t, mi).mayStore, D(t, mj).mayStore;
    if (sysI && storeJ) || (sysJ && storeI) then true
    else if storeI && storeJ && (t.isNewValueInst(mj.opcode) || t.isMemOp(mj.opcode) || t.isMemOp(mi.opcode)) then true
    else if !(storeI && storeJ) && (t.isMemOp(mi.opcode) || storeI) && (t.isMemOp(mj.opcode) || storeJ) then true
    else (storeJ && t.isDeallocRet(mi.opcode)) || (storeI && t.isDeallocRet(mj.opcode))
  }

  /** With neither instruction a system instruction nor a dealloc_return:
      two stores conflict exactly when the earlier one is new-value or
      either is a memop; a store and a non-store conflict exactly when the
      non-store is a memop; two non-stores conflict exactly when both are
      memops. A system instruction or a dealloc_return with a store always
      conflicts. */
  lemma StoreClassRules(t: Target, mi: Instr, mj: Instr)
    ensures var storeI, storeJ := D(t, mi).mayStore, D(t, mj).mayStore;
      (!IsSystemInstr(mi) && !IsSystemInstr(mj) && !t.isDeallocRet(mi.opcode) && !t.isDeallocRet(mj.opcode)) ==>
        (storeI && storeJ ==>
          (HasV4SpecificDependence(t, mi, mj) <==>
           t.isNewValueInst(mj.opcode) || t.isMemOp(mi.opcode) || t.isMemOp(mj.opcode))) &&
        (storeI && !storeJ ==> (HasV4SpecificDependence(t, mi, mj) <==> t.isMemOp(mj.opcode))) &&
        (!storeI && storeJ ==> (HasV4SpecificDependence(t, mi, mj) <==> t.isMemOp(mi.opcode))) &&
        (!storeI && !storeJ ==>
          (HasV4SpecificDependence(t, mi, mj) <==> t.isMemOp(mi.opcode) && t.isMemOp(mj.opcode)))
    ensures IsSystemInstr(mi) && D(t, mj).mayStore ==> HasV4SpecificDependence(t, mi, mj)
    ensures IsSystemInstr(mj) && D(t, mi).mayStore ==> HasV4SpecificDependence(t, mi, mj)
    ensures t.isDeallocRet(mi.opcode) && D(t, mj).mayStore ==> HasV4SpecificDependence(t, mi, mj)
    ensures t.isDeallocRet(mj.opcode) && D(t, mi).mayStore ==> HasV4SpecificDependence(t, mi, mj)
  {
  }

  /** The store-class test is symmetric except for the new-value status of
      the earlier of two stores. */
  lemma StoreClassSymmetric(t: Target, mi: Instr, mj: Instr)
    requires !(D(t, mi).mayStore && D(t, mj).mayStore && (t.isNewValueInst(mi.opcode) || t.isNewValueInst(mj.opcode)))
    ensures HasV4SpecificDependence(t, mi, mj) <==> HasV4SpecificDependence(t, mj, mi)
  {
  }

  // ---------------------------------------------------------------------
  // Edges into calls and returns.

  predicate IsRegDependence(kind: DepKind) {
    kind == Data || kind == Anti || kind == Output
  }

  /** A register edge into a call or return that still matters: on the
      return address, on the frame or stack register of a dealloc_return, on
      a predicate register, or a data edge on the target of an indirect
      call. */
  predicate IsCallDependent(t: Target, mi: Instr, kind: DepKind, depReg: Reg) {
    depReg == t.raRegister ||
    (t.isDeallocRet(mi.opcode) && (depReg == t.frameRegister || depReg == t.stackRegister)) ||
    t.regClass(depReg) == PredRegs ||
    (t.isIndirectCall(mi.opcode) && kind == Data && IsUse(Op(mi, 0)) && Op(mi, 0).reg == depReg)
  }

  predicate IsDirectJump(mi: Instr) {
    mi.opcode == J2Jump
  }

  predicate IsSchedBarrier(mi: Instr) {
    mi.opcode == Y2Barrier
  }

  // ---------------------------------------------------------------------
  // Predicates.

  datatype PredicateKind = PkFalse | PkTrue | PkUnknown

  function PredicateSense(t: Target, mi: Instr): (k: PredicateKind)
    ensures k == PkUnknown <==> !IsPredicated(t, mi)
    ensures k == PkTrue <==> IsPredicated(t, mi) && t.isPredicatedTrue(mi.opcode)
  {
    if !IsPredicated(t, mi) then PkUnknown
    else if t.isPredicatedTrue(mi.opcode) then PkTrue
    else PkFalse
  }

  predicate IsPredUse(t: Target, o: Operand) {
    IsUse(o) && o.reg != NoRegister && t.regClass(o.reg) == PredRegs
  }

  /** The first predicate register `ops` use, or no register. */
  function FirstPredUse(t: Target, ops: seq<Operand>): (r: Reg)
    ensures r != NoRegister ==>
      t.regClass(r) == PredRegs &&
      exists k | 0 <= k < |ops| :: IsPredUse(t, ops[k]) && ops[k].reg == r &&
        forall l | 0 <= l < k :: !IsPredUse(t, ops[l])
    ensures r == NoRegister ==> forall k | 0 <= k < |ops| :: !IsPredUse(t, ops[k])
  {
    if ops == [] then NoRegister
    else if IsPredUse(t, ops[0]) then ops[0].reg
    else
      var r := FirstPredUse(t, ops[1..]);
      assert forall k | 1 <= k < |ops| :: ops[k] == ops[1..][k - 1];
      r
  }

  /** The predicate register of a predicated instruction: its first use of
      a predicate register. */
  function PredicatedRegister(t: Target, mi: Instr): Reg {
    FirstPredUse(t, mi.operands)
  }

  /** Some member of the packet that is predicated has an anti edge on
      `depReg` to instruction `p`. */
  predicate RestrictingDepExistInPacket(t: Target, mis: seq<Instr>, packet: seq<nat>, deps: seq<Dep>,
                                        p: nat, depReg: Reg)
    requires InBlock(mis, packet)
  {
    exists k, e | 0 <= k < |packet| && 0 <= e < |deps| ::
      IsPredicated(t, mis[packet[k]]) &&
      deps[e].pred == packet[k] && deps[e].succ == p && deps[e].kind == Anti && deps[e].reg == depReg
  }

  /** A member of the packet feeds the candidate's predicate and is itself
      anti-dependent, within the packet, on that predicate: the candidate
      would become dot-new and lose its complement. */
  predicate ComplementCornerCase(t: Target, mis: seq<Instr>, packet: seq<nat>, deps: seq<Dep>, i: nat)
    requires InBlock(mis, packet)
  {
    exists k, e | 0 <= k < |packet| && 0 <= e < |deps| ::
      deps[e].pred == packet[k] && deps[e].succ == i && deps[e].kind == Data &&
      t.regClass(deps[e].reg) == PredRegs &&
      RestrictingDepExistInPacket(t, mis, packet, deps, packet[k], deps[e].reg)
  }

  predicate ArePredicatesComplements(t: Target, mis: seq<Instr>, packet: seq<nat>, deps: seq<Dep>, i: nat, j: nat)
    requires InBlock(mis, packet) && i < |mis| && j < |mis|
  {
    var mi, mj := mis[i], mis[j];
    if PredicateSense(t, mi) == PkUnknown || PredicateSense(t, mj) == PkUnknown then false
    else if ComplementCornerCase(t, mis, packet, deps, i) then false
    else
      var r1, r2 := PredicatedRegister(t, mi), PredicatedRegister(t, mj);
      r1 == r2 && t.regClass(r1) == PredRegs && t.regClass(r2) == PredRegs &&
      PredicateSense(t, mi) != PredicateSense(t, mj) &&
      t.isDotNewInst(mi.opcode) == t.isDotNewInst(mj.opcode)
  }

  /** Complementary predicates: both instructions predicated, on the same
      predicate register, with opposite senses and the same dot-new status;
      outside the corner case this is also sufficient. */
  lemma ComplementsMeaning(t: Target, mis: seq<Instr>, packet: seq<nat>, deps: seq<Dep>, i: nat, j: nat)
    requires InBlock(mis, packet) && i < |mis| && j < |mis|
    ensures ArePredicatesComplements(t, mis, packet, deps, i, j) ==>
      IsPredicated(t, mis[i]) && IsPredicated(t, mis[j]) &&
      PredicatedRegister(t, mis[i]) == PredicatedRegister(t, mis[j]) &&
      t.regClass(PredicatedRegister(t, mis[i])) == PredRegs &&
      t.isPredicatedTrue(mis[i].opcode) != t.isPredicatedTrue(mis[j].opcode) &&
      t.isDotNewInst(mis[i].opcode) == t.isDotNewInst(mis[j].opcode)
    ensures (!ComplementCornerCase(t, mis, packet, deps, i) &&
             IsPredicated(t, mis[i]) && IsPredicated(t, mis[j]) &&
             PredicatedRegister(t, mis[i]) == PredicatedRegister(t, mis[j]) &&
             t.regClass(PredicatedRegister(t, mis[i])) == PredRegs &&
             t.isPredicatedTrue(mis[i].opcode) != t.isPredicatedTrue(mis[j].opcode) &&
             t.isDotNewInst(mis[i].opcode) == t.isDotNewInst(mis[j].opcode)) ==>
      ArePredicatesComplements(t, mis, packet, deps, i, j)
  {
  }

  // ---------------------------------------------------------------------
  // Promotions.

  /** Can `mi` read a register defined in the same packet: a conditional
      instruction, a return or a store that may become new-value; a vector
      store cannot be predicated on a dot-new predicate. */
  predicate IsNewifiable(t: Target, mi: Instr, rc: RegClass) {
    if rc == PredRegs && t.isV60Vector(mi.opcode) && D(t, mi).mayStore then false
    else t.isCondInst(mi.opcode) || D(t, mi).isReturn || t.mayBeNewStore(mi.opcode)
  }

  /** Can load `mj` become a dot-cur load feeding the candidate `mi` on
      `depReg`: both vector instructions, `mj` a possible cur load that is
      not inline asm, `mi` naming `mj`'s destination, and no member of the
      packet reading `depReg`. */
  predicate CanPromoteToDotCur(t: Target, mis: seq<Instr>, packet: seq<nat>, j: nat, i: nat, depReg: Reg)
    requires InBlock(mis, packet) && i < |mis| && j < |mis|
  {
    var mj, mi := mis[j], mis[i];
    t.isV60Vector(mj.opcode) && t.isV60Vector(mi.opcode) &&
    !(t.isDotCurInst(mj.opcode) && !t.mayBeCurLoad(mj.opcode)) &&
    t.mayBeCurLoad(mj.opcode) &&
    mj.opcode != InlineAsm &&
    HasRegOperand(mi, RegOf(Op(mj, 0))) &&
    !(exists k | 0 <= k < |packet| :: ReadsRegister(t, mis[packet[k]], depReg))
  }

  /** The post-increment operand, as the release build finds it: operand 1
      of a load, operand 0 of a store. */
  function PostIncrementOperand(t: Target, mi: Instr): Operand {
    if D(t, mi).mayLoad then Op(mi, 1)
    else if D(t, mi).mayStore then Op(mi, 0)
    else OtherOp
  }

  /** The value a store stores: its last operand. */
  function StoreValueOperand(mi: Instr): Operand {
    Op(mi, |mi.operands| - 1)
  }

  predicate IsLoadAbsSet(mi: Instr) {
    mi.opcode.LoadAp?
  }

  /** The register the predicate scan of a new-value store settles on: the
      first predicate register among the register operands, otherwise the
      last register operand seen. */
  function ScanPredReg(t: Target, ops: seq<Operand>, seen: Reg): Reg {
    if ops == [] then seen
    else if ops[0].RegOp? then
      (if t.regClass(ops[0].reg) == PredRegs then ops[0].reg else ScanPredReg(t, ops[1..], ops[0].reg))
    else ScanPredReg(t, ops[1..], seen)
  }

  /** A member of the packet after `j` (other than `j`) writes a register
      the store `mi` names. */
  predicate LaterMemberModifiesOperand(t: Target, mis: seq<Instr>, packet: seq<nat>, mi: Instr, j: nat)
    requires InBlock(mis, packet)
  {
    exists p, q | 0 <= p < q < |packet| ::
      packet[p] == j && packet[q] != j &&
      exists k | 0 <= k < |mi.operands| ::
        mi.operands[k].RegOp? && ModifiesRegister(t, mis[packet[q]], mi.operands[k].reg)
  }

  /** The restrictions of section 5.4.2 of the Hexagon architecture
      specification on turning store `i` into a new-value store fed by `j`
      on `depReg`. */
  predicate CanPromoteToNewValueStore(t: Target, mis: seq<Instr>, packet: seq<nat>, i: nat, j: nat, depReg: Reg)
    requires InBlock(mis, packet) && i < |mis| && j < |mis|
  {
    var mi, mj := mis[i], mis[j];
    var val := StoreValueOperand(mi);
    if !t.mayBeNewStore(mi.opcode) then false
    else if val.RegOp? && val.reg != depReg then false
    else if t.destClass(mj.opcode) == DoubleRegs then false
    else if exists k | 0 <= k < |packet| :: D(t, mis[packet[k]]).mayStore then false
    else if t.isPostIncrement(mi.opcode) && RegOf(PostIncrementOperand(t, mi)) == depReg then false
    else if t.isPostIncrement(mj.opcode) && D(t, mj).mayLoad && RegOf(PostIncrementOperand(t, mj)) == depReg then false
    else if IsLoadAbsSet(mj) && RegOf(Op(mj, 1)) == depReg then false
    else if IsPredicated(t, mj) &&
            (!IsPredicated(t, mi) ||
             ScanPredReg(t, mi.operands, NoRegister) != ScanPredReg(t, mj.operands, NoRegister) ||
             t.isDotNewInst(mj.opcode) != t.isDotNewInst(mi.opcode) ||
             PredicateSense(t, mi) != PredicateSense(t, mj)) then false
    else if LaterMemberModifiesOperand(t, mis, packet, mi, j) then false
    else if !t.isPostIncrement(mi.opcode) &&
            exists k | 0 <= k < |mi.operands| - 1 :: mi.operands[k].RegOp? && mi.operands[k].reg == depReg then false
    else if exists k | 0 <= k < |mj.operands| ::
              IsDef(mj.operands[k]) && mj.operands[k].isImplicit &&
              (mj.operands[k].reg == depReg || t.isSuperRegister(depReg, mj.operands[k].reg)) then false
    else if exists k | 0 <= k < |mi.operands| ::
              IsUse(mi.operands[k]) && mi.operands[k].isImplicit && mi.operands[k].reg == depReg then false
    else true
  }

  predicate IsImplicitDependency(mi: Instr, depReg: Reg) {
    exists k | 0 <= k < |mi.operands| ::
      IsDef(mi.operands[k]) && mi.operands[k].reg == depReg && mi.operands[k].isImplicit
  }

  /** Can the candidate `i` read `depReg`, defined by packet member `j`, in
      its dot-new form: a predicate read by a conditional instruction or a
      return when the target allows it, or a store value when the dot-new
      opcode still fits the packet's resources and the new-value store
      restrictions hold. */
  predicate CanPromoteToDotNew(t: Target, opts: Options, mis: seq<Instr>, packet: seq<nat>, reserved: seq<Opcode>,
                               i: nat, j: nat, depReg: Reg, rc: RegClass)
    requires InBlock(mis, packet) && i < |mis| && j < |mis|
  {
    var mi, mj := mis[i], mis[j];
    if t.isDotNewInst(mi.opcode) && !t.mayBeNewStore(mi.opcode) then false
    else if !IsNewifiable(t, mi, rc) then false
    else if mj.opcode == InlineAsm then false
    else if mj.opcode == ImplicitDef then false
    else if IsImplicitDependency(mj, depReg) then false
    else if opts.disableVecDblNvStores && t.destClass(mj.opcode) == VecDblRegs then false
    else if rc == PredRegs && (t.isCondInst(mi.opcode) || D(t, mi).isReturn) then t.predCanBeUsedAsDotNew(mj, depReg)
    else if rc != PredRegs && !t.mayBeNewStore(mi.opcode) then false
    else if !t.fits(reserved + [t.dotNewOp(mi.opcode)]) then false
    else CanPromoteToNewValueStore(t, mis, packet, i, j, depReg)
  }

  /** A register promotion never comes from inline asm or an implicit
      definition, and a store promoted on a non-predicate register is a
      new-value store the resources admit. */
  lemma DotNewRequirements(t: Target, opts: Options, mis: seq<Instr>, packet: seq<nat>, reserved: seq<Opcode>,
                           i: nat, j: nat, depReg: Reg, rc: RegClass)
    requires InBlock(mis, packet) && i < |mis| && j < |mis|
    requires CanPromoteToDotNew(t, opts, mis, packet, reserved, i, j, depReg, rc)
    ensures mis[j].opcode != InlineAsm && mis[j].opcode != ImplicitDef && !IsImplicitDependency(mis[j], depReg)
    ensures IsNewifiable(t, mis[i], rc)
    ensures rc != PredRegs ==>
      t.fits(reserved + [t.dotNewOp(mis[i].opcode)]) &&
      CanPromoteToNewValueStore(t, mis, packet, i, j, depReg) &&
      forall k | 0 <= k < |packet| :: !D(t, mis[packet[k]]).mayStore
  {
  }

  // ---------------------------------------------------------------------
  // Instructions the packetizer treats specially.

  /** Instructions that must be alone in their packet (section 3.4.4 of the
      Hexagon V4 programmer's reference manual), inline asm unless it may be
      scheduled. */
  predicate IsSoloInstruction(t: Target, opts: Options, mi: Instr) {
    mi.opcode == EhLabel || mi.opcode == CfiInstruction ||
    (mi.opcode == InlineAsm && !opts.scheduleInlineAsm) ||
    IsSchedBarrier(mi) || t.isSolo(mi.opcode) || mi.opcode == A2Nop
  }

  /** Pseudo instructions the packetizer skips: debug values, and any
      instruction without functional units other than a CFI instruction, an
      inline asm or an implicit definition. */
  predicate IgnorePseudoInstruction(t: Target, mi: Instr) {
    if mi.opcode == DebugValue then true
    else if mi.opcode == CfiInstruction || mi.opcode == InlineAsm || mi.opcode == ImplicitDef then false
    else !t.hasFuncUnits(mi.opcode)
  }

  lemma PseudoAndSolo(t: Target, opts: Options, mi: Instr)
    ensures mi.opcode == InlineAsm ==>
      !IgnorePseudoInstruction(t, mi) &&
      (IsSoloInstruction(t, opts, mi) <==> !opts.scheduleInlineAsm || t.isSolo(InlineAsm))
    ensures IsSchedBarrier(mi) ==> IsSystemInstr(mi) && IsSoloInstruction(t, opts, mi)
    ensures mi.opcode == DebugValue ==> IgnorePseudoInstruction(t, mi)
  {
  }
}
