// The packet state of the Hexagon VLIW packetizer and its entry points for
// one candidate `i` against one packet member `j`: whether the two may share
// a packet (discharging dependence edges by speculative promotions), how
// those speculative changes are undone when they may not, and how the
// candidate is finally added to a packet.
//
// Instructions are named by their position in the basic block; the
// dependence graph is the list of all edges, a node's successors being the
// edges that leave it, in order. The functions below say what each entry
// point computes; the class `HexagonPacketizerList` at the end does it in
// place and is proved against them.

module HexagonPacketizer {
  import opened HexagonInstr
  import opened HexagonRules
  import opened Wrappers

  /** Bytes allocframe pushes for the link register and the frame register
      (HEXAGON_LRFP_SIZE). */
  const LrFpSize: int := 8

  /** What the packetizer is given for a whole function. */
  datatype Config = Config(t: Target, opts: Options, frameSize: int, deps: seq<Dep>)

  /** The packet being formed, the packet before it, the opcodes reserved in
      the resource automaton, and the bundles finished so far. */
  datatype Packet = Packet(current: seq<nat>, previous: seq<nat>, reserved: seq<Opcode>, bundles: seq<seq<nat>>)

  /** The flags the legality test, the pruning and the addition share. */
  datatype Flags = Flags(
    ignoreDep: seq<nat>,
    dependence: bool,
    promotedToDotNew: bool,
    glueToNewValueJump: bool,
    glueAllocframeStore: bool,
    foundSequentialDependence: bool)

  /** Everything the packetizer changes while it works on a block. */
  datatype PacketState = PacketState(mis: seq<Instr>, packet: Packet, flags: Flags)

  /** The members of the current packet are instructions of the block. */
  predicate WellFormed(s: PacketState) {
    InBlock(s.mis, s.packet.current)
  }

  /** initPacketizerState: the five flags are cleared before each
      candidate; the ignored dependences are kept. */
  function Initialized(s: PacketState): (r: PacketState)
    ensures r.mis == s.mis && r.packet == s.packet && r.flags.ignoreDep == s.flags.ignoreDep
    ensures !r.flags.dependence && !r.flags.promotedToDotNew && !r.flags.glueToNewValueJump
    ensures !r.flags.glueAllocframeStore && !r.flags.foundSequentialDependence
  {
    s.(flags := Flags(s.flags.ignoreDep, false, false, false, false, false))
  }

  // ---------------------------------------------------------------------
  // Instruction rewrites.

  predicate IsStoreIo(mi: Instr) {
    mi.opcode.StoreIo?
  }

  /** A base-plus-offset store whose offset operand is an immediate. */
  predicate HasOffset(mi: Instr) {
    Op(mi, 1).ImmOp?
  }

  function WithOpcode(mi: Instr, op: Opcode): Instr {
    mi.(opcode := op)
  }

  function WithOffset(mi: Instr, off: int): (r: Instr)
    ensures HasOffset(mi) ==> HasOffset(r) && Op(r, 1).imm == off
  {
    if |mi.operands| > 1 then mi.(operands := mi.operands[1 := ImmOp(off)]) else mi
  }

  /** The offset of a store glued to an allocframe, seen from the caller's SP,
      and back. */
  function CallersOffset(off: int, frameSize: int): int {
    off - (frameSize + LrFpSize)
  }

  function CalleesOffset(off: int, frameSize: int): int {
    off + frameSize + LrFpSize
  }

  /** The immediate offset of a base-plus-offset store. */
  function OffsetOf(mi: Instr): int {
    if HasOffset(mi) then Op(mi, 1).imm else 0
  }

  /** The store rewritten to address through the callee's SP
      again. */
  function UseCallees(mi: Instr, frameSize: int): Instr {
    WithOffset(mi, CalleesOffset(OffsetOf(mi), frameSize))
  }

  /** Moving a store to the caller's SP and back restores it
      exactly, and changes nothing but its offset. */
  lemma GlueRoundTrip(mi: Instr, frameSize: int)
    requires HasOffset(mi)
    ensures var glued := WithOffset(mi, CallersOffset(OffsetOf(mi), frameSize));
      glued.opcode == mi.opcode && |glued.operands| == |mi.operands| &&
      (forall k | 0 <= k < |mi.operands| && k != 1 :: glued.operands[k] == mi.operands[k]) &&
      UseCallees(glued, frameSize) == mi
  {
    var glued := WithOffset(mi, CallersOffset(OffsetOf(mi), frameSize));
    assert UseCallees(glued, frameSize).operands == mi.operands;
  }

  /** The candidate, once a dot-new promotion is undone, is a
      base-plus-offset store whose offset can be moved back. */
  predicate CalleesReady(t: Target, mi: Instr, promoted: bool) {
    var m := if promoted then WithOpcode(mi, t.dotOldOp(mi.opcode)) else mi;
    IsStoreIo(m) && HasOffset(m)
  }

  // ---------------------------------------------------------------------
  // One dependence edge.

  /** What an edge from packet member `j` to candidate `i` comes to. */
  datatype Verdict =
    | Skip                     // the edge does not prevent packetizing
    | PromoteCur               // `j` becomes a dot-cur load
    | PromoteNew(rc: RegClass) // `i` reads the value dot-new
    | IgnoreOnce               // complementary predicates: recorded, ignored once
    | Clash                    // complementary to an instruction already relied on
    | GlueStore                // store `i` follows allocframe `j` through the caller's SP
    | Block                    // a sequential dependence

  /** The part of the packet state the edge loop changes. */
  datatype Walk = Walk(mis: seq<Instr>, flags: Flags)

  /** The edge loop has stopped: a sequential dependence was found, or a
      complementary predicate clashed. */
  predicate Stopped(w: Walk) {
    w.flags.foundSequentialDependence || w.flags.dependence
  }

  predicate CallLike(t: Target, mi: Instr) {
    D(t, mi).isCall || D(t, mi).isReturn || t.isTailCall(mi.opcode)
  }

  /** Memory-ordering edges, `j` earlier: a store before a load, and any
      edge out of an instruction that neither loads nor stores, or into one
      that neither loads nor stores after a load, is sequential; with
      volatile packetizing off, so is every edge touching an ordered memory
      reference. */
  predicate OrderBlocks(opts: Options, t: Target, mi: Instr, mj: Instr) {
    if !opts.packetizeVolatiles && (mi.hasOrderedMemoryRef || mj.hasOrderedMemoryRef) then true
    else
      var loadJ, storeJ := D(t, mj).mayLoad, D(t, mj).mayStore;
      var loadI, storeI := D(t, mi).mayLoad, D(t, mi).mayStore;
      if storeJ then loadI
      else !loadJ || (!loadI && !storeI)
  }

  /** `mi` writes a register the call `mj` implicitly defines. */
  predicate ClobbersCallDef(t: Target, mi: Instr, mj: Instr) {
    exists k | 0 <= k < |D(t, mj).implicitDefs| :: ModifiesRegister(t, mi, D(t, mj).implicitDefs[k])
  }

  /** A base-plus-offset store through the stack register. */
  predicate GluableStore(t: Target, mi: Instr) {
    IsStoreIo(mi) && RegOf(Op(mi, 0)) == t.stackRegister && HasOffset(mi)
  }

  predicate Complementary(c: Config, mis: seq<Instr>, packet: seq<nat>, i: nat, j: nat)
    requires InBlock(mis, packet) && i < |mis| && j < |mis|
  {
    IsPredicated(c.t, mis[i]) && IsPredicated(c.t, mis[j]) &&
    ArePredicatesComplements(c.t, mis, packet, c.deps, i, j)
  }

  /** The edge is one a call, a return or a tail call `mi` does not care
      about: not a register dependence, or not on a register it depends
      on. */
  predicate IgnoredByCall(t: Target, mi: Instr, e: Dep) {
    CallLike(t, mi) && (!IsRegDependence(e.kind) || !IsCallDependent(t, mi, e.kind, e.reg))
  }

  /** The body of the edge loop of isLegalToPacketizeTogether for an edge
      `e` from `j` to `i`, against the packet `p`, in the state `w` the
      earlier edges left. */
  function EdgeVerdict(c: Config, p: Packet, w: Walk, i: nat, j: nat, e: Dep): Verdict
    requires InBlock(w.mis, p.current) && i < |w.mis| && j < |w.mis|
  {
    var t := c.t;
    var mi, mj := w.mis[i], w.mis[j];
    var kind := e.kind;
    var depReg := if kind == Data then e.reg else NoRegister;
    var rc := if kind == Data then t.regClass(e.reg) else OtherRegs;
    if IgnoredByCall(t, mi, e) then Skip
    else if kind == Data && CanPromoteToDotCur(t, w.mis, p.current, j, i, depReg) then PromoteCur
    else if kind == Data && t.isDotCurInst(mj.opcode) && t.isV60Vector(mi.opcode) then Skip
    else if kind == Data && CanPromoteToDotNew(t, c.opts, w.mis, p.current, p.reserved, i, j, depReg, rc) then
      PromoteNew(rc)
    else if kind == Data && t.isNewValueJump(mi.opcode) then Skip
    else if Complementary(c, w.mis, p.current, i, j) then
      (if j in w.flags.ignoreDep then Clash else IgnoreOnce)
    else if IsDirectJump(mi) && !D(t, mj).isBranch && !D(t, mj).isCall && kind == Order then Skip
    else if D(t, mi).isConditionalBranch && kind != Data && kind != Output then Skip
    else if kind == Output then
      (if !DefinesRegister(mi, e.reg) && !DefinesRegister(mj, e.reg) then Skip else Block)
    else if kind == Order then
      (if OrderBlocks(c.opts, t, mi, mj) then Block else Skip)
    else if kind == Data && mj.opcode == S2Allocframe && GluableStore(t, mi) then GlueStore
    else if kind == Anti && D(t, mj).isCall then
      (if ClobbersCallDef(t, mi, mj) then Block else Skip)
    else if kind != Anti then Block
    else Skip
  }

  /** The dot-new form of `op` for a value of register class `rc`. */
  function NewOpcode(t: Target, op: Opcode, rc: RegClass): Opcode {
    if rc == PredRegs then t.dotNewPredOp(op) else t.dotNewOp(op)
  }

  /** The effect of a verdict as isLegalToPacketizeTogether has it: a
      promotion rewrites an opcode, a glue the store's offset (or, when the
      new offset is not encodable, ends the loop as a sequential
      dependence). Every data edge from the allocframe glues again, so a
      store with two such edges has its offset moved twice. */
  function ApplyAsWritten(c: Config, w: Walk, i: nat, j: nat, v: Verdict): (r: Walk)
    requires i < |w.mis| && j < |w.mis|
    ensures |r.mis| == |w.mis|
    ensures forall k | 0 <= k < |w.mis| && k != i && k != j :: r.mis[k] == w.mis[k]
    ensures r.flags.ignoreDep == w.flags.ignoreDep || r.flags.ignoreDep == w.flags.ignoreDep + [i]
    ensures r.flags.glueToNewValueJump == w.flags.glueToNewValueJump
  {
    match v
    case Skip => w
    case PromoteCur => w.(mis := w.mis[j := WithOpcode(w.mis[j], c.t.dotCurOp(w.mis[j].opcode))])
    case PromoteNew(rc) =>
      w.(mis := w.mis[i := WithOpcode(w.mis[i], NewOpcode(c.t, w.mis[i].opcode, rc))],
         flags := w.flags.(promotedToDotNew := true))
    case IgnoreOnce => w.(flags := w.flags.(ignoreDep := w.flags.ignoreDep + [i]))
    case Clash => w.(flags := w.flags.(dependence := true))
    case GlueStore =>
      var off := CallersOffset(OffsetOf(w.mis[i]), c.frameSize);
      if c.t.isValidOffset(w.mis[i].opcode, off) then
        w.(mis := w.mis[i := WithOffset(w.mis[i], off)], flags := w.flags.(glueAllocframeStore := true))
      else w.(flags := w.flags.(glueAllocframeStore := false, foundSequentialDependence := true))
    case Block => w.(flags := w.flags.(foundSequentialDependence := true))
  }

  /** The effect of a verdict, with the allocframe glue done once: a store
      already glued to the allocframe addresses through the caller's SP, so
      a further data edge from it is discharged without moving the offset
      again. Pruning moves the offset back once, and this keeps the two in
      step. */
  function Apply(c: Config, w: Walk, i: nat, j: nat, v: Verdict): (r: Walk)
    requires i < |w.mis| && j < |w.mis|
    ensures |r.mis| == |w.mis|
    ensures forall k | 0 <= k < |w.mis| && k != i && k != j :: r.mis[k] == w.mis[k]
    ensures r.flags.ignoreDep == w.flags.ignoreDep || r.flags.ignoreDep == w.flags.ignoreDep + [i]
    ensures r.flags.glueToNewValueJump == w.flags.glueToNewValueJump
  {
    if v.GlueStore? && w.flags.glueAllocframeStore then w
    else ApplyAsWritten(c, w, i, j, v)
  }

  /** One turn of the edge loop: edges that do not run from `j` to `i` are
      passed over, and nothing happens once the loop has stopped. */
  function Step(c: Config, p: Packet, w: Walk, i: nat, j: nat, e: Dep): (r: Walk)
    requires InBlock(w.mis, p.current) && i < |w.mis| && j < |w.mis|
    ensures |r.mis| == |w.mis| && r.flags.glueToNewValueJump == w.flags.glueToNewValueJump
  {
    if Stopped(w) || e.pred != j || e.succ != i then w
    else Apply(c, w, i, j, EdgeVerdict(c, p, w, i, j, e))
  }

  /** The edge loop over `edges`, in order. */
  function Walked(c: Config, p: Packet, w: Walk, i: nat, j: nat, edges: seq<Dep>): (r: Walk)
    requires InBlock(w.mis, p.current) && i < |w.mis| && j < |w.mis|
    ensures |r.mis| == |w.mis| && r.flags.glueToNewValueJump == w.flags.glueToNewValueJump
    decreases |edges|
  {
    if edges == [] then w
    else
      var q := Walked(c, p, w, i, j, edges[..|edges| - 1]);
      assert InBlock(q.mis, p.current);
      Step(c, p, q, i, j, edges[|edges| - 1])
  }

  // ---------------------------------------------------------------------
  // The whole legality test.

  predicate NextIsNewValueJump(t: Target, mis: seq<Instr>, i: nat) {
    i + 1 < |mis| && t.isNewValueJump(mis[i + 1].opcode)
  }

  /** The register of the new-value jump after `i` that must not be defined
      in the packet: the one `i` does not feed. */
  function NvjOtherOperand(mis: seq<Instr>, i: nat): Operand
    requires i + 1 < |mis|
  {
    var next := mis[i + 1];
    var secondRegMatch := Op(next, 1).RegOp? && RegOf(Op(mis[i], 0)) == Op(next, 1).reg;
    if secondRegMatch then Op(next, 0) else Op(next, 1)
  }

  /** A packet member that keeps `i` from feeding the new-value jump after
      it (section 7.8 of the Hexagon architecture specification): a call,
      an allocframe, a store, a loop setup, or a definition of the jump's
      other register. */
  predicate BlocksNewValueJump(t: Target, mis: seq<Instr>, p: nat, opR: Operand)
    requires p < |mis|
  {
    var pi := mis[p];
    D(t, pi).isCall || pi.opcode == S2Allocframe || D(t, pi).mayStore || t.isLoopN(pi.opcode) ||
    (opR.RegOp? && ModifiesRegister(t, pi, opR.reg))
  }

  predicate NvjBlocked(t: Target, mis: seq<Instr>, packet: seq<nat>, i: nat)
    requires InBlock(mis, packet) && i + 1 < |mis|
  {
    exists k | 0 <= k < |packet| :: BlocksNewValueJump(t, mis, packet[k], NvjOtherOperand(mis, i))
  }

  /** The screens that refuse a pair before any edge is looked at: a dead
      or control dependence, the store-slot restrictions, or a packet member
      that keeps the candidate from feeding the new-value jump after it. */
  predicate Refused(t: Target, mis: seq<Instr>, packet: seq<nat>, i: nat, j: nat)
    requires InBlock(mis, packet) && i < |mis| && j < |mis|
  {
    var mi, mj := mis[i], mis[j];
    HasDeadDependence(t, mi, mj) || HasControlDependence(t, mi, mj) || HasV4SpecificDependence(t, mi, mj) ||
    (NextIsNewValueJump(t, mis, i) && NvjBlocked(t, mis, packet, i))
  }

  /** The screens of isLegalToPacketizeTogether, before any edge is looked
      at: the state they leave, and whether the pair got through. The
      ignored dependences start afresh on a packet's first comparison. */
  function Screened(c: Config, s: PacketState, i: nat, j: nat): (r: (PacketState, bool))
    requires WellFormed(s) && i < |s.mis| && j < |s.mis|
    ensures r.0.mis == s.mis && r.0.packet == s.packet
    ensures r.0.flags.promotedToDotNew == s.flags.promotedToDotNew
    ensures r.0.flags.glueAllocframeStore == s.flags.glueAllocframeStore
  {
    var f1 := s.flags.(ignoreDep := if |s.packet.current| == 1 then [] else s.flags.ignoreDep);
    if CannotCoexist(c.t, s.mis[i], s.mis[j]) then (s.(flags := f1), false)
    else if Refused(c.t, s.mis, s.packet.current, i, j) then (s.(flags := f1.(dependence := true)), false)
    else
      (s.(flags := f1.(dependence := false,
                       glueToNewValueJump := f1.glueToNewValueJump || NextIsNewValueJump(c.t, s.mis, i))), true)
  }

  /** isLegalToPacketizeTogether: the candidate `i` and the packet member
      `j`, with the state it leaves; the packet itself is never touched. */
  function Together(c: Config, s: PacketState, i: nat, j: nat): (r: (PacketState, bool))
    requires WellFormed(s) && i < |s.mis| && j < |s.mis|
    ensures WellFormed(r.0) && |r.0.mis| == |s.mis| && r.0.packet == s.packet
  {
    var (s2, through) := Screened(c, s, i, j);
    if !through then (s2, false)
    else if !IsSucc(c.deps, j, i) then (s2, true)
    else
      var w := Walked(c, s2.packet, Walk(s2.mis, s2.flags), i, j, c.deps);
      (s2.(mis := w.mis, flags := w.flags.(dependence := Stopped(w))), !Stopped(w))
  }

  // ---------------------------------------------------------------------
  // Undoing the speculative changes.

  datatype CurScan = CurScan(cur: Option<nat>, used: bool)

  /** The scan of cleanUpDotCur over packet members `ids`: the latest
      dot-cur load, and whether a later member names its destination. */
  function ScanDotCur(mis: seq<Instr>, ids: seq<nat>): (r: CurScan)
    requires InBlock(mis, ids)
    ensures r.cur.Some? ==> r.cur.value in ids && r.cur.value < |mis| && mis[r.cur.value].opcode == VL32bCurAi
    ensures r.used ==> r.cur.Some?
    decreases |ids|
  {
    if ids == [] then CurScan(None, false)
    else
      var n := |ids| - 1;
      assert InBlock(mis, ids[..n]) by {
        forall k | 0 <= k < n ensures ids[..n][k] < |mis| { assert ids[..n][k] == ids[k]; }
      }
      ScanNext(mis, ScanDotCur(mis, ids[..n]), ids[n])
  }

  /** One member `b` of the scan of cleanUpDotCur. */
  function ScanNext(mis: seq<Instr>, s: CurScan, b: nat): CurScan
    requires b < |mis| && (s.cur.Some? ==> s.cur.value < |mis|)
  {
    if s.used then s
    else if mis[b].opcode == VL32bCurAi then CurScan(Some(b), false)
    else if s.cur.Some? && HasRegOperand(mis[b], RegOf(Op(mis[s.cur.value], 0))) then CurScan(s.cur, true)
    else s
  }

  /** The scan of a longer prefix takes one more step. */
  lemma ScanDotCurPrefix(mis: seq<Instr>, ids: seq<nat>, k: nat)
    requires InBlock(mis, ids) && k < |ids|
    ensures InBlock(mis, ids[..k]) && InBlock(mis, ids[..k + 1])
    ensures ScanDotCur(mis, ids[..k + 1]) == ScanNext(mis, ScanDotCur(mis, ids[..k]), ids[k])
  {
    assert ids[..k + 1][..k] == ids[..k];
  }

  function DemoteCur(mi: Instr): Instr {
    WithOpcode(mi, VL32bAi)
  }

  /** cleanUpDotCur: the latest dot-cur load of the packet goes back to a
      plain vector load unless a later member uses its destination. */
  function CleanedUp(mis: seq<Instr>, packet: seq<nat>): (r: seq<Instr>)
    requires InBlock(mis, packet)
    ensures |r| == |mis| && forall k | 0 <= k < |mis| && k !in packet :: r[k] == mis[k]
  {
    var s := ScanDotCur(mis, packet);
    if s.used || s.cur.None? then mis
    else mis[s.cur.value := DemoteCur(mis[s.cur.value])]
  }

  /** isLegalToPruneDependencies. */
  function Pruned(c: Config, s: PacketState, i: nat, j: nat): (r: (PacketState, bool))
    requires WellFormed(s) && i < |s.mis| && j < |s.mis|
    ensures WellFormed(r.0) && r.0.packet == s.packet
  {
    if CannotCoexist(c.t, s.mis[i], s.mis[j]) then (s, false)
    else if !s.flags.dependence then (s, true)
    else
      var m1 := if s.flags.promotedToDotNew then s.mis[i := WithOpcode(s.mis[i], c.t.dotOldOp(s.mis[i].opcode))]
                else s.mis;
      var m2 := CleanedUp(m1, s.packet.current);
      var m3 := if s.flags.glueAllocframeStore then m2[i := UseCallees(m2[i], c.frameSize)] else m2;
      (s.(mis := m3, flags := s.flags.(glueAllocframeStore := false)), false)
  }

  // ---------------------------------------------------------------------
  // Adding to a packet.

  /** endPacket: a packet of more than one instruction becomes a bundle,
      the packet is remembered as the previous one, and the resources are
      freed. */
  function Ended(s: PacketState): (r: PacketState)
    ensures r.packet.current == [] && r.packet.reserved == [] && r.packet.previous == s.packet.current
    ensures r.mis == s.mis && r.flags == s.flags
    ensures r.packet.bundles == s.packet.bundles || r.packet.bundles == s.packet.bundles + [s.packet.current]
  {
    var p := s.packet;
    s.(packet := Packet([], p.current, [], if |p.current| > 1 then p.bundles + [p.current] else p.bundles))
  }

  /** tryAllocateResourcesForConstExt: a constant extender is available
      when it fits beside the reserved opcodes, and is reserved on
      request. */
  function WithConstExt(t: Target, reserved: seq<Opcode>, reserve: bool): (r: (bool, seq<Opcode>))
    ensures r.0 <==> t.fits(reserved + [A4Ext])
    ensures r.1 == if reserve && r.0 then reserved + [A4Ext] else reserved
  {
    var avail := t.fits(reserved + [A4Ext]);
    (avail, if reserve && avail then reserved + [A4Ext] else reserved)
  }

  /** The candidate after an implicit def of an integer register gains an
      implicit def of its first super-register. */
  function WithSuperDef(t: Target, mi: Instr): Instr {
    var r := RegOf(Op(mi, 0));
    if t.regClass(r) == IntRegs then mi.(operands := mi.operands + [RegOp(t.superRegOf(r), true, true, false)])
    else mi
  }

  /** The reservations of the candidate and the new-value jump it feeds in
      the current packet, each with its constant extender; the first value
      says whether all of them fit. */
  function JumpReserved(t: Target, reserved: seq<Opcode>, mi: Instr, nvj: Instr): (r: (bool, seq<Opcode>))
    ensures r.0 ==> r.1 == reserved + [mi.opcode] + (if t.isExtended(mi) then [A4Ext] else [])
                           + [nvj.opcode] + (if t.isExtended(nvj) then [A4Ext] else [])
    ensures r.0 ==> t.fits(r.1)
  {
    var ext, extNvj := t.isExtended(mi), t.isExtended(nvj);
    var r1 := reserved + [mi.opcode];
    var good1 := !ext || t.fits(r1 + [A4Ext]);
    var r2 := if ext && good1 then r1 + [A4Ext] else r1;
    var good2 := good1 && t.fits(r2 + [nvj.opcode]);
    var r3 := if good2 then r2 + [nvj.opcode] else r2;
    var good := good2 && (!extNvj || t.fits(r3 + [A4Ext]));
    (good, if good && extNvj then r3 + [A4Ext] else r3)
  }

  /** The reservations of the candidate and its new-value jump in a packet
      of their own. */
  function FreshJumpReserved(t: Target, mi: Instr, nvj: Instr): (r: seq<Opcode>)
    ensures |r| >= 2 && r[0] == mi.opcode && nvj.opcode in r
  {
    var q1 := if t.isExtended(mi) then WithConstExt(t, [mi.opcode], true).1 else [mi.opcode];
    var q2 := q1 + [nvj.opcode];
    if t.isExtended(nvj) then WithConstExt(t, q2, true).1 else q2
  }

  /** The candidate and the new-value jump it feeds, reserved together
      with their constant extenders in the current packet or, when they do
      not fit there, in a new one. */
  function JoinedWithJump(c: Config, s: PacketState, i: nat): (r: PacketState)
    requires WellFormed(s) && i + 1 < |s.mis|
    ensures r.mis == s.mis && r.flags == s.flags
    ensures r.packet.current == s.packet.current + [i, i + 1] || r.packet.current == [i, i + 1]
  {
    var p := s.packet;
    var (good, rs) := JumpReserved(c.t, p.reserved, s.mis[i], s.mis[i + 1]);
    if good then
      s.(packet := p.(reserved := rs, current := p.current + [i, i + 1]))
    else
      var e := Ended(s);
      e.(packet := e.packet.(reserved := FreshJumpReserved(c.t, s.mis[i], s.mis[i + 1]), current := [i, i + 1]))
  }

  /** The candidate whose constant extender does not fit: the packet is
      ended, the candidate's dot-new promotion and allocframe glue are
      undone, and it is reserved with its extender afresh. */
  function Restarted(c: Config, s: PacketState, i: nat): (r: PacketState)
    requires WellFormed(s) && i < |s.mis|
    ensures r.packet.current == [] && r.packet.previous == s.packet.current && !r.flags.glueAllocframeStore
    ensures |r.mis| == |s.mis| && forall k | 0 <= k < |s.mis| && k != i :: r.mis[k] == s.mis[k]
  {
    var e := Ended(s);
    var mi := s.mis[i];
    var m1 := if s.flags.promotedToDotNew then s.mis[i := WithOpcode(mi, c.t.dotOldOp(mi.opcode))] else s.mis;
    var m2 := if s.flags.glueAllocframeStore then m1[i := UseCallees(m1[i], c.frameSize)] else m1;
    e.(mis := m2, flags := s.flags.(glueAllocframeStore := false),
       packet := e.packet.(reserved := WithConstExt(c.t, [m2[i].opcode], true).1))
  }

  /** addToPacket: the position it ends on, and the new state. */
  function Added(c: Config, s: PacketState, i: nat): (PacketState, nat)
    requires WellFormed(s) && i < |s.mis|
    requires s.mis[i].opcode != ImplicitDef && s.flags.glueToNewValueJump ==> i + 1 < |s.mis|
  {
    var t := c.t;
    var mi := s.mis[i];
    var p := s.packet;
    if mi.opcode == ImplicitDef then (s.(mis := s.mis[i := WithSuperDef(t, mi)]), i)
    else if s.flags.glueToNewValueJump then (JoinedWithJump(c, s, i), i + 1)
    else
      var ext := t.isExtended(mi);
      var r1 := p.reserved + [mi.opcode];
      var r := if ext && !t.fits(r1 + [A4Ext]) then Restarted(c, s, i)
               else s.(packet := p.(reserved := if ext then r1 + [A4Ext] else r1));
      (r.(packet := r.packet.(current := r.packet.current + [i])), i)
  }

  // ---------------------------------------------------------------------
  // What one edge comes to.

  /** Only a data edge promotes or glues. */
  lemma VerdictShape(c: Config, p: Packet, w: Walk, i: nat, j: nat, e: Dep)
    requires InBlock(w.mis, p.current) && i < |w.mis| && j < |w.mis|
    ensures var v := EdgeVerdict(c, p, w, i, j, e);
      (e.kind != Data ==> v.Skip? || v.IgnoreOnce? || v.Clash? || v.Block?) &&
      (v.PromoteNew? ==>
        v.rc == c.t.regClass(e.reg) &&
        CanPromoteToDotNew(c.t, c.opts, w.mis, p.current, p.reserved, i, j, e.reg, v.rc)) &&
      (v.GlueStore? ==> GluableStore(c.t, w.mis[i]) && w.mis[j].opcode == S2Allocframe)
  {
  }

  /** Order edges: ignored by calls and returns, by a direct jump after a
      non-branch and by a conditional branch; otherwise sequential exactly
      when the memory-ordering rule says so, complementary predicates
      aside. */
  lemma OrderEdgeVerdict(c: Config, p: Packet, w: Walk, i: nat, j: nat, e: Dep)
    requires InBlock(w.mis, p.current) && i < |w.mis| && j < |w.mis| && e.kind == Order
    ensures var v := EdgeVerdict(c, p, w, i, j, e); var mi, mj := w.mis[i], w.mis[j];
      v == Block <==>
        !CallLike(c.t, mi) && !Complementary(c, w.mis, p.current, i, j) &&
        !(IsDirectJump(mi) && !D(c.t, mj).isBranch && !D(c.t, mj).isCall) &&
        !D(c.t, mi).isConditionalBranch && OrderBlocks(c.opts, c.t, mi, mj)
  {
  }

  /** Output edges are sequential unless neither instruction defines the
      register itself; calls only care about the registers they depend
      on. */
  lemma OutputEdgeVerdict(c: Config, p: Packet, w: Walk, i: nat, j: nat, e: Dep)
    requires InBlock(w.mis, p.current) && i < |w.mis| && j < |w.mis| && e.kind == Output
    ensures var v := EdgeVerdict(c, p, w, i, j, e); var mi, mj := w.mis[i], w.mis[j];
      v == Block <==>
        !IgnoredByCall(c.t, mi, e) && !Complementary(c, w.mis, p.current, i, j) &&
        (DefinesRegister(mi, e.reg) || DefinesRegister(mj, e.reg))
  {
  }

  /** Anti edges never block, except into a call whose implicit
      definitions the candidate writes. */
  lemma AntiEdgeVerdict(c: Config, p: Packet, w: Walk, i: nat, j: nat, e: Dep)
    requires InBlock(w.mis, p.current) && i < |w.mis| && j < |w.mis| && e.kind == Anti
    ensures var v := EdgeVerdict(c, p, w, i, j, e); var mi, mj := w.mis[i], w.mis[j];
      v == Block <==>
        !IgnoredByCall(c.t, mi, e) && !Complementary(c, w.mis, p.current, i, j) &&
        !D(c.t, mi).isConditionalBranch && D(c.t, mj).isCall && ClobbersCallDef(c.t, mi, mj)
  {
  }

  /** Complementary predicates discharge a non-data edge once per packet
      member: the candidate is recorded, and a later edge from a recorded
      member is a clash. */
  lemma ComplementEdgeVerdict(c: Config, p: Packet, w: Walk, i: nat, j: nat, e: Dep)
    requires InBlock(w.mis, p.current) && i < |w.mis| && j < |w.mis| && e.kind != Data
    requires !IgnoredByCall(c.t, w.mis[i], e) && Complementary(c, w.mis, p.current, i, j)
    ensures EdgeVerdict(c, p, w, i, j, e) == if j in w.flags.ignoreDep then Clash else IgnoreOnce
  {
  }

  /** A data edge that no promotion, complement or allocframe glue
      discharges is sequential. */
  lemma DataEdgeVerdict(c: Config, p: Packet, w: Walk, i: nat, j: nat, e: Dep)
    requires InBlock(w.mis, p.current) && i < |w.mis| && j < |w.mis| && e.kind == Data
    ensures var v := EdgeVerdict(c, p, w, i, j, e); var mi, mj := w.mis[i], w.mis[j];
      v == Block <==>
        !IgnoredByCall(c.t, mi, e) &&
        !CanPromoteToDotCur(c.t, w.mis, p.current, j, i, e.reg) &&
        !(c.t.isDotCurInst(mj.opcode) && c.t.isV60Vector(mi.opcode)) &&
        !CanPromoteToDotNew(c.t, c.opts, w.mis, p.current, p.reserved, i, j, e.reg, c.t.regClass(e.reg)) &&
        !c.t.isNewValueJump(mi.opcode) && !Complementary(c, w.mis, p.current, i, j) &&
        !(mj.opcode == S2Allocframe && GluableStore(c.t, mi))
  {
  }

  // ---------------------------------------------------------------------
  // The edge walk.

  /** The walk over a longer prefix of the edges takes one more step. */
  lemma WalkedPrefix(c: Config, p: Packet, w: Walk, i: nat, j: nat, edges: seq<Dep>, k: nat)
    requires InBlock(w.mis, p.current) && i < |w.mis| && j < |w.mis| && k < |edges|
    ensures var q := Walked(c, p, w, i, j, edges[..k]);
      InBlock(q.mis, p.current) && Walked(c, p, w, i, j, edges[..k + 1]) == Step(c, p, q, i, j, edges[k])
  {
    assert edges[..k + 1][..k] == edges[..k];
  }

  /** Once the loop has stopped the rest of the edges change nothing. */
  lemma {:induction false} WalkStops(c: Config, p: Packet, w: Walk, i: nat, j: nat, edges: seq<Dep>, k: nat)
    requires InBlock(w.mis, p.current) && i < |w.mis| && j < |w.mis| && k <= |edges|
    requires Stopped(Walked(c, p, w, i, j, edges[..k]))
    ensures Walked(c, p, w, i, j, edges) == Walked(c, p, w, i, j, edges[..k])
    decreases |edges|
  {
    if k == |edges| {
      assert edges[..k] == edges;
    } else {
      var n := |edges| - 1;
      assert edges[..n][..k] == edges[..k];
      WalkStops(c, p, w, i, j, edges[..n], k);
      var q := Walked(c, p, w, i, j, edges[..n]);
      assert Stopped(q);
      assert Step(c, p, q, i, j, edges[n]) == q;
    }
  }

  /** The walk rewrites no instruction but the two it compares, and
      records nothing but the candidate among the ignored dependences. */
  lemma {:induction false} WalkFrame(c: Config, p: Packet, w: Walk, i: nat, j: nat, edges: seq<Dep>)
    requires InBlock(w.mis, p.current) && i < |w.mis| && j < |w.mis|
    ensures var r := Walked(c, p, w, i, j, edges);
      (forall k | 0 <= k < |w.mis| && k != i && k != j :: r.mis[k] == w.mis[k]) &&
      |w.flags.ignoreDep| <= |r.flags.ignoreDep| && r.flags.ignoreDep[..|w.flags.ignoreDep|] == w.flags.ignoreDep &&
      (forall k | |w.flags.ignoreDep| <= k < |r.flags.ignoreDep| :: r.flags.ignoreDep[k] == i)
    decreases |edges|
  {
    if edges != [] {
      var n := |edges| - 1;
      WalkFrame(c, p, w, i, j, edges[..n]);
      var q := Walked(c, p, w, i, j, edges[..n]);
      var r := Walked(c, p, w, i, j, edges);
      assert r == Step(c, p, q, i, j, edges[n]);
      var m := |w.flags.ignoreDep|;
      if r.flags.ignoreDep != q.flags.ignoreDep {
        assert r.flags.ignoreDep == q.flags.ignoreDep + [i];
        assert r.flags.ignoreDep[..m] == q.flags.ignoreDep[..m];
      }
    }
  }

  predicate IsDataEdge(e: Dep, j: nat, i: nat) {
    e.pred == j && e.succ == i && e.kind == Data
  }

  predicate NoDataEdge(edges: seq<Dep>, j: nat, i: nat) {
    forall a | 0 <= a < |edges| :: !IsDataEdge(edges[a], j, i)
  }

  /** The candidate `mi` as the walk may leave `i0`: its opcode promoted to
      a dot-new form exactly when `promoted`, its offset moved to the
      caller's SP exactly when `glued`, and nothing else changed. */
  predicate Speculated(c: Config, i0: Instr, mi: Instr, promoted: bool, glued: bool) {
    mi.hasOrderedMemoryRef == i0.hasOrderedMemoryRef &&
    (if promoted then mi.opcode == c.t.dotNewOp(i0.opcode) || mi.opcode == c.t.dotNewPredOp(i0.opcode)
     else mi.opcode == i0.opcode) &&
    (if glued then HasOffset(i0) && mi.operands == WithOffset(i0, CallersOffset(OffsetOf(i0), c.frameSize)).operands
     else mi.operands == i0.operands)
  }

  /** What the instruction tables of the target are taken to satisfy for
      opcode `op`: both dot-new forms turn back into `op`, and are dot-new
      instructions that cannot become new-value stores, so that
      canPromoteToDotNew refuses to promote them again. */
  predicate DotNewUndoable(t: Target, op: Opcode) {
    t.dotOldOp(t.dotNewOp(op)) == op && t.dotOldOp(t.dotNewPredOp(op)) == op &&
    t.isDotNewInst(t.dotNewOp(op)) && !t.mayBeNewStore(t.dotNewOp(op)) &&
    t.isDotNewInst(t.dotNewPredOp(op)) && !t.mayBeNewStore(t.dotNewPredOp(op))
  }

  /** A verdict other than a dot-new promotion or a glue leaves the
      candidate and its two flags alone. */
  lemma ApplyKeepsCandidate(c: Config, w: Walk, i: nat, j: nat, v: Verdict)
    requires i < |w.mis| && j < |w.mis| && i != j && !v.PromoteNew? && !v.GlueStore?
    ensures var r := Apply(c, w, i, j, v);
      r.mis[i] == w.mis[i] && r.flags.promotedToDotNew == w.flags.promotedToDotNew &&
      r.flags.glueAllocframeStore == w.flags.glueAllocframeStore
  {
  }

  /** A verdict keeps the candidate speculated on, provided it does not
      promote a candidate promoted already and glues only a store with an
      offset. */
  lemma ApplySpeculates(c: Config, w: Walk, i: nat, j: nat, v: Verdict, i0: Instr)
    requires i < |w.mis| && j < |w.mis| && i != j
    requires Speculated(c, i0, w.mis[i], w.flags.promotedToDotNew, w.flags.glueAllocframeStore)
    requires v.PromoteNew? ==> !w.flags.promotedToDotNew
    requires v.GlueStore? ==> HasOffset(w.mis[i])
    ensures var r := Apply(c, w, i, j, v);
      Speculated(c, i0, r.mis[i], r.flags.promotedToDotNew, r.flags.glueAllocframeStore)
  {
    match v
    case PromoteNew(rc) =>
    case GlueStore =>
      if !w.flags.glueAllocframeStore {
        assert Op(i0, 1) == Op(w.mis[i], 1);
      }
    case _ => ApplyKeepsCandidate(c, w, i, j, v);
  }

  /** Without a data edge from `j` to `i` the walk leaves the candidate
      alone: every other edge is skipped, recorded or sequential. */
  lemma {:induction false} WalkWithoutDataEdge(c: Config, p: Packet, w: Walk, i: nat, j: nat, edges: seq<Dep>)
    requires InBlock(w.mis, p.current) && i < |w.mis| && j < |w.mis| && i != j
    requires NoDataEdge(edges, j, i)
    ensures var r := Walked(c, p, w, i, j, edges);
      r.mis[i] == w.mis[i] && r.flags.promotedToDotNew == w.flags.promotedToDotNew &&
      r.flags.glueAllocframeStore == w.flags.glueAllocframeStore
    decreases |edges|
  {
    if edges != [] {
      var n := |edges| - 1;
      var prefix := edges[..n];
      assert NoDataEdge(prefix, j, i) by {
        forall a | 0 <= a < n ensures !IsDataEdge(prefix[a], j, i) { assert prefix[a] == edges[a]; }
      }
      WalkWithoutDataEdge(c, p, w, i, j, prefix);
      var q := Walked(c, p, w, i, j, prefix);
      var e := edges[n];
      assert Walked(c, p, w, i, j, edges) == Step(c, p, q, i, j, e);
      if !Stopped(q) && e.pred == j && e.succ == i {
        assert !IsDataEdge(e, j, i);
        VerdictShape(c, p, q, i, j, e);
        ApplyKeepsCandidate(c, q, i, j, EdgeVerdict(c, p, q, i, j, e));
      }
    }
  }

  /** The walk keeps the candidate speculated on: it is promoted to dot-new
      at most once, since the target refuses to promote a dot-new form
      again, and glued to the allocframe at most once, however many edges
      there are. */
  lemma {:induction false} WalkSpeculates(c: Config, p: Packet, w: Walk, i: nat, j: nat, edges: seq<Dep>, i0: Instr)
    requires InBlock(w.mis, p.current) && i < |w.mis| && j < |w.mis| && i != j
    requires Speculated(c, i0, w.mis[i], w.flags.promotedToDotNew, w.flags.glueAllocframeStore)
    requires DotNewUndoable(c.t, i0.opcode)
    ensures var r := Walked(c, p, w, i, j, edges);
      Speculated(c, i0, r.mis[i], r.flags.promotedToDotNew, r.flags.glueAllocframeStore)
    decreases |edges|
  {
    if edges != [] {
      var n := |edges| - 1;
      WalkSpeculates(c, p, w, i, j, edges[..n], i0);
      var q := Walked(c, p, w, i, j, edges[..n]);
      var e := edges[n];
      assert Walked(c, p, w, i, j, edges) == Step(c, p, q, i, j, e);
      if !Stopped(q) && e.pred == j && e.succ == i {
        var v := EdgeVerdict(c, p, q, i, j, e);
        VerdictShape(c, p, q, i, j, e);
        ApplySpeculates(c, q, i, j, v, i0);
      }
    }
  }

  // ---------------------------------------------------------------------
  // What the legality test and the pruning come to.

  /** A legal pair passed every screen and every edge. */
  lemma TogetherLegal(c: Config, s: PacketState, i: nat, j: nat)
    requires WellFormed(s) && i < |s.mis| && j < |s.mis|
    ensures var (r, legal) := Together(c, s, i, j);
      legal ==>
        !CannotCoexist(c.t, s.mis[i], s.mis[j]) && !Refused(c.t, s.mis, s.packet.current, i, j) &&
        (NextIsNewValueJump(c.t, s.mis, i) ==> r.flags.glueToNewValueJump) && !r.flags.dependence
  {
  }

  /** A refused pair may not coexist, with nothing rewritten, or leaves
      `dependence` set for the pruning that follows. */
  lemma TogetherRefused(c: Config, s: PacketState, i: nat, j: nat)
    requires WellFormed(s) && i < |s.mis| && j < |s.mis|
    ensures var (r, legal) := Together(c, s, i, j);
      !legal ==> (CannotCoexist(c.t, s.mis[i], s.mis[j]) && r.mis == s.mis) || r.flags.dependence
  {
  }

  /** On a packet's first comparison the ignored dependences start afresh
      and can only name the candidate. */
  lemma TogetherIgnoresAfresh(c: Config, s: PacketState, i: nat, j: nat)
    requires WellFormed(s) && i < |s.mis| && j < |s.mis| && |s.packet.current| == 1
    ensures var (r, legal) := Together(c, s, i, j);
      forall k | 0 <= k < |r.flags.ignoreDep| :: r.flags.ignoreDep[k] == i
  {
    var (s2, through) := Screened(c, s, i, j);
    if through && IsSucc(c.deps, j, i) {
      WalkFrame(c, s2.packet, Walk(s2.mis, s2.flags), i, j, c.deps);
    }
  }

  /** The legality test keeps the candidate speculated on: from `i0` it
      is at most promoted to dot-new once and glued to the allocframe once,
      with the flags saying which. */
  lemma TogetherSpeculates(c: Config, s: PacketState, i: nat, j: nat, i0: Instr)
    requires WellFormed(s) && i < |s.mis| && j < |s.mis| && i != j
    requires Speculated(c, i0, s.mis[i], s.flags.promotedToDotNew, s.flags.glueAllocframeStore)
    requires DotNewUndoable(c.t, i0.opcode)
    ensures var (r, legal) := Together(c, s, i, j);
      Speculated(c, i0, r.mis[i], r.flags.promotedToDotNew, r.flags.glueAllocframeStore)
  {
    var (s2, through) := Screened(c, s, i, j);
    var (r, legal) := Together(c, s, i, j);
    if through && IsSucc(c.deps, j, i) {
      var w := Walked(c, s2.packet, Walk(s2.mis, s2.flags), i, j, c.deps);
      WalkSpeculates(c, s2.packet, Walk(s2.mis, s2.flags), i, j, c.deps, i0);
      assert Speculated(c, i0, w.mis[i], w.flags.promotedToDotNew, w.flags.glueAllocframeStore);
      assert r.mis == w.mis && r.flags.promotedToDotNew == w.flags.promotedToDotNew &&
             r.flags.glueAllocframeStore == w.flags.glueAllocframeStore;
    } else {
      assert r == s2;
    }
  }

  /** The legality test rewrites no instruction but the two it compares. */
  lemma TogetherFrame(c: Config, s: PacketState, i: nat, j: nat)
    requires WellFormed(s) && i < |s.mis| && j < |s.mis|
    ensures var (r, legal) := Together(c, s, i, j);
      forall k | 0 <= k < |s.mis| && k != i && k != j :: r.mis[k] == s.mis[k]
  {
    var (s2, through) := Screened(c, s, i, j);
    if through && IsSucc(c.deps, j, i) {
      WalkFrame(c, s2.packet, Walk(s2.mis, s2.flags), i, j, c.deps);
    }
  }

  /** Pruning restores a speculated candidate outside the packet. */
  lemma PruneRestores(c: Config, s: PacketState, i: nat, j: nat, i0: Instr)
    requires WellFormed(s) && i < |s.mis| && j < |s.mis| && i !in s.packet.current
    requires Speculated(c, i0, s.mis[i], s.flags.promotedToDotNew, s.flags.glueAllocframeStore)
    requires c.t.dotOldOp(c.t.dotNewOp(i0.opcode)) == i0.opcode
    requires c.t.dotOldOp(c.t.dotNewPredOp(i0.opcode)) == i0.opcode
    requires s.flags.dependence && !CannotCoexist(c.t, s.mis[i], s.mis[j])
    ensures var (r, legal) := Pruned(c, s, i, j);
      !legal && r.mis[i] == i0 && !r.flags.glueAllocframeStore
  {
    if s.flags.glueAllocframeStore {
      GlueRoundTrip(i0, c.frameSize);
      var m1 := if s.flags.promotedToDotNew then WithOpcode(s.mis[i], c.t.dotOldOp(s.mis[i].opcode)) else s.mis[i];
      assert m1 == WithOffset(i0, CallersOffset(OffsetOf(i0), c.frameSize));
    }
  }

  /** A candidate refused by the legality test (for a reason other than
      not being allowed to coexist) is given back by pruning as `i0`, the
      instruction before any speculation: every dot-new promotion and
      offset change is undone, however many data edges led to them. A
      candidate whose flags were just cleared is its own `i0`. */
  lemma RejectedCandidateRestored(c: Config, s: PacketState, i: nat, j: nat, i0: Instr)
    requires WellFormed(s) && i < |s.mis| && j < |s.mis| && i != j && i !in s.packet.current
    requires Speculated(c, i0, s.mis[i], s.flags.promotedToDotNew, s.flags.glueAllocframeStore)
    requires DotNewUndoable(c.t, i0.opcode)
    ensures var (s1, legal) := Together(c, s, i, j);
      !legal && !CannotCoexist(c.t, s1.mis[i], s1.mis[j]) ==>
        var (s2, pruneOk) := Pruned(c, s1, i, j);
        !pruneOk && s2.mis[i] == i0 && !s2.flags.glueAllocframeStore
  {
    var (s1, legal) := Together(c, s, i, j);
    TogetherSpeculates(c, s, i, j, i0);
    TogetherRefused(c, s, i, j);
    if !legal && !CannotCoexist(c.t, s1.mis[i], s1.mis[j]) {
      PruneRestores(c, s1, i, j, i0);
    }
  }

  // ---------------------------------------------------------------------
  // The allocframe glue as isLegalToPacketizeTogether writes it.

  /** One turn of the edge loop with the glue as written. */
  function StepAsWritten(c: Config, p: Packet, w: Walk, i: nat, j: nat, e: Dep): (r: Walk)
    requires InBlock(w.mis, p.current) && i < |w.mis| && j < |w.mis|
    ensures |r.mis| == |w.mis|
  {
    if Stopped(w) || e.pred != j || e.succ != i then w
    else ApplyAsWritten(c, w, i, j, EdgeVerdict(c, p, w, i, j, e))
  }

  /** The edge loop with the glue as written. */
  function WalkedAsWritten(c: Config, p: Packet, w: Walk, i: nat, j: nat, edges: seq<Dep>): (r: Walk)
    requires InBlock(w.mis, p.current) && i < |w.mis| && j < |w.mis|
    ensures |r.mis| == |w.mis|
    decreases |edges|
  {
    if edges == [] then w
    else
      var q := WalkedAsWritten(c, p, w, i, j, edges[..|edges| - 1]);
      assert InBlock(q.mis, p.current);
      StepAsWritten(c, p, q, i, j, edges[|edges| - 1])
  }

  /** isLegalToPacketizeTogether with the glue as written. */
  function TogetherAsWritten(c: Config, s: PacketState, i: nat, j: nat): (r: (PacketState, bool))
    requires WellFormed(s) && i < |s.mis| && j < |s.mis|
    ensures WellFormed(r.0) && |r.0.mis| == |s.mis|
  {
    var (s2, through) := Screened(c, s, i, j);
    if !through then (s2, false)
    else if !IsSucc(c.deps, j, i) then (s2, true)
    else
      var w := WalkedAsWritten(c, s2.packet, Walk(s2.mis, s2.flags), i, j, c.deps);
      (s2.(mis := w.mis, flags := w.flags.(dependence := Stopped(w))), !Stopped(w))
  }

  /** A target on which only the structure of the instructions matters:
      every query is false, only stores store, every register is an
      integer register, the dot forms are the opcodes themselves, offsets
      down to -16 are encodable and every packet fits. */
  function PlainTarget(): (t: Target)
    ensures t.stackRegister == 29 && t.isValidOffset(StoreIo(StoreWord), -16) &&
            !t.isValidOffset(StoreIo(StoreWord), -32)
  {
    Target(
      desc := (op: Opcode) => Desc(false, false, false, false, false, false, false, op.StoreIo?, []),
      regClass := r => IntRegs, destClass := op => IntRegs,
      overlaps := (a, b) => a == b, isSuperRegister := (a, b) => false, superRegOf := r => r,
      raRegister := 31, frameRegister := 30, stackRegister := 29, usrOvf := 100, calleeSaved := [],
      isPredicated := op => false, isPredicatedTrue := op => false, isPredicatedNew := op => false,
      isDotNewInst := op => false, isDotCurInst := op => false, mayBeCurLoad := op => false,
      mayBeNewStore := op => false, isCondInst := op => false, isV60Vector := op => false,
      isNewValueJump := op => false, isNewValueInst := op => false, isMemOp := op => false,
      isDeallocRet := op => false, isLoopN := op => false, isJumpR := op => false, isSolo := op => false,
      isTailCall := op => false, isIndirectCall := op => false, isPostIncrement := op => false,
      hasFuncUnits := op => true, isSaveCalleeSavedRegsCall := mi => false, isExtended := mi => false,
      isSchedulingBoundary := mi => false, predCanBeUsedAsDotNew := (mi, r) => false,
      isHvxMemWithAIndirect := (a, b) => false, hasV60TOpsOnly := false,
      dotNewOp := op => op, dotNewPredOp := op => op, dotCurOp := op => op, dotOldOp := op => op,
      isValidOffset := (op, off) => off >= -16, fits := ops => true)
  }

  /** On the plain target, a data edge from an allocframe to a word store
      through SP with an immediate offset is an allocframe glue. */
  lemma PlainGlueVerdict(c: Config, p: Packet, w: Walk, e: Dep)
    requires c.t == PlainTarget() && p.current == [0] && |w.mis| == 2 && e.kind == Data
    requires w.mis[0].opcode == S2Allocframe && w.mis[1].opcode == StoreIo(StoreWord)
    requires Op(w.mis[1], 0) == RegOp(29, false, false, false) && HasOffset(w.mis[1])
    ensures EdgeVerdict(c, p, w, 1, 0, e) == GlueStore
  {
    var t := c.t;
    assert !CallLike(t, w.mis[1]);
    assert !CanPromoteToDotCur(t, w.mis, p.current, 0, 1, e.reg);
    assert !CanPromoteToDotNew(t, c.opts, w.mis, p.current, p.reserved, 1, 0, e.reg, t.regClass(e.reg));
    assert !Complementary(c, w.mis, p.current, 1, 0);
    assert GluableStore(t, w.mis[1]);
  }

  /** An allocframe defining both SP (r29) and FP (r30), followed by a word
      store through SP at offset 0 that stores FP: two data edges from the
      allocframe to the store, in a function with an 8-byte frame. */
  function TwoGlueConfig(): Config {
    Config(PlainTarget(), Options(false, false, false), 8, [Dep(0, 1, Data, 29), Dep(0, 1, Data, 30)])
  }

  function FrameStore(): Instr {
    Instr(StoreIo(StoreWord), [RegOp(29, false, false, false), ImmOp(0), RegOp(30, false, false, false)], false)
  }

  /** The allocframe alone in the packet, the store the candidate. */
  function TwoGlueState(): PacketState {
    var alloc := Instr(S2Allocframe, [RegOp(29, true, false, false), RegOp(30, true, false, false)], false);
    PacketState([alloc, FrameStore()], Packet([0], [], [], []), Flags([], false, false, false, false, false))
  }

  /** The screens let the store through, and it depends on the allocframe. */
  lemma TwoGlueScreened()
    ensures Screened(TwoGlueConfig(), TwoGlueState(), 1, 0) == (TwoGlueState(), true)
    ensures IsSucc(TwoGlueConfig().deps, 0, 1)
  {
    var c, s := TwoGlueConfig(), TwoGlueState();
    var store, alloc := s.mis[1], s.mis[0];
    assert !CannotCoexist(c.t, store, alloc);
    assert !HasDeadDependence(c.t, store, alloc) by {
      assert forall k | 0 <= k < |alloc.operands| :: !IsDeadDef(alloc.operands[k]);
    }
    assert !HasControlDependence(c.t, store, alloc);
    assert !HasV4SpecificDependence(c.t, store, alloc);
    assert IsSucc(c.deps, 0, 1) by { assert c.deps[0].pred == 0 && c.deps[0].succ == 1; }
  }

  /** As written, the first edge glues the store (offset -16) and the
      second glues again: -32 is not encodable, so the loop ends as a
      sequential dependence with the glue flag cleared. */
  lemma TwoGlueWalkAsWritten()
    ensures var c, s := TwoGlueConfig(), TwoGlueState();
      WalkedAsWritten(c, s.packet, Walk(s.mis, s.flags), 1, 0, c.deps) ==
      Walk(s.mis[1 := WithOffset(FrameStore(), -16)], s.flags.(foundSequentialDependence := true))
  {
    var c, s := TwoGlueConfig(), TwoGlueState();
    var p, w0 := s.packet, Walk(s.mis, s.flags);
    PlainGlueVerdict(c, p, w0, c.deps[0]);
    var w1 := Walk(s.mis[1 := WithOffset(FrameStore(), -16)], s.flags.(glueAllocframeStore := true));
    assert WalkedAsWritten(c, p, w0, 1, 0, c.deps[..1]) == w1 by {
      assert c.deps[..1][..0] == [];
    }
    PlainGlueVerdict(c, p, w1, c.deps[1]);
    assert c.deps[..2][..1] == c.deps[..1] && c.deps[..2] == c.deps;
  }

  /** With the glue done once, the second edge is discharged and the walk
      ends with the store glued once. */
  lemma TwoGlueWalkCorrected()
    ensures var c, s := TwoGlueConfig(), TwoGlueState();
      Walked(c, s.packet, Walk(s.mis, s.flags), 1, 0, c.deps) ==
      Walk(s.mis[1 := WithOffset(FrameStore(), -16)], s.flags.(glueAllocframeStore := true))
  {
    var c, s := TwoGlueConfig(), TwoGlueState();
    var p, w0 := s.packet, Walk(s.mis, s.flags);
    PlainGlueVerdict(c, p, w0, c.deps[0]);
    var w1 := Walk(s.mis[1 := WithOffset(FrameStore(), -16)], s.flags.(glueAllocframeStore := true));
    assert Walked(c, p, w0, 1, 0, c.deps[..1]) == w1 by {
      assert c.deps[..1][..0] == [];
    }
    PlainGlueVerdict(c, p, w1, c.deps[1]);
    assert c.deps[..2][..1] == c.deps[..1] && c.deps[..2] == c.deps;
  }

  /** As written, the two edges leave the store refused with its offset
      moved to -16 and the glue flag cleared, so pruning does not move it
      back: the candidate goes to the next packet addressing through the
      wrong SP. With the glue done once the pair is legal, the store keeping
      its single move to -16. */
  lemma DoubleGlueNotUndone()
    ensures var c, s := TwoGlueConfig(), TwoGlueState();
      var (s1, legal) := TogetherAsWritten(c, s, 1, 0);
      var (s2, pruneOk) := Pruned(c, s1, 1, 0);
      !legal && !pruneOk && OffsetOf(s2.mis[1]) == -16 && s2.mis[1] != FrameStore() &&
      Together(c, s, 1, 0).1 && OffsetOf(Together(c, s, 1, 0).0.mis[1]) == -16
  {
    var c, s := TwoGlueConfig(), TwoGlueState();
    TwoGlueScreened();
    TwoGlueWalkAsWritten();
    TwoGlueWalkCorrected();
    var glued := WithOffset(FrameStore(), -16);
    var s1 := s.(mis := s.mis[1 := glued], flags := s.flags.(foundSequentialDependence := true, dependence := true));
    assert TogetherAsWritten(c, s, 1, 0) == (s1, false);
    assert CleanedUp(s1.mis, [0]) == s1.mis;
    assert Pruned(c, s1, 1, 0).0.mis[1] == glued;
  }

  // ---------------------------------------------------------------------
  // The dot-cur clean-up.

  /** Once the scan has met a use of the latest dot-cur load, the rest of
      the packet changes nothing. */
  lemma {:induction false} ScanUsedSticks(mis: seq<Instr>, ids: seq<nat>, k: nat)
    requires InBlock(mis, ids) && k <= |ids|
    requires InBlock(mis, ids[..k]) && ScanDotCur(mis, ids[..k]).used
    ensures ScanDotCur(mis, ids) == ScanDotCur(mis, ids[..k])
    decreases |ids|
  {
    if k == |ids| {
      assert ids[..k] == ids;
    } else {
      var n := |ids| - 1;
      assert ids[..n][..k] == ids[..k];
      assert InBlock(mis, ids[..n]) by {
        forall q | 0 <= q < n ensures ids[..n][q] < |mis| { assert ids[..n][q] == ids[q]; }
      }
      ScanUsedSticks(mis, ids[..n], k);
    }
  }

  /** The load cleanUpDotCur demotes is the packet's last dot-cur load, and
      no member after it names its destination. */
  lemma {:induction false} ScanDotCurMeaning(mis: seq<Instr>, ids: seq<nat>)
    requires InBlock(mis, ids)
    ensures var r := ScanDotCur(mis, ids);
      (r.cur.None? ==> forall q | 0 <= q < |ids| :: mis[ids[q]].opcode != VL32bCurAi) &&
      (r.cur.Some? && !r.used ==>
        exists p | 0 <= p < |ids| :: ids[p] == r.cur.value &&
          forall q | p < q < |ids| ::
            mis[ids[q]].opcode != VL32bCurAi && !HasRegOperand(mis[ids[q]], RegOf(Op(mis[ids[p]], 0))))
    decreases |ids|
  {
    if ids != [] {
      var n := |ids| - 1;
      var prefix := ids[..n];
      assert InBlock(mis, prefix) by {
        forall q | 0 <= q < n ensures prefix[q] < |mis| { assert prefix[q] == ids[q]; }
      }
      ScanDotCurMeaning(mis, prefix);
      var s := ScanDotCur(mis, prefix);
      var r := ScanDotCur(mis, ids);
      var b := ids[n];
      if r.cur.None? {
        assert s.cur.None? && mis[b].opcode != VL32bCurAi;
        forall q | 0 <= q < |ids| ensures mis[ids[q]].opcode != VL32bCurAi {
          if q < n { assert ids[q] == prefix[q]; }
        }
      } else if !r.used {
        if mis[b].opcode == VL32bCurAi {
          assert ids[n] == r.cur.value;
        } else {
          assert s == r;
          var p :| 0 <= p < n && prefix[p] == s.cur.value &&
            forall q | p < q < n ::
              mis[prefix[q]].opcode != VL32bCurAi && !HasRegOperand(mis[prefix[q]], RegOf(Op(mis[prefix[p]], 0)));
          forall q | p < q < |ids|
            ensures mis[ids[q]].opcode != VL32bCurAi && !HasRegOperand(mis[ids[q]], RegOf(Op(mis[ids[p]], 0)))
          {
            if q < n { assert ids[q] == prefix[q]; }
          }
          assert ids[p] == r.cur.value;
        }
      }
    }
  }

  /** Restating the clean-up for a whole packet: an instruction it changes
      is the last dot-cur load, demoted to a plain load, and unused by the
      members after it. */
  lemma CleanedUpMeaning(mis: seq<Instr>, packet: seq<nat>, x: nat)
    requires InBlock(mis, packet) && x < |mis|
    requires CleanedUp(mis, packet)[x] != mis[x]
    ensures mis[x].opcode == VL32bCurAi && CleanedUp(mis, packet)[x] == DemoteCur(mis[x])
    ensures exists p | 0 <= p < |packet| ::
      packet[p] == x &&
      forall q | p < q < |packet| ::
        mis[packet[q]].opcode != VL32bCurAi && !HasRegOperand(mis[packet[q]], RegOf(Op(mis[x], 0)))
  {
    ScanDotCurMeaning(mis, packet);
  }

  // ---------------------------------------------------------------------
  // What the addition comes to.

  /** The candidate always ends up in the current packet, with the
      new-value jump it feeds right behind it; when the packet has no room
      for its constant extender a new packet is started, the old one is
      kept as the previous packet, and the candidate's speculative
      promotion and allocframe glue are undone. */
  lemma AddedMeaning(c: Config, s: PacketState, i: nat, i0: Instr)
    requires WellFormed(s) && i < |s.mis| && (s.flags.glueToNewValueJump ==> i + 1 < |s.mis|)
    requires s.mis[i].opcode != ImplicitDef
    ensures var (r, last) := Added(c, s, i);
      (!s.flags.glueToNewValueJump ==>
         last == i && (r.packet.current == s.packet.current + [i] || r.packet.current == [i])) &&
      (s.flags.glueToNewValueJump ==>
         last == i + 1 &&
         (r.packet.current == s.packet.current + [i, i + 1] || r.packet.current == [i, i + 1]))
    ensures var (r, last) := Added(c, s, i);
      !s.flags.glueToNewValueJump && c.t.isExtended(s.mis[i]) &&
      !c.t.fits(s.packet.reserved + [s.mis[i].opcode] + [A4Ext]) &&
      Speculated(c, i0, s.mis[i], s.flags.promotedToDotNew, s.flags.glueAllocframeStore) &&
      c.t.dotOldOp(c.t.dotNewOp(i0.opcode)) == i0.opcode &&
      c.t.dotOldOp(c.t.dotNewPredOp(i0.opcode)) == i0.opcode ==>
        r.packet.current == [i] && r.packet.previous == s.packet.current && r.mis[i] == i0 &&
        !r.flags.glueAllocframeStore
  {
    if !s.flags.glueToNewValueJump && c.t.isExtended(s.mis[i]) &&
       !c.t.fits(s.packet.reserved + [s.mis[i].opcode] + [A4Ext]) &&
       Speculated(c, i0, s.mis[i], s.flags.promotedToDotNew, s.flags.glueAllocframeStore) &&
       s.flags.glueAllocframeStore {
      GlueRoundTrip(i0, c.frameSize);
    }
  }

  /** An implicit def is never put into a packet: at most it gains the
      implicit def of its super-register. */
  lemma ImplicitDefNotPacketized(c: Config, s: PacketState, i: nat)
    requires WellFormed(s) && i < |s.mis| && s.mis[i].opcode == ImplicitDef
    ensures var (r, last) := Added(c, s, i);
      last == i && r.packet == s.packet && r.flags == s.flags &&
      r.mis[i].opcode == ImplicitDef && s.mis[i].operands <= r.mis[i].operands &&
      (forall k | 0 <= k < |s.mis| && k != i :: r.mis[k] == s.mis[k])
  {
  }

  // ---------------------------------------------------------------------
  // The packetizer, working on one basic block in place.

  class HexagonPacketizerList {
    const t: Target
    const opts: Options
    const frameSize: int
    const deps: seq<Dep>
    var mis: seq<Instr>
    var currentPacket: seq<nat>
    var oldPacket: seq<nat>
    var reserved: seq<Opcode>
    var bundles: seq<seq<nat>>
    var ignoreDep: seq<nat>
    var dependence: bool
    var promotedToDotNew: bool
    var glueToNewValueJump: bool
    var glueAllocframeStore: bool
    var foundSequentialDependence: bool

    function Cfg(): Config {
      Config(t, opts, frameSize, deps)
    }

    function State(): PacketState
      reads this
    {
      PacketState(mis, Packet(currentPacket, oldPacket, reserved, bundles),
                  Flags(ignoreDep, dependence, promotedToDotNew, glueToNewValueJump, glueAllocframeStore,
                        foundSequentialDependence))
    }

    predicate Valid()
      reads this
    {
      InBlock(mis, currentPacket)
    }

    constructor(t: Target, opts: Options, frameSize: int, deps: seq<Dep>, mis: seq<Instr>)
      ensures Cfg() == Config(t, opts, frameSize, deps) && Valid()
      ensures State() == PacketState(mis, Packet([], [], [], []), Flags([], false, false, false, false, false))
    {
      this.t, this.opts, this.frameSize, this.deps := t, opts, frameSize, deps;
      this.mis := mis;
      currentPacket, oldPacket, reserved, bundles, ignoreDep := [], [], [], [], [];
      dependence, promotedToDotNew, glueToNewValueJump := false, false, false;
      glueAllocframeStore, foundSequentialDependence := false, false;
    }

    method InitPacketizerState()
      modifies this
      ensures State() == Initialized(old(State()))
    {
      dependence := false;
      promotedToDotNew := false;
      glueToNewValueJump := false;
      glueAllocframeStore := false;
      foundSequentialDependence := false;
    }

    /** The resource automaton takes one more opcode. */
    method ReserveResources(op: Opcode)
      modifies this
      ensures State() == old(State()).(packet := old(State()).packet.(reserved := old(reserved) + [op]))
    {
      reserved := reserved + [op];
    }

    method TryAllocateResourcesForConstExt(reserve: bool) returns (avail: bool)
      modifies this
      ensures (avail, reserved) == WithConstExt(t, old(reserved), reserve)
      ensures State() == old(State()).(packet := old(State()).packet.(reserved := reserved))
    {
      avail := t.fits(reserved + [A4Ext]);
      if reserve && avail {
        ReserveResources(A4Ext);
      }
    }

    /** The caller knows the extender fits. */
    method ReserveResourcesForConstExt()
      requires t.fits(reserved + [A4Ext])
      modifies this
      ensures State() == old(State()).(packet := old(State()).packet.(reserved := old(reserved) + [A4Ext]))
    {
      var avail := TryAllocateResourcesForConstExt(true);
    }

    method CanReserveResourcesForConstExt() returns (avail: bool)
      modifies this
      ensures avail == t.fits(reserved + [A4Ext]) && State() == old(State())
    {
      avail := TryAllocateResourcesForConstExt(false);
    }

    method PromoteToDotCur(j: nat)
      requires j < |mis|
      modifies this
      ensures State() == old(State()).(mis := old(mis)[j := WithOpcode(old(mis)[j], t.dotCurOp(old(mis)[j].opcode))])
    {
      mis := mis[j := WithOpcode(mis[j], t.dotCurOp(mis[j].opcode))];
    }

    method PromoteToDotNew(i: nat, rc: RegClass)
      requires i < |mis|
      modifies this
      ensures State() ==
              old(State()).(mis := old(mis)[i := WithOpcode(old(mis)[i], NewOpcode(t, old(mis)[i].opcode, rc))])
    {
      var newOpcode := if rc == PredRegs then t.dotNewPredOp(mis[i].opcode) else t.dotNewOp(mis[i].opcode);
      mis := mis[i := WithOpcode(mis[i], newOpcode)];
    }

    method DemoteToDotOld(i: nat)
      requires i < |mis|
      modifies this
      ensures State() == old(State()).(mis := old(mis)[i := WithOpcode(old(mis)[i], t.dotOldOp(old(mis)[i].opcode))])
    {
      mis := mis[i := WithOpcode(mis[i], t.dotOldOp(mis[i].opcode))];
    }

    /** The store addresses through the caller's SP, when its
        new offset is encodable. */
    method UseCallersSP(i: nat) returns (ok: bool)
      requires i < |mis| && IsStoreIo(mis[i]) && HasOffset(mis[i])
      modifies this
      ensures ok == t.isValidOffset(old(mis)[i].opcode, CallersOffset(OffsetOf(old(mis)[i]), frameSize))
      ensures State() == old(State()).(mis := if ok then old(mis)[i := WithOffset(old(mis)[i], CallersOffset(OffsetOf(old(mis)[i]), frameSize))]
                                             else old(mis))
    {
      var newOff := Op(mis[i], 1).imm - (frameSize + LrFpSize);
      if t.isValidOffset(mis[i].opcode, newOff) {
        mis := mis[i := WithOffset(mis[i], newOff)];
        ok := true;
      } else {
        ok := false;
      }
    }

    method UseCalleesSP(i: nat)
      requires i < |mis| && IsStoreIo(mis[i]) && HasOffset(mis[i])
      modifies this
      ensures State() == old(State()).(mis := old(mis)[i := UseCallees(old(mis)[i], frameSize)])
    {
      mis := mis[i := WithOffset(mis[i], Op(mis[i], 1).imm + frameSize + LrFpSize)];
    }

    /** The loop of cleanUpDotCur: the latest dot-cur load of the packet,
        and whether a later member names its destination. */
    method ScanPacket() returns (r: CurScan)
      requires Valid()
      ensures r == ScanDotCur(mis, currentPacket)
    {
      var cur: Option<nat> := None;
      var k := 0;
      while k < |currentPacket|
        invariant k <= |currentPacket| && InBlock(mis, currentPacket[..k])
        invariant ScanDotCur(mis, currentPacket[..k]) == CurScan(cur, false)
      {
        var b := currentPacket[k];
        ScanDotCurPrefix(mis, currentPacket, k);
        if mis[b].opcode == VL32bCurAi {
          cur := Some(b);
        } else if cur.Some? && HasRegOperand(mis[b], RegOf(Op(mis[cur.value], 0))) {
          ScanUsedSticks(mis, currentPacket, k + 1);
          assert currentPacket[..|currentPacket|] == currentPacket;
          return CurScan(cur, true);
        }
        k := k + 1;
      }
      assert currentPacket[..k] == currentPacket;
      return CurScan(cur, false);
    }

    method CleanUpDotCur()
      requires Valid()
      modifies this
      ensures State() == old(State()).(mis := CleanedUp(old(mis), old(currentPacket)))
    {
      var r := ScanPacket();
      if !r.used && r.cur.Some? {
        mis := mis[r.cur.value := DemoteCur(mis[r.cur.value])];
      }
    }

    method EndPacket()
      modifies this
      ensures State() == Ended(old(State()))
    {
      oldPacket := currentPacket;
      if |currentPacket| > 1 {
        bundles := bundles + [currentPacket];
      }
      currentPacket := [];
      reserved := [];
    }

    /** The packet members that keep `i` from feeding the new-value jump
        after it. */
    method NewValueJumpBlocked(i: nat) returns (blocked: bool)
      requires Valid() && i + 1 < |mis|
      ensures blocked == NvjBlocked(t, mis, currentPacket, i)
    {
      var opR := NvjOtherOperand(mis, i);
      blocked := false;
      var k := 0;
      while k < |currentPacket|
        invariant k <= |currentPacket|
        invariant forall q | 0 <= q < k :: !BlocksNewValueJump(t, mis, currentPacket[q], opR)
      {
        if BlocksNewValueJump(t, mis, currentPacket[k], opR) {
          return true;
        }
        k := k + 1;
      }
    }

    /** The screens of isLegalToPacketizeTogether. */
    method Screen(i: nat, j: nat) returns (through: bool)
      requires Valid() && i < |mis| && j < |mis|
      modifies this
      ensures (State(), through) == Screened(Cfg(), old(State()), i, j)
    {
      if |currentPacket| == 1 {
        ignoreDep := [];
      }
      if CannotCoexist(t, mis[i], mis[j]) {
        return false;
      }
      dependence := HasDeadDependence(t, mis[i], mis[j]) || HasControlDependence(t, mis[i], mis[j]);
      if dependence {
        return false;
      }
      dependence := HasV4SpecificDependence(t, mis[i], mis[j]);
      if dependence {
        return false;
      }
      if NextIsNewValueJump(t, mis, i) {
        dependence := NewValueJumpBlocked(i);
        if dependence {
          return false;
        }
        glueToNewValueJump := true;
      }
      return true;
    }

    method IsLegalToPacketizeTogether(i: nat, j: nat) returns (legal: bool)
      requires Valid() && i < |mis| && j < |mis| && !IsSoloInstruction(t, opts, mis[i])
      modifies this
      ensures (State(), legal) == Together(Cfg(), old(State()), i, j)
    {
      var through := Screen(i, j);
      if !through {
        return false;
      }
      if !IsSucc(deps, j, i) {
        return true;
      }
      legal := WalkEdges(i, j);
    }

    /** The effect of one verdict, in place. */
    method ApplyVerdict(i: nat, j: nat, v: Verdict)
      requires i < |mis| && j < |mis|
      requires v.GlueStore? ==> IsStoreIo(mis[i]) && HasOffset(mis[i])
      modifies this
      ensures Walk(mis, State().flags) == Apply(Cfg(), old(Walk(mis, State().flags)), i, j, v)
      ensures State().packet == old(State().packet)
    {
      match v {
        case Skip =>
        case PromoteCur =>
          PromoteToDotCur(j);
        case PromoteNew(rc) =>
          PromoteToDotNew(i, rc);
          promotedToDotNew := true;
        case IgnoreOnce =>
          ignoreDep := ignoreDep + [i];
        case Clash =>
          dependence := true;
        case GlueStore =>
          if !glueAllocframeStore {
            glueAllocframeStore := UseCallersSP(i);
            if !glueAllocframeStore {
              foundSequentialDependence := true;
            }
          }
        case Block =>
          foundSequentialDependence := true;
      }
    }

    /** One turn of the edge loop, before it has stopped. */
    method StepEdge(i: nat, j: nat, e: Dep)
      requires Valid() && i < |mis| && j < |mis| && !Stopped(Walk(mis, State().flags))
      modifies this
      ensures Walk(mis, State().flags) == Step(Cfg(), old(State().packet), old(Walk(mis, State().flags)), i, j, e)
      ensures State().packet == old(State().packet)
    {
      if e.pred == j && e.succ == i {
        var v := EdgeVerdict(Cfg(), State().packet, Walk(mis, State().flags), i, j, e);
        VerdictShape(Cfg(), State().packet, Walk(mis, State().flags), i, j, e);
        ApplyVerdict(i, j, v);
      }
    }

    /** The edge loop of isLegalToPacketizeTogether, from a state the
        screens have passed. */
    method WalkEdges(i: nat, j: nat) returns (legal: bool)
      requires Valid() && i < |mis| && j < |mis| && !dependence
      modifies this
      ensures var w := Walked(Cfg(), old(State()).packet, Walk(old(mis), old(State()).flags), i, j, deps);
        State() == old(State()).(mis := w.mis, flags := w.flags.(dependence := Stopped(w))) && legal == !Stopped(w)
    {
      ghost var c := Cfg();
      ghost var p := State().packet;
      ghost var w0 := Walk(mis, State().flags);
      var k := 0;
      while k < |deps| && !foundSequentialDependence
        invariant k <= |deps| && !dependence
        invariant State().packet == p && |mis| == |w0.mis|
        invariant Walk(mis, State().flags) == Walked(c, p, w0, i, j, deps[..k])
      {
        WalkedPrefix(c, p, w0, i, j, deps, k);
        StepEdge(i, j, deps[k]);
        if dependence {
          WalkStops(c, p, w0, i, j, deps, k + 1);
          return false;
        }
        k := k + 1;
      }
      if k < |deps| {
        WalkStops(c, p, w0, i, j, deps, k);
      } else {
        assert deps[..k] == deps;
      }
      if foundSequentialDependence {
        dependence := true;
        return false;
      }
      return true;
    }

    method IsLegalToPruneDependencies(i: nat, j: nat) returns (ok: bool)
      requires Valid() && i < |mis| && j < |mis|
      requires !CannotCoexist(t, mis[i], mis[j]) && dependence && glueAllocframeStore ==>
               i !in currentPacket && CalleesReady(t, mis[i], promotedToDotNew)
      modifies this
      ensures (State(), ok) == Pruned(Cfg(), old(State()), i, j)
    {
      if CannotCoexist(t, mis[i], mis[j]) {
        return false;
      }
      if !dependence {
        return true;
      }
      if promotedToDotNew {
        DemoteToDotOld(i);
      }
      CleanUpDotCur();
      if glueAllocframeStore {
        UseCalleesSP(i);
        glueAllocframeStore := false;
      }
      return false;
    }

    /** The reservations for the candidate and its new-value jump in the
        current packet. */
    method ReserveWithJump(i: nat) returns (good: bool)
      requires Valid() && i + 1 < |mis|
      modifies this
      ensures (good, reserved) == JumpReserved(t, old(reserved), old(mis)[i], old(mis)[i + 1])
      ensures State() == old(State()).(packet := old(State()).packet.(reserved := reserved))
    {
      var mi, nvj := mis[i], mis[i + 1];
      var ext := t.isExtended(mi);
      good := true;
      ReserveResources(mi.opcode);
      if ext {
        good := TryAllocateResourcesForConstExt(true);
      }
      var extNvj := t.isExtended(nvj);
      if good {
        var fits := t.fits(reserved + [nvj.opcode]);
        if fits {
          ReserveResources(nvj.opcode);
        } else {
          good := false;
        }
      }
      if good && extNvj {
        good := TryAllocateResourcesForConstExt(true);
      }
    }

    /** The reservations for the candidate and its new-value jump in a
        packet of their own. */
    method ReserveFreshWithJump(i: nat)
      requires Valid() && i + 1 < |mis| && reserved == []
      modifies this
      ensures reserved == FreshJumpReserved(t, old(mis)[i], old(mis)[i + 1])
      ensures State() == old(State()).(packet := old(State()).packet.(reserved := reserved))
    {
      var mi, nvj := mis[i], mis[i + 1];
      ReserveResources(mi.opcode);
      assert reserved == [mi.opcode];
      if t.isExtended(mi) {
        var _ := TryAllocateResourcesForConstExt(true);
      }
      ghost var q1 := reserved;
      assert q1 == if t.isExtended(mi) then WithConstExt(t, [mi.opcode], true).1 else [mi.opcode];
      ReserveResources(nvj.opcode);
      ghost var q2 := reserved;
      assert q2 == q1 + [nvj.opcode];
      if t.isExtended(nvj) {
        var _ := TryAllocateResourcesForConstExt(true);
      }
      assert reserved == if t.isExtended(nvj) then WithConstExt(t, q2, true).1 else q2;
    }

    /** The new-value jump branch of addToPacket. */
    method AddWithNewValueJump(i: nat)
      requires Valid() && i + 1 < |mis|
      modifies this
      ensures State() == JoinedWithJump(Cfg(), old(State()), i)
    {
      var good := ReserveWithJump(i);
      if !good {
        EndPacket();
        ReserveFreshWithJump(i);
      }
      currentPacket := currentPacket + [i, i + 1];
    }

    /** The branch of addToPacket where the candidate's extender does not
        fit: a new packet. */
    method RestartPacket(i: nat)
      requires Valid() && i < |mis|
      requires glueAllocframeStore ==> CalleesReady(t, mis[i], promotedToDotNew)
      modifies this
      ensures State() == Restarted(Cfg(), old(State()), i)
    {
      ghost var s0 := State();
      EndPacket();
      if promotedToDotNew {
        DemoteToDotOld(i);
      }
      ghost var s1 := State();
      assert s1.packet == Ended(s0).packet && s1.flags == s0.flags;
      if glueAllocframeStore {
        UseCalleesSP(i);
        glueAllocframeStore := false;
      }
      assert State() == s1.(mis := mis, flags := s0.flags.(glueAllocframeStore := false));
      ghost var s2 := State();
      assert mis == Restarted(Cfg(), s0, i).mis;
      ReserveResources(mis[i].opcode);
      assert reserved == [mis[i].opcode];
      var _ := TryAllocateResourcesForConstExt(true);
      assert State() == s2.(packet := s2.packet.(reserved := WithConstExt(t, [mis[i].opcode], true).1));
    }

    method AddToPacket(i: nat) returns (last: nat)
      requires Valid() && i < |mis|
      requires mis[i].opcode != ImplicitDef && glueToNewValueJump ==> i + 1 < |mis|
      requires mis[i].opcode != ImplicitDef && !glueToNewValueJump && t.isExtended(mis[i]) &&
               !t.fits(reserved + [mis[i].opcode] + [A4Ext]) && glueAllocframeStore ==>
               CalleesReady(t, mis[i], promotedToDotNew)
      modifies this
      ensures (State(), last) == Added(Cfg(), old(State()), i)
    {
      var mi := mis[i];
      if mi.opcode == ImplicitDef {
        var r := RegOf(Op(mi, 0));
        if t.regClass(r) == IntRegs {
          mis := mis[i := mi.(operands := mi.operands + [RegOp(t.superRegOf(r), true, true, false)])];
        } else {
          assert mis[i := WithSuperDef(t, mi)] == mis;
        }
        return i;
      }
      if glueToNewValueJump {
        AddWithNewValueJump(i);
        return i + 1;
      }
      var ext := t.isExtended(mi);
      ReserveResources(mi.opcode);
      if ext {
        var avail := TryAllocateResourcesForConstExt(true);
        if !avail {
          RestartPacket(i);
        }
      }
      currentPacket := currentPacket + [i];
      return i;
    }
  }
}
