# Hexagon packetizer, X86 shuffle masks, flang data-sharing rules, ThinLTO helpers

This project is a Dafny model of four pieces of the LLVM/flang code base, with proofs about each one.

- **The Hexagon VLIW packetizer** (`hexagon_instr.dfy`, `hexagon_rules.dfy`, `hexagon_packetizer.dfy`, `hexagon_pass.dfy`).
  - It models the pairwise legality rules that decide whether a candidate instruction may join a packet member.
  - It models the speculative dot-new, dot-cur and allocframe rewrites the legality test performs, and how pruning undoes them.
  - It models how a candidate, with its constant extender and a glued new-value jump, is added to the packet.
  - It models the pass driver: KILL removal, the cutting of each block into scheduling regions, and the pulling of debug values and inline asm back out of bundles.
  - `HexagonPacketizerList` and `MachineBasicBlock` are classes whose methods update their fields in place. Each method is proved against a function that states the new state.
- **X86 lowering helpers** (`x86_lowering.dfy`).
  - The unpacklo/unpackhi and scaled shuffle masks are built by loops and proved against their mask functions.
  - The scaling is proved to be undone by the corresponding widening.
  - Also modelled: the multi-store, vector-constant-store and signed-truncation-check decisions. The store-merging test is carried over as a bare test, with no property stated.
- **flang's directive attribute resolution** (`directives.dfy`).
  - `DirectiveAttributeVisitor` is a class holding the stack of directive contexts, the symbol table and the per-directive object sets.
  - Its methods declare private copies of symbols, compute the associated loop level of OpenMP and OpenACC loop constructs, privatize loop indices, and diagnose duplicate data-sharing appearances.
- **ThinLTO code generator helpers** (`thin_lto.dfy`).
  - `toHex` is proved to be injective by way of an inverse.
  - Also modelled: the cache file name built from a hash, the module map, and the Darwin default CPU chosen by `initTMBuilder`.

All source paths below are relative to the repository root.

## Model

| member | source | states |
|---|---|---|
| HexagonRules.CannotCoexistSymmetric | llvm/lib/Target/Hexagon/HexagonVLIWPacketizer.cpp:1022-1047 | cannotCoexist is symmetric. An inline asm cannot share a packet with another inline asm or with any branch, barrier, call or terminator. Without V60 ops, two instructions that are not inline asm always coexist. |
| HexagonRules.DeadDependenceCases | llvm/lib/Target/Hexagon/HexagonVLIWPacketizer.cpp:1091-1116 | There is never a dead dependence when either instruction is a call or is predicated. Otherwise a dead dependence exists exactly when both define the same dead register and that register is not USR_OVF. |
| HexagonRules.ControlDependenceSymmetric | llvm/lib/Target/Hexagon/HexagonVLIWPacketizer.cpp:1118-1152 | Every control rule except the dealloc_return one is symmetric. Two control-flow instructions always conflict, and so do a loopN and a call. |
| HexagonRules.StoreClassRules | llvm/lib/Target/Hexagon/HexagonVLIWPacketizer.cpp:1081-1174 | Outside system instructions and dealloc_return: two stores conflict iff the packet member is a new-value instruction or either is a memop. A store and a non-store conflict iff the non-store is a memop. Two non-stores conflict iff both are memops. A system instruction or a dealloc_return beside a store always conflicts. |
| HexagonRules.StoreClassSymmetric | llvm/lib/Target/Hexagon/HexagonVLIWPacketizer.cpp:1154-1174 | The store-slot test is symmetric unless a new-value instruction is one of two stores. |
| HexagonRules.FirstPredUse | llvm/lib/Target/Hexagon/HexagonVLIWPacketizer.cpp:870-884 | The predicate register found is the FIRST predicate-class use operand of the instruction: no earlier operand is one. No register is found only when there is no such operand. |
| HexagonRules.ComplementsMeaning | llvm/lib/Target/Hexagon/HexagonVLIWPacketizer.cpp:888-952 | Complementary predicates mean: both predicated, on the same predicate register, with opposite senses and the same dot-new status. Outside the corner case of a restricting dependence in the packet, these conditions are also sufficient. |
| HexagonRules.DotNewRequirements | llvm/lib/Target/Hexagon/HexagonVLIWPacketizer.cpp:769-825 | A dot-new promotion never reads from inline asm, an implicit def or an implicit dependency, and the consumer is newifiable. On a non-predicate register, the dot-new opcode fits the reserved resources, the new-value store rules hold, and no packet member is a store. |
| HexagonRules.PseudoAndSolo | llvm/lib/Target/Hexagon/HexagonVLIWPacketizer.cpp:964-1012 | Inline asm is never ignored as a pseudo instruction. Inline asm is solo iff inline-asm scheduling is off or the target says it is solo. Scheduling barriers are system instructions and solo. Debug values are ignored. |
| HexagonPacketizer.Initialized | llvm/lib/Target/Hexagon/HexagonVLIWPacketizer.cpp:955-961 | The five per-candidate flags are cleared. The block, the packet and the ignored dependences are unchanged. |
| HexagonPacketizer.GlueRoundTrip | llvm/lib/Target/Hexagon/HexagonVLIWPacketizer.cpp:444-479 | Moving a store to the caller's SP and back to the callee's SP restores it exactly. The caller-SP form changes nothing but the offset. |
| HexagonPacketizer.ApplyAsWritten | llvm/lib/Target/Hexagon/HexagonVLIWPacketizer.cpp:1301-1476 | The effect of one edge as written rewrites only the two compared instructions. It appends at most the candidate to the ignored dependences and never touches the new-value-jump glue flag. |
| HexagonPacketizer.Apply | llvm/lib/Target/Hexagon/HexagonVLIWPacketizer.cpp:1427-1446 | The same frame holds with the allocframe glue done once: a store already glued is left alone by a further data edge from the allocframe. |
| HexagonPacketizer.Screened | llvm/lib/Target/Hexagon/HexagonVLIWPacketizer.cpp:1184-1251 | The screens of the legality test change only the flags, never the block or the packet, and leave the promotion and glue flags alone. |
| HexagonPacketizer.Together | llvm/lib/Target/Hexagon/HexagonVLIWPacketizer.cpp:1179-1484 | The legality test keeps the packet unchanged and the block the same length. |
| HexagonPacketizer.VerdictShape | llvm/lib/Target/Hexagon/HexagonVLIWPacketizer.cpp:1289-1446 | Only a data edge promotes or glues. A dot-new promotion uses the register class of the edge's register and happens only when canPromoteToDotNew allows it. A glue only pairs an SP-based store with an allocframe. |
| HexagonPacketizer.OrderEdgeVerdict | llvm/lib/Target/Hexagon/HexagonVLIWPacketizer.cpp:1294-1421 | An order edge is sequential iff none of these exempt it: the candidate is a call, return or tail call; the predicates are complementary; a direct jump follows a non-branch; or the candidate is a conditional branch. When none applies, the memory-ordering rule decides (store then load, non-memory instructions, ordered references when volatile packetizing is off). |
| HexagonPacketizer.OutputEdgeVerdict | llvm/lib/Target/Hexagon/HexagonVLIWPacketizer.cpp:1294-1384 | An output edge is sequential iff a call does not ignore it, the predicates are not complementary, and one of the two instructions defines the register itself. |
| HexagonPacketizer.AntiEdgeVerdict | llvm/lib/Target/Hexagon/HexagonVLIWPacketizer.cpp:1448-1474 | An anti edge is sequential iff it runs into a call whose implicit definitions the candidate writes, and none of these hold: a call or return ignores the edge, the predicates are complementary, or the candidate is a conditional branch. |
| HexagonPacketizer.ComplementEdgeVerdict | llvm/lib/Target/Hexagon/HexagonVLIWPacketizer.cpp:1325-1348 | Complementary predicates discharge a non-data edge once. The candidate is recorded. An edge from a member already recorded is a clash. |
| HexagonPacketizer.DataEdgeVerdict | llvm/lib/Target/Hexagon/HexagonVLIWPacketizer.cpp:1289-1446 | A data edge is sequential iff nothing discharges it: no dot-cur or dot-new promotion, no V60 use of a dot-cur value, no new-value jump, no complementary predicates, and no allocframe glue. |
| HexagonPacketizer.WalkStops | llvm/lib/Target/Hexagon/HexagonVLIWPacketizer.cpp:1258-1260 | Once a sequential dependence or a clash is found, the remaining edges change nothing. |
| HexagonPacketizer.WalkFrame | llvm/lib/Target/Hexagon/HexagonVLIWPacketizer.cpp:1258-1476 | The edge loop rewrites only the candidate and the packet member. It only appends copies of the candidate to the ignored dependences. |
| HexagonPacketizer.WalkWithoutDataEdge | llvm/lib/Target/Hexagon/HexagonVLIWPacketizer.cpp:1258-1476 | Without a data edge, the candidate and its promotion and glue flags are left alone. |
| HexagonPacketizer.ApplySpeculates | llvm/lib/Target/Hexagon/HexagonVLIWPacketizer.cpp:1301-1446 | Assuming the edge does not promote an already promoted candidate and glues only a store with an offset (both discharged by `WalkSpeculates`), one edge keeps the candidate speculated on: its opcode is its original one or, with the promotion flag set, a dot-new form of it; its operands are the original ones or, with the glue flag set, those with the offset moved to the caller's SP. |
| HexagonPacketizer.WalkSpeculates | llvm/lib/Target/Hexagon/HexagonVLIWPacketizer.cpp:1258-1476 | However many edges there are, the edge loop promotes the candidate to dot-new at most once and glues it to the allocframe at most once, each recorded in its flag, and changes nothing else about it. |
| HexagonPacketizer.TogetherLegal | llvm/lib/Target/Hexagon/HexagonVLIWPacketizer.cpp:1179-1484 | A legal pair can coexist and passed every screen. A candidate feeding a new-value jump gets glued to it. The dependence flag is clear. |
| HexagonPacketizer.TogetherRefused | llvm/lib/Target/Hexagon/HexagonVLIWPacketizer.cpp:1179-1484 | A refused pair either cannot coexist, with nothing rewritten, or leaves the dependence flag set. |
| HexagonPacketizer.TogetherIgnoresAfresh | llvm/lib/Target/Hexagon/HexagonVLIWPacketizer.cpp:1184-1188 | On a packet's first comparison, the ignored dependences are reset and afterwards name only the candidate. |
| HexagonPacketizer.TogetherSpeculates | llvm/lib/Target/Hexagon/HexagonVLIWPacketizer.cpp:1179-1484 | The legality test keeps the candidate speculated on: promoted to dot-new at most once and glued at most once, each recorded in its flag. |
| HexagonPacketizer.TogetherFrame | llvm/lib/Target/Hexagon/HexagonVLIWPacketizer.cpp:1179-1484 | The legality test rewrites no instruction except the two it compares. |
| HexagonPacketizer.PruneRestores | llvm/lib/Target/Hexagon/HexagonVLIWPacketizer.cpp:1486-1511 | Pruning returns false and gives back the original candidate: the dot-new promotion is demoted and the store offset is restored. |
| HexagonPacketizer.RejectedCandidateRestored | llvm/lib/Target/Hexagon/HexagonVLIWPacketizer.cpp:1179-1511 | Take a candidate refused by the legality test for a reason other than coexistence. After pruning, that candidate is exactly the instruction it was before any speculation, whatever the number of data edges, and the glue flag is clear. |
| HexagonPacketizer.TwoGlueWalkAsWritten | llvm/lib/Target/Hexagon/HexagonVLIWPacketizer.cpp:1427-1446 | As written, an allocframe defining SP and FP and a store through SP that stores FP: the first edge moves the offset to -16, the second fails to move it to -32 and ends the loop with the glue flag cleared. |
| HexagonPacketizer.TwoGlueWalkCorrected | llvm/lib/Target/Hexagon/HexagonVLIWPacketizer.cpp:1427-1446 | With the glue done once, the same two edges leave the store glued once, at offset -16, with the glue flag set. |
| HexagonPacketizer.DoubleGlueNotUndone | llvm/lib/Target/Hexagon/HexagonVLIWPacketizer.cpp:1427-1511 | As written, that pair is refused and pruning leaves the store at offset -16 instead of 0. With the glue done once the pair is legal. |
| HexagonPacketizer.ScanDotCur | llvm/lib/Target/Hexagon/HexagonVLIWPacketizer.cpp:351-370 | The load the scan keeps is a dot-cur load of the packet. It has seen a use only once it has a load. |
| HexagonPacketizer.ScanUsedSticks | llvm/lib/Target/Hexagon/HexagonVLIWPacketizer.cpp:359-363 | Once a use of the current dot-cur destination is seen, the scan returns, and the rest of the packet changes nothing. |
| HexagonPacketizer.ScanDotCurMeaning | llvm/lib/Target/Hexagon/HexagonVLIWPacketizer.cpp:351-370 | No load is found only when the packet has no dot-cur load. A load found and unused is the last dot-cur load of the packet, and no later member names its destination. |
| HexagonPacketizer.CleanedUp | llvm/lib/Target/Hexagon/HexagonVLIWPacketizer.cpp:351-370 | The clean-up changes no instruction outside the packet. |
| HexagonPacketizer.CleanedUpMeaning | llvm/lib/Target/Hexagon/HexagonVLIWPacketizer.cpp:351-370 | An instruction the clean-up changes was the packet's last dot-cur load. It is demoted to a plain vector load, and no later member uses its destination. |
| HexagonPacketizer.Pruned | llvm/lib/Target/Hexagon/HexagonVLIWPacketizer.cpp:1486-1511 | Pruning keeps the packet unchanged. |
| HexagonPacketizer.Ended | llvm/lib/Target/Hexagon/HexagonVLIWPacketizer.cpp:1587-1591 | Ending a packet empties the packet and the reservations, and remembers the packet as the previous one. A bundle is added or not, and nothing else changes. |
| HexagonPacketizer.WithConstExt | llvm/lib/Target/Hexagon/HexagonVLIWPacketizer.cpp:259-266 | A constant extender is available iff it fits beside the reservations. It is reserved iff it is available and the caller asked for the reservation. |
| HexagonPacketizer.JumpReserved | llvm/lib/Target/Hexagon/HexagonVLIWPacketizer.cpp:1536-1548 | On success, the candidate, its extender, the new-value jump and its extender are reserved in that order, and all of them fit. |
| HexagonPacketizer.FreshJumpReserved | llvm/lib/Target/Hexagon/HexagonVLIWPacketizer.cpp:1550-1563 | A fresh packet reserves the candidate first and then the jump. |
| HexagonPacketizer.JoinedWithJump | llvm/lib/Target/Hexagon/HexagonVLIWPacketizer.cpp:1530-1567 | The candidate and its new-value jump are appended together, either to the current packet or to a new one. |
| HexagonPacketizer.Restarted | llvm/lib/Target/Hexagon/HexagonVLIWPacketizer.cpp:1571-1581 | When the extender does not fit: the packet is ended and kept as the previous one, the glue flag is cleared, and only the candidate is rewritten. |
| HexagonPacketizer.AddedMeaning | llvm/lib/Target/Hexagon/HexagonVLIWPacketizer.cpp:1513-1585 | The candidate, followed by its glued new-value jump if any, ends up in the current packet or a new one, and the position returned is the last instruction added. If a new packet is started for the extender, the old packet becomes the previous one and the candidate's speculation is undone. |
| HexagonPacketizer.ImplicitDefNotPacketized | llvm/lib/Target/Hexagon/HexagonVLIWPacketizer.cpp:1517-1524 | An implicit def is never packetized. At most it gains operands, and nothing else changes. |
| HexagonPacketizer.HexagonPacketizerList.constructor | llvm/lib/Target/Hexagon/HexagonVLIWPacketizer.cpp:104-112 | The packetizer starts with an empty packet, no reservations and cleared flags. |
| HexagonPacketizer.HexagonPacketizerList.InitPacketizerState | llvm/lib/Target/Hexagon/HexagonVLIWPacketizer.cpp:955-961 | In place: the new state is `Initialized` of the old one. |
| HexagonPacketizer.HexagonPacketizerList.TryAllocateResourcesForConstExt | llvm/lib/Target/Hexagon/HexagonVLIWPacketizer.cpp:259-266 | Returns availability and changes the reservations as `WithConstExt` says. Nothing else changes. |
| HexagonPacketizer.HexagonPacketizerList.ReserveResourcesForConstExt | llvm/lib/Target/Hexagon/HexagonVLIWPacketizer.cpp:248-251 | When the extender fits, it is reserved. |
| HexagonPacketizer.HexagonPacketizerList.CanReserveResourcesForConstExt | llvm/lib/Target/Hexagon/HexagonVLIWPacketizer.cpp:253-255 | Answers whether an extender fits, with the state unchanged. |
| HexagonPacketizer.HexagonPacketizerList.PromoteToDotCur | llvm/lib/Target/Hexagon/HexagonVLIWPacketizer.cpp:342-349 | Only the member's opcode changes, to its dot-cur form. |
| HexagonPacketizer.HexagonPacketizerList.PromoteToDotNew | llvm/lib/Target/Hexagon/HexagonVLIWPacketizer.cpp:425-436 | Only the candidate's opcode changes, to its dot-new form for predicate or other registers. |
| HexagonPacketizer.HexagonPacketizerList.DemoteToDotOld | llvm/lib/Target/Hexagon/HexagonVLIWPacketizer.cpp:438-442 | Only the candidate's opcode changes, to its dot-old form. |
| HexagonPacketizer.HexagonPacketizerList.UseCallersSP | llvm/lib/Target/Hexagon/HexagonVLIWPacketizer.cpp:444-463 | Returns whether the caller-SP offset (offset minus frame size minus 8) is valid. It rewrites the offset exactly in that case. |
| HexagonPacketizer.HexagonPacketizerList.UseCalleesSP | llvm/lib/Target/Hexagon/HexagonVLIWPacketizer.cpp:465-479 | Moves the store back to the callee's SP, which is the inverse of UseCallersSP (see GlueRoundTrip). |
| HexagonPacketizer.HexagonPacketizerList.ScanPacket | llvm/lib/Target/Hexagon/HexagonVLIWPacketizer.cpp:352-364 | Without changing anything, the loop finds the scan `ScanDotCur` of the packet: the latest dot-cur load, and whether a later member uses its destination. It stops at the first such use. |
| HexagonPacketizer.HexagonPacketizerList.CleanUpDotCur | llvm/lib/Target/Hexagon/HexagonVLIWPacketizer.cpp:351-370 | In place: the block becomes `CleanedUp` of the old block. |
| HexagonPacketizer.HexagonPacketizerList.EndPacket | llvm/lib/Target/Hexagon/HexagonVLIWPacketizer.cpp:1587-1591 | In place: the new state is `Ended` of the old one. |
| HexagonPacketizer.HexagonPacketizerList.NewValueJumpBlocked | llvm/lib/Target/Hexagon/HexagonVLIWPacketizer.cpp:1210-1248 | Says whether some packet member blocks the new-value jump: a call, an allocframe, a store, a loopN, or a definition of the jump's other register. |
| HexagonPacketizer.HexagonPacketizerList.Screen | llvm/lib/Target/Hexagon/HexagonVLIWPacketizer.cpp:1184-1251 | In place, as `Screened`. |
| HexagonPacketizer.HexagonPacketizerList.IsLegalToPacketizeTogether | llvm/lib/Target/Hexagon/HexagonVLIWPacketizer.cpp:1179-1484 | In place: the verdict and the new state are those of `Together`. |
| HexagonPacketizer.HexagonPacketizerList.ApplyVerdict | llvm/lib/Target/Hexagon/HexagonVLIWPacketizer.cpp:1301-1476 | In place, as `Apply` (the allocframe glue done at most once per candidate), with the packet unchanged. |
| HexagonPacketizer.HexagonPacketizerList.WalkEdges | llvm/lib/Target/Hexagon/HexagonVLIWPacketizer.cpp:1258-1484 | The edge loop leaves the state `Walked` over all edges. It is legal iff the walk did not stop. |
| HexagonPacketizer.HexagonPacketizerList.IsLegalToPruneDependencies | llvm/lib/Target/Hexagon/HexagonVLIWPacketizer.cpp:1486-1511 | In place, as `Pruned`. |
| HexagonPacketizer.HexagonPacketizerList.ReserveWithJump | llvm/lib/Target/Hexagon/HexagonVLIWPacketizer.cpp:1536-1548 | The reservations and the success flag are those of `JumpReserved`. |
| HexagonPacketizer.HexagonPacketizerList.ReserveFreshWithJump | llvm/lib/Target/Hexagon/HexagonVLIWPacketizer.cpp:1550-1563 | The reservations become `FreshJumpReserved`. |
| HexagonPacketizer.HexagonPacketizerList.AddWithNewValueJump | llvm/lib/Target/Hexagon/HexagonVLIWPacketizer.cpp:1530-1567 | In place, as `JoinedWithJump`. |
| HexagonPacketizer.HexagonPacketizerList.RestartPacket | llvm/lib/Target/Hexagon/HexagonVLIWPacketizer.cpp:1571-1581 | In place, as `Restarted`. |
| HexagonPacketizer.HexagonPacketizerList.AddToPacket | llvm/lib/Target/Hexagon/HexagonVLIWPacketizer.cpp:1513-1585 | In place: the state and the returned position are those of `Added`, whose meaning AddedMeaning and ImplicitDefNotPacketized state. |
| HexagonPass.WithoutKills | llvm/lib/Target/Hexagon/HexagonVLIWPacketizer.cpp:203-214 | The block without KILLs is no longer than before and holds no KILL. |
| HexagonPass.WithoutKillsCounts | llvm/lib/Target/Hexagon/HexagonVLIWPacketizer.cpp:203-214 | Every non-KILL item keeps its number of occurrences. KILLs occur zero times. |
| HexagonPass.WithoutKillsIdempotent | llvm/lib/Target/Hexagon/HexagonVLIWPacketizer.cpp:203-214 | Removing KILLs twice is the same as removing them once. |
| HexagonPass.MachineBasicBlock.RemoveKills | llvm/lib/Target/Hexagon/HexagonVLIWPacketizer.cpp:203-214 | The in-place erase loop leaves `WithoutKills` of the old block. |
| HexagonPass.SkipBoundaries | llvm/lib/Target/Hexagon/HexagonVLIWPacketizer.cpp:222-224 | Gives the first non-boundary at or after the start. Everything before it is a boundary. |
| HexagonPass.NextBoundary | llvm/lib/Target/Hexagon/HexagonVLIWPacketizer.cpp:227-229 | Gives the first boundary at or after the start. Everything before it is not a boundary. |
| HexagonPass.RegionEnd | llvm/lib/Target/Hexagon/HexagonVLIWPacketizer.cpp:227-231 | A region that starts at a non-boundary is non-empty. It holds no boundary except, possibly, the closing one as its last instruction. |
| HexagonPass.RegionsGood | llvm/lib/Target/Hexagon/HexagonVLIWPacketizer.cpp:216-239 | Every region handed to the packetizer is well formed. |
| HexagonPass.RegionsOrdered | llvm/lib/Target/Hexagon/HexagonVLIWPacketizer.cpp:216-239 | The regions come in order and do not overlap. |
| HexagonPass.RegionsCover | llvm/lib/Target/Hexagon/HexagonVLIWPacketizer.cpp:216-239 | Every instruction that is not a scheduling boundary lies in some region. |
| HexagonPass.ScanBoundaries | llvm/lib/Target/Hexagon/HexagonVLIWPacketizer.cpp:222-224 | The scan loop computes `SkipBoundaries`. |
| HexagonPass.ScanRegion | llvm/lib/Target/Hexagon/HexagonVLIWPacketizer.cpp:227-231 | The scan loop computes `RegionEnd`. |
| HexagonPass.SchedulingRegions | llvm/lib/Target/Hexagon/HexagonVLIWPacketizer.cpp:216-239 | The region loop yields exactly `RegionsFrom` the start of the block. |
| HexagonPass.Place | llvm/lib/Target/Hexagon/HexagonVLIWPacketizer.cpp:1062-1073 | Only debug values and inline asm move. An inline asm goes after the bundle iff it writes a register the bundle reads. |
| HexagonPass.ScatteredCount | llvm/lib/Target/Hexagon/HexagonVLIWPacketizer.cpp:129-171 | Moving members out of a bundle loses none and adds none. |
| HexagonPass.ScatteredSurviving | llvm/lib/Target/Hexagon/HexagonVLIWPacketizer.cpp:160-163 | A bundle that keeps two or more members never shrank to one. Every member was placed as `Place` says. |
| HexagonPass.ScatteredLeavesOne | llvm/lib/Target/Hexagon/HexagonVLIWPacketizer.cpp:165-170 | A bundle is never emptied: at least one member stays. |
| HexagonPass.ScatteredKeeps | llvm/lib/Target/Hexagon/HexagonVLIWPacketizer.cpp:165-170 | Once the bundle holds fewer than two instructions, it is dissolved and nothing else moves. |
| HexagonPass.StayingNotSolo | llvm/lib/Target/Hexagon/HexagonVLIWPacketizer.cpp:1062-1073 | The members that stay are neither debug values nor inline asm. |
| HexagonPass.MachineBasicBlock.MoveInstrsOut | llvm/lib/Target/Hexagon/HexagonVLIWPacketizer.cpp:129-171 | Moving the members of one bundle out, one at a time, gives `Scattered`. |
| HexagonPass.MachineBasicBlock.UnpackItem | llvm/lib/Target/Hexagon/HexagonVLIWPacketizer.cpp:1049-1078 | One item becomes `Unpacked`. |
| HexagonPass.UnbundledCount | llvm/lib/Target/Hexagon/HexagonVLIWPacketizer.cpp:129-171 | Pulling one bundle apart keeps its instructions. |
| HexagonPass.UnbundledClean | llvm/lib/Target/Hexagon/HexagonVLIWPacketizer.cpp:129-171 | A bundle that is left has two or more members, none of them a debug value or inline asm. |
| HexagonPass.UnpacketizedCount | llvm/lib/Target/Hexagon/HexagonVLIWPacketizer.cpp:1049-1078 | unpacketizeSoloInstrs keeps the multiset of instructions of the block. |
| HexagonPass.UnpacketizedClean | llvm/lib/Target/Hexagon/HexagonVLIWPacketizer.cpp:1049-1078 | After unpacketizeSoloInstrs, every bundle has two or more members and none of them is a debug value or inline asm. |
| HexagonPass.MachineBasicBlock.UnpacketizeSoloInstrs | llvm/lib/Target/Hexagon/HexagonVLIWPacketizer.cpp:1049-1078 | The block becomes `Unpacketized` of the old block. |
| X86Lowering.ScaledMaskLength | llvm/lib/Target/X86/X86ISelLowering.h:1688-1689 | The scaled mask is `scale` times as long. |
| X86Lowering.ScaleShuffleMask | llvm/lib/Target/X86/X86ISelLowering.h:1683-1704 | The loops compute `ScaledMask`. |
| X86Lowering.ScaledMaskAt | llvm/lib/Target/X86/X86ISelLowering.h:1691-1703 | Slot `scale*i+s` holds entry `s` of mask element `i`'s group. |
| X86Lowering.ScaledEntry | llvm/lib/Target/X86/X86ISelLowering.h:1691-1703 | Every slot of a group repeats a sentinel. An index m gives `scale*m+s`, whose quotient is m and whose remainder is s. |
| X86Lowering.WidenScaledMask | llvm/lib/Target/X86/X86ISelLowering.h:1679-1704 | Widening the scaled mask gives the original mask back. |
| X86Lowering.UnpackMask | llvm/lib/Target/X86/X86ISelLowering.h:1663-1677 | The unpack mask has one entry per element. |
| X86Lowering.CreateUnpackShuffleMask | llvm/lib/Target/X86/X86ISelLowering.h:1663-1677 | The loop appends exactly `UnpackMask` to the empty mask. |
| X86Lowering.UnpackEntryInLane | llvm/lib/Target/X86/X86ISelLowering.h:1669-1676 | Each entry reads within its own 128-bit lane. It reads the first operand at even positions and, for a binary unpack, the second operand at odd positions. In lanes with an even number of elements, unpacklo reads the low half of the lane and unpackhi the high half. |
| X86Lowering.UnpackPairs | llvm/lib/Target/X86/X86ISelLowering.h:1669-1676 | Position 2j+1 reads the same element as position 2j, from the second operand (or the same operand when unary). |
| X86Lowering.IsMultiStoresCheaperThanBitsMerge | llvm/lib/Target/X86/X86ISelLowering.h:857-871 | Multiple stores are preferred iff the pair mixes an integer and a floating-point value. |
| X86Lowering.MultiStoresSymmetric | llvm/lib/Target/X86/X86ISelLowering.h:857-871 | The multi-store decision does not depend on which value is the low one. |
| X86Lowering.StoreOfVectorConstantIsCheap | llvm/lib/Target/X86/X86ISelLowering.h:1163-1168 | A vector constant store is cheap iff, counting instructions, the constant load plus one vector store is fewer than one scalar store per element. |
| X86Lowering.ShouldTransformSignedTruncationCheck | llvm/lib/Target/X86/X86ISelLowering.h:891-907 | Never for vectors. Otherwise, exactly when the checked type and the kept width are both 8, 16, 32 or 64-bit integers. |
| ThinLto.DigitValue | llvm/lib/LTO/ThinLTOCodeGenerator.cpp:167-179 | A hex digit's value is below 16, and looking that value up in the table gives the digit back. |
| ThinLto.ToHex | llvm/lib/LTO/ThinLTOCodeGenerator.cpp:167-179 | The loop computes `Hex`, two characters per byte. |
| ThinLto.HexAt | llvm/lib/LTO/ThinLTOCodeGenerator.cpp:173-177 | Characters 2i and 2i+1 are the high and low nibble of byte i, from "0123456789ABCDEF". |
| ThinLto.HexAlphabet | llvm/lib/LTO/ThinLTOCodeGenerator.cpp:168 | Every character of the output is an upper-case hex digit. |
| ThinLto.UnhexHex | llvm/lib/LTO/ThinLTOCodeGenerator.cpp:167-179 | Decoding the output gives the input bytes back. |
| ThinLto.HexUnhex | llvm/lib/LTO/ThinLTOCodeGenerator.cpp:167-179 | Every even-length string of upper-case hex digits is the output for some input. |
| ThinLto.HexInjective | llvm/lib/LTO/ThinLTOCodeGenerator.cpp:167-179 | Different inputs give different outputs. |
| ThinLto.CachedFilename | llvm/lib/LTO/ThinLTOCodeGenerator.cpp:248-258 | The name is empty without a cache path. Otherwise it is the path, "/", the hex encoding of the hash (2n digits) and ".o", and decoding that middle part gives the hash back, so in one cache directory different hashes give different names. |
| ThinLto.GenerateModuleMap | llvm/lib/LTO/ThinLTOCodeGenerator.cpp:124-132 | Every module is entered under its identifier, earlier entries are kept, and nothing else is added. |
| ThinLto.DarwinDefaultCpu | llvm/lib/LTO/ThinLTOCodeGenerator.cpp:308-315 | x86_64, x86 and aarch64 have a default CPU. No other architecture does. |
| ThinLto.InitTMBuilder | llvm/lib/LTO/ThinLTOCodeGenerator.cpp:304-317 | The triple is stored. An empty CPU on Darwin takes the architecture's default. Any other CPU is kept. |
| DirectiveResolution.WithFlag | flang/lib/Semantics/resolve-directives.cpp:418-423 | Setting a flag adds just that flag to just that symbol. |
| DirectiveResolution.AssocSymbol | flang/lib/Semantics/resolve-directives.cpp:76-79 | The scope maps the name to the result. An existing entry is returned unchanged. Otherwise a new host-associated symbol for `prev` is added. |
| DirectiveResolution.PrivateEntity | flang/lib/Semantics/resolve-directives.cpp:414-425 | A symbol of the current scope gets the flag itself. Any other symbol gets a host-associated copy in the target scope, and the copy carries the flag. |
| DirectiveResolution.PrivateEntityByName | flang/lib/Semantics/resolve-directives.cpp:404-412 | An unresolved name gives nothing and changes nothing. A resolved name is handled as PrivateEntity. |
| DirectiveResolution.MarkedEntity | flang/lib/Semantics/resolve-directives.cpp:1244-1250 | The symbol gets the flag only when the flag is one that marks (threadprivate). |
| DirectiveResolution.Resolved | flang/lib/Semantics/resolve-directives.cpp:1215-1250 | Flags that need a new symbol declare a private entity. Other flags resolve to the symbol found from the current scope, or to nothing. |
| DirectiveResolution.NewContext | flang/lib/Semantics/resolve-directives.cpp:35-45 | A new context has no objects, is not within a construct, and has loop level 0. |
| DirectiveResolution.Emplace | flang/lib/Semantics/resolve-directives.cpp:62-65 | Recording an object keeps an earlier attribute and adds the key. |
| DirectiveResolution.InnermostParallelOrTask | flang/lib/Semantics/resolve-directives.cpp:904-913 | Gives the innermost (topmost on the stack) parallel or task-generating context, or none when the stack has no such context. |
| DirectiveResolution.PrivateFrom | flang/lib/Semantics/resolve-directives.cpp:918-920 | Contexts from the target to the top record the symbol as private. The contexts below are unchanged. |
| DirectiveResolution.SeqLoopIndexPrivate | flang/lib/Semantics/resolve-directives.cpp:902-922 | A resolved sequential loop index is private and predetermined, and recorded from the innermost parallel or task context to the top. The contexts below are unchanged. Without such a context, nothing changes. |
| DirectiveResolution.LastClause | flang/lib/Semantics/resolve-directives.cpp:956-969 | Gives the position of the last ORDERED (or COLLAPSE) clause. |
| DirectiveResolution.OmpAssociatedLoopLevel | flang/lib/Semantics/resolve-directives.cpp:972-980 | The associated loop level is never 0, and it is the ORDERED value, the COLLAPSE value or 1 (the outermost loop). |
| DirectiveResolution.OrderedBelowCollapse | flang/lib/Semantics/resolve-directives.cpp:978-980 | ORDERED below COLLAPSE falls back to level 1. |
| DirectiveResolution.AccAssociatedLoopLevel | flang/lib/Semantics/resolve-directives.cpp:595-611 | The level is the last evaluated COLLAPSE value when it is nonzero, and 1 otherwise. |
| DirectiveResolution.LoopIndexDSANeedsNewSymbol | flang/lib/Semantics/resolve-directives.cpp:332-335 | Each of these attributes gives the index a private copy. |
| DirectiveResolution.WithMultipleAppearancesException | flang/lib/Semantics/resolve-directives.cpp:1252-1258 | A second appearance is allowed only for FIRSTPRIVATE together with LASTPRIVATE, in OpenMP. |
| DirectiveResolution.AppearanceTarget | flang/lib/Semantics/resolve-directives.cpp:1260-1267 | The counted symbol is the host symbol of a private copy, otherwise the symbol itself. |
| DirectiveResolution.DirectiveAttributeVisitor.constructor | flang/lib/Semantics/resolve-directives.cpp:28-29 | A resolver starts with no contexts and no recorded objects. |
| DirectiveResolution.DirectiveAttributeVisitor.GetContext | flang/lib/Semantics/resolve-directives.cpp:47-50 | The context returned is the top of the stack; the stack must not be empty. |
| DirectiveResolution.DirectiveAttributeVisitor.PushContext | flang/lib/Semantics/resolve-directives.cpp:51-53 | A new context is pushed, and nothing else changes. |
| DirectiveResolution.DirectiveAttributeVisitor.PopContext | flang/lib/Semantics/resolve-directives.cpp:54 | The top context is popped, and nothing else changes. |
| DirectiveResolution.DirectiveAttributeVisitor.SetContextAssociatedLoopLevel | flang/lib/Semantics/resolve-directives.cpp:73-75 | Only the top context's loop level changes. |
| DirectiveResolution.DirectiveAttributeVisitor.AddToContextObjectWithDSA | flang/lib/Semantics/resolve-directives.cpp:62-68 | Only the given context records the object. |
| DirectiveResolution.DirectiveAttributeVisitor.ClearDataSharingAttributeObjects | flang/lib/Semantics/resolve-directives.cpp:91-93 | Empties the data-sharing objects of the directive, and nothing else changes. |
| DirectiveResolution.DirectiveAttributeVisitor.ClearPrivateDataSharingAttributeObjects | flang/lib/Semantics/resolve-directives.cpp:354-356 | Empties the private data-sharing objects, and nothing else changes. |
| DirectiveResolution.DirectiveAttributeVisitor.SetFlag | flang/lib/Semantics/resolve-directives.cpp:419-422 | The table becomes `WithFlag`, and nothing else changes. |
| DirectiveResolution.DirectiveAttributeVisitor.MakeAssocSymbol | flang/lib/Semantics/resolve-directives.cpp:76-79 | The table and the symbol are those of `AssocSymbol`. |
| DirectiveResolution.DirectiveAttributeVisitor.DeclarePrivateAccessEntity | flang/lib/Semantics/resolve-directives.cpp:414-425 | In place, as `PrivateEntity` from the current scope. |
| DirectiveResolution.DirectiveAttributeVisitor.DeclarePrivateAccessEntityByName | flang/lib/Semantics/resolve-directives.cpp:404-412 | In place, as `PrivateEntityByName`. |
| DirectiveResolution.DirectiveAttributeVisitor.Resolve | flang/lib/Semantics/resolve-directives.cpp:1215-1250 | In place, as `Resolved`. |
| DirectiveResolution.DirectiveAttributeVisitor.CheckMultipleAppearances | flang/lib/Semantics/resolve-directives.cpp:1260-1280 | Diagnoses iff the counted symbol has already appeared and no exception applies. Otherwise it records the symbol, and also as private for the private OpenMP flags. |
| DirectiveResolution.DirectiveAttributeVisitor.FindInnermostParallelOrTask | flang/lib/Semantics/resolve-directives.cpp:904-913 | The search from the top computes `InnermostParallelOrTask`. |
| DirectiveResolution.DirectiveAttributeVisitor.ResolveSeqLoopIndexInParallelOrTaskConstruct | flang/lib/Semantics/resolve-directives.cpp:902-922 | In place, as `SeqLoopIndexResolved`. |
| DirectiveResolution.DirectiveAttributeVisitor.PreDoConstruct | flang/lib/Semantics/resolve-directives.cpp:932-946 | A normal DO loop whose index is not yet predetermined, inside a construct, is resolved as a sequential loop index. Otherwise nothing changes. |
| DirectiveResolution.DirectiveAttributeVisitor.GetAssociatedLoopLevelFromClauses | flang/lib/Semantics/resolve-directives.cpp:948-981 | The level is `OmpAssociatedLoopLevel` of the last ORDERED and COLLAPSE values. The deciding clause is remembered. |
| DirectiveResolution.DirectiveAttributeVisitor.PrivatizeIndex | flang/lib/Semantics/resolve-directives.cpp:1009-1014 | In place, as `PrivatizedIndex` of the table and the context stack. |
| DirectiveResolution.PrivatizedIndexFacts | flang/lib/Semantics/resolve-directives.cpp:1009-1014 | A named index gets its private symbol in the current scope: itself when the scope owns it, otherwise the scope's symbol of that name. That symbol carries the attribute and the predetermined flag and is recorded in the top context. No other existing symbol changes, and the table stays well formed. |
| DirectiveResolution.DirectiveAttributeVisitor.PrivatizeLoopNest | flang/lib/Semantics/resolve-directives.cpp:1006-1020 | The first min(level, depth) loop indices are privatized: each new index is the private symbol of its loop's index in the current scope, carries both flags and is recorded in the top context. The rest of the nest is untouched, and no other existing symbol changes. The level left over is the shortfall. |
| DirectiveResolution.DirectiveAttributeVisitor.PrivatizeAssociatedLoopIndexAndCheckLoopLevel | flang/lib/Semantics/resolve-directives.cpp:991-1030 | A level of 0 or less changes nothing. Otherwise the indices of the first min(level, depth) loops are replaced by their private symbols with the loop-index attribute (private; linear or lastprivate under SIMD) and the predetermined flag, and no other existing symbol changes. A nest too shallow for a deciding clause is diagnosed, and only then. |
| DirectiveResolution.DirectiveAttributeVisitor.PrivatizeAssociatedLoopIndex | flang/lib/Semantics/resolve-directives.cpp:613-636 | The OpenACC counterpart: the first min(level, depth) indices are replaced by their private symbols, marked AccPrivate and AccPreDetermined, and no other existing symbol changes. Nothing is left over iff the nest is deep enough. |

## Left out

- Target queries: the instruction, register and subtarget queries of the Hexagon back end are uninterpreted fields of `Target`. The DFA resource tracker is the predicate `fits` over the reserved opcodes. `isExtended` stands for `isExtended || isConstExtended`.
- Packetizer driver: `VLIWPacketizerList::PacketizeMIs` and the base `endPacket` live in DFAPacketizer.cpp, which is not part of this model. `SchedulingRegions` returns the regions rather than calling the driver. `Ended` models the base `endPacket` as recording a bundle of more than one instruction.
- `shouldAddToPacket`, `producesStall` and `isDependent` (lines 1593-1660) are not modelled. They are a latency heuristic that reads the scheduling graph of the previous packet.
- HexagonPacketizer.HexagonPacketizerList.AddToPacket: the source asserts that the candidate, and later the new-value jump and the extenders, can be reserved. The model reserves them without that check.
- HexagonPacketizer.HexagonPacketizerList.RestartPacket: the model tries to reserve the extender, where `reserveResourcesForConstExt` would reach `llvm_unreachable` when it does not fit.
- HexagonPacketizer.HexagonPacketizerList.ReserveFreshWithJump: the model tries to reserve the extenders, where the source asserts that they fit.
- HexagonPacketizer.WalkSpeculates: assumes of the target's instruction tables that getDotOldOp undoes getDotNewOp and getDotNewPredOp for the candidate's opcode, and that both dot-new forms are dot-new instructions that cannot become new-value stores (so canPromoteToDotNew refuses them). The tables are not part of this model.
- HexagonPacketizer.TogetherSpeculates: the same assumption on the target's dot-new tables.
- HexagonPacketizer.RejectedCandidateRestored: the same assumption on the target's dot-new tables. It also assumes the candidate is speculated on from `i0` on entry, which holds with `i0` the candidate itself once initPacketizerState has cleared the flags.
- HexagonPacketizer.PruneRestores: assumes getDotOldOp undoes both dot-new forms of the original opcode.
- HexagonPacketizer.Apply: the allocframe glue is done once per candidate, where the source moves the offset again on every data edge from the allocframe. The class `HexagonPacketizerList` follows the corrected glue; the as-written behaviour is kept in `ApplyAsWritten` and `TogetherAsWritten` (see Findings).
- HexagonRules.FirstPredUse: returns "no register" where `getPredicatedRegister` reaches `llvm_unreachable`.
- Missing operands: an operand index beyond the instruction's operands reads as a non-register, where the source would assert. The post-increment operand is taken from the target's operand layout.
- HexagonPacketizer.HexagonPacketizerList.CleanUpDotCur: the operand loop over a member is the predicate `HasRegOperand`. Debug printing is left out.
- The block and bundles: a block is a list of single instructions and bundles, not a flat list of instructions with bundling flags spliced in place. Bundles of fewer than two members are never produced, and nothing is moved out of one that exists.
- Debug output, statistics and command-line parsing are left out. The `disable-packetizer` switch and the pass setup are also left out.
- X86Lowering.ScaleShuffleMask: indices are unbounded integers. The `size_t` arithmetic of `Scale * M` is not modelled as wrapping, and the `0 < Scale` assertion is a precondition.
- X86Lowering.ShouldTransformSignedTruncationCheck: an EVT that is not a simple integer type is a scalar of another kind.
- ThinLTO: the SHA-1 hash is a parameter of `CachedFilename`, and the cache lookup on disk is left out. So are bitcode writing, threads and the rest of the code generator. The uniqueness assertion of `generateModuleMap` is its precondition.
- Symbol scopes: a scope is a number, and name lookup from the current scope is the `found` parameter of `Resolve`. Source locations, messages and the parse tree are left out.
- Loop nests: a loop nest is the list of its index names, ending at the first body that is not a DO loop. `GetLoopIndex` and `GetDoConstructIf` are not part of this model.
- DirectiveResolution.DirectiveAttributeVisitor.PrivatizeAssociatedLoopIndex: the source ends with `CHECK(level == 0)`, which aborts when the nest is shallower than the level. The model returns the level left over instead, and `leftover == 0` holds exactly when the nest is deep enough.
- X86Lowering.MergeStoresAfterLegalization: a one-line test that stores of non-vector types are merged. Its reason, the x86 store splitting it would conflict with, is not modelled, so no property beyond the test is stated.
- The default-DSA, threadprivate, common-block and allocate handling of the OpenMP and OpenACC visitors is left out. So are the Pre/Post hooks other than the DO construct.

## Findings

| source | as written | input that shows it | evidently intended | confidence | as-written member | corrected member |
|---|---|---|---|---|---|---|
| llvm/lib/Target/Hexagon/HexagonVLIWPacketizer.cpp:1433-1441 | Every data edge from an allocframe to an SP-based store calls useCallersSP, so the offset moves once per edge. isLegalToPruneDependencies moves it back once, and not at all when a failed second move has cleared GlueAllocframeStore. | An allocframe defining r29 and r30, then a word store through r29 at offset 0 storing r30: two data edges. Frame size 8, offsets down to -16 encodable. The second move (to -32) fails, the pair is refused, and pruning leaves the store at offset -16. | The store is glued once; a further data edge from the same allocframe is discharged without moving the offset again, so pruning gives the store back unchanged. | medium; not executed | HexagonPacketizer.DoubleGlueNotUndone | HexagonPacketizer.RejectedCandidateRestored |
