// The block-level loops of the Hexagon packetizer pass: KILL pseudo
// instructions are erased before packetizing, each block is cut into
// scheduling regions at scheduling boundaries, and after packetizing the
// debug values and inline asm statements are pulled out of the bundles
// again, a bundle left with a single member being dissolved.
//
// A block is a list of items, each a single instruction or a bundle: the
// BUNDLE header instruction followed by its members.

module HexagonPass {
  import opened HexagonInstr

  datatype Item = Single(mi: Instr) | Bundle(header: Instr, members: seq<Instr>)

  /** The instructions of a block in order, bundle headers left out. */
  function Instrs(items: seq<Item>): seq<Instr> {
    if items == [] then []
    else
      (match items[0]
        case Single(mi) => [mi]
        case Bundle(_, ms) => ms) + Instrs(items[1..])
  }

  function Singles(ms: seq<Instr>): (r: seq<Item>)
    ensures |r| == |ms| && forall k | 0 <= k < |r| :: r[k] == Single(ms[k])
  {
    if ms == [] then [] else [Single(ms[0])] + Singles(ms[1..])
  }

  // ---------------------------------------------------------------------
  // KILL removal.

  predicate IsKill(it: Item) {
    it.Single? && it.mi.opcode == Kill
  }

  /** The block with its KILL instructions erased. */
  function WithoutKills(items: seq<Item>): (r: seq<Item>)
    ensures |r| <= |items|
    ensures forall k | 0 <= k < |r| :: !IsKill(r[k])
  {
    if items == [] then []
    else (if IsKill(items[0]) then [] else [items[0]]) + WithoutKills(items[1..])
  }

  lemma {:induction false} WithoutKillsAppend(a: seq<Item>, b: seq<Item>)
    ensures WithoutKills(a + b) == WithoutKills(a) + WithoutKills(b)
    decreases |a|
  {
    if a != [] {
      assert (a + b)[0] == a[0] && (a + b)[1..] == a[1..] + b;
      WithoutKillsAppend(a[1..], b);
    } else {
      assert a + b == b;
    }
  }

  /** Erasing the KILLs keeps every other item as often as it occurred. */
  lemma {:induction false} WithoutKillsCounts(items: seq<Item>, it: Item)
    ensures multiset(WithoutKills(items))[it] == if IsKill(it) then 0 else multiset(items)[it]
    decreases |items|
  {
    if items != [] {
      WithoutKillsCounts(items[1..], it);
      assert items == [items[0]] + items[1..];
    }
  }

  /** Erasing the KILLs a second time changes nothing. */
  lemma {:induction false} WithoutKillsIdempotent(items: seq<Item>)
    ensures WithoutKills(WithoutKills(items)) == WithoutKills(items)
    decreases |items|
  {
    if items != [] {
      WithoutKillsIdempotent(items[1..]);
      var head := if IsKill(items[0]) then [] else [items[0]];
      WithoutKillsAppend(head, WithoutKills(items[1..]));
    }
  }

  // ---------------------------------------------------------------------
  // Scheduling regions.

  /** The instructions `start .. end - 1` of the block. */
  datatype Region = Region(start: nat, end: nat)

  predicate Boundary(t: Target, mis: seq<Instr>, k: nat)
    requires k < |mis|
  {
    t.isSchedulingBoundary(mis[k])
  }

  /** The first instruction from `k` on that is not a scheduling boundary. */
  function SkipBoundaries(t: Target, mis: seq<Instr>, k: nat): (r: nat)
    requires k <= |mis|
    ensures k <= r <= |mis| && (r < |mis| ==> !Boundary(t, mis, r))
    ensures forall j | k <= j < r :: Boundary(t, mis, j)
    decreases |mis| - k
  {
    if k == |mis| || !Boundary(t, mis, k) then k else SkipBoundaries(t, mis, k + 1)
  }

  /** The first scheduling boundary from `k` on. */
  function NextBoundary(t: Target, mis: seq<Instr>, k: nat): (r: nat)
    requires k <= |mis|
    ensures k <= r <= |mis| && (r < |mis| ==> Boundary(t, mis, r))
    ensures forall j | k <= j < r :: !Boundary(t, mis, j)
    decreases |mis| - k
  {
    if k == |mis| || Boundary(t, mis, k) then k else NextBoundary(t, mis, k + 1)
  }

  /** A region starts at a non-boundary, holds no boundary but possibly its
      last instruction, and ends at a boundary or at the end of the block. */
  predicate GoodRegion(t: Target, mis: seq<Instr>, r: Region) {
    r.start < r.end <= |mis| && !Boundary(t, mis, r.start) &&
    (forall j | r.start <= j < r.end - 1 :: !Boundary(t, mis, j)) &&
    (r.end == |mis| || Boundary(t, mis, r.end - 1))
  }

  /** Where a region starting at `rb` ends: just after the next boundary,
      or at the end of the block. */
  function RegionEnd(t: Target, mis: seq<Instr>, rb: nat): (re: nat)
    requires rb <= |mis|
    ensures rb <= re <= |mis| && (rb < |mis| ==> rb < re)
    ensures rb < |mis| && !Boundary(t, mis, rb) ==> GoodRegion(t, mis, Region(rb, re))
  {
    var re0 := NextBoundary(t, mis, rb);
    if re0 < |mis| then re0 + 1 else re0
  }

  /** The regions handed to the packetizer from position `b` on: leading
      boundaries are skipped, and a region runs up to and including the
      next boundary, or to the end of the block. */
  function RegionsFrom(t: Target, mis: seq<Instr>, b: nat): seq<Region>
    requires b <= |mis|
    decreases |mis| - b
  {
    if b == |mis| then []
    else
      var rb := SkipBoundaries(t, mis, b);
      var re := RegionEnd(t, mis, rb);
      (if rb < |mis| then [Region(rb, re)] else []) + RegionsFrom(t, mis, re)
  }

  /** Every region is well formed and lies at or after `b`. */
  lemma {:induction false} RegionsGood(t: Target, mis: seq<Instr>, b: nat)
    requires b <= |mis|
    ensures forall k | 0 <= k < |RegionsFrom(t, mis, b)| ::
      GoodRegion(t, mis, RegionsFrom(t, mis, b)[k]) && b <= RegionsFrom(t, mis, b)[k].start
    decreases |mis| - b
  {
    if b < |mis| {
      var rb := SkipBoundaries(t, mis, b);
      var re := RegionEnd(t, mis, rb);
      var head: seq<Region> := if rb < |mis| then [Region(rb, re)] else [];
      var rest := RegionsFrom(t, mis, re);
      RegionsGood(t, mis, re);
      assert RegionsFrom(t, mis, b) == head + rest;
      forall k | 0 <= k < |head + rest|
        ensures GoodRegion(t, mis, (head + rest)[k]) && b <= (head + rest)[k].start
      {
        if k >= |head| {
          assert (head + rest)[k] == rest[k - |head|];
        }
      }
    }
  }

  /** Each region ends at or before the start of the next. */
  lemma {:induction false} RegionsOrdered(t: Target, mis: seq<Instr>, b: nat)
    requires b <= |mis|
    ensures forall k | 0 <= k < |RegionsFrom(t, mis, b)| - 1 ::
      RegionsFrom(t, mis, b)[k].end <= RegionsFrom(t, mis, b)[k + 1].start
    decreases |mis| - b
  {
    if b < |mis| {
      var rb := SkipBoundaries(t, mis, b);
      var re := RegionEnd(t, mis, rb);
      var head: seq<Region> := if rb < |mis| then [Region(rb, re)] else [];
      var rest := RegionsFrom(t, mis, re);
      RegionsOrdered(t, mis, re);
      RegionsGood(t, mis, re);
      assert RegionsFrom(t, mis, b) == head + rest;
      forall k | 0 <= k < |head + rest| - 1
        ensures (head + rest)[k].end <= (head + rest)[k + 1].start
      {
        if k >= |head| {
          assert (head + rest)[k] == rest[k - |head|] && (head + rest)[k + 1] == rest[k + 1 - |head|];
        } else {
          assert (head + rest)[k + 1] == rest[0];
        }
      }
    }
  }

  predicate Covers(rs: seq<Region>, j: nat) {
    exists k | 0 <= k < |rs| :: rs[k].start <= j < rs[k].end
  }

  /** Every instruction from `b` on that is not a boundary lies in a
      region. */
  lemma {:induction false} RegionsCover(t: Target, mis: seq<Instr>, b: nat, j: nat)
    requires b <= j < |mis| && !Boundary(t, mis, j)
    ensures Covers(RegionsFrom(t, mis, b), j)
    decreases |mis| - b
  {
    var rb := SkipBoundaries(t, mis, b);
    var re := RegionEnd(t, mis, rb);
    var head := if rb < |mis| then [Region(rb, re)] else [];
    var rest := RegionsFrom(t, mis, re);
    assert RegionsFrom(t, mis, b) == head + rest;
    if j < re {
      assert (head + rest)[0] == Region(rb, re);
    } else {
      RegionsCover(t, mis, re, j);
      var k :| 0 <= k < |rest| && rest[k].start <= j < rest[k].end;
      assert (head + rest)[|head| + k] == rest[k];
    }
  }

  /** The scan for the first non-boundary of a region. */
  method ScanBoundaries(t: Target, mis: seq<Instr>, b: nat) returns (rb: nat)
    requires b <= |mis|
    ensures rb == SkipBoundaries(t, mis, b)
  {
    rb := b;
    while rb < |mis| && t.isSchedulingBoundary(mis[rb])
      invariant b <= rb <= |mis|
      invariant SkipBoundaries(t, mis, rb) == SkipBoundaries(t, mis, b)
      decreases |mis| - rb
    {
      rb := rb + 1;
    }
  }

  /** The scan for the boundary that closes a region, taken into it unless
      the block ends first. */
  method ScanRegion(t: Target, mis: seq<Instr>, rb: nat) returns (re: nat)
    requires rb <= |mis|
    ensures re == RegionEnd(t, mis, rb)
  {
    re := rb;
    while re < |mis| && !t.isSchedulingBoundary(mis[re])
      invariant rb <= re <= |mis|
      invariant NextBoundary(t, mis, re) == NextBoundary(t, mis, rb)
      decreases |mis| - re
    {
      re := re + 1;
    }
    if re < |mis| {
      re := re + 1;
    }
  }

  /** The region loop of the packetizer pass. */
  method SchedulingRegions(t: Target, mis: seq<Instr>) returns (regions: seq<Region>)
    ensures regions == RegionsFrom(t, mis, 0)
  {
    regions := [];
    var b := 0;
    while b < |mis|
      invariant b <= |mis|
      invariant regions + RegionsFrom(t, mis, b) == RegionsFrom(t, mis, 0)
      decreases |mis| - b
    {
      var rb := ScanBoundaries(t, mis, b);
      var re := ScanRegion(t, mis, rb);
      ghost var head: seq<Region> := if rb < |mis| then [Region(rb, re)] else [];
      assert RegionsFrom(t, mis, b) == head + RegionsFrom(t, mis, re);
      if rb < |mis| {
        regions := regions + [Region(rb, re)];
      }
      b := re;
    }
  }

  // ---------------------------------------------------------------------
  // Pulling debug values and inline asm out of bundles.

  datatype Placement = Stays | Before | After

  /** A debug value goes before its bundle; an inline asm goes before it
      too, unless it writes a register the bundle reads, and then after
      it; everything else stays. */
  function Place(t: Target, header: Instr, mi: Instr): (r: Placement)
    ensures r == Stays <==> mi.opcode != InlineAsm && mi.opcode != DebugValue
    ensures r == After <==> mi.opcode == InlineAsm && HasWriteToReadDep(t, mi, header)
  {
    if mi.opcode == InlineAsm then (if HasWriteToReadDep(t, mi, header) then After else Before)
    else if mi.opcode == DebugValue then Before
    else Stays
  }

  /** What has become of a bundle's members so far: the instructions moved
      in front of it, those still in it, and those moved behind it. */
  datatype Scatter = Scatter(before: seq<Instr>, kept: seq<Instr>, after: seq<Instr>)

  function Count(s: Scatter): multiset<Instr> {
    multiset(s.before) + multiset(s.kept) + multiset(s.after)
  }

  /** One member visited; `alive` says the bundle still holds two
      instructions or more. */
  function ScatterStep(t: Target, header: Instr, m: Instr, s: Scatter, alive: bool): Scatter {
    if !alive then s.(kept := s.kept + [m])
    else match Place(t, header, m)
      case Stays => s.(kept := s.kept + [m])
      case Before => s.(before := s.before + [m])
      case After => s.(after := [m] + s.after)
  }

  /** Visits the members `ms` in order. While the bundle holds at least two
      instructions a member is moved out as `Place` says; one moved behind
      the bundle lands right after it, in front of those moved there
      earlier. Once a single member is left the bundle is gone and nothing
      more moves. */
  function Scattered(t: Target, header: Instr, ms: seq<Instr>, s: Scatter): Scatter
    decreases |ms|
  {
    if ms == [] then s
    else
      Scattered(t, header, ms[1..], ScatterStep(t, header, ms[0], s, |s.kept| + |ms| >= 2))
  }

  lemma StepCount(t: Target, header: Instr, m: Instr, s: Scatter, alive: bool)
    ensures Count(ScatterStep(t, header, m, s, alive)) == Count(s) + multiset{m}
  {
    var r := ScatterStep(t, header, m, s, alive);
    if r.kept != s.kept {
      assert r.kept == s.kept + [m] && r.before == s.before && r.after == s.after;
    } else if r.before != s.before {
      assert r.before == s.before + [m] && r.after == s.after;
    } else {
      assert r.after == [m] + s.after;
    }
  }

  /** Moving members around loses none and adds none. */
  lemma {:induction false} ScatteredCount(t: Target, header: Instr, ms: seq<Instr>, s: Scatter)
    ensures Count(Scattered(t, header, ms, s)) == Count(s) + multiset(ms)
    decreases |ms|
  {
    if ms != [] {
      var m := ms[0];
      var s1 := ScatterStep(t, header, m, s, |s.kept| + |ms| >= 2);
      ScatteredCount(t, header, ms[1..], s1);
      assert Count(s1) == Count(s) + multiset{m} by {
        StepCount(t, header, m, s, |s.kept| + |ms| >= 2);
      }
      assert multiset(ms) == multiset{m} + multiset(ms[1..]) by {
        assert ms == [m] + ms[1..];
      }
      assert Scattered(t, header, ms, s) == Scattered(t, header, ms[1..], s1);
    }
  }

  function Staying(t: Target, header: Instr, ms: seq<Instr>): seq<Instr> {
    if ms == [] then []
    else (if Place(t, header, ms[0]) == Stays then [ms[0]] else []) + Staying(t, header, ms[1..])
  }

  function Leading(t: Target, header: Instr, ms: seq<Instr>): seq<Instr> {
    if ms == [] then []
    else (if Place(t, header, ms[0]) == Before then [ms[0]] else []) + Leading(t, header, ms[1..])
  }

  /** The members moved behind the bundle, the last visited first. */
  function Trailing(t: Target, header: Instr, ms: seq<Instr>): seq<Instr> {
    if ms == [] then []
    else Trailing(t, header, ms[1..]) + (if Place(t, header, ms[0]) == After then [ms[0]] else [])
  }

  /** The members `ms` placed as `Place` says, none of them staying for
      lack of company. */
  function Settled(t: Target, header: Instr, ms: seq<Instr>, s: Scatter): Scatter {
    Scatter(s.before + Leading(t, header, ms), s.kept + Staying(t, header, ms), Trailing(t, header, ms) + s.after)
  }

  lemma SettledStep(t: Target, header: Instr, ms: seq<Instr>, s: Scatter)
    requires ms != []
    ensures Settled(t, header, ms[1..], ScatterStep(t, header, ms[0], s, true)) == Settled(t, header, ms, s)
  {
    var m := ms[0];
    var s1 := ScatterStep(t, header, m, s, true);
    var place := Place(t, header, m);
    var L, S, T := Leading(t, header, ms[1..]), Staying(t, header, ms[1..]), Trailing(t, header, ms[1..]);
    assert Leading(t, header, ms) == (if place == Before then [m] else []) + L;
    assert Staying(t, header, ms) == (if place == Stays then [m] else []) + S;
    assert Trailing(t, header, ms) == T + (if place == After then [m] else []);
    if place == Stays {
      assert s.kept + [m] + S == s.kept + ([m] + S);
    } else if place == Before {
      assert s.before + [m] + L == s.before + ([m] + L);
    } else {
      assert T + ([m] + s.after) == T + [m] + s.after;
    }
  }

  /** A bundle that keeps two members or more was never reduced to one:
      every member was placed as `Place` says, in order. */
  lemma {:induction false} ScatteredSurviving(t: Target, header: Instr, ms: seq<Instr>, s: Scatter)
    requires |Scattered(t, header, ms, s).kept| >= 2
    ensures Scattered(t, header, ms, s) == Settled(t, header, ms, s)
    decreases |ms|
  {
    if ms == [] {
      assert s.before + [] == s.before && s.kept + [] == s.kept && [] + s.after == s.after;
    } else {
      if |s.kept| + |ms| < 2 {
        ScatteredKeeps(t, header, ms, s);
        assert false;
      }
      var s1 := ScatterStep(t, header, ms[0], s, true);
      assert Scattered(t, header, ms, s) == Scattered(t, header, ms[1..], s1);
      ScatteredSurviving(t, header, ms[1..], s1);
      SettledStep(t, header, ms, s);
    }
  }

  /** A bundle reduced to one member keeps exactly that one. */
  lemma {:induction false} ScatteredLeavesOne(t: Target, header: Instr, ms: seq<Instr>, s: Scatter)
    requires |s.kept| + |ms| >= 1
    ensures |Scattered(t, header, ms, s).kept| >= 1
    decreases |ms|
  {
    if ms != [] {
      var s1 := ScatterStep(t, header, ms[0], s, |s.kept| + |ms| >= 2);
      assert Scattered(t, header, ms, s) == Scattered(t, header, ms[1..], s1);
      ScatteredLeavesOne(t, header, ms[1..], s1);
    }
  }

  /** Once the bundle has shrunk to one member the rest stays. */
  lemma {:induction false} ScatteredKeeps(t: Target, header: Instr, ms: seq<Instr>, s: Scatter)
    requires |s.kept| + |ms| < 2
    ensures Scattered(t, header, ms, s).kept == s.kept + ms
    decreases |ms|
  {
    if ms != [] {
      assert Scattered(t, header, ms, s) == Scattered(t, header, ms[1..], s.(kept := s.kept + [ms[0]]));
      ScatteredKeeps(t, header, ms[1..], s.(kept := s.kept + [ms[0]]));
      assert s.kept + [ms[0]] + ms[1..] == s.kept + ms;
    }
  }

  predicate Solo(mi: Instr) {
    mi.opcode == InlineAsm || mi.opcode == DebugValue
  }

  lemma {:induction false} StayingNotSolo(t: Target, header: Instr, ms: seq<Instr>)
    ensures forall k | 0 <= k < |Staying(t, header, ms)| :: !Solo(Staying(t, header, ms)[k])
    decreases |ms|
  {
    if ms != [] {
      StayingNotSolo(t, header, ms[1..]);
    }
  }

  lemma {:induction false} InstrsAppend(a: seq<Item>, b: seq<Item>)
    ensures Instrs(a + b) == Instrs(a) + Instrs(b)
    decreases |a|
  {
    if a != [] {
      assert (a + b)[0] == a[0] && (a + b)[1..] == a[1..] + b;
      InstrsAppend(a[1..], b);
    } else {
      assert a + b == b;
    }
  }

  lemma {:induction false} InstrsOfSingles(ms: seq<Instr>)
    ensures Instrs(Singles(ms)) == ms
    decreases |ms|
  {
    if ms != [] {
      assert Singles(ms)[1..] == Singles(ms[1..]);
      InstrsOfSingles(ms[1..]);
    }
  }

  /** A bundle after its members have been pulled out: the instructions
      moved in front, the bundle or its last member, and those moved
      behind. */
  function Unbundled(t: Target, header: Instr, ms: seq<Instr>): seq<Item> {
    var s := Scattered(t, header, ms, Scatter([], [], []));
    Singles(s.before) + (if |s.kept| >= 2 then [Bundle(header, s.kept)] else Singles(s.kept)) + Singles(s.after)
  }

  /** What unpacketizeSoloInstrs makes of one item of the block. */
  function Unpacked(t: Target, it: Item): seq<Item> {
    match it
      case Single(_) => [it]
      case Bundle(header, ms) => Unbundled(t, header, ms)
  }

  /** unpacketizeSoloInstrs: every item of the block, in order. */
  function Unpacketized(t: Target, items: seq<Item>): seq<Item>
    decreases |items|
  {
    if items == [] then [] else Unpacked(t, items[0]) + Unpacketized(t, items[1..])
  }

  /** Every bundle has two members or more, none of them a debug value or
      an inline asm. */
  predicate Clean(items: seq<Item>) {
    forall k | 0 <= k < |items| :: items[k].Bundle? ==>
      |items[k].members| >= 2 && forall n | 0 <= n < |items[k].members| :: !Solo(items[k].members[n])
  }

  lemma CleanAppend(a: seq<Item>, b: seq<Item>)
    requires Clean(a) && Clean(b)
    ensures Clean(a + b)
  {
    forall k | 0 <= k < |a + b|
      ensures (a + b)[k].Bundle? ==>
        |(a + b)[k].members| >= 2 && forall n | 0 <= n < |(a + b)[k].members| :: !Solo((a + b)[k].members[n])
    {
      if k >= |a| {
        assert (a + b)[k] == b[k - |a|];
      }
    }
  }

  /** One bundle pulled apart keeps its instructions. */
  lemma UnbundledCount(t: Target, header: Instr, ms: seq<Instr>)
    ensures multiset(Instrs(Unbundled(t, header, ms))) == multiset(ms)
  {
    var s := Scattered(t, header, ms, Scatter([], [], []));
    var mid := if |s.kept| >= 2 then [Bundle(header, s.kept)] else Singles(s.kept);
    assert Instrs(mid) == s.kept by {
      if |s.kept| >= 2 {
        assert mid[1..] == [];
      } else {
        InstrsOfSingles(s.kept);
      }
    }
    assert Instrs(Unbundled(t, header, ms)) == s.before + s.kept + s.after by {
      InstrsAppend(Singles(s.before), mid);
      InstrsAppend(Singles(s.before) + mid, Singles(s.after));
      InstrsOfSingles(s.before);
      InstrsOfSingles(s.after);
    }
    ScatteredCount(t, header, ms, Scatter([], [], []));
  }

  /** What is left a bundle of a bundle pulled apart has two members or
      more and no debug value or inline asm. */
  lemma UnbundledClean(t: Target, header: Instr, ms: seq<Instr>)
    ensures Clean(Unbundled(t, header, ms))
  {
    var s := Scattered(t, header, ms, Scatter([], [], []));
    var mid := if |s.kept| >= 2 then [Bundle(header, s.kept)] else Singles(s.kept);
    assert Clean(mid) by {
      if |s.kept| >= 2 {
        ScatteredSurviving(t, header, ms, Scatter([], [], []));
        StayingNotSolo(t, header, ms);
        assert s.kept == [] + Staying(t, header, ms);
      }
    }
    CleanAppend(Singles(s.before), mid);
    CleanAppend(Singles(s.before) + mid, Singles(s.after));
  }

  /** unpacketizeSoloInstrs keeps every instruction of the block. */
  lemma {:induction false} UnpacketizedCount(t: Target, items: seq<Item>)
    ensures multiset(Instrs(Unpacketized(t, items))) == multiset(Instrs(items))
    decreases |items|
  {
    if items != [] {
      var head, tail := Unpacked(t, items[0]), Unpacketized(t, items[1..]);
      UnpacketizedCount(t, items[1..]);
      assert multiset(Instrs(head)) == multiset(Instrs([items[0]])) by {
        if items[0].Bundle? {
          UnbundledCount(t, items[0].header, items[0].members);
          assert Instrs([items[0]]) == items[0].members by {
            assert [items[0]][1..] == [];
          }
        }
      }
      InstrsAppend(head, tail);
      InstrsAppend([items[0]], items[1..]);
      assert [items[0]] + items[1..] == items;
    }
  }

  /** After unpacketizeSoloInstrs every bundle has two members or more and
      no debug value or inline asm is left inside one. */
  lemma {:induction false} UnpacketizedClean(t: Target, items: seq<Item>)
    ensures Clean(Unpacketized(t, items))
    decreases |items|
  {
    if items != [] {
      UnpacketizedClean(t, items[1..]);
      assert Clean(Unpacked(t, items[0])) by {
        if items[0].Bundle? {
          UnbundledClean(t, items[0].header, items[0].members);
        }
      }
      CleanAppend(Unpacked(t, items[0]), Unpacketized(t, items[1..]));
    }
  }

  class MachineBasicBlock {
    var items: seq<Item>

    constructor(items: seq<Item>)
      ensures this.items == items
    {
      this.items := items;
    }

    /** The KILL loop of the pass, erasing in place. */
    method RemoveKills()
      modifies this
      ensures items == WithoutKills(old(items))
    {
      var k := 0;
      ghost var n := 0;
      while k < |items|
        invariant n <= |old(items)| && k <= |items|
        invariant items[..k] == WithoutKills(old(items)[..n]) && items[k..] == old(items)[n..]
        decreases |items| - k
      {
        assert old(items)[..n + 1] == old(items)[..n] + [old(items)[n]];
        WithoutKillsAppend(old(items)[..n], [old(items)[n]]);
        assert WithoutKills([old(items)[n]]) == if IsKill(old(items)[n]) then [] else [old(items)[n]];
        if IsKill(items[k]) {
          items := items[..k] + items[k + 1..];
        } else {
          k := k + 1;
        }
        n := n + 1;
      }
      assert old(items)[..n] == old(items);
    }

    /** The members of one bundle, moved out one at a time. */
    static method MoveInstrsOut(t: Target, header: Instr, ms: seq<Instr>) returns (s: Scatter)
      ensures s == Scattered(t, header, ms, Scatter([], [], []))
    {
      var before, kept, after := [], [], [];
      var n := 0;
      while n < |ms|
        invariant n <= |ms|
        invariant Scattered(t, header, ms[n..], Scatter(before, kept, after)) ==
                  Scattered(t, header, ms, Scatter([], [], []))
        decreases |ms| - n
      {
        assert ms[n..][1..] == ms[n + 1..];
        var m := ms[n];
        if |kept| + (|ms| - n) < 2 {
          kept := kept + [m];
        } else {
          var place := Place(t, header, m);
          if place == Stays {
            kept := kept + [m];
          } else if place == Before {
            before := before + [m];
          } else {
            after := [m] + after;
          }
        }
        n := n + 1;
      }
      s := Scatter(before, kept, after);
    }

    /** One item of the block: a bundle has its debug values and inline
        asm moved out. */
    static method UnpackItem(t: Target, it: Item) returns (piece: seq<Item>)
      ensures piece == Unpacked(t, it)
    {
      match it {
        case Single(_) =>
          piece := [it];
        case Bundle(header, ms) =>
          var s := MoveInstrsOut(t, header, ms);
          piece := Singles(s.before) +
                   (if |s.kept| >= 2 then [Bundle(header, s.kept)] else Singles(s.kept)) + Singles(s.after);
      }
    }

    /** unpacketizeSoloInstrs over this block. */
    method UnpacketizeSoloInstrs(t: Target)
      modifies this
      ensures items == Unpacketized(t, old(items))
    {
      var src := items;
      var out := [];
      var k := 0;
      while k < |src|
        invariant k <= |src|
        invariant out + Unpacketized(t, src[k..]) == Unpacketized(t, src)
        decreases |src| - k
      {
        var piece := UnpackItem(t, src[k]);
        assert Unpacketized(t, src[k..]) == piece + Unpacketized(t, src[k + 1..]) by {
          assert src[k..][1..] == src[k + 1..];
        }
        out := out + piece;
        k := k + 1;
      }
      assert src[k..] == [];
      items := out;
    }
  }
}
