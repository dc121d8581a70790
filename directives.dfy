// Data-sharing attribute resolution for OpenMP and OpenACC directives:
// the stack of directive contexts, private copies of symbols, the
// associated loop depth, the predetermined attributes of loop indices and
// the detection of duplicate appearances in data-sharing clauses.

module DirectiveResolution {
  import opened Wrappers

  /** Symbol flags set by the directive resolvers. */
  datatype Flag =
    | OmpShared | OmpPrivate | OmpFirstPrivate | OmpLastPrivate | OmpReduction
    | OmpLinear | OmpThreadprivate | OmpCopyIn | OmpPreDetermined | OmpCommonBlock
    | AccShared | AccPrivate | AccPresent | AccFirstPrivate | AccReduction
    | AccCreate | AccCopyIn | AccCopyOut | AccDelete | AccPreDetermined | AccNone

  datatype Language = OpenMP | OpenACC

  const OmpPrivateDataSharingAttributeFlags: set<Flag> :=
    {OmpPrivate, OmpFirstPrivate, OmpLastPrivate}

  /** Flags for which a clause declares a private copy of the symbol. */
  function FlagsRequireNewSymbol(lang: Language): set<Flag> {
    match lang
    case OpenMP => {OmpPrivate, OmpLinear, OmpFirstPrivate, OmpLastPrivate, OmpReduction}
    case OpenACC => {AccPrivate, AccFirstPrivate, AccReduction}
  }

  /** Flags that are set on the symbol itself. */
  function FlagsRequireMark(lang: Language): set<Flag> {
    match lang
    case OpenMP => {OmpThreadprivate}
    case OpenACC => {}
  }

  type SymbolId = nat
  type ScopeId = nat

  /** A symbol: its name, owning scope, flags and, for a host-associated
      copy, the symbol it stands for. */
  datatype Symbol = Symbol(name: string, owner: ScopeId, flags: set<Flag>, hostAssoc: Option<SymbolId>)

  /** All symbols, and each scope's symbols by name. */
  datatype SymbolTable = SymbolTable(symbols: seq<Symbol>, scopes: map<(ScopeId, string), SymbolId>)
  {
    ghost predicate Valid() {
      (forall k | k in scopes ::
        scopes[k] < |symbols| && symbols[scopes[k]].owner == k.0 && symbols[scopes[k]].name == k.1) &&
      (forall i | 0 <= i < |symbols| :: symbols[i].hostAssoc.Some? ==> symbols[i].hostAssoc.value < |symbols|)
    }

    predicate Has(s: Option<SymbolId>) {
      s.Some? ==> s.value < |symbols|
    }
  }

  /** `b` is `a` with possibly more flags. */
  ghost predicate Extends(a: Symbol, b: Symbol) {
    b.name == a.name && b.owner == a.owner && b.hostAssoc == a.hostAssoc && a.flags <= b.flags
  }

  /** Symbols and scope entries are only ever added, and flags only set. */
  ghost predicate Grows(t: SymbolTable, u: SymbolTable) {
    |t.symbols| <= |u.symbols| &&
    (forall i | 0 <= i < |t.symbols| :: Extends(t.symbols[i], u.symbols[i])) &&
    (forall k | k in t.scopes :: k in u.scopes && u.scopes[k] == t.scopes[k])
  }

  lemma GrowsTransitive(t: SymbolTable, u: SymbolTable, v: SymbolTable)
    requires Grows(t, u) && Grows(u, v)
    ensures Grows(t, v)
  {
  }

  // ---------------------------------------------------------------------
  // Symbol table updates.

  /** `s` with `f` added to its flags. */
  function WithFlag(t: SymbolTable, s: SymbolId, f: Flag): (u: SymbolTable)
    requires s < |t.symbols|
    ensures t.Valid() ==> u.Valid()
    ensures Grows(t, u) && |u.symbols| == |t.symbols| && u.scopes == t.scopes
    ensures u.symbols[s].flags == t.symbols[s].flags + {f}
    ensures forall i | 0 <= i < |t.symbols| && i != s :: u.symbols[i] == t.symbols[i]
  {
    t.(symbols := t.symbols[s := t.symbols[s].(flags := t.symbols[s].flags + {f})])
  }

  /** The symbol named `name` in `scope`, created as a host-associated copy
      of `prev` when the scope has none by that name yet. */
  function AssocSymbol(t: SymbolTable, name: string, prev: SymbolId, scope: ScopeId): (r: (SymbolTable, SymbolId))
    requires t.Valid() && prev < |t.symbols|
    ensures r.0.Valid() && Grows(t, r.0)
    ensures (scope, name) in r.0.scopes && r.0.scopes[(scope, name)] == r.1
    ensures (scope, name) in t.scopes ==> r.0 == t
    ensures (scope, name) !in t.scopes ==>
      r.1 == |t.symbols| && r.0.symbols == t.symbols + [Symbol(name, scope, {}, Some(prev))]
  {
    if (scope, name) in t.scopes then (t, t.scopes[(scope, name)])
    else
      var id := |t.symbols|;
      (SymbolTable(t.symbols + [Symbol(name, scope, {}, Some(prev))], t.scopes[(scope, name) := id]), id)
  }

  /** The symbol that carries `flag` for `obj` referenced from a construct
      whose scope is `currScope`: `obj` itself when it belongs to that
      scope, otherwise its host-associated copy in `scope`. */
  function PrivateEntity(t: SymbolTable, currScope: ScopeId, obj: SymbolId, flag: Flag, scope: ScopeId)
    : (r: (SymbolTable, SymbolId))
    requires t.Valid() && obj < |t.symbols|
    ensures r.0.Valid() && Grows(t, r.0) && r.1 < |r.0.symbols|
    ensures flag in r.0.symbols[r.1].flags
    ensures forall i | 0 <= i < |t.symbols| && i != r.1 :: r.0.symbols[i] == t.symbols[i]
    ensures t.symbols[obj].owner == currScope ==> r.1 == obj && |r.0.symbols| == |t.symbols|
    ensures t.symbols[obj].owner != currScope ==>
      (scope, t.symbols[obj].name) in r.0.scopes && r.0.scopes[(scope, t.symbols[obj].name)] == r.1
    ensures t.symbols[obj].owner != currScope ==>
      var copy := r.0.symbols[r.1];
      copy.owner == scope && copy.name == t.symbols[obj].name &&
      ((scope, copy.name) !in t.scopes ==> r.1 == |t.symbols| && copy == Symbol(copy.name, scope, {flag}, Some(obj)))
  {
    if t.symbols[obj].owner != currScope then
      var (u, copy) := AssocSymbol(t, t.symbols[obj].name, obj, scope);
      (WithFlag(u, copy, flag), copy)
    else
      (WithFlag(t, obj, flag), obj)
  }

  /** As `PrivateEntity` for a name; an unresolved name gives nothing. */
  function PrivateEntityByName(t: SymbolTable, currScope: ScopeId, name: Option<SymbolId>, flag: Flag, scope: ScopeId)
    : (r: (SymbolTable, Option<SymbolId>))
    requires t.Valid() && t.Has(name)
    ensures r.0.Valid() && Grows(t, r.0) && r.0.Has(r.1)
    ensures r.1.Some? <==> name.Some?
    ensures name.None? ==> r.0 == t
    ensures name.Some? ==> (r.0, r.1.value) == PrivateEntity(t, currScope, name.value, flag, scope)
  {
    if name.None? then (t, None)
    else
      var (u, s) := PrivateEntity(t, currScope, name.value, flag, scope);
      (u, Some(s))
  }

  /** A symbol given a non-private attribute: marked only for the flags
      that require it. */
  function MarkedEntity(t: SymbolTable, lang: Language, obj: SymbolId, flag: Flag): (u: SymbolTable)
    requires t.Valid() && obj < |t.symbols|
    ensures u.Valid() && Grows(t, u) && |u.symbols| == |t.symbols|
    ensures flag in u.symbols[obj].flags <==> flag in t.symbols[obj].flags || flag in FlagsRequireMark(lang)
    ensures forall i | 0 <= i < |t.symbols| && i != obj :: u.symbols[i] == t.symbols[i]
  {
    if flag in FlagsRequireMark(lang) then WithFlag(t, obj, flag) else t
  }

  /** The symbol a name resolves to under `flag`: a private copy for the
      flags that require one, otherwise the symbol `found` by looking the
      name up from the current scope. */
  function Resolved(t: SymbolTable, lang: Language, currScope: ScopeId, name: Option<SymbolId>,
                    flag: Flag, scope: ScopeId, found: Option<SymbolId>): (r: (SymbolTable, Option<SymbolId>))
    requires t.Valid() && t.Has(name) && t.Has(found)
    ensures r.0.Valid() && Grows(t, r.0) && r.0.Has(r.1)
    ensures flag in FlagsRequireNewSymbol(lang) ==> r == PrivateEntityByName(t, currScope, name, flag, scope)
    ensures flag !in FlagsRequireNewSymbol(lang) ==>
      (r.1.Some? <==> name.Some? && found.Some?) && (r.1.Some? ==> r.1 == found)
  {
    if flag in FlagsRequireNewSymbol(lang) then PrivateEntityByName(t, currScope, name, flag, scope)
    else if name.None? || found.None? then (t, None)
    else (MarkedEntity(t, lang, found.value, flag), found)
  }

  // ---------------------------------------------------------------------
  // Directive contexts.

  /** A directive with its membership in the parallel, task-generating and
      SIMD directive sets. */
  datatype Directive = Directive(name: string, inParallelSet: bool, inTaskGeneratingSet: bool, inSimdSet: bool)

  /** The data-sharing context of one directive being resolved. */
  datatype DirContext = DirContext(
    directive: Directive,
    scope: ScopeId,
    defaultDSA: Flag,
    objectWithDSA: map<SymbolId, Flag>,
    withinConstruct: bool,
    associatedLoopLevel: int)

  function NewContext(directive: Directive, scope: ScopeId): (c: DirContext)
    ensures c.objectWithDSA == map[] && !c.withinConstruct && c.associatedLoopLevel == 0
  {
    DirContext(directive, scope, AccShared, map[], false, 0)
  }

  /** Records `s` with `f` unless it already has an attribute. */
  function Emplace(m: map<SymbolId, Flag>, s: SymbolId, f: Flag): (r: map<SymbolId, Flag>)
    ensures r.Keys == m.Keys + {s}
    ensures r[s] == (if s in m then m[s] else f)
    ensures forall k | k in m :: r[k] == m[k]
  {
    if s in m then m else m[s := f]
  }

  function WithDSA(c: DirContext, s: SymbolId, f: Flag): DirContext {
    c.(objectWithDSA := Emplace(c.objectWithDSA, s, f))
  }

  predicate ParallelOrTask(d: Directive) {
    d.inParallelSet || d.inTaskGeneratingSet
  }

  /** The innermost parallel or task-generating context on the stack. */
  function InnermostParallelOrTask(contexts: seq<DirContext>): (r: Option<nat>)
    ensures r.Some? ==> r.value < |contexts| && ParallelOrTask(contexts[r.value].directive)
    ensures r.Some? ==> forall j | r.value < j < |contexts| :: !ParallelOrTask(contexts[j].directive)
    ensures r.None? ==> forall j | 0 <= j < |contexts| :: !ParallelOrTask(contexts[j].directive)
  {
    if |contexts| == 0 then None
    else if ParallelOrTask(contexts[|contexts| - 1].directive) then Some(|contexts| - 1)
    else InnermostParallelOrTask(contexts[..|contexts| - 1])
  }

  /** Contexts from `target` to the top record `s` as private. */
  function PrivateFrom(contexts: seq<DirContext>, target: nat, s: SymbolId): (r: seq<DirContext>)
    ensures |r| == |contexts|
    ensures forall j | 0 <= j < |contexts| && j < target :: r[j] == contexts[j]
    ensures forall j | target <= j < |contexts| :: r[j] == WithDSA(contexts[j], s, OmpPrivate)
  {
    seq(|contexts|, j requires 0 <= j < |contexts| =>
      if j >= target then WithDSA(contexts[j], s, OmpPrivate) else contexts[j])
  }

  /** The resolution of the index of a sequential loop inside a parallel or
      task-generating construct: private in the innermost such construct,
      recorded in every context from the top down to it. */
  datatype Resolution = Resolution(table: SymbolTable, contexts: seq<DirContext>, iv: Option<SymbolId>)

  function SeqLoopIndexResolved(t: SymbolTable, contexts: seq<DirContext>, iv: Option<SymbolId>): (r: Resolution)
    requires t.Valid() && t.Has(iv)
    ensures r.table.Valid() && Grows(t, r.table) && r.table.Has(r.iv) && |r.contexts| == |contexts|
  {
    match InnermostParallelOrTask(contexts)
    case None => Resolution(t, contexts, iv)
    case Some(target) =>
      var currScope := contexts[|contexts| - 1].scope;
      var (u, symbol) := PrivateEntityByName(t, currScope, iv, OmpPrivate, contexts[target].scope);
      if symbol.None? then Resolution(u, contexts, iv)
      else Resolution(WithFlag(u, symbol.value, OmpPreDetermined), PrivateFrom(contexts, target, symbol.value), symbol)
  }

  /** A resolved sequential loop index is private and predetermined, and
      recorded in the contexts from the innermost parallel or task construct
      to the top and in no other; without such a construct nothing changes. */
  lemma SeqLoopIndexPrivate(t: SymbolTable, contexts: seq<DirContext>, iv: Option<SymbolId>)
    requires t.Valid() && t.Has(iv)
    ensures var r := SeqLoopIndexResolved(t, contexts, iv);
      match InnermostParallelOrTask(contexts)
      case None => r == Resolution(t, contexts, iv)
      case Some(target) =>
        (r.iv.Some? <==> iv.Some?) &&
        (r.iv.Some? ==>
          OmpPrivate in r.table.symbols[r.iv.value].flags &&
          OmpPreDetermined in r.table.symbols[r.iv.value].flags &&
          (forall j | target <= j < |contexts| :: r.iv.value in r.contexts[j].objectWithDSA) &&
          (forall j | 0 <= j < target :: r.contexts[j] == contexts[j]))
  {
    match InnermostParallelOrTask(contexts)
    case None =>
    case Some(target) =>
      var currScope := contexts[|contexts| - 1].scope;
      var (u, symbol) := PrivateEntityByName(t, currScope, iv, OmpPrivate, contexts[target].scope);
      if symbol.Some? {
        var s := symbol.value;
        var w := WithFlag(u, s, OmpPreDetermined);
        assert OmpPrivate in u.symbols[s].flags;
        assert w.symbols[s].flags == u.symbols[s].flags + {OmpPreDetermined};
        var ctx := PrivateFrom(contexts, target, s);
        forall j | target <= j < |contexts|
          ensures s in ctx[j].objectWithDSA
        {
          assert ctx[j] == WithDSA(contexts[j], s, OmpPrivate);
        }
        assert SeqLoopIndexResolved(t, contexts, iv) == Resolution(w, ctx, symbol);
      }
  }

  // ---------------------------------------------------------------------
  // Associated loop level.

  /** An OpenMP clause; the argument of ORDERED or COLLAPSE is present when
      it evaluates to a constant. */
  datatype OmpClause = Ordered(arg: Option<int>) | Collapse(arg: Option<int>) | OtherOmpClause

  /** An OpenACC clause. */
  datatype AccClause = AccCollapse(arg: Option<int>) | OtherAccClause

  predicate IsKind(c: OmpClause, ordered: bool) {
    if ordered then c.Ordered? else c.Collapse?
  }

  /** Value of the last ORDERED (or COLLAPSE) clause whose argument
      evaluates; 0 when there is none. */
  function LastLevel(clauses: seq<OmpClause>, ordered: bool): (level: int)
    ensures level != 0 ==> LastClause(clauses, ordered).Some?
  {
    if |clauses| == 0 then 0
    else
      var c := clauses[|clauses| - 1];
      if IsKind(c, ordered) && c.arg.Some? then c.arg.value
      else LastLevel(clauses[..|clauses| - 1], ordered)
  }

  /** Position of the last ORDERED (or COLLAPSE) clause. */
  function LastClause(clauses: seq<OmpClause>, ordered: bool): (r: Option<nat>)
    ensures r.Some? ==> r.value < |clauses| && IsKind(clauses[r.value], ordered)
    ensures r.Some? ==> forall j | r.value < j < |clauses| :: !IsKind(clauses[j], ordered)
    ensures r.None? ==> forall j | 0 <= j < |clauses| :: !IsKind(clauses[j], ordered)
  {
    if |clauses| == 0 then None
    else if IsKind(clauses[|clauses| - 1], ordered) then Some(|clauses| - 1)
    else LastClause(clauses[..|clauses| - 1], ordered)
  }

  datatype LevelSource = FromOrdered | FromCollapse | Default

  /** Which clause decides the associated loop level. */
  function OmpLevelSource(orderedLevel: int, collapseLevel: int): (src: LevelSource)
    ensures src == FromOrdered <==> orderedLevel != 0 && (collapseLevel == 0 || orderedLevel >= collapseLevel)
    ensures src == FromCollapse <==> orderedLevel == 0 && collapseLevel != 0
  {
    if orderedLevel != 0 && (collapseLevel == 0 || orderedLevel >= collapseLevel) then FromOrdered
    else if orderedLevel == 0 && collapseLevel != 0 then FromCollapse
    else Default
  }

  /** The associated loop level: the value of the deciding clause, or the
      outermost loop when neither decides. */
  function OmpAssociatedLoopLevel(orderedLevel: int, collapseLevel: int): (level: int)
    ensures level != 0
    ensures level == orderedLevel || level == collapseLevel || level == 1
  {
    match OmpLevelSource(orderedLevel, collapseLevel)
    case FromOrdered => orderedLevel
    case FromCollapse => collapseLevel
    case Default => 1
  }

  /** ORDERED smaller than COLLAPSE is left to the structural checks: the
      level falls back to the outermost loop. */
  lemma OrderedBelowCollapse(orderedLevel: int, collapseLevel: int)
    requires orderedLevel != 0 && collapseLevel != 0 && orderedLevel < collapseLevel
    ensures OmpLevelSource(orderedLevel, collapseLevel) == Default
    ensures OmpAssociatedLoopLevel(orderedLevel, collapseLevel) == 1
  {
  }

  /** The clause a chosen level came from: the last one of its kind. */
  function ChosenClause(clauses: seq<OmpClause>): Option<nat> {
    match OmpLevelSource(LastLevel(clauses, true), LastLevel(clauses, false))
    case FromOrdered => LastClause(clauses, true)
    case FromCollapse => LastClause(clauses, false)
    case Default => None
  }

  /** Value of the last OpenACC COLLAPSE clause whose argument evaluates. */
  function LastAccCollapse(clauses: seq<AccClause>): int {
    if |clauses| == 0 then 0
    else
      var c := clauses[|clauses| - 1];
      if c.AccCollapse? && c.arg.Some? then c.arg.value
      else LastAccCollapse(clauses[..|clauses| - 1])
  }

  /** The OpenACC associated loop level: the COLLAPSE value if nonzero, else
      the outermost loop. */
  method AccAssociatedLoopLevel(clauses: seq<AccClause>) returns (level: int)
    ensures level != 0
    ensures LastAccCollapse(clauses) != 0 ==> level == LastAccCollapse(clauses)
    ensures LastAccCollapse(clauses) == 0 ==> level == 1
  {
    var collapseLevel := 0;
    var i := 0;
    while i < |clauses|
      invariant 0 <= i <= |clauses|
      invariant collapseLevel == LastAccCollapse(clauses[..i])
    {
      var c := clauses[i];
      if c.AccCollapse? && c.arg.Some? {
        collapseLevel := c.arg.value;
      }
      assert clauses[..i + 1][..i] == clauses[..i];
      i := i + 1;
    }
    assert clauses[..i] == clauses;
    if collapseLevel != 0 {
      return collapseLevel;
    }
    return 1;
  }

  /** Attribute of the indices of the loops associated with a directive:
      private, or for SIMD linear with one loop and lastprivate with more. */
  function LoopIndexDSA(inSimdSet: bool, level: int): (f: Flag)
    ensures !inSimdSet ==> f == OmpPrivate
    ensures inSimdSet ==> f == (if level == 1 then OmpLinear else OmpLastPrivate)
  {
    if !inSimdSet then OmpPrivate
    else if level == 1 then OmpLinear
    else OmpLastPrivate
  }

  /** Each of these attributes gives the index a private copy. */
  lemma LoopIndexDSANeedsNewSymbol(inSimdSet: bool, level: int)
    ensures LoopIndexDSA(inSimdSet, level) in FlagsRequireNewSymbol(OpenMP)
  {
  }

  /** A COLLAPSE or ORDERED value larger than the loop nest is diagnosed. */
  function CheckAssocLoopLevel(level: int, clause: Option<nat>): (diagnosed: bool)
    ensures diagnosed ==> clause.Some?
    ensures clause.Some? ==> (diagnosed <==> level != 0)
  {
    clause.Some? && level != 0
  }

  // ---------------------------------------------------------------------
  // Loop nests.

  predicate AllIn(t: SymbolTable, ivs: seq<Option<SymbolId>>) {
    forall k | 0 <= k < |ivs| :: t.Has(ivs[k])
  }

  /** `b` is the stack `a` where only the top context gained objects. */
  ghost predicate OnlyTopGained(a: seq<DirContext>, b: seq<DirContext>) {
    |a| == |b| && |a| > 0 &&
    (forall j | 0 <= j < |a| - 1 :: b[j] == a[j]) &&
    b[|a| - 1] == a[|a| - 1].(objectWithDSA := b[|a| - 1].objectWithDSA) &&
    a[|a| - 1].objectWithDSA.Keys <= b[|a| - 1].objectWithDSA.Keys
  }

  /** `s` is the private symbol of `obj` in `scope`: `obj` itself when it
      belongs to that scope, otherwise the symbol that scope holds under
      the name of `obj` (its host-associated copy). */
  ghost predicate PrivateCopy(t: SymbolTable, scope: ScopeId, obj: SymbolId, s: SymbolId) {
    obj < |t.symbols| && s < |t.symbols| &&
    (t.symbols[obj].owner == scope ==> s == obj) &&
    (t.symbols[obj].owner != scope ==>
      (scope, t.symbols[obj].name) in t.scopes && t.scopes[(scope, t.symbols[obj].name)] == s)
  }

  /** The index `obj` of one loop, as rewritten to `iv`: resolved exactly
      when named, and then the private symbol of the index in `scope`,
      carrying `flag` and `preDetermined` and recorded in `objects`. */
  ghost predicate IndexPrivatized(t: SymbolTable, scope: ScopeId, objects: map<SymbolId, Flag>,
                                  obj: Option<SymbolId>, iv: Option<SymbolId>, flag: Flag, preDetermined: Flag)
  {
    (iv.Some? <==> obj.Some?) &&
    (iv.Some? ==>
      PrivateCopy(t, scope, obj.value, iv.value) &&
      flag in t.symbols[iv.value].flags && preDetermined in t.symbols[iv.value].flags &&
      iv.value in objects)
  }

  /** The first `count` indices of a nest, as rewritten in `ivs`, are
      privatized in the top context; the other indices are as they were. */
  ghost predicate NestPrivatized(t: SymbolTable, contexts: seq<DirContext>, nest: seq<Option<SymbolId>>,
                                 ivs: seq<Option<SymbolId>>, count: nat, flag: Flag, preDetermined: Flag)
    requires |contexts| > 0
  {
    var top := contexts[|contexts| - 1];
    |ivs| == |nest| && count <= |nest| &&
    (forall j | 0 <= j < count ::
      IndexPrivatized(t, top.scope, top.objectWithDSA, nest[j], ivs[j], flag, preDetermined)) &&
    (forall j | count <= j < |nest| :: ivs[j] == nest[j])
  }

  /** A privatized index stays so as the table grows and the objects of
      the context only gain entries. */
  lemma IndexPrivatizedGrows(t: SymbolTable, u: SymbolTable, scope: ScopeId, objects: map<SymbolId, Flag>,
                             objects': map<SymbolId, Flag>, obj: Option<SymbolId>, iv: Option<SymbolId>,
                             flag: Flag, preDetermined: Flag)
    requires Grows(t, u) && objects.Keys <= objects'.Keys
    requires IndexPrivatized(t, scope, objects, obj, iv, flag, preDetermined)
    ensures IndexPrivatized(u, scope, objects', obj, iv, flag, preDetermined)
  {
    if iv.Some? {
      assert Extends(t.symbols[obj.value], u.symbols[obj.value]);
      assert Extends(t.symbols[iv.value], u.symbols[iv.value]);
    }
  }

  /** The private symbol of an index stays so as the table grows. */
  lemma PrivateCopyGrows(t: SymbolTable, u: SymbolTable, scope: ScopeId, obj: SymbolId, s: SymbolId)
    requires Grows(t, u) && PrivateCopy(t, scope, obj, s)
    ensures PrivateCopy(u, scope, obj, s)
  {
    assert Extends(t.symbols[obj], u.symbols[obj]);
  }

  /** A loop index resolved under a flag that declares a new symbol: its
      private symbol in the construct's scope, carrying the flag, with no
      other symbol changed. */
  lemma ResolvedIndex(t: SymbolTable, lang: Language, scope: ScopeId, iv: Option<SymbolId>, flag: Flag)
    requires t.Valid() && t.Has(iv) && flag in FlagsRequireNewSymbol(lang)
    ensures var r := Resolved(t, lang, scope, iv, flag, scope, None);
      (r.1.Some? <==> iv.Some?) &&
      (r.1.Some? ==> PrivateCopy(r.0, scope, iv.value, r.1.value) && flag in r.0.symbols[r.1.value].flags) &&
      (forall s | 0 <= s < |t.symbols| && Some(s) != r.1 :: r.0.symbols[s] == t.symbols[s])
  {
  }


  /** The effect of privatizing one loop index in the innermost context of
      `contexts`: the table after resolving the index and marking its
      private symbol `pre`, the contexts with that symbol recorded in the
      innermost one, and the symbol. */
  ghost function PrivatizedIndex(t: SymbolTable, contexts: seq<DirContext>, lang: Language,
                                 iv: Option<SymbolId>, flag: Flag, pre: Flag)
    : (SymbolTable, seq<DirContext>, Option<SymbolId>)
    requires t.Valid() && t.Has(iv) && |contexts| > 0
  {
    var scope := contexts[|contexts| - 1].scope;
    var (t1, symbol) := Resolved(t, lang, scope, iv, flag, scope, None);
    if symbol.Some? && symbol.value < |t1.symbols| then
      (WithFlag(t1, symbol.value, pre),
       contexts[|contexts| - 1 := WithDSA(contexts[|contexts| - 1], symbol.value, flag)],
       symbol)
    else (t1, contexts, symbol)
  }

  /** Privatizing an index keeps the table well formed and growing, only
      adds to the innermost context, and yields the index's private symbol
      in the innermost scope, carrying both flags and recorded in that
      context; no other existing symbol changes. */
  lemma PrivatizedIndexFacts(t: SymbolTable, contexts: seq<DirContext>, lang: Language,
                             iv: Option<SymbolId>, flag: Flag, pre: Flag)
    requires t.Valid() && t.Has(iv) && |contexts| > 0 && flag in FlagsRequireNewSymbol(lang)
    ensures var (u, cs, symbol) := PrivatizedIndex(t, contexts, lang, iv, flag, pre);
      var scope := contexts[|contexts| - 1].scope;
      u.Valid() && Grows(t, u) && OnlyTopGained(contexts, cs) &&
      (symbol.Some? <==> iv.Some?) &&
      (symbol.Some? ==>
        PrivateCopy(u, scope, iv.value, symbol.value) &&
        flag in u.symbols[symbol.value].flags && pre in u.symbols[symbol.value].flags &&
        symbol.value in cs[|cs| - 1].objectWithDSA) &&
      (forall s | 0 <= s < |t.symbols| && Some(s) != symbol :: u.symbols[s] == t.symbols[s])
  {
    var scope := contexts[|contexts| - 1].scope;
    var (t1, symbol) := Resolved(t, lang, scope, iv, flag, scope, None);
    ResolvedIndex(t, lang, scope, iv, flag);
    if symbol.Some? {
      var u := WithFlag(t1, symbol.value, pre);
      PrivateCopyGrows(t1, u, scope, iv.value, symbol.value);
      GrowsTransitive(t, t1, u);
    }
  }
  /** Of the symbols of `t`, only those among the first `count` entries of
      `ivs` differ in `u`. */
  ghost predicate OnlyIndicesChanged(t: SymbolTable, u: SymbolTable, ivs: seq<Option<SymbolId>>, count: nat)
    requires count <= |ivs| && |t.symbols| <= |u.symbols|
  {
    forall s | 0 <= s < |t.symbols| && Some(s) !in ivs[..count] :: u.symbols[s] == t.symbols[s]
  }

  lemma OnlyTopGainedTransitive(a: seq<DirContext>, b: seq<DirContext>, c: seq<DirContext>)
    requires OnlyTopGained(a, b) && OnlyTopGained(b, c)
    ensures OnlyTopGained(a, c)
  {
  }

  /** Privatizing one more index keeps the earlier ones privatized: flags
      are only added, scope entries kept and the top context only gains
      objects. */
  lemma NestPrivatizedStep(t: SymbolTable, contexts: seq<DirContext>, u: SymbolTable, next: seq<DirContext>,
                           nest: seq<Option<SymbolId>>, ivs: seq<Option<SymbolId>>, k: nat,
                           symbol: Option<SymbolId>, flag: Flag, preDetermined: Flag)
    requires |contexts| > 0 && NestPrivatized(t, contexts, nest, ivs, k, flag, preDetermined) && k < |nest|
    requires Grows(t, u) && OnlyTopGained(contexts, next)
    requires IndexPrivatized(u, next[|next| - 1].scope, next[|next| - 1].objectWithDSA, nest[k], symbol,
                             flag, preDetermined)
    ensures NestPrivatized(u, next, nest, ivs[k := symbol], k + 1, flag, preDetermined)
  {
    var ivs' := ivs[k := symbol];
    var top, top' := contexts[|contexts| - 1], next[|next| - 1];
    assert top'.scope == top.scope;
    forall j | 0 <= j < k
      ensures IndexPrivatized(u, top'.scope, top'.objectWithDSA, nest[j], ivs'[j], flag, preDetermined)
    {
      assert IndexPrivatized(t, top.scope, top.objectWithDSA, nest[j], ivs[j], flag, preDetermined);
      IndexPrivatizedGrows(t, u, top.scope, top.objectWithDSA, top'.objectWithDSA, nest[j], ivs[j],
                           flag, preDetermined);
    }
  }

  /** A step that changes no symbol but `symbol` keeps the others as they
      were at the start. */
  lemma OnlyIndicesChangedStep(t0: SymbolTable, t: SymbolTable, u: SymbolTable, ivs: seq<Option<SymbolId>>, k: nat,
                               symbol: Option<SymbolId>)
    requires k < |ivs| && |t0.symbols| <= |t.symbols| <= |u.symbols| && OnlyIndicesChanged(t0, t, ivs, k)
    requires forall s | 0 <= s < |t.symbols| && Some(s) != symbol :: u.symbols[s] == t.symbols[s]
    ensures OnlyIndicesChanged(t0, u, ivs[k := symbol], k + 1)
  {
    var ivs' := ivs[k := symbol];
    assert ivs'[..k + 1] == ivs[..k] + [symbol];
    forall s | 0 <= s < |t0.symbols| && Some(s) !in ivs'[..k + 1]
      ensures u.symbols[s] == t0.symbols[s]
    {
      assert Some(s) !in ivs[..k];
    }
  }

  /** Privatizing a loop nest with `flag` has got `count` loops deep: from
      the table `table0` and the stack `contexts0` to `t` and `contexts`. */
  ghost predicate NestProgress(table0: SymbolTable, contexts0: seq<DirContext>, t: SymbolTable,
                               contexts: seq<DirContext>, nest: seq<Option<SymbolId>>, ivs: seq<Option<SymbolId>>,
                               count: nat, flag: Flag, preDetermined: Flag)
  {
    |contexts| > 0 && t.Valid() && Grows(table0, t) && OnlyTopGained(contexts0, contexts) &&
    NestPrivatized(t, contexts, nest, ivs, count, flag, preDetermined) &&
    OnlyIndicesChanged(table0, t, ivs, count)
  }

  /** Privatizing the index at depth `k` as PrivatizeIndex does moves the
      progress one loop deeper. */
  lemma NestProgressStep(table0: SymbolTable, contexts0: seq<DirContext>, t: SymbolTable, contexts: seq<DirContext>,
                         u: SymbolTable, next: seq<DirContext>, nest: seq<Option<SymbolId>>,
                         ivs: seq<Option<SymbolId>>, k: nat, symbol: Option<SymbolId>, flag: Flag,
                         preDetermined: Flag)
    requires NestProgress(table0, contexts0, t, contexts, nest, ivs, k, flag, preDetermined) && k < |nest|
    requires u.Valid() && Grows(t, u) && OnlyTopGained(contexts, next)
    requires symbol.Some? <==> nest[k].Some?
    requires symbol.Some? ==>
      PrivateCopy(u, next[|next| - 1].scope, nest[k].value, symbol.value) &&
      flag in u.symbols[symbol.value].flags && preDetermined in u.symbols[symbol.value].flags &&
      symbol.value in next[|next| - 1].objectWithDSA
    requires forall s | 0 <= s < |t.symbols| && Some(s) != symbol :: u.symbols[s] == t.symbols[s]
    ensures NestProgress(table0, contexts0, u, next, nest, ivs[k := symbol], k + 1, flag, preDetermined)
  {
    assert IndexPrivatized(u, next[|next| - 1].scope, next[|next| - 1].objectWithDSA, nest[k], symbol,
                           flag, preDetermined);
    NestPrivatizedStep(t, contexts, u, next, nest, ivs, k, symbol, flag, preDetermined);
    OnlyIndicesChangedStep(table0, t, u, ivs, k, symbol);
    GrowsTransitive(table0, t, u);
    OnlyTopGainedTransitive(contexts0, contexts, next);
  }

  // ---------------------------------------------------------------------
  // The resolver state.

  /** The part of a directive resolver that changes while a program unit is
      walked: the context stack, the symbol table, the objects named in the
      data-sharing clauses of the current directive and the clause that set
      the associated loop level. */
  class DirectiveAttributeVisitor {
    const lang: Language
    var dirContext: seq<DirContext>
    var table: SymbolTable
    var dataSharingAttributeObjects: set<SymbolId>
    var privateDataSharingAttributeObjects: set<SymbolId>
    var associatedClause: Option<nat>

    ghost predicate Valid()
      reads this
    {
      table.Valid()
    }

    constructor(lang: Language, table: SymbolTable)
      requires table.Valid()
      ensures Valid() && this.lang == lang && this.table == table
      ensures dirContext == [] && dataSharingAttributeObjects == {}
      ensures privateDataSharingAttributeObjects == {} && associatedClause == None
    {
      this.lang := lang;
      this.table := table;
      dirContext := [];
      dataSharingAttributeObjects := {};
      privateDataSharingAttributeObjects := {};
      associatedClause := None;
    }

    /** The innermost context. */
    function GetContext(): (c: DirContext)
      reads this
      requires |dirContext| > 0
      ensures c in dirContext && c == dirContext[|dirContext| - 1]
    {
      dirContext[|dirContext| - 1]
    }

    function CurrScope(): ScopeId
      reads this
      requires |dirContext| > 0
    {
      GetContext().scope
    }

    method PushContext(directive: Directive, scope: ScopeId)
      modifies this
      ensures dirContext == old(dirContext) + [NewContext(directive, scope)]
      ensures GetContext() == NewContext(directive, scope)
      ensures table == old(table) && associatedClause == old(associatedClause)
      ensures dataSharingAttributeObjects == old(dataSharingAttributeObjects)
      ensures privateDataSharingAttributeObjects == old(privateDataSharingAttributeObjects)
    {
      dirContext := dirContext + [NewContext(directive, scope)];
    }

    method PopContext()
      requires |dirContext| > 0
      modifies this
      ensures dirContext == old(dirContext[..|dirContext| - 1])
      ensures table == old(table) && associatedClause == old(associatedClause)
      ensures dataSharingAttributeObjects == old(dataSharingAttributeObjects)
      ensures privateDataSharingAttributeObjects == old(privateDataSharingAttributeObjects)
    {
      dirContext := dirContext[..|dirContext| - 1];
    }

    method SetContextAssociatedLoopLevel(level: int)
      requires |dirContext| > 0
      modifies this
      ensures dirContext == old(dirContext[|dirContext| - 1 := GetContext().(associatedLoopLevel := level)])
      ensures table == old(table) && associatedClause == old(associatedClause)
      ensures dataSharingAttributeObjects == old(dataSharingAttributeObjects)
      ensures privateDataSharingAttributeObjects == old(privateDataSharingAttributeObjects)
    {
      dirContext := dirContext[|dirContext| - 1 := GetContext().(associatedLoopLevel := level)];
    }

    method AddToContextObjectWithDSA(symbol: SymbolId, flag: Flag, context: nat)
      requires context < |dirContext|
      modifies this
      ensures dirContext == old(dirContext[context := WithDSA(dirContext[context], symbol, flag)])
      ensures table == old(table) && associatedClause == old(associatedClause)
      ensures dataSharingAttributeObjects == old(dataSharingAttributeObjects)
      ensures privateDataSharingAttributeObjects == old(privateDataSharingAttributeObjects)
    {
      var c := dirContext[context];
      if symbol !in c.objectWithDSA {
        c := c.(objectWithDSA := c.objectWithDSA[symbol := flag]);
      }
      dirContext := dirContext[context := c];
    }

    method ClearDataSharingAttributeObjects()
      modifies this
      ensures dataSharingAttributeObjects == {}
      ensures dirContext == old(dirContext) && table == old(table) && associatedClause == old(associatedClause)
      ensures privateDataSharingAttributeObjects == old(privateDataSharingAttributeObjects)
    {
      dataSharingAttributeObjects := {};
    }

    method ClearPrivateDataSharingAttributeObjects()
      modifies this
      ensures privateDataSharingAttributeObjects == {}
      ensures dirContext == old(dirContext) && table == old(table) && associatedClause == old(associatedClause)
      ensures dataSharingAttributeObjects == old(dataSharingAttributeObjects)
    {
      privateDataSharingAttributeObjects := {};
    }

    /** Sets `flag` on symbol `s`. */
    method SetFlag(s: SymbolId, flag: Flag)
      requires s < |table.symbols|
      modifies this
      ensures table == WithFlag(old(table), s, flag)
      ensures dirContext == old(dirContext) && associatedClause == old(associatedClause)
      ensures dataSharingAttributeObjects == old(dataSharingAttributeObjects)
      ensures privateDataSharingAttributeObjects == old(privateDataSharingAttributeObjects)
    {
      var sym := table.symbols[s];
      table := table.(symbols := table.symbols[s := sym.(flags := sym.flags + {flag})]);
    }

    method MakeAssocSymbol(name: string, prev: SymbolId, scope: ScopeId) returns (symbol: SymbolId)
      requires Valid() && prev < |table.symbols|
      modifies this
      ensures Valid()
      ensures (table, symbol) == AssocSymbol(old(table), name, prev, scope)
      ensures dirContext == old(dirContext) && associatedClause == old(associatedClause)
      ensures dataSharingAttributeObjects == old(dataSharingAttributeObjects)
      ensures privateDataSharingAttributeObjects == old(privateDataSharingAttributeObjects)
    {
      if (scope, name) in table.scopes {
        symbol := table.scopes[(scope, name)];
      } else {
        symbol := |table.symbols|;
        table := SymbolTable(table.symbols + [Symbol(name, scope, {}, Some(prev))],
                             table.scopes[(scope, name) := symbol]);
      }
    }

    method DeclarePrivateAccessEntity(obj: SymbolId, flag: Flag, scope: ScopeId) returns (symbol: SymbolId)
      requires Valid() && obj < |table.symbols| && |dirContext| > 0
      modifies this
      ensures Valid()
      ensures (table, symbol) == PrivateEntity(old(table), old(CurrScope()), obj, flag, scope)
      ensures dirContext == old(dirContext) && associatedClause == old(associatedClause)
      ensures dataSharingAttributeObjects == old(dataSharingAttributeObjects)
      ensures privateDataSharingAttributeObjects == old(privateDataSharingAttributeObjects)
    {
      if table.symbols[obj].owner != CurrScope() {
        symbol := MakeAssocSymbol(table.symbols[obj].name, obj, scope);
        SetFlag(symbol, flag);
      } else {
        SetFlag(obj, flag);
        symbol := obj;
      }
    }

    method DeclarePrivateAccessEntityByName(name: Option<SymbolId>, flag: Flag, scope: ScopeId)
      returns (symbol: Option<SymbolId>)
      requires Valid() && table.Has(name) && |dirContext| > 0
      modifies this
      ensures Valid()
      ensures (table, symbol) == PrivateEntityByName(old(table), old(CurrScope()), name, flag, scope)
      ensures dirContext == old(dirContext) && associatedClause == old(associatedClause)
      ensures dataSharingAttributeObjects == old(dataSharingAttributeObjects)
      ensures privateDataSharingAttributeObjects == old(privateDataSharingAttributeObjects)
    {
      if name.None? {
        return None;
      }
      var s := DeclarePrivateAccessEntity(name.value, flag, scope);
      symbol := Some(s);
    }

    /** ResolveOmp or ResolveAcc on a name; `found` is what looking the
        name up from the current scope gives. */
    method Resolve(name: Option<SymbolId>, flag: Flag, scope: ScopeId, found: Option<SymbolId>)
      returns (symbol: Option<SymbolId>)
      requires Valid() && table.Has(name) && table.Has(found) && |dirContext| > 0
      modifies this
      ensures Valid()
      ensures (table, symbol) == Resolved(old(table), lang, old(CurrScope()), name, flag, scope, found)
      ensures dirContext == old(dirContext) && associatedClause == old(associatedClause)
      ensures dataSharingAttributeObjects == old(dataSharingAttributeObjects)
      ensures privateDataSharingAttributeObjects == old(privateDataSharingAttributeObjects)
    {
      if flag in FlagsRequireNewSymbol(lang) {
        symbol := DeclarePrivateAccessEntityByName(name, flag, scope);
      } else if name.None? || found.None? {
        symbol := None;
      } else {
        if flag in FlagsRequireMark(lang) {
          SetFlag(found.value, flag);
        }
        symbol := found;
      }
    }

    /** Records the obj named in a data-sharing clause of the current
        directive, or reports that it already appeared in one. */
    method CheckMultipleAppearances(symbol: SymbolId, flag: Flag) returns (diagnosed: bool)
      requires Valid() && symbol < |table.symbols|
      modifies this
      ensures table == old(table) && dirContext == old(dirContext) && associatedClause == old(associatedClause)
      ensures var target := AppearanceTarget(table, lang, symbol, flag);
        (diagnosed <==> target in old(dataSharingAttributeObjects) &&
                        !WithMultipleAppearancesException(lang, table.symbols[symbol].flags, flag)) &&
        (diagnosed ==> dataSharingAttributeObjects == old(dataSharingAttributeObjects) &&
                       privateDataSharingAttributeObjects == old(privateDataSharingAttributeObjects)) &&
        (!diagnosed ==>
          dataSharingAttributeObjects == old(dataSharingAttributeObjects) + {target} &&
          privateDataSharingAttributeObjects == old(privateDataSharingAttributeObjects) +
            (if lang == OpenMP && flag in OmpPrivateDataSharingAttributeFlags then {target} else {}))
    {
      var target := symbol;
      if flag in FlagsRequireNewSymbol(lang) {
        if table.symbols[symbol].hostAssoc.Some? {
          target := table.symbols[symbol].hostAssoc.value;
        }
      }
      if target in dataSharingAttributeObjects &&
         !WithMultipleAppearancesException(lang, table.symbols[symbol].flags, flag) {
        diagnosed := true;
      } else {
        diagnosed := false;
        dataSharingAttributeObjects := dataSharingAttributeObjects + {target};
        if lang == OpenMP && flag in OmpPrivateDataSharingAttributeFlags {
          privateDataSharingAttributeObjects := privateDataSharingAttributeObjects + {target};
        }
      }
    }

    /** Searches the stack from the top for a parallel or task-generating
        directive. */
    method FindInnermostParallelOrTask() returns (target: Option<nat>)
      ensures target == InnermostParallelOrTask(dirContext)
    {
      var i := |dirContext|;
      while true
        invariant 0 <= i <= |dirContext|
        invariant InnermostParallelOrTask(dirContext) == InnermostParallelOrTask(dirContext[..i])
        decreases i
      {
        if i == 0 {
          return None;
        }
        if ParallelOrTask(dirContext[i - 1].directive) {
          return Some(i - 1);
        }
        assert dirContext[..i - 1] == dirContext[..i][..i - 1];
        i := i - 1;
      }
    }

    method ResolveSeqLoopIndexInParallelOrTaskConstruct(iv: Option<SymbolId>) returns (newIv: Option<SymbolId>)
      requires lang == OpenMP && Valid() && table.Has(iv)
      modifies this
      ensures Valid()
      ensures Resolution(table, dirContext, newIv) == SeqLoopIndexResolved(old(table), old(dirContext), iv)
      ensures associatedClause == old(associatedClause)
      ensures dataSharingAttributeObjects == old(dataSharingAttributeObjects)
      ensures privateDataSharingAttributeObjects == old(privateDataSharingAttributeObjects)
    {
      var innermost := FindInnermostParallelOrTask();
      if innermost.None? {
        return iv;
      }
      var target := innermost.value;
      ghost var contexts0 := dirContext;
      var symbol := Resolve(iv, OmpPrivate, dirContext[target].scope, None);
      if symbol.None? {
        return iv;
      }
      SetFlag(symbol.value, OmpPreDetermined);
      newIv := symbol;
      ghost var table1 := table;
      var it := |dirContext|;
      assert PrivateFrom(contexts0, it, symbol.value) == contexts0;
      while it != target
        invariant target <= it <= |dirContext| == |contexts0|
        invariant dirContext == PrivateFrom(contexts0, it, symbol.value)
        invariant table == table1
        invariant associatedClause == old(associatedClause)
        invariant dataSharingAttributeObjects == old(dataSharingAttributeObjects)
        invariant privateDataSharingAttributeObjects == old(privateDataSharingAttributeObjects)
        decreases it
      {
        it := it - 1;
        AddToContextObjectWithDSA(symbol.value, OmpPrivate, it);
      }
    }

    /** A normal DO loop inside a construct whose index has no predetermined
        attribute yet is resolved as a sequential loop. */
    method PreDoConstruct(isDoNormal: bool, iv: Option<SymbolId>) returns (newIv: Option<SymbolId>)
      requires lang == OpenMP && Valid() && table.Has(iv)
      modifies this
      ensures Valid()
      ensures old(isDoNormal && |dirContext| > 0 && GetContext().withinConstruct && iv.Some? &&
                  OmpPreDetermined !in table.symbols[iv.value].flags) ==>
        Resolution(table, dirContext, newIv) == SeqLoopIndexResolved(old(table), old(dirContext), iv)
      ensures !old(isDoNormal && |dirContext| > 0 && GetContext().withinConstruct && iv.Some? &&
                   OmpPreDetermined !in table.symbols[iv.value].flags) ==>
        table == old(table) && dirContext == old(dirContext) && newIv == iv
      ensures associatedClause == old(associatedClause)
      ensures dataSharingAttributeObjects == old(dataSharingAttributeObjects)
      ensures privateDataSharingAttributeObjects == old(privateDataSharingAttributeObjects)
    {
      newIv := iv;
      if isDoNormal && |dirContext| > 0 && GetContext().withinConstruct && iv.Some? {
        if OmpPreDetermined !in table.symbols[iv.value].flags {
          newIv := ResolveSeqLoopIndexInParallelOrTaskConstruct(iv);
        }
      }
    }

    /** The OpenMP associated loop level of a clause list; remembers the
        clause that decided it. */
    method GetAssociatedLoopLevelFromClauses(clauses: seq<OmpClause>) returns (level: int)
      requires lang == OpenMP
      modifies this
      ensures level == OmpAssociatedLoopLevel(LastLevel(clauses, true), LastLevel(clauses, false))
      ensures associatedClause ==
        (if ChosenClause(clauses).Some? then ChosenClause(clauses) else old(associatedClause))
      ensures table == old(table) && dirContext == old(dirContext)
      ensures dataSharingAttributeObjects == old(dataSharingAttributeObjects)
      ensures privateDataSharingAttributeObjects == old(privateDataSharingAttributeObjects)
    {
      var orderedLevel := 0;
      var collapseLevel := 0;
      var ordClause: Option<nat> := None;
      var collClause: Option<nat> := None;
      var i := 0;
      while i < |clauses|
        invariant 0 <= i <= |clauses|
        invariant orderedLevel == LastLevel(clauses[..i], true)
        invariant collapseLevel == LastLevel(clauses[..i], false)
        invariant ordClause == LastClause(clauses[..i], true)
        invariant collClause == LastClause(clauses[..i], false)
      {
        var c := clauses[i];
        if c.Ordered? {
          if c.arg.Some? {
            orderedLevel := c.arg.value;
          }
          ordClause := Some(i);
        }
        if c.Collapse? {
          if c.arg.Some? {
            collapseLevel := c.arg.value;
          }
          collClause := Some(i);
        }
        assert clauses[..i + 1][..i] == clauses[..i];
        i := i + 1;
      }
      assert clauses[..i] == clauses;
      if orderedLevel != 0 && (collapseLevel == 0 || orderedLevel >= collapseLevel) {
        associatedClause := ordClause;
        return orderedLevel;
      } else if orderedLevel == 0 && collapseLevel != 0 {
        associatedClause := collClause;
        return collapseLevel;
      }
      return 1;
    }

    /** Privatizes one loop index in the innermost context: the private
        symbol of the index in the current scope, given `flag` and
        `preDetermined` and recorded in the innermost context. */
    method PrivatizeIndex(iv: Option<SymbolId>, flag: Flag, preDetermined: Flag) returns (symbol: Option<SymbolId>)
      requires Valid() && |dirContext| > 0 && table.Has(iv)
      requires flag in FlagsRequireNewSymbol(lang)
      modifies this
      ensures Valid()
      ensures (table, dirContext, symbol) == PrivatizedIndex(old(table), old(dirContext), lang, iv, flag, preDetermined)
      ensures associatedClause == old(associatedClause)
      ensures dataSharingAttributeObjects == old(dataSharingAttributeObjects)
      ensures privateDataSharingAttributeObjects == old(privateDataSharingAttributeObjects)
    {
      symbol := Resolve(iv, flag, CurrScope(), None);
      if symbol.Some? {
        SetFlag(symbol.value, preDetermined);
        AddToContextObjectWithDSA(symbol.value, flag, |dirContext| - 1);
      }
    }

    /** The fields loop-index privatization leaves alone. */
    function Untouched(): (Option<nat>, set<SymbolId>, set<SymbolId>)
      reads this
    {
      (associatedClause, dataSharingAttributeObjects, privateDataSharingAttributeObjects)
    }

    /** Privatizing a loop nest has got `count` loops deep, starting from
        the table `table0` and the stack `contexts0`. */
    ghost predicate Privatizing(table0: SymbolTable, contexts0: seq<DirContext>, nest: seq<Option<SymbolId>>,
                                ivs: seq<Option<SymbolId>>, count: nat, flag: Flag, preDetermined: Flag)
      reads this
    {
      NestProgress(table0, contexts0, table, dirContext, nest, ivs, count, flag, preDetermined)
    }

    /** Privatizes the indices of the loops of a nest with `flag`, one loop
        per level, stopping at the first body that is not a DO loop. */
    method PrivatizeLoopNest(nest: seq<Option<SymbolId>>, flag: Flag, preDetermined: Flag, level: int)
      returns (newIvs: seq<Option<SymbolId>>, leftover: int)
      requires Valid() && |dirContext| > 0 && AllIn(table, nest) && level > 0
      requires flag in FlagsRequireNewSymbol(lang)
      modifies this
      ensures Valid()
      ensures leftover == if level < |nest| then 0 else level - |nest|
      ensures Privatizing(old(table), old(dirContext), nest, newIvs, level - leftover, flag, preDetermined)
      ensures Untouched() == old(Untouched())
    {
      leftover := level;
      newIvs := nest;
      var k := 0;
      assert Privatizing(table, dirContext, nest, newIvs, 0, flag, preDetermined) by {
        assert Grows(table, table) && OnlyTopGained(dirContext, dirContext);
      }
      while k < |nest| && leftover > 0
        invariant 0 <= k <= |nest| && leftover == level - k
        invariant Privatizing(old(table), old(dirContext), nest, newIvs, k, flag, preDetermined)
        invariant Untouched() == old(Untouched())
      {
        assert old(table).Has(nest[k]);
        newIvs := PrivatizeNestLevel(nest, newIvs, k, flag, preDetermined, old(table), old(dirContext));
        k := k + 1;
        leftover := leftover - 1;
      }
    }

    /** One pass of the loop of PrivatizeLoopNest: the index of the loop at
        depth `k` is privatized. */
    method PrivatizeNestLevel(nest: seq<Option<SymbolId>>, ivs: seq<Option<SymbolId>>, k: nat, flag: Flag,
                              preDetermined: Flag, ghost table0: SymbolTable, ghost contexts0: seq<DirContext>)
      returns (ivs': seq<Option<SymbolId>>)
      requires Privatizing(table0, contexts0, nest, ivs, k, flag, preDetermined)
      requires k < |nest| && table0.Has(nest[k]) && flag in FlagsRequireNewSymbol(lang)
      modifies this
      ensures Privatizing(table0, contexts0, nest, ivs', k + 1, flag, preDetermined)
      ensures Untouched() == old(Untouched())
    {
      assert table.Has(nest[k]);
      var symbol := PrivatizeIndex(nest[k], flag, preDetermined);
      ivs' := ivs[k := symbol];
      PrivatizedIndexFacts(old(table), old(dirContext), lang, nest[k], flag, preDetermined);
      NestProgressStep(table0, contexts0, old(table), old(dirContext), table, dirContext, nest, ivs, k, symbol,
                       flag, preDetermined);
    }

    method PrivatizeAssociatedLoopIndexAndCheckLoopLevel(nest: seq<Option<SymbolId>>)
      returns (newIvs: seq<Option<SymbolId>>, diagnosed: bool)
      requires lang == OpenMP && Valid() && |dirContext| > 0 && AllIn(table, nest)
      requires GetContext().associatedLoopLevel > 0 ==> |nest| > 0
      modifies this
      ensures Valid()
      ensures var level := old(GetContext().associatedLoopLevel);
        var flag := LoopIndexDSA(old(GetContext().directive.inSimdSet), level);
        var visited := if level < |nest| then level else |nest|;
        if level <= 0 then
          table == old(table) && dirContext == old(dirContext) && newIvs == nest && !diagnosed
        else
          Grows(old(table), table) && OnlyTopGained(old(dirContext), dirContext) &&
          NestPrivatized(table, dirContext, nest, newIvs, visited, flag, OmpPreDetermined) &&
          OnlyIndicesChanged(old(table), table, newIvs, visited) &&
          (diagnosed <==> associatedClause.Some? && level > |nest|)
      ensures associatedClause == old(associatedClause)
      ensures dataSharingAttributeObjects == old(dataSharingAttributeObjects)
      ensures privateDataSharingAttributeObjects == old(privateDataSharingAttributeObjects)
    {
      var level := GetContext().associatedLoopLevel;
      if level <= 0 {
        return nest, false;
      }
      var ivDSA := LoopIndexDSA(GetContext().directive.inSimdSet, level);
      LoopIndexDSANeedsNewSymbol(GetContext().directive.inSimdSet, level);
      var leftover;
      newIvs, leftover := PrivatizeLoopNest(nest, ivDSA, OmpPreDetermined, level);
      diagnosed := CheckAssocLoopLevel(leftover, associatedClause);
    }

    /** The OpenACC counterpart; the nest must hold as many loops as the
        level asks for, which `leftover == 0` states. */
    method PrivatizeAssociatedLoopIndex(nest: seq<Option<SymbolId>>)
      returns (newIvs: seq<Option<SymbolId>>, leftover: int)
      requires lang == OpenACC && Valid() && |dirContext| > 0 && AllIn(table, nest)
      requires GetContext().associatedLoopLevel > 0 ==> |nest| > 0
      modifies this
      ensures Valid()
      ensures var level := old(GetContext().associatedLoopLevel);
        var visited := if level < |nest| then level else |nest|;
        if level <= 0 then
          table == old(table) && dirContext == old(dirContext) && newIvs == nest && leftover == level
        else
          Grows(old(table), table) && OnlyTopGained(old(dirContext), dirContext) &&
          NestPrivatized(table, dirContext, nest, newIvs, visited, AccPrivate, AccPreDetermined) &&
          OnlyIndicesChanged(old(table), table, newIvs, visited) &&
          (leftover == 0 <==> level <= |nest|)
      ensures associatedClause == old(associatedClause)
      ensures dataSharingAttributeObjects == old(dataSharingAttributeObjects)
      ensures privateDataSharingAttributeObjects == old(privateDataSharingAttributeObjects)
    {
      var level := GetContext().associatedLoopLevel;
      if level <= 0 {
        return nest, level;
      }
      newIvs, leftover := PrivatizeLoopNest(nest, AccPrivate, AccPreDetermined, level);
    }
  }

  /** The symbol whose appearances are counted: the host symbol of a private
      copy for flags that declare one, the symbol itself otherwise. */
  function AppearanceTarget(t: SymbolTable, lang: Language, symbol: SymbolId, flag: Flag): (target: SymbolId)
    requires symbol < |t.symbols|
    ensures target == symbol || (flag in FlagsRequireNewSymbol(lang) && t.symbols[symbol].hostAssoc == Some(target))
    ensures flag in FlagsRequireNewSymbol(lang) && t.symbols[symbol].hostAssoc.Some? ==>
      target == t.symbols[symbol].hostAssoc.value
  {
    if flag in FlagsRequireNewSymbol(lang) && t.symbols[symbol].hostAssoc.Some? then
      t.symbols[symbol].hostAssoc.value
    else symbol
  }

  /** A second appearance is allowed only to pair FIRSTPRIVATE with
      LASTPRIVATE, in OpenMP. */
  function WithMultipleAppearancesException(lang: Language, symbolFlags: set<Flag>, flag: Flag): (allowed: bool)
    ensures allowed <==>
      lang == OpenMP && flag in {OmpFirstPrivate, OmpLastPrivate} &&
      {OmpFirstPrivate, OmpLastPrivate} <= symbolFlags + {flag}
  {
    match lang
    case OpenMP =>
      (flag == OmpFirstPrivate && OmpLastPrivate in symbolFlags) ||
      (flag == OmpLastPrivate && OmpFirstPrivate in symbolFlags)
    case OpenACC => false
  }
}
