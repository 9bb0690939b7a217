/** Acts of hidden works: the object's number sequence, the state of the generated file, the preparation method and the forward gate. */
module Aosr {
  import opened Wrappers

  type ObjectId = nat
  type PackageId = nat
  type ActId = nat

  datatype Error = NotFound | IdentifierTaken | ContentFrozen | MethodUnset | MethodExternal | ActsExist | VersionConflict | NothingToChange
                 | LinkRefused | Numbered | NotReady | RenderFailed

  datatype Method = Core | External

  /** Method declarations are only ever appended; the last one counts. */
  datatype Package = Package(site: ObjectId, methods: seq<Method>)

  datatype Act = Act(package: PackageId, version: nat, number: Option<nat>, revisions: nat, generatedAt: Option<nat>, hasDocument: bool)

  datatype Store = Store(packages: map<PackageId, Package>, acts: map<ActId, Act>, counters: map<ObjectId, nat>)

  const EMPTY_STORE := Store(map[], map[], map[])

  datatype Event =
    | AddPackage(package: PackageId, site: ObjectId)
    | SetMethod(package: PackageId, mode: Method, held: bool)
    | CreateAct(act: ActId, package: PackageId, open: bool)
    | Edit(act: ActId, version: nat, open: bool, fields: nat)
    | SetLinks(act: ActId, version: nat, open: bool, linksFit: bool)
    | Remove(act: ActId, open: bool)
    | Generate(act: ActId, version: nat, open: bool, ready: bool, rendered: bool)

  // ---------------------------------------------------------------- operations

  function CurrentMethod(p: Package): Option<Method> { if p.methods == [] then None else Some(p.methods[|p.methods| - 1]) }

  /** The generator exists only for a package that chose it. */
  function CoreProblem(s: Store, id: PackageId): Option<Error> {
    if id !in s.packages then Some(NotFound)
    else match CurrentMethod(s.packages[id])
         case None => Some(MethodUnset)
         case Some(External) => Some(MethodExternal)
         case Some(Core) => None
  }

  predicate HasActs(s: Store, id: PackageId) { exists a :: a in s.acts && s.acts[a].package == id }

  function DoSetMethod(s: Store, id: PackageId, m: Method, held: bool): Result<Store, Error> {
    if id !in s.packages then Err(NotFound)
    else if held then Err(ContentFrozen)
    else if CurrentMethod(s.packages[id]) == Some(m) then Ok(s)
    else if m == External && HasActs(s, id) then Err(ActsExist)
    else Ok(s.(packages := s.packages[id := s.packages[id].(methods := s.packages[id].methods + [m])]))
  }

  function DoCreateAct(s: Store, a: ActId, id: PackageId, open: bool): Result<Store, Error> {
    if id !in s.packages then Err(NotFound)
    else if !open then Err(ContentFrozen)
    else if CoreProblem(s, id).Some? then Err(CoreProblem(s, id).value)
    else if a in s.acts then Err(IdentifierTaken)
    else Ok(s.(acts := s.acts[a := Act(id, 1, None, 0, None, false)]))
  }

  function Changed(s: Store, a: ActId, act: Act): Store { s.(acts := s.acts[a := act]) }

  function DoEdit(s: Store, a: ActId, version: nat, open: bool, fields: nat): Result<Store, Error> {
    if a !in s.acts then Err(NotFound)
    else if !open then Err(ContentFrozen)
    else if s.acts[a].version != version then Err(VersionConflict)
    else if fields == 0 then Err(NothingToChange)
    else Ok(Changed(s, a, s.acts[a].(version := version + 1)))
  }

  function DoSetLinks(s: Store, a: ActId, version: nat, open: bool, linksFit: bool): Result<Store, Error> {
    if a !in s.acts then Err(NotFound)
    else if !open then Err(ContentFrozen)
    else if s.acts[a].version != version then Err(VersionConflict)
    else if !linksFit then Err(LinkRefused)
    else Ok(Changed(s, a, s.acts[a].(version := version + 1)))
  }

  function DoRemove(s: Store, a: ActId, open: bool): Result<Store, Error> {
    if a !in s.acts then Err(NotFound)
    else if !open then Err(ContentFrozen)
    else if s.acts[a].number.Some? || s.acts[a].hasDocument then Err(Numbered)
    else Ok(s.(acts := s.acts - {a}))
  }

  function LastNumber(s: Store, site: ObjectId): nat { if site in s.counters then s.counters[site] else 0 }

  /** The number is taken on the first generation; a later one keeps it. A file that does not render undoes the whole transaction. */
  function DoGenerate(s: Store, a: ActId, version: nat, open: bool, ready: bool, rendered: bool): Result<Store, Error> {
    if a !in s.acts then Err(NotFound)
    else if !open then Err(ContentFrozen)
    else if CoreProblem(s, s.acts[a].package).Some? then Err(CoreProblem(s, s.acts[a].package).value)
    else if s.acts[a].version != version then Err(VersionConflict)
    else if !ready then Err(NotReady)
    else if !rendered then Err(RenderFailed)
    else Ok(Generated(s, a))
  }

  function Generated(s: Store, a: ActId): Store
    requires a in s.acts && s.acts[a].package in s.packages
  {
    var act, site := s.acts[a], s.packages[s.acts[a].package].site;
    var number := if act.number.Some? then act.number.value else LastNumber(s, site) + 1;
    var counters := if act.number.Some? then s.counters else s.counters[site := number];
    s.(counters := counters,
       acts := s.acts[a := Act(act.package, act.version + 1, Some(number), act.revisions + 1, Some(act.version + 1), true)])
  }

  function Step(s: Store, e: Event): Result<Store, Error> {
    match e
    case AddPackage(id, site) => if id in s.packages then Err(IdentifierTaken) else Ok(s.(packages := s.packages[id := Package(site, [])]))
    case SetMethod(id, m, held) => DoSetMethod(s, id, m, held)
    case CreateAct(a, id, open) => DoCreateAct(s, a, id, open)
    case Edit(a, version, open, fields) => DoEdit(s, a, version, open, fields)
    case SetLinks(a, version, open, linksFit) => DoSetLinks(s, a, version, open, linksFit)
    case Remove(a, open) => DoRemove(s, a, open)
    case Generate(a, version, open, ready, rendered) => DoGenerate(s, a, version, open, ready, rendered)
  }

  function After(s: Store, e: Event): Store {
    var r := Step(s, e);
    if r.Ok? then r.value else s
  }

  function Run(es: seq<Event>): Store { if es == [] then EMPTY_STORE else After(Run(es[..|es| - 1]), es[|es| - 1]) }

  // ---------------------------------------------------------------- the invariant

  function SiteOf(s: Store, a: ActId): ObjectId
    requires a in s.acts && s.acts[a].package in s.packages
  {
    s.packages[s.acts[a].package].site
  }

  predicate IsNumbered(s: Store, a: ActId, site: ObjectId, n: nat) {
    a in s.acts && s.acts[a].package in s.packages && SiteOf(s, a) == site && s.acts[a].number == Some(n)
  }

  ghost predicate HasNumber(s: Store, site: ObjectId, n: nat) { exists a :: IsNumbered(s, a, site, n) }

  ghost predicate ActFits(s: Store, a: ActId)
    requires a in s.acts
  {
    var act := s.acts[a];
    && act.package in s.packages
    && (act.number.Some? <==> act.revisions > 0) && (act.number.Some? <==> act.generatedAt.Some?) && (act.number.Some? <==> act.hasDocument)
    && (act.generatedAt.Some? ==> act.generatedAt.value <= act.version)
    && (act.number.Some? ==> 1 <= act.number.value <= LastNumber(s, SiteOf(s, a)))
  }

  /** The numbers of an object are exactly 1 to the counter, each on one act. */
  ghost predicate NumbersFit(s: Store) {
    && (forall site, n: nat :: 1 <= n <= LastNumber(s, site) ==> HasNumber(s, site, n))
    && (forall a, b, site, n: nat :: IsNumbered(s, a, site, n) && IsNumbered(s, b, site, n) ==> a == b)
  }

  ghost predicate MethodFits(s: Store) { forall id :: id in s.packages && CurrentMethod(s.packages[id]) == Some(External) ==> !HasActs(s, id) }

  ghost predicate ActsFit(s: Store) { forall a :: a in s.acts ==> ActFits(s, a) }

  ghost predicate Inv(s: Store) { ActsFit(s) && NumbersFit(s) && MethodFits(s) }

  /** Everything the numbering depends on is as before. */
  lemma SameNumbers(s: Store, t: Store)
    requires NumbersFit(s) && t.counters == s.counters
    requires forall a, site, n: nat :: IsNumbered(t, a, site, n) <==> IsNumbered(s, a, site, n)
    ensures NumbersFit(t)
  {
    forall site, n: nat | 1 <= n <= LastNumber(t, site) ensures HasNumber(t, site, n) {
      assert HasNumber(s, site, n);
      var a :| IsNumbered(s, a, site, n);
      assert IsNumbered(t, a, site, n);
    }
  }

  lemma PackageEventKeepsActs(s: Store, e: Event)
    requires Inv(s) && Step(s, e).Ok? && (e.AddPackage? || e.SetMethod?)
    ensures ActsFit(After(s, e)) && MethodFits(After(s, e))
  {
    var t := After(s, e);
    forall a | a in t.acts ensures ActFits(t, a) { assert ActFits(s, a); }
    forall id | id in t.packages && CurrentMethod(t.packages[id]) == Some(External) ensures !HasActs(t, id) {
      assert id in s.packages && s.packages[id] == t.packages[id] ==> !HasActs(s, id);
      assert id !in s.packages ==> forall a :: a in s.acts ==> ActFits(s, a);
    }
  }

  lemma PackageEventKeepsNumbers(s: Store, e: Event)
    requires Inv(s) && Step(s, e).Ok? && (e.AddPackage? || e.SetMethod?)
    ensures NumbersFit(After(s, e))
  {
    var t := After(s, e);
    forall a, site, n: nat ensures IsNumbered(t, a, site, n) <==> IsNumbered(s, a, site, n) { assert a in s.acts ==> ActFits(s, a); }
    SameNumbers(s, t);
  }

  lemma PackageEventKeeps(s: Store, e: Event)
    requires Inv(s) && Step(s, e).Ok? && (e.AddPackage? || e.SetMethod?)
    ensures Inv(After(s, e))
  {
    PackageEventKeepsActs(s, e);
    PackageEventKeepsNumbers(s, e);
  }

  lemma ActEventKeepsNumbers(s: Store, e: Event)
    requires Inv(s) && Step(s, e).Ok? && (e.CreateAct? || e.Edit? || e.SetLinks? || e.Remove?)
    ensures NumbersFit(After(s, e))
  {
    SameNumbers(s, After(s, e));
  }

  lemma ActEventKeepsActs(s: Store, e: Event)
    requires Inv(s) && Step(s, e).Ok? && (e.CreateAct? || e.Edit? || e.SetLinks? || e.Remove?)
    ensures ActsFit(After(s, e)) && MethodFits(After(s, e))
  {
    var t := After(s, e);
    forall id | id in t.packages && CurrentMethod(t.packages[id]) == Some(External) ensures !HasActs(t, id) {
      assert !HasActs(s, id);
      assert forall a :: a in t.acts && a in s.acts ==> t.acts[a].package == s.acts[a].package;
    }
  }

  lemma GenerateKeepsNumbers(s: Store, a: ActId)
    requires Inv(s) && a in s.acts && s.acts[a].package in s.packages
    ensures NumbersFit(Generated(s, a))
  {
    var t, site := Generated(s, a), SiteOf(s, a);
    assert ActFits(s, a);
    forall b, x, n: nat ensures IsNumbered(t, b, x, n) <==> IsNumbered(s, b, x, n) || (s.acts[a].number.None? && b == a && x == site && n == LastNumber(s, site) + 1) {
    }
    if s.acts[a].number.Some? {
      SameNumbers(s, t);
    } else {
      FirstNumberFits(s, t, a, site);
    }
  }

  lemma FirstNumberFits(s: Store, t: Store, a: ActId, site: ObjectId)
    requires ActsFit(s) && NumbersFit(s)
    requires forall b, x, n: nat :: IsNumbered(t, b, x, n) <==> IsNumbered(s, b, x, n) || (b == a && x == site && n == LastNumber(s, site) + 1)
    requires t.counters == s.counters[site := LastNumber(s, site) + 1]
    ensures NumbersFit(t)
  {
    forall x, n: nat | 1 <= n <= LastNumber(t, x) ensures HasNumber(t, x, n) {
      if x == site && n == LastNumber(s, site) + 1 {
        assert IsNumbered(t, a, x, n);
      } else {
        assert HasNumber(s, x, n);
        var b :| IsNumbered(s, b, x, n);
        assert IsNumbered(t, b, x, n);
      }
    }
    forall b, x, n: nat | IsNumbered(s, b, x, n) ensures n <= LastNumber(s, x) { assert ActFits(s, b); }
  }

  lemma GenerateKeepsActs(s: Store, a: ActId)
    requires Inv(s) && a in s.acts && s.acts[a].package in s.packages
    ensures ActsFit(Generated(s, a)) && MethodFits(Generated(s, a))
  {
    var t, site := Generated(s, a), SiteOf(s, a);
    forall b | b in t.acts ensures ActFits(t, b) {
      assert ActFits(s, b);
      assert LastNumber(t, SiteOf(s, b)) >= LastNumber(s, SiteOf(s, b));
    }
    forall id | id in t.packages && CurrentMethod(t.packages[id]) == Some(External) ensures !HasActs(t, id) {
      assert !HasActs(s, id);
      assert forall b :: b in t.acts ==> t.acts[b].package == s.acts[b].package;
    }
  }

  lemma StepKeepsInvariant(s: Store, e: Event)
    requires Inv(s)
    ensures Inv(After(s, e))
  {
    if Step(s, e).Ok? {
      if e.AddPackage? || e.SetMethod? {
        PackageEventKeeps(s, e);
      } else if e.Generate? {
        GenerateKeepsNumbers(s, e.act);
        GenerateKeepsActs(s, e.act);
      } else {
        ActEventKeepsNumbers(s, e);
        ActEventKeepsActs(s, e);
      }
    }
  }

  lemma {:induction false} RunsKeepInvariant(es: seq<Event>)
    ensures Inv(Run(es))
  {
    if es != [] {
      RunsKeepInvariant(es[..|es| - 1]);
      StepKeepsInvariant(Run(es[..|es| - 1]), es[|es| - 1]);
    }
  }

  // ---------------------------------------------------------------- numbering over every run

  /** The official numbers of an object are exactly 1 to the counter, and no two acts share one. */
  lemma NumbersAreConsecutive(es: seq<Event>, site: ObjectId, n: nat, a: ActId, b: ActId)
    ensures (exists x :: IsNumbered(Run(es), x, site, n)) <==> 1 <= n <= LastNumber(Run(es), site)
    ensures IsNumbered(Run(es), a, site, n) && IsNumbered(Run(es), b, site, n) ==> a == b
  {
    RunsKeepInvariant(es);
    var s := Run(es);
    if 1 <= n <= LastNumber(s, site) {
      assert HasNumber(s, site, n);
    }
    forall x | IsNumbered(s, x, site, n) ensures 1 <= n <= LastNumber(s, site) { assert ActFits(s, x); }
  }

  lemma StepKeepsNumber(s: Store, e: Event, a: ActId, site: ObjectId, n: nat)
    requires Inv(s) && IsNumbered(s, a, site, n)
    ensures IsNumbered(After(s, e), a, site, n)
  {
  }

  function RunFrom(s: Store, es: seq<Event>): Store { if es == [] then s else After(RunFrom(s, es[..|es| - 1]), es[|es| - 1]) }

  /** A number once given stays with its act for good, so it is never given again. */
  lemma {:induction false} NumbersNeverChange(s: Store, es: seq<Event>, a: ActId, site: ObjectId, n: nat)
    requires Inv(s) && IsNumbered(s, a, site, n)
    ensures Inv(RunFrom(s, es)) && IsNumbered(RunFrom(s, es), a, site, n)
    ensures forall b :: IsNumbered(RunFrom(s, es), b, site, n) ==> b == a
  {
    if es != [] {
      NumbersNeverChange(s, es[..|es| - 1], a, site, n);
      StepKeepsInvariant(RunFrom(s, es[..|es| - 1]), es[|es| - 1]);
      StepKeepsNumber(RunFrom(s, es[..|es| - 1]), es[|es| - 1], a, site, n);
    }
  }

  /** A package prepared outside has no act here. */
  lemma ExternalHasNoActs(es: seq<Event>, id: PackageId)
    requires id in Run(es).packages && CurrentMethod(Run(es).packages[id]) == Some(External)
    ensures !HasActs(Run(es), id)
  {
    RunsKeepInvariant(es);
  }

  // ---------------------------------------------------------------- the state of the generated file

  datatype DocxState = NotGenerated | UpToDate | Outdated

  function DocxStateOf(act: Act): DocxState {
    if act.number.None? || act.revisions < 1 then NotGenerated else if act.generatedAt == Some(act.version) then UpToDate else Outdated
  }

  datatype Touch = Edited | Rendered

  /** What happened to the act since it was created: its successful edits, link changes and generations, in order. */
  function Log(es: seq<Event>, a: ActId): seq<Touch> {
    if es == [] then []
    else
      var before, e := es[..|es| - 1], es[|es| - 1];
      if Step(Run(before), e).Err? then Log(before, a)
      else match e
           case CreateAct(x, _, _) => if x == a then [] else Log(before, a)
           case Edit(x, _, _, _) => if x == a then Log(before, a) + [Edited] else Log(before, a)
           case SetLinks(x, _, _, _) => if x == a then Log(before, a) + [Edited] else Log(before, a)
           case Generate(x, _, _, _, _) => if x == a then Log(before, a) + [Rendered] else Log(before, a)
           case _ => Log(before, a)
  }

  function StateByLog(log: seq<Touch>): DocxState {
    if Rendered !in log then NotGenerated else if log[|log| - 1] == Rendered then UpToDate else Outdated
  }

  lemma TouchedState(s: Store, a: ActId, log: seq<Touch>, version: nat)
    requires Inv(s) && a in s.acts && DocxStateOf(s.acts[a]) == StateByLog(log) && version == s.acts[a].version + 1
    ensures DocxStateOf(s.acts[a].(version := version)) == StateByLog(log + [Edited])
    ensures s.acts[a].package in s.packages && DocxStateOf(Generated(s, a).acts[a]) == StateByLog(log + [Rendered])
  {
    assert ActFits(s, a);
    assert Rendered in log + [Edited] <==> Rendered in log;
    assert Rendered in log + [Rendered];
  }

  lemma OtherEventLeavesAct(s: Store, e: Event, a: ActId)
    requires a in After(s, e).acts
    requires Step(s, e).Err? || e.AddPackage? || e.SetMethod? || e.act != a
    ensures a in s.acts && After(s, e).acts[a] == s.acts[a]
  {
  }

  lemma OwnEventOnAct(s: Store, e: Event, a: ActId)
    requires a in After(s, e).acts && Step(s, e).Ok? && !e.AddPackage? && !e.SetMethod? && e.act == a
    ensures e.CreateAct? ==> DocxStateOf(After(s, e).acts[a]) == NotGenerated
    ensures e.Edit? || e.SetLinks? ==> a in s.acts && After(s, e).acts[a] == s.acts[a].(version := s.acts[a].version + 1)
    ensures e.Generate? ==> a in s.acts && s.acts[a].package in s.packages && After(s, e) == Generated(s, a)
    ensures !e.Remove?
  {
  }

  /** The file is up to date exactly when nothing was edited or relinked after the last generation. */
  lemma {:induction false} DocxStateIsHistory(es: seq<Event>, a: ActId)
    requires a in Run(es).acts
    ensures DocxStateOf(Run(es).acts[a]) == StateByLog(Log(es, a))
  {
    var before, e := es[..|es| - 1], es[|es| - 1];
    var s := Run(before);
    RunsKeepInvariant(before);
    if Step(s, e).Err? || e.AddPackage? || e.SetMethod? || e.act != a {
      OtherEventLeavesAct(s, e, a);
      DocxStateIsHistory(before, a);
    } else {
      OwnEventOnAct(s, e, a);
      if !e.CreateAct? {
        DocxStateIsHistory(before, a);
        TouchedState(s, a, Log(before, a), s.acts[a].version + 1);
      }
    }
  }

  // ---------------------------------------------------------------- what the operations mean to each other

  /** An act belongs to a package that chose the generator. */
  ghost predicate ActsAreCore(s: Store) {
    forall a :: a in s.acts ==> s.acts[a].package in s.packages && CurrentMethod(s.packages[s.acts[a].package]) == Some(Core)
  }

  lemma StepKeepsCore(s: Store, e: Event)
    requires ActsAreCore(s)
    ensures ActsAreCore(After(s, e))
  {
  }

  lemma {:induction false} RunsKeepCore(s: Store, es: seq<Event>)
    requires ActsAreCore(s)
    ensures ActsAreCore(RunFrom(s, es))
  {
    if es != [] {
      RunsKeepCore(s, es[..|es| - 1]);
      StepKeepsCore(RunFrom(s, es[..|es| - 1]), es[|es| - 1]);
    }
  }

  lemma {:induction false} RunIsRunFrom(es: seq<Event>)
    ensures Run(es) == RunFrom(EMPTY_STORE, es)
  {
    if es != [] {
      RunIsRunFrom(es[..|es| - 1]);
    }
  }

  lemma {:induction false} NumberedActStays(s: Store, es: seq<Event>, a: ActId)
    requires a in s.acts && s.acts[a].number.Some?
    ensures a in RunFrom(s, es).acts && RunFrom(s, es).acts[a].package == s.acts[a].package && RunFrom(s, es).acts[a].number == s.acts[a].number
  {
    if es != [] {
      NumberedActStays(s, es[..|es| - 1], a);
      ActMoves(RunFrom(s, es[..|es| - 1]), es[|es| - 1], a);
    }
  }

  /** A number ties its package to the generator for good: no later operation can take the preparation outside. */
  lemma NumberedKeepsCore(before: seq<Event>, es: seq<Event>, a: ActId)
    requires a in Run(before).acts && Run(before).acts[a].number.Some?
    ensures var t, id := RunFrom(Run(before), es), Run(before).acts[a].package;
            id in t.packages && CurrentMethod(t.packages[id]) == Some(Core) && DoSetMethod(t, id, External, false) == Err(ActsExist)
  {
    RunIsRunFrom(before);
    RunsKeepCore(EMPTY_STORE, before);
    RunsKeepCore(Run(before), es);
    NumberedActStays(Run(before), es, a);
  }

  /** The generator can be left exactly while the package has no act, and can always be come back to. */
  lemma MethodSwitchExactly(s: Store, id: PackageId)
    requires id in s.packages
    ensures CurrentMethod(s.packages[id]) == Some(Core) ==> (DoSetMethod(s, id, External, false).Ok? <==> !HasActs(s, id))
    ensures DoSetMethod(s, id, Core, false).Ok? && CurrentMethod(DoSetMethod(s, id, Core, false).value.packages[id]) == Some(Core)
    ensures forall m :: DoSetMethod(s, id, m, true).Err?
  {
  }

  /**
   * Exactly which operations go through in a reachable state. The generator needs no look at the method: an act's package has chosen it.
   * Nor need a removal look for a document: an act has one exactly when it has a number.
   */
  lemma AcceptedExactly(es: seq<Event>, e: Event)
    ensures var s := Run(es);
            Step(s, e).Ok? <==>
              match e
              case AddPackage(id, _) => id !in s.packages
              case SetMethod(id, m, held) => id in s.packages && !held && (m == External ==> forall a :: a in s.acts ==> s.acts[a].package != id)
              case CreateAct(a, id, open) =>
                a !in s.acts && id in s.packages && open && s.packages[id].methods != [] && s.packages[id].methods[|s.packages[id].methods| - 1] == Core
              case Edit(a, version, open, fields) => a in s.acts && open && s.acts[a].version == version && fields > 0
              case SetLinks(a, version, open, linksFit) => a in s.acts && open && s.acts[a].version == version && linksFit
              case Remove(a, open) => a in s.acts && open && s.acts[a].number == None
              case Generate(a, version, open, ready, rendered) => a in s.acts && open && s.acts[a].version == version && ready && rendered
  {
    var s := Run(es);
    RunsKeepInvariant(es);
    RunIsRunFrom(es);
    RunsKeepCore(EMPTY_STORE, es);
    match e
    case SetMethod(id, _, _) => assert id in s.packages && CurrentMethod(s.packages[id]) == Some(External) ==> !HasActs(s, id);
    case Remove(a, _) => assert a in s.acts ==> ActFits(s, a);
    case _ =>
  }

  /** Why the generator is closed to a package. */
  predicate MethodRefusable(s: Store, id: PackageId, r: Error) {
    && id in s.packages
    && match r
       case MethodUnset => s.packages[id].methods == []
       case MethodExternal => s.packages[id].methods != [] && s.packages[id].methods[|s.packages[id].methods| - 1] == External
       case _ => false
  }

  /** Why an act may not be worked on: it is unknown, its package closed, or it has another version, the first of these that is so. */
  predicate ActRefusable(s: Store, a: ActId, open: bool, version: Option<nat>, r: Error) {
    match r
    case NotFound => a !in s.acts
    case ContentFrozen => a in s.acts && !open
    case VersionConflict => a in s.acts && open && version != None && version != Some(s.acts[a].version)
    case _ => false
  }

  /** Whatever is refused is refused for a reason that is true. */
  lemma RefusedBecause(s: Store, e: Event, r: Error)
    requires Step(s, e) == Err(r)
    ensures match e
            case AddPackage(id, _) => r == IdentifierTaken && id in s.packages
            case SetMethod(id, m, held) =>
              (r == NotFound && id !in s.packages) || (r == ContentFrozen && id in s.packages && held)
              || (r == ActsExist && !held && m == External && exists a :: a in s.acts && s.acts[a].package == id)
            case CreateAct(a, id, open) =>
              (r == NotFound && id !in s.packages) || (r == ContentFrozen && id in s.packages && !open)
              || (open && MethodRefusable(s, id, r)) || (r == IdentifierTaken && a in s.acts)
            case Edit(a, version, open, fields) => ActRefusable(s, a, open, Some(version), r) || (r == NothingToChange && fields == 0)
            case SetLinks(a, version, open, linksFit) => ActRefusable(s, a, open, Some(version), r) || (r == LinkRefused && !linksFit)
            case Remove(a, open) =>
              ActRefusable(s, a, open, None, r) || (r == Numbered && a in s.acts && (s.acts[a].number != None || s.acts[a].hasDocument))
            case Generate(a, version, open, ready, rendered) =>
              ActRefusable(s, a, open, Some(version), r) || (a in s.acts && (MethodRefusable(s, s.acts[a].package, r) || s.acts[a].package !in s.packages))
              || (r == NotReady && !ready) || (r == RenderFailed && ready && !rendered)
  {
  }

  /** A method is declared once: choosing the one in force adds nothing, choosing the other adds it at the end. */
  lemma MethodIsAppended(s: Store, id: PackageId, m: Method)
    requires DoSetMethod(s, id, m, false).Ok?
    ensures id in s.packages && id in DoSetMethod(s, id, m, false).value.packages
    ensures var before, after := s.packages[id].methods, DoSetMethod(s, id, m, false).value.packages[id].methods;
            after == if before != [] && before[|before| - 1] == m then before else before + [m]
  {
  }

  /** How one step moves an act: only a generation numbers it, only an act without a number goes, and every other touch is one version more. */
  lemma ActMoves(s: Store, e: Event, a: ActId)
    requires a in s.acts
    ensures a !in After(s, e).acts ==> e.Remove? && e.act == a && s.acts[a].number.None? && !s.acts[a].hasDocument
    ensures a in After(s, e).acts ==>
              var b, c := s.acts[a], After(s, e).acts[a];
              && c.package == b.package && b.version <= c.version <= b.version + 1
              && (b.number.Some? ==> c.number == b.number)
              && (c.version == b.version ==> c == b)
              && (c.version > b.version ==> (e.Edit? || e.SetLinks? || e.Generate?) && e.act == a && e.version == b.version && e.open)
              && (c.number != b.number || c.generatedAt != b.generatedAt || c.revisions != b.revisions ==>
                    e.Generate? && e.ready && e.rendered && c.generatedAt == Some(c.version) && c.revisions == b.revisions + 1 && c.hasDocument)
  {
  }

  /** An act can be removed exactly while it was never generated; the removal of a new act undoes its creation. */
  lemma RemovableExactly(es: seq<Event>, a: ActId, open: bool)
    ensures DoRemove(Run(es), a, open).Ok? <==> a in Run(es).acts && open && Rendered !in Log(es, a)
  {
    RunsKeepInvariant(es);
    if a in Run(es).acts {
      assert ActFits(Run(es), a);
      DocxStateIsHistory(es, a);
    }
  }

  lemma CreateThenRemove(s: Store, a: ActId, id: PackageId)
    requires DoCreateAct(s, a, id, true).Ok?
    ensures DoRemove(DoCreateAct(s, a, id, true).value, a, true) == Ok(s)
  {
    assert DoCreateAct(s, a, id, true).value.acts - {a} == s.acts;
  }

  /** An edit or new links make a generated file outdated; generating again at the new version makes it current under the same number. */
  lemma EditThenGenerate(es: seq<Event>, e: Event, a: ActId)
    requires a in Run(es).acts && Run(es).acts[a].number.Some? && (e.Edit? || e.SetLinks?) && e.act == a && Step(Run(es), e).Ok?
    ensures var s, t := Run(es), After(Run(es), e);
            && a in t.acts && DocxStateOf(t.acts[a]) == Outdated
            && var r := DoGenerate(t, a, t.acts[a].version, true, true, true);
               r.Ok? && a in r.value.acts && DocxStateOf(r.value.acts[a]) == UpToDate
               && r.value.acts[a].number == s.acts[a].number && r.value.counters == s.counters
  {
    RunsKeepInvariant(es);
    RunIsRunFrom(es);
    RunsKeepCore(EMPTY_STORE, es);
    assert ActFits(Run(es), a);
  }

  // ---------------------------------------------------------------- the forward gate

  datatype Facts = Facts(hasScope: bool, mode: Option<Method>, acts: seq<(Act, bool)>, schemeFiles: seq<bool>)

  datatype Reason = ScopeNotSelected | MethodNotChosen | NoCoreAct | FileMissing(index: nat) | FileOutdated(index: nat) | SchemeFileRequired | SchemeMissing(index: nat)

  function When(b: bool, r: Reason): seq<Reason> { if b then [r] else [] }

  function FileReasons(acts: seq<(Act, bool)>): seq<Reason> {
    if acts == [] then []
    else
      var n := |acts| - 1;
      FileReasons(acts[..n]) + When(DocxStateOf(acts[n].0) == NotGenerated, FileMissing(n)) + When(DocxStateOf(acts[n].0) == Outdated, FileOutdated(n))
  }

  function SchemeReasons(acts: seq<(Act, bool)>): seq<Reason> {
    if acts == [] then [] else SchemeReasons(acts[..|acts| - 1]) + When(!acts[|acts| - 1].1, SchemeMissing(|acts| - 1))
  }

  function Reasons(f: Facts): seq<Reason> {
    var core := f.mode == Some(Core);
    When(!f.hasScope, ScopeNotSelected) + When(f.mode.None?, MethodNotChosen)
    + (if core then When(f.acts == [], NoCoreAct) + FileReasons(f.acts) else [])
    + When(true !in f.schemeFiles, SchemeFileRequired)
    + (if core then SchemeReasons(f.acts) else [])
  }

  lemma {:induction false} NoFileReasons(acts: seq<(Act, bool)>)
    ensures FileReasons(acts) == [] <==> forall i :: 0 <= i < |acts| ==> DocxStateOf(acts[i].0) == UpToDate
  {
    if acts != [] {
      var n := |acts| - 1;
      NoFileReasons(acts[..n]);
      var state := DocxStateOf(acts[n].0);
      assert When(state == NotGenerated, FileMissing(n)) + When(state == Outdated, FileOutdated(n)) == [] <==> state == UpToDate;
    }
  }

  lemma {:induction false} NoSchemeReasons(acts: seq<(Act, bool)>)
    ensures SchemeReasons(acts) == [] <==> forall i :: 0 <= i < |acts| ==> acts[i].1
  {
    if acts != [] {
      NoSchemeReasons(acts[..|acts| - 1]);
    }
  }

  /** The gate is open exactly when the scope and the method are chosen, every core act is up to date and covered, and a scheme has a file. */
  lemma GateExact(f: Facts)
    ensures Reasons(f) == [] <==>
            && f.hasScope && f.mode.Some? && true in f.schemeFiles
            && (f.mode == Some(Core) ==> f.acts != [] && forall i :: 0 <= i < |f.acts| ==> DocxStateOf(f.acts[i].0) == UpToDate && f.acts[i].1)
  {
    NoFileReasons(f.acts);
    NoSchemeReasons(f.acts);
  }

  method ResolvePackageReadiness(f: Facts) returns (reasons: seq<Reason>)
    ensures reasons == Reasons(f)
  {
    reasons := When(!f.hasScope, ScopeNotSelected);
    reasons := reasons + When(f.mode.None?, MethodNotChosen);
    var core := f.mode == Some(Core);
    if core {
      var files := FileProblems(f.acts);
      reasons := reasons + (When(f.acts == [], NoCoreAct) + files);
    }
    reasons := reasons + When(true !in f.schemeFiles, SchemeFileRequired);
    if core {
      var schemes := SchemeProblems(f.acts);
      reasons := reasons + schemes;
    }
  }

  method FileProblems(acts: seq<(Act, bool)>) returns (reasons: seq<Reason>)
    ensures reasons == FileReasons(acts)
  {
    reasons := [];
    for i := 0 to |acts|
      invariant reasons == FileReasons(acts[..i])
    {
      assert acts[..i + 1][..i] == acts[..i];
      var state := DocxStateOf(acts[i].0);
      reasons := reasons + When(state == NotGenerated, FileMissing(i)) + When(state == Outdated, FileOutdated(i));
    }
    assert acts[..|acts|] == acts;
  }

  method SchemeProblems(acts: seq<(Act, bool)>) returns (reasons: seq<Reason>)
    ensures reasons == SchemeReasons(acts)
  {
    reasons := [];
    for i := 0 to |acts|
      invariant reasons == SchemeReasons(acts[..i])
    {
      assert acts[..i + 1][..i] == acts[..i];
      reasons := reasons + When(!acts[i].1, SchemeMissing(i));
    }
    assert acts[..|acts|] == acts;
  }

  // ---------------------------------------------------------------- the service as the source writes it

  class AosrService {
    var packages: map<PackageId, Package>
    var acts: map<ActId, Act>
    var counters: map<ObjectId, nat>

    function View(): Store
      reads this
    {
      Store(packages, acts, counters)
    }

    constructor ()
      ensures View() == EMPTY_STORE
    {
      packages, acts, counters := map[], map[], map[];
    }

    method SetMethod(id: PackageId, m: Method, held: bool) returns (r: Result<Store, Error>)
      modifies this
      ensures r == DoSetMethod(old(View()), id, m, held) && View() == if r.Ok? then r.value else old(View())
    {
      if id !in packages {
        return Err(NotFound);
      }
      if held {
        return Err(ContentFrozen);
      }
      var p := packages[id];
      if CurrentMethod(p) == Some(m) {
        return Ok(View());
      }
      if m == External && exists a :: a in acts && acts[a].package == id {
        return Err(ActsExist);
      }
      packages := packages[id := p.(methods := p.methods + [m])];
      r := Ok(View());
    }

    method CreateAct(a: ActId, id: PackageId, open: bool) returns (r: Result<Store, Error>)
      modifies this
      ensures r == DoCreateAct(old(View()), a, id, open) && View() == if r.Ok? then r.value else old(View())
    {
      if id !in packages {
        return Err(NotFound);
      }
      if !open {
        return Err(ContentFrozen);
      }
      var problem := CoreProblem(View(), id);
      if problem.Some? {
        return Err(problem.value);
      }
      if a in acts {
        return Err(IdentifierTaken);
      }
      acts := acts[a := Act(id, 1, None, 0, None, false)];
      r := Ok(View());
    }

    method Edit(a: ActId, version: nat, open: bool, fields: nat) returns (r: Result<Store, Error>)
      modifies this
      ensures r == DoEdit(old(View()), a, version, open, fields) && View() == if r.Ok? then r.value else old(View())
    {
      if a !in acts {
        return Err(NotFound);
      }
      if !open {
        return Err(ContentFrozen);
      }
      var act := acts[a];
      if act.version != version {
        return Err(VersionConflict);
      }
      if fields == 0 {
        return Err(NothingToChange);
      }
      acts := acts[a := act.(version := act.version + 1)];
      r := Ok(View());
    }

    method SetLinks(a: ActId, version: nat, open: bool, linksFit: bool) returns (r: Result<Store, Error>)
      modifies this
      ensures r == DoSetLinks(old(View()), a, version, open, linksFit) && View() == if r.Ok? then r.value else old(View())
    {
      if a !in acts {
        return Err(NotFound);
      }
      if !open {
        return Err(ContentFrozen);
      }
      var act := acts[a];
      if act.version != version {
        return Err(VersionConflict);
      }
      if !linksFit {
        return Err(LinkRefused);
      }
      acts := acts[a := act.(version := act.version + 1)];
      r := Ok(View());
    }

    method Remove(a: ActId, open: bool) returns (r: Result<Store, Error>)
      modifies this
      ensures r == DoRemove(old(View()), a, open) && View() == if r.Ok? then r.value else old(View())
    {
      if a !in acts {
        return Err(NotFound);
      }
      if !open {
        return Err(ContentFrozen);
      }
      if acts[a].number.Some? || acts[a].hasDocument {
        return Err(Numbered);
      }
      acts := acts - {a};
      r := Ok(View());
    }

    /** The counter moves before the file is rendered; a failed render puts everything back. */
    method Generate(a: ActId, version: nat, open: bool, ready: bool, rendered: bool) returns (r: Result<Store, Error>)
      modifies this
      ensures r == DoGenerate(old(View()), a, version, open, ready, rendered) && View() == if r.Ok? then r.value else old(View())
    {
      if a !in acts {
        return Err(NotFound);
      }
      if !open {
        return Err(ContentFrozen);
      }
      var problem := CoreProblem(View(), acts[a].package);
      if problem.Some? {
        return Err(problem.value);
      }
      var act := acts[a];
      if act.version != version {
        return Err(VersionConflict);
      }
      if !ready {
        return Err(NotReady);
      }
      var before, site := counters, packages[act.package].site;
      if act.number.None? {
        counters := counters[site := (if site in counters then counters[site] + 1 else 1)];
      }
      if !rendered {
        counters := before;
        return Err(RenderFailed);
      }
      var number := if act.number.Some? then act.number.value else counters[site];
      acts := acts[a := Act(act.package, act.version + 1, Some(number), act.revisions + 1, Some(act.version + 1), true)];
      r := Ok(View());
    }
  }
}
