/** Packages and their acts together: the gate judges the acts there are, and the state of the package decides who may touch them. */
module PackageActs {
  import opened Wrappers
  import opened DocumentationModel
  import DocumentationInvariants
  import Aosr

  datatype State = State(docs: Store, acts: Aosr.Store)

  /** `facts` is what the gate reads at that moment, `document` the document a generated act is filed under. */
  datatype Event =
    | OnPackage(command: Command, site: Aosr.ObjectId, facts: Aosr.Facts)
    | OnActs(event: Aosr.Event, document: DocumentId)

  const EMPTY := State(EMPTY_STORE, Aosr.EMPTY_STORE)

  // ---------------------------------------------------------------- one step

  predicate Editable(docs: Store, id: PackageId) { id in docs.packages && !docs.packages[id].archived && CanMutateContent(docs.packages[id]) }

  predicate Withheld(docs: Store, id: PackageId) { id in docs.packages ==> docs.packages[id].archived || Locked(docs.packages[id]) }

  function MethodOf(acts: Aosr.Store, id: PackageId): Option<Aosr.Method> {
    if id in acts.packages then Aosr.CurrentMethod(acts.packages[id]) else None
  }

  /** The gate reads the package's method and scope and every act it has, as they are. */
  ghost predicate Reads(s: State, id: PackageId, f: Aosr.Facts) {
    && id in s.docs.packages && f.hasScope == (s.docs.packages[id].portions != {}) && f.mode == MethodOf(s.acts, id)
    && (forall a :: a in s.acts.acts && s.acts.acts[a].package == id ==> exists i :: 0 <= i < |f.acts| && f.acts[i].0 == s.acts.acts[a])
  }

  ghost predicate GateOpen(s: State, id: PackageId, f: Aosr.Facts) { Reads(s, id, f) && Aosr.Reasons(f) == [] }

  /** The command with the verdict of the gate. */
  ghost function Judged(s: State, c: Command, f: Aosr.Facts): Command {
    match c
    case DoChangeStatus(id, version, status, _) => DoChangeStatus(id, version, status, GateOpen(s, id, f))
    case DoRecordCustomerQuantity(id, items, at, _) => DoRecordCustomerQuantity(id, items, at, GateOpen(s, id, f))
    case _ => c
  }

  ghost function PackageStep(s: State, c: Command, site: Aosr.ObjectId, f: Aosr.Facts): State {
    var judged := Judged(s, c, f);
    if c.DoCreateVersion? && c.kind == GeneratedAct then s
    else
      State(After(s.docs, judged),
            if c.DoCreatePackage? && Step(s.docs, judged).Ok? then Aosr.After(s.acts, Aosr.AddPackage(c.id, site)) else s.acts)
  }

  function PackageOf(acts: Aosr.Store, a: Aosr.ActId): Option<PackageId> { if a in acts.acts then Some(acts.acts[a].package) else None }

  predicate OpenFor(s: State, a: Aosr.ActId) { PackageOf(s.acts, a).Some? && Editable(s.docs, PackageOf(s.acts, a).value) }

  /** The event with the access the package allows. */
  function Allowed(s: State, e: Aosr.Event): Aosr.Event {
    match e
    case AddPackage(_, _) => e
    case SetMethod(id, mode, _) => Aosr.SetMethod(id, mode, Withheld(s.docs, id))
    case CreateAct(a, id, _) => Aosr.CreateAct(a, id, Editable(s.docs, id))
    case Edit(a, version, _, fields) => Aosr.Edit(a, version, OpenFor(s, a), fields)
    case SetLinks(a, version, _, linksFit) => Aosr.SetLinks(a, version, OpenFor(s, a), linksFit)
    case Remove(a, _) => Aosr.Remove(a, OpenFor(s, a))
    case Generate(a, version, _, ready, rendered) => Aosr.Generate(a, version, OpenFor(s, a), ready, rendered)
  }

  /** A generated act is filed as a document version in the same transaction. */
  function ActsStep(s: State, e: Aosr.Event, d: DocumentId): State {
    var allowed := Allowed(s, e);
    if e.AddPackage? || Aosr.Step(s.acts, allowed).Err? then s
    else
      State(if e.Generate? then After(s.docs, DoCreateVersion(s.acts.acts[e.act].package, d, GeneratedAct)) else s.docs,
            Aosr.After(s.acts, allowed))
  }

  ghost function Next(s: State, e: Event): State {
    match e
    case OnPackage(c, site, f) => PackageStep(s, c, site, f)
    case OnActs(event, d) => ActsStep(s, event, d)
  }

  ghost function RunAll(es: seq<Event>): State { if es == [] then EMPTY else Next(RunAll(es[..|es| - 1]), es[|es| - 1]) }

  // ---------------------------------------------------------------- presented acts stay as they were presented

  /** The customer has the documents, or has answered, and no correction has begun. */
  predicate BeforeCustomer(st: Status) { st in {Presented, Returned, AcceptedByCustomer} }

  ghost predicate ActFits(s: State, a: Aosr.ActId)
    requires a in s.acts.acts
  {
    && s.acts.acts[a].package in s.docs.packages
    && (BeforeCustomer(s.docs.packages[s.acts.acts[a].package].status) ==> Aosr.DocxStateOf(s.acts.acts[a]) == Aosr.UpToDate)
  }

  ghost predicate Inv(s: State) {
    && Aosr.ActsAreCore(s.acts)
    && (forall id :: id in s.acts.packages ==> id in s.docs.packages)
    && (forall a :: a in s.acts.acts ==> ActFits(s, a))
  }

  /** An open gate has seen every act of a package and found each up to date. */
  lemma OpenGateMeansCurrent(s: State, id: PackageId, f: Aosr.Facts, a: Aosr.ActId)
    requires Aosr.ActsAreCore(s.acts) && GateOpen(s, id, f) && a in s.acts.acts && s.acts.acts[a].package == id
    ensures Aosr.DocxStateOf(s.acts.acts[a]) == Aosr.UpToDate
  {
    Aosr.GateExact(f);
    var i :| 0 <= i < |f.acts| && f.acts[i].0 == s.acts.acts[a];
    assert f.mode == Some(Aosr.Core);
  }

  /** A package comes before the customer only through the gate. */
  lemma PresentingIsGated(s: State, c: Command, f: Aosr.Facts, id: PackageId)
    requires id in s.docs.packages && id in After(s.docs, Judged(s, c, f)).packages
    requires !BeforeCustomer(s.docs.packages[id].status) && BeforeCustomer(After(s.docs, Judged(s, c, f)).packages[id].status)
    ensures GateOpen(s, id, f)
  {
    DocumentationInvariants.StepMoves(s.docs, Judged(s, c, f), id);
  }

  lemma PackageStepKeepsActs(s: State, c: Command, site: Aosr.ObjectId, f: Aosr.Facts, a: Aosr.ActId)
    requires Inv(s) && a in PackageStep(s, c, site, f).acts.acts
    ensures ActFits(PackageStep(s, c, site, f), a)
  {
    var t, id := PackageStep(s, c, site, f), s.acts.acts[a].package;
    assert t.acts.acts == s.acts.acts;
    assert ActFits(s, a);
    DocumentationInvariants.StepMoves(s.docs, Judged(s, c, f), id);
    if !BeforeCustomer(s.docs.packages[id].status) && BeforeCustomer(t.docs.packages[id].status) {
      PresentingIsGated(s, c, f, id);
      OpenGateMeansCurrent(s, id, f, a);
    }
  }

  lemma PackageStepKeeps(s: State, c: Command, site: Aosr.ObjectId, f: Aosr.Facts)
    requires Inv(s)
    ensures Inv(PackageStep(s, c, site, f))
  {
    var t := PackageStep(s, c, site, f);
    if c.DoCreatePackage? {
      Aosr.StepKeepsCore(s.acts, Aosr.AddPackage(c.id, site));
    }
    forall id | id in s.docs.packages ensures id in t.docs.packages {
      DocumentationInvariants.StepMoves(s.docs, Judged(s, c, f), id);
    }
    forall a | a in t.acts.acts ensures ActFits(t, a) { PackageStepKeepsActs(s, c, site, f, a); }
  }

  lemma FilingKeepsStatus(docs: Store, id: PackageId, d: DocumentId, other: PackageId)
    requires other in docs.packages
    ensures var t := After(docs, DoCreateVersion(id, d, GeneratedAct));
            other in t.packages && t.packages[other].status == docs.packages[other].status
  {
    DocumentationInvariants.StepMoves(docs, DoCreateVersion(id, d, GeneratedAct), other);
  }

  /** Nothing touches an act of a package before the customer. */
  lemma FrozenActStays(s: State, e: Aosr.Event, a: Aosr.ActId)
    requires Inv(s) && !e.AddPackage? && a in Aosr.After(s.acts, Allowed(s, e)).acts
    requires var id := Aosr.After(s.acts, Allowed(s, e)).acts[a].package;
             id in s.docs.packages && BeforeCustomer(s.docs.packages[id].status)
    ensures a in s.acts.acts && Aosr.After(s.acts, Allowed(s, e)).acts[a] == s.acts.acts[a]
  {
    if a in s.acts.acts {
      Aosr.ActMoves(s.acts, Allowed(s, e), a);
    }
  }

  lemma ActsStepKeeps(s: State, e: Aosr.Event, d: DocumentId)
    requires Inv(s)
    ensures Inv(ActsStep(s, e, d))
  {
    var t := ActsStep(s, e, d);
    if t != s {
      Aosr.StepKeepsCore(s.acts, Allowed(s, e));
      forall id | id in s.docs.packages ensures id in t.docs.packages && t.docs.packages[id].status == s.docs.packages[id].status {
        if e.Generate? {
          FilingKeepsStatus(s.docs, s.acts.acts[e.act].package, d, id);
        }
      }
      assert t.acts.packages.Keys == s.acts.packages.Keys;
      forall a | a in t.acts.acts ensures ActFits(t, a) {
        assert t.acts.acts[a].package in t.acts.packages;
        if BeforeCustomer(s.docs.packages[t.acts.acts[a].package].status) {
          FrozenActStays(s, e, a);
          assert ActFits(s, a);
        }
      }
    }
  }

  lemma {:induction false} RunsKeepInvariant(es: seq<Event>)
    ensures Inv(RunAll(es))
  {
    if es != [] {
      RunsKeepInvariant(es[..|es| - 1]);
      var s := RunAll(es[..|es| - 1]);
      match es[|es| - 1]
      case OnPackage(c, site, f) => PackageStepKeeps(s, c, site, f);
      case OnActs(event, d) => ActsStepKeeps(s, event, d);
    }
  }

  /** From presentation until a correction begins, over any run, every act of the package has a file generated at its present version. */
  lemma PresentedActsAreCurrent(es: seq<Event>, a: Aosr.ActId)
    requires a in RunAll(es).acts.acts
    ensures var s := RunAll(es);
            var id := s.acts.acts[a].package;
            id in s.docs.packages && (BeforeCustomer(s.docs.packages[id].status) ==> Aosr.DocxStateOf(s.acts.acts[a]) == Aosr.UpToDate)
  {
    RunsKeepInvariant(es);
    assert ActFits(RunAll(es), a);
  }

  // ---------------------------------------------------------------- each step, in the words of the two machines

  /** Content may be worked on: the package is there, not archived, not before the customer and not held. */
  predicate WorkOpen(docs: Store, id: PackageId) {
    && id in docs.packages && !docs.packages[id].archived && !BeforeCustomer(docs.packages[id].status)
    && (docs.packages[id].closing == None || !docs.packages[id].closing.value.locked)
  }

  predicate ActOpen(s: State, a: Aosr.ActId) { a in s.acts.acts && WorkOpen(s.docs, s.acts.acts[a].package) }

  predicate MethodWithheld(docs: Store, id: PackageId) {
    id !in docs.packages || docs.packages[id].archived || (docs.packages[id].closing.Some? && docs.packages[id].closing.value.locked)
  }

  function ActsAfter(s: State, e: Aosr.Event): Aosr.Store {
    match e
    case AddPackage(_, _) => s.acts
    case SetMethod(id, m, _) => Aosr.After(s.acts, Aosr.SetMethod(id, m, MethodWithheld(s.docs, id)))
    case CreateAct(a, id, _) => Aosr.After(s.acts, Aosr.CreateAct(a, id, WorkOpen(s.docs, id)))
    case Edit(a, version, _, fields) => Aosr.After(s.acts, Aosr.Edit(a, version, ActOpen(s, a), fields))
    case SetLinks(a, version, _, linksFit) => Aosr.After(s.acts, Aosr.SetLinks(a, version, ActOpen(s, a), linksFit))
    case Remove(a, _) => Aosr.After(s.acts, Aosr.Remove(a, ActOpen(s, a)))
    case Generate(a, version, _, ready, rendered) => Aosr.After(s.acts, Aosr.Generate(a, version, ActOpen(s, a), ready, rendered))
  }

  lemma AccessExactly(docs: Store, id: PackageId)
    ensures Editable(docs, id) <==> WorkOpen(docs, id)
    ensures Withheld(docs, id) <==> MethodWithheld(docs, id)
  {
    if id in docs.packages {
      StatusIsEither(docs.packages[id].status);
    }
  }

  /** Content is editable exactly when it is not before the customer. */
  lemma StatusIsEither(st: Status)
    ensures ContentEditable(st) <==> !BeforeCustomer(st)
  {
    match st
    case Draft => case Preparing => case ReadyForPresentation => case Presented =>
    case Returned => case Correcting => case AcceptedByCustomer =>
  }

  lemma ActsAfterExactly(s: State, e: Aosr.Event)
    requires !e.AddPackage?
    ensures Aosr.After(s.acts, Allowed(s, e)) == ActsAfter(s, e)
  {
    if e.SetMethod? || e.CreateAct? {
      AccessExactly(s.docs, e.package);
    } else if e.act in s.acts.acts {
      AccessExactly(s.docs, s.acts.acts[e.act].package);
    }
  }

  lemma GeneratingCounts(acts: Aosr.Store, e: Aosr.Event)
    requires e.Generate? && Aosr.Step(acts, e).Ok?
    ensures e.act in acts.acts && Aosr.After(acts, e) != acts
  {
    assert e.act in Aosr.After(acts, e).acts && Aosr.After(acts, e).acts[e.act].revisions == acts.acts[e.act].revisions + 1;
  }

  lemma ActsStepExactly(s: State, e: Aosr.Event, d: DocumentId)
    requires !e.AddPackage?
    ensures ActsStep(s, e, d).acts == Aosr.After(s.acts, Allowed(s, e))
    ensures !e.Generate? || ActsStep(s, e, d).acts == s.acts ==> ActsStep(s, e, d).docs == s.docs
    ensures e.Generate? && ActsStep(s, e, d).acts != s.acts ==>
              e.act in s.acts.acts && ActsStep(s, e, d).docs == After(s.docs, DoCreateVersion(s.acts.acts[e.act].package, d, GeneratedAct))
  {
    if e.Generate? && Aosr.Step(s.acts, Allowed(s, e)).Ok? {
      GeneratingCounts(s.acts, Allowed(s, e));
    }
  }

  /** What the acts see of the package decides: an act is touched while its package is open, the method chosen while it is neither archived nor held. */
  lemma ActsSeeThePackage(es: seq<Event>, e: Aosr.Event, d: DocumentId)
    ensures var s, t := RunAll(es), RunAll(es + [OnActs(e, d)]);
            && t.acts == ActsAfter(s, e)
            && (!e.Generate? || t.acts == s.acts ==> t.docs == s.docs)
            && (e.Generate? && t.acts != s.acts ==>
                  e.act in s.acts.acts && t.docs == After(s.docs, DoCreateVersion(s.acts.acts[e.act].package, d, GeneratedAct)))
  {
    assert (es + [OnActs(e, d)])[..|es|] == es;
    var s := RunAll(es);
    if !e.AddPackage? {
      ActsStepExactly(s, e, d);
      ActsAfterExactly(s, e);
    }
  }

  /** And what a package sees of its acts is the gate alone: no other command looks at them, and a version of a generated act is filed by generating only. */
  lemma PackagesSeeTheGate(es: seq<Event>, c: Command, site: Aosr.ObjectId, f: Aosr.Facts)
    ensures var s, t := RunAll(es), RunAll(es + [OnPackage(c, site, f)]);
            && (c.DoCreateVersion? && c.kind == GeneratedAct ==> t == s)
            && (c.DoChangeStatus? ==> t.docs == After(s.docs, DoChangeStatus(c.id, c.version, c.status, GateOpen(s, c.id, f))))
            && (c.DoRecordCustomerQuantity? ==> t.docs == After(s.docs, DoRecordCustomerQuantity(c.id, c.items, c.at, GateOpen(s, c.id, f))))
            && (!c.DoChangeStatus? && !c.DoRecordCustomerQuantity? && !(c.DoCreateVersion? && c.kind == GeneratedAct) ==> t.docs == After(s.docs, c))
            && t.acts == (if c.DoCreatePackage? && Step(s.docs, c).Ok? then Aosr.After(s.acts, Aosr.AddPackage(c.id, site)) else s.acts)
  {
    assert (es + [OnPackage(c, site, f)])[..|es|] == es;
  }

  /** The gate is open exactly when it was given the package's scope, the method chosen last and every act of the package, and found nothing amiss. */
  lemma GateReadsAll(s: State, id: PackageId, f: Aosr.Facts)
    ensures GateOpen(s, id, f) <==>
            && id in s.docs.packages && (f.hasScope <==> s.docs.packages[id].portions != {})
            && f.mode == (if id in s.acts.packages && s.acts.packages[id].methods != [] then Some(s.acts.packages[id].methods[|s.acts.packages[id].methods| - 1])
                          else None)
            && (forall a :: a in s.acts.acts && s.acts.acts[a].package == id ==> exists i :: 0 <= i < |f.acts| && f.acts[i].0 == s.acts.acts[a])
            && Aosr.Reasons(f) == []
  {
  }
}
