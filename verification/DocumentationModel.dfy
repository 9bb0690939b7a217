/** Documentation packages and their closing cases: the rows, the rules and the operations. */
module DocumentationModel {
  import opened Wrappers

  type PackageId = nat
  type PortionId = nat
  type WorkId = nat
  type DocumentId = nat
  type UserId = nat

  /** A document version is known by its document and its number; amounts and quantities are whole ten-thousandths. */
  type VersionId = (DocumentId, nat)

  datatype Error =
    | NotFound | IdentifierTaken | Archived | VersionConflict | ScopeRequired | ForeignPortion | AlreadyCovered | AlreadyLinked
    | ContentFrozen | DedicatedType | TransitionRefused | GateRefused | NoDocuments | DocumentWithoutVersion | NotAccepted | CaseExists
    | NotArchivable | ReasonRequired | NotReady | AlreadyHandedOff | CaseClosed | AlreadyReturned | Suspended | CannotClose
    | NotInPackage | NoAllocation | AlreadyCancelled | NotPositive | ResponsibleFixed | NotActive

  datatype Status = Draft | Preparing | ReadyForPresentation | Presented | Returned | Correcting | AcceptedByCustomer
  datatype CaseStatus = OnReconciliation | VerificationPassed | OnCorrection | Closed

  datatype Operation = Create | Correct | Restore | Cancel
  datatype AmountRow = AmountRow(previous: Option<int>, amount: int)
  datatype AllocationRow = AllocationRow(portion: PortionId, previous: Option<int>, amount: Option<int>, operation: Operation)
  datatype Allocation = Allocation(portion: PortionId, amount: int, cancelled: bool, version: nat)

  datatype Case = Case(
    status: CaseStatus, locked: bool, version: nat, total: Option<int>,
    allocations: seq<Allocation>, amounts: seq<AmountRow>, allocationRows: seq<AllocationRow>, responsible: Option<UserId>)

  /** `documents` gives each document the number of its latest version, 0 when it has none. */
  datatype Package = Package(
    work: WorkId, status: Status, version: nat, archived: bool,
    portions: set<PortionId>, documents: map<DocumentId, nat>, acceptances: seq<set<VersionId>>,
    presented: bool, recorded: bool, generated: bool, closing: Option<Case>)

  datatype Source = RpFact | InternalSc | CustomerSc
  datatype Confirmation = Confirmation(portion: PortionId, source: Source, quantity: int, at: int)

  datatype Store = Store(packages: map<PackageId, Package>, portions: map<PortionId, WorkId>, confirmations: seq<Confirmation>)

  const EMPTY_STORE := Store(map[], map[], [])

  // ---------------------------------------------------------------- rules

  predicate TransitionAllowed(from: Status, to: Status) {
    match from
    case Draft => to == Preparing
    case Preparing => to == ReadyForPresentation
    case ReadyForPresentation => to == Presented
    case Presented => to == Returned
    case Returned => to == Correcting
    case Correcting => to == Presented
    case AcceptedByCustomer => false
  }

  predicate CaseTransitionAllowed(from: CaseStatus, to: CaseStatus) {
    match from
    case OnReconciliation => to == VerificationPassed || to == OnCorrection
    case VerificationPassed => to == Closed || to == OnCorrection
    case OnCorrection => to == OnReconciliation
    case Closed => to == OnCorrection
  }

  predicate ContentEditable(st: Status) { st in {Draft, Preparing, ReadyForPresentation, Correcting} }

  predicate Locked(p: Package) { p.closing.Some? && p.closing.value.locked }

  predicate CanMutateContent(p: Package) { ContentEditable(p.status) && !Locked(p) }

  /** The latest version of every document that has one. */
  function CurrentVersions(documents: map<DocumentId, nat>): set<VersionId> {
    set d | d in documents && documents[d] > 0 :: (d, documents[d])
  }

  /** The snapshot holds the current version of every document, counted and compared as the source does. */
  predicate SnapshotCurrent(accepted: set<VersionId>, documentCount: nat, current: set<VersionId>) {
    documentCount != 0 && |current| == documentCount && |accepted| == |current| && forall v :: v in current ==> v in accepted
  }

  predicate HasCustomerAcceptance(p: Package) {
    p.status == AcceptedByCustomer && p.acceptances != []
    && SnapshotCurrent(p.acceptances[|p.acceptances| - 1], |p.documents|, CurrentVersions(p.documents))
  }

  predicate IsCustomerRow(c: Confirmation, portion: PortionId) { c.source == CustomerSc && c.portion == portion }

  /** Row `i` belongs to the latest group: no customer row of the portion was recorded after it. Ties belong together. */
  predicate IsLatest(cs: seq<Confirmation>, i: nat, portion: PortionId)
    requires i < |cs|
  {
    IsCustomerRow(cs[i], portion) && forall j :: 0 <= j < |cs| && IsCustomerRow(cs[j], portion) ==> cs[j].at <= cs[i].at
  }

  /** The portion is confirmed by the customer: it has rows, and the whole latest group is positive. */
  predicate CustomerReady(cs: seq<Confirmation>, portion: PortionId) {
    && (exists i :: 0 <= i < |cs| && IsCustomerRow(cs[i], portion))
    && (forall i :: 0 <= i < |cs| && IsLatest(cs, i, portion) ==> cs[i].quantity > 0)
  }

  predicate Ready(p: Package, cs: seq<Confirmation>) {
    HasCustomerAcceptance(p) && p.portions != {} && forall x :: x in p.portions ==> CustomerReady(cs, x)
  }

  function ActiveSum(xs: seq<Allocation>): int {
    if xs == [] then 0 else ActiveSum(xs[..|xs| - 1]) + (if xs[|xs| - 1].cancelled then 0 else xs[|xs| - 1].amount)
  }

  predicate HasActive(xs: seq<Allocation>) { exists i :: 0 <= i < |xs| && !xs[i].cancelled }

  predicate CanClose(c: Case) { c.total.Some? && (HasActive(c.allocations) ==> ActiveSum(c.allocations) == c.total.value) }

  /** Rounding to four places, ties away from zero. */
  function RoundHalfUp(q: real): int { if q >= 0.0 then (q * 10000.0 + 0.5).Floor else -((-q * 10000.0 + 0.5).Floor) }

  // ---------------------------------------------------------------- claims

  /** An active package of the work, other than `besides`, already holds one of the portions. */
  predicate Overlaps(packages: map<PackageId, Package>, work: WorkId, xs: set<PortionId>, besides: Option<PackageId>) {
    exists q :: q in packages && packages[q].work == work && !packages[q].archived && Some(q) != besides && packages[q].portions * xs != {}
  }

  predicate AllOfWork(portions: map<PortionId, WorkId>, xs: set<PortionId>, work: WorkId) { forall x :: x in xs ==> x in portions && portions[x] == work }

  // ---------------------------------------------------------------- package operations

  function Put(s: Store, id: PackageId, p: Package): Store { s.(packages := s.packages[id := p]) }

  function Bumped(p: Package): Package { p.(version := p.version + 1) }

  /** What every forward operation on a package checks first. */
  function Open(s: Store, id: PackageId, version: Option<nat>): (r: Option<Error>)
    ensures r.None? ==> id in s.packages && !s.packages[id].archived && (version.Some? ==> s.packages[id].version == version.value)
  {
    if id !in s.packages then Some(NotFound)
    else if s.packages[id].archived then Some(Archived)
    else if version.Some? && s.packages[id].version != version.value then Some(VersionConflict)
    else None
  }

  function CreatePackage(s: Store, id: PackageId, work: WorkId, xs: set<PortionId>): Result<Store, Error> {
    if id in s.packages then Err(IdentifierTaken)
    else if xs == {} then Err(ScopeRequired)
    else if !AllOfWork(s.portions, xs, work) then Err(ForeignPortion)
    else if Overlaps(s.packages, work, xs, None) then Err(AlreadyCovered)
    else Ok(Put(s, id, Package(work, Draft, 1, false, xs, map[], [], false, false, false, None)))
  }

  function LinkPortion(s: Store, id: PackageId, x: PortionId): Result<Store, Error> {
    var problem := Open(s, id, None);
    if problem.Some? then Err(problem.value)
    else
      var p := s.packages[id];
      if !CanMutateContent(p) then Err(ContentFrozen)
      else if !AllOfWork(s.portions, {x}, p.work) then Err(ForeignPortion)
      else if x in p.portions then Err(AlreadyLinked)
      else if Overlaps(s.packages, p.work, {x}, Some(id)) then Err(AlreadyCovered)
      else Ok(Put(s, id, p.(portions := p.portions + {x})))
  }

  /** A bare document has no version; the acts and schemes of the dedicated flow are refused here. */
  function CreateDocument(s: Store, id: PackageId, d: DocumentId, dedicated: bool): Result<Store, Error> {
    var problem := Open(s, id, None);
    if problem.Some? then Err(problem.value)
    else
      var p := s.packages[id];
      if !CanMutateContent(p) then Err(ContentFrozen)
      else if dedicated then Err(DedicatedType)
      else if d in p.documents then Err(IdentifierTaken)
      else Ok(Put(s, id, p.(documents := p.documents[d := 0])))
  }

  /** A version is added by the generic form, by a scheme file or by generating an act; the last two may bring a new document. */
  datatype VersionKind = Plain | SchemeFile | GeneratedAct

  function CreateVersion(s: Store, id: PackageId, d: DocumentId, kind: VersionKind): Result<Store, Error> {
    if kind == Plain && (id !in s.packages || d !in s.packages[id].documents) then Err(NotFound)
    else
      var problem := Open(s, id, None);
      if problem.Some? then Err(problem.value)
      else
        var p := s.packages[id];
        if !CanMutateContent(p) then Err(ContentFrozen)
        else
          var n := if d in p.documents then p.documents[d] else 0;
          Ok(Put(s, id, p.(documents := p.documents[d := n + 1], generated := p.generated || kind == GeneratedAct)))
  }

  /** The responsible of a package is fixed; an edit that names the same one only counts as a version. */
  function EditPackage(s: Store, id: PackageId, version: nat, sameResponsible: bool): Result<Store, Error> {
    var problem := Open(s, id, Some(version));
    if problem.Some? then Err(problem.value)
    else if !sameResponsible then Err(ResponsibleFixed)
    else Ok(Put(s, id, Bumped(s.packages[id])))
  }

  function ChangeStatus(s: Store, id: PackageId, version: nat, to: Status, gate: bool): Result<Store, Error> {
    var problem := Open(s, id, Some(version));
    if problem.Some? then Err(problem.value)
    else
      var p := s.packages[id];
      if !TransitionAllowed(p.status, to) then Err(TransitionRefused)
      else if to in {Preparing, ReadyForPresentation, Presented} && p.portions == {} then Err(ScopeRequired)
      else if to == Presented && !gate then Err(GateRefused)
      else Ok(Put(s, id, Bumped(p).(status := to, presented := p.presented || to == Presented)))
  }

  function RegisterAcceptance(s: Store, id: PackageId, version: nat): Result<Store, Error> {
    var problem := Open(s, id, Some(version));
    if problem.Some? then Err(problem.value)
    else
      var p := s.packages[id];
      if p.status != Presented then Err(TransitionRefused)
      else if p.portions == {} then Err(ScopeRequired)
      else if |p.documents| == 0 then Err(NoDocuments)
      else if |CurrentVersions(p.documents)| != |p.documents| then Err(DocumentWithoutVersion)
      else Ok(Put(s, id, Bumped(p).(status := AcceptedByCustomer, acceptances := p.acceptances + [CurrentVersions(p.documents)])))
  }

  function ReturnToCorrection(s: Store, id: PackageId, version: nat): Result<Store, Error> {
    var problem := Open(s, id, Some(version));
    if problem.Some? then Err(problem.value)
    else
      var p := s.packages[id];
      if p.status != AcceptedByCustomer then Err(NotAccepted)
      else if p.closing.Some? then Err(CaseExists)
      else Ok(Put(s, id, Bumped(p).(status := Correcting)))
  }

  function Archive(s: Store, id: PackageId, version: nat, reason: string): Result<Store, Error> {
    var problem := Open(s, id, Some(version));
    if problem.Some? then Err(problem.value)
    else
      var p := s.packages[id];
      if reason == "" then Err(ReasonRequired)
      else if p.status !in {Draft, Preparing} || p.closing.Some? || p.acceptances != [] || p.recorded || p.presented || p.generated then Err(NotArchivable)
      else Ok(Put(s, id, Bumped(p).(archived := true)))
  }

  // ---------------------------------------------------------------- the closing case

  function Handoff(s: Store, id: PackageId, version: nat): Result<Store, Error> {
    var problem := Open(s, id, Some(version));
    if problem.Some? then Err(problem.value)
    else
      var p := s.packages[id];
      if !Ready(p, s.confirmations) then Err(NotReady)
      else if Locked(p) then Err(AlreadyHandedOff)
      else
        var c := if p.closing.Some? then p.closing.value.(locked := true, version := p.closing.value.version + 1)
                 else Case(OnReconciliation, true, 1, None, [], [], [], None);
        Ok(Put(s, id, p.(closing := Some(c))))
  }

  /** The case of a package at a version; its operations do not look at the archive mark. */
  function CaseAt(s: Store, id: PackageId, version: Option<nat>): (r: Option<Error>)
    ensures r.None? ==> id in s.packages && s.packages[id].closing.Some? && (version.Some? ==> s.packages[id].closing.value.version == version.value)
  {
    if id !in s.packages || s.packages[id].closing.None? then Some(NotFound)
    else if version.Some? && s.packages[id].closing.value.version != version.value then Some(VersionConflict)
    else None
  }

  function WithCase(p: Package, c: Case): Package
    requires p.closing.Some?
  {
    p.(closing := Some(c.(version := p.closing.value.version + 1)))
  }

  function ReturnToPto(s: Store, id: PackageId, version: nat): Result<Store, Error> {
    var problem := CaseAt(s, id, Some(version));
    if problem.Some? then Err(problem.value)
    else
      var p, c := s.packages[id], s.packages[id].closing.value;
      if c.status == Closed then Err(CaseClosed)
      else if !c.locked then Err(AlreadyReturned)
      else if p.status != AcceptedByCustomer then Err(NotAccepted)
      else Ok(Put(s, id, Bumped(WithCase(p, c.(locked := false))).(status := Correcting)))
  }

  /** Whoever keeps the case can be replaced at any time, a closed case included. */
  function AssignResponsible(s: Store, id: PackageId, version: nat, user: UserId, active: bool): Result<Store, Error> {
    var problem := CaseAt(s, id, Some(version));
    if problem.Some? then Err(problem.value)
    else if !active then Err(NotActive)
    else Ok(Put(s, id, WithCase(s.packages[id], s.packages[id].closing.value.(responsible := Some(user)))))
  }

  function ChangeCaseStatus(s: Store, id: PackageId, version: nat, to: CaseStatus, reason: string): Result<Store, Error> {
    var problem := CaseAt(s, id, Some(version));
    if problem.Some? then Err(problem.value)
    else
      var p, c := s.packages[id], s.packages[id].closing.value;
      if !c.locked then Err(Suspended)
      else if !CaseTransitionAllowed(c.status, to) then Err(TransitionRefused)
      else if to == OnCorrection && c.status in {VerificationPassed, Closed} && reason == "" then Err(ReasonRequired)
      else if to == Closed && !Ready(p, s.confirmations) then Err(NotReady)
      else if to == Closed && !CanClose(c) then Err(CannotClose)
      else Ok(Put(s, id, WithCase(p, c.(status := to))))
  }

  /** Amounts and allocations change only while the case is held and not closed. */
  function Workable(s: Store, id: PackageId, version: Option<nat>): (r: Option<Error>)
    ensures r.None? ==> id in s.packages && s.packages[id].closing.Some? && s.packages[id].closing.value.locked
                        && s.packages[id].closing.value.status != Closed
  {
    var problem := CaseAt(s, id, version);
    if problem.Some? then problem
    else if !s.packages[id].closing.value.locked then Some(Suspended)
    else if s.packages[id].closing.value.status == Closed then Some(CaseClosed)
    else None
  }

  function SetAmount(s: Store, id: PackageId, version: nat, amount: int): Result<Store, Error> {
    var problem := Workable(s, id, Some(version));
    if problem.Some? then Err(problem.value)
    else
      var p, c := s.packages[id], s.packages[id].closing.value;
      Ok(Put(s, id, WithCase(p, c.(total := Some(amount), amounts := c.amounts + [AmountRow(c.total, amount)]))))
  }

  /** The row of a portion; there is at most one. */
  function AllocationOf(xs: seq<Allocation>, x: PortionId): (r: Option<nat>)
    ensures r.Some? ==> r.value < |xs| && xs[r.value].portion == x
    ensures r.None? ==> forall i :: 0 <= i < |xs| ==> xs[i].portion != x
  {
    if xs == [] then None
    else
      var r := AllocationOf(xs[..|xs| - 1], x);
      if r.Some? then r else if xs[|xs| - 1].portion == x then Some(|xs| - 1) else None
  }

  function SetAllocation(s: Store, id: PackageId, x: PortionId, version: nat, amount: int): Result<Store, Error> {
    var problem := Workable(s, id, None);
    if problem.Some? then Err(problem.value)
    else
      var p, c := s.packages[id], s.packages[id].closing.value;
      var at := AllocationOf(c.allocations, x);
      if x !in p.portions then Err(NotInPackage)
      else if at.Some? && c.allocations[at.value].version != version then Err(VersionConflict)
      else Ok(Put(s, id, p.(closing := Some(Allocated(c, x, at, amount)))))
  }

  function Allocated(c: Case, x: PortionId, at: Option<nat>, amount: int): Case
    requires at.Some? ==> at.value < |c.allocations|
  {
    if at.None? then
      c.(allocations := c.allocations + [Allocation(x, amount, false, 1)],
         allocationRows := c.allocationRows + [AllocationRow(x, None, Some(amount), Create)])
    else
      var a := c.allocations[at.value];
      c.(allocations := c.allocations[at.value := a.(amount := amount, cancelled := false, version := a.version + 1)],
         allocationRows := c.allocationRows + [AllocationRow(x, Some(a.amount), Some(amount), if a.cancelled then Restore else Correct)])
  }

  function CancelAllocation(s: Store, id: PackageId, x: PortionId, version: nat): Result<Store, Error> {
    var problem := Workable(s, id, None);
    if problem.Some? then Err(problem.value)
    else
      var p, c := s.packages[id], s.packages[id].closing.value;
      var at := AllocationOf(c.allocations, x);
      if at.None? then Err(NoAllocation)
      else if c.allocations[at.value].cancelled then Err(AlreadyCancelled)
      else if c.allocations[at.value].version != version then Err(VersionConflict)
      else Ok(Put(s, id, p.(closing := Some(Cancelled(c, at.value)))))
  }

  function Cancelled(c: Case, at: nat): Case
    requires at < |c.allocations|
  {
    var a := c.allocations[at];
    c.(allocations := c.allocations[at := a.(cancelled := true, version := a.version + 1)],
       allocationRows := c.allocationRows + [AllocationRow(a.portion, Some(a.amount), None, Cancel)])
  }

  // ---------------------------------------------------------------- quantities

  datatype Item = Item(portion: PortionId, quantity: real)

  /** The rows written by one recording; they share its time. */
  function Recorded(items: seq<Item>, at: int): (r: seq<Confirmation>)
    ensures |r| == |items|
    ensures forall i :: 0 <= i < |items| ==> r[i] == Confirmation(items[i].portion, CustomerSc, RoundHalfUp(items[i].quantity), at)
  {
    seq(|items|, i requires 0 <= i < |items| => Confirmation(items[i].portion, CustomerSc, RoundHalfUp(items[i].quantity), at))
  }

  function RecordCustomerQuantity(s: Store, id: PackageId, items: seq<Item>, at: int, gate: bool): Result<Store, Error> {
    var problem := Open(s, id, None);
    if problem.Some? then Err(problem.value)
    else
      var p := s.packages[id];
      if Locked(p) then Err(ContentFrozen)
      else if p.status !in {Presented, AcceptedByCustomer} then Err(TransitionRefused)
      else if !gate then Err(GateRefused)
      else if exists i :: 0 <= i < |items| && items[i].portion !in p.portions then Err(NotInPackage)
      else Ok(Put(s, id, p.(recorded := p.recorded || items != [])).(confirmations := s.confirmations + Recorded(items, at)))
  }

  /** An accepted inspection of a portion leaves a confirmation; the customer's must be positive after rounding. */
  function AcceptInspection(s: Store, x: PortionId, source: Source, quantity: real, at: int): Result<Store, Error> {
    if x !in s.portions then Err(NotFound)
    else if source == CustomerSc && RoundHalfUp(quantity) <= 0 then Err(NotPositive)
    else Ok(s.(confirmations := s.confirmations + [Confirmation(x, source, RoundHalfUp(quantity), at)]))
  }

  // ---------------------------------------------------------------- runs

  datatype Command =
    | AddPortion(portion: PortionId, work: WorkId)
    | DoCreatePackage(id: PackageId, work: WorkId, scope: set<PortionId>)
    | DoLinkPortion(id: PackageId, portion: PortionId)
    | DoCreateDocument(id: PackageId, document: DocumentId, dedicated: bool)
    | DoCreateVersion(id: PackageId, document: DocumentId, kind: VersionKind)
    | DoChangeStatus(id: PackageId, version: nat, status: Status, gate: bool)
    | DoRegisterAcceptance(id: PackageId, version: nat)
    | DoReturnToCorrection(id: PackageId, version: nat)
    | DoArchive(id: PackageId, version: nat, reason: string)
    | DoHandoff(id: PackageId, version: nat)
    | DoReturnToPto(id: PackageId, version: nat)
    | DoChangeCaseStatus(id: PackageId, version: nat, caseStatus: CaseStatus, reason: string)
    | DoSetAmount(id: PackageId, version: nat, amount: int)
    | DoSetAllocation(id: PackageId, portion: PortionId, version: nat, amount: int)
    | DoCancelAllocation(id: PackageId, portion: PortionId, version: nat)
    | DoRecordCustomerQuantity(id: PackageId, items: seq<Item>, at: int, gate: bool)
    | DoAcceptInspection(portion: PortionId, source: Source, quantity: real, at: int)
    | DoEditPackage(id: PackageId, version: nat, sameResponsible: bool)
    | DoAssignResponsible(id: PackageId, version: nat, user: UserId, active: bool)

  function Step(s: Store, c: Command): Result<Store, Error> {
    match c
    case AddPortion(x, w) => if x in s.portions then Err(IdentifierTaken) else Ok(s.(portions := s.portions[x := w]))
    case DoCreatePackage(id, w, xs) => CreatePackage(s, id, w, xs)
    case DoLinkPortion(id, x) => LinkPortion(s, id, x)
    case DoCreateDocument(id, d, dedicated) => CreateDocument(s, id, d, dedicated)
    case DoCreateVersion(id, d, kind) => CreateVersion(s, id, d, kind)
    case DoChangeStatus(id, v, to, gate) => ChangeStatus(s, id, v, to, gate)
    case DoRegisterAcceptance(id, v) => RegisterAcceptance(s, id, v)
    case DoReturnToCorrection(id, v) => ReturnToCorrection(s, id, v)
    case DoArchive(id, v, reason) => Archive(s, id, v, reason)
    case DoHandoff(id, v) => Handoff(s, id, v)
    case DoReturnToPto(id, v) => ReturnToPto(s, id, v)
    case DoChangeCaseStatus(id, v, to, reason) => ChangeCaseStatus(s, id, v, to, reason)
    case DoSetAmount(id, v, amount) => SetAmount(s, id, v, amount)
    case DoSetAllocation(id, x, v, amount) => SetAllocation(s, id, x, v, amount)
    case DoCancelAllocation(id, x, v) => CancelAllocation(s, id, x, v)
    case DoRecordCustomerQuantity(id, items, at, gate) => RecordCustomerQuantity(s, id, items, at, gate)
    case DoAcceptInspection(x, source, q, at) => AcceptInspection(s, x, source, q, at)
    case DoEditPackage(id, v, same) => EditPackage(s, id, v, same)
    case DoAssignResponsible(id, v, user, active) => AssignResponsible(s, id, v, user, active)
  }

  /** A refused command changes nothing. */
  function After(s: Store, c: Command): Store {
    var r := Step(s, c);
    if r.Ok? then r.value else s
  }

  function Run(s: Store, cs: seq<Command>): Store {
    if cs == [] then s else After(Run(s, cs[..|cs| - 1]), cs[|cs| - 1])
  }
}
