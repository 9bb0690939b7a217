/** Why each operation on packages and cases is refused: every reason the operations give is true of the state they are asked in. */
module DocumentationRefusals {
  import opened Wrappers
  import opened DocumentationModel
  import opened DocumentationInvariants
  import opened DocumentationProtocol

  predicate NotOfWork(s: Store, x: PortionId, work: WorkId) { x !in s.portions || s.portions[x] != work }

  /** Another active package of the work has the portion. */
  predicate TakenBy(s: Store, q: PackageId, x: PortionId, work: WorkId) {
    q in s.packages && !s.packages[q].archived && s.packages[q].work == work && x in s.packages[q].portions
  }

  /** A package that is not there, is archived, or has another version. */
  ghost predicate PackageRefusable(s: Store, id: PackageId, version: Option<nat>, e: Error) {
    match e
    case NotFound => id !in s.packages
    case Archived => id in s.packages && s.packages[id].archived
    case VersionConflict => Active(s, id) && version != None && version != Some(s.packages[id].version)
    case _ => false
  }

  ghost predicate CreateRefusable(s: Store, id: PackageId, work: WorkId, xs: set<PortionId>, e: Error) {
    match e
    case IdentifierTaken => id in s.packages
    case ScopeRequired => xs == {}
    case ForeignPortion => exists x :: x in xs && NotOfWork(s, x, work)
    case AlreadyCovered => exists q, x :: x in xs && TakenBy(s, q, x, work)
    case _ => false
  }

  ghost predicate ContentRefusable(s: Store, c: Command, e: Error)
    requires IsContentCommand(c)
  {
    match e
    case ContentFrozen => Active(s, c.id) && !CanMutateContent(s.packages[c.id])
    case ForeignPortion => c.DoLinkPortion? && Active(s, c.id) && NotOfWork(s, c.portion, s.packages[c.id].work)
    case AlreadyLinked => c.DoLinkPortion? && Active(s, c.id) && c.portion in s.packages[c.id].portions
    case AlreadyCovered => c.DoLinkPortion? && Active(s, c.id) && exists q :: q != c.id && TakenBy(s, q, c.portion, s.packages[c.id].work)
    case DedicatedType => c.DoCreateDocument? && c.dedicated
    case IdentifierTaken => c.DoCreateDocument? && Active(s, c.id) && c.document in s.packages[c.id].documents
    case NotFound => c.id !in s.packages || (c.DoCreateVersion? && c.kind == Plain && c.document !in s.packages[c.id].documents)
    case _ => PackageRefusable(s, c.id, None, e)
  }

  predicate IsRouteCommand(c: Command) {
    c.DoChangeStatus? || c.DoRegisterAcceptance? || c.DoReturnToCorrection? || c.DoArchive? || c.DoEditPackage?
  }

  ghost predicate RouteRefusable(s: Store, c: Command, e: Error)
    requires IsRouteCommand(c)
  {
    PackageRefusable(s, c.id, Some(c.version), e)
    || (Active(s, c.id)
        && var p := s.packages[c.id];
           match e
           case TransitionRefused => (c.DoChangeStatus? && (p.status, c.status) !in ROUTE) || (c.DoRegisterAcceptance? && p.status != Presented)
           case ScopeRequired => (c.DoChangeStatus? || c.DoRegisterAcceptance?) && p.portions == {}
           case GateRefused => c.DoChangeStatus? && c.status == Presented && !c.gate
           case NoDocuments => c.DoRegisterAcceptance? && p.documents == map[]
           case DocumentWithoutVersion => c.DoRegisterAcceptance? && exists d :: d in p.documents && p.documents[d] == 0
           case NotAccepted => c.DoReturnToCorrection? && p.status != AcceptedByCustomer
           case CaseExists => c.DoReturnToCorrection? && p.closing != None
           case ReasonRequired => c.DoArchive? && c.reason == ""
           case NotArchivable =>
             c.DoArchive? && ((p.status != Draft && p.status != Preparing) || p.closing != None || p.acceptances != [] || p.recorded || p.presented || p.generated)
           case ResponsibleFixed => c.DoEditPackage? && !c.sameResponsible
           case _ => false)
  }

  /** A case that is not there or has another version. */
  ghost predicate CaseRefusable(s: Store, id: PackageId, version: Option<nat>, e: Error) {
    match e
    case NotFound => !HasCase(s, id)
    case VersionConflict => HasCase(s, id) && version != None && version != Some(s.packages[id].closing.value.version)
    case _ => false
  }

  /** A case that may not go where it is asked to. */
  ghost predicate MoveRefusable(k: Case, ready: bool, to: CaseStatus, reason: string, e: Error) {
    match e
    case Suspended => !k.locked
    case TransitionRefused => (k.status, to) !in CASE_ROUTE
    case ReasonRequired => to == OnCorrection && k.status != OnReconciliation && reason == ""
    case NotReady => to == Closed && !ready
    case CannotClose => to == Closed && !Balanced(k)
    case _ => false
  }

  ghost predicate KeepingRefusable(s: Store, c: Command, e: Error)
    requires c.DoReturnToPto? || c.DoChangeCaseStatus? || c.DoAssignResponsible?
  {
    CaseRefusable(s, c.id, Some(c.version), e)
    || (HasCase(s, c.id)
        && var p, k := s.packages[c.id], s.packages[c.id].closing.value;
           match e
           case CaseClosed => c.DoReturnToPto? && k.status == Closed
           case AlreadyReturned => c.DoReturnToPto? && !k.locked
           case NotAccepted => c.DoReturnToPto? && p.status != AcceptedByCustomer
           case NotActive => c.DoAssignResponsible? && !c.active
           case _ => c.DoChangeCaseStatus? && MoveRefusable(k, Ready(p, s.confirmations), c.caseStatus, c.reason, e))
  }

  /** A package that is accepted, of portions all confirmed, is ready; so one of these is missing. */
  ghost predicate HandoffRefusable(s: Store, id: PackageId, version: nat, e: Error) {
    PackageRefusable(s, id, Some(version), e)
    || (Active(s, id)
        && match e
           case NotReady => s.packages[id].status != AcceptedByCustomer || exists x :: x in s.packages[id].portions && !CustomerReady(s.confirmations, x)
           case AlreadyHandedOff => Locked(s.packages[id])
           case _ => false)
  }

  ghost predicate AmountRefusable(s: Store, c: Command, e: Error)
    requires IsAmountCommand(c)
  {
    CaseRefusable(s, c.id, if c.DoSetAmount? then Some(c.version) else None, e)
    || (HasCase(s, c.id)
        && var p, k := s.packages[c.id], s.packages[c.id].closing.value;
           match e
           case Suspended => !k.locked
           case CaseClosed => k.status == Closed
           case NotInPackage => c.DoSetAllocation? && c.portion !in p.portions
           case NoAllocation => c.DoCancelAllocation? && forall i :: 0 <= i < |k.allocations| ==> k.allocations[i].portion != c.portion
           case AlreadyCancelled =>
             c.DoCancelAllocation? && exists i :: 0 <= i < |k.allocations| && k.allocations[i].portion == c.portion && k.allocations[i].cancelled
           case VersionConflict =>
             !c.DoSetAmount? && exists i :: 0 <= i < |k.allocations| && k.allocations[i].portion == c.portion && k.allocations[i].version != c.version
           case _ => false)
  }

  ghost predicate RecordingRefusable(s: Store, c: Command, e: Error)
    requires c.DoRecordCustomerQuantity?
  {
    PackageRefusable(s, c.id, None, e)
    || (Active(s, c.id)
        && var p := s.packages[c.id];
           match e
           case ContentFrozen => Locked(p)
           case TransitionRefused => p.status != Presented && p.status != AcceptedByCustomer
           case GateRefused => !c.gate
           case NotInPackage => exists i :: 0 <= i < |c.items| && c.items[i].portion !in p.portions
           case _ => false)
  }

  // ---------------------------------------------------------------- by kind of operation

  lemma CreateRefused(s: Store, id: PackageId, work: WorkId, xs: set<PortionId>, e: Error)
    requires CreatePackage(s, id, work, xs) == Err(e)
    ensures CreateRefusable(s, id, work, xs, e)
  {
    if e == AlreadyCovered {
      OverlapNames(s, work, xs, None);
    }
  }

  lemma OverlapNames(s: Store, work: WorkId, xs: set<PortionId>, besides: Option<PackageId>)
    requires Overlaps(s.packages, work, xs, besides)
    ensures exists q: PackageId, x :: Some(q) != besides && x in xs && TakenBy(s, q, x, work)
  {
    var q :| q in s.packages && s.packages[q].work == work && !s.packages[q].archived && Some(q) != besides && s.packages[q].portions * xs != {};
    var x :| x in s.packages[q].portions * xs;
    assert TakenBy(s, q, x, work);
  }

  lemma LinkRefused(s: Store, c: Command, e: Error)
    requires c.DoLinkPortion? && Step(s, c) == Err(e)
    ensures ContentRefusable(s, c, e)
  {
    if e == AlreadyCovered {
      OverlapNames(s, s.packages[c.id].work, {c.portion}, Some(c.id));
    }
  }

  lemma DocumentRefused(s: Store, c: Command, e: Error)
    requires (c.DoCreateDocument? || c.DoCreateVersion?) && Step(s, c) == Err(e)
    ensures ContentRefusable(s, c, e)
  {
  }

  lemma OpenRefused(s: Store, id: PackageId, version: Option<nat>, e: Error)
    requires Open(s, id, version) == Some(e)
    ensures PackageRefusable(s, id, version, e)
  {
  }

  lemma RouteRefused(s: Store, id: PackageId, version: nat, to: Status, gate: bool, p: Package, e: Error)
    requires Open(s, id, Some(version)) == None && p == s.packages[id] && ChangeStatus(s, id, version, to, gate) == Err(e)
    ensures (e == TransitionRefused && (p.status, to) !in ROUTE) || (e == ScopeRequired && p.portions == {})
            || (e == GateRefused && to == Presented && !gate)
  {
    RoutesExactly(p.status, to, Closed, Closed);
  }

  lemma StatusRefused(s: Store, c: Command, e: Error)
    requires c.DoChangeStatus? && ChangeStatus(s, c.id, c.version, c.status, c.gate) == Err(e)
    ensures RouteRefusable(s, c, e)
  {
    if Open(s, c.id, Some(c.version)).Some? {
      OpenRefused(s, c.id, Some(c.version), e);
    } else {
      RouteRefused(s, c.id, c.version, c.status, c.gate, s.packages[c.id], e);
    }
  }

  lemma CorrectionRefused(s: Store, c: Command, e: Error)
    requires (c.DoEditPackage? || c.DoReturnToCorrection?) && Step(s, c) == Err(e)
    ensures RouteRefusable(s, c, e)
  {
  }

  lemma ArchiveRefused(s: Store, c: Command, e: Error)
    requires c.DoArchive? && Step(s, c) == Err(e)
    ensures RouteRefusable(s, c, e)
  {
  }

  lemma SomeHasNoVersion(documents: map<DocumentId, nat>)
    requires |CurrentVersions(documents)| != |documents|
    ensures exists d :: d in documents && documents[d] == 0
  {
    VersionsCount(documents, documents.Keys);
    assert CurrentVersions(documents) == VersionsOf(documents, documents.Keys);
    assert |documents.Keys| == |documents|;
  }

  lemma AcceptanceRefused(s: Store, c: Command, e: Error)
    requires c.DoRegisterAcceptance? && Step(s, c) == Err(e)
    ensures RouteRefusable(s, c, e)
  {
    if e == DocumentWithoutVersion {
      SomeHasNoVersion(s.packages[c.id].documents);
    }
  }

  lemma ReturnRefused(s: Store, c: Command, e: Error)
    requires (c.DoReturnToPto? || c.DoAssignResponsible?) && Step(s, c) == Err(e)
    ensures KeepingRefusable(s, c, e)
  {
  }

  lemma MoveRefused(s: Store, id: PackageId, version: nat, to: CaseStatus, reason: string, k: Case, e: Error)
    requires id in s.packages && s.packages[id].closing == Some(k) && k.version == version && ChangeCaseStatus(s, id, version, to, reason) == Err(e)
    ensures MoveRefusable(k, Ready(s.packages[id], s.confirmations), to, reason, e)
  {
    RoutesExactly(Draft, Draft, k.status, to);
  }

  lemma NoCaseToMove(s: Store, id: PackageId, version: nat, to: CaseStatus, reason: string, e: Error)
    requires HasCase(s, id) ==> s.packages[id].closing.value.version != version
    requires ChangeCaseStatus(s, id, version, to, reason) == Err(e)
    ensures CaseRefusable(s, id, Some(version), e)
  {
  }

  lemma CaseStatusRefused(s: Store, c: Command, e: Error)
    requires c.DoChangeCaseStatus? && ChangeCaseStatus(s, c.id, c.version, c.caseStatus, c.reason) == Err(e)
    ensures KeepingRefusable(s, c, e)
  {
    if HasCase(s, c.id) && s.packages[c.id].closing.value.version == c.version {
      MoveRefused(s, c.id, c.version, c.caseStatus, c.reason, s.packages[c.id].closing.value, e);
    } else {
      NoCaseToMove(s, c.id, c.version, c.caseStatus, c.reason, e);
    }
  }

  lemma HandoffRefused(s: Store, id: PackageId, version: nat, e: Error)
    requires Inv(s) && AllHavePortions(s) && Handoff(s, id, version) == Err(e)
    ensures HandoffRefusable(s, id, version, e)
  {
    if id in s.packages {
      assert PackageFits(s.packages[id], s.portions, s.confirmations);
    }
  }

  lemma SettingRefused(s: Store, c: Command, e: Error)
    requires (c.DoSetAmount? || c.DoSetAllocation?) && Step(s, c) == Err(e)
    ensures AmountRefusable(s, c, e)
  {
  }

  lemma CancellingRefused(s: Store, c: Command, e: Error)
    requires c.DoCancelAllocation? && Step(s, c) == Err(e)
    ensures AmountRefusable(s, c, e)
  {
  }

  lemma RecordingRefused(s: Store, c: Command, e: Error)
    requires c.DoRecordCustomerQuantity? && Step(s, c) == Err(e)
    ensures RecordingRefusable(s, c, e)
  {
  }

  /** What makes the reason true of the command. */
  ghost predicate Refusable(s: Store, c: Command, e: Error) {
    if IsContentCommand(c) then ContentRefusable(s, c, e)
    else if IsRouteCommand(c) then RouteRefusable(s, c, e)
    else if IsAmountCommand(c) then AmountRefusable(s, c, e)
    else if c.DoReturnToPto? || c.DoChangeCaseStatus? || c.DoAssignResponsible? then KeepingRefusable(s, c, e)
    else match c
         case AddPortion(x, _) => e == IdentifierTaken && x in s.portions
         case DoCreatePackage(id, work, xs) => CreateRefusable(s, id, work, xs, e)
         case DoHandoff(id, version) => HandoffRefusable(s, id, version, e)
         case DoRecordCustomerQuantity(_, _, _, _) => RecordingRefusable(s, c, e)
         case DoAcceptInspection(x, source, quantity, _) =>
           (e == NotFound && x !in s.portions) || (e == NotPositive && source == CustomerSc && quantity < HALF_UNIT)
         case _ => false
  }

  lemma PackageCommandRefused(s: Store, c: Command, e: Error)
    requires (IsContentCommand(c) || IsRouteCommand(c)) && Step(s, c) == Err(e)
    ensures if IsContentCommand(c) then ContentRefusable(s, c, e) else RouteRefusable(s, c, e)
  {
    if c.DoLinkPortion? {
      LinkRefused(s, c, e);
    } else if IsContentCommand(c) {
      DocumentRefused(s, c, e);
    } else if c.DoRegisterAcceptance? {
      AcceptanceRefused(s, c, e);
    } else if c.DoChangeStatus? {
      StatusRefused(s, c, e);
    } else if c.DoArchive? {
      ArchiveRefused(s, c, e);
    } else {
      CorrectionRefused(s, c, e);
    }
  }

  lemma CaseCommandRefused(s: Store, c: Command, e: Error)
    requires (IsAmountCommand(c) || c.DoReturnToPto? || c.DoChangeCaseStatus? || c.DoAssignResponsible?) && Step(s, c) == Err(e)
    ensures if IsAmountCommand(c) then AmountRefusable(s, c, e) else KeepingRefusable(s, c, e)
  {
    if c.DoCancelAllocation? {
      CancellingRefused(s, c, e);
    } else if IsAmountCommand(c) {
      SettingRefused(s, c, e);
    } else if c.DoChangeCaseStatus? {
      CaseStatusRefused(s, c, e);
    } else {
      ReturnRefused(s, c, e);
    }
  }

  lemma InspectionRefused(s: Store, c: Command, e: Error)
    requires c.DoAcceptInspection? && Step(s, c) == Err(e)
    ensures (e == NotFound && c.portion !in s.portions) || (e == NotPositive && c.source == CustomerSc && c.quantity < HALF_UNIT)
  {
    RoundedPositive(c.quantity);
  }

  /** After any run, whatever is refused is refused for a reason that is true. */
  lemma RefusedBecause(cs: seq<Command>, s: Store, c: Command, e: Error)
    requires s == Run(EMPTY_STORE, cs) && Step(s, c) == Err(e)
    ensures Refusable(s, c, e)
  {
    if IsContentCommand(c) || IsRouteCommand(c) {
      PackageCommandRefused(s, c, e);
    } else if IsAmountCommand(c) || c.DoReturnToPto? || c.DoChangeCaseStatus? || c.DoAssignResponsible? {
      CaseCommandRefused(s, c, e);
    } else if c.DoHandoff? {
      RunsKeepInvariant(cs);
      RunsKeepPortions(cs);
      HandoffRefused(s, c.id, c.version, e);
    } else if c.DoRecordCustomerQuantity? {
      RecordingRefused(s, c, e);
    } else if c.DoAcceptInspection? {
      InspectionRefused(s, c, e);
    } else if c.DoCreatePackage? {
      CreateRefused(s, c.id, c.work, c.scope, e);
    }
  }
}
