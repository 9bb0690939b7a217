/** What the operations on packages and cases mean to each other: which route leads where, what stales what, what undoes what. */
module DocumentationProtocol {
  import opened Wrappers
  import opened DocumentationModel
  import opened DocumentationInvariants

  // ---------------------------------------------------------------- nothing is ever lost

  /** Everything that only grows: portions, documents, acceptances and both histories of the case. */
  ghost predicate Grows(p: Package, q: Package) {
    && q.work == p.work && p.portions <= q.portions && DocumentsGrow(p.documents, q.documents) && p.acceptances <= q.acceptances
    && (p.closing.Some? ==> q.closing.Some? && p.closing.value.amounts <= q.closing.value.amounts
                            && p.closing.value.allocationRows <= q.closing.value.allocationRows)
  }

  lemma GrowsOn(p: Package, q: Package, r: Package)
    requires Grows(p, q) && Grows(q, r)
    ensures Grows(p, r)
  {
    assert forall d :: d in p.documents ==> d in q.documents && p.documents[d] <= q.documents[d];
  }

  /** Over any run of operations on any packages, a package never goes and loses no portion, document, version, acceptance or history row. */
  lemma {:induction false} NothingIsLost(s: Store, cs: seq<Command>, id: PackageId)
    requires id in s.packages
    ensures id in Run(s, cs).packages && Grows(s.packages[id], Run(s, cs).packages[id])
  {
    if cs != [] {
      var t, c := Run(s, cs[..|cs| - 1]), cs[|cs| - 1];
      NothingIsLost(s, cs[..|cs| - 1], id);
      StepMoves(t, c, id);
      GrowsOn(s.packages[id], t.packages[id], After(t, c).packages[id]);
    }
  }

  // ---------------------------------------------------------------- into and out of acceptance

  /** A package becomes accepted only by registering the acceptance of a presented one, and what is accepted is the current version of each document. */
  lemma AcceptedOnlyByRegistering(s: Store, c: Command, id: PackageId)
    requires Inv(s) && id in s.packages && s.packages[id].status != AcceptedByCustomer
    requires id in After(s, c).packages && After(s, c).packages[id].status == AcceptedByCustomer
    ensures var p, q := s.packages[id], After(s, c).packages[id];
            && c.DoRegisterAcceptance? && p.status == Presented && q.documents != map[]
            && (forall d :: d in q.documents ==> q.documents[d] > 0)
            && |q.acceptances| == |p.acceptances| + 1 && q.acceptances[|p.acceptances|] == CurrentVersions(q.documents)
  {
    var p, q := s.packages[id], After(s, c).packages[id];
    StepMoves(s, c, id);
    StepKeepsInvariant(s, c);
    assert PackageFits(q, After(s, c).portions, After(s, c).confirmations);
    AcceptedPackageIsCurrent(q);
    assert q.acceptances == p.acceptances || q.acceptances == p.acceptances + [CurrentVersions(p.documents)];
    if q.acceptances == p.acceptances {
      RegisteringAppends(s, c, id);
    }
  }

  lemma RegisteringAppends(s: Store, c: Command, id: PackageId)
    requires id in s.packages && c.DoRegisterAcceptance? && id in After(s, c).packages
    requires s.packages[id].status != AcceptedByCustomer && After(s, c).packages[id].status == AcceptedByCustomer
    ensures |After(s, c).packages[id].acceptances| == |s.packages[id].acceptances| + 1
  {
  }

  /** Acceptance is left only for correction, and by one door: before any handoff by PTO, from then on by returning the held and unclosed case. */
  lemma OneDoorOutOfAcceptance(s: Store, c: Command, id: PackageId)
    requires id in s.packages && s.packages[id].status == AcceptedByCustomer
    requires id in After(s, c).packages && After(s, c).packages[id].status != AcceptedByCustomer
    ensures After(s, c).packages[id].status == Correcting
    ensures c.DoReturnToCorrection? <==> s.packages[id].closing.None?
    ensures c.DoReturnToPto? <==> s.packages[id].closing.Some?
    ensures c.DoReturnToPto? ==>
              Locked(s.packages[id]) && s.packages[id].closing.value.status != Closed && !Locked(After(s, c).packages[id])
  {
    StepMoves(s, c, id);
  }

  // ---------------------------------------------------------------- what stales an acceptance

  /** No acceptance names a version that does not exist yet. */
  ghost predicate AcceptancesFit(p: Package) {
    forall i, v :: 0 <= i < |p.acceptances| && v in p.acceptances[i] ==> v.0 in p.documents && v.1 <= p.documents[v.0]
  }

  ghost predicate AllAcceptancesFit(s: Store) { forall id :: id in s.packages ==> AcceptancesFit(s.packages[id]) }

  lemma MoveKeepsAcceptances(p: Package, q: Package, c: Command)
    requires AcceptancesFit(p) && Moves(p, q, c)
    ensures AcceptancesFit(q)
  {
    forall i, v | 0 <= i < |q.acceptances| && v in q.acceptances[i] ensures v.0 in q.documents && v.1 <= q.documents[v.0] {
      if i < |p.acceptances| {
        assert q.acceptances[i] == p.acceptances[i];
      }
      assert v.0 in p.documents && v.1 <= p.documents[v.0];
    }
  }

  lemma NewPackageIsBare(s: Store, c: Command, id: PackageId)
    requires id !in s.packages && id in After(s, c).packages
    ensures After(s, c).packages[id].acceptances == []
  {
  }

  lemma {:induction false} RunsKeepAcceptances(cs: seq<Command>)
    ensures AllAcceptancesFit(Run(EMPTY_STORE, cs))
  {
    if cs != [] {
      var s, c := Run(EMPTY_STORE, cs[..|cs| - 1]), cs[|cs| - 1];
      RunsKeepAcceptances(cs[..|cs| - 1]);
      forall id | id in After(s, c).packages ensures AcceptancesFit(After(s, c).packages[id]) {
        if id in s.packages {
          StepMoves(s, c, id);
          MoveKeepsAcceptances(s.packages[id], After(s, c).packages[id], c);
        } else {
          NewPackageIsBare(s, c, id);
        }
      }
    }
  }

  lemma ChangedDocumentsAreNew(s: Store, c: Command, id: PackageId)
    requires id in s.packages && id in After(s, c).packages && After(s, c).packages[id].documents != s.packages[id].documents
    requires IsContentCommand(c)
    ensures exists d :: d in After(s, c).packages[id].documents
              && (After(s, c).packages[id].documents[d] == 0 || d !in s.packages[id].documents
                  || After(s, c).packages[id].documents[d] > s.packages[id].documents[d])
  {
    var p, q := s.packages[id], After(s, c).packages[id];
    if c.DoCreateDocument? || c.DoCreateVersion? {
      assert c.id == id;
      assert c.document in q.documents;
    }
  }

  /** As soon as the documents change, no earlier acceptance is current, so the package cannot be handed over before it is accepted again. */
  lemma NewContentStalesAcceptance(cs: seq<Command>, c: Command, id: PackageId, version: nat)
    requires id in Run(EMPTY_STORE, cs).packages && id in After(Run(EMPTY_STORE, cs), c).packages
    requires After(Run(EMPTY_STORE, cs), c).packages[id].documents != Run(EMPTY_STORE, cs).packages[id].documents
    ensures var t := After(Run(EMPTY_STORE, cs), c);
            var q := t.packages[id];
            && (forall i :: 0 <= i < |q.acceptances| ==> !SnapshotCurrent(q.acceptances[i], |q.documents|, CurrentVersions(q.documents)))
            && !HasCustomerAcceptance(q) && Handoff(t, id, version).Err?
  {
    var s := Run(EMPTY_STORE, cs);
    var t := After(s, c);
    var p, q := s.packages[id], t.packages[id];
    RunsKeepAcceptances(cs);
    StepMoves(s, c, id);
    ChangedDocumentsAreNew(s, c, id);
    forall i | 0 <= i < |q.acceptances| ensures !SnapshotCurrent(q.acceptances[i], |q.documents|, CurrentVersions(q.documents)) {
      OldAcceptanceIsStale(p, q, i);
    }
  }

  lemma OldAcceptanceIsStale(p: Package, q: Package, i: nat)
    requires AcceptancesFit(p) && i < |p.acceptances| && q.acceptances == p.acceptances
    requires exists d :: d in q.documents && (q.documents[d] == 0 || d !in p.documents || q.documents[d] > p.documents[d])
    ensures !SnapshotCurrent(q.acceptances[i], |q.documents|, CurrentVersions(q.documents))
  {
    var d :| d in q.documents && (q.documents[d] == 0 || d !in p.documents || q.documents[d] > p.documents[d]);
    SnapshotCurrentExact(q.acceptances[i], q.documents);
    assert (d, q.documents[d]) !in p.acceptances[i] || q.documents[d] == 0;
    assert q.documents[d] > 0 ==> (d, q.documents[d]) in CurrentVersions(q.documents);
  }

  // ---------------------------------------------------------------- portions and archives

  /** A portion can be linked exactly to an editable package and while it is eligible; then it is eligible no longer. */
  lemma LinkExactly(s: Store, id: PackageId, x: PortionId)
    ensures LinkPortion(s, id, x).Ok? <==>
              && id in s.packages && !s.packages[id].archived && CanMutateContent(s.packages[id])
              && x in Eligible(s, s.packages[id].work)
    ensures LinkPortion(s, id, x).Ok? ==> x !in Eligible(LinkPortion(s, id, x).value, s.packages[id].work)
  {
    if id in s.packages && !s.packages[id].archived {
      var p := s.packages[id];
      SingleOverlap(s.packages, p.work, x, id);
      if LinkPortion(s, id, x).Ok? {
        var t := LinkPortion(s, id, x).value;
        assert x in t.packages[id].portions;
      }
    }
  }

  lemma SingleOverlap(packages: map<PackageId, Package>, work: WorkId, x: PortionId, id: PackageId)
    ensures Overlaps(packages, work, {x}, Some(id)) <==>
            exists q :: q in packages && packages[q].work == work && !packages[q].archived && q != id && x in packages[q].portions
  {
    forall q | q in packages ensures packages[q].portions * {x} != {} <==> x in packages[q].portions {
      assert x in packages[q].portions ==> x in packages[q].portions * {x};
    }
  }

  lemma ArchivedStays(s: Store, c: Command, id: PackageId)
    requires AllRoutesFit(s) && id in s.packages && s.packages[id].archived
    ensures id in After(s, c).packages && After(s, c).packages[id] == s.packages[id]
  {
    assert RouteFits(s.packages[id]);
    StepMoves(s, c, id);
  }

  lemma {:induction false} ArchivedRunStays(s: Store, cs: seq<Command>, id: PackageId)
    requires AllRoutesFit(s) && id in s.packages && s.packages[id].archived
    ensures AllRoutesFit(Run(s, cs)) && id in Run(s, cs).packages && Run(s, cs).packages[id] == s.packages[id]
  {
    if cs != [] {
      ArchivedRunStays(s, cs[..|cs| - 1], id);
      ArchivedStays(Run(s, cs[..|cs| - 1]), cs[|cs| - 1], id);
      StepKeepsRoutes(Run(s, cs[..|cs| - 1]), cs[|cs| - 1]);
    }
  }

  /** Once archived, a package never changes again: although the operations on a case do not look at the archive mark, an archived package has no case. */
  lemma ArchivedForever(before: seq<Command>, cs: seq<Command>, id: PackageId)
    requires id in Run(EMPTY_STORE, before).packages && Run(EMPTY_STORE, before).packages[id].archived
    ensures id in Run(Run(EMPTY_STORE, before), cs).packages
    ensures Run(Run(EMPTY_STORE, before), cs).packages[id] == Run(EMPTY_STORE, before).packages[id]
  {
    RunsKeepRoutes(before);
    ArchivedRunStays(Run(EMPTY_STORE, before), cs, id);
  }

  // ---------------------------------------------------------------- the sum of the allocations

  function Share(a: Allocation): int { if a.cancelled then 0 else a.amount }

  /** What the portion adds to the sum. */
  function ActiveAmount(xs: seq<Allocation>, x: PortionId): int {
    var at := AllocationOf(xs, x);
    if at.Some? then Share(xs[at.value]) else 0
  }

  lemma {:induction false} SumUpdate(xs: seq<Allocation>, i: nat, a: Allocation)
    requires i < |xs|
    ensures ActiveSum(xs[i := a]) == ActiveSum(xs) - Share(xs[i]) + Share(a)
    decreases |xs|
  {
    var n := |xs| - 1;
    if i == n {
      assert xs[i := a][..n] == xs[..n];
    } else {
      assert xs[i := a][..n] == xs[..n][i := a];
      SumUpdate(xs[..n], i, a);
    }
  }

  /** Setting an amount moves the sum by the difference to what the portion held before; a cancelled portion held nothing. */
  lemma SetMovesSum(c: Case, x: PortionId, amount: int)
    ensures ActiveSum(Allocated(c, x, AllocationOf(c.allocations, x), amount).allocations)
              == ActiveSum(c.allocations) - ActiveAmount(c.allocations, x) + amount
  {
    var at := AllocationOf(c.allocations, x);
    var xs := Allocated(c, x, at, amount).allocations;
    if at.None? {
      assert xs[..|xs| - 1] == c.allocations;
    } else {
      SumUpdate(c.allocations, at.value, xs[at.value]);
    }
  }

  /** Cancelling takes exactly the portion's amount out of the sum. */
  lemma CancelMovesSum(c: Case, x: PortionId)
    requires AllocationOf(c.allocations, x).Some?
    ensures ActiveSum(Cancelled(c, AllocationOf(c.allocations, x).value).allocations) == ActiveSum(c.allocations) - ActiveAmount(c.allocations, x)
  {
    var at := AllocationOf(c.allocations, x).value;
    SumUpdate(c.allocations, at, Cancelled(c, at).allocations[at]);
  }

  /** Setting the old amount after cancelling brings back the sum and what the portion holds; the history names it a restoration. */
  lemma RestoreUndoesCancel(c: Case, x: PortionId)
    requires HistoryFits(c) && AllocationOf(c.allocations, x).Some? && !c.allocations[AllocationOf(c.allocations, x).value].cancelled
    ensures var at := AllocationOf(c.allocations, x).value;
            var amount, gone := c.allocations[at].amount, Cancelled(c, at);
            var back := Allocated(gone, x, AllocationOf(gone.allocations, x), amount);
            && ActiveSum(back.allocations) == ActiveSum(c.allocations)
            && (forall y :: Held(back.allocations, y) == Held(c.allocations, y))
            && back.allocationRows == c.allocationRows + [AllocationRow(x, Some(amount), None, Cancel), AllocationRow(x, Some(amount), Some(amount), Restore)]
  {
    var at := AllocationOf(c.allocations, x).value;
    var a, gone := c.allocations[at], Cancelled(c, at);
    HeldAfterUpdate(c.allocations, at, gone.allocations[at], x);
    AllocationOfIs(gone.allocations, at);
    var back := Allocated(gone, x, Some(at), a.amount);
    SumUpdate(c.allocations, at, gone.allocations[at]);
    SumUpdate(gone.allocations, at, back.allocations[at]);
    forall y ensures Held(back.allocations, y) == Held(c.allocations, y) {
      HeldAfterUpdate(c.allocations, at, gone.allocations[at], y);
      HeldAfterUpdate(gone.allocations, at, back.allocations[at], y);
      AllocationOfIs(c.allocations, at);
    }
  }

  /** The total, the amounts and the histories move only while the case is held and not closed, and only by the three operations on amounts. */
  lemma BooksMoveOnlyWhileOpen(s: Store, c: Command, id: PackageId)
    requires id in s.packages && s.packages[id].closing.Some?
    ensures id in After(s, c).packages && After(s, c).packages[id].closing.Some?
    ensures var a, b := s.packages[id].closing.value, After(s, c).packages[id].closing.value;
            && a.amounts <= b.amounts && a.allocationRows <= b.allocationRows
            && (!SameBooks(a, b) ==> (c.DoSetAmount? || c.DoSetAllocation? || c.DoCancelAllocation?) && a.locked && a.status != Closed && b.status == a.status)
  {
    StepMoves(s, c, id);
  }

  // ---------------------------------------------------------------- inspections

  /** The smallest quantity that is still positive when it is rounded. */
  const HALF_UNIT := 0.00005

  lemma RoundedPositive(q: real)
    ensures RoundHalfUp(q) > 0 <==> q >= HALF_UNIT
  {
    if q >= 0.0 {
      assert q >= HALF_UNIT <==> q * 10000.0 + 0.5 >= 1.0;
    } else {
      assert -q * 10000.0 + 0.5 > 0.0;
    }
  }

  /** An inspection never takes a confirmation away, whatever its source and time; a customer one later than all before confirms its portion. */
  lemma InspectionOnlyConfirms(s: Store, x: PortionId, source: Source, quantity: real, at: int)
    ensures AcceptInspection(s, x, source, quantity, at).Ok? <==> x in s.portions && (source == CustomerSc ==> quantity >= HALF_UNIT)
    ensures AcceptInspection(s, x, source, quantity, at).Ok? ==>
              forall y :: CustomerReady(s.confirmations, y) ==> CustomerReady(AcceptInspection(s, x, source, quantity, at).value.confirmations, y)
    ensures AcceptInspection(s, x, source, quantity, at).Ok? && source == CustomerSc
            && (forall i :: 0 <= i < |s.confirmations| && IsCustomerRow(s.confirmations[i], x) ==> s.confirmations[i].at < at)
            ==> CustomerReady(AcceptInspection(s, x, source, quantity, at).value.confirmations, x)
  {
    RoundedPositive(quantity);
    if AcceptInspection(s, x, source, quantity, at).Ok? {
      var row := Confirmation(x, source, RoundHalfUp(quantity), at);
      forall y | CustomerReady(s.confirmations, y) ensures CustomerReady(s.confirmations + [row], y) {
        PositiveRowKeepsReady(s.confirmations, [row], y);
      }
      if source == CustomerSc && forall i :: 0 <= i < |s.confirmations| && IsCustomerRow(s.confirmations[i], x) ==> s.confirmations[i].at < at {
        LastRowConfirms(s.confirmations, row);
      }
    }
  }

  lemma LastRowConfirms(cs: seq<Confirmation>, row: Confirmation)
    requires row.source == CustomerSc && row.quantity > 0
    requires forall i :: 0 <= i < |cs| && IsCustomerRow(cs[i], row.portion) ==> cs[i].at < row.at
    ensures CustomerReady(cs + [row], row.portion)
  {
    var all := cs + [row];
    assert IsCustomerRow(all[|cs|], row.portion);
    forall i | 0 <= i < |cs| ensures !IsLatest(all, i, row.portion) {
      assert IsCustomerRow(all[i], row.portion) ==> all[i].at < all[|cs|].at;
    }
  }

  lemma ConfirmedIsReady(cs: seq<Confirmation>, x: PortionId, latest: int)
    requires ConfirmedAt(cs, x, latest)
    ensures CustomerReady(cs, x)
  {
    var k :| 0 <= k < |cs| && cs[k].source == CustomerSc && cs[k].portion == x && cs[k].at == latest;
    assert IsCustomerRow(cs[k], x);
  }

  /** A portion is confirmed exactly when it has a customer row and all those of the latest time, which belong together, are positive. */
  lemma ConfirmedExactly(cs: seq<Confirmation>, x: PortionId)
    ensures CustomerReady(cs, x) <==> exists latest :: ConfirmedAt(cs, x, latest)
  {
    if CustomerReady(cs, x) {
      var i := LatestRow(cs, x, |cs|);
      assert IsLatest(cs, i, x);
      assert forall j :: 0 <= j < |cs| && IsCustomerRow(cs[j], x) && cs[j].at == cs[i].at ==> IsLatest(cs, j, x);
      assert ConfirmedAt(cs, x, cs[i].at);
    }
    if exists latest :: ConfirmedAt(cs, x, latest) {
      var latest :| ConfirmedAt(cs, x, latest);
      ConfirmedIsReady(cs, x, latest);
    }
  }

  /** The customer's last word on the portion is of this time, and positive throughout. */
  ghost predicate ConfirmedAt(cs: seq<Confirmation>, x: PortionId, latest: int) {
    && (exists i :: 0 <= i < |cs| && cs[i].source == CustomerSc && cs[i].portion == x && cs[i].at == latest)
    && forall i :: 0 <= i < |cs| && cs[i].source == CustomerSc && cs[i].portion == x ==> cs[i].at <= latest && (cs[i].at == latest ==> cs[i].quantity > 0)
  }

  lemma {:induction false} LatestRow(cs: seq<Confirmation>, x: PortionId, n: nat) returns (i: nat)
    requires n <= |cs| && exists k :: 0 <= k < n && IsCustomerRow(cs[k], x)
    ensures i < n && IsCustomerRow(cs[i], x) && forall k :: 0 <= k < n && IsCustomerRow(cs[k], x) ==> cs[k].at <= cs[i].at
  {
    if exists k :: 0 <= k < n - 1 && IsCustomerRow(cs[k], x) {
      i := LatestRow(cs, x, n - 1);
      if IsCustomerRow(cs[n - 1], x) && cs[n - 1].at > cs[i].at {
        i := n - 1;
      }
    } else {
      i := n - 1;
    }
  }

  // ---------------------------------------------------------------- exactly when an operation goes through

  /** The ways a package goes by a change of status. */
  const ROUTE: set<(Status, Status)> := {
    (Draft, Preparing), (Preparing, ReadyForPresentation), (ReadyForPresentation, Presented),
    (Presented, Returned), (Returned, Correcting), (Correcting, Presented)
  }

  /** The ways a case goes. */
  const CASE_ROUTE: set<(CaseStatus, CaseStatus)> := {
    (OnReconciliation, VerificationPassed), (VerificationPassed, Closed),
    (OnReconciliation, OnCorrection), (VerificationPassed, OnCorrection), (Closed, OnCorrection), (OnCorrection, OnReconciliation)
  }

  lemma RoutesExactly(a: Status, b: Status, c: CaseStatus, d: CaseStatus)
    ensures TransitionAllowed(a, b) <==> (a, b) in ROUTE
    ensures CaseTransitionAllowed(c, d) <==> (c, d) in CASE_ROUTE
  {
  }

  ghost predicate Active(s: Store, id: PackageId) { id in s.packages && !s.packages[id].archived }

  ghost predicate ActiveAt(s: Store, id: PackageId, version: nat) { Active(s, id) && s.packages[id].version == version }

  ghost predicate ContentOpen(s: Store, id: PackageId) { Active(s, id) && s.packages[id].status in {Draft, Preparing, ReadyForPresentation, Correcting} }

  ghost predicate HasCase(s: Store, id: PackageId) { id in s.packages && s.packages[id].closing.Some? }

  ghost predicate CaseOpen(s: Store, id: PackageId) {
    HasCase(s, id) && s.packages[id].closing.value.locked && s.packages[id].closing.value.status != Closed
  }

  /** The total is known, and if any allocation is active, the active ones add up to it. */
  ghost predicate Balanced(c: Case) {
    c.total.Some? && ((exists i :: 0 <= i < |c.allocations| && !c.allocations[i].cancelled) ==> ActiveSum(c.allocations) == c.total.value)
  }

  /** What a command needs in a reachable state. */
  ghost predicate Acceptable(s: Store, c: Command) {
    match c
    case AddPortion(x, _) => x !in s.portions
    case DoCreatePackage(id, work, xs) => id !in s.packages && xs != {} && xs <= Eligible(s, work)
    case DoLinkPortion(id, x) => ContentOpen(s, id) && x in Eligible(s, s.packages[id].work)
    case DoCreateDocument(id, d, dedicated) => ContentOpen(s, id) && !dedicated && d !in s.packages[id].documents
    case DoCreateVersion(id, d, kind) => ContentOpen(s, id) && (kind == Plain ==> d in s.packages[id].documents)
    case DoChangeStatus(id, version, to, gate) => ActiveAt(s, id, version) && (s.packages[id].status, to) in ROUTE && (to == Presented ==> gate)
    case DoRegisterAcceptance(id, version) =>
      ActiveAt(s, id, version) && s.packages[id].status == Presented && s.packages[id].documents != map[]
      && forall d :: d in s.packages[id].documents ==> s.packages[id].documents[d] > 0
    case DoReturnToCorrection(id, version) => ActiveAt(s, id, version) && s.packages[id].status == AcceptedByCustomer && s.packages[id].closing == None
    case DoArchive(id, version, reason) =>
      ActiveAt(s, id, version) && reason != "" && s.packages[id].status in {Draft, Preparing} && !s.packages[id].generated
    case DoHandoff(id, version) =>
      ActiveAt(s, id, version) && s.packages[id].status == AcceptedByCustomer && !Locked(s.packages[id])
      && forall x :: x in s.packages[id].portions ==> CustomerReady(s.confirmations, x)
    case DoReturnToPto(id, version) => CaseOpen(s, id) && s.packages[id].closing.value.version == version
    case DoChangeCaseStatus(id, version, to, reason) =>
      HasCase(s, id)
      && var c := s.packages[id].closing.value;
         c.version == version && c.locked && (c.status, to) in CASE_ROUTE
         && (to == OnCorrection && c.status != OnReconciliation ==> reason != "") && (to == Closed ==> Balanced(c))
    case DoSetAmount(id, version, _) => CaseOpen(s, id) && s.packages[id].closing.value.version == version
    case DoSetAllocation(id, x, version, _) =>
      CaseOpen(s, id) && x in s.packages[id].portions
      && forall i :: 0 <= i < |s.packages[id].closing.value.allocations| && s.packages[id].closing.value.allocations[i].portion == x ==>
           s.packages[id].closing.value.allocations[i].version == version
    case DoCancelAllocation(id, x, version) =>
      CaseOpen(s, id)
      && exists i :: 0 <= i < |s.packages[id].closing.value.allocations|
           && s.packages[id].closing.value.allocations[i] == Allocation(x, s.packages[id].closing.value.allocations[i].amount, false, version)
    case DoRecordCustomerQuantity(id, items, _, gate) =>
      id in s.packages && !Locked(s.packages[id]) && s.packages[id].status in {Presented, AcceptedByCustomer} && gate
      && forall i :: 0 <= i < |items| ==> items[i].portion in s.packages[id].portions
    case DoAcceptInspection(x, source, quantity, _) => x in s.portions && (source == CustomerSc ==> quantity >= HALF_UNIT)
    case DoEditPackage(id, version, same) => ActiveAt(s, id, version) && same
    case DoAssignResponsible(id, version, _, active) => HasCase(s, id) && s.packages[id].closing.value.version == version && active
  }

  /** Every package has a portion: it is created with one and loses none. */
  ghost predicate AllHavePortions(s: Store) { forall id :: id in s.packages ==> s.packages[id].portions != {} }

  lemma NewPackageHasPortions(s: Store, c: Command, id: PackageId)
    requires id !in s.packages && id in After(s, c).packages
    ensures After(s, c).packages[id].portions != {}
  {
  }

  lemma {:induction false} RunsKeepPortions(cs: seq<Command>)
    ensures AllHavePortions(Run(EMPTY_STORE, cs))
  {
    if cs != [] {
      var s, c := Run(EMPTY_STORE, cs[..|cs| - 1]), cs[|cs| - 1];
      RunsKeepPortions(cs[..|cs| - 1]);
      forall id | id in After(s, c).packages ensures After(s, c).packages[id].portions != {} {
        if id in s.packages {
          StepMoves(s, c, id);
        } else {
          NewPackageHasPortions(s, c, id);
        }
      }
    }
  }

  ghost predicate Reachable(s: Store) { Inv(s) && AllRoutesFit(s) && AllHavePortions(s) }

  lemma ContentAcceptedExactly(s: Store, c: Command)
    requires Reachable(s) && IsContentCommand(c)
    ensures Step(s, c).Ok? <==> Acceptable(s, c)
  {
    if c.id in s.packages {
      assert PackageFits(s.packages[c.id], s.portions, s.confirmations);
    }
    if c.DoLinkPortion? {
      LinkExactly(s, c.id, c.portion);
    }
  }

  lemma StatusAcceptedExactly(s: Store, c: Command)
    requires Reachable(s) && (c.DoChangeStatus? || c.DoEditPackage? || c.DoReturnToCorrection?)
    ensures Step(s, c).Ok? <==> Acceptable(s, c)
  {
    if c.DoChangeStatus? && c.id in s.packages {
      RoutesExactly(s.packages[c.id].status, c.status, Closed, Closed);
    }
  }

  lemma RegisteringAcceptedExactly(s: Store, c: Command)
    requires Reachable(s) && c.DoRegisterAcceptance?
    ensures Step(s, c).Ok? <==> Acceptable(s, c)
  {
    if c.id in s.packages {
      var documents := s.packages[c.id].documents;
      VersionsCount(documents, documents.Keys);
      assert CurrentVersions(documents) == VersionsOf(documents, documents.Keys);
      assert |documents.Keys| == |documents| && (|documents| == 0 <==> documents == map[]);
    }
  }

  lemma ArchiveAcceptedExactly(s: Store, c: Command)
    requires Reachable(s) && c.DoArchive?
    ensures Step(s, c).Ok? <==> Acceptable(s, c)
  {
    if c.id in s.packages {
      assert RouteFits(s.packages[c.id]);
    }
  }

  lemma HandoffAcceptedExactly(s: Store, c: Command)
    requires Reachable(s) && (c.DoHandoff? || c.DoReturnToPto?)
    ensures Step(s, c).Ok? <==> Acceptable(s, c)
  {
    if c.id in s.packages {
      assert PackageFits(s.packages[c.id], s.portions, s.confirmations);
    }
  }

  lemma CaseAcceptedExactly(s: Store, c: Command)
    requires Reachable(s) && (c.DoChangeCaseStatus? || c.DoAssignResponsible?)
    ensures Step(s, c).Ok? <==> Acceptable(s, c)
  {
    if c.id in s.packages {
      assert PackageFits(s.packages[c.id], s.portions, s.confirmations);
      if c.DoChangeCaseStatus? && s.packages[c.id].closing.Some? {
        RoutesExactly(Draft, Draft, s.packages[c.id].closing.value.status, c.caseStatus);
      }
    }
  }

  lemma AmountAcceptedExactly(s: Store, c: Command)
    requires Reachable(s) && (c.DoSetAmount? || c.DoSetAllocation?)
    ensures Step(s, c).Ok? <==> Acceptable(s, c)
  {
    if HasCase(s, c.id) {
      assert PackageFits(s.packages[c.id], s.portions, s.confirmations);
      OneAllocation(s.packages[c.id].closing.value.allocations);
    }
  }

  lemma OneAllocation(xs: seq<Allocation>)
    requires DistinctPortions(xs)
    ensures forall i :: 0 <= i < |xs| ==> AllocationOf(xs, xs[i].portion) == Some(i)
  {
    forall i | 0 <= i < |xs| ensures AllocationOf(xs, xs[i].portion) == Some(i) { AllocationOfIs(xs, i); }
  }

  lemma CancelAcceptedExactly(s: Store, c: Command)
    requires Reachable(s) && c.DoCancelAllocation?
    ensures Step(s, c).Ok? <==> Acceptable(s, c)
  {
    if HasCase(s, c.id) {
      assert PackageFits(s.packages[c.id], s.portions, s.confirmations);
      OneAllocation(s.packages[c.id].closing.value.allocations);
    }
  }

  lemma QuantityAcceptedExactly(s: Store, c: Command)
    requires Reachable(s) && (c.DoRecordCustomerQuantity? || c.DoAcceptInspection?)
    ensures Step(s, c).Ok? <==> Acceptable(s, c)
  {
    if c.DoAcceptInspection? {
      RoundedPositive(c.quantity);
    } else if c.id in s.packages {
      assert RouteFits(s.packages[c.id]);
    }
  }

  /**
   * Exactly when each operation goes through, after any run. Much of what the code checks is settled by then: a held package is accepted, an
   * accepted one has a current acceptance, a package has a portion, and one the customer has seen is not archived.
   */
  lemma AcceptedExactly(cs: seq<Command>, s: Store, c: Command)
    requires s == Run(EMPTY_STORE, cs)
    ensures Step(s, c).Ok? <==> Acceptable(s, c)
  {
    RunsKeepInvariant(cs);
    RunsKeepRoutes(cs);
    RunsKeepPortions(cs);
    match c
    case AddPortion(_, _) =>
    case DoCreatePackage(id, work, xs) => CreateExactly(s, id, work, xs);
    case DoLinkPortion(_, _) => ContentAcceptedExactly(s, c);
    case DoCreateDocument(_, _, _) => ContentAcceptedExactly(s, c);
    case DoCreateVersion(_, _, _) => ContentAcceptedExactly(s, c);
    case DoChangeStatus(_, _, _, _) => StatusAcceptedExactly(s, c);
    case DoEditPackage(_, _, _) => StatusAcceptedExactly(s, c);
    case DoReturnToCorrection(_, _) => StatusAcceptedExactly(s, c);
    case DoRegisterAcceptance(_, _) => RegisteringAcceptedExactly(s, c);
    case DoArchive(_, _, _) => ArchiveAcceptedExactly(s, c);
    case DoHandoff(_, _) => HandoffAcceptedExactly(s, c);
    case DoReturnToPto(_, _) => HandoffAcceptedExactly(s, c);
    case DoChangeCaseStatus(_, _, _, _) => CaseAcceptedExactly(s, c);
    case DoAssignResponsible(_, _, _, _) => CaseAcceptedExactly(s, c);
    case DoSetAmount(_, _, _) => AmountAcceptedExactly(s, c);
    case DoSetAllocation(_, _, _, _) => AmountAcceptedExactly(s, c);
    case DoCancelAllocation(_, _, _) => CancelAcceptedExactly(s, c);
    case DoRecordCustomerQuantity(_, _, _, _) => QuantityAcceptedExactly(s, c);
    case DoAcceptInspection(_, _, _, _) => QuantityAcceptedExactly(s, c);
  }

  // ---------------------------------------------------------------- what an accepted operation achieves

  /** Rounded to the nearest ten-thousandth, a tie away from zero. */
  ghost predicate RoundsTo(q: real, r: int) {
    if q >= 0.0 then r as real - 0.5 <= q * 10000.0 < r as real + 0.5 else r as real - 0.5 < q * 10000.0 <= r as real + 0.5
  }

  lemma RoundExactly(q: real)
    ensures RoundsTo(q, RoundHalfUp(q))
  {
  }

  /** The package of the command before and after it. */
  ghost predicate PackageAchieves(p: Package, q: Package, c: Command) {
    match c
    case DoLinkPortion(_, x) => q.portions == p.portions + {x} && q.documents == p.documents
    case DoCreateDocument(_, d, _) => q.documents == p.documents[d := 0] && q.portions == p.portions
    case DoCreateVersion(_, d, _) =>
      q.portions == p.portions && d in q.documents && q.documents == p.documents[d := q.documents[d]]
      && q.documents[d] == (if d in p.documents then p.documents[d] + 1 else 1)
      && q.generated == (p.generated || c.kind == GeneratedAct)
    case DoChangeStatus(_, _, to, _) => q.status == to && q.version == p.version + 1
    case DoRegisterAcceptance(_, _) => q.status == AcceptedByCustomer && |q.acceptances| == |p.acceptances| + 1 && q.version == p.version + 1
    case DoReturnToCorrection(_, _) => q.status == Correcting && q.version == p.version + 1
    case DoArchive(_, _, _) => q.archived && q.status == p.status && q.version == p.version + 1
    case DoEditPackage(_, _, _) => q.version == p.version + 1 && q.status == p.status
    case _ => true
  }

  /** The case of the package before and after the command. */
  ghost predicate CaseAchieves(a: Case, b: Case, c: Command) {
    match c
    case DoReturnToPto(_, _) => !b.locked && b.status == a.status && SameBooks(a, b) && b.version == a.version + 1
    case DoChangeCaseStatus(_, _, to, _) => b.status == to && b.locked == a.locked && b.version == a.version + 1
    case DoAssignResponsible(_, _, user, _) => b.responsible == Some(user) && b.locked == a.locked && b.version == a.version + 1
    case DoSetAmount(_, _, amount) =>
      b.total == Some(amount) && b.amounts == a.amounts + [AmountRow(a.total, amount)] && b.allocations == a.allocations
      && b.allocationRows == a.allocationRows && b.version == a.version + 1
    case DoSetAllocation(_, x, _, amount) =>
      Held(b.allocations, x) == Some((amount, false)) && b.total == a.total && b.amounts == a.amounts && b.locked == a.locked
      && |b.allocationRows| == |a.allocationRows| + 1 && forall y :: y != x ==> Held(b.allocations, y) == Held(a.allocations, y)
    case DoCancelAllocation(_, x, _) =>
      Held(a.allocations, x).Some? && Held(b.allocations, x) == Some((Held(a.allocations, x).value.0, true))
      && b.total == a.total && b.amounts == a.amounts && b.locked == a.locked
      && |b.allocationRows| == |a.allocationRows| + 1 && forall y :: y != x ==> Held(b.allocations, y) == Held(a.allocations, y)
    case _ => true
  }

  lemma PackageCommandAchieves(s: Store, c: Command)
    requires (IsContentCommand(c) || c.DoChangeStatus? || c.DoEditPackage?) && Step(s, c).Ok?
    ensures c.id in s.packages && c.id in After(s, c).packages && PackageAchieves(s.packages[c.id], After(s, c).packages[c.id], c)
  {
  }

  lemma RouteCommandAchieves(s: Store, c: Command)
    requires (c.DoRegisterAcceptance? || c.DoReturnToCorrection? || c.DoArchive?) && Step(s, c).Ok?
    ensures c.id in s.packages && c.id in After(s, c).packages && PackageAchieves(s.packages[c.id], After(s, c).packages[c.id], c)
  {
  }

  /** What an accepted operation on a package does to it, beside what no operation may do: the content, the status or the mark asked for, and a version more. */
  lemma PackageChangesAsAsked(s: Store, c: Command)
    requires Step(s, c).Ok?
    requires IsContentCommand(c) || c.DoChangeStatus? || c.DoEditPackage? || c.DoRegisterAcceptance? || c.DoReturnToCorrection? || c.DoArchive?
    ensures c.id in s.packages && c.id in After(s, c).packages && PackageAchieves(s.packages[c.id], After(s, c).packages[c.id], c)
  {
    if c.DoRegisterAcceptance? || c.DoReturnToCorrection? || c.DoArchive? {
      RouteCommandAchieves(s, c);
    } else {
      PackageCommandAchieves(s, c);
    }
  }

  lemma CaseCommandAchieves(s: Store, c: Command)
    requires (c.DoReturnToPto? || c.DoChangeCaseStatus? || c.DoAssignResponsible? || c.DoSetAmount?) && Step(s, c).Ok?
    ensures HasCase(s, c.id) && HasCase(After(s, c), c.id)
    ensures CaseAchieves(s.packages[c.id].closing.value, After(s, c).packages[c.id].closing.value, c)
  {
  }

  lemma SettingAchieves(s: Store, c: Command)
    requires Inv(s) && c.DoSetAllocation? && Step(s, c).Ok?
    ensures HasCase(s, c.id) && HasCase(After(s, c), c.id)
    ensures CaseAchieves(s.packages[c.id].closing.value, After(s, c).packages[c.id].closing.value, c)
  {
    var a := s.packages[c.id].closing.value;
    var at := AllocationOf(a.allocations, c.portion);
    var b := Allocated(a, c.portion, at, c.amount);
    assert PackageFits(s.packages[c.id], s.portions, s.confirmations);
    forall y ensures Held(b.allocations, y) == if y == c.portion then Some((c.amount, false)) else Held(a.allocations, y) {
      if at.None? {
        HeldAfterAppend(a.allocations, b.allocations[|a.allocations|], y);
      } else {
        HeldAfterUpdate(a.allocations, at.value, b.allocations[at.value], y);
      }
    }
  }

  lemma CancellingAchieves(s: Store, c: Command)
    requires Inv(s) && c.DoCancelAllocation? && Step(s, c).Ok?
    ensures HasCase(s, c.id) && HasCase(After(s, c), c.id)
    ensures CaseAchieves(s.packages[c.id].closing.value, After(s, c).packages[c.id].closing.value, c)
  {
    var a := s.packages[c.id].closing.value;
    var at := AllocationOf(a.allocations, c.portion).value;
    var b := Cancelled(a, at);
    assert PackageFits(s.packages[c.id], s.portions, s.confirmations);
    forall y ensures Held(b.allocations, y) == if y == c.portion then Some((a.allocations[at].amount, true)) else Held(a.allocations, y) {
      HeldAfterUpdate(a.allocations, at, b.allocations[at], y);
    }
  }

  /** What an accepted operation on a case does to it: the status, the total, the amount of one portion or the responsible asked for, and nothing else of these. */
  lemma CaseChangesAsAsked(s: Store, c: Command)
    requires Inv(s) && Step(s, c).Ok? && (c.DoReturnToPto? || c.DoChangeCaseStatus? || c.DoAssignResponsible? || IsAmountCommand(c))
    ensures HasCase(s, c.id) && HasCase(After(s, c), c.id)
    ensures CaseAchieves(s.packages[c.id].closing.value, After(s, c).packages[c.id].closing.value, c)
  {
    if c.DoSetAllocation? {
      SettingAchieves(s, c);
    } else if c.DoCancelAllocation? {
      CancellingAchieves(s, c);
    } else {
      CaseCommandAchieves(s, c);
    }
  }

  /** An accepted handoff holds the package: a first one with a new case, a repeated one with the case as it was left. */
  lemma HandoffHolds(s: Store, id: PackageId, version: nat)
    requires Handoff(s, id, version).Ok?
    ensures id in s.packages && id in Handoff(s, id, version).value.packages && Locked(Handoff(s, id, version).value.packages[id])
    ensures s.packages[id].closing == None ==>
              Handoff(s, id, version).value.packages[id].closing == Some(Case(OnReconciliation, true, 1, None, [], [], [], None))
    ensures s.packages[id].closing.Some? ==>
              var a, b := s.packages[id].closing.value, Handoff(s, id, version).value.packages[id].closing.value;
              !a.locked && b.status == a.status && SameBooks(a, b) && b.responsible == a.responsible && b.version == a.version + 1
  {
  }

  /** A new package is a draft of the work with the portions asked for and nothing else. */
  lemma CreatedPackageIs(s: Store, id: PackageId, work: WorkId, xs: set<PortionId>)
    requires CreatePackage(s, id, work, xs).Ok?
    ensures id in CreatePackage(s, id, work, xs).value.packages
    ensures var p := CreatePackage(s, id, work, xs).value.packages[id];
            && p.work == work && p.portions == xs && p.status == Draft && !p.archived && p.documents == map[] && p.acceptances == []
            && p.closing == None && !p.presented && !p.recorded && !p.generated
  {
  }

  /** Only recordings and inspections add quantities, at the end and rounded to the nearest; no operation changes one that is there, and only a new portion changes the portions. */
  lemma QuantitiesOnlyGrow(s: Store, c: Command)
    ensures s.confirmations <= After(s, c).confirmations
    ensures After(s, c).confirmations != s.confirmations ==> c.DoRecordCustomerQuantity? || c.DoAcceptInspection?
    ensures After(s, c).portions != s.portions ==> c.AddPortion? && After(s, c).portions == s.portions[c.portion := c.work]
    ensures c.DoRecordCustomerQuantity? && Step(s, c).Ok? ==>
              && |After(s, c).confirmations| == |s.confirmations| + |c.items|
              && forall i :: 0 <= i < |c.items| ==>
                   var row := After(s, c).confirmations[|s.confirmations| + i];
                   row.portion == c.items[i].portion && row.source == CustomerSc && row.at == c.at && RoundsTo(c.items[i].quantity, row.quantity)
    ensures c.DoAcceptInspection? && Step(s, c).Ok? ==>
              && |After(s, c).confirmations| == |s.confirmations| + 1
              && var row := After(s, c).confirmations[|s.confirmations|];
                 row.portion == c.portion && row.source == c.source && row.at == c.at && RoundsTo(c.quantity, row.quantity)
  {
    if c.DoRecordCustomerQuantity? {
      forall i | 0 <= i < |c.items| ensures RoundsTo(c.items[i].quantity, RoundHalfUp(c.items[i].quantity)) { RoundExactly(c.items[i].quantity); }
    } else if c.DoAcceptInspection? {
      RoundExactly(c.quantity);
    }
  }
}
