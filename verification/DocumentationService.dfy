/** The package and closing-case operations as the services write them, against the specification of the model. */
module DocumentationService {
  import opened Wrappers
  import opened DocumentationModel

  // ---------------------------------------------------------------- the latest customer group

  /** The quantities recorded at the latest time, in the order they are stored; empty when the portion has no customer row. */
  method LatestGroup(cs: seq<Confirmation>, x: PortionId) returns (group: seq<int>, rows: seq<nat>)
    ensures |group| == |rows| && forall k :: 0 <= k < |rows| ==> rows[k] < |cs| && IsLatest(cs, rows[k], x) && group[k] == cs[rows[k]].quantity
    ensures forall i :: 0 <= i < |cs| && IsLatest(cs, i, x) ==> i in rows
    ensures group == [] <==> !exists i :: 0 <= i < |cs| && IsCustomerRow(cs[i], x)
  {
    group, rows := [], [];
    var latest := 0;
    for n := 0 to |cs|
      invariant |group| == |rows|
      invariant group == [] <==> forall i :: 0 <= i < n ==> !IsCustomerRow(cs[i], x)
      invariant forall k :: 0 <= k < |rows| ==> rows[k] < n && IsCustomerRow(cs[rows[k]], x) && cs[rows[k]].at == latest && group[k] == cs[rows[k]].quantity
      invariant group != [] ==> forall i :: 0 <= i < n && IsCustomerRow(cs[i], x) ==> cs[i].at <= latest && (cs[i].at == latest ==> i in rows)
    {
      if IsCustomerRow(cs[n], x) {
        if group == [] || cs[n].at > latest {
          group, rows, latest := [cs[n].quantity], [n], cs[n].at;
        } else if cs[n].at == latest {
          group, rows := group + [cs[n].quantity], rows + [n];
        }
      }
    }
    LatestGroupIsComplete(cs, x, group, rows, latest);
  }

  lemma LatestGroupIsComplete(cs: seq<Confirmation>, x: PortionId, group: seq<int>, rows: seq<nat>, latest: int)
    requires |group| == |rows|
    requires forall k :: 0 <= k < |rows| ==> rows[k] < |cs| && IsCustomerRow(cs[rows[k]], x) && cs[rows[k]].at == latest
    requires group == [] ==> forall i :: 0 <= i < |cs| ==> !IsCustomerRow(cs[i], x)
    requires group != [] ==> forall i :: 0 <= i < |cs| && IsCustomerRow(cs[i], x) ==> cs[i].at <= latest && (cs[i].at == latest ==> i in rows)
    ensures forall k :: 0 <= k < |rows| ==> IsLatest(cs, rows[k], x)
    ensures forall i :: 0 <= i < |cs| && IsLatest(cs, i, x) ==> i in rows
  {
    forall i | 0 <= i < |cs| && IsLatest(cs, i, x) ensures i in rows {
      assert IsCustomerRow(cs[i], x);
      assert cs[rows[0]].at <= cs[i].at;
    }
  }

  /** A group is ready when every value is positive; its quantity is known only when all values agree. */
  method ResolveCustomerScLatestGroup(quantities: seq<int>) returns (ready: bool, quantity: Option<int>)
    ensures ready <==> quantities != [] && forall q :: q in quantities ==> q > 0
    ensures quantity.Some? <==> quantities != [] && forall q :: q in quantities ==> q == quantities[0]
    ensures quantity.Some? ==> quantity.value == quantities[0]
  {
    if |quantities| == 0 {
      return false, None;
    }
    var distinct: set<int> := {};
    for i := 0 to |quantities|
      invariant forall q :: q in distinct <==> q in quantities[..i]
    {
      distinct := distinct + {quantities[i]};
      assert quantities[..i + 1] == quantities[..i] + [quantities[i]];
    }
    assert quantities[..|quantities|] == quantities;
    OneValue(distinct, quantities);
    assert quantities[0] in quantities;
    if |distinct| == 1 {
      return quantities[0] > 0, Some(quantities[0]);
    }
    return forall q :: q in distinct ==> q > 0, None;
  }

  lemma OneValue(distinct: set<int>, quantities: seq<int>)
    requires quantities != [] && forall q :: q in distinct <==> q in quantities
    ensures |distinct| == 1 <==> forall q :: q in quantities ==> q == quantities[0]
  {
    var x := quantities[0];
    var rest := distinct - {x};
    assert x in distinct && distinct == rest + {x} && |distinct| == |rest| + 1;
    assert |rest| == 0 <==> rest == {};
    if forall q :: q in quantities ==> q == x {
      assert forall q :: q in distinct ==> q == x;
      assert forall q :: q !in rest;
    }
  }

  /** Grouping and resolving decides exactly whether the portion is confirmed. */
  method CustomerConfirmed(cs: seq<Confirmation>, x: PortionId) returns (ready: bool)
    ensures ready == CustomerReady(cs, x)
  {
    var group, rows := LatestGroup(cs, x);
    var quantity;
    ready, quantity := ResolveCustomerScLatestGroup(group);
    if ready {
      forall i | 0 <= i < |cs| && IsLatest(cs, i, x) ensures cs[i].quantity > 0 {
        var k :| 0 <= k < |rows| && rows[k] == i;
        assert group[k] in group;
      }
    } else if group != [] {
      var q :| q in group && q <= 0;
      var k :| 0 <= k < |group| && group[k] == q;
      assert IsLatest(cs, rows[k], x);
    }
  }

  datatype Missing = Acceptance | Scope | CustomerQuantity

  /** The reasons are pushed one by one; there is none exactly when the package is ready. */
  method ResolveReadiness(p: Package, cs: seq<Confirmation>) returns (reasons: seq<Missing>)
    ensures reasons == [] <==> Ready(p, cs)
    ensures Acceptance in reasons <==> !HasCustomerAcceptance(p)
    ensures Scope in reasons <==> p.portions == {}
    ensures CustomerQuantity in reasons <==> exists x :: x in p.portions && !CustomerReady(cs, x)
  {
    reasons := [];
    if !HasCustomerAcceptance(p) {
      reasons := reasons + [Acceptance];
    }
    if p.portions == {} {
      reasons := reasons + [Scope];
    } else {
      var confirmed := ConfirmedPortions(p.portions, cs);
      if exists x :: x in p.portions && x !in confirmed {
        reasons := reasons + [CustomerQuantity];
      }
    }
  }

  method ConfirmedPortions(xs: set<PortionId>, cs: seq<Confirmation>) returns (confirmed: set<PortionId>)
    ensures forall x :: x in confirmed <==> x in xs && CustomerReady(cs, x)
  {
    confirmed := {};
    var todo := xs;
    while todo != {}
      invariant todo <= xs
      invariant forall x :: x in confirmed <==> x in xs && x !in todo && CustomerReady(cs, x)
    {
      var x :| x in todo;
      todo := todo - {x};
      var ready := CustomerConfirmed(cs, x);
      if ready {
        confirmed := confirmed + {x};
      }
    }
  }

  // ---------------------------------------------------------------- the service

  class ProductionService {
    var packages: map<PackageId, Package>
    var portions: map<PortionId, WorkId>
    var confirmations: seq<Confirmation>

    function View(): Store
      reads this
    {
      Store(packages, portions, confirmations)
    }

    ghost predicate Became(before: Store, r: Result<Store, Error>)
      reads this
    {
      View() == if r.Ok? then r.value else before
    }

    constructor ()
      ensures View() == EMPTY_STORE
    {
      packages, portions, confirmations := map[], map[], [];
    }

    method CreatePackage(id: PackageId, work: WorkId, xs: set<PortionId>) returns (r: Result<Store, Error>)
      modifies this
      ensures r == DocumentationModel.CreatePackage(old(View()), id, work, xs) && Became(old(View()), r)
    {
      if id in packages {
        return Err(IdentifierTaken);
      }
      if xs == {} {
        return Err(ScopeRequired);
      }
      if exists x :: x in xs && (x !in portions || portions[x] != work) {
        return Err(ForeignPortion);
      }
      if Overlaps(packages, work, xs, None) {
        return Err(AlreadyCovered);
      }
      packages := packages[id := Package(work, Draft, 1, false, xs, map[], [], false, false, false, None)];
      r := Ok(View());
    }

    method LinkPortion(id: PackageId, x: PortionId) returns (r: Result<Store, Error>)
      modifies this
      ensures r == DocumentationModel.LinkPortion(old(View()), id, x) && Became(old(View()), r)
    {
      var problem := Open(View(), id, None);
      if problem.Some? {
        return Err(problem.value);
      }
      var p := packages[id];
      if !CanMutateContent(p) {
        return Err(ContentFrozen);
      }
      if x !in portions || portions[x] != p.work {
        return Err(ForeignPortion);
      }
      if x in p.portions {
        return Err(AlreadyLinked);
      }
      if Overlaps(packages, p.work, {x}, Some(id)) {
        return Err(AlreadyCovered);
      }
      packages := packages[id := p.(portions := p.portions + {x})];
      r := Ok(View());
    }

    method CreateDocument(id: PackageId, d: DocumentId, dedicated: bool) returns (r: Result<Store, Error>)
      modifies this
      ensures r == DocumentationModel.CreateDocument(old(View()), id, d, dedicated) && Became(old(View()), r)
    {
      var problem := Open(View(), id, None);
      if problem.Some? {
        return Err(problem.value);
      }
      var p := packages[id];
      if !CanMutateContent(p) {
        return Err(ContentFrozen);
      }
      if dedicated {
        return Err(DedicatedType);
      }
      if d in p.documents {
        return Err(IdentifierTaken);
      }
      packages := packages[id := p.(documents := p.documents[d := 0])];
      r := Ok(View());
    }

    method CreateVersion(id: PackageId, d: DocumentId, kind: VersionKind) returns (r: Result<Store, Error>)
      modifies this
      ensures r == DocumentationModel.CreateVersion(old(View()), id, d, kind) && Became(old(View()), r)
    {
      if kind == Plain && (id !in packages || d !in packages[id].documents) {
        return Err(NotFound);
      }
      var problem := Open(View(), id, None);
      if problem.Some? {
        return Err(problem.value);
      }
      var p := packages[id];
      if !CanMutateContent(p) {
        return Err(ContentFrozen);
      }
      var max := if d in p.documents then p.documents[d] else 0;
      packages := packages[id := p.(documents := p.documents[d := max + 1], generated := p.generated || kind == GeneratedAct)];
      r := Ok(View());
    }

    method EditPackage(id: PackageId, version: nat, sameResponsible: bool) returns (r: Result<Store, Error>)
      modifies this
      ensures r == DocumentationModel.EditPackage(old(View()), id, version, sameResponsible) && Became(old(View()), r)
    {
      var problem := Open(View(), id, Some(version));
      if problem.Some? {
        return Err(problem.value);
      }
      if !sameResponsible {
        return Err(ResponsibleFixed);
      }
      packages := packages[id := packages[id].(version := packages[id].version + 1)];
      r := Ok(View());
    }

    method ChangeStatus(id: PackageId, version: nat, to: Status, gate: bool) returns (r: Result<Store, Error>)
      modifies this
      ensures r == DocumentationModel.ChangeStatus(old(View()), id, version, to, gate) && Became(old(View()), r)
    {
      var problem := Open(View(), id, Some(version));
      if problem.Some? {
        return Err(problem.value);
      }
      var p := packages[id];
      if !TransitionAllowed(p.status, to) {
        return Err(TransitionRefused);
      }
      if to in {Preparing, ReadyForPresentation, Presented} && p.portions == {} {
        return Err(ScopeRequired);
      }
      if to == Presented && !gate {
        return Err(GateRefused);
      }
      packages := packages[id := p.(status := to, version := p.version + 1, presented := p.presented || to == Presented)];
      r := Ok(View());
    }

    method RegisterAcceptance(id: PackageId, version: nat) returns (r: Result<Store, Error>)
      modifies this
      ensures r == DocumentationModel.RegisterAcceptance(old(View()), id, version) && Became(old(View()), r)
    {
      var problem := Open(View(), id, Some(version));
      if problem.Some? {
        return Err(problem.value);
      }
      var p := packages[id];
      if p.status != Presented {
        return Err(TransitionRefused);
      }
      if p.portions == {} {
        return Err(ScopeRequired);
      }
      if |p.documents| == 0 {
        return Err(NoDocuments);
      }
      var latest := CurrentVersions(p.documents);
      if |latest| != |p.documents| {
        return Err(DocumentWithoutVersion);
      }
      packages := packages[id := p.(acceptances := p.acceptances + [latest], status := AcceptedByCustomer, version := p.version + 1)];
      r := Ok(View());
    }

    method ReturnToCorrection(id: PackageId, version: nat) returns (r: Result<Store, Error>)
      modifies this
      ensures r == DocumentationModel.ReturnToCorrection(old(View()), id, version) && Became(old(View()), r)
    {
      var problem := Open(View(), id, Some(version));
      if problem.Some? {
        return Err(problem.value);
      }
      var p := packages[id];
      if p.status != AcceptedByCustomer {
        return Err(NotAccepted);
      }
      if p.closing.Some? {
        return Err(CaseExists);
      }
      packages := packages[id := p.(status := Correcting, version := p.version + 1)];
      r := Ok(View());
    }

    method Archive(id: PackageId, version: nat, reason: string) returns (r: Result<Store, Error>)
      modifies this
      ensures r == DocumentationModel.Archive(old(View()), id, version, reason) && Became(old(View()), r)
    {
      var problem := Open(View(), id, Some(version));
      if problem.Some? {
        return Err(problem.value);
      }
      if reason == "" {
        return Err(ReasonRequired);
      }
      var p := packages[id];
      if p.status !in {Draft, Preparing} || p.closing.Some? || p.acceptances != [] || p.recorded || p.presented || p.generated {
        return Err(NotArchivable);
      }
      packages := packages[id := p.(archived := true, version := p.version + 1)];
      r := Ok(View());
    }

    method Handoff(id: PackageId, version: nat) returns (r: Result<Store, Error>)
      modifies this
      ensures r == DocumentationModel.Handoff(old(View()), id, version) && Became(old(View()), r)
    {
      var problem := Open(View(), id, Some(version));
      if problem.Some? {
        return Err(problem.value);
      }
      var p := packages[id];
      var reasons := ResolveReadiness(p, confirmations);
      if reasons != [] {
        return Err(NotReady);
      }
      if p.closing.Some? && p.closing.value.locked {
        return Err(AlreadyHandedOff);
      }
      if p.closing.Some? {
        var c := p.closing.value;
        packages := packages[id := p.(closing := Some(c.(locked := true, version := c.version + 1)))];
      } else {
        packages := packages[id := p.(closing := Some(Case(OnReconciliation, true, 1, None, [], [], [], None)))];
      }
      r := Ok(View());
    }

    method ReturnToPto(id: PackageId, version: nat) returns (r: Result<Store, Error>)
      modifies this
      ensures r == DocumentationModel.ReturnToPto(old(View()), id, version) && Became(old(View()), r)
    {
      var problem := CaseAt(View(), id, Some(version));
      if problem.Some? {
        return Err(problem.value);
      }
      var p := packages[id];
      var c := p.closing.value;
      if c.status == Closed {
        return Err(CaseClosed);
      }
      if !c.locked {
        return Err(AlreadyReturned);
      }
      if p.status != AcceptedByCustomer {
        return Err(NotAccepted);
      }
      packages := packages[id := p.(closing := Some(c.(locked := false, version := c.version + 1)))];
      packages := packages[id := packages[id].(status := Correcting, version := p.version + 1)];
      assert packages == old(packages)[id := packages[id]];
      r := Ok(View());
    }

    method AssignResponsible(id: PackageId, version: nat, user: UserId, active: bool) returns (r: Result<Store, Error>)
      modifies this
      ensures r == DocumentationModel.AssignResponsible(old(View()), id, version, user, active) && Became(old(View()), r)
    {
      var problem := CaseAt(View(), id, Some(version));
      if problem.Some? {
        return Err(problem.value);
      }
      if !active {
        return Err(NotActive);
      }
      var p, c := packages[id], packages[id].closing.value;
      packages := packages[id := p.(closing := Some(c.(responsible := Some(user), version := c.version + 1)))];
      r := Ok(View());
    }

    method ChangeCaseStatus(id: PackageId, version: nat, to: CaseStatus, reason: string) returns (r: Result<Store, Error>)
      modifies this
      ensures r == DocumentationModel.ChangeCaseStatus(old(View()), id, version, to, reason) && Became(old(View()), r)
    {
      var problem := CaseAt(View(), id, Some(version));
      if problem.Some? {
        return Err(problem.value);
      }
      var p := packages[id];
      var c := p.closing.value;
      if !c.locked {
        return Err(Suspended);
      }
      if !CaseTransitionAllowed(c.status, to) {
        return Err(TransitionRefused);
      }
      if to == OnCorrection && c.status in {VerificationPassed, Closed} && reason == "" {
        return Err(ReasonRequired);
      }
      if to == Closed {
        var reasons := ResolveReadiness(p, confirmations);
        if reasons != [] {
          return Err(NotReady);
        }
        var may := MayClose(c.total, c.allocations);
        if !may {
          return Err(CannotClose);
        }
      }
      packages := packages[id := p.(closing := Some(c.(status := to, version := c.version + 1)))];
      r := Ok(View());
    }

    /** The total alone is enough without active allocations; with some, their sum must equal it. */
    static method MayClose(total: Option<int>, allocations: seq<Allocation>) returns (may: bool)
      ensures may <==> total.Some? && (HasActive(allocations) ==> ActiveSum(allocations) == total.value)
    {
      if total.None? {
        return false;
      }
      var sum, active := 0, 0;
      for i := 0 to |allocations|
        invariant sum == ActiveSum(allocations[..i])
        invariant active >= 0 && (active == 0 ==> forall k :: 0 <= k < i ==> allocations[k].cancelled)
        invariant active > 0 ==> exists k :: 0 <= k < i && !allocations[k].cancelled
      {
        assert allocations[..i + 1][..i] == allocations[..i];
        if !allocations[i].cancelled {
          sum, active := sum + allocations[i].amount, active + 1;
        }
      }
      assert allocations[..|allocations|] == allocations;
      return active == 0 || sum == total.value;
    }

    method SetAmount(id: PackageId, version: nat, amount: int) returns (r: Result<Store, Error>)
      modifies this
      ensures r == DocumentationModel.SetAmount(old(View()), id, version, amount) && Became(old(View()), r)
    {
      var problem := Workable(View(), id, Some(version));
      if problem.Some? {
        return Err(problem.value);
      }
      var p := packages[id];
      var c := p.closing.value;
      var history := c.amounts + [AmountRow(c.total, amount)];
      packages := packages[id := p.(closing := Some(c.(total := Some(amount), amounts := history, version := c.version + 1)))];
      r := Ok(View());
    }

    method SetAllocation(id: PackageId, x: PortionId, version: nat, amount: int) returns (r: Result<Store, Error>)
      modifies this
      ensures r == DocumentationModel.SetAllocation(old(View()), id, x, version, amount) && Became(old(View()), r)
    {
      var problem := Workable(View(), id, None);
      if problem.Some? {
        return Err(problem.value);
      }
      var p := packages[id];
      var c := p.closing.value;
      if x !in p.portions {
        return Err(NotInPackage);
      }
      var at := AllocationOf(c.allocations, x);
      if at.Some? && c.allocations[at.value].version != version {
        return Err(VersionConflict);
      }
      if at.None? {
        c := c.(allocationRows := c.allocationRows + [AllocationRow(x, None, Some(amount), Create)]);
        c := c.(allocations := c.allocations + [Allocation(x, amount, false, 1)]);
      } else {
        var existing := c.allocations[at.value];
        var operation := if existing.cancelled then Restore else Correct;
        c := c.(allocationRows := c.allocationRows + [AllocationRow(x, Some(existing.amount), Some(amount), operation)]);
        c := c.(allocations := c.allocations[at.value := Allocation(x, amount, false, existing.version + 1)]);
      }
      packages := packages[id := p.(closing := Some(c))];
      r := Ok(View());
    }

    method CancelAllocation(id: PackageId, x: PortionId, version: nat) returns (r: Result<Store, Error>)
      modifies this
      ensures r == DocumentationModel.CancelAllocation(old(View()), id, x, version) && Became(old(View()), r)
    {
      var problem := Workable(View(), id, None);
      if problem.Some? {
        return Err(problem.value);
      }
      var p := packages[id];
      var c := p.closing.value;
      var at := AllocationOf(c.allocations, x);
      if at.None? {
        return Err(NoAllocation);
      }
      var existing := c.allocations[at.value];
      if existing.cancelled {
        return Err(AlreadyCancelled);
      }
      if existing.version != version {
        return Err(VersionConflict);
      }
      c := c.(allocationRows := c.allocationRows + [AllocationRow(x, Some(existing.amount), None, Cancel)]);
      c := c.(allocations := c.allocations[at.value := existing.(cancelled := true, version := existing.version + 1)]);
      packages := packages[id := p.(closing := Some(c))];
      r := Ok(View());
    }

    method RecordCustomerQuantity(id: PackageId, items: seq<Item>, at: int, gate: bool) returns (r: Result<Store, Error>)
      modifies this
      ensures r == DocumentationModel.RecordCustomerQuantity(old(View()), id, items, at, gate) && Became(old(View()), r)
    {
      var problem := Open(View(), id, None);
      if problem.Some? {
        return Err(problem.value);
      }
      var p := packages[id];
      if Locked(p) {
        return Err(ContentFrozen);
      }
      if p.status !in {Presented, AcceptedByCustomer} {
        return Err(TransitionRefused);
      }
      if !gate {
        return Err(GateRefused);
      }
      var all, rows := WriteItems(p, items, at);
      if !all {
        return Err(NotInPackage);
      }
      confirmations := confirmations + rows;
      packages := packages[id := p.(recorded := p.recorded || items != [])];
      r := Ok(View());
    }

    /** The rows of one recording, item by item; an item outside the package undoes them all. */
    static method WriteItems(p: Package, items: seq<Item>, at: int) returns (all: bool, rows: seq<Confirmation>)
      ensures all <==> forall i :: 0 <= i < |items| ==> items[i].portion in p.portions
      ensures all ==> rows == Recorded(items, at)
    {
      rows := [];
      for n := 0 to |items|
        invariant |rows| == n && forall i :: 0 <= i < n ==> items[i].portion in p.portions
        invariant forall i :: 0 <= i < n ==> rows[i] == Confirmation(items[i].portion, CustomerSc, RoundHalfUp(items[i].quantity), at)
      {
        if items[n].portion !in p.portions {
          return false, [];
        }
        rows := rows + [Confirmation(items[n].portion, CustomerSc, RoundHalfUp(items[n].quantity), at)];
      }
      all := true;
    }

    method AcceptInspection(x: PortionId, source: Source, quantity: real, at: int) returns (r: Result<Store, Error>)
      modifies this
      ensures r == DocumentationModel.AcceptInspection(old(View()), x, source, quantity, at) && Became(old(View()), r)
    {
      if x !in portions {
        return Err(NotFound);
      }
      var rounded := RoundHalfUp(quantity);
      if source == CustomerSc && rounded <= 0 {
        return Err(NotPositive);
      }
      confirmations := confirmations + [Confirmation(x, source, rounded, at)];
      r := Ok(View());
    }
  }
}
