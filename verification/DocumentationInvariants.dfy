/** What no sequence of operations on documentation packages and closing cases can break. */
module DocumentationInvariants {
  import opened Wrappers
  import opened DocumentationModel

  // ---------------------------------------------------------------- snapshots

  function VersionsOf(documents: map<DocumentId, nat>, ds: set<DocumentId>): set<VersionId>
    requires ds <= documents.Keys
  {
    set d | d in ds && documents[d] > 0 :: (d, documents[d])
  }

  lemma {:induction false} VersionsCount(documents: map<DocumentId, nat>, ds: set<DocumentId>)
    requires ds <= documents.Keys
    ensures |VersionsOf(documents, ds)| <= |ds|
    ensures |VersionsOf(documents, ds)| == |ds| <==> forall d :: d in ds ==> documents[d] > 0
    decreases |ds|
  {
    if ds != {} {
      var x :| x in ds;
      var rest := ds - {x};
      VersionsCount(documents, rest);
      if documents[x] > 0 {
        assert VersionsOf(documents, ds) == VersionsOf(documents, rest) + {(x, documents[x])};
        assert (x, documents[x]) !in VersionsOf(documents, rest);
      } else {
        assert VersionsOf(documents, ds) == VersionsOf(documents, rest);
      }
      assert |ds| == |rest| + 1 && forall d :: d in ds <==> d in rest || d == x;
    }
  }

  lemma SubsetSameSize<T>(a: set<T>, b: set<T>)
    requires a <= b && |a| == |b|
    ensures a == b
  {
    if a != b {
      var x :| x in b && x !in a;
      SubsetSize(a, b - {x});
    }
  }

  lemma {:induction false} SubsetSize<T>(a: set<T>, b: set<T>)
    requires a <= b
    ensures |a| <= |b|
    decreases |a|
  {
    if a != {} {
      var x :| x in a;
      SubsetSize(a - {x}, b - {x});
    }
  }

  /** Counting and comparing decides exactly whether the snapshot is the current version of every document. */
  lemma SnapshotCurrentExact(accepted: set<VersionId>, documents: map<DocumentId, nat>)
    ensures SnapshotCurrent(accepted, |documents|, CurrentVersions(documents)) <==>
            documents != map[] && (forall d :: d in documents ==> documents[d] > 0) && accepted == CurrentVersions(documents)
  {
    var current := CurrentVersions(documents);
    VersionsCount(documents, documents.Keys);
    assert current == VersionsOf(documents, documents.Keys);
    assert |documents.Keys| == |documents|;
    if SnapshotCurrent(accepted, |documents|, current) {
      assert current <= accepted;
      SubsetSameSize(current, accepted);
    }
  }

  // ---------------------------------------------------------------- customer confirmations

  /** A positive row never makes a confirmed portion unconfirmed, whatever its time. */
  lemma PositiveRowKeepsReady(cs: seq<Confirmation>, more: seq<Confirmation>, x: PortionId)
    requires CustomerReady(cs, x)
    requires forall i :: 0 <= i < |more| && IsCustomerRow(more[i], x) ==> more[i].quantity > 0
    ensures CustomerReady(cs + more, x)
  {
    var all := cs + more;
    var k :| 0 <= k < |cs| && IsCustomerRow(cs[k], x);
    assert all[k] == cs[k];
    forall i | 0 <= i < |all| && IsLatest(all, i, x) ensures all[i].quantity > 0 {
      if i < |cs| {
        forall j | 0 <= j < |cs| && IsCustomerRow(cs[j], x) ensures cs[j].at <= cs[i].at { assert all[j] == cs[j]; }
        assert IsLatest(cs, i, x);
      } else {
        assert all[i] == more[i - |cs|];
      }
    }
  }

  // ---------------------------------------------------------------- histories

  /** The total as the history alone tells it. */
  function ReplayTotal(rows: seq<AmountRow>): Option<int> { if rows == [] then None else Some(rows[|rows| - 1].amount) }

  ghost predicate AmountChain(rows: seq<AmountRow>) { forall i :: 0 <= i < |rows| ==> rows[i].previous == ReplayTotal(rows[..i]) }

  /** The amount of a portion and whether it is cancelled, as the history alone tells it. */
  function ReplayAllocation(rows: seq<AllocationRow>, x: PortionId): Option<(int, bool)> {
    if rows == [] then None
    else
      var last := rows[|rows| - 1];
      if last.portion != x then ReplayAllocation(rows[..|rows| - 1], x)
      else if last.amount.Some? then Some((last.amount.value, false))
      else if last.previous.Some? then Some((last.previous.value, true))
      else None
  }

  /** A row continues a history: it names the amount held just before and the operation that fits it. */
  ghost predicate Continues(before: seq<AllocationRow>, row: AllocationRow) {
    var held := ReplayAllocation(before, row.portion);
    && row.previous == (if held.Some? then Some(held.value.0) else None)
    && match row.operation
       case Create => held.None? && row.amount.Some?
       case Correct => held.Some? && !held.value.1 && row.amount.Some?
       case Restore => held.Some? && held.value.1 && row.amount.Some?
       case Cancel => held.Some? && !held.value.1 && row.amount.None?
  }

  ghost predicate AllocationChain(rows: seq<AllocationRow>) { forall i :: 0 <= i < |rows| ==> Continues(rows[..i], rows[i]) }

  function Held(xs: seq<Allocation>, x: PortionId): Option<(int, bool)> {
    var at := AllocationOf(xs, x);
    if at.Some? then Some((xs[at.value].amount, xs[at.value].cancelled)) else None
  }

  ghost predicate DistinctPortions(xs: seq<Allocation>) { forall i, j :: 0 <= i < j < |xs| ==> xs[i].portion != xs[j].portion }

  ghost predicate HistoryFits(c: Case) {
    && c.total == ReplayTotal(c.amounts) && AmountChain(c.amounts)
    && DistinctPortions(c.allocations) && AllocationChain(c.allocationRows)
    && forall x :: Held(c.allocations, x) == ReplayAllocation(c.allocationRows, x)
  }

  lemma AllocationOfIs(xs: seq<Allocation>, i: nat)
    requires i < |xs| && DistinctPortions(xs)
    ensures AllocationOf(xs, xs[i].portion) == Some(i)
  {
    var r := AllocationOf(xs, xs[i].portion);
    assert r.Some?;
  }

  lemma ReplaySnoc(rows: seq<AllocationRow>, row: AllocationRow, x: PortionId)
    ensures row.portion != x ==> ReplayAllocation(rows + [row], x) == ReplayAllocation(rows, x)
    ensures row.portion == x && row.amount.Some? ==> ReplayAllocation(rows + [row], x) == Some((row.amount.value, false))
    ensures row.portion == x && row.amount.None? && row.previous.Some? ==> ReplayAllocation(rows + [row], x) == Some((row.previous.value, true))
  {
    assert (rows + [row])[..|rows|] == rows;
  }

  lemma ChainSnoc(rows: seq<AllocationRow>, row: AllocationRow)
    requires AllocationChain(rows) && Continues(rows, row)
    ensures AllocationChain(rows + [row])
  {
    var more := rows + [row];
    forall i | 0 <= i < |more| ensures Continues(more[..i], more[i]) {
      if i < |rows| {
        assert more[..i] == rows[..i];
      } else {
        assert more[..i] == rows;
      }
    }
  }

  lemma HeldAfterUpdate(xs: seq<Allocation>, i: nat, a: Allocation, x: PortionId)
    requires i < |xs| && DistinctPortions(xs) && a.portion == xs[i].portion
    ensures DistinctPortions(xs[i := a])
    ensures Held(xs[i := a], x) == if x == a.portion then Some((a.amount, a.cancelled)) else Held(xs, x)
  {
    var ys := xs[i := a];
    assert forall k :: 0 <= k < |xs| ==> ys[k].portion == xs[k].portion;
    var at := AllocationOf(xs, x);
    if at.Some? {
      AllocationOfIs(ys, at.value);
      AllocationOfIs(xs, i);
    }
  }

  lemma HeldAfterAppend(xs: seq<Allocation>, a: Allocation, x: PortionId)
    requires DistinctPortions(xs) && AllocationOf(xs, a.portion).None?
    ensures DistinctPortions(xs + [a])
    ensures Held(xs + [a], x) == if x == a.portion then Some((a.amount, a.cancelled)) else Held(xs, x)
  {
    var ys := xs + [a];
    assert ys[..|xs|] == xs;
  }

  lemma SetAllocationKeepsHistory(c: Case, x: PortionId, amount: int)
    requires HistoryFits(c)
    ensures HistoryFits(Allocated(c, x, AllocationOf(c.allocations, x), amount))
  {
    var at := AllocationOf(c.allocations, x);
    var t := Allocated(c, x, at, amount);
    var row := t.allocationRows[|c.allocationRows|];
    assert Held(c.allocations, x) == ReplayAllocation(c.allocationRows, x);
    ChainSnoc(c.allocationRows, row);
    forall y ensures Held(t.allocations, y) == ReplayAllocation(t.allocationRows, y) {
      ReplaySnoc(c.allocationRows, row, y);
      if at.None? {
        HeldAfterAppend(c.allocations, t.allocations[|c.allocations|], y);
      } else {
        HeldAfterUpdate(c.allocations, at.value, t.allocations[at.value], y);
      }
    }
    if at.None? {
      HeldAfterAppend(c.allocations, t.allocations[|c.allocations|], x);
    } else {
      HeldAfterUpdate(c.allocations, at.value, t.allocations[at.value], x);
    }
  }

  lemma CancelKeepsHistory(c: Case, at: nat)
    requires HistoryFits(c) && at < |c.allocations| && !c.allocations[at].cancelled
    ensures HistoryFits(Cancelled(c, at))
  {
    var t, a := Cancelled(c, at), c.allocations[at];
    var row := t.allocationRows[|c.allocationRows|];
    AllocationOfIs(c.allocations, at);
    assert Held(c.allocations, a.portion) == ReplayAllocation(c.allocationRows, a.portion);
    ChainSnoc(c.allocationRows, row);
    forall y ensures Held(t.allocations, y) == ReplayAllocation(t.allocationRows, y) {
      ReplaySnoc(c.allocationRows, row, y);
      HeldAfterUpdate(c.allocations, at, t.allocations[at], y);
    }
    HeldAfterUpdate(c.allocations, at, t.allocations[at], a.portion);
  }

  lemma SetAmountKeepsHistory(c: Case, amount: int)
    requires HistoryFits(c)
    ensures HistoryFits(c.(total := Some(amount), amounts := c.amounts + [AmountRow(c.total, amount)]))
  {
    var rows := c.amounts + [AmountRow(c.total, amount)];
    forall i | 0 <= i < |rows| ensures rows[i].previous == ReplayTotal(rows[..i]) {
      if i < |c.amounts| {
        assert rows[..i] == c.amounts[..i];
      } else {
        assert rows[..i] == c.amounts;
      }
    }
  }

  // ---------------------------------------------------------------- the invariant

  ghost predicate CaseFits(c: Case) { (c.status == Closed ==> c.locked && CanClose(c)) && HistoryFits(c) }

  /** What every package satisfies, given the confirmations and the portions of the works. */
  ghost predicate PackageFits(p: Package, portions: map<PortionId, WorkId>, cs: seq<Confirmation>) {
    && (Locked(p) ==> p.status == AcceptedByCustomer && !p.archived && Ready(p, cs))
    && (p.status == AcceptedByCustomer ==> HasCustomerAcceptance(p))
    && AllOfWork(portions, p.portions, p.work)
    && (p.closing.Some? ==> CaseFits(p.closing.value))
  }

  /** No portion is in two active packages. */
  ghost predicate NoDoubleClaim(packages: map<PackageId, Package>) {
    forall a, b :: a in packages && b in packages && a != b && !packages[a].archived && !packages[b].archived ==>
      packages[a].portions !! packages[b].portions
  }

  ghost predicate AllFit(s: Store) { forall id :: id in s.packages ==> PackageFits(s.packages[id], s.portions, s.confirmations) }

  ghost predicate Inv(s: Store) { AllFit(s) && NoDoubleClaim(s.packages) }

  // ---------------------------------------------------------------- one package changes

  /** Putting back a package that fits, with the same portions and no claim revived, keeps everything. */
  lemma PutKeeps(s: Store, id: PackageId, p: Package)
    requires Inv(s) && id in s.packages && PackageFits(p, s.portions, s.confirmations)
    requires p.portions == s.packages[id].portions && (s.packages[id].archived ==> p.archived)
    ensures Inv(Put(s, id, p))
  {
  }

  lemma CreatePackageKeeps(s: Store, id: PackageId, work: WorkId, xs: set<PortionId>)
    requires Inv(s) && CreatePackage(s, id, work, xs).Ok?
    ensures Inv(CreatePackage(s, id, work, xs).value)
  {
    var t := CreatePackage(s, id, work, xs).value;
    forall b | b in s.packages && !s.packages[b].archived ensures s.packages[b].portions !! xs {
      ClaimsAreDisjoint(s, work, xs, None, b);
    }
  }

  lemma ClaimsAreDisjoint(s: Store, work: WorkId, xs: set<PortionId>, besides: Option<PackageId>, b: PackageId)
    requires AllFit(s) && b in s.packages && !s.packages[b].archived && Some(b) != besides
    requires AllOfWork(s.portions, xs, work) && !Overlaps(s.packages, work, xs, besides)
    ensures s.packages[b].portions !! xs
  {
    assert PackageFits(s.packages[b], s.portions, s.confirmations);
    if s.packages[b].work == work {
      var both := s.packages[b].portions * xs;
      assert both == {};
      assert forall x :: x in s.packages[b].portions && x in xs ==> x in both;
    }
  }

  lemma LinkPortionKeeps(s: Store, id: PackageId, x: PortionId)
    requires Inv(s) && LinkPortion(s, id, x).Ok?
    ensures Inv(LinkPortion(s, id, x).value)
  {
    var t, p := LinkPortion(s, id, x).value, s.packages[id];
    assert PackageFits(p, s.portions, s.confirmations);
    forall b | b in s.packages && b != id && !s.packages[b].archived ensures s.packages[b].portions !! t.packages[id].portions {
      ClaimsAreDisjoint(s, p.work, {x}, Some(id), b);
      assert x !in s.packages[b].portions;
    }
  }

  lemma CreateDocumentKeeps(s: Store, id: PackageId, d: DocumentId, dedicated: bool)
    requires Inv(s) && CreateDocument(s, id, d, dedicated).Ok?
    ensures Inv(CreateDocument(s, id, d, dedicated).value)
  {
    assert PackageFits(s.packages[id], s.portions, s.confirmations);
    PutKeeps(s, id, CreateDocument(s, id, d, dedicated).value.packages[id]);
  }

  lemma CreateVersionKeeps(s: Store, id: PackageId, d: DocumentId, kind: VersionKind)
    requires Inv(s) && CreateVersion(s, id, d, kind).Ok?
    ensures Inv(CreateVersion(s, id, d, kind).value)
  {
    assert PackageFits(s.packages[id], s.portions, s.confirmations);
    PutKeeps(s, id, CreateVersion(s, id, d, kind).value.packages[id]);
  }

  lemma ChangeStatusKeeps(s: Store, id: PackageId, version: nat, to: Status, gate: bool)
    requires Inv(s) && ChangeStatus(s, id, version, to, gate).Ok?
    ensures Inv(ChangeStatus(s, id, version, to, gate).value)
  {
    assert PackageFits(s.packages[id], s.portions, s.confirmations);
    PutKeeps(s, id, ChangeStatus(s, id, version, to, gate).value.packages[id]);
  }

  lemma RegisterAcceptanceKeeps(s: Store, id: PackageId, version: nat)
    requires Inv(s) && RegisterAcceptance(s, id, version).Ok?
    ensures Inv(RegisterAcceptance(s, id, version).value)
  {
    assert PackageFits(s.packages[id], s.portions, s.confirmations);
    PutKeeps(s, id, RegisterAcceptance(s, id, version).value.packages[id]);
  }

  lemma ReturnToCorrectionKeeps(s: Store, id: PackageId, version: nat)
    requires Inv(s) && ReturnToCorrection(s, id, version).Ok?
    ensures Inv(ReturnToCorrection(s, id, version).value)
  {
    assert PackageFits(s.packages[id], s.portions, s.confirmations);
    PutKeeps(s, id, ReturnToCorrection(s, id, version).value.packages[id]);
  }

  lemma ArchiveKeeps(s: Store, id: PackageId, version: nat, reason: string)
    requires Inv(s) && Archive(s, id, version, reason).Ok?
    ensures Inv(Archive(s, id, version, reason).value)
  {
    assert PackageFits(s.packages[id], s.portions, s.confirmations);
    PutKeeps(s, id, Archive(s, id, version, reason).value.packages[id]);
  }

  lemma EmptyHistoryFits(c: Case)
    requires c.total.None? && c.amounts == [] && c.allocations == [] && c.allocationRows == []
    ensures HistoryFits(c)
  {
  }

  lemma HandoffKeeps(s: Store, id: PackageId, version: nat)
    requires Inv(s) && Handoff(s, id, version).Ok?
    ensures Inv(Handoff(s, id, version).value)
  {
    var p, q := s.packages[id], Handoff(s, id, version).value.packages[id];
    assert PackageFits(p, s.portions, s.confirmations);
    if p.closing.None? {
      EmptyHistoryFits(q.closing.value);
    } else {
      SameHistory(p.closing.value, q.closing.value);
    }
    assert Ready(q, s.confirmations);
    PutKeeps(s, id, q);
  }

  lemma SameHistory(c: Case, d: Case)
    requires HistoryFits(c) && d.total == c.total && d.amounts == c.amounts && d.allocations == c.allocations && d.allocationRows == c.allocationRows
    ensures HistoryFits(d)
  {
  }

  lemma ReturnToPtoKeeps(s: Store, id: PackageId, version: nat)
    requires Inv(s) && ReturnToPto(s, id, version).Ok?
    ensures Inv(ReturnToPto(s, id, version).value)
  {
    var p, q := s.packages[id], ReturnToPto(s, id, version).value.packages[id];
    assert PackageFits(p, s.portions, s.confirmations);
    SameHistory(p.closing.value, q.closing.value);
    PutKeeps(s, id, q);
  }

  lemma ChangeCaseStatusKeeps(s: Store, id: PackageId, version: nat, to: CaseStatus, reason: string)
    requires Inv(s) && ChangeCaseStatus(s, id, version, to, reason).Ok?
    ensures Inv(ChangeCaseStatus(s, id, version, to, reason).value)
  {
    var p, q := s.packages[id], ChangeCaseStatus(s, id, version, to, reason).value.packages[id];
    assert PackageFits(p, s.portions, s.confirmations);
    SameHistory(p.closing.value, q.closing.value);
    CaseOnlyKeeps(s, id, q);
  }

  /** Only the case of a held package changes. */
  lemma CaseOnlyKeeps(s: Store, id: PackageId, q: Package)
    requires Inv(s) && id in s.packages && s.packages[id].closing.Some? && s.packages[id].closing.value.locked
    requires q.closing.Some? && q == s.packages[id].(closing := q.closing) && CaseFits(q.closing.value) && q.closing.value.locked
    ensures Inv(Put(s, id, q))
  {
    var p := s.packages[id];
    assert PackageFits(p, s.portions, s.confirmations);
    assert HasCustomerAcceptance(q) == HasCustomerAcceptance(p) && Ready(q, s.confirmations) == Ready(p, s.confirmations);
    PutKeeps(s, id, q);
  }

  lemma AssignResponsibleKeeps(s: Store, id: PackageId, version: nat, user: UserId, active: bool)
    requires Inv(s) && AssignResponsible(s, id, version, user, active).Ok?
    ensures Inv(AssignResponsible(s, id, version, user, active).value)
  {
    var p, q := s.packages[id], AssignResponsible(s, id, version, user, active).value.packages[id];
    assert PackageFits(p, s.portions, s.confirmations);
    SameHistory(p.closing.value, q.closing.value);
    PutKeeps(s, id, q);
  }

  lemma EditPackageKeeps(s: Store, id: PackageId, version: nat, sameResponsible: bool)
    requires Inv(s) && EditPackage(s, id, version, sameResponsible).Ok?
    ensures Inv(EditPackage(s, id, version, sameResponsible).value)
  {
    assert PackageFits(s.packages[id], s.portions, s.confirmations);
    PutKeeps(s, id, EditPackage(s, id, version, sameResponsible).value.packages[id]);
  }

  lemma SetAmountKeeps(s: Store, id: PackageId, version: nat, amount: int)
    requires Inv(s) && SetAmount(s, id, version, amount).Ok?
    ensures Inv(SetAmount(s, id, version, amount).value)
  {
    var c, q := s.packages[id].closing.value, SetAmount(s, id, version, amount).value.packages[id];
    assert PackageFits(s.packages[id], s.portions, s.confirmations);
    SetAmountKeepsHistory(c, amount);
    SameHistory(c.(total := Some(amount), amounts := c.amounts + [AmountRow(c.total, amount)]), q.closing.value);
    CaseOnlyKeeps(s, id, q);
  }

  lemma SetAllocationKeeps(s: Store, id: PackageId, x: PortionId, version: nat, amount: int)
    requires Inv(s) && SetAllocation(s, id, x, version, amount).Ok?
    ensures Inv(SetAllocation(s, id, x, version, amount).value)
  {
    assert PackageFits(s.packages[id], s.portions, s.confirmations);
    SetAllocationKeepsHistory(s.packages[id].closing.value, x, amount);
    CaseOnlyKeeps(s, id, SetAllocation(s, id, x, version, amount).value.packages[id]);
  }

  lemma CancelAllocationKeeps(s: Store, id: PackageId, x: PortionId, version: nat)
    requires Inv(s) && CancelAllocation(s, id, x, version).Ok?
    ensures Inv(CancelAllocation(s, id, x, version).value)
  {
    var c := s.packages[id].closing.value;
    assert PackageFits(s.packages[id], s.portions, s.confirmations);
    CancelKeepsHistory(c, AllocationOf(c.allocations, x).value);
    CaseOnlyKeeps(s, id, CancelAllocation(s, id, x, version).value.packages[id]);
  }

  // ---------------------------------------------------------------- quantities change

  /** New confirmations keep a package fitting when no portion of a held package gets a customer row that is not positive. */
  lemma RowsKeepFit(p: Package, portions: map<PortionId, WorkId>, cs: seq<Confirmation>, more: seq<Confirmation>)
    requires PackageFits(p, portions, cs)
    requires Locked(p) ==> forall i, x :: 0 <= i < |more| && x in p.portions && IsCustomerRow(more[i], x) ==> more[i].quantity > 0
    ensures PackageFits(p, portions, cs + more)
  {
    if Locked(p) {
      forall x | x in p.portions ensures CustomerReady(cs + more, x) { PositiveRowKeepsReady(cs, more, x); }
    }
  }

  lemma AcceptInspectionKeeps(s: Store, x: PortionId, source: Source, quantity: real, at: int)
    requires Inv(s) && AcceptInspection(s, x, source, quantity, at).Ok?
    ensures Inv(AcceptInspection(s, x, source, quantity, at).value)
  {
    var more := [Confirmation(x, source, RoundHalfUp(quantity), at)];
    forall id | id in s.packages ensures PackageFits(s.packages[id], s.portions, s.confirmations + more) {
      RowsKeepFit(s.packages[id], s.portions, s.confirmations, more);
    }
  }

  lemma RecordingKeepsFit(s: Store, id: PackageId, items: seq<Item>, at: int, other: PackageId)
    requires Inv(s) && id in s.packages && !s.packages[id].archived && !Locked(s.packages[id])
    requires forall i :: 0 <= i < |items| ==> items[i].portion in s.packages[id].portions
    requires other in s.packages
    ensures PackageFits(s.packages[other], s.portions, s.confirmations + Recorded(items, at))
  {
    var q := s.packages[other];
    assert PackageFits(q, s.portions, s.confirmations);
    if Locked(q) {
      assert !q.archived && other != id;
      assert q.portions !! s.packages[id].portions;
    }
    RowsKeepFit(q, s.portions, s.confirmations, Recorded(items, at));
  }

  lemma RecordCustomerQuantityKeeps(s: Store, id: PackageId, items: seq<Item>, at: int, gate: bool)
    requires Inv(s) && RecordCustomerQuantity(s, id, items, at, gate).Ok?
    ensures Inv(RecordCustomerQuantity(s, id, items, at, gate).value)
  {
    var t := RecordCustomerQuantity(s, id, items, at, gate).value;
    forall other | other in s.packages ensures PackageFits(s.packages[other], s.portions, t.confirmations) {
      RecordingKeepsFit(s, id, items, at, other);
    }
    assert PackageFits(t.packages[id], t.portions, t.confirmations);
  }

  lemma AddPortionKeeps(s: Store, x: PortionId, w: WorkId)
    requires Inv(s) && x !in s.portions
    ensures Inv(s.(portions := s.portions[x := w]))
  {
    forall id | id in s.packages ensures PackageFits(s.packages[id], s.portions[x := w], s.confirmations) {
      assert PackageFits(s.packages[id], s.portions, s.confirmations);
    }
  }

  // ---------------------------------------------------------------- every run

  lemma StepKeepsInvariant(s: Store, c: Command)
    requires Inv(s)
    ensures Inv(After(s, c))
  {
    if Step(s, c).Ok? {
      match c
      case AddPortion(x, w) => AddPortionKeeps(s, x, w);
      case DoCreatePackage(id, w, xs) => CreatePackageKeeps(s, id, w, xs);
      case DoLinkPortion(id, x) => LinkPortionKeeps(s, id, x);
      case DoCreateDocument(id, d, dedicated) => CreateDocumentKeeps(s, id, d, dedicated);
      case DoCreateVersion(id, d, kind) => CreateVersionKeeps(s, id, d, kind);
      case DoChangeStatus(id, v, to, gate) => ChangeStatusKeeps(s, id, v, to, gate);
      case DoRegisterAcceptance(id, v) => RegisterAcceptanceKeeps(s, id, v);
      case DoReturnToCorrection(id, v) => ReturnToCorrectionKeeps(s, id, v);
      case DoArchive(id, v, reason) => ArchiveKeeps(s, id, v, reason);
      case DoHandoff(id, v) => HandoffKeeps(s, id, v);
      case DoReturnToPto(id, v) => ReturnToPtoKeeps(s, id, v);
      case DoChangeCaseStatus(id, v, to, reason) => ChangeCaseStatusKeeps(s, id, v, to, reason);
      case DoSetAmount(id, v, amount) => SetAmountKeeps(s, id, v, amount);
      case DoSetAllocation(id, x, v, amount) => SetAllocationKeeps(s, id, x, v, amount);
      case DoCancelAllocation(id, x, v) => CancelAllocationKeeps(s, id, x, v);
      case DoRecordCustomerQuantity(id, items, at, gate) => RecordCustomerQuantityKeeps(s, id, items, at, gate);
      case DoAcceptInspection(x, source, q, at) => AcceptInspectionKeeps(s, x, source, q, at);
      case DoEditPackage(id, v, same) => EditPackageKeeps(s, id, v, same);
      case DoAssignResponsible(id, v, user, active) => AssignResponsibleKeeps(s, id, v, user, active);
    }
  }

  lemma {:induction false} RunsKeepInvariant(cs: seq<Command>)
    ensures Inv(Run(EMPTY_STORE, cs))
  {
    if cs != [] {
      RunsKeepInvariant(cs[..|cs| - 1]);
      StepKeepsInvariant(Run(EMPTY_STORE, cs[..|cs| - 1]), cs[|cs| - 1]);
    }
  }

  // ---------------------------------------------------------------- what it means for the route

  /** In every reachable state a held package is accepted, ready and not archived; a closed case is held, with a total its active allocations match. */
  lemma HeldPackagesAreReady(cs: seq<Command>, id: PackageId)
    requires id in Run(EMPTY_STORE, cs).packages
    ensures var s := Run(EMPTY_STORE, cs);
            var p := s.packages[id];
            && (Locked(p) ==> p.status == AcceptedByCustomer && !p.archived && Ready(p, s.confirmations))
            && (p.closing.Some? && p.closing.value.status == Closed ==>
                  && Locked(p) && p.closing.value.total.Some?
                  && (!HasActive(p.closing.value.allocations) || ActiveSum(p.closing.value.allocations) == p.closing.value.total.value))
  {
    RunsKeepInvariant(cs);
    assert PackageFits(Run(EMPTY_STORE, cs).packages[id], Run(EMPTY_STORE, cs).portions, Run(EMPTY_STORE, cs).confirmations);
  }

  lemma AcceptedPackageIsCurrent(p: Package)
    requires HasCustomerAcceptance(p)
    ensures p.documents != map[] && (forall d :: d in p.documents ==> p.documents[d] > 0)
    ensures p.acceptances != [] && p.acceptances[|p.acceptances| - 1] == CurrentVersions(p.documents)
  {
    SnapshotCurrentExact(p.acceptances[|p.acceptances| - 1], p.documents);
  }

  /** An accepted package has documents, each with a version, and the latest acceptance names exactly those versions. */
  lemma AcceptedMeansCurrent(cs: seq<Command>, id: PackageId)
    requires id in Run(EMPTY_STORE, cs).packages && Run(EMPTY_STORE, cs).packages[id].status == AcceptedByCustomer
    ensures var p := Run(EMPTY_STORE, cs).packages[id];
            && p.documents != map[] && (forall d :: d in p.documents ==> p.documents[d] > 0)
            && p.acceptances != [] && p.acceptances[|p.acceptances| - 1] == CurrentVersions(p.documents)
  {
    RunsKeepInvariant(cs);
    var s := Run(EMPTY_STORE, cs);
    var p := s.packages[id];
    assert PackageFits(p, s.portions, s.confirmations);
    AcceptedPackageIsCurrent(p);
  }

  /** No portion is ever in two active packages. */
  lemma PortionsClaimedOnce(cs: seq<Command>, a: PackageId, b: PackageId, x: PortionId)
    requires a in Run(EMPTY_STORE, cs).packages && b in Run(EMPTY_STORE, cs).packages && a != b
    requires x in Run(EMPTY_STORE, cs).packages[a].portions && !Run(EMPTY_STORE, cs).packages[a].archived
    ensures x in Run(EMPTY_STORE, cs).packages[b].portions ==> Run(EMPTY_STORE, cs).packages[b].archived
  {
    RunsKeepInvariant(cs);
  }

  /** Closing never fails for readiness: whoever holds the case, only the amounts can stand against it. */
  lemma ClosingIsNeverUnready(cs: seq<Command>, id: PackageId, version: nat, reason: string)
    ensures ChangeCaseStatus(Run(EMPTY_STORE, cs), id, version, Closed, reason) != Err(NotReady)
    ensures var s := Run(EMPTY_STORE, cs);
            ChangeCaseStatus(s, id, version, Closed, reason).Ok? <==>
              && id in s.packages && s.packages[id].closing.Some?
              && var c := s.packages[id].closing.value;
                 c.version == version && c.locked && c.status == VerificationPassed && CanClose(c)
  {
    RunsKeepInvariant(cs);
    var s := Run(EMPTY_STORE, cs);
    if id in s.packages {
      assert PackageFits(s.packages[id], s.portions, s.confirmations);
    }
  }

  /** The histories alone give back the total, every amount and every cancelled mark, and each row names the amount held just before it. */
  lemma HistoriesReplay(cs: seq<Command>, id: PackageId, x: PortionId)
    requires id in Run(EMPTY_STORE, cs).packages && Run(EMPTY_STORE, cs).packages[id].closing.Some?
    ensures var c := Run(EMPTY_STORE, cs).packages[id].closing.value;
            && c.total == ReplayTotal(c.amounts)
            && Held(c.allocations, x) == ReplayAllocation(c.allocationRows, x)
            && AmountChain(c.amounts) && AllocationChain(c.allocationRows)
  {
    RunsKeepInvariant(cs);
    var s := Run(EMPTY_STORE, cs);
    assert PackageFits(s.packages[id], s.portions, s.confirmations);
  }

  // ---------------------------------------------------------------- how one step moves a package

  ghost predicate SameContent(p: Package, q: Package) {
    q.portions == p.portions && q.documents == p.documents && q.acceptances == p.acceptances && q.work == p.work
  }

  predicate DocumentsGrow(a: map<DocumentId, nat>, b: map<DocumentId, nat>) { forall d :: d in a ==> d in b && a[d] <= b[d] }

  /** The figures of a case and all that is written about them. */
  predicate SameBooks(a: Case, b: Case) {
    b.total == a.total && b.allocations == a.allocations && b.amounts == a.amounts && b.allocationRows == a.allocationRows
  }

  predicate IsContentCommand(c: Command) { c.DoLinkPortion? || c.DoCreateDocument? || c.DoCreateVersion? }

  predicate IsCaseCommand(c: Command) { c.DoHandoff? || c.DoReturnToPto? || c.DoChangeCaseStatus? || c.DoAssignResponsible? }

  predicate IsAmountCommand(c: Command) { c.DoSetAmount? || c.DoSetAllocation? || c.DoCancelAllocation? }

  /** Content only grows, and only where it may be edited; nothing else moves with it. */
  ghost predicate ContentMoves(p: Package, q: Package, c: Command) {
    && q.work == p.work && p.portions <= q.portions && DocumentsGrow(p.documents, q.documents)
    && (q.portions != p.portions || q.documents != p.documents ==>
          IsContentCommand(c) && CanMutateContent(p) && !p.archived && q.status == p.status && q.acceptances == p.acceptances && q.closing == p.closing)
  }

  /** The status moves along the allow-list, or into acceptance, or out of it by one of the two corrections. */
  ghost predicate StatusMoves(p: Package, q: Package, c: Command) {
    && (q.status != p.status ==>
          || (c.DoChangeStatus? && q.status == c.status && TransitionAllowed(p.status, q.status))
          || (c.DoRegisterAcceptance? && p.status == Presented && q.status == AcceptedByCustomer)
          || (c.DoReturnToCorrection? && p.status == AcceptedByCustomer && q.status == Correcting && p.closing.None?)
          || (c.DoReturnToPto? && p.status == AcceptedByCustomer && q.status == Correcting && Locked(p) && !Locked(q) && p.closing.value.status != Closed))
    && (q.status != p.status && q.status in {Preparing, ReadyForPresentation, Presented} ==> p.portions != {})
    && (q.status != p.status && q.status == Presented ==> c.DoChangeStatus? && c.gate)
    && (q.acceptances != p.acceptances ==>
          c.DoRegisterAcceptance? && q.status == AcceptedByCustomer && q.acceptances == p.acceptances + [CurrentVersions(p.documents)])
  }

  /** What one step may do to a case. */
  ghost predicate CaseStep(a: Case, b: Case, c: Command) {
    && a.amounts <= b.amounts && a.allocationRows <= b.allocationRows
    && (!SameBooks(a, b) ==> IsAmountCommand(c) && a.locked && a.status != Closed && b.status == a.status)
    && (b.status != a.status ==>
          && c.DoChangeCaseStatus? && b.status == c.caseStatus && a.locked && CaseTransitionAllowed(a.status, b.status)
          && (b.status == OnCorrection && a.status in {VerificationPassed, Closed} ==> c.reason != ""))
    && (b.responsible != a.responsible ==> c.DoAssignResponsible?)
  }

  /** The case appears with the first handoff and never goes; only a handoff locks, only a return unlocks. */
  ghost predicate CaseMoves(p: Package, q: Package, c: Command) {
    && (p.closing.Some? ==> q.closing.Some? && CaseStep(p.closing.value, q.closing.value, c))
    && (p.closing.None? && q.closing.Some? ==> c.DoHandoff? && q.closing.value == Case(OnReconciliation, true, 1, None, [], [], [], None))
    && (Locked(q) && !Locked(p) ==> c.DoHandoff?)
    && (Locked(p) && !Locked(q) ==> c.DoReturnToPto? && q.status == Correcting)
  }

  /** An archived package without a case does not move at all. */
  ghost predicate ArchivingMoves(p: Package, q: Package, c: Command) {
    && (q.archived != p.archived ==> c.DoArchive? && q.archived && c.reason != "" && p.status in {Draft, Preparing})
    && (p.archived && p.closing.None? ==> q == p)
  }

  ghost predicate Moves(p: Package, q: Package, c: Command) {
    ContentMoves(p, q, c) && StatusMoves(p, q, c) && CaseMoves(p, q, c) && ArchivingMoves(p, q, c)
  }

  /** The command names the package. */
  predicate Targets(c: Command, id: PackageId) { !c.AddPortion? && !c.DoAcceptInspection? && c.id == id }

  /** Only the named package moves, and it moves as above. */
  ghost predicate MovesAt(s: Store, c: Command, id: PackageId)
    requires id in s.packages
  {
    && id in After(s, c).packages && Moves(s.packages[id], After(s, c).packages[id], c)
    && (After(s, c).packages[id] != s.packages[id] ==> Targets(c, id))
  }

  lemma LinkPortionMoves(s: Store, c: Command, id: PackageId)
    requires id in s.packages && c.DoLinkPortion?
    ensures MovesAt(s, c, id)
  {
  }

  lemma CreateDocumentMoves(s: Store, c: Command, id: PackageId)
    requires id in s.packages && c.DoCreateDocument?
    ensures MovesAt(s, c, id)
  {
  }

  lemma CreateVersionMoves(s: Store, c: Command, id: PackageId)
    requires id in s.packages && c.DoCreateVersion?
    ensures MovesAt(s, c, id)
  {
  }

  lemma ChangeStatusMoves(s: Store, c: Command, id: PackageId)
    requires id in s.packages && c.DoChangeStatus?
    ensures MovesAt(s, c, id)
  {
  }

  lemma RegisterAcceptanceMoves(s: Store, c: Command, id: PackageId)
    requires id in s.packages && c.DoRegisterAcceptance?
    ensures MovesAt(s, c, id)
  {
  }

  lemma ReturnToCorrectionMoves(s: Store, c: Command, id: PackageId)
    requires id in s.packages && c.DoReturnToCorrection?
    ensures MovesAt(s, c, id)
  {
  }

  lemma ArchiveMoves(s: Store, c: Command, id: PackageId)
    requires id in s.packages && c.DoArchive?
    ensures MovesAt(s, c, id)
  {
  }

  lemma EditPackageMoves(s: Store, c: Command, id: PackageId)
    requires id in s.packages && c.DoEditPackage?
    ensures MovesAt(s, c, id)
  {
  }

  lemma HandoffMoves(s: Store, c: Command, id: PackageId)
    requires id in s.packages && c.DoHandoff?
    ensures MovesAt(s, c, id)
  {
  }

  lemma ReturnToPtoMoves(s: Store, c: Command, id: PackageId)
    requires id in s.packages && c.DoReturnToPto?
    ensures MovesAt(s, c, id)
  {
  }

  lemma ChangeCaseStatusMoves(s: Store, c: Command, id: PackageId)
    requires id in s.packages && c.DoChangeCaseStatus?
    ensures MovesAt(s, c, id)
  {
  }

  lemma AssignResponsibleMoves(s: Store, c: Command, id: PackageId)
    requires id in s.packages && c.DoAssignResponsible?
    ensures MovesAt(s, c, id)
  {
  }

  lemma SetAmountMoves(s: Store, c: Command, id: PackageId)
    requires id in s.packages && c.DoSetAmount?
    ensures MovesAt(s, c, id)
  {
  }

  lemma SetAllocationMoves(s: Store, c: Command, id: PackageId)
    requires id in s.packages && c.DoSetAllocation?
    ensures MovesAt(s, c, id)
  {
  }

  lemma CancelAllocationMoves(s: Store, c: Command, id: PackageId)
    requires id in s.packages && c.DoCancelAllocation?
    ensures MovesAt(s, c, id)
  {
  }

  lemma CreationMoves(s: Store, c: Command, id: PackageId)
    requires id in s.packages && (c.AddPortion? || c.DoCreatePackage?)
    ensures MovesAt(s, c, id)
  {
  }

  lemma QuantityMoves(s: Store, c: Command, id: PackageId)
    requires id in s.packages && (c.DoRecordCustomerQuantity? || c.DoAcceptInspection?)
    ensures MovesAt(s, c, id)
  {
  }

  /** Every step, whatever the command, moves every package only in these ways. */
  lemma StepMoves(s: Store, c: Command, id: PackageId)
    requires id in s.packages
    ensures MovesAt(s, c, id)
  {
    match c
    case DoLinkPortion(_, _) => LinkPortionMoves(s, c, id);
    case DoCreateDocument(_, _, _) => CreateDocumentMoves(s, c, id);
    case DoCreateVersion(_, _, _) => CreateVersionMoves(s, c, id);
    case DoChangeStatus(_, _, _, _) => ChangeStatusMoves(s, c, id);
    case DoRegisterAcceptance(_, _) => RegisterAcceptanceMoves(s, c, id);
    case DoReturnToCorrection(_, _) => ReturnToCorrectionMoves(s, c, id);
    case DoArchive(_, _, _) => ArchiveMoves(s, c, id);
    case DoEditPackage(_, _, _) => EditPackageMoves(s, c, id);
    case DoHandoff(_, _) => HandoffMoves(s, c, id);
    case DoReturnToPto(_, _) => ReturnToPtoMoves(s, c, id);
    case DoChangeCaseStatus(_, _, _, _) => ChangeCaseStatusMoves(s, c, id);
    case DoAssignResponsible(_, _, _, _) => AssignResponsibleMoves(s, c, id);
    case DoSetAmount(_, _, _) => SetAmountMoves(s, c, id);
    case DoSetAllocation(_, _, _, _) => SetAllocationMoves(s, c, id);
    case DoCancelAllocation(_, _, _) => CancelAllocationMoves(s, c, id);
    case DoRecordCustomerQuantity(_, _, _, _) => QuantityMoves(s, c, id);
    case DoAcceptInspection(_, _, _, _) => QuantityMoves(s, c, id);
    case _ => CreationMoves(s, c, id);
  }

  // ---------------------------------------------------------------- frozen while held

  /** One step on a held package: its content stays, and it stays held unless the case is returned to PTO. */
  lemma HeldContentStays(s: Store, c: Command, id: PackageId)
    requires Inv(s) && id in s.packages && Locked(s.packages[id])
    ensures id in After(s, c).packages && SameContent(s.packages[id], After(s, c).packages[id])
    ensures Locked(After(s, c).packages[id]) || (c.DoReturnToPto? && c.id == id)
  {
    assert PackageFits(s.packages[id], s.portions, s.confirmations);
    StepMoves(s, c, id);
  }

  /** From handoff until the case is returned, over any run of operations, the content is what was handed off and the package stays ready. */
  lemma {:induction false} ReadyFromHandoffToReturn(s: Store, cs: seq<Command>, id: PackageId)
    requires Inv(s) && id in s.packages && Locked(s.packages[id])
    requires forall i :: 0 <= i < |cs| ==> !(cs[i].DoReturnToPto? && cs[i].id == id)
    ensures var t := Run(s, cs);
            Inv(t) && id in t.packages && Locked(t.packages[id]) && SameContent(s.packages[id], t.packages[id]) && Ready(t.packages[id], t.confirmations)
  {
    if cs != [] {
      ReadyFromHandoffToReturn(s, cs[..|cs| - 1], id);
      var t := Run(s, cs[..|cs| - 1]);
      HeldContentStays(t, cs[|cs| - 1], id);
      StepKeepsInvariant(t, cs[|cs| - 1]);
    }
    assert PackageFits(Run(s, cs).packages[id], Run(s, cs).portions, Run(s, cs).confirmations);
  }

  // ---------------------------------------------------------------- what a new package may claim

  /** The portions of the work that no active package of it holds. */
  function Eligible(s: Store, work: WorkId): set<PortionId> {
    set x | x in s.portions && s.portions[x] == work
            && !exists q :: q in s.packages && s.packages[q].work == work && !s.packages[q].archived && x in s.packages[q].portions
  }

  lemma NoOverlapExactly(packages: map<PackageId, Package>, work: WorkId, xs: set<PortionId>)
    ensures Overlaps(packages, work, xs, None) <==>
            exists x, q :: x in xs && q in packages && packages[q].work == work && !packages[q].archived && x in packages[q].portions
  {
    if Overlaps(packages, work, xs, None) {
      var q :| q in packages && packages[q].work == work && !packages[q].archived && packages[q].portions * xs != {};
      var x :| x in packages[q].portions * xs;
      assert x in xs && x in packages[q].portions;
    }
    if exists x, q :: x in xs && q in packages && packages[q].work == work && !packages[q].archived && x in packages[q].portions {
      var x, q :| x in xs && q in packages && packages[q].work == work && !packages[q].archived && x in packages[q].portions;
      assert x in packages[q].portions * xs;
    }
  }

  /** A new package is accepted exactly on a non-empty scope of eligible portions; they are eligible no longer. */
  lemma CreateExactly(s: Store, id: PackageId, work: WorkId, xs: set<PortionId>)
    ensures CreatePackage(s, id, work, xs).Ok? <==> id !in s.packages && xs != {} && xs <= Eligible(s, work)
    ensures CreatePackage(s, id, work, xs).Ok? ==> Eligible(CreatePackage(s, id, work, xs).value, work) !! xs
  {
    NoOverlapExactly(s.packages, work, xs);
    if CreatePackage(s, id, work, xs).Ok? {
      var t := CreatePackage(s, id, work, xs).value;
      forall x | x in xs ensures x !in Eligible(t, work) { assert x in t.packages[id].portions; }
    }
  }

  // ---------------------------------------------------------------- the route to the customer

  /** A package is presented exactly when its status is past readiness; before that it has no acceptance, quantity or case. */
  ghost predicate RouteFits(p: Package) {
    && (p.presented <==> p.status !in {Draft, Preparing, ReadyForPresentation})
    && (!p.presented ==> p.acceptances == [] && p.closing.None? && !p.recorded)
    && (p.archived ==> !p.presented)
  }

  ghost predicate AllRoutesFit(s: Store) { forall id :: id in s.packages ==> RouteFits(s.packages[id]) }

  lemma ContentStepKeepsRoutes(s: Store, c: Command)
    requires AllRoutesFit(s) && (IsContentCommand(c) || c.AddPortion? || c.DoCreatePackage?)
    ensures AllRoutesFit(After(s, c))
  {
  }

  lemma RouteStepKeepsRoutes(s: Store, c: Command)
    requires AllRoutesFit(s) && (c.DoChangeStatus? || c.DoRegisterAcceptance? || c.DoReturnToCorrection? || c.DoArchive? || c.DoEditPackage?)
    ensures AllRoutesFit(After(s, c))
  {
  }

  lemma CaseStepKeepsRoutes(s: Store, c: Command)
    requires AllRoutesFit(s) && IsCaseCommand(c)
    ensures AllRoutesFit(After(s, c))
  {
  }

  lemma AmountStepKeepsRoutes(s: Store, c: Command)
    requires AllRoutesFit(s) && (IsAmountCommand(c) || c.DoRecordCustomerQuantity? || c.DoAcceptInspection?)
    ensures AllRoutesFit(After(s, c))
  {
  }

  lemma StepKeepsRoutes(s: Store, c: Command)
    requires AllRoutesFit(s)
    ensures AllRoutesFit(After(s, c))
  {
    if IsContentCommand(c) || c.AddPortion? || c.DoCreatePackage? {
      ContentStepKeepsRoutes(s, c);
    } else if IsCaseCommand(c) {
      CaseStepKeepsRoutes(s, c);
    } else if IsAmountCommand(c) || c.DoRecordCustomerQuantity? || c.DoAcceptInspection? {
      AmountStepKeepsRoutes(s, c);
    } else {
      RouteStepKeepsRoutes(s, c);
    }
  }

  lemma {:induction false} RunsKeepRoutes(cs: seq<Command>)
    ensures AllRoutesFit(Run(EMPTY_STORE, cs))
  {
    if cs != [] {
      RunsKeepRoutes(cs[..|cs| - 1]);
      StepKeepsRoutes(Run(EMPTY_STORE, cs[..|cs| - 1]), cs[|cs| - 1]);
    }
  }

  /** In a reachable state the early status alone tells that nothing of the route would be hidden by archiving; only generated acts can. */
  lemma ArchiveExactly(cs: seq<Command>, id: PackageId, version: nat, reason: string)
    ensures var s := Run(EMPTY_STORE, cs);
            Archive(s, id, version, reason).Ok? <==>
              && id in s.packages && !s.packages[id].archived && s.packages[id].version == version && reason != ""
              && s.packages[id].status in {Draft, Preparing} && !s.packages[id].generated
  {
    RunsKeepRoutes(cs);
  }

  /**
   * The figures and histories of a closed case are sealed: a step may name another responsible, or reopen the case for correction with a
   * reason, and nothing else. Closed or reopened, it stays held.
   */
  lemma ClosedCaseIsSealed(s: Store, c: Command, id: PackageId)
    requires Inv(s) && id in s.packages && s.packages[id].closing.Some? && s.packages[id].closing.value.status == Closed
    ensures id in After(s, c).packages && After(s, c).packages[id].closing.Some?
    ensures var a, b := s.packages[id].closing.value, After(s, c).packages[id].closing.value;
            && SameBooks(a, b) && b.locked
            && (b.status != Closed ==> c.DoChangeCaseStatus? && b.status == OnCorrection && c.reason != "")
            && (b.responsible != a.responsible ==> c.DoAssignResponsible?)
  {
    assert PackageFits(s.packages[id], s.portions, s.confirmations);
    StepMoves(s, c, id);
  }
}
