/** The allocation of a work's quantity over its execution units and portions. Quantities are whole ten-thousandths. */
module Allocation {
  import opened Wrappers

  type UnitId = nat
  type PortionId = nat
  type VersionId = nat
  type Quantity = nat

  datatype Error =
    | NoCurrentQuantity | VersionChanged | Frozen | UnitRepeated | FactAmbiguous
    | ForeignUnit | AboveUnitPlan | PortionRepeated | ForeignPortion | AbovePortionPlan | AmbiguousPortion | BelowFloor
    | PortionsExceedUnit | ExceedsCurrent | DropsProtected

  datatype UnitRow = UnitRow(measure: string, planned: Quantity)
  datatype PortionRow = PortionRow(part: UnitId, planned: Quantity)

  /** What is confirmed for a portion: the three resolved figures, whether any of them is ambiguous, and the largest accepted one. */
  datatype Figure = Figure(ambiguous: bool, confirmed: seq<Quantity>, largestAccepted: Option<Quantity>)

  datatype Current = Current(version: nat, quantity: Quantity, measure: string)

  datatype PortionShare = PortionShare(portion: PortionId, quantity: Quantity)
  datatype UnitShare = UnitShare(part: UnitId, quantity: Quantity, portions: seq<PortionShare>)
  datatype Input = Input(expected: Option<VersionId>, units: seq<UnitShare>)

  /** A stored line: of a unit when it names no portion. */
  datatype Line = Line(part: UnitId, portion: Option<PortionId>, quantity: Quantity)

  /** A version keeps the quantity version it was checked against. */
  datatype Version = Version(sequence: nat, previous: Option<VersionId>, current: Current, lines: seq<Line>)

  datatype Work = Work(
    units: map<UnitId, UnitRow>,
    portions: map<PortionId, PortionRow>,
    figures: map<PortionId, Figure>,
    current: Option<Current>,
    evidence: bool,
    factClear: bool,
    versions: seq<Version>,
    pointer: Option<VersionId>)

  // ---------------------------------------------------------------- sums and checks

  function PortionSum(ps: seq<PortionShare>): nat { if ps == [] then 0 else PortionSum(ps[..|ps| - 1]) + ps[|ps| - 1].quantity }

  function UnitSum(us: seq<UnitShare>): nat { if us == [] then 0 else UnitSum(us[..|us| - 1]) + us[|us| - 1].quantity }

  predicate DistinctPortions(ps: seq<PortionShare>) { forall i, j :: 0 <= i < j < |ps| ==> ps[i].portion != ps[j].portion }

  predicate DistinctUnits(us: seq<UnitShare>) { forall i, j :: 0 <= i < j < |us| ==> us[i].part != us[j].part }

  function Largest(qs: seq<Quantity>): (m: Quantity)
    ensures forall q :: q in qs ==> q <= m
  {
    if qs == [] then 0
    else
      assert qs == qs[..|qs| - 1] + [qs[|qs| - 1]];
      var m := Largest(qs[..|qs| - 1]);
      if qs[|qs| - 1] > m then qs[|qs| - 1] else m
  }

  function FigureOf(w: Work, p: PortionId): Figure { if p in w.figures then w.figures[p] else Figure(false, [], None) }

  function Floor(w: Work, p: PortionId): Quantity { Largest(FigureOf(w, p).confirmed) }

  function ProtectedFloor(w: Work, p: PortionId): Quantity {
    var accepted := FigureOf(w, p).largestAccepted;
    if accepted.Some? && accepted.value > Floor(w, p) then accepted.value else Floor(w, p)
  }

  function PortionProblem(w: Work, u: UnitId, p: PortionShare): Option<Error> {
    if p.portion !in w.portions || w.portions[p.portion].part != u then Some(ForeignPortion)
    else if p.quantity > w.portions[p.portion].planned then Some(AbovePortionPlan)
    else if FigureOf(w, p.portion).ambiguous then Some(AmbiguousPortion)
    else if p.quantity < Floor(w, p.portion) then Some(BelowFloor)
    else None
  }

  /** The first problem in a list of portions. */
  function PortionsProblem(w: Work, u: UnitId, ps: seq<PortionShare>): (r: Option<Error>)
    ensures r.None? <==> forall p :: p in ps ==> PortionProblem(w, u, p).None?
  {
    if ps == [] then None
    else
      assert ps == ps[..|ps| - 1] + [ps[|ps| - 1]];
      var r := PortionsProblem(w, u, ps[..|ps| - 1]);
      if r.Some? then r else PortionProblem(w, u, ps[|ps| - 1])
  }

  function UnitProblem(w: Work, current: Current, e: UnitShare): Option<Error> {
    if e.part !in w.units || w.units[e.part].measure != current.measure then Some(ForeignUnit)
    else if e.quantity > w.units[e.part].planned then Some(AboveUnitPlan)
    else if !DistinctPortions(e.portions) then Some(PortionRepeated)
    else if PortionsProblem(w, e.part, e.portions).Some? then PortionsProblem(w, e.part, e.portions)
    else if PortionSum(e.portions) > e.quantity then Some(PortionsExceedUnit)
    else None
  }

  function UnitsProblem(w: Work, current: Current, us: seq<UnitShare>): (r: Option<Error>)
    ensures r.None? <==> forall u :: u in us ==> UnitProblem(w, current, u).None?
  {
    if us == [] then None
    else
      assert us == us[..|us| - 1] + [us[|us| - 1]];
      var r := UnitsProblem(w, current, us[..|us| - 1]);
      if r.Some? then r else UnitProblem(w, current, us[|us| - 1])
  }

  predicate GivesAtLeast(us: seq<UnitShare>, p: PortionId, floor: Quantity) {
    exists i, j :: 0 <= i < |us| && 0 <= j < |us[i].portions| && us[i].portions[j].portion == p && us[i].portions[j].quantity >= floor
  }

  /** A complete replacement keeps every confirmed quantity: a portion it omits counts as zero. */
  ghost predicate KeepsProtected(w: Work, us: seq<UnitShare>) {
    forall p :: p in w.portions ==>
      && !FigureOf(w, p).ambiguous
      && (ProtectedFloor(w, p) == 0 || GivesAtLeast(us, p, ProtectedFloor(w, p)))
  }

  ghost function InputProblem(w: Work, d: Input): Option<Error> {
    if w.current.None? then Some(NoCurrentQuantity)
    else if w.pointer != d.expected then Some(VersionChanged)
    else if w.evidence then Some(Frozen)
    else if !DistinctUnits(d.units) then Some(UnitRepeated)
    else if !w.factClear then Some(FactAmbiguous)
    else if UnitsProblem(w, w.current.value, d.units).Some? then UnitsProblem(w, w.current.value, d.units)
    else if UnitSum(d.units) > w.current.value.quantity then Some(ExceedsCurrent)
    else if !KeepsProtected(w, d.units) then Some(DropsProtected)
    else None
  }

  // ---------------------------------------------------------------- writing a version

  function PortionLines(u: UnitId, ps: seq<PortionShare>): seq<Line> {
    if ps == [] then [] else PortionLines(u, ps[..|ps| - 1]) + [Line(u, Some(ps[|ps| - 1].portion), ps[|ps| - 1].quantity)]
  }

  function Lines(us: seq<UnitShare>): seq<Line> {
    if us == [] then []
    else
      var e := us[|us| - 1];
      Lines(us[..|us| - 1]) + [Line(e.part, None, e.quantity)] + PortionLines(e.part, e.portions)
  }

  function NextSequence(w: Work): nat { if w.pointer.Some? && w.pointer.value < |w.versions| then w.versions[w.pointer.value].sequence + 1 else 1 }

  function Written(w: Work, d: Input): Work
    requires w.current.Some?
  {
    w.(versions := w.versions + [Version(NextSequence(w), w.pointer, w.current.value, Lines(d.units))], pointer := Some(|w.versions|))
  }

  ghost function Replace(w: Work, d: Input): Result<Work, Error> {
    var problem := InputProblem(w, d);
    if problem.Some? then Err(problem.value) else Ok(Written(w, d))
  }

  // ---------------------------------------------------------------- reading it back

  datatype Coverage = UnknownCurrent | NotCaptured | Full | Partial
  datatype View = View(version: Option<VersionId>, distributed: Option<Quantity>, remaining: Option<int>, coverage: Coverage, lines: seq<Line>)

  function UnitLineSum(ls: seq<Line>): nat {
    if ls == [] then 0
    else UnitLineSum(ls[..|ls| - 1]) + (if ls[|ls| - 1].portion.None? then ls[|ls| - 1].quantity else 0)
  }

  function ReadAllocation(w: Work, current: Option<Quantity>): View {
    if w.pointer.None? || w.pointer.value >= |w.versions| then View(None, None, None, if current.None? then UnknownCurrent else NotCaptured, [])
    else
      var ls := w.versions[w.pointer.value].lines;
      var distributed := UnitLineSum(ls);
      if current.None? then View(w.pointer, Some(distributed), None, UnknownCurrent, ls)
      else View(w.pointer, Some(distributed), Some(current.value - distributed), if current.value == distributed then Full else Partial, ls)
  }

  lemma {:induction false} UnitLineSumAppend(a: seq<Line>, b: seq<Line>)
    ensures UnitLineSum(a + b) == UnitLineSum(a) + UnitLineSum(b)
    decreases |b|
  {
    if b == [] {
      assert a + b == a;
    } else {
      assert (a + b)[..|a + b| - 1] == a + b[..|b| - 1];
      UnitLineSumAppend(a, b[..|b| - 1]);
    }
  }

  lemma {:induction false} PortionLinesAddNothing(u: UnitId, ps: seq<PortionShare>)
    ensures UnitLineSum(PortionLines(u, ps)) == 0
  {
    if ps != [] {
      PortionLinesAddNothing(u, ps[..|ps| - 1]);
      UnitLineSumAppend(PortionLines(u, ps[..|ps| - 1]), [Line(u, Some(ps[|ps| - 1].portion), ps[|ps| - 1].quantity)]);
    }
  }

  lemma {:induction false} LinesSum(us: seq<UnitShare>)
    ensures UnitLineSum(Lines(us)) == UnitSum(us)
  {
    if us != [] {
      var e, init := us[|us| - 1], us[..|us| - 1];
      LinesSum(init);
      PortionLinesAddNothing(e.part, e.portions);
      UnitLineSumAppend(Lines(init), [Line(e.part, None, e.quantity)]);
      UnitLineSumAppend(Lines(init) + [Line(e.part, None, e.quantity)], PortionLines(e.part, e.portions));
    }
  }

  /** Reading what was just written: the total asked for, and together with the rest it makes up the current quantity. */
  lemma ReadAfterWrite(w: Work, d: Input)
    requires Replace(w, d).Ok?
    ensures var v := ReadAllocation(Replace(w, d).value, Some(w.current.value.quantity));
            && v.version == Some(|w.versions|)
            && v.distributed == Some(UnitSum(d.units))
            && v.remaining.Some? && v.remaining.value >= 0
            && v.distributed.value + v.remaining.value == w.current.value.quantity
            && (v.coverage == Full <==> UnitSum(d.units) == w.current.value.quantity)
            && v.lines == Lines(d.units)
  {
    LinesSum(d.units);
  }

  // ---------------------------------------------------------------- bounds of every committed version

  /** The quantity of a unit's own line, and the sum of its portions, as stored. */
  function UnitQuantity(ls: seq<Line>, u: UnitId): nat {
    if ls == [] then 0
    else UnitQuantity(ls[..|ls| - 1], u) + (if ls[|ls| - 1].part == u && ls[|ls| - 1].portion.None? then ls[|ls| - 1].quantity else 0)
  }

  function PortionQuantity(ls: seq<Line>, u: UnitId): nat {
    if ls == [] then 0
    else PortionQuantity(ls[..|ls| - 1], u) + (if ls[|ls| - 1].part == u && ls[|ls| - 1].portion.Some? then ls[|ls| - 1].quantity else 0)
  }

  ghost predicate WithinBounds(v: Version) {
    && UnitLineSum(v.lines) <= v.current.quantity
    && forall u :: PortionQuantity(v.lines, u) <= UnitQuantity(v.lines, u)
  }

  lemma {:induction false} QuantitiesAppend(a: seq<Line>, b: seq<Line>, u: UnitId)
    ensures UnitQuantity(a + b, u) == UnitQuantity(a, u) + UnitQuantity(b, u)
    ensures PortionQuantity(a + b, u) == PortionQuantity(a, u) + PortionQuantity(b, u)
    decreases |b|
  {
    if b == [] {
      assert a + b == a;
    } else {
      assert (a + b)[..|a + b| - 1] == a + b[..|b| - 1];
      QuantitiesAppend(a, b[..|b| - 1], u);
    }
  }

  lemma {:induction false} PortionLinesQuantities(part: UnitId, ps: seq<PortionShare>, u: UnitId)
    ensures UnitQuantity(PortionLines(part, ps), u) == 0
    ensures PortionQuantity(PortionLines(part, ps), u) == if part == u then PortionSum(ps) else 0
  {
    if ps != [] {
      PortionLinesQuantities(part, ps[..|ps| - 1], u);
      QuantitiesAppend(PortionLines(part, ps[..|ps| - 1]), [Line(part, Some(ps[|ps| - 1].portion), ps[|ps| - 1].quantity)], u);
    }
  }

  lemma {:induction false} LinesWithinUnits(us: seq<UnitShare>, u: UnitId)
    requires forall e :: e in us ==> PortionSum(e.portions) <= e.quantity
    ensures PortionQuantity(Lines(us), u) <= UnitQuantity(Lines(us), u)
  {
    if us != [] {
      var e, init := us[|us| - 1], us[..|us| - 1];
      var own := [Line(e.part, None, e.quantity)];
      LinesWithinUnits(init, u);
      PortionLinesQuantities(e.part, e.portions, u);
      QuantitiesAppend(Lines(init), own, u);
      QuantitiesAppend(Lines(init) + own, PortionLines(e.part, e.portions), u);
      assert UnitQuantity(own, u) == (if e.part == u then e.quantity else 0) && PortionQuantity(own, u) == 0 by {
        assert own[..0] == [];
      }
    }
  }

  // ---------------------------------------------------------------- what acceptance asks for

  /** No figure confirmed for the portion, if it has any, is ambiguous or above the quantity. */
  predicate Covers(w: Work, p: PortionId, quantity: Quantity) {
    p in w.figures ==> !w.figures[p].ambiguous && forall q :: q in w.figures[p].confirmed ==> q <= quantity
  }

  /** The share of a portion: known, of its unit, within the plan, and not below what is confirmed. */
  predicate PortionFits(w: Work, u: UnitId, p: PortionShare) {
    && p.portion in w.portions && w.portions[p.portion].part == u && p.quantity <= w.portions[p.portion].planned
    && Covers(w, p.portion, p.quantity)
  }

  /** The share of a unit: known, in the measure of the work, within the plan, and enough for its portions, each named once. */
  predicate UnitFits(w: Work, current: Current, e: UnitShare) {
    && e.part in w.units && w.units[e.part].measure == current.measure
    && PortionSum(e.portions) <= e.quantity <= w.units[e.part].planned
    && (forall i, j :: 0 <= i < j < |e.portions| ==> e.portions[i].portion != e.portions[j].portion)
    && forall p :: p in e.portions ==> PortionFits(w, e.part, p)
  }

  lemma {:induction false} LargestAtMost(qs: seq<Quantity>, n: Quantity)
    ensures Largest(qs) <= n <==> forall q :: q in qs ==> q <= n
  {
    if qs != [] {
      var init, last := qs[..|qs| - 1], qs[|qs| - 1];
      LargestAtMost(init, n);
      if forall q :: q in qs ==> q <= n {
        assert last in qs && forall q :: q in init ==> q in qs;
      }
    }
  }

  lemma FloorIsCovered(w: Work, p: PortionId, n: Quantity)
    ensures !FigureOf(w, p).ambiguous && Floor(w, p) <= n <==> Covers(w, p, n)
    ensures !FigureOf(w, p).ambiguous && ProtectedFloor(w, p) <= n <==>
            Covers(w, p, n) && forall q :: p in w.figures && w.figures[p].largestAccepted == Some(q) ==> q <= n
  {
    LargestAtMost(FigureOf(w, p).confirmed, n);
  }

  lemma UnitFitsExactly(w: Work, current: Current, e: UnitShare)
    ensures UnitProblem(w, current, e).None? <==> UnitFits(w, current, e)
  {
    forall p: PortionShare ensures PortionProblem(w, e.part, p).None? <==> PortionFits(w, e.part, p) { FloorIsCovered(w, p.portion, p.quantity); }
  }

  /** What is stored for a portion; nothing when the replacement omits it. */
  function Stored(ls: seq<Line>, p: PortionId): nat {
    if ls == [] then 0 else Stored(ls[..|ls| - 1], p) + (if ls[|ls| - 1].portion == Some(p) then ls[|ls| - 1].quantity else 0)
  }

  lemma {:induction false} StoredAppend(a: seq<Line>, b: seq<Line>, p: PortionId)
    ensures Stored(a + b, p) == Stored(a, p) + Stored(b, p)
    decreases |b|
  {
    if b == [] {
      assert a + b == a;
    } else {
      assert (a + b)[..|a + b| - 1] == a + b[..|b| - 1];
      StoredAppend(a, b[..|b| - 1], p);
    }
  }

  predicate Names(ps: seq<PortionShare>, p: PortionId) { exists j :: 0 <= j < |ps| && ps[j].portion == p }

  /** A portion named once is stored with the quantity asked for it. */
  lemma {:induction false} PortionStored(u: UnitId, ps: seq<PortionShare>, p: PortionId)
    requires DistinctPortions(ps)
    ensures !Names(ps, p) ==> Stored(PortionLines(u, ps), p) == 0
    ensures forall j :: 0 <= j < |ps| && ps[j].portion == p ==> Stored(PortionLines(u, ps), p) == ps[j].quantity
  {
    if ps != [] {
      var n := |ps| - 1;
      PortionStored(u, ps[..n], p);
      StoredAppend(PortionLines(u, ps[..n]), [Line(u, Some(ps[n].portion), ps[n].quantity)], p);
      assert [Line(u, Some(ps[n].portion), ps[n].quantity)][..0] == [];
      assert Names(ps[..n], p) ==> Names(ps, p);
      assert ps[n].portion == p ==> !Names(ps[..n], p);
    }
  }

  lemma UnitLinesStored(us: seq<UnitShare>, p: PortionId)
    requires us != []
    ensures Stored(Lines(us), p) == Stored(Lines(us[..|us| - 1]), p) + Stored(PortionLines(us[|us| - 1].part, us[|us| - 1].portions), p)
  {
    var e, init := us[|us| - 1], us[..|us| - 1];
    var own := [Line(e.part, None, e.quantity)];
    StoredAppend(Lines(init), own, p);
    StoredAppend(Lines(init) + own, PortionLines(e.part, e.portions), p);
    assert own[..0] == [];
  }

  /** Units are named once and a portion is of one unit, so over all units too. */
  lemma {:induction false} ShareStored(w: Work, current: Current, us: seq<UnitShare>, p: PortionId)
    requires DistinctUnits(us) && forall e :: e in us ==> UnitFits(w, current, e)
    ensures (forall i :: 0 <= i < |us| ==> !Names(us[i].portions, p)) ==> Stored(Lines(us), p) == 0
    ensures forall i, j :: 0 <= i < |us| && 0 <= j < |us[i].portions| && us[i].portions[j].portion == p ==> Stored(Lines(us), p) == us[i].portions[j].quantity
  {
    if us != [] {
      var n, e, init := |us| - 1, us[|us| - 1], us[..|us| - 1];
      ShareStored(w, current, init, p);
      UnitLinesStored(us, p);
      assert UnitFits(w, current, e);
      PortionStored(e.part, e.portions, p);
      forall i | 0 <= i < n && Names(us[i].portions, p) ensures !Names(e.portions, p) { OneUnitNames(w, current, us[i], e, p); }
      forall i | 0 <= i < n ensures init[i] == us[i] { }
      if Names(e.portions, p) {
        assert forall i :: 0 <= i < n ==> !Names(init[i].portions, p);
      }
    }
  }

  lemma OneUnitNames(w: Work, current: Current, d: UnitShare, e: UnitShare, p: PortionId)
    requires UnitFits(w, current, d) && UnitFits(w, current, e) && d.part != e.part && Names(d.portions, p)
    ensures !Names(e.portions, p)
  {
    var j :| 0 <= j < |d.portions| && d.portions[j].portion == p;
    assert PortionFits(w, d.part, d.portions[j]);
    forall k | 0 <= k < |e.portions| ensures e.portions[k].portion != p { assert PortionFits(w, e.part, e.portions[k]); }
  }

  /** Giving at least a floor is storing at least that much. */
  lemma GivenIsStored(w: Work, current: Current, us: seq<UnitShare>, p: PortionId, floor: Quantity)
    requires DistinctUnits(us) && forall e :: e in us ==> UnitFits(w, current, e)
    ensures floor == 0 || GivesAtLeast(us, p, floor) <==> floor <= Stored(Lines(us), p)
  {
    ShareStored(w, current, us, p);
    if 0 < floor <= Stored(Lines(us), p) {
      var i :| 0 <= i < |us| && Names(us[i].portions, p);
      var j :| 0 <= j < |us[i].portions| && us[i].portions[j].portion == p;
      assert us[i].portions[j].quantity >= floor;
    }
  }

  lemma ProtectedIsStored(w: Work, current: Current, us: seq<UnitShare>)
    requires DistinctUnits(us) && forall e :: e in us ==> UnitFits(w, current, e)
    ensures KeepsProtected(w, us) <==> forall p :: p in w.portions ==> StoredCovers(w, us, p)
  {
    forall p | p in w.portions
      ensures !FigureOf(w, p).ambiguous && (ProtectedFloor(w, p) == 0 || GivesAtLeast(us, p, ProtectedFloor(w, p))) <==> StoredCovers(w, us, p)
    {
      GivenIsStored(w, current, us, p, ProtectedFloor(w, p));
      FloorIsCovered(w, p, Stored(Lines(us), p));
    }
  }

  /** What is stored for the portion, named or omitted, covers every figure confirmed and the largest the customer accepted. */
  ghost predicate StoredCovers(w: Work, us: seq<UnitShare>, p: PortionId) {
    && Covers(w, p, Stored(Lines(us), p))
    && forall q :: p in w.figures && w.figures[p].largestAccepted == Some(q) ==> q <= Stored(Lines(us), p)
  }

  /**
   * Exactly when a replacement is accepted, in the caller's terms and with no order of checks: each share fits, the units fit the work,
   * and what is stored for each portion of the work, named or omitted, covers everything confirmed for it.
   */
  lemma AcceptedExactly(w: Work, d: Input)
    ensures Replace(w, d).Ok? <==>
            && w.current.Some? && w.pointer == d.expected && !w.evidence && w.factClear
            && (forall i, j :: 0 <= i < j < |d.units| ==> d.units[i].part != d.units[j].part)
            && (forall e :: e in d.units ==> UnitFits(w, w.current.value, e))
            && UnitSum(d.units) <= w.current.value.quantity
            && (forall p :: p in w.portions ==> StoredCovers(w, d.units, p))
  {
    if w.current.Some? {
      forall e: UnitShare ensures UnitProblem(w, w.current.value, e).None? <==> UnitFits(w, w.current.value, e) { UnitFitsExactly(w, w.current.value, e); }
      if DistinctUnits(d.units) && forall e :: e in d.units ==> UnitFits(w, w.current.value, e) {
        ProtectedIsStored(w, w.current.value, d.units);
      }
    }
  }

  /** What makes the reason true of a portion's share. */
  ghost predicate PortionRefusable(w: Work, u: UnitId, p: PortionShare, e: Error) {
    match e
    case ForeignPortion => p.portion !in w.portions || w.portions[p.portion].part != u
    case AbovePortionPlan => p.portion in w.portions && p.quantity > w.portions[p.portion].planned
    case AmbiguousPortion => p.portion in w.figures && w.figures[p.portion].ambiguous
    case BelowFloor => p.portion in w.figures && exists q :: q in w.figures[p.portion].confirmed && p.quantity < q
    case _ => false
  }

  /** What makes the reason true of a unit's share. */
  ghost predicate UnitRefusable(w: Work, current: Current, u: UnitShare, e: Error) {
    match e
    case ForeignUnit => u.part !in w.units || w.units[u.part].measure != current.measure
    case AboveUnitPlan => u.part in w.units && u.quantity > w.units[u.part].planned
    case PortionRepeated => exists i, j :: 0 <= i < j < |u.portions| && u.portions[i].portion == u.portions[j].portion
    case PortionsExceedUnit => PortionSum(u.portions) > u.quantity
    case _ => exists p :: p in u.portions && PortionRefusable(w, u.part, p, e)
  }

  lemma {:induction false} PortionsRefused(w: Work, u: UnitId, ps: seq<PortionShare>, e: Error) returns (p: PortionShare)
    requires PortionsProblem(w, u, ps) == Some(e)
    ensures p in ps && PortionProblem(w, u, p) == Some(e) && PortionRefusable(w, u, p, e)
  {
    var init := ps[..|ps| - 1];
    if PortionsProblem(w, u, init).Some? {
      p := PortionsRefused(w, u, init, e);
    } else {
      p := ps[|ps| - 1];
      if e == BelowFloor {
        LargestAtMost(FigureOf(w, p.portion).confirmed, p.quantity);
      }
    }
  }

  lemma {:induction false} UnitsRefused(w: Work, current: Current, us: seq<UnitShare>, e: Error) returns (u: UnitShare)
    requires UnitsProblem(w, current, us) == Some(e)
    ensures u in us && UnitRefusable(w, current, u, e)
  {
    var init := us[..|us| - 1];
    if UnitsProblem(w, current, init).Some? {
      u := UnitsRefused(w, current, init, e);
    } else {
      u := us[|us| - 1];
      if PortionsProblem(w, u.part, u.portions) == Some(e) {
        var p := PortionsRefused(w, u.part, u.portions, e);
      }
    }
  }

  /** Whatever is refused is refused for a reason that is true. */
  lemma RefusedBecause(w: Work, d: Input, e: Error)
    requires Replace(w, d) == Err(e)
    ensures match e
            case NoCurrentQuantity => w.current == None
            case VersionChanged => w.pointer != d.expected
            case Frozen => w.evidence
            case UnitRepeated => exists i, j :: 0 <= i < j < |d.units| && d.units[i].part == d.units[j].part
            case FactAmbiguous => !w.factClear
            case ExceedsCurrent => w.current != None && UnitSum(d.units) > w.current.value.quantity
            case DropsProtected => exists p :: p in w.portions && !StoredCovers(w, d.units, p)
            case _ => w.current != None && exists u :: u in d.units && UnitRefusable(w, w.current.value, u, e)
  {
    if w.current.Some? && DistinctUnits(d.units) {
      var current := w.current.value;
      if UnitsProblem(w, current, d.units) == Some(e) {
        var u := UnitsRefused(w, current, d.units, e);
      } else if e == DropsProtected {
        forall u: UnitShare | u in d.units ensures UnitFits(w, current, u) { UnitFitsExactly(w, current, u); }
        ProtectedIsStored(w, current, d.units);
      }
    }
  }

  /** A stored line names a unit of the work, or a portion of that unit, and stays within its plan. */
  predicate LineFits(w: Work, l: Line) {
    && l.part in w.units
    && match l.portion
       case None => l.quantity <= w.units[l.part].planned
       case Some(p) => p in w.portions && w.portions[p].part == l.part && l.quantity <= w.portions[p].planned
  }

  /** Every line, and every unit as a whole, is within its plan. */
  ghost predicate WithinPlans(w: Work, ls: seq<Line>) {
    && (forall l :: l in ls ==> LineFits(w, l))
    && forall u :: UnitQuantity(ls, u) > 0 ==> u in w.units && UnitQuantity(ls, u) <= w.units[u].planned
  }

  lemma {:induction false} PortionLinesFit(w: Work, u: UnitId, ps: seq<PortionShare>, l: Line)
    requires u in w.units && (forall p :: p in ps ==> PortionFits(w, u, p)) && l in PortionLines(u, ps)
    ensures LineFits(w, l)
  {
    if l in PortionLines(u, ps[..|ps| - 1]) {
      PortionLinesFit(w, u, ps[..|ps| - 1], l);
    } else {
      assert PortionFits(w, u, ps[|ps| - 1]);
    }
  }

  lemma {:induction false} LinesFit(w: Work, current: Current, us: seq<UnitShare>, l: Line)
    requires (forall e :: e in us ==> UnitFits(w, current, e)) && l in Lines(us)
    ensures LineFits(w, l)
  {
    var e := us[|us| - 1];
    assert UnitFits(w, current, e);
    if l in Lines(us[..|us| - 1]) {
      LinesFit(w, current, us[..|us| - 1], l);
    } else if l in PortionLines(e.part, e.portions) {
      PortionLinesFit(w, e.part, e.portions, l);
    }
  }

  /** What is stored for a unit is what was asked for it: units are named once. */
  lemma {:induction false} UnitStored(us: seq<UnitShare>, u: UnitId)
    requires DistinctUnits(us)
    ensures (forall e :: e in us ==> e.part != u) ==> UnitQuantity(Lines(us), u) == 0
    ensures forall e :: e in us && e.part == u ==> UnitQuantity(Lines(us), u) == e.quantity
  {
    if us != [] {
      var last, init := us[|us| - 1], us[..|us| - 1];
      var own := [Line(last.part, None, last.quantity)];
      UnitStored(init, u);
      PortionLinesQuantities(last.part, last.portions, u);
      QuantitiesAppend(Lines(init), own, u);
      QuantitiesAppend(Lines(init) + own, PortionLines(last.part, last.portions), u);
      assert own[..0] == [];
      assert UnitQuantity(own, u) == if last.part == u then last.quantity else 0;
      assert us == init + [last];
    }
  }

  /** What was accepted respects every plan, and the new version is within its bounds. */
  lemma AcceptedIsBounded(w: Work, d: Input)
    requires Replace(w, d).Ok?
    ensures WithinBounds(Written(w, d).versions[|w.versions|])
    ensures WithinPlans(w, Lines(d.units))
    ensures forall e :: e in d.units ==> UnitQuantity(Lines(d.units), e.part) == e.quantity
  {
    AcceptedExactly(w, d);
    LinesSum(d.units);
    forall u ensures PortionQuantity(Lines(d.units), u) <= UnitQuantity(Lines(d.units), u) { LinesWithinUnits(d.units, u); }
    forall l | l in Lines(d.units) ensures LineFits(w, l) { LinesFit(w, w.current.value, d.units, l); }
    forall e | e in d.units ensures UnitQuantity(Lines(d.units), e.part) == e.quantity { UnitStored(d.units, e.part); }
    forall u | UnitQuantity(Lines(d.units), u) > 0 ensures u in w.units && UnitQuantity(Lines(d.units), u) <= w.units[u].planned {
      UnitStored(d.units, u);
      var e :| e in d.units && e.part == u;
    }
  }

  // ---------------------------------------------------------------- every run

  datatype Event =
    | ReplaceAllocation(input: Input)
    | RecordEvidence(portion: PortionId, figure: Figure)
    | ApproveQuantity(current: Current)
    | AddUnit(part: UnitId, row: UnitRow)
    | AddPortion(portion: PortionId, portionRow: PortionRow)
    | ClarifyFact(clear: bool)

  ghost function Step(w: Work, e: Event): Work {
    match e
    case ReplaceAllocation(d) => (var r := Replace(w, d); if r.Ok? then r.value else w)
    case RecordEvidence(p, f) => w.(evidence := true, figures := w.figures[p := f])
    case ApproveQuantity(c) => w.(current := Some(c))
    case AddUnit(u, row) => if u in w.units then w else w.(units := w.units[u := row])
    case AddPortion(p, row) => if p in w.portions then w else w.(portions := w.portions[p := row])
    case ClarifyFact(clear) => w.(factClear := clear)
  }

  ghost function Run(w: Work, es: seq<Event>): Work { if es == [] then w else Step(Run(w, es[..|es| - 1]), es[|es| - 1]) }

  const NEW_WORK := Work(map[], map[], map[], None, false, true, [], None)

  /** One gap-free chain of versions behind the pointer, each within the quantity it was checked against and within the plans of its units and portions. */
  ghost predicate Inv(w: Work) {
    && (w.pointer == if w.versions == [] then None else Some(|w.versions| - 1))
    && forall i :: 0 <= i < |w.versions| ==>
         && w.versions[i].sequence == i + 1
         && (w.versions[i].previous == if i == 0 then None else Some(i - 1))
         && WithinBounds(w.versions[i])
         && WithinPlans(w, w.versions[i].lines)
  }

  /** No step changes a unit or a portion that exists. */
  lemma StepKeepsPlans(w: Work, e: Event, ls: seq<Line>)
    requires WithinPlans(w, ls)
    ensures WithinPlans(Step(w, e), ls)
  {
    forall l | l in ls ensures LineFits(Step(w, e), l) { assert LineFits(w, l); }
  }

  lemma StepKeepsChain(w: Work, e: Event)
    requires Inv(w)
    ensures Inv(Step(w, e)) && w.versions <= Step(w, e).versions
  {
    if e.ReplaceAllocation? && Replace(w, e.input).Ok? {
      AcceptedIsBounded(w, e.input);
      StepKeepsPlans(w, e, Lines(e.input.units));
    }
    forall i | 0 <= i < |w.versions| ensures WithinPlans(Step(w, e), w.versions[i].lines) { StepKeepsPlans(w, e, w.versions[i].lines); }
  }

  lemma {:induction false} EveryVersionIsBounded(es: seq<Event>)
    ensures Inv(Run(NEW_WORK, es))
  {
    if es != [] {
      EveryVersionIsBounded(es[..|es| - 1]);
      StepKeepsChain(Run(NEW_WORK, es[..|es| - 1]), es[|es| - 1]);
    }
  }

  /** The world around a work: the last event comes last, units and portions are added once and stay, and a quantity is the one approved last. */
  lemma WorldMoves(w: Work, es: seq<Event>, e: Event)
    ensures var s, t := Run(w, es), Run(w, es + [e]);
            && t == Step(s, e) && (!e.ReplaceAllocation? ==> t.versions == s.versions && t.pointer == s.pointer)
            && (forall u :: u in t.units <==> u in s.units || (e.AddUnit? && u == e.part))
            && (forall u :: u in t.units ==> t.units[u] == if u in s.units then s.units[u] else e.row)
            && (forall p :: p in t.portions <==> p in s.portions || (e.AddPortion? && p == e.portion))
            && (forall p :: p in t.portions ==> t.portions[p] == if p in s.portions then s.portions[p] else e.portionRow)
            && t.current == (if e.ApproveQuantity? then Some(e.current) else s.current)
            && t.evidence == (s.evidence || e.RecordEvidence?) && t.factClear == (if e.ClarifyFact? then e.clear else s.factClear)
            && t.figures == (if e.RecordEvidence? then s.figures[e.portion := e.figure] else s.figures)
  {
    assert (es + [e])[..|es|] == es;
  }

  /** What an accepted replacement does to a work in any reachable state: one version more, right behind the last, with the lines of the input and the quantity it was checked against; a refused one does nothing. */
  lemma ReplaceTakesEffect(es: seq<Event>, d: Input)
    ensures var w := Run(NEW_WORK, es);
            && (Replace(w, d).Err? ==> Step(w, ReplaceAllocation(d)) == w)
            && (Replace(w, d).Ok? ==>
                  && w.current.Some?
                  && Step(w, ReplaceAllocation(d)) ==
                       w.(versions := w.versions + [Version(|w.versions| + 1, w.pointer, w.current.value, Lines(d.units))], pointer := Some(|w.versions|)))
  {
    EveryVersionIsBounded(es);
  }

  lemma ReadCurrent(w: Work, current: Option<Quantity>)
    requires Inv(w) && w.versions != []
    ensures var v, last := ReadAllocation(w, current), w.versions[|w.versions| - 1];
            && v.version == Some(|w.versions| - 1) && v.lines == last.lines
            && v.distributed == Some(UnitLineSum(last.lines)) && UnitLineSum(last.lines) <= last.current.quantity
            && (current == None ==> v.remaining == None && v.coverage == UnknownCurrent)
            && (forall q :: current == Some(q) ==>
                  && v.remaining.Some? && v.distributed.value + v.remaining.value == q
                  && v.coverage == if q == UnitLineSum(last.lines) then Full else Partial)
  {
    assert WithinBounds(w.versions[|w.versions| - 1]);
  }

  /** Reading in any reachable state, against whatever quantity the work has by then: the total of the current version, and the rest, which may be negative. */
  lemma ReadExactly(es: seq<Event>, w: Work, current: Option<Quantity>)
    requires w == Run(NEW_WORK, es)
    ensures w.versions == [] ==> ReadAllocation(w, current) == View(None, None, None, if current == None then UnknownCurrent else NotCaptured, [])
    ensures w.versions != [] ==>
              var v, last := ReadAllocation(w, current), w.versions[|w.versions| - 1];
              && v.version == Some(|w.versions| - 1) && v.lines == last.lines
              && v.distributed == Some(UnitLineSum(last.lines)) && UnitLineSum(last.lines) <= last.current.quantity
              && (current == None ==> v.remaining == None && v.coverage == UnknownCurrent)
              && (forall q :: current == Some(q) ==>
                    && v.remaining.Some? && v.distributed.value + v.remaining.value == q
                    && v.coverage == if q == UnitLineSum(last.lines) then Full else Partial)
  {
    EveryVersionIsBounded(es);
    if w.versions != [] {
      ReadCurrent(w, current);
    }
  }

  lemma EvidenceStep(w: Work, e: Event)
    requires w.evidence
    ensures Step(w, e).evidence && Step(w, e).pointer == w.pointer && Step(w, e).versions == w.versions
  {
    if e.ReplaceAllocation? {
      assert InputProblem(w, e.input).Some?;
    }
  }

  /** From the first protected evidence on, the pointer and the versions never change. */
  lemma {:induction false} EvidenceFreezes(w: Work, es: seq<Event>)
    requires w.evidence
    ensures Run(w, es).evidence && Run(w, es).pointer == w.pointer && Run(w, es).versions == w.versions
  {
    if es != [] {
      EvidenceFreezes(w, es[..|es| - 1]);
      EvidenceStep(Run(w, es[..|es| - 1]), es[|es| - 1]);
    }
  }

  // ---------------------------------------------------------------- the operation as the source writes it

  class WorkStore {
    var work: Work

    constructor ()
      ensures work == NEW_WORK
    {
      work := NEW_WORK;
    }

    method ReplaceWorkAllocation(d: Input) returns (r: Result<Work, Error>)
      modifies this
      ensures r == Replace(old(work), d)
      ensures work == if r.Ok? then r.value else old(work)
    {
      if work.current.None? {
        return Err(NoCurrentQuantity);
      }
      if work.pointer != d.expected {
        return Err(VersionChanged);
      }
      if work.evidence {
        return Err(Frozen);
      }
      if !DistinctUnits(d.units) {
        return Err(UnitRepeated);
      }
      if !work.factClear {
        return Err(FactAmbiguous);
      }
      var problem, total := CheckUnits(work.current.value, d.units);
      if problem.Some? {
        return Err(problem.value);
      }
      if total > work.current.value.quantity {
        return Err(ExceedsCurrent);
      }
      var keeps := CheckProtected(d.units);
      if !keeps {
        return Err(DropsProtected);
      }
      var lines := WriteLines(d.units);
      work := work.(versions := work.versions + [Version(NextSequence(work), work.pointer, work.current.value, lines)], pointer := Some(|work.versions|));
      r := Ok(work);
    }

    /** Validate unit by unit and add up what they take. */
    method CheckUnits(current: Current, us: seq<UnitShare>) returns (problem: Option<Error>, workTotal: nat)
      ensures problem == UnitsProblem(work, current, us)
      ensures problem.None? ==> workTotal == UnitSum(us)
    {
      workTotal := 0;
      for i := 0 to |us|
        invariant UnitsProblem(work, current, us[..i]).None? && workTotal == UnitSum(us[..i])
      {
        assert us[..i + 1][..i] == us[..i];
        problem := CheckUnit(current, us[i]);
        if problem.Some? {
          FirstUnitProblem(work, current, us, i);
          return problem, 0;
        }
        workTotal := workTotal + us[i].quantity;
      }
      assert us[..|us|] == us;
      problem := None;
    }

    method CheckUnit(current: Current, e: UnitShare) returns (problem: Option<Error>)
      ensures problem == UnitProblem(work, current, e)
    {
      if e.part !in work.units || work.units[e.part].measure != current.measure {
        return Some(ForeignUnit);
      }
      if e.quantity > work.units[e.part].planned {
        return Some(AboveUnitPlan);
      }
      if !DistinctPortions(e.portions) {
        return Some(PortionRepeated);
      }
      var portionTotal;
      problem, portionTotal := CheckPortions(e.part, e.portions);
      if problem.None? && portionTotal > e.quantity {
        problem := Some(PortionsExceedUnit);
      }
    }

    method CheckPortions(u: UnitId, ps: seq<PortionShare>) returns (problem: Option<Error>, portionTotal: nat)
      ensures problem == PortionsProblem(work, u, ps)
      ensures problem.None? ==> portionTotal == PortionSum(ps)
    {
      portionTotal := 0;
      for i := 0 to |ps|
        invariant PortionsProblem(work, u, ps[..i]).None? && portionTotal == PortionSum(ps[..i])
      {
        assert ps[..i + 1][..i] == ps[..i];
        problem := PortionProblem(work, u, ps[i]);
        if problem.Some? {
          FirstPortionProblem(work, u, ps, i);
          return problem, 0;
        }
        portionTotal := portionTotal + ps[i].quantity;
      }
      assert ps[..|ps|] == ps;
      problem := None;
    }

    method CheckProtected(us: seq<UnitShare>) returns (keeps: bool)
      ensures keeps == KeepsProtected(work, us)
    {
      var todo := work.portions.Keys;
      while todo != {}
        invariant forall p :: p in work.portions && p !in todo ==>
          && !FigureOf(work, p).ambiguous
          && (ProtectedFloor(work, p) == 0 || GivesAtLeast(us, p, ProtectedFloor(work, p)))
        invariant todo <= work.portions.Keys
      {
        var p :| p in todo;
        todo := todo - {p};
        if FigureOf(work, p).ambiguous {
          return false;
        }
        if ProtectedFloor(work, p) > 0 && !GivesAtLeast(us, p, ProtectedFloor(work, p)) {
          return false;
        }
      }
      return true;
    }

    static method WriteLines(us: seq<UnitShare>) returns (lines: seq<Line>)
      ensures lines == Lines(us)
    {
      lines := [];
      for i := 0 to |us|
        invariant lines == Lines(us[..i])
      {
        assert us[..i + 1][..i] == us[..i];
        lines := lines + [Line(us[i].part, None, us[i].quantity)];
        var ps := us[i].portions;
        for j := 0 to |ps|
          invariant lines == Lines(us[..i]) + [Line(us[i].part, None, us[i].quantity)] + PortionLines(us[i].part, ps[..j])
        {
          assert ps[..j + 1][..j] == ps[..j];
          lines := lines + [Line(us[i].part, Some(ps[j].portion), ps[j].quantity)];
        }
        assert ps[..|ps|] == ps;
      }
      assert us[..|us|] == us;
    }
  }

  lemma {:induction false} FirstUnitProblem(w: Work, current: Current, us: seq<UnitShare>, i: nat)
    requires i < |us| && UnitsProblem(w, current, us[..i]).None? && UnitProblem(w, current, us[i]).Some?
    ensures UnitsProblem(w, current, us) == UnitProblem(w, current, us[i])
    decreases |us|
  {
    if i == |us| - 1 {
    } else {
      assert us[..|us| - 1][..i] == us[..i];
      FirstUnitProblem(w, current, us[..|us| - 1], i);
    }
  }

  lemma {:induction false} FirstPortionProblem(w: Work, u: UnitId, ps: seq<PortionShare>, i: nat)
    requires i < |ps| && PortionsProblem(w, u, ps[..i]).None? && PortionProblem(w, u, ps[i]).Some?
    ensures PortionsProblem(w, u, ps) == PortionProblem(w, u, ps[i])
    decreases |ps|
  {
    if i == |ps| - 1 {
    } else {
      assert ps[..|ps| - 1][..i] == ps[..i];
      FirstPortionProblem(w, u, ps[..|ps| - 1], i);
    }
  }
}
