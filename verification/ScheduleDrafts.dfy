/** The production schedule of one object: drafts, their entries, approval, and what no sequence of operations can break. */
module ScheduleDrafts {
  import opened Wrappers
  import opened Text
  import opened CivilDate
  import opened ScheduleDiff
  import opened PredecessorCycle

  type Work = nat
  type Part = nat

  datatype Status = Draft | Approved | Superseded | Discarded

  /** A row of a revision: its own id and version, and what it plans. */
  datatype Line = Line(id: nat, version: nat, entry: Entry)
  datatype Revision = Revision(status: Status, version: nat, basedOn: Option<nat>, lines: seq<Line>, reason: string)

  /** What an item stands for: an execution unit of a work, or the whole work. */
  datatype Scope = Scope(work: Work, part: Option<Part>)

  /** The revisions of the object by number, its items, and the works and units they plan. */
  datatype Store = Store(revisions: seq<Revision>, items: map<Item, Scope>, works: set<Work>, parts: map<Part, Work>, nextLine: nat)

  datatype Problem = Empty | BadDates | BothLevels | PredecessorMissing | Cycle | NoChanges | ReasonRequired | WorkHasUnits

  datatype Error =
    | DraftExists | NoDraft | NotFound | NotDraft | VersionConflict | IdentifierTaken
    | Dates | ScheduledAsWhole | HasUnits | AlreadyScheduled | PredecessorNotInDraft | PredecessorSelf | PredecessorCycle | PredecessorInUse
    | Refused(problems: seq<Problem>)

  datatype Reference = Keep | Set(item: Option<Item>)

  datatype Command =
    | CreateDraft
    | AddEntry(work: Work, part: Option<Part>, start: string, finish: string, sequence: Option<int>, predecessor: Option<Item>, newItem: Item)
    | EditEntry(line: nat, version: nat, newStart: Option<string>, newFinish: Option<string>, sequence: Option<int>, reference: Reference)
    | RemoveEntry(line: nat, version: nat)
    | DiscardDraft(version: nat)
    | ApproveDraft(version: nat, reason: string)
    | CreateUnit(newPart: Part, work: Work)
    | CreateWork(work: Work)

  // ---------------------------------------------------------------- reading

  /** The first revision with a status; there is at most one draft and one approved. */
  function Find(rs: seq<Revision>, st: Status): (r: Option<nat>)
    ensures r.Some? ==> r.value < |rs| && rs[r.value].status == st
    ensures r.None? ==> forall i :: 0 <= i < |rs| ==> rs[i].status != st
  {
    if rs == [] then None
    else
      var r := Find(rs[..|rs| - 1], st);
      if r.Some? then r else if rs[|rs| - 1].status == st then Some(|rs| - 1) else None
  }

  function Entries(lines: seq<Line>): (r: seq<Entry>)
    ensures |r| == |lines| && forall i :: 0 <= i < |lines| ==> r[i] == lines[i].entry
  {
    seq(|lines|, i requires 0 <= i < |lines| => lines[i].entry)
  }

  function Links(es: seq<Entry>): (r: seq<Link>)
    ensures |r| == |es| && forall i :: 0 <= i < |es| ==> r[i] == (es[i].item, es[i].predecessor)
  {
    seq(|es|, i requires 0 <= i < |es| => (es[i].item, es[i].predecessor))
  }

  predicate Contains(es: seq<Entry>, k: Item) { exists i :: 0 <= i < |es| && es[i].item == k }

  predicate DatesOk(start: string, finish: string) {
    InScheduleRange(start) && InScheduleRange(finish) && CivilDayNumber(finish).value >= CivilDayNumber(start).value
  }

  function NextSequence(es: seq<Entry>): (n: int)
    ensures forall e :: e in es ==> e.sequence < n
  {
    if es == [] then 1
    else
      assert es == es[..|es| - 1] + [es[|es| - 1]];
      var n, last := NextSequence(es[..|es| - 1]), es[|es| - 1].sequence;
      if last >= n then last + 1 else n
  }

  // ---------------------------------------------------------------- creating a draft

  function Copied(lines: seq<Line>, next: nat): (r: seq<Line>)
    ensures |r| == |lines| && forall i :: 0 <= i < |lines| ==> r[i] == Line(next + i, 1, lines[i].entry)
  {
    seq(|lines|, i requires 0 <= i < |lines| => Line(next + i, 1, lines[i].entry))
  }

  function DoCreateDraft(s: Store): Result<Store, Error> {
    if Find(s.revisions, Draft).Some? then Err(DraftExists)
    else
      var current := Find(s.revisions, Approved);
      var lines := if current.Some? then Copied(s.revisions[current.value].lines, s.nextLine) else [];
      Ok(s.(revisions := s.revisions + [Revision(Draft, 1, current, lines, "")], nextLine := s.nextLine + |lines|))
  }

  // ---------------------------------------------------------------- entries

  function Touched(r: Revision, lines: seq<Line>): Revision { r.(lines := lines, version := r.version + 1) }

  /** The item that already stands for the scope. */
  ghost predicate StandsFor(items: map<Item, Scope>, k: Item, scope: Scope) { k in items && items[k] == scope }

  ghost function ItemFor(items: map<Item, Scope>, scope: Scope, newItem: Item): Item {
    if exists k :: StandsFor(items, k, scope) then var k :| StandsFor(items, k, scope); k else newItem
  }

  ghost predicate IsKnown(items: map<Item, Scope>, scope: Scope) { exists k :: StandsFor(items, k, scope) }

  predicate WorkInWhole(items: map<Item, Scope>, es: seq<Entry>, work: Work) {
    exists i :: 0 <= i < |es| && es[i].item in items && items[es[i].item] == Scope(work, None)
  }

  predicate WorkHasParts(parts: map<Part, Work>, work: Work) { exists p :: p in parts && parts[p] == work }

  ghost function Inserted(s: Store, c: Command, d: nat): Result<Store, Error>
    requires c.AddEntry? && d < |s.revisions|
  {
    var draft, scope := s.revisions[d], Scope(c.work, c.part);
    var es, item := Entries(draft.lines), ItemFor(s.items, scope, c.newItem);
    if !IsKnown(s.items, scope) && (c.newItem in s.items || c.newItem == "") then Err(IdentifierTaken)
    else if Contains(es, item) then Err(AlreadyScheduled)
    else if c.predecessor.Some? && !Contains(es, c.predecessor.value) then Err(PredecessorNotInDraft)
    else
      var sequence := if c.sequence.Some? then c.sequence.value else NextSequence(es);
      var line := Line(s.nextLine, 1, Entry(item, c.start, c.finish, sequence, c.predecessor));
      Ok(s.(revisions := s.revisions[d := Touched(draft, draft.lines + [line])], items := s.items[item := scope], nextLine := s.nextLine + 1))
  }

  ghost function DoAddEntry(s: Store, c: Command): Result<Store, Error>
    requires c.AddEntry?
  {
    var d := Find(s.revisions, Draft);
    if d.None? then Err(NoDraft)
    else if c.work !in s.works then Err(NotFound)
    else if c.part.Some? && (c.part.value !in s.parts || s.parts[c.part.value] != c.work) then Err(NotFound)
    else if !DatesOk(c.start, c.finish) then Err(Dates)
    else
      var es := Entries(s.revisions[d.value].lines);
      if c.part.Some? && WorkInWhole(s.items, es, c.work) then Err(ScheduledAsWhole)
      else if c.part.None? && WorkHasParts(s.parts, c.work) then Err(HasUnits)
      else Inserted(s, c, d.value)
  }

  datatype Position = Position(revision: nat, line: nat)

  predicate IsAt(s: Store, p: Position, id: nat) {
    p.revision < |s.revisions| && p.line < |s.revisions[p.revision].lines| && s.revisions[p.revision].lines[p.line].id == id
  }

  function LineIn(lines: seq<Line>, id: nat): (r: Option<nat>)
    ensures r.Some? ==> r.value < |lines| && lines[r.value].id == id
    ensures r.None? ==> forall i :: 0 <= i < |lines| ==> lines[i].id != id
  {
    if lines == [] then None
    else
      var r := LineIn(lines[..|lines| - 1], id);
      if r.Some? then r else if lines[|lines| - 1].id == id then Some(|lines| - 1) else None
  }

  function Locate(rs: seq<Revision>, id: nat): (r: Option<Position>)
    ensures r.Some? ==> r.value.revision < |rs| && r.value.line < |rs[r.value.revision].lines| && rs[r.value.revision].lines[r.value.line].id == id
    ensures r.None? ==> forall i, j :: 0 <= i < |rs| && 0 <= j < |rs[i].lines| ==> rs[i].lines[j].id != id
  {
    if rs == [] then None
    else
      var r, last := Locate(rs[..|rs| - 1], id), LineIn(rs[|rs| - 1].lines, id);
      if r.Some? then r else if last.Some? then Some(Position(|rs| - 1, last.value)) else None
  }

  /** The entry of a draft with the given version, or the refusal. */
  function DraftEntry(s: Store, id: nat, version: nat): (r: Result<Position, Error>)
    ensures r.Ok? ==> IsAt(s, r.value, id) && s.revisions[r.value.revision].status == Draft
  {
    var at := Locate(s.revisions, id);
    if at.None? then Err(NotFound)
    else if s.revisions[at.value.revision].status != Draft then Err(NotDraft)
    else if s.revisions[at.value.revision].lines[at.value.line].version != version then Err(VersionConflict)
    else Ok(at.value)
  }

  function OrElse<T>(o: Option<T>, t: T): T { if o.Some? then o.value else t }

  function Edited(e: Entry, c: Command): Entry
    requires c.EditEntry?
  {
    Entry(e.item, OrElse(c.newStart, e.start), OrElse(c.newFinish, e.finish), OrElse(c.sequence, e.sequence),
          if c.reference.Set? then c.reference.item else e.predecessor)
  }

  /** A new reference: to another entry of the draft, closing no cycle. */
  ghost function ReferenceProblem(es: seq<Entry>, at: nat, reference: Reference): Option<Error>
    requires at < |es|
  {
    if reference.Keep? || reference.item.None? then None
    else if reference.item.value == es[at].item then Some(PredecessorSelf)
    else if !Contains(es, reference.item.value) then Some(PredecessorNotInDraft)
    else if HasCycle(NextOf(Links(es[at := es[at].(predecessor := reference.item)]))) then Some(PredecessorCycle)
    else None
  }

  function Rewritten(rs: seq<Revision>, at: Position, e: Entry): seq<Revision>
    requires at.revision < |rs| && at.line < |rs[at.revision].lines|
  {
    var lines := rs[at.revision].lines;
    rs[at.revision := Touched(rs[at.revision], lines[at.line := Line(lines[at.line].id, lines[at.line].version + 1, e)])]
  }

  ghost function DoEditEntry(s: Store, c: Command): Result<Store, Error>
    requires c.EditEntry?
  {
    var at := DraftEntry(s, c.line, c.version);
    if at.Err? then Err(at.error)
    else
      var lines := s.revisions[at.value.revision].lines;
      var e := Edited(lines[at.value.line].entry, c);
      if !DatesOk(e.start, e.finish) then Err(Dates)
      else
        var problem := ReferenceProblem(Entries(lines), at.value.line, c.reference);
        if problem.Some? then Err(problem.value) else Ok(s.(revisions := Rewritten(s.revisions, at.value, e)))
  }

  predicate IsFollowed(es: seq<Entry>, k: Item) { exists i :: 0 <= i < |es| && es[i].predecessor == Some(k) }

  function DoRemoveEntry(s: Store, c: Command): Result<Store, Error>
    requires c.RemoveEntry?
  {
    var at := DraftEntry(s, c.line, c.version);
    if at.Err? then Err(at.error)
    else
      var draft, n := s.revisions[at.value.revision], at.value.line;
      if IsFollowed(Entries(draft.lines), draft.lines[n].entry.item) then Err(PredecessorInUse)
      else Ok(s.(revisions := s.revisions[at.value.revision := Touched(draft, draft.lines[..n] + draft.lines[n + 1..])]))
  }

  // ---------------------------------------------------------------- the end of a draft

  function DoDiscardDraft(s: Store, version: nat): Result<Store, Error> {
    var d := Find(s.revisions, Draft);
    if d.None? then Err(NoDraft)
    else if s.revisions[d.value].version != version then Err(VersionConflict)
    else Ok(s.(revisions := s.revisions[d.value := s.revisions[d.value].(status := Discarded, version := version + 1)]))
  }

  predicate PlannedInParts(items: map<Item, Scope>, es: seq<Entry>, w: Work) {
    exists i :: 0 <= i < |es| && es[i].item in items && items[es[i].item].work == w && items[es[i].item].part.Some?
  }

  ghost predicate AtBothLevels(items: map<Item, Scope>, es: seq<Entry>) {
    exists w :: WorkInWhole(items, es, w) && PlannedInParts(items, es, w)
  }

  ghost predicate MissesPredecessor(es: seq<Entry>) {
    exists i :: 0 <= i < |es| && es[i].predecessor.Some? && !Contains(es, es[i].predecessor.value)
  }

  ghost predicate WholeWorkHasUnits(s: Store, es: seq<Entry>) {
    exists w :: WorkInWhole(s.items, es, w) && WorkHasParts(s.parts, w)
  }

  function When(b: bool, p: Problem): seq<Problem> { if b then [p] else [] }

  ghost function EntryProblems(items: map<Item, Scope>, es: seq<Entry>): seq<Problem> {
    When(es == [], Empty) + When(!AllDatesOk(es), BadDates) + When(AtBothLevels(items, es), BothLevels)
    + When(MissesPredecessor(es), PredecessorMissing) + When(HasCycle(NextOf(Links(es))), Cycle)
  }

  function BaselineProblems(baseline: Option<seq<Entry>>, es: seq<Entry>, reason: string): seq<Problem> {
    if baseline.None? then [] else if Diff(baseline.value, es) == [] then [NoChanges] else When(reason == "", ReasonRequired)
  }

  /** Everything that stands against approving, in the order it is reported. */
  ghost function ApprovalProblems(s: Store, es: seq<Entry>, baseline: Option<seq<Entry>>, reason: string): seq<Problem> {
    EntryProblems(s.items, es) + BaselineProblems(baseline, es, reason) + When(WholeWorkHasUnits(s, es), WorkHasUnits)
  }

  function Baseline(s: Store): Option<seq<Entry>> {
    var current := Find(s.revisions, Approved);
    if current.Some? then Some(Entries(s.revisions[current.value].lines)) else None
  }

  function Superseding(rs: seq<Revision>): (r: seq<Revision>)
    ensures |r| == |rs|
  {
    var current := Find(rs, Approved);
    if current.None? then rs
    else rs[current.value := rs[current.value].(status := Superseded, version := rs[current.value].version + 1)]
  }

  /** The draft takes the place of the baseline. */
  function Approving(rs: seq<Revision>, d: nat, reason: string): (r: seq<Revision>)
    requires d < |rs|
    ensures |r| == |rs|
  {
    Superseding(rs)[d := rs[d].(status := Approved, version := rs[d].version + 1, reason := reason)]
  }

  ghost function DoApproveDraft(s: Store, version: nat, reason: string): Result<Store, Error> {
    var d := Find(s.revisions, Draft);
    if d.None? then Err(NoDraft)
    else if s.revisions[d.value].version != version then Err(VersionConflict)
    else
      var problems := ApprovalProblems(s, Entries(s.revisions[d.value].lines), Baseline(s), reason);
      if problems != [] then Err(Refused(problems))
      else
        Ok(s.(revisions := Approving(s.revisions, d.value, if Baseline(s).Some? then reason else "")))
  }

  ghost function Step(s: Store, c: Command): Result<Store, Error> {
    match c
    case CreateDraft => DoCreateDraft(s)
    case AddEntry(_, _, _, _, _, _, _) => DoAddEntry(s, c)
    case EditEntry(_, _, _, _, _, _) => DoEditEntry(s, c)
    case RemoveEntry(_, _) => DoRemoveEntry(s, c)
    case DiscardDraft(version) => DoDiscardDraft(s, version)
    case ApproveDraft(version, reason) => DoApproveDraft(s, version, reason)
    case CreateUnit(part, work) => if work in s.works && part !in s.parts then Ok(s.(parts := s.parts[part := work])) else Err(NotFound)
    case CreateWork(work) => Ok(s.(works := s.works + {work}))
  }

  /** A refused command changes nothing. */
  ghost function After(s: Store, c: Command): Store {
    var r := Step(s, c);
    if r.Ok? then r.value else s
  }

  ghost function Run(s: Store, cs: seq<Command>): Store {
    if cs == [] then s else After(Run(s, cs[..|cs| - 1]), cs[|cs| - 1])
  }

  const NEW_OBJECT := Store([], map[], {}, map[], 0)

  // ---------------------------------------------------------------- what every reachable state keeps

  ghost predicate ItemsKnown(items: map<Item, Scope>, es: seq<Entry>) { forall i :: 0 <= i < |es| ==> es[i].item in items }

  ghost predicate ItemsFit(s: Store) {
    && (forall a, b :: a in s.items && b in s.items && s.items[a] == s.items[b] ==> a == b)
    && (forall a :: a in s.items ==> a != "" && s.items[a].work in s.works)
    && (forall a :: a in s.items && s.items[a].part.Some? ==> s.items[a].part.value in s.parts && s.parts[s.items[a].part.value] == s.items[a].work)
  }

  /** What the entries of any revision satisfy. */
  ghost predicate GoodEntries(items: map<Item, Scope>, es: seq<Entry>) {
    && ItemsKnown(items, es)
    && UniqueItems(es)
    && !MissesPredecessor(es)
    && !HasCycle(NextOf(Links(es)))
    && !AtBothLevels(items, es)
  }

  predicate AllDatesOk(es: seq<Entry>) { forall e :: e in es ==> DatesOk(e.start, e.finish) }

  ghost predicate AllGood(s: Store) { forall i :: 0 <= i < |s.revisions| ==> GoodEntries(s.items, Entries(s.revisions[i].lines)) }

  ghost predicate AtMostOne(rs: seq<Revision>, st: Status) { forall i, j :: 0 <= i < j < |rs| ==> !(rs[i].status == st && rs[j].status == st) }

  ghost predicate Inv(s: Store) { ItemsFit(s) && AllGood(s) && AtMostOne(s.revisions, Draft) && AtMostOne(s.revisions, Approved) }

  // ---------------------------------------------------------------- entries stay good

  lemma NextOfSnoc(es: seq<Entry>, e: Entry)
    ensures NextOf(Links(es + [e])) == NextOf(Links(es))[e.item := e.predecessor]
  {
    assert Links(es + [e])[..|es|] == Links(es);
  }

  lemma {:induction false} NextOfMeans(es: seq<Entry>)
    requires UniqueItems(es)
    ensures forall k :: k in NextOf(Links(es)) <==> Contains(es, k)
    ensures forall i :: 0 <= i < |es| ==> es[i].item in NextOf(Links(es)) && NextOf(Links(es))[es[i].item] == es[i].predecessor
  {
    if es != [] {
      var init, e := es[..|es| - 1], es[|es| - 1];
      NextOfMeans(init);
      assert es == init + [e];
      NextOfSnoc(init, e);
      forall k ensures k in NextOf(Links(es)) <==> Contains(es, k) { ContainsSnoc(init, e, k); }
    }
  }

  /** What an item refers to inside a list of entries. */
  predicate Refers(es: seq<Entry>, a: Item, b: Item) { exists i :: 0 <= i < |es| && es[i].item == a && es[i].predecessor == Some(b) && b != "" }

  lemma FollowsMeansRefers(es: seq<Entry>, a: Item, b: Item)
    requires UniqueItems(es)
    ensures Follows(NextOf(Links(es)), a, b) <==> Refers(es, a, b)
  {
    NextOfMeans(es);
    if Follows(NextOf(Links(es)), a, b) {
      var i :| 0 <= i < |es| && es[i].item == a;
      assert es[i].predecessor == Some(b);
    }
  }

  ghost predicate ItemsAgree(items: map<Item, Scope>, more: map<Item, Scope>) { forall k :: k in items ==> k in more && more[k] == items[k] }

  lemma LevelsGrow(items: map<Item, Scope>, more: map<Item, Scope>, es: seq<Entry>)
    requires ItemsKnown(items, es) && ItemsAgree(items, more) && !AtBothLevels(items, es)
    ensures !AtBothLevels(more, es)
  {
    forall w ensures WorkInWhole(more, es, w) ==> WorkInWhole(items, es, w) {
      assert forall i :: 0 <= i < |es| ==> es[i].item in items && more[es[i].item] == items[es[i].item];
    }
    forall w ensures PlannedInParts(more, es, w) ==> PlannedInParts(items, es, w) {
      assert forall i :: 0 <= i < |es| ==> es[i].item in items && more[es[i].item] == items[es[i].item];
    }
  }

  lemma GoodEntriesGrow(items: map<Item, Scope>, more: map<Item, Scope>, es: seq<Entry>)
    requires GoodEntries(items, es) && ItemsAgree(items, more)
    ensures GoodEntries(more, es)
  {
    LevelsGrow(items, more, es);
  }

  ghost predicate LevelsFit(items: map<Item, Scope>, es: seq<Entry>, scope: Scope) {
    if scope.part.Some? then !WorkInWhole(items, es, scope.work) else !PlannedInParts(items, es, scope.work)
  }

  lemma WholeSnoc(items: map<Item, Scope>, es: seq<Entry>, e: Entry, w: Work)
    ensures WorkInWhole(items, es + [e], w) ==> WorkInWhole(items, es, w) || (e.item in items && items[e.item] == Scope(w, None))
  {
    var more := es + [e];
    if WorkInWhole(items, more, w) {
      var i :| 0 <= i < |more| && more[i].item in items && items[more[i].item] == Scope(w, None);
      assert i < |es| ==> es[i].item in items;
    }
  }

  lemma PartsSnoc(items: map<Item, Scope>, es: seq<Entry>, e: Entry, w: Work)
    ensures PlannedInParts(items, es + [e], w) ==>
              PlannedInParts(items, es, w) || (e.item in items && items[e.item].work == w && items[e.item].part.Some?)
  {
    var more := es + [e];
    if PlannedInParts(items, more, w) {
      var i :| 0 <= i < |more| && more[i].item in items && items[more[i].item].work == w && items[more[i].item].part.Some?;
      assert i < |es| ==> es[i].item in items;
    }
  }

  lemma AddedLevels(items: map<Item, Scope>, es: seq<Entry>, e: Entry)
    requires e.item in items && !AtBothLevels(items, es) && LevelsFit(items, es, items[e.item])
    ensures !AtBothLevels(items, es + [e])
  {
    forall w ensures !(WorkInWhole(items, es + [e], w) && PlannedInParts(items, es + [e], w)) {
      WholeSnoc(items, es, e, w);
      PartsSnoc(items, es, e, w);
    }
  }

  lemma UnknownItemIsNotFollowed(es: seq<Entry>, k: Item, a: Item)
    requires UniqueItems(es) && !Contains(es, k) && !MissesPredecessor(es)
    ensures !Follows(NextOf(Links(es)), a, k)
  {
    FollowsMeansRefers(es, a, k);
    assert forall i :: 0 <= i < |es| && es[i].predecessor == Some(k) ==> Contains(es, es[i].predecessor.value);
  }

  lemma AddedLinks(es: seq<Entry>, e: Entry)
    requires UniqueItems(es) && !Contains(es, e.item) && !MissesPredecessor(es) && !HasCycle(NextOf(Links(es)))
    requires e.predecessor.Some? ==> Contains(es, e.predecessor.value)
    ensures !HasCycle(NextOf(Links(es + [e])))
  {
    assert Links(es + [e])[..|es|] == Links(es);
    forall a ensures !Follows(NextOf(Links(es)), a, e.item) { UnknownItemIsNotFollowed(es, e.item, a); }
    NewItemNoCycle(NextOf(Links(es)), e.item, e.predecessor);
  }

  lemma ContainsSnoc(es: seq<Entry>, e: Entry, k: Item)
    ensures Contains(es + [e], k) <==> Contains(es, k) || e.item == k
  {
    var more := es + [e];
    if Contains(es, k) {
      var i :| 0 <= i < |es| && es[i].item == k;
      assert more[i].item == k;
    }
    assert more[|es|].item == e.item;
    if Contains(more, k) {
      var i :| 0 <= i < |more| && more[i].item == k;
      assert i < |es| ==> es[i].item == k;
    }
  }

  lemma AddedPredecessors(es: seq<Entry>, e: Entry)
    requires !MissesPredecessor(es) && (e.predecessor.Some? ==> Contains(es, e.predecessor.value))
    ensures !MissesPredecessor(es + [e])
  {
    var more := es + [e];
    forall i | 0 <= i < |more| && more[i].predecessor.Some? ensures Contains(more, more[i].predecessor.value) {
      assert i < |es| ==> Contains(es, es[i].predecessor.value);
      ContainsSnoc(es, e, more[i].predecessor.value);
    }
  }

  lemma AddedUnique(es: seq<Entry>, e: Entry)
    requires UniqueItems(es) && !Contains(es, e.item)
    ensures UniqueItems(es + [e])
  {
    forall i | 0 <= i < |es| ensures es[i].item != e.item { }
  }

  lemma AddedGood(items: map<Item, Scope>, es: seq<Entry>, e: Entry)
    requires GoodEntries(items, es) && e.item in items && LevelsFit(items, es, items[e.item])
    requires !Contains(es, e.item) && (e.predecessor.Some? ==> Contains(es, e.predecessor.value))
    ensures GoodEntries(items, es + [e])
  {
    AddedLevels(items, es, e);
    AddedLinks(es, e);
    AddedPredecessors(es, e);
    AddedUnique(es, e);
  }

  lemma SameItemsContain(es: seq<Entry>, fs: seq<Entry>, k: Item)
    requires |es| == |fs| && forall i :: 0 <= i < |es| ==> es[i].item == fs[i].item
    ensures Contains(es, k) == Contains(fs, k)
  {
    if Contains(es, k) {
      var i :| 0 <= i < |es| && es[i].item == k;
      assert fs[i].item == k;
    }
    if Contains(fs, k) {
      var i :| 0 <= i < |es| && fs[i].item == k;
      assert es[i].item == k;
    }
  }

  lemma SameItemsLevels(items: map<Item, Scope>, es: seq<Entry>, fs: seq<Entry>)
    requires |es| == |fs| && forall i :: 0 <= i < |es| ==> es[i].item == fs[i].item
    requires !AtBothLevels(items, es)
    ensures !AtBothLevels(items, fs)
  {
    forall w ensures WorkInWhole(items, fs, w) ==> WorkInWhole(items, es, w) {
      if WorkInWhole(items, fs, w) {
        var i :| 0 <= i < |fs| && fs[i].item in items && items[fs[i].item] == Scope(w, None);
        assert es[i].item in items;
      }
    }
    forall w ensures PlannedInParts(items, fs, w) ==> PlannedInParts(items, es, w) {
      if PlannedInParts(items, fs, w) {
        var i :| 0 <= i < |fs| && fs[i].item in items && items[fs[i].item].work == w && items[fs[i].item].part.Some?;
        assert es[i].item in items;
      }
    }
  }

  lemma EditedLinks(es: seq<Entry>, at: nat, e: Entry, reference: Reference)
    requires at < |es| && e.item == es[at].item && UniqueItems(es) && !HasCycle(NextOf(Links(es)))
    requires ReferenceProblem(es, at, reference).None?
    requires e.predecessor == if reference.Set? then reference.item else es[at].predecessor
    ensures !HasCycle(NextOf(Links(es[at := e])))
  {
    var after := es[at := e];
    if reference.Keep? {
      assert Links(after) == Links(es);
    } else if reference.item.Some? {
      assert Links(after) == Links(es[at := es[at].(predecessor := reference.item)]);
    } else {
      forall a, b | Follows(NextOf(Links(after)), a, b) ensures Follows(NextOf(Links(es)), a, b) {
        FollowsMeansRefers(after, a, b);
        var i :| 0 <= i < |after| && after[i].item == a && after[i].predecessor == Some(b);
        assert i != at && es[i] == after[i];
        FollowsMeansRefers(es, a, b);
      }
      FewerLinksNoCycle(NextOf(Links(es)), NextOf(Links(after)));
    }
  }

  lemma EditedPredecessors(es: seq<Entry>, at: nat, e: Entry)
    requires at < |es| && e.item == es[at].item && !MissesPredecessor(es)
    requires e.predecessor.Some? ==> Contains(es, e.predecessor.value)
    ensures !MissesPredecessor(es[at := e])
  {
    var after := es[at := e];
    forall i | 0 <= i < |after| && after[i].predecessor.Some? ensures Contains(after, after[i].predecessor.value) {
      SameItemsContain(es, after, after[i].predecessor.value);
      assert i != at ==> after[i] == es[i];
    }
  }

  lemma EditedGood(items: map<Item, Scope>, es: seq<Entry>, at: nat, e: Entry, reference: Reference)
    requires at < |es| && e.item == es[at].item && GoodEntries(items, es)
    requires ReferenceProblem(es, at, reference).None?
    requires e.predecessor == if reference.Set? then reference.item else es[at].predecessor
    ensures GoodEntries(items, es[at := e])
  {
    EditedLinks(es, at, e, reference);
    SameItemsLevels(items, es, es[at := e]);
    EditedPredecessors(es, at, e);
  }

  function Dropped(es: seq<Entry>, n: nat): (r: seq<Entry>)
    requires n < |es|
    ensures |r| == |es| - 1 && forall i :: 0 <= i < |r| ==> r[i] == es[if i < n then i else i + 1]
  {
    es[..n] + es[n + 1..]
  }

  lemma DroppedLevels(items: map<Item, Scope>, es: seq<Entry>, n: nat)
    requires n < |es| && !AtBothLevels(items, es)
    ensures !AtBothLevels(items, Dropped(es, n))
  {
    var fs := Dropped(es, n);
    forall w ensures WorkInWhole(items, fs, w) ==> WorkInWhole(items, es, w) {
      if WorkInWhole(items, fs, w) {
        var i :| 0 <= i < |fs| && fs[i].item in items && items[fs[i].item] == Scope(w, None);
        assert es[if i < n then i else i + 1].item in items;
      }
    }
    forall w ensures PlannedInParts(items, fs, w) ==> PlannedInParts(items, es, w) {
      if PlannedInParts(items, fs, w) {
        var i :| 0 <= i < |fs| && fs[i].item in items && items[fs[i].item].work == w && items[fs[i].item].part.Some?;
        assert es[if i < n then i else i + 1].item in items;
      }
    }
  }

  lemma DroppedLinks(es: seq<Entry>, n: nat)
    requires n < |es| && UniqueItems(es) && !HasCycle(NextOf(Links(es)))
    ensures UniqueItems(Dropped(es, n)) && !HasCycle(NextOf(Links(Dropped(es, n))))
  {
    var fs := Dropped(es, n);
    forall a, b | Follows(NextOf(Links(fs)), a, b) ensures Follows(NextOf(Links(es)), a, b) {
      FollowsMeansRefers(fs, a, b);
      var i :| 0 <= i < |fs| && fs[i].item == a && fs[i].predecessor == Some(b);
      assert es[if i < n then i else i + 1] == fs[i];
      FollowsMeansRefers(es, a, b);
    }
    FewerLinksNoCycle(NextOf(Links(es)), NextOf(Links(fs)));
  }

  lemma DroppedContains(es: seq<Entry>, n: nat, k: Item)
    requires n < |es| && Contains(es, k) && es[n].item != k
    ensures Contains(Dropped(es, n), k)
  {
    var j :| 0 <= j < |es| && es[j].item == k;
    assert Dropped(es, n)[if j < n then j else j - 1].item == k;
  }

  lemma DroppedPredecessors(es: seq<Entry>, n: nat)
    requires n < |es| && !MissesPredecessor(es) && !IsFollowed(es, es[n].item)
    ensures !MissesPredecessor(Dropped(es, n))
  {
    var fs := Dropped(es, n);
    forall i | 0 <= i < |fs| && fs[i].predecessor.Some? ensures Contains(fs, fs[i].predecessor.value) {
      var m := if i < n then i else i + 1;
      assert es[m] == fs[i] && Contains(es, es[m].predecessor.value);
      DroppedContains(es, n, es[m].predecessor.value);
    }
  }

  lemma DroppedGood(items: map<Item, Scope>, es: seq<Entry>, n: nat)
    requires n < |es| && GoodEntries(items, es) && !IsFollowed(es, es[n].item)
    ensures GoodEntries(items, Dropped(es, n))
  {
    DroppedLevels(items, es, n);
    DroppedLinks(es, n);
    DroppedPredecessors(es, n);
  }

  // ---------------------------------------------------------------- every command keeps the invariant

  ghost predicate AllDates(rs: seq<Revision>) { forall i :: 0 <= i < |rs| ==> AllDatesOk(Entries(rs[i].lines)) }

  lemma ReplacedGood(s: Store, i: nat, r: Revision, items: map<Item, Scope>)
    requires AllGood(s) && i < |s.revisions| && ItemsAgree(s.items, items) && GoodEntries(items, Entries(r.lines))
    ensures AllGood(s.(revisions := s.revisions[i := r], items := items))
  {
    forall k | 0 <= k < |s.revisions| && k != i ensures GoodEntries(items, Entries(s.revisions[k].lines)) {
      GoodEntriesGrow(s.items, items, Entries(s.revisions[k].lines));
    }
  }

  lemma FindIsIt(rs: seq<Revision>, st: Status, i: nat)
    requires i < |rs| && rs[i].status == st && AtMostOne(rs, st)
    ensures Find(rs, st) == Some(i)
  {
    var r := Find(rs, st);
    assert r.Some? && rs[r.value].status == st;
  }

  lemma SameStatusAtMostOne(rs: seq<Revision>, i: nat, r: Revision, st: Status)
    requires i < |rs| && rs[i].status == r.status && AtMostOne(rs, st)
    ensures AtMostOne(rs[i := r], st)
  {
  }

  lemma OneMoreRevision(s: Store, r: Revision, next: nat)
    requires Inv(s) && r.status == Draft && Find(s.revisions, Draft).None? && GoodEntries(s.items, Entries(r.lines))
    ensures Inv(s.(revisions := s.revisions + [r], nextLine := next))
  {
  }

  lemma CreateDraftKeeps(s: Store)
    requires Inv(s) && DoCreateDraft(s).Ok?
    ensures Inv(DoCreateDraft(s).value)
  {
    var current := Find(s.revisions, Approved);
    var lines := if current.Some? then Copied(s.revisions[current.value].lines, s.nextLine) else [];
    if current.Some? {
      assert Entries(lines) == Entries(s.revisions[current.value].lines);
    } else {
      EmptyIsGood(s.items);
      assert Entries(lines) == [];
    }
    OneMoreRevision(s, Revision(Draft, 1, current, lines, ""), s.nextLine + |lines|);
  }

  lemma EmptyIsGood(items: map<Item, Scope>)
    ensures GoodEntries(items, [])
  {
    var next := NextOf(Links([]));
    assert next == map[];
    forall cycle ensures !IsCycle(next, cycle) {
      if IsCycle(next, cycle) {
        CycleStartsAtKey(next, cycle);
      }
    }
  }

  lemma PlannedPartIsPart(s: Store, es: seq<Entry>, w: Work)
    requires ItemsFit(s)
    ensures PlannedInParts(s.items, es, w) ==> WorkHasParts(s.parts, w)
  {
    if PlannedInParts(s.items, es, w) {
      var i :| 0 <= i < |es| && es[i].item in s.items && s.items[es[i].item].work == w && s.items[es[i].item].part.Some?;
      assert s.items[es[i].item].part.value in s.parts;
    }
  }

  lemma AddedScopeFits(s: Store, c: Command, es: seq<Entry>)
    requires ItemsFit(s) && ItemsKnown(s.items, es)
    requires c.AddEntry? && c.work in s.works
    requires c.part.Some? ==> c.part.value in s.parts && s.parts[c.part.value] == c.work && !WorkInWhole(s.items, es, c.work)
    requires c.part.None? ==> !WorkHasParts(s.parts, c.work)
    ensures LevelsFit(s.items, es, Scope(c.work, c.part))
  {
    PlannedPartIsPart(s, es, c.work);
  }

  lemma AddedItemsFit(s: Store, scope: Scope, newItem: Item)
    requires ItemsFit(s) && (IsKnown(s.items, scope) || (newItem !in s.items && newItem != ""))
    requires scope.work in s.works && (scope.part.Some? ==> scope.part.value in s.parts && s.parts[scope.part.value] == scope.work)
    ensures var item := ItemFor(s.items, scope, newItem);
            && ItemsAgree(s.items, s.items[item := scope])
            && ItemsFit(s.(items := s.items[item := scope]))
  {
    var item := ItemFor(s.items, scope, newItem);
    if IsKnown(s.items, scope) {
      assert StandsFor(s.items, item, scope);
      assert s.items[item := scope] == s.items;
    } else {
      forall a | a in s.items ensures s.items[a] != scope { assert !StandsFor(s.items, a, scope); }
    }
  }

  lemma EntriesSnoc(lines: seq<Line>, line: Line)
    ensures Entries(lines + [line]) == Entries(lines) + [line.entry]
  {
  }

  /** One more line in the draft, for an item that is new or known already. */
  function Appended(s: Store, d: nat, line: Line, items: map<Item, Scope>): Store
    requires d < |s.revisions|
  {
    s.(revisions := s.revisions[d := Touched(s.revisions[d], s.revisions[d].lines + [line])], items := items, nextLine := s.nextLine + 1)
  }

  lemma AppendedKeeps(s: Store, d: nat, line: Line, items: map<Item, Scope>)
    requires Inv(s) && d < |s.revisions| && ItemsAgree(s.items, items) && ItemsFit(s.(items := items))
    requires GoodEntries(items, Entries(s.revisions[d].lines) + [line.entry])
    ensures Inv(Appended(s, d, line, items))
  {
    var r := Touched(s.revisions[d], s.revisions[d].lines + [line]);
    EntriesSnoc(s.revisions[d].lines, line);
    ReplacedGood(s, d, r, items);
    SameStatusAtMostOne(s.revisions, d, r, Draft);
    SameStatusAtMostOne(s.revisions, d, r, Approved);
  }

  lemma AddEntryKeeps(s: Store, c: Command)
    requires Inv(s) && c.AddEntry? && DoAddEntry(s, c).Ok?
    ensures Inv(DoAddEntry(s, c).value)
  {
    var d := Find(s.revisions, Draft).value;
    var draft, scope := s.revisions[d], Scope(c.work, c.part);
    var es, item := Entries(draft.lines), ItemFor(s.items, scope, c.newItem);
    var items := s.items[item := scope];
    AddedScopeFits(s, c, es);
    AddedItemsFit(s, scope, c.newItem);
    GoodEntriesGrow(s.items, items, es);
    LevelsFitGrow(s.items, items, es, scope);
    var sequence := if c.sequence.Some? then c.sequence.value else NextSequence(es);
    var line := Line(s.nextLine, 1, Entry(item, c.start, c.finish, sequence, c.predecessor));
    AddedGood(items, es, line.entry);
    AppendedKeeps(s, d, line, items);
  }

  lemma LevelsFitGrow(items: map<Item, Scope>, more: map<Item, Scope>, es: seq<Entry>, scope: Scope)
    requires ItemsKnown(items, es) && ItemsAgree(items, more) && LevelsFit(items, es, scope)
    ensures LevelsFit(more, es, scope)
  {
    assert forall i :: 0 <= i < |es| ==> es[i].item in items && more[es[i].item] == items[es[i].item];
  }

  lemma EntriesUpdate(lines: seq<Line>, n: nat, line: Line)
    requires n < |lines|
    ensures Entries(lines[n := line]) == Entries(lines)[n := line.entry]
  {
  }

  lemma EditEntryKeeps(s: Store, c: Command)
    requires Inv(s) && c.EditEntry? && DoEditEntry(s, c).Ok?
    ensures Inv(DoEditEntry(s, c).value)
  {
    var t := DoEditEntry(s, c).value;
    var at := DraftEntry(s, c.line, c.version).value;
    var draft := s.revisions[at.revision];
    var line := t.revisions[at.revision].lines[at.line];
    EditedGood(s.items, Entries(draft.lines), at.line, line.entry, c.reference);
    EntriesUpdate(draft.lines, at.line, line);
    ReplacedGood(s, at.revision, t.revisions[at.revision], s.items);
    SameStatusAtMostOne(s.revisions, at.revision, t.revisions[at.revision], Draft);
    SameStatusAtMostOne(s.revisions, at.revision, t.revisions[at.revision], Approved);
  }

  lemma EntriesDrop(lines: seq<Line>, n: nat)
    requires n < |lines|
    ensures Entries(lines[..n] + lines[n + 1..]) == Dropped(Entries(lines), n)
  {
  }

  lemma RemoveEntryKeeps(s: Store, c: Command)
    requires Inv(s) && c.RemoveEntry? && DoRemoveEntry(s, c).Ok?
    ensures Inv(DoRemoveEntry(s, c).value)
  {
    var t := DoRemoveEntry(s, c).value;
    var at := DraftEntry(s, c.line, c.version).value;
    var draft := s.revisions[at.revision];
    DroppedGood(s.items, Entries(draft.lines), at.line);
    EntriesDrop(draft.lines, at.line);
    ReplacedGood(s, at.revision, t.revisions[at.revision], s.items);
    SameStatusAtMostOne(s.revisions, at.revision, t.revisions[at.revision], Draft);
    SameStatusAtMostOne(s.revisions, at.revision, t.revisions[at.revision], Approved);
  }

  lemma DiscardDraftKeeps(s: Store, version: nat)
    requires Inv(s) && DoDiscardDraft(s, version).Ok?
    ensures Inv(DoDiscardDraft(s, version).value)
  {
    var t := DoDiscardDraft(s, version).value;
    var d := Find(s.revisions, Draft).value;
    ReplacedGood(s, d, t.revisions[d], s.items);
  }

  lemma SupersedingKeeps(rs: seq<Revision>)
    requires AtMostOne(rs, Draft) && AtMostOne(rs, Approved)
    ensures |Superseding(rs)| == |rs|
    ensures forall i :: 0 <= i < |rs| ==> Superseding(rs)[i].lines == rs[i].lines && Superseding(rs)[i].status != Approved
    ensures forall i :: 0 <= i < |rs| ==> (Superseding(rs)[i].status == Draft <==> rs[i].status == Draft)
  {
    var current := Find(rs, Approved);
    if current.Some? {
      forall i | 0 <= i < |rs| && i != current.value ensures rs[i].status != Approved { }
    }
  }

  lemma ApprovingKeeps(rs: seq<Revision>, d: nat, reason: string)
    requires d < |rs| && rs[d].status == Draft && AtMostOne(rs, Draft) && AtMostOne(rs, Approved)
    ensures AtMostOne(Approving(rs, d, reason), Draft) && AtMostOne(Approving(rs, d, reason), Approved)
    ensures forall i :: 0 <= i < |rs| ==> Approving(rs, d, reason)[i].lines == rs[i].lines
    ensures forall i :: 0 <= i < |rs| ==> Approving(rs, d, reason)[i].status != Draft
  {
    SupersedingKeeps(rs);
    forall i | 0 <= i < |rs| && i != d ensures rs[i].status != Draft { }
  }

  lemma SameLinesGood(s: Store, rs: seq<Revision>)
    requires AllGood(s) && |rs| == |s.revisions| && forall i :: 0 <= i < |rs| ==> rs[i].lines == s.revisions[i].lines
    ensures AllGood(s.(revisions := rs))
  {
    forall i | 0 <= i < |rs| ensures GoodEntries(s.items, Entries(rs[i].lines)) {
      assert Entries(rs[i].lines) == Entries(s.revisions[i].lines);
    }
  }

  lemma ApprovedRevisions(s: Store, version: nat, reason: string, t: Store) returns (d: nat, given: string)
    requires DoApproveDraft(s, version, reason) == Ok(t)
    ensures Find(s.revisions, Draft) == Some(d) && t == s.(revisions := Approving(s.revisions, d, given))
    ensures s.revisions[d].status == Draft && s.revisions[d].version == version && given == if Baseline(s) == None then "" else reason
  {
    d, given := Find(s.revisions, Draft).value, if Baseline(s).Some? then reason else "";
  }

  lemma ApprovingKeepsLines(rs: seq<Revision>, d: nat, reason: string)
    requires d < |rs|
    ensures forall i :: 0 <= i < |rs| ==> Approving(rs, d, reason)[i].lines == rs[i].lines
  {
  }

  lemma ApproveDraftKeeps(s: Store, version: nat, reason: string, t: Store)
    requires Inv(s) && DoApproveDraft(s, version, reason) == Ok(t)
    ensures Inv(t)
  {
    var d, given := ApprovedRevisions(s, version, reason, t);
    ApprovingKeeps(s.revisions, d, given);
    SameLinesGood(s, t.revisions);
  }

  lemma StepKeepsInvariant(s: Store, c: Command)
    requires Inv(s)
    ensures Inv(After(s, c))
  {
    if Step(s, c).Ok? {
      match c
      case CreateDraft => CreateDraftKeeps(s);
      case AddEntry(_, _, _, _, _, _, _) => AddEntryKeeps(s, c);
      case EditEntry(_, _, _, _, _, _) => EditEntryKeeps(s, c);
      case RemoveEntry(_, _) => RemoveEntryKeeps(s, c);
      case DiscardDraft(version) => DiscardDraftKeeps(s, version);
      case ApproveDraft(version, reason) => ApproveDraftKeeps(s, version, reason, After(s, c));
      case CreateUnit(_, _) =>
      case CreateWork(_) =>
    }
  }

  /** Every reachable schedule: distinct items, predecessors inside, no cycle, no work at both levels; one draft and one baseline at most. */
  lemma {:induction false} ReachableSchedulesAreGood(cs: seq<Command>)
    ensures Inv(Run(NEW_OBJECT, cs))
  {
    if cs != [] {
      ReachableSchedulesAreGood(cs[..|cs| - 1]);
      StepKeepsInvariant(Run(NEW_OBJECT, cs[..|cs| - 1]), cs[|cs| - 1]);
    }
  }

  // ---------------------------------------------------------------- dates

  lemma ReplacedDates(rs: seq<Revision>, i: nat, r: Revision)
    requires AllDates(rs) && i < |rs| && AllDatesOk(Entries(r.lines))
    ensures AllDates(rs[i := r])
  {
  }

  lemma FewerDates(es: seq<Entry>, fewer: seq<Entry>, more: seq<Entry>)
    requires AllDatesOk(es) && AllDatesOk(more) && forall e :: e in fewer ==> e in es || e in more
    ensures AllDatesOk(fewer)
  {
  }

  lemma AppendedDates(rs: seq<Revision>, d: nat, line: Line)
    requires AllDates(rs) && d < |rs| && DatesOk(line.entry.start, line.entry.finish)
    ensures AllDates(rs[d := Touched(rs[d], rs[d].lines + [line])])
  {
    var lines := rs[d].lines;
    EntriesSnoc(lines, line);
    FewerDates(Entries(lines), Entries(lines) + [line.entry], [line.entry]);
    ReplacedDates(rs, d, Touched(rs[d], lines + [line]));
  }

  lemma AddedLine(s: Store, c: Command, t: Store) returns (d: nat, line: Line, items: map<Item, Scope>)
    requires c.AddEntry? && DoAddEntry(s, c) == Ok(t)
    ensures Find(s.revisions, Draft) == Some(d) && t == Appended(s, d, line, items) && line.id == s.nextLine && line.version == 1
    ensures DatesOk(line.entry.start, line.entry.finish) && s.revisions[d].status == Draft
    ensures var es := Entries(s.revisions[d].lines);
            !Contains(es, line.entry.item) && (line.entry.predecessor.Some? ==> Contains(es, line.entry.predecessor.value))
  {
    d := Find(s.revisions, Draft).value;
    var scope, es := Scope(c.work, c.part), Entries(s.revisions[d].lines);
    var item := ItemFor(s.items, scope, c.newItem);
    items := s.items[item := scope];
    line := Line(s.nextLine, 1, Entry(item, c.start, c.finish, if c.sequence.Some? then c.sequence.value else NextSequence(es), c.predecessor));
  }

  lemma AddEntryDates(s: Store, c: Command, t: Store)
    requires AllDates(s.revisions) && c.AddEntry? && DoAddEntry(s, c) == Ok(t)
    ensures AllDates(t.revisions)
  {
    var d, line, items := AddedLine(s, c, t);
    AppendedDates(s.revisions, d, line);
  }

  lemma EditedLine(s: Store, c: Command, t: Store) returns (at: Position, e: Entry)
    requires c.EditEntry? && DoEditEntry(s, c) == Ok(t)
    ensures at.revision < |s.revisions| && at.line < |s.revisions[at.revision].lines| && s.revisions[at.revision].status == Draft
    ensures t == s.(revisions := Rewritten(s.revisions, at, e)) && DatesOk(e.start, e.finish)
  {
    at := DraftEntry(s, c.line, c.version).value;
    e := Edited(s.revisions[at.revision].lines[at.line].entry, c);
  }

  /** An edit gives each named field its new value and keeps every other, in the one line of that number and version; nothing else in the schedule moves but the draft's version. */
  lemma EditTakesNamedFields(s: Store, c: Command, t: Store) returns (at: Position)
    requires c.EditEntry? && DoEditEntry(s, c) == Ok(t)
    ensures at.revision < |s.revisions| && at.line < |s.revisions[at.revision].lines| && s.revisions[at.revision].status == Draft
    ensures s.revisions[at.revision].lines[at.line].id == c.line && s.revisions[at.revision].lines[at.line].version == c.version
    ensures |t.revisions| == |s.revisions| && |t.revisions[at.revision].lines| == |s.revisions[at.revision].lines|
    ensures var a, b := s.revisions[at.revision].lines[at.line], t.revisions[at.revision].lines[at.line];
            && b.id == a.id && b.version == a.version + 1 && b.entry.item == a.entry.item
            && b.entry.start == (match c.newStart case Some(x) => x case None => a.entry.start)
            && b.entry.finish == (match c.newFinish case Some(x) => x case None => a.entry.finish)
            && b.entry.sequence == (match c.sequence case Some(x) => x case None => a.entry.sequence)
            && b.entry.predecessor == (match c.reference case Set(x) => x case Keep => a.entry.predecessor)
    ensures forall j :: 0 <= j < |s.revisions[at.revision].lines| && j != at.line ==>
              t.revisions[at.revision].lines[j] == s.revisions[at.revision].lines[j]
    ensures forall i :: 0 <= i < |s.revisions| && i != at.revision ==> t.revisions[i] == s.revisions[i]
    ensures t.revisions[at.revision].version == s.revisions[at.revision].version + 1 && t.revisions[at.revision].status == Draft
    ensures t.items == s.items && t.works == s.works && t.parts == s.parts && t.nextLine == s.nextLine
  {
    at := DraftEntry(s, c.line, c.version).value;
  }

  lemma EditEntryDates(s: Store, c: Command, t: Store)
    requires AllDates(s.revisions) && c.EditEntry? && DoEditEntry(s, c) == Ok(t)
    ensures AllDates(t.revisions)
  {
    var at, e := EditedLine(s, c, t);
    OneEntryDates(e);
    RewrittenDates(s.revisions, at, e);
  }

  lemma OneEntryDates(e: Entry)
    requires DatesOk(e.start, e.finish)
    ensures AllDatesOk([e])
  {
  }

  lemma RewrittenDates(rs: seq<Revision>, at: Position, e: Entry)
    requires AllDates(rs) && at.revision < |rs| && at.line < |rs[at.revision].lines| && AllDatesOk([e])
    ensures AllDates(Rewritten(rs, at, e))
  {
    var lines := rs[at.revision].lines;
    var line := Line(lines[at.line].id, lines[at.line].version + 1, e);
    EntriesUpdate(lines, at.line, line);
    FewerDates(Entries(lines), Entries(lines)[at.line := e], [e]);
    ReplacedDates(rs, at.revision, Touched(rs[at.revision], lines[at.line := line]));
  }

  lemma RemovedDates(rs: seq<Revision>, d: nat, n: nat)
    requires AllDates(rs) && d < |rs| && n < |rs[d].lines|
    ensures AllDates(rs[d := Touched(rs[d], rs[d].lines[..n] + rs[d].lines[n + 1..])])
  {
    var lines := rs[d].lines;
    EntriesDrop(lines, n);
    FewerDates(Entries(lines), Dropped(Entries(lines), n), []);
    ReplacedDates(rs, d, Touched(rs[d], lines[..n] + lines[n + 1..]));
  }

  lemma RemoveEntryDates(s: Store, c: Command)
    requires AllDates(s.revisions) && c.RemoveEntry? && DoRemoveEntry(s, c).Ok?
    ensures AllDates(DoRemoveEntry(s, c).value.revisions)
  {
    var at := DraftEntry(s, c.line, c.version).value;
    RemovedDates(s.revisions, at.revision, at.line);
  }

  lemma CreateDraftDates(s: Store)
    requires AllDates(s.revisions) && DoCreateDraft(s).Ok?
    ensures AllDates(DoCreateDraft(s).value.revisions)
  {
    var t := DoCreateDraft(s).value;
    var n, current := |s.revisions|, Find(s.revisions, Approved);
    if current.Some? {
      assert Entries(t.revisions[n].lines) == Entries(s.revisions[current.value].lines);
    } else {
      assert Entries(t.revisions[n].lines) == [];
    }
  }

  lemma SameLinesDates(rs: seq<Revision>, ts: seq<Revision>)
    requires AllDates(rs) && |ts| == |rs| && forall i :: 0 <= i < |rs| ==> ts[i].lines == rs[i].lines
    ensures AllDates(ts)
  {
    forall i | 0 <= i < |ts| ensures AllDatesOk(Entries(ts[i].lines)) { assert Entries(ts[i].lines) == Entries(rs[i].lines); }
  }

  lemma ApproveDraftDates(s: Store, version: nat, reason: string, t: Store)
    requires AllDates(s.revisions) && DoApproveDraft(s, version, reason) == Ok(t)
    ensures AllDates(t.revisions)
  {
    var d, given := ApprovedRevisions(s, version, reason, t);
    ApprovingKeepsLines(s.revisions, d, given);
    SameLinesDates(s.revisions, t.revisions);
  }

  lemma StepKeepsDates(s: Store, c: Command)
    requires AllDates(s.revisions)
    ensures AllDates(After(s, c).revisions)
  {
    if Step(s, c).Ok? {
      match c
      case CreateDraft => CreateDraftDates(s);
      case AddEntry(_, _, _, _, _, _, _) => AddEntryDates(s, c, After(s, c));
      case EditEntry(_, _, _, _, _, _) => EditEntryDates(s, c, After(s, c));
      case RemoveEntry(_, _) => RemoveEntryDates(s, c);
      case DiscardDraft(version) =>
      case ApproveDraft(version, reason) => ApproveDraftDates(s, version, reason, After(s, c));
      case CreateUnit(_, _) =>
      case CreateWork(_) =>
    }
  }

  lemma {:induction false} ReachableDatesAreGood(cs: seq<Command>)
    ensures AllDates(Run(NEW_OBJECT, cs).revisions)
  {
    if cs != [] {
      ReachableDatesAreGood(cs[..|cs| - 1]);
      StepKeepsDates(Run(NEW_OBJECT, cs[..|cs| - 1]), cs[|cs| - 1]);
    }
  }

  // ---------------------------------------------------------------- what is approved stays as it was approved

  predicate TransitionAllowed(a: Status, b: Status) {
    a == b || (a == Draft && (b == Approved || b == Discarded)) || (a == Approved && b == Superseded)
  }

  lemma RoutesExactly(a: Status, b: Status)
    ensures TransitionAllowed(a, b) <==> a == b || (a, b) in {(Draft, Approved), (Draft, Discarded), (Approved, Superseded)}
  {
  }

  /** One revision before and after: its status follows the allow-list, and outside a draft its entries are frozen. */
  ghost predicate KeepsHistory(r: Revision, t: Revision) {
    && TransitionAllowed(r.status, t.status)
    && t.basedOn == r.basedOn
    && (r.status != Draft || t.status != Draft ==> t.lines == r.lines)
  }

  lemma DraftFollows(rs: seq<Revision>, d: nat, r: Revision, i: nat)
    requires d < |rs| && i < |rs| && rs[d].status == Draft && r.status == Draft && r.basedOn == rs[d].basedOn
    ensures KeepsHistory(rs[i], rs[d := r][i])
  {
  }

  lemma AddEntryFollows(s: Store, c: Command, t: Store, i: nat)
    requires i < |s.revisions| && c.AddEntry? && DoAddEntry(s, c) == Ok(t)
    ensures i < |t.revisions| && KeepsHistory(s.revisions[i], t.revisions[i])
  {
    var d, line, items := AddedLine(s, c, t);
    DraftFollows(s.revisions, d, t.revisions[d], i);
  }

  lemma EditEntryFollows(s: Store, c: Command, t: Store, i: nat)
    requires i < |s.revisions| && c.EditEntry? && DoEditEntry(s, c) == Ok(t)
    ensures i < |t.revisions| && KeepsHistory(s.revisions[i], t.revisions[i])
  {
    var at, e := EditedLine(s, c, t);
    DraftFollows(s.revisions, at.revision, t.revisions[at.revision], i);
  }

  lemma RemoveEntryFollows(s: Store, c: Command, i: nat)
    requires i < |s.revisions| && c.RemoveEntry? && DoRemoveEntry(s, c).Ok?
    ensures i < |DoRemoveEntry(s, c).value.revisions| && KeepsHistory(s.revisions[i], DoRemoveEntry(s, c).value.revisions[i])
  {
    var d := DraftEntry(s, c.line, c.version).value.revision;
    DraftFollows(s.revisions, d, DoRemoveEntry(s, c).value.revisions[d], i);
  }

  lemma ApprovingKeepsHistory(rs: seq<Revision>, d: nat, reason: string, i: nat)
    requires d < |rs| && rs[d].status == Draft && i < |rs|
    ensures KeepsHistory(rs[i], Approving(rs, d, reason)[i])
  {
  }

  lemma ApproveDraftFollows(s: Store, version: nat, reason: string, t: Store, i: nat)
    requires i < |s.revisions| && DoApproveDraft(s, version, reason) == Ok(t)
    ensures i < |t.revisions| && KeepsHistory(s.revisions[i], t.revisions[i])
  {
    var d, given := ApprovedRevisions(s, version, reason, t);
    ApprovingKeepsHistory(s.revisions, d, given, i);
  }

  lemma StepFollows(s: Store, c: Command, i: nat)
    requires i < |s.revisions|
    ensures i < |After(s, c).revisions| && KeepsHistory(s.revisions[i], After(s, c).revisions[i])
  {
    if Step(s, c).Ok? {
      match c
      case CreateDraft =>
      case AddEntry(_, _, _, _, _, _, _) => AddEntryFollows(s, c, After(s, c), i);
      case EditEntry(_, _, _, _, _, _) => EditEntryFollows(s, c, After(s, c), i);
      case RemoveEntry(_, _) => RemoveEntryFollows(s, c, i);
      case DiscardDraft(version) =>
      case ApproveDraft(version, reason) => ApproveDraftFollows(s, version, reason, After(s, c), i);
      case CreateUnit(_, _) =>
      case CreateWork(_) =>
    }
  }

  /** Over any run: once a revision is approved, superseded or discarded, its entries are the same ever after. */
  lemma {:induction false} FrozenForever(s: Store, cs: seq<Command>, i: nat)
    requires i < |s.revisions| && s.revisions[i].status != Draft
    ensures i < |Run(s, cs).revisions| && Run(s, cs).revisions[i].lines == s.revisions[i].lines
    ensures Run(s, cs).revisions[i].status != Draft
    ensures s.revisions[i].status == Approved ==> Run(s, cs).revisions[i].status in {Approved, Superseded}
    ensures s.revisions[i].status in {Superseded, Discarded} ==> Run(s, cs).revisions[i].status == s.revisions[i].status
  {
    if cs != [] {
      FrozenForever(s, cs[..|cs| - 1], i);
      StepFollows(Run(s, cs[..|cs| - 1]), cs[|cs| - 1], i);
    }
  }

  // ---------------------------------------------------------------- approval

  /** In a reachable state only four things can stand against approving a draft. */
  lemma ReachableApprovalProblems(s: Store, d: nat, reason: string)
    requires Inv(s) && AllDates(s.revisions) && d < |s.revisions|
    ensures var es := Entries(s.revisions[d].lines);
            ApprovalProblems(s, es, Baseline(s), reason) ==
              When(es == [], Empty) + BaselineProblems(Baseline(s), es, reason) + When(WholeWorkHasUnits(s, es), WorkHasUnits)
  {
    var es := Entries(s.revisions[d].lines);
    assert GoodEntries(s.items, es) && AllDatesOk(es);
  }

  /** Exactly when a reachable draft is approved. */
  lemma ApprovalExact(s: Store, version: nat, reason: string)
    requires Inv(s) && AllDates(s.revisions)
    ensures DoApproveDraft(s, version, reason).Ok? <==>
            && Find(s.revisions, Draft).Some?
            && s.revisions[Find(s.revisions, Draft).value].version == version
            && var es := Entries(s.revisions[Find(s.revisions, Draft).value].lines);
               && es != []
               && (Baseline(s).Some? ==> ByItem(Baseline(s).value) != ByItem(es) && reason != "")
               && !WholeWorkHasUnits(s, es)
  {
    var d := Find(s.revisions, Draft);
    if d.Some? {
      var es := Entries(s.revisions[d.value].lines);
      ReachableApprovalProblems(s, d.value, reason);
      if Baseline(s).Some? {
        var b := Find(s.revisions, Approved).value;
        assert GoodEntries(s.items, es) && GoodEntries(s.items, Entries(s.revisions[b].lines));
        DiffEmptyExactly(Baseline(s).value, es);
      }
    }
  }

  /** A copy of the baseline that nobody edited is never approved, whatever version or reason is given. */
  lemma UntouchedCopyRefused(s: Store, version: nat, reason: string)
    requires Inv(s) && AllDates(s.revisions) && DoCreateDraft(s).Ok? && Baseline(s).Some?
    ensures DoApproveDraft(DoCreateDraft(s).value, version, reason).Err?
  {
    var t := DoCreateDraft(s).value;
    CreateDraftKeeps(s);
    CreateDraftDates(s);
    var b, n := Find(s.revisions, Approved).value, |s.revisions|;
    FindIsIt(t.revisions, Draft, n);
    FindIsIt(t.revisions, Approved, b);
    assert Entries(t.revisions[n].lines) == Entries(t.revisions[b].lines);
    ApprovalExact(t, version, reason);
  }

  lemma BaselineIs(s: Store, i: nat)
    requires AtMostOne(s.revisions, Approved) && i < |s.revisions| && s.revisions[i].status == Approved
    ensures Baseline(s) == Some(Entries(s.revisions[i].lines))
  {
    FindIsIt(s.revisions, Approved, i);
  }

  lemma ReplacedIsSuperseded(rs: seq<Revision>, d: nat, reason: string, i: nat)
    requires d < |rs| && rs[d].status == Draft && AtMostOne(rs, Approved) && i < |rs| && rs[i].status == Approved
    ensures Approving(rs, d, reason)[i].status == Superseded
  {
    FindIsIt(rs, Approved, i);
  }

  lemma ApprovingEffect(s: Store, d: nat, reason: string, t: Store)
    requires Inv(s) && d < |s.revisions| && s.revisions[d].status == Draft && t == s.(revisions := Approving(s.revisions, d, reason))
    ensures Find(t.revisions, Draft).None? && Baseline(t) == Some(Entries(s.revisions[d].lines))
    ensures forall i :: 0 <= i < |s.revisions| && s.revisions[i].status == Approved ==> t.revisions[i].status == Superseded
  {
    ApprovingKeeps(s.revisions, d, reason);
    BaselineIs(t, d);
    forall i | 0 <= i < |s.revisions| && s.revisions[i].status == Approved ensures t.revisions[i].status == Superseded {
      ReplacedIsSuperseded(s.revisions, d, reason, i);
    }
  }

  /** Approving makes the draft's entries the baseline, leaves no draft, and supersedes the baseline it replaces. */
  lemma ApprovalEffect(s: Store, version: nat, reason: string, t: Store)
    requires Inv(s) && DoApproveDraft(s, version, reason) == Ok(t)
    ensures Find(s.revisions, Draft).Some? && Find(t.revisions, Draft).None?
    ensures Baseline(t) == Some(Entries(s.revisions[Find(s.revisions, Draft).value].lines))
    ensures |t.revisions| == |s.revisions|
    ensures forall i :: 0 <= i < |s.revisions| && s.revisions[i].status == Approved ==> t.revisions[i].status == Superseded
  {
    var d, given := ApprovedRevisions(s, version, reason, t);
    ApprovingEffect(s, d, given, t);
  }

  /** A draft becomes the baseline for the reason, the baseline is superseded, anything else stays. */
  function Approval(r: Revision, reason: string): Revision {
    match r.status
    case Draft => r.(status := Approved, version := r.version + 1, reason := reason)
    case Approved => r.(status := Superseded, version := r.version + 1)
    case _ => r
  }

  lemma ApprovingAt(rs: seq<Revision>, d: nat, given: string)
    requires d < |rs| && rs[d].status == Draft && AtMostOne(rs, Draft) && AtMostOne(rs, Approved)
    ensures forall i :: 0 <= i < |rs| ==> Approving(rs, d, given)[i] == Approval(rs[i], given)
  {
    forall i | 0 <= i < |rs| ensures Approving(rs, d, given)[i] == Approval(rs[i], given) {
      if rs[i].status == Draft {
        FindIsIt(rs, Draft, i);
        FindIsIt(rs, Draft, d);
      } else if rs[i].status == Approved {
        FindIsIt(rs, Approved, i);
      }
    }
  }

  /** What each operation on a whole draft leaves of every revision: the one or two it is about move on by a version, the others stay. */
  lemma ApprovalMoves(s: Store, version: nat, reason: string, t: Store) returns (given: string)
    requires AtMostOne(s.revisions, Draft) && AtMostOne(s.revisions, Approved) && DoApproveDraft(s, version, reason) == Ok(t)
    ensures given == if Baseline(s) == None then "" else reason
    ensures |t.revisions| == |s.revisions| && forall i :: 0 <= i < |s.revisions| ==> t.revisions[i] == Approval(s.revisions[i], given)
    ensures t == s.(revisions := t.revisions)
  {
    var d;
    d, given := ApprovedRevisions(s, version, reason, t);
    ApprovingAt(s.revisions, d, given);
  }

  lemma DiscardMoves(s: Store, version: nat, t: Store, i: nat)
    requires Inv(s) && DoDiscardDraft(s, version) == Ok(t) && i < |s.revisions|
    ensures |t.revisions| == |s.revisions| && t.items == s.items && t.works == s.works && t.parts == s.parts && t.nextLine == s.nextLine
    ensures var r := s.revisions[i];
            t.revisions[i] == if r.status == Draft then r.(status := Discarded, version := version + 1) else r
  {
    if s.revisions[i].status == Draft {
      FindIsIt(s.revisions, Draft, i);
    }
  }

  lemma CreationMoves(s: Store, t: Store)
    requires Inv(s) && DoCreateDraft(s) == Ok(t)
    ensures |t.revisions| == |s.revisions| + 1 && t.revisions[..|s.revisions|] == s.revisions
    ensures t.items == s.items && t.works == s.works && t.parts == s.parts
    ensures var r := t.revisions[|s.revisions|];
            && r.status == Draft && r.version == 1 && r.reason == "" && r.basedOn == Find(s.revisions, Approved)
            && Entries(r.lines) == (if Baseline(s) == None then [] else Baseline(s).value)
            && forall n :: 0 <= n < |r.lines| ==> r.lines[n].id == s.nextLine + n && r.lines[n].version == 1
  {
  }

  lemma RunLast(cs: seq<Command>, c: Command)
    ensures Run(NEW_OBJECT, cs + [c]) == After(Run(NEW_OBJECT, cs), c)
  {
    assert (cs + [c])[..|cs|] == cs;
  }

  lemma WorldSteps(s: Store, w: Work, part: Part)
    ensures After(s, CreateWork(w)) == s.(works := s.works + {w})
    ensures After(s, CreateUnit(part, w)) == s.(parts := if w in s.works && part !in s.parts then s.parts[part := w] else s.parts)
  {
  }

  /** Works and units come from outside, after any run; a new unit needs its work and a number of its own. */
  lemma WorksAndUnitsAppear(cs: seq<Command>, s: Store, w: Work, part: Part)
    requires s == Run(NEW_OBJECT, cs)
    ensures Run(NEW_OBJECT, cs + [CreateWork(w)]) == s.(works := s.works + {w})
    ensures Run(NEW_OBJECT, cs + [CreateUnit(part, w)]) == s.(parts := if w in s.works && part !in s.parts then s.parts[part := w] else s.parts)
  {
    RunLast(cs, CreateWork(w));
    RunLast(cs, CreateUnit(part, w));
    WorldSteps(s, w, part);
  }

  // ---------------------------------------------------------------- what one operation undoes of another

  /** A draft is opened exactly when there is none. It shows no change against the baseline, which stays, as does every revision before it. */
  lemma CreatedDraftIsCopy(s: Store)
    requires Inv(s)
    ensures DoCreateDraft(s).Ok? <==> forall i :: 0 <= i < |s.revisions| ==> s.revisions[i].status != Draft
    ensures DoCreateDraft(s).Ok? ==>
              var t, n := DoCreateDraft(s).value, |s.revisions|;
              && Find(t.revisions, Draft) == Some(n) && t.revisions[..n] == s.revisions && Baseline(t) == Baseline(s)
              && (Baseline(s).Some? ==> Diff(Baseline(s).value, Entries(t.revisions[n].lines)) == [])
              && (Baseline(s).None? ==> t.revisions[n].lines == [])
  {
    if DoCreateDraft(s).Ok? {
      var t, n := DoCreateDraft(s).value, |s.revisions|;
      CreateDraftKeeps(s);
      FindIsIt(t.revisions, Draft, n);
      if Baseline(s).Some? {
        var b := Find(s.revisions, Approved).value;
        BaselineIs(t, b);
        assert Entries(t.revisions[n].lines) == Entries(s.revisions[b].lines);
        assert GoodEntries(s.items, Entries(s.revisions[b].lines));
        DiffEmptyExactly(Entries(s.revisions[b].lines), Entries(s.revisions[b].lines));
      }
    }
  }

  /** Discarding gives up the draft alone: the baseline and all entries stay, and a new draft can be opened at once. */
  lemma DiscardLeavesBaseline(s: Store, version: nat)
    requires Inv(s) && DoDiscardDraft(s, version).Ok?
    ensures var t, d := DoDiscardDraft(s, version).value, Find(s.revisions, Draft).value;
            && Inv(t) && Find(t.revisions, Draft).None? && Baseline(t) == Baseline(s) && DoCreateDraft(t).Ok?
            && t.revisions[d].status == Discarded && t.revisions[d].lines == s.revisions[d].lines
            && forall i :: 0 <= i < |s.revisions| && i != d ==> t.revisions[i] == s.revisions[i]
  {
    var t, d := DoDiscardDraft(s, version).value, Find(s.revisions, Draft).value;
    DiscardDraftKeeps(s, version);
    forall i | 0 <= i < |s.revisions| && i != d ensures t.revisions[i].status != Draft { assert s.revisions[i].status != Draft; }
    if Baseline(s).Some? {
      BaselineIs(t, Find(s.revisions, Approved).value);
    } else {
      assert forall i :: 0 <= i < |t.revisions| ==> t.revisions[i].status != Approved;
    }
  }

  /** Identifiers of lines are drawn once. */
  ghost predicate LinesFresh(s: Store) {
    forall i, j :: 0 <= i < |s.revisions| && 0 <= j < |s.revisions[i].lines| ==> s.revisions[i].lines[j].id < s.nextLine
  }

  lemma DraftLinesFresh(s: Store, d: nat, r: Revision, next: nat)
    requires LinesFresh(s) && d < |s.revisions| && next >= s.nextLine && forall j :: 0 <= j < |r.lines| ==> r.lines[j].id < next
    ensures LinesFresh(s.(revisions := s.revisions[d := r], nextLine := next))
  {
  }

  lemma AppendedFresh(s: Store, d: nat, line: Line, items: map<Item, Scope>)
    requires LinesFresh(s) && d < |s.revisions| && line.id == s.nextLine
    ensures LinesFresh(Appended(s, d, line, items))
  {
  }

  lemma AddEntryFresh(s: Store, c: Command, t: Store)
    requires LinesFresh(s) && c.AddEntry? && DoAddEntry(s, c) == Ok(t)
    ensures LinesFresh(t)
  {
    var d, line, items := AddedLine(s, c, t);
    AppendedFresh(s, d, line, items);
  }

  lemma RewrittenFresh(s: Store, at: Position, e: Entry)
    requires LinesFresh(s) && at.revision < |s.revisions| && at.line < |s.revisions[at.revision].lines|
    ensures LinesFresh(s.(revisions := Rewritten(s.revisions, at, e)))
  {
  }

  lemma EditEntryFresh(s: Store, c: Command, t: Store)
    requires LinesFresh(s) && c.EditEntry? && DoEditEntry(s, c) == Ok(t)
    ensures LinesFresh(t)
  {
    var at, e := EditedLine(s, c, t);
    RewrittenFresh(s, at, e);
  }

  lemma RemoveEntryFresh(s: Store, c: Command)
    requires LinesFresh(s) && c.RemoveEntry? && DoRemoveEntry(s, c).Ok?
    ensures LinesFresh(DoRemoveEntry(s, c).value)
  {
    var t, d := DoRemoveEntry(s, c).value, DraftEntry(s, c.line, c.version).value.revision;
    DraftLinesFresh(s, d, t.revisions[d], t.nextLine);
  }

  lemma ApproveDraftFresh(s: Store, version: nat, reason: string, t: Store)
    requires LinesFresh(s) && DoApproveDraft(s, version, reason) == Ok(t)
    ensures LinesFresh(t)
  {
    var d, given := ApprovedRevisions(s, version, reason, t);
    ApprovingKeepsLines(s.revisions, d, given);
  }

  lemma StepKeepsFresh(s: Store, c: Command)
    requires LinesFresh(s)
    ensures LinesFresh(After(s, c))
  {
    if Step(s, c).Ok? {
      match c
      case CreateDraft =>
      case AddEntry(_, _, _, _, _, _, _) => AddEntryFresh(s, c, After(s, c));
      case EditEntry(_, _, _, _, _, _) => EditEntryFresh(s, c, After(s, c));
      case RemoveEntry(_, _) => RemoveEntryFresh(s, c);
      case DiscardDraft(version) =>
      case ApproveDraft(version, reason) => ApproveDraftFresh(s, version, reason, After(s, c));
      case CreateUnit(_, _) =>
      case CreateWork(_) =>
    }
  }

  lemma {:induction false} ReachableLinesAreFresh(cs: seq<Command>)
    ensures LinesFresh(Run(NEW_OBJECT, cs))
  {
    if cs != [] {
      ReachableLinesAreFresh(cs[..|cs| - 1]);
      StepKeepsFresh(Run(NEW_OBJECT, cs[..|cs| - 1]), cs[|cs| - 1]);
    }
  }

  lemma LocateOnly(rs: seq<Revision>, p: Position, id: nat)
    requires p.revision < |rs| && p.line < |rs[p.revision].lines| && rs[p.revision].lines[p.line].id == id
    requires forall i, j :: 0 <= i < |rs| && 0 <= j < |rs[i].lines| && Position(i, j) != p ==> rs[i].lines[j].id != id
    ensures Locate(rs, id) == Some(p)
  {
    var r := Locate(rs, id);
    assert r.Some?;
    assert rs[r.value.revision].lines[r.value.line].id == id;
  }

  /** What was just added stands at the end of the draft, alone under its identifier. */
  lemma AddedIsLocated(s: Store, d: nat, line: Line, items: map<Item, Scope>)
    requires LinesFresh(s) && d < |s.revisions| && s.revisions[d].status == Draft && line.id == s.nextLine && line.version == 1
    ensures DraftEntry(Appended(s, d, line, items), s.nextLine, 1) == Ok(Position(d, |s.revisions[d].lines|))
  {
    var rs, n := Appended(s, d, line, items).revisions, |s.revisions[d].lines|;
    forall i, j | 0 <= i < |rs| && 0 <= j < |rs[i].lines| && Position(i, j) != Position(d, n) ensures rs[i].lines[j].id != s.nextLine {
      assert s.revisions[i].lines[j].id < s.nextLine;
    }
    LocateOnly(rs, Position(d, n), s.nextLine);
  }

  /** Nothing follows an item that is not in the list, and a new entry does not follow itself. */
  lemma NewItemIsNotFollowed(es: seq<Entry>, e: Entry)
    requires !MissesPredecessor(es) && !Contains(es, e.item) && (e.predecessor.Some? ==> Contains(es, e.predecessor.value))
    ensures !IsFollowed(es + [e], e.item)
  {
    var more := es + [e];
    forall i | 0 <= i < |more| ensures more[i].predecessor != Some(e.item) {
      if i < |es| && es[i].predecessor.Some? {
        assert Contains(es, es[i].predecessor.value);
      }
    }
  }

  lemma AppendedIsNotFollowed(s: Store, d: nat, line: Line)
    requires Inv(s) && d < |s.revisions|
    requires var es := Entries(s.revisions[d].lines);
             !Contains(es, line.entry.item) && (line.entry.predecessor.Some? ==> Contains(es, line.entry.predecessor.value))
    ensures !IsFollowed(Entries(s.revisions[d].lines + [line]), line.entry.item)
  {
    var es := Entries(s.revisions[d].lines);
    assert GoodEntries(s.items, es);
    EntriesSnoc(s.revisions[d].lines, line);
    NewItemIsNotFollowed(es, line.entry);
  }

  lemma LastLineDropped(rs: seq<Revision>, d: nat, line: Line)
    requires d < |rs|
    ensures var n := |rs[d].lines|;
            var more := rs[d := Touched(rs[d], rs[d].lines + [line])];
            more[d := Touched(more[d], more[d].lines[..n] + more[d].lines[n + 1..])] == rs[d := rs[d].(version := rs[d].version + 2)]
  {
    var lines := rs[d].lines;
    assert (lines + [line])[..|lines|] + (lines + [line])[|lines| + 1..] == lines;
  }

  lemma RemoveAppended(s: Store, d: nat, line: Line, items: map<Item, Scope>)
    requires Inv(s) && LinesFresh(s) && d < |s.revisions| && s.revisions[d].status == Draft && line.id == s.nextLine && line.version == 1
    requires var es := Entries(s.revisions[d].lines);
             !Contains(es, line.entry.item) && (line.entry.predecessor.Some? ==> Contains(es, line.entry.predecessor.value))
    ensures var r := DoRemoveEntry(Appended(s, d, line, items), RemoveEntry(s.nextLine, 1));
            r.Ok? && r.value.revisions == s.revisions[d := s.revisions[d].(version := s.revisions[d].version + 2)]
  {
    AddedIsLocated(s, d, line, items);
    AppendedIsNotFollowed(s, d, line);
    LastLineDropped(s.revisions, d, line);
  }

  lemma RemoveUndoesAdd(s: Store, c: Command, t: Store) returns (d: nat)
    requires Inv(s) && LinesFresh(s) && c.AddEntry? && DoAddEntry(s, c) == Ok(t)
    ensures Find(s.revisions, Draft) == Some(d)
    ensures var r := DoRemoveEntry(t, RemoveEntry(s.nextLine, 1));
            r.Ok? && r.value.revisions == s.revisions[d := s.revisions[d].(version := s.revisions[d].version + 2)]
  {
    var line, items;
    d, line, items := AddedLine(s, c, t);
    RemoveAppended(s, d, line, items);
  }

  /** In every reachable schedule, adding an entry and removing it again brings back every revision; only the draft's version tells. */
  lemma AddThenRemove(cs: seq<Command>, s: Store, c: Command, t: Store) returns (d: nat)
    requires s == Run(NEW_OBJECT, cs) && c.AddEntry? && DoAddEntry(s, c) == Ok(t)
    ensures Find(s.revisions, Draft) == Some(d)
    ensures var r := DoRemoveEntry(t, RemoveEntry(s.nextLine, 1));
            r.Ok? && r.value.revisions == s.revisions[d := s.revisions[d].(version := s.revisions[d].version + 2)]
  {
    ReachableSchedulesAreGood(cs);
    ReachableLinesAreFresh(cs);
    d := RemoveUndoesAdd(s, c, t);
  }

  // ---------------------------------------------------------------- each line has its own number

  /** No two lines of the object share a number. */
  ghost predicate LinesDistinct(rs: seq<Revision>) {
    forall p, q :: Stands(rs, p) && Stands(rs, q) && NumberAt(rs, p) == NumberAt(rs, q) ==> p == q
  }

  predicate Stands(rs: seq<Revision>, p: Position) { p.revision < |rs| && p.line < |rs[p.revision].lines| }

  function NumberAt(rs: seq<Revision>, p: Position): nat
    requires Stands(rs, p)
  {
    rs[p.revision].lines[p.line].id
  }

  /** The lines after a step are among those before, moved at most within their revision, or have new numbers. */
  lemma DistinctAfter(s: Store, d: nat, r: Revision, from: seq<nat>)
    requires LinesDistinct(s.revisions) && LinesFresh(s) && d < |s.revisions| && |from| == |r.lines|
    requires forall j :: 0 <= j < |r.lines| && from[j] < |s.revisions[d].lines| ==> r.lines[j].id == s.revisions[d].lines[from[j]].id
    requires forall j :: 0 <= j < |r.lines| && from[j] >= |s.revisions[d].lines| ==> r.lines[j].id >= s.nextLine
    requires forall i, j :: 0 <= i < j < |r.lines| ==> from[i] != from[j]
    requires forall i, j :: 0 <= i < j < |r.lines| && from[i] >= |s.revisions[d].lines| && from[j] >= |s.revisions[d].lines| ==> r.lines[i].id != r.lines[j].id
    ensures LinesDistinct(s.revisions[d := r])
  {
    var rs := s.revisions[d := r];
    forall p, q | Stands(rs, p) && Stands(rs, q) && NumberAt(rs, p) == NumberAt(rs, q) ensures p == q {
      var p', q' := Origin(p, d, from), Origin(q, d, from);
      assert Stands(s.revisions, p') ==> NumberAt(s.revisions, p') == NumberAt(rs, p);
      assert Stands(s.revisions, q') ==> NumberAt(s.revisions, q') == NumberAt(rs, q);
      if Stands(s.revisions, p') && Stands(s.revisions, q') {
        assert p' == q';
      }
    }
  }

  function Origin(p: Position, d: nat, from: seq<nat>): Position
    requires p.revision == d ==> p.line < |from|
  {
    if p.revision == d then Position(d, from[p.line]) else p
  }

  lemma CreateDraftDistinct(s: Store)
    requires LinesDistinct(s.revisions) && LinesFresh(s) && DoCreateDraft(s).Ok?
    ensures LinesDistinct(DoCreateDraft(s).value.revisions)
  {
    var rs, n := DoCreateDraft(s).value.revisions, |s.revisions|;
    forall p | Stands(rs, p) ensures NumberAt(rs, p) < s.nextLine <==> p.revision < n {
      if p.revision < n {
        assert s.revisions[p.revision].lines[p.line].id < s.nextLine;
      }
    }
    forall p, q | Stands(rs, p) && Stands(rs, q) && NumberAt(rs, p) == NumberAt(rs, q) ensures p == q {
      assert p.revision < n <==> q.revision < n;
      if p.revision < n {
        assert Stands(s.revisions, p) && Stands(s.revisions, q) && NumberAt(s.revisions, p) == NumberAt(s.revisions, q);
      }
    }
  }

  lemma AddEntryDistinct(s: Store, c: Command, t: Store)
    requires LinesDistinct(s.revisions) && LinesFresh(s) && c.AddEntry? && DoAddEntry(s, c) == Ok(t)
    ensures LinesDistinct(t.revisions)
  {
    var d, line, items := AddedLine(s, c, t);
    var n := |s.revisions[d].lines|;
    DistinctAfter(s, d, t.revisions[d], seq(n + 1, j => j));
  }

  lemma RewrittenDistinct(s: Store, at: Position, e: Entry)
    requires LinesDistinct(s.revisions) && LinesFresh(s) && at.revision < |s.revisions| && at.line < |s.revisions[at.revision].lines|
    ensures LinesDistinct(Rewritten(s.revisions, at, e))
  {
    DistinctAfter(s, at.revision, Rewritten(s.revisions, at, e)[at.revision], seq(|s.revisions[at.revision].lines|, j => j));
  }

  lemma EditEntryDistinct(s: Store, c: Command, t: Store)
    requires LinesDistinct(s.revisions) && LinesFresh(s) && c.EditEntry? && DoEditEntry(s, c) == Ok(t)
    ensures LinesDistinct(t.revisions)
  {
    var at, e := EditedLine(s, c, t);
    RewrittenDistinct(s, at, e);
  }

  lemma RemovedDistinct(s: Store, d: nat, n: nat)
    requires LinesDistinct(s.revisions) && LinesFresh(s) && d < |s.revisions| && n < |s.revisions[d].lines|
    ensures LinesDistinct(s.revisions[d := Touched(s.revisions[d], s.revisions[d].lines[..n] + s.revisions[d].lines[n + 1..])])
  {
    var lines := s.revisions[d].lines;
    DistinctAfter(s, d, Touched(s.revisions[d], lines[..n] + lines[n + 1..]), seq(|lines| - 1, j => if j < n then j else j + 1));
  }

  lemma RemoveEntryDistinct(s: Store, c: Command)
    requires LinesDistinct(s.revisions) && LinesFresh(s) && c.RemoveEntry? && DoRemoveEntry(s, c).Ok?
    ensures LinesDistinct(DoRemoveEntry(s, c).value.revisions)
  {
    var at := DraftEntry(s, c.line, c.version).value;
    RemovedDistinct(s, at.revision, at.line);
  }

  lemma SameLinesDistinct(rs: seq<Revision>, ts: seq<Revision>)
    requires LinesDistinct(rs) && |ts| == |rs| && forall i :: 0 <= i < |rs| ==> ts[i].lines == rs[i].lines
    ensures LinesDistinct(ts)
  {
    forall p, q | Stands(ts, p) && Stands(ts, q) && NumberAt(ts, p) == NumberAt(ts, q) ensures p == q {
      assert Stands(rs, p) && Stands(rs, q) && NumberAt(rs, p) == NumberAt(rs, q);
    }
  }

  lemma ApproveDraftDistinct(s: Store, version: nat, reason: string, t: Store)
    requires LinesDistinct(s.revisions) && DoApproveDraft(s, version, reason) == Ok(t)
    ensures LinesDistinct(t.revisions)
  {
    var d, given := ApprovedRevisions(s, version, reason, t);
    ApprovingKeepsLines(s.revisions, d, given);
    SameLinesDistinct(s.revisions, t.revisions);
  }

  lemma StepKeepsDistinct(s: Store, c: Command)
    requires LinesDistinct(s.revisions) && LinesFresh(s)
    ensures LinesDistinct(After(s, c).revisions)
  {
    if Step(s, c).Ok? {
      match c
      case CreateDraft => CreateDraftDistinct(s);
      case AddEntry(_, _, _, _, _, _, _) => AddEntryDistinct(s, c, After(s, c));
      case EditEntry(_, _, _, _, _, _) => EditEntryDistinct(s, c, After(s, c));
      case RemoveEntry(_, _) => RemoveEntryDistinct(s, c);
      case DiscardDraft(version) => SameLinesDistinct(s.revisions, After(s, c).revisions);
      case ApproveDraft(version, reason) => ApproveDraftDistinct(s, version, reason, After(s, c));
      case CreateUnit(_, _) =>
      case CreateWork(_) =>
    }
  }

  lemma {:induction false} ReachableLinesAreDistinct(cs: seq<Command>)
    ensures LinesDistinct(Run(NEW_OBJECT, cs).revisions)
  {
    if cs != [] {
      ReachableLinesAreDistinct(cs[..|cs| - 1]);
      ReachableLinesAreFresh(cs[..|cs| - 1]);
      StepKeepsDistinct(Run(NEW_OBJECT, cs[..|cs| - 1]), cs[|cs| - 1]);
    }
  }

  // ---------------------------------------------------------------- exactly when an operation goes through

  /** The dates of an entry: two dates of the schedule's years, the second not before the first. */
  ghost predicate DatesFit(start: string, finish: string) {
    && IsCivilDate(start) && IsCivilDate(finish) && !StringLess(finish, start)
    && !StringLess(start, "2000-01-01") && !StringLess("2100-12-31", finish)
  }

  lemma DatesExactly(start: string, finish: string)
    ensures DatesOk(start, finish) <==> DatesFit(start, finish)
  {
    ScheduleRangeExactly(start);
    ScheduleRangeExactly(finish);
    if IsCivilDate(start) && IsCivilDate(finish) {
      StringOrderIsDayOrder(finish, start);
      DateOrderCarries("2000-01-01", start, finish);
      DateOrderCarries(start, finish, "2100-12-31");
    }
  }

  lemma DateOrderCarries(a: string, b: string, c: string)
    ensures !StringLess(b, a) && !StringLess(c, b) ==> !StringLess(c, a)
  {
    StringLessTotal(a, b);
    StringLessTotal(b, c);
    if StringLess(a, b) && StringLess(b, c) {
      StringLessTransitive(a, b, c);
      StringLessAsymmetric(a, c);
    }
    StringLessAsymmetric(a, b);
    StringLessAsymmetric(b, c);
    NotLessThanItself(a);
  }

  /** The line of that number and version is in the draft, there. */
  ghost predicate InDraft(s: Store, p: Position, number: nat, version: nat) {
    && Stands(s.revisions, p) && s.revisions[p.revision].status == Draft
    && s.revisions[p.revision].lines[p.line].id == number && s.revisions[p.revision].lines[p.line].version == version
  }

  lemma DraftEntryExactly(s: Store, number: nat, version: nat)
    requires LinesDistinct(s.revisions)
    ensures forall p :: DraftEntry(s, number, version) == Ok(p) <==> InDraft(s, p, number, version)
  {
    forall p ensures DraftEntry(s, number, version) == Ok(p) <==> InDraft(s, p, number, version) {
      var at := Locate(s.revisions, number);
      if at.Some? && Stands(s.revisions, p) && NumberAt(s.revisions, p) == number {
        assert Stands(s.revisions, at.value) && NumberAt(s.revisions, at.value) == number;
        assert at.value == p;
      }
    }
  }

  /** An entry of the list stands for the scope. */
  ghost predicate Scheduled(items: map<Item, Scope>, es: seq<Entry>, scope: Scope) {
    exists i :: 0 <= i < |es| && es[i].item in items && items[es[i].item] == scope
  }

  /** What adding an entry to a draft with these entries needs, its dates aside. */
  ghost predicate AddableDatesAside(s: Store, es: seq<Entry>, c: Command)
    requires c.AddEntry?
  {
    && c.work in s.works && (forall p :: c.part == Some(p) ==> p in s.parts && s.parts[p] == c.work)
    && (c.part != None ==> !Scheduled(s.items, es, Scope(c.work, None)))
    && (c.part == None ==> forall p :: p in s.parts ==> s.parts[p] != c.work)
    && !Scheduled(s.items, es, Scope(c.work, c.part))
    && (forall k :: c.predecessor == Some(k) ==> exists i :: 0 <= i < |es| && es[i].item == k)
    && ((forall k :: k in s.items ==> s.items[k] != Scope(c.work, c.part)) ==> c.newItem !in s.items && c.newItem != "")
  }

  ghost predicate Addable(s: Store, es: seq<Entry>, c: Command)
    requires c.AddEntry?
  {
    AddableDatesAside(s, es, c) && DatesFit(c.start, c.finish)
  }

  lemma ItemIsScheduled(items: map<Item, Scope>, es: seq<Entry>, scope: Scope, newItem: Item)
    requires ItemsKnown(items, es) && forall a, b :: a in items && b in items && items[a] == items[b] ==> a == b
    requires !IsKnown(items, scope) ==> newItem !in items
    ensures Contains(es, ItemFor(items, scope, newItem)) <==> Scheduled(items, es, scope)
  {
    var item := ItemFor(items, scope, newItem);
    if IsKnown(items, scope) {
      assert StandsFor(items, item, scope);
    } else {
      forall i | 0 <= i < |es| ensures es[i].item in items && items[es[i].item] != scope { assert !StandsFor(items, es[i].item, scope); }
    }
    if Scheduled(items, es, scope) {
      var i :| 0 <= i < |es| && es[i].item in items && items[es[i].item] == scope;
      assert StandsFor(items, es[i].item, scope);
      assert es[i].item == item;
    }
  }

  lemma InsertedExactly(s: Store, c: Command, d: nat)
    requires ItemsFit(s) && c.AddEntry? && d < |s.revisions| && ItemsKnown(s.items, Entries(s.revisions[d].lines))
    ensures var es := Entries(s.revisions[d].lines);
            Inserted(s, c, d).Ok? <==>
              && !Scheduled(s.items, es, Scope(c.work, c.part))
              && (forall k :: c.predecessor == Some(k) ==> exists i :: 0 <= i < |es| && es[i].item == k)
              && ((forall k :: k in s.items ==> s.items[k] != Scope(c.work, c.part)) ==> c.newItem !in s.items && c.newItem != "")
  {
    var es, scope := Entries(s.revisions[d].lines), Scope(c.work, c.part);
    assert IsKnown(s.items, scope) <==> !(forall k :: k in s.items ==> s.items[k] != scope) by {
      if !(forall k :: k in s.items ==> s.items[k] != scope) {
        var k :| k in s.items && s.items[k] == scope;
        assert StandsFor(s.items, k, scope);
      }
    }
    if IsKnown(s.items, scope) || (c.newItem !in s.items && c.newItem != "") {
      ItemIsScheduled(s.items, es, scope, c.newItem);
    }
  }

  /** The checks before the insertion, in the operation's own words. */
  lemma AddChecks(s: Store, c: Command, d: nat)
    requires c.AddEntry? && Find(s.revisions, Draft) == Some(d)
    ensures var es := Entries(s.revisions[d].lines);
            DoAddEntry(s, c).Ok? <==>
              && c.work in s.works && (c.part.Some? ==> c.part.value in s.parts && s.parts[c.part.value] == c.work)
              && DatesOk(c.start, c.finish)
              && (c.part.Some? ==> !WorkInWhole(s.items, es, c.work)) && (c.part.None? ==> !WorkHasParts(s.parts, c.work))
              && Inserted(s, c, d).Ok?
  {
  }

  lemma WholeIsScheduled(items: map<Item, Scope>, es: seq<Entry>, w: Work)
    ensures WorkInWhole(items, es, w) <==> Scheduled(items, es, Scope(w, None))
  {
  }

  lemma AddableAside(s: Store, c: Command, d: nat)
    requires ItemsFit(s) && c.AddEntry? && d < |s.revisions| && ItemsKnown(s.items, Entries(s.revisions[d].lines))
    ensures var es := Entries(s.revisions[d].lines);
            AddableDatesAside(s, es, c) <==>
              && c.work in s.works && (c.part.Some? ==> c.part.value in s.parts && s.parts[c.part.value] == c.work)
              && (c.part.Some? ==> !WorkInWhole(s.items, es, c.work)) && (c.part.None? ==> !WorkHasParts(s.parts, c.work))
              && Inserted(s, c, d).Ok?
  {
    WholeIsScheduled(s.items, Entries(s.revisions[d].lines), c.work);
    InsertedExactly(s, c, d);
  }

  lemma AddableExactly(s: Store, c: Command, d: nat)
    requires ItemsFit(s) && c.AddEntry? && Find(s.revisions, Draft) == Some(d) && ItemsKnown(s.items, Entries(s.revisions[d].lines))
    ensures DoAddEntry(s, c).Ok? <==> Addable(s, Entries(s.revisions[d].lines), c)
  {
    AddChecks(s, c, d);
    AddableAside(s, c, d);
    DatesExactly(c.start, c.finish);
  }

  lemma AddExactly(s: Store, c: Command)
    requires Inv(s) && c.AddEntry?
    ensures DoAddEntry(s, c).Ok? <==> exists d :: 0 <= d < |s.revisions| && s.revisions[d].status == Draft && Addable(s, Entries(s.revisions[d].lines), c)
  {
    forall d | 0 <= d < |s.revisions| && s.revisions[d].status == Draft ensures DoAddEntry(s, c).Ok? <==> Addable(s, Entries(s.revisions[d].lines), c) {
      FindIsIt(s.revisions, Draft, d);
      assert GoodEntries(s.items, Entries(s.revisions[d].lines));
      AddableExactly(s, c, d);
    }
    assert DoAddEntry(s, c).Ok? ==> Find(s.revisions, Draft).Some?;
  }

  /** What giving an entry a new reference needs: another entry of the draft, and no cycle with it. */
  ghost predicate Referable(es: seq<Entry>, n: nat, reference: Reference)
    requires n < |es|
  {
    forall k :: reference == Set(Some(k)) ==>
      && k != es[n].item && (exists i :: 0 <= i < |es| && es[i].item == k)
      && !HasCycle(NextOf(Links(es[n := es[n].(predecessor := Some(k))])))
  }

  lemma ReferenceExactly(es: seq<Entry>, n: nat, reference: Reference)
    requires n < |es|
    ensures ReferenceProblem(es, n, reference).None? <==> Referable(es, n, reference)
  {
  }

  /** What an edit of the line needs. */
  ghost predicate Editable(lines: seq<Line>, n: nat, c: Command)
    requires n < |lines| && c.EditEntry?
  {
    && Referable(Entries(lines), n, c.reference)
    && DatesFit(match c.newStart case Some(x) => x case None => lines[n].entry.start,
                match c.newFinish case Some(x) => x case None => lines[n].entry.finish)
  }

  lemma EditChecks(s: Store, c: Command, at: Position)
    requires c.EditEntry? && DraftEntry(s, c.line, c.version) == Ok(at)
    ensures var lines := s.revisions[at.revision].lines;
            var e := Edited(lines[at.line].entry, c);
            DoEditEntry(s, c).Ok? <==> DatesOk(e.start, e.finish) && ReferenceProblem(Entries(lines), at.line, c.reference).None?
  {
  }

  lemma EditableExactly(s: Store, c: Command, at: Position)
    requires c.EditEntry? && DraftEntry(s, c.line, c.version) == Ok(at)
    ensures DoEditEntry(s, c).Ok? <==> Editable(s.revisions[at.revision].lines, at.line, c)
  {
    var lines := s.revisions[at.revision].lines;
    var e := Edited(lines[at.line].entry, c);
    EditChecks(s, c, at);
    DatesExactly(e.start, e.finish);
    ReferenceExactly(Entries(lines), at.line, c.reference);
  }

  lemma EditExactly(s: Store, c: Command)
    requires LinesDistinct(s.revisions) && c.EditEntry?
    ensures DoEditEntry(s, c).Ok? <==> exists p :: InDraft(s, p, c.line, c.version) && Editable(s.revisions[p.revision].lines, p.line, c)
  {
    DraftEntryExactly(s, c.line, c.version);
    var at := DraftEntry(s, c.line, c.version);
    if at.Ok? {
      EditableExactly(s, c, at.value);
      assert InDraft(s, at.value, c.line, c.version);
    }
  }

  lemma RemoveExactly(s: Store, c: Command)
    requires LinesDistinct(s.revisions) && c.RemoveEntry?
    ensures DoRemoveEntry(s, c).Ok? <==>
            exists p :: InDraft(s, p, c.line, c.version)
              && var lines := s.revisions[p.revision].lines;
                 forall i :: 0 <= i < |lines| ==> lines[i].entry.predecessor != Some(lines[p.line].entry.item)
  {
    DraftEntryExactly(s, c.line, c.version);
    var at := DraftEntry(s, c.line, c.version);
    if at.Ok? {
      var lines := s.revisions[at.value.revision].lines;
      assert IsFollowed(Entries(lines), lines[at.value.line].entry.item) <==>
             exists i :: 0 <= i < |lines| && lines[i].entry.predecessor == Some(lines[at.value.line].entry.item);
    }
  }

  lemma DiscardExactly(s: Store, version: nat)
    requires AtMostOne(s.revisions, Draft)
    ensures DoDiscardDraft(s, version).Ok? <==> exists d :: 0 <= d < |s.revisions| && s.revisions[d].status == Draft && s.revisions[d].version == version
  {
    forall d | 0 <= d < |s.revisions| && s.revisions[d].status == Draft ensures Find(s.revisions, Draft) == Some(d) { FindIsIt(s.revisions, Draft, d); }
  }

  /** What an operation on entries needs, and giving up a draft. */
  ghost predicate EntryAcceptable(s: Store, c: Command)
    requires c.AddEntry? || c.EditEntry? || c.RemoveEntry? || c.DiscardDraft?
  {
    match c
    case AddEntry(_, _, _, _, _, _, _) => exists d :: 0 <= d < |s.revisions| && s.revisions[d].status == Draft && Addable(s, Entries(s.revisions[d].lines), c)
    case EditEntry(number, version, _, _, _, _) => exists p :: InDraft(s, p, number, version) && Editable(s.revisions[p.revision].lines, p.line, c)
    case RemoveEntry(number, version) =>
      exists p :: InDraft(s, p, number, version)
        && var lines := s.revisions[p.revision].lines;
           forall i :: 0 <= i < |lines| ==> lines[i].entry.predecessor != Some(lines[p.line].entry.item)
    case DiscardDraft(version) => exists d :: 0 <= d < |s.revisions| && s.revisions[d].status == Draft && s.revisions[d].version == version
  }

  lemma EntryAccepted(s: Store, c: Command)
    requires (c.AddEntry? && Inv(s)) || ((c.EditEntry? || c.RemoveEntry?) && LinesDistinct(s.revisions)) || (c.DiscardDraft? && AtMostOne(s.revisions, Draft))
    ensures Step(s, c).Ok? <==> EntryAcceptable(s, c)
  {
    match c
    case AddEntry(_, _, _, _, _, _, _) => AddExactly(s, c);
    case EditEntry(_, _, _, _, _, _) => EditExactly(s, c);
    case RemoveEntry(_, _) => RemoveExactly(s, c);
    case DiscardDraft(version) => DiscardExactly(s, version);
  }

  /** Exactly when an entry is added, edited or removed and a draft given up, in every reachable schedule. */
  lemma EntriesAcceptedExactly(cs: seq<Command>, s: Store, c: Command)
    requires s == Run(NEW_OBJECT, cs) && (c.AddEntry? || c.EditEntry? || c.RemoveEntry? || c.DiscardDraft?)
    ensures Step(s, c).Ok? <==> EntryAcceptable(s, c)
  {
    ReachableSchedulesAreGood(cs);
    ReachableLinesAreDistinct(cs);
    EntryAccepted(s, c);
  }

  // ---------------------------------------------------------------- why an operation on entries is refused

  /** What makes the reason true of adding an entry to a draft with these entries. */
  ghost predicate AddRefusable(s: Store, es: seq<Entry>, c: Command, e: Error)
    requires c.AddEntry?
  {
    match e
    case NotFound => c.work !in s.works || exists p :: c.part == Some(p) && (p !in s.parts || s.parts[p] != c.work)
    case Dates => !DatesFit(c.start, c.finish)
    case ScheduledAsWhole => c.part != None && Scheduled(s.items, es, Scope(c.work, None))
    case HasUnits => c.part == None && exists p :: p in s.parts && s.parts[p] == c.work
    case IdentifierTaken => (forall k :: k in s.items ==> s.items[k] != Scope(c.work, c.part)) && (c.newItem in s.items || c.newItem == "")
    case AlreadyScheduled => Scheduled(s.items, es, Scope(c.work, c.part))
    case PredecessorNotInDraft => exists k :: c.predecessor == Some(k) && forall i :: 0 <= i < |es| ==> es[i].item != k
    case _ => false
  }

  lemma InsertRefused(s: Store, c: Command, d: nat)
    requires ItemsFit(s) && c.AddEntry? && d < |s.revisions| && ItemsKnown(s.items, Entries(s.revisions[d].lines)) && Inserted(s, c, d).Err?
    ensures AddRefusable(s, Entries(s.revisions[d].lines), c, Inserted(s, c, d).error)
  {
    var es, scope := Entries(s.revisions[d].lines), Scope(c.work, c.part);
    if !IsKnown(s.items, scope) {
      forall k | k in s.items ensures s.items[k] != scope { assert !StandsFor(s.items, k, scope); }
    }
    if IsKnown(s.items, scope) || (c.newItem !in s.items && c.newItem != "") {
      ItemIsScheduled(s.items, es, scope, c.newItem);
    }
  }

  predicate ScopeKnown(s: Store, c: Command)
    requires c.AddEntry?
  {
    c.work in s.works && (c.part.Some? ==> c.part.value in s.parts && s.parts[c.part.value] == c.work)
  }

  /** The checks before the insertion, in the operation's own words. */
  lemma AddInOrder(s: Store, c: Command, d: nat, es: seq<Entry>, inserted: Result<Store, Error>)
    requires c.AddEntry? && Find(s.revisions, Draft) == Some(d) && ScopeKnown(s, c)
    requires es == Entries(s.revisions[d].lines) && inserted == Inserted(s, c, d)
    ensures DoAddEntry(s, c) ==
            if !DatesOk(c.start, c.finish) then Err(Dates)
            else if c.part.Some? && WorkInWhole(s.items, es, c.work) then Err(ScheduledAsWhole)
            else if c.part.None? && WorkHasParts(s.parts, c.work) then Err(HasUnits)
            else inserted
  {
  }

  lemma AddUnknown(s: Store, c: Command, d: nat)
    requires c.AddEntry? && Find(s.revisions, Draft) == Some(d) && !ScopeKnown(s, c)
    ensures DoAddEntry(s, c) == Err(NotFound)
  {
  }

  lemma KnownRefused(s: Store, c: Command, es: seq<Entry>, inserted: Result<Store, Error>, e: Error)
    requires c.AddEntry? && (inserted == Err(e) ==> AddRefusable(s, es, c, e))
    requires Err(e) == (if !DatesOk(c.start, c.finish) then Err(Dates)
                        else if c.part.Some? && WorkInWhole(s.items, es, c.work) then Err(ScheduledAsWhole)
                        else if c.part.None? && WorkHasParts(s.parts, c.work) then Err(HasUnits)
                        else inserted)
    ensures AddRefusable(s, es, c, e)
  {
    DatesExactly(c.start, c.finish);
    WholeIsScheduled(s.items, es, c.work);
  }

  lemma AddRefused(s: Store, c: Command, d: nat, e: Error)
    requires ItemsFit(s) && c.AddEntry? && Find(s.revisions, Draft) == Some(d) && ItemsKnown(s.items, Entries(s.revisions[d].lines))
    requires DoAddEntry(s, c) == Err(e)
    ensures AddRefusable(s, Entries(s.revisions[d].lines), c, e)
  {
    var es, inserted := Entries(s.revisions[d].lines), Inserted(s, c, d);
    if !ScopeKnown(s, c) {
      AddUnknown(s, c, d);
    } else {
      AddInOrder(s, c, d, es, inserted);
      if inserted == Err(e) {
        InsertRefused(s, c, d);
      }
      KnownRefused(s, c, es, inserted, e);
    }
  }

  /** What makes the reason true of looking for a line of the draft by its number and version. */
  ghost predicate LineRefusable(s: Store, number: nat, version: nat, e: Error) {
    match e
    case NotFound => forall p :: Stands(s.revisions, p) ==> NumberAt(s.revisions, p) != number
    case NotDraft => exists p :: Stands(s.revisions, p) && NumberAt(s.revisions, p) == number && s.revisions[p.revision].status != Draft
    case VersionConflict =>
      exists p :: Stands(s.revisions, p) && NumberAt(s.revisions, p) == number && s.revisions[p.revision].status == Draft
                  && s.revisions[p.revision].lines[p.line].version != version
    case _ => false
  }

  lemma LineRefused(s: Store, number: nat, version: nat)
    requires DraftEntry(s, number, version).Err?
    ensures LineRefusable(s, number, version, DraftEntry(s, number, version).error)
  {
    var at := Locate(s.revisions, number);
    if at.Some? {
      assert Stands(s.revisions, at.value) && NumberAt(s.revisions, at.value) == number;
    }
  }

  /** What makes the reason true of editing or removing the line at `n`. */
  ghost predicate ChangeRefusable(lines: seq<Line>, n: nat, c: Command, e: Error)
    requires n < |lines| && (c.EditEntry? || c.RemoveEntry?)
  {
    match e
    case Dates =>
      c.EditEntry? && !DatesFit(match c.newStart case Some(x) => x case None => lines[n].entry.start,
                                match c.newFinish case Some(x) => x case None => lines[n].entry.finish)
    case PredecessorSelf => c.EditEntry? && c.reference == Set(Some(lines[n].entry.item))
    case PredecessorNotInDraft =>
      c.EditEntry? && exists k :: c.reference == Set(Some(k)) && forall i :: 0 <= i < |lines| ==> lines[i].entry.item != k
    case PredecessorCycle =>
      c.EditEntry? && c.reference.Set?
      && HasCycle(NextOf(Links(Entries(lines)[n := Entries(lines)[n].(predecessor := c.reference.item)])))
    case PredecessorInUse => c.RemoveEntry? && exists i :: 0 <= i < |lines| && lines[i].entry.predecessor == Some(lines[n].entry.item)
    case _ => false
  }

  lemma EditErrors(s: Store, c: Command, at: Position)
    requires c.EditEntry? && DraftEntry(s, c.line, c.version) == Ok(at) && DoEditEntry(s, c).Err?
    ensures var e, lines := DoEditEntry(s, c).error, s.revisions[at.revision].lines;
            var entry := Edited(lines[at.line].entry, c);
            (e == Dates && !DatesOk(entry.start, entry.finish)) || ReferenceProblem(Entries(lines), at.line, c.reference) == Some(e)
  {
  }

  lemma ReferenceRefused(lines: seq<Line>, n: nat, c: Command, e: Error)
    requires n < |lines| && c.EditEntry? && ReferenceProblem(Entries(lines), n, c.reference) == Some(e)
    ensures ChangeRefusable(lines, n, c, e)
  {
  }

  lemma EditRefused(s: Store, c: Command, at: Position, lines: seq<Line>, e: Error)
    requires c.EditEntry? && DraftEntry(s, c.line, c.version) == Ok(at) && DoEditEntry(s, c) == Err(e)
    requires lines == s.revisions[at.revision].lines
    ensures ChangeRefusable(lines, at.line, c, e)
  {
    EditErrors(s, c, at);
    if ReferenceProblem(Entries(lines), at.line, c.reference) == Some(e) {
      ReferenceRefused(lines, at.line, c, e);
    } else {
      var entry := Edited(lines[at.line].entry, c);
      DatesExactly(entry.start, entry.finish);
    }
  }

  lemma RemoveRefused(s: Store, c: Command, at: Position)
    requires c.RemoveEntry? && DraftEntry(s, c.line, c.version) == Ok(at) && DoRemoveEntry(s, c).Err?
    ensures ChangeRefusable(s.revisions[at.revision].lines, at.line, c, DoRemoveEntry(s, c).error)
  {
  }

  /** Every refusal of an operation on entries names a reason that is true, in every reachable schedule. */
  lemma EntriesRefusedBecause(cs: seq<Command>, s: Store, c: Command)
    requires s == Run(NEW_OBJECT, cs) && Step(s, c).Err?
    ensures c.AddEntry? ==>
              (Step(s, c).error == NoDraft && forall d :: 0 <= d < |s.revisions| ==> s.revisions[d].status != Draft)
              || exists d :: 0 <= d < |s.revisions| && s.revisions[d].status == Draft && AddRefusable(s, Entries(s.revisions[d].lines), c, Step(s, c).error)
    ensures c.EditEntry? ==>
              LineRefusable(s, c.line, c.version, Step(s, c).error)
              || exists p :: InDraft(s, p, c.line, c.version) && ChangeRefusable(s.revisions[p.revision].lines, p.line, c, Step(s, c).error)
    ensures c.RemoveEntry? ==>
              LineRefusable(s, c.line, c.version, Step(s, c).error)
              || exists p :: InDraft(s, p, c.line, c.version) && ChangeRefusable(s.revisions[p.revision].lines, p.line, c, Step(s, c).error)
  {
    ReachableSchedulesAreGood(cs);
    ReachableLinesAreDistinct(cs);
    if c.AddEntry? {
      var d := Find(s.revisions, Draft);
      if d.Some? {
        AddRefused(s, c, d.value, Step(s, c).error);
      }
    } else if c.EditEntry? || c.RemoveEntry? {
      var at := DraftEntry(s, c.line, c.version);
      DraftEntryExactly(s, c.line, c.version);
      if at.Err? {
        LineRefused(s, c.line, c.version);
      } else if c.EditEntry? {
        EditRefused(s, c, at.value, s.revisions[at.value.revision].lines, Step(s, c).error);
      } else {
        RemoveRefused(s, c, at.value);
      }
    }
  }

  /** And so does every refusal of an operation on a whole draft. */
  lemma DraftRefusedBecause(s: Store, c: Command)
    requires Step(s, c).Err?
    ensures c.CreateDraft? ==> Step(s, c).error == DraftExists && exists d :: 0 <= d < |s.revisions| && s.revisions[d].status == Draft
    ensures c.DiscardDraft? || c.ApproveDraft? ==>
              (Step(s, c).error == NoDraft && forall d :: 0 <= d < |s.revisions| ==> s.revisions[d].status != Draft)
              || exists d :: 0 <= d < |s.revisions| && s.revisions[d].status == Draft
                   && if s.revisions[d].version != c.version then Step(s, c).error == VersionConflict
                      else c.ApproveDraft?
                           && var ps := ApprovalProblems(s, Entries(s.revisions[d].lines), Baseline(s), c.reason); ps != [] && Step(s, c).error == Refused(ps)
    ensures c.CreateUnit? ==> Step(s, c).error == NotFound && (c.work !in s.works || c.newPart in s.parts)
    ensures !c.CreateWork?
  {
  }

  // ---------------------------------------------------------------- which problems stand against approval

  /** When a problem stands against making the entries the baseline. */
  ghost predicate StandsAgainst(s: Store, es: seq<Entry>, baseline: Option<seq<Entry>>, reason: string, p: Problem) {
    match p
    case Empty => es == []
    case BadDates => exists i :: 0 <= i < |es| && !DatesFit(es[i].start, es[i].finish)
    case BothLevels => exists w, part :: Scheduled(s.items, es, Scope(w, None)) && Scheduled(s.items, es, Scope(w, Some(part)))
    case PredecessorMissing => exists i, k :: 0 <= i < |es| && es[i].predecessor == Some(k) && forall j :: 0 <= j < |es| ==> es[j].item != k
    case Cycle => HasCycle(NextOf(Links(es)))
    case NoChanges => baseline != None && Diff(baseline.value, es) == []
    case ReasonRequired => baseline != None && Diff(baseline.value, es) != [] && reason == ""
    case WorkHasUnits => exists w, part :: Scheduled(s.items, es, Scope(w, None)) && part in s.parts && s.parts[part] == w
  }

  function Rank(p: Problem): nat {
    match p
    case Empty => 0 case BadDates => 1 case BothLevels => 2 case PredecessorMissing => 3
    case Cycle => 4 case NoChanges => 5 case ReasonRequired => 6 case WorkHasUnits => 7
  }

  lemma LevelsExactly(items: map<Item, Scope>, es: seq<Entry>)
    ensures AtBothLevels(items, es) <==> exists w, part :: Scheduled(items, es, Scope(w, None)) && Scheduled(items, es, Scope(w, Some(part)))
  {
    forall w ensures WorkInWhole(items, es, w) <==> Scheduled(items, es, Scope(w, None)) { WholeIsScheduled(items, es, w); }
    forall w ensures PlannedInParts(items, es, w) <==> exists part :: Scheduled(items, es, Scope(w, Some(part))) { PartsAreScheduled(items, es, w); }
  }

  lemma PartsAreScheduled(items: map<Item, Scope>, es: seq<Entry>, w: Work)
    ensures PlannedInParts(items, es, w) <==> exists part :: Scheduled(items, es, Scope(w, Some(part)))
  {
    if PlannedInParts(items, es, w) {
      var i :| 0 <= i < |es| && es[i].item in items && items[es[i].item].work == w && items[es[i].item].part.Some?;
      assert items[es[i].item] == Scope(w, Some(items[es[i].item].part.value));
      assert Scheduled(items, es, Scope(w, Some(items[es[i].item].part.value)));
    }
  }

  lemma UnitsExactly(s: Store, es: seq<Entry>)
    ensures WholeWorkHasUnits(s, es) <==> exists w, part :: Scheduled(s.items, es, Scope(w, None)) && part in s.parts && s.parts[part] == w
  {
    forall w ensures WorkInWhole(s.items, es, w) <==> Scheduled(s.items, es, Scope(w, None)) { WholeIsScheduled(s.items, es, w); }
  }

  lemma BadDatesExactly(es: seq<Entry>)
    ensures AllDatesOk(es) <==> forall i :: 0 <= i < |es| ==> DatesFit(es[i].start, es[i].finish)
  {
    forall i | 0 <= i < |es| ensures DatesOk(es[i].start, es[i].finish) <==> DatesFit(es[i].start, es[i].finish) {
      DatesExactly(es[i].start, es[i].finish);
    }
  }

  lemma MissingExactly(es: seq<Entry>)
    ensures MissesPredecessor(es) <==> exists i, k :: 0 <= i < |es| && es[i].predecessor == Some(k) && forall j :: 0 <= j < |es| ==> es[j].item != k
  {
  }

  function Listed(a: bool, b: bool, c: bool, d: bool, e: bool, f: bool, g: bool, h: bool): seq<Problem> {
    When(a, Empty) + When(b, BadDates) + When(c, BothLevels) + When(d, PredecessorMissing)
    + When(e, Cycle) + When(f, NoChanges) + When(g, ReasonRequired) + When(h, WorkHasUnits)
  }

  lemma AppendMember(ps: seq<Problem>, b: bool, p: Problem, q: Problem)
    ensures q in ps + When(b, p) <==> q in ps || (b && q == p)
  {
  }

  lemma ListedMembers(a: bool, b: bool, c: bool, d: bool, e: bool, f: bool, g: bool, h: bool, p: Problem)
    ensures p in Listed(a, b, c, d, e, f, g, h) <==>
            match p
            case Empty => a case BadDates => b case BothLevels => c case PredecessorMissing => d
            case Cycle => e case NoChanges => f case ReasonRequired => g case WorkHasUnits => h
  {
    var ps := When(a, Empty);
    AppendMember(ps, b, BadDates, p);
    ps := ps + When(b, BadDates);
    AppendMember(ps, c, BothLevels, p);
    ps := ps + When(c, BothLevels);
    AppendMember(ps, d, PredecessorMissing, p);
    ps := ps + When(d, PredecessorMissing);
    AppendMember(ps, e, Cycle, p);
    ps := ps + When(e, Cycle);
    AppendMember(ps, f, NoChanges, p);
    ps := ps + When(f, NoChanges);
    AppendMember(ps, g, ReasonRequired, p);
    ps := ps + When(g, ReasonRequired);
    AppendMember(ps, h, WorkHasUnits, p);
  }

  lemma AppendRanked(ps: seq<Problem>, b: bool, p: Problem)
    requires forall i :: 0 <= i < |ps| ==> Rank(ps[i]) < Rank(p)
    requires forall i, j :: 0 <= i < j < |ps| ==> Rank(ps[i]) < Rank(ps[j])
    ensures var more := ps + When(b, p);
            && (forall i, j :: 0 <= i < j < |more| ==> Rank(more[i]) < Rank(more[j])) && forall i :: 0 <= i < |more| ==> Rank(more[i]) <= Rank(p)
  {
  }

  lemma ListedInOrder(a: bool, b: bool, c: bool, d: bool, e: bool, f: bool, g: bool, h: bool)
    ensures var ps := Listed(a, b, c, d, e, f, g, h); forall i, j :: 0 <= i < j < |ps| ==> Rank(ps[i]) < Rank(ps[j])
  {
    var ps := When(a, Empty);
    AppendRanked(ps, b, BadDates);
    ps := ps + When(b, BadDates);
    AppendRanked(ps, c, BothLevels);
    ps := ps + When(c, BothLevels);
    AppendRanked(ps, d, PredecessorMissing);
    ps := ps + When(d, PredecessorMissing);
    AppendRanked(ps, e, Cycle);
    ps := ps + When(e, Cycle);
    AppendRanked(ps, f, NoChanges);
    ps := ps + When(f, NoChanges);
    AppendRanked(ps, g, ReasonRequired);
    ps := ps + When(g, ReasonRequired);
    AppendRanked(ps, h, WorkHasUnits);
  }

  lemma AppendedTogether(ps: seq<Problem>, qs: seq<Problem>, f: bool, g: bool, h: bool)
    requires qs == When(f, NoChanges) + When(g, ReasonRequired)
    ensures ps + qs + When(h, WorkHasUnits) == ps + When(f, NoChanges) + When(g, ReasonRequired) + When(h, WorkHasUnits)
  {
    assert ps + qs == ps + When(f, NoChanges) + When(g, ReasonRequired);
  }

  lemma NothingBefore(b: bool, p: Problem, q: Problem)
    ensures When(false, p) + When(b, q) == When(b, q) && When(b, p) + When(false, q) == When(b, p)
  {
  }

  lemma BaselineProblemsAreListed(baseline: Option<seq<Entry>>, es: seq<Entry>, reason: string, same: bool, mute: bool)
    requires same == (baseline.Some? && Diff(baseline.value, es) == [])
    requires mute == (baseline.Some? && Diff(baseline.value, es) != [] && reason == "")
    ensures BaselineProblems(baseline, es, reason) == When(same, NoChanges) + When(mute, ReasonRequired)
  {
    NothingBefore(same, NoChanges, ReasonRequired);
    NothingBefore(mute, NoChanges, ReasonRequired);
    assert BaselineProblems(baseline, es, reason) == if same then [NoChanges] else When(mute, ReasonRequired);
  }

  lemma ProblemsAreListed(s: Store, es: seq<Entry>, baseline: Option<seq<Entry>>, reason: string)
    ensures ApprovalProblems(s, es, baseline, reason) ==
            Listed(es == [], !AllDatesOk(es), AtBothLevels(s.items, es), MissesPredecessor(es), HasCycle(NextOf(Links(es))),
                   baseline.Some? && Diff(baseline.value, es) == [], baseline.Some? && Diff(baseline.value, es) != [] && reason == "",
                   WholeWorkHasUnits(s, es))
  {
    BaselineProblemsAreListed(baseline, es, reason, baseline.Some? && Diff(baseline.value, es) == [],
                              baseline.Some? && Diff(baseline.value, es) != [] && reason == "");
    AppendedTogether(EntryProblems(s.items, es), BaselineProblems(baseline, es, reason),
                     baseline.Some? && Diff(baseline.value, es) == [], baseline.Some? && Diff(baseline.value, es) != [] && reason == "",
                     WholeWorkHasUnits(s, es));
  }

  /** The same problems in the words of the check. */
  ghost predicate Found(s: Store, es: seq<Entry>, baseline: Option<seq<Entry>>, reason: string, p: Problem) {
    match p
    case Empty => es == []
    case BadDates => !AllDatesOk(es)
    case BothLevels => AtBothLevels(s.items, es)
    case PredecessorMissing => MissesPredecessor(es)
    case Cycle => HasCycle(NextOf(Links(es)))
    case NoChanges => baseline.Some? && Diff(baseline.value, es) == []
    case ReasonRequired => baseline.Some? && Diff(baseline.value, es) != [] && reason == ""
    case WorkHasUnits => WholeWorkHasUnits(s, es)
  }

  lemma FoundStands(s: Store, es: seq<Entry>, baseline: Option<seq<Entry>>, reason: string, p: Problem)
    ensures Found(s, es, baseline, reason, p) <==> StandsAgainst(s, es, baseline, reason, p)
  {
    match p
    case BadDates => BadDatesExactly(es);
    case BothLevels => LevelsExactly(s.items, es);
    case PredecessorMissing => MissingExactly(es);
    case WorkHasUnits => UnitsExactly(s, es);
    case _ =>
  }

  lemma ListedAreFound(a: bool, b: bool, c: bool, d: bool, e: bool, f: bool, g: bool, h: bool, ps: seq<Problem>, p: Problem, found: bool)
    requires ps == Listed(a, b, c, d, e, f, g, h)
    requires found <==> match p
                        case Empty => a case BadDates => b case BothLevels => c case PredecessorMissing => d
                        case Cycle => e case NoChanges => f case ReasonRequired => g case WorkHasUnits => h
    ensures p in ps <==> found
    ensures forall i, j :: 0 <= i < j < |ps| ==> Rank(ps[i]) < Rank(ps[j])
  {
    ListedMembers(a, b, c, d, e, f, g, h, p);
    ListedInOrder(a, b, c, d, e, f, g, h);
  }

  lemma ReportedIsFound(s: Store, es: seq<Entry>, baseline: Option<seq<Entry>>, reason: string, ps: seq<Problem>, p: Problem)
    requires ps == ApprovalProblems(s, es, baseline, reason)
    ensures p in ps <==> Found(s, es, baseline, reason, p)
    ensures forall i, j :: 0 <= i < j < |ps| ==> Rank(ps[i]) < Rank(ps[j])
  {
    ProblemsAreListed(s, es, baseline, reason);
    var found := Found(s, es, baseline, reason, p);
    ListedAreFound(es == [], !AllDatesOk(es), AtBothLevels(s.items, es), MissesPredecessor(es), HasCycle(NextOf(Links(es))),
                   baseline.Some? && Diff(baseline.value, es) == [], baseline.Some? && Diff(baseline.value, es) != [] && reason == "",
                   WholeWorkHasUnits(s, es), ps, p, found);
  }

  /** The problems reported are exactly those that stand, each once, in a fixed order. */
  lemma ProblemsExactly(s: Store, es: seq<Entry>, baseline: Option<seq<Entry>>, reason: string, ps: seq<Problem>, p: Problem)
    requires ps == ApprovalProblems(s, es, baseline, reason)
    ensures p in ps <==> StandsAgainst(s, es, baseline, reason, p)
    ensures forall i, j :: 0 <= i < j < |ps| ==> Rank(ps[i]) < Rank(ps[j])
  {
    ReportedIsFound(s, es, baseline, reason, ps, p);
    FoundStands(s, es, baseline, reason, p);
  }

  // ---------------------------------------------------------------- what an accepted addition achieves

  /** The sequence given to an entry that names none: one more than the largest, and at least one. */
  lemma {:induction false} NextSequenceExactly(es: seq<Entry>)
    ensures NextSequence(es) >= 1 && (forall e :: e in es ==> e.sequence < NextSequence(es))
    ensures NextSequence(es) == 1 || exists e :: e in es && e.sequence == NextSequence(es) - 1
  {
    if es != [] {
      var init, last := es[..|es| - 1], es[|es| - 1];
      NextSequenceExactly(init);
      assert last in es && forall e :: e in init ==> e in es;
      assert forall e :: e in es ==> e in init || e == last;
    }
  }

  lemma AddedFields(s: Store, c: Command, t: Store) returns (d: nat, line: Line)
    requires c.AddEntry? && DoAddEntry(s, c) == Ok(t)
    ensures Find(s.revisions, Draft) == Some(d) && line.id == s.nextLine && line.version == 1
    ensures line.entry.item == ItemFor(s.items, Scope(c.work, c.part), c.newItem) && (IsKnown(s.items, Scope(c.work, c.part)) || c.newItem !in s.items)
    ensures t == Appended(s, d, line, s.items[line.entry.item := Scope(c.work, c.part)])
    ensures line.entry.start == c.start && line.entry.finish == c.finish && line.entry.predecessor == c.predecessor
    ensures line.entry.sequence == if c.sequence.Some? then c.sequence.value else NextSequence(Entries(s.revisions[d].lines))
  {
    d := Find(s.revisions, Draft).value;
    line := t.revisions[d].lines[|s.revisions[d].lines|];
  }

  lemma ItemForExactly(items: map<Item, Scope>, scope: Scope, newItem: Item)
    requires forall a, b :: a in items && b in items && items[a] == items[b] ==> a == b
    requires IsKnown(items, scope) || newItem !in items
    ensures var item := ItemFor(items, scope, newItem);
            && (forall k :: k in items ==> items[item := scope][k] == items[k])
            && (forall k :: k in items && items[k] == scope ==> item == k)
            && (item !in items ==> item == newItem)
  {
    var item := ItemFor(items, scope, newItem);
    if IsKnown(items, scope) {
      assert StandsFor(items, item, scope);
    }
    forall k | k in items && items[k] == scope ensures item == k {
      assert StandsFor(items, k, scope);
    }
  }

  /** An accepted addition puts one line at the end of the draft, with a new number, the dates, reference and sequence asked for, and the item of the scope: the one it has, or the new one. */
  lemma AddedAsAsked(s: Store, c: Command, t: Store) returns (d: nat, line: Line)
    requires Inv(s) && c.AddEntry? && DoAddEntry(s, c) == Ok(t)
    ensures d < |s.revisions| && s.revisions[d].status == Draft && |t.revisions| == |s.revisions|
    ensures t.revisions[d].lines == s.revisions[d].lines + [line] && t.revisions[d].version == s.revisions[d].version + 1
    ensures forall i :: 0 <= i < |s.revisions| && i != d ==> t.revisions[i] == s.revisions[i]
    ensures line.id == s.nextLine && line.version == 1 && t.nextLine == s.nextLine + 1
    ensures line.entry.start == c.start && line.entry.finish == c.finish && line.entry.predecessor == c.predecessor
    ensures line.entry.sequence == match c.sequence case Some(x) => x case None => NextSequence(Entries(s.revisions[d].lines))
    ensures line.entry.item in t.items && t.items[line.entry.item] == Scope(c.work, c.part)
    ensures forall k :: k in s.items ==> k in t.items && t.items[k] == s.items[k]
    ensures forall k :: k in t.items && k !in s.items ==> k == c.newItem && k == line.entry.item
    ensures forall k :: k in s.items && s.items[k] == Scope(c.work, c.part) ==> line.entry.item == k
    ensures t.works == s.works && t.parts == s.parts
  {
    d, line := AddedFields(s, c, t);
    ItemForExactly(s.items, Scope(c.work, c.part), c.newItem);
  }

  // ---------------------------------------------------------------- the service as the source writes it

  lemma ItemForIsIt(items: map<Item, Scope>, scope: Scope, newItem: Item, k: Item)
    requires StandsFor(items, k, scope)
    requires forall a, b :: a in items && b in items && items[a] == items[b] ==> a == b
    ensures ItemFor(items, scope, newItem) == k
  {
  }

  /** Works that appear both as a whole and through their units. */
  method WorksScheduledAtBothLevels(items: map<Item, Scope>, es: seq<Entry>) returns (works: set<Work>)
    ensures forall w :: w in works <==> WorkInWhole(items, es, w) && PlannedInParts(items, es, w)
  {
    var whole := set i | 0 <= i < |es| && es[i].item in items && items[es[i].item].part.None? :: items[es[i].item].work;
    works := set i | 0 <= i < |es| && es[i].item in items && items[es[i].item].part.Some? && items[es[i].item].work in whole :: items[es[i].item].work;
    forall w ensures w in whole <==> WorkInWhole(items, es, w) { }
    forall w ensures w in works <==> w in whole && PlannedInParts(items, es, w) { }
  }

  method BadDatesIn(es: seq<Entry>) returns (found: bool)
    ensures found == !AllDatesOk(es)
  {
    found := exists e :: e in es && !DatesOk(e.start, e.finish);
  }

  method MissingPredecessorIn(es: seq<Entry>) returns (found: bool)
    ensures found == MissesPredecessor(es)
  {
    found := exists i :: 0 <= i < |es| && es[i].predecessor.Some? && !Contains(es, es[i].predecessor.value);
  }

  /** The problems of the entries, one after another, each pushed when found. */
  method EntryViolations(items: map<Item, Scope>, es: seq<Entry>) returns (problems: seq<Problem>)
    ensures problems == EntryProblems(items, es)
  {
    problems := When(|es| == 0, Empty);
    var dates := BadDatesIn(es);
    problems := problems + When(dates, BadDates);
    var both := WorksScheduledAtBothLevels(items, es);
    assert both != {} <==> AtBothLevels(items, es) by {
      if both != {} {
        var w :| w in both;
      }
      if AtBothLevels(items, es) {
        var w :| WorkInWhole(items, es, w) && PlannedInParts(items, es, w);
        assert w in both;
      }
    }
    problems := problems + When(both != {}, BothLevels);
    var missing := MissingPredecessorIn(es);
    problems := problems + When(missing, PredecessorMissing);
    var cycle := HasPredecessorCycle(Links(es));
    problems := problems + When(cycle, Cycle);
  }

  /** A correction of a baseline needs at least one change, and a reason. */
  method BaselineViolations(baseline: Option<seq<Entry>>, es: seq<Entry>, reason: string) returns (problems: seq<Problem>)
    ensures problems == BaselineProblems(baseline, es, reason)
  {
    problems := [];
    if baseline.Some? {
      var changes := DiffScheduleEntries(baseline.value, es);
      if |changes| == 0 {
        problems := [NoChanges];
      } else if reason == "" {
        problems := [ReasonRequired];
      }
    }
  }

  method ApprovalViolations(s: Store, es: seq<Entry>, baseline: Option<seq<Entry>>, reason: string) returns (problems: seq<Problem>)
    ensures problems == ApprovalProblems(s, es, baseline, reason)
  {
    problems := EntryViolations(s.items, es);
    var correction := BaselineViolations(baseline, es, reason);
    var units := PlannedWorkGotUnits(s, es);
    problems := problems + correction + When(units, WorkHasUnits);
  }

  method PlannedWorkGotUnits(s: Store, es: seq<Entry>) returns (found: bool)
    ensures found == WholeWorkHasUnits(s, es)
  {
    var whole := set i | 0 <= i < |es| && es[i].item in s.items && s.items[es[i].item].part.None? :: s.items[es[i].item].work;
    found := exists p :: p in s.parts && s.parts[p] in whole;
    forall w ensures w in whole <==> WorkInWhole(s.items, es, w) { }
    if WholeWorkHasUnits(s, es) {
      var w :| WorkInWhole(s.items, es, w) && WorkHasParts(s.parts, w);
      var p :| p in s.parts && s.parts[p] == w;
      assert s.parts[p] in whole;
    }
    if found {
      var p :| p in s.parts && s.parts[p] in whole;
      assert WorkHasParts(s.parts, s.parts[p]);
    }
  }

  class ScheduleService {
    var revisions: seq<Revision>
    var items: map<Item, Scope>
    var works: set<Work>
    var parts: map<Part, Work>
    var nextLine: nat

    function View(): Store
      reads this
    {
      Store(revisions, items, works, parts, nextLine)
    }

    constructor ()
      ensures View() == NEW_OBJECT
    {
      revisions, items, works, parts, nextLine := [], map[], {}, map[], 0;
    }

    method CreateDraft() returns (r: Result<Store, Error>)
      modifies this
      ensures r == Step(old(View()), Command.CreateDraft) && View() == After(old(View()), Command.CreateDraft)
    {
      if Find(revisions, Draft).Some? {
        return Err(DraftExists);
      }
      var current := Find(revisions, Approved);
      var lines: seq<Line> := [];
      if current.Some? {
        lines := Copied(revisions[current.value].lines, nextLine);
      }
      revisions := revisions + [Revision(Draft, 1, current, lines, "")];
      nextLine := nextLine + |lines|;
      r := Ok(View());
    }

    method AddEntry(c: Command) returns (r: Result<Store, Error>)
      requires c.AddEntry? && ItemsFit(View())
      modifies this
      ensures r == Step(old(View()), c) && View() == After(old(View()), c)
    {
      var d := Find(revisions, Draft);
      if d.None? {
        return Err(NoDraft);
      }
      if c.work !in works || (c.part.Some? && (c.part.value !in parts || parts[c.part.value] != c.work)) {
        return Err(NotFound);
      }
      if !DatesOk(c.start, c.finish) {
        return Err(Dates);
      }
      var existing := Entries(revisions[d.value].lines);
      if c.part.Some? {
        if WorkInWhole(items, existing, c.work) {
          return Err(ScheduledAsWhole);
        }
      } else if WorkHasParts(parts, c.work) {
        return Err(HasUnits);
      }
      r := InsertEntry(c, d.value, existing);
    }

    /** One item per scope, ever: re-planning a scope uses its item again. */
    method InsertEntry(c: Command, d: nat, existing: seq<Entry>) returns (r: Result<Store, Error>)
      requires c.AddEntry? && ItemsFit(View()) && d < |revisions| && existing == Entries(revisions[d].lines)
      modifies this
      ensures r == Inserted(old(View()), c, d) && View() == if r.Ok? then r.value else old(View())
    {
      var scope := Scope(c.work, c.part);
      var item := c.newItem;
      if exists k :: k in items && items[k] == scope {
        var k :| k in items && items[k] == scope;
        ItemForIsIt(items, scope, c.newItem, k);
        assert StandsFor(items, k, scope);
        item := k;
      } else if c.newItem in items || c.newItem == "" {
        return Err(IdentifierTaken);
      }
      if Contains(existing, item) {
        return Err(AlreadyScheduled);
      }
      if c.predecessor.Some? && !Contains(existing, c.predecessor.value) {
        return Err(PredecessorNotInDraft);
      }
      var sequence := if c.sequence.Some? then c.sequence.value else NextSequence(existing);
      var line := Line(nextLine, 1, Entry(item, c.start, c.finish, sequence, c.predecessor));
      revisions := revisions[d := Touched(revisions[d], revisions[d].lines + [line])];
      items := items[item := scope];
      nextLine := nextLine + 1;
      r := Ok(View());
    }

    method EditEntry(c: Command) returns (r: Result<Store, Error>)
      requires c.EditEntry?
      modifies this
      ensures r == Step(old(View()), c) && View() == After(old(View()), c)
    {
      var at := DraftEntry(View(), c.line, c.version);
      if at.Err? {
        return Err(at.error);
      }
      var lines := revisions[at.value.revision].lines;
      var e := Edited(lines[at.value.line].entry, c);
      if !DatesOk(e.start, e.finish) {
        return Err(Dates);
      }
      var problem := CheckReference(Entries(lines), at.value.line, c.reference);
      if problem.Some? {
        return Err(problem.value);
      }
      UpdateLine(at.value, e);
      r := Ok(View());
    }

    method UpdateLine(at: Position, e: Entry)
      requires at.revision < |revisions| && at.line < |revisions[at.revision].lines|
      modifies this
      ensures View() == old(View()).(revisions := Rewritten(old(revisions), at, e))
    {
      var draft := revisions[at.revision];
      var line := draft.lines[at.line];
      revisions := revisions[at.revision := Touched(draft, draft.lines[at.line := Line(line.id, line.version + 1, e)])];
    }

    static method CheckReference(all: seq<Entry>, at: nat, reference: Reference) returns (problem: Option<Error>)
      requires at < |all|
      ensures problem == ReferenceProblem(all, at, reference)
    {
      if reference.Keep? || reference.item.None? {
        return None;
      }
      if reference.item.value == all[at].item {
        return Some(PredecessorSelf);
      }
      if !Contains(all, reference.item.value) {
        return Some(PredecessorNotInDraft);
      }
      var cycle := HasPredecessorCycle(Links(all[at := all[at].(predecessor := reference.item)]));
      if cycle {
        return Some(PredecessorCycle);
      }
      return None;
    }

    method RemoveEntry(c: Command) returns (r: Result<Store, Error>)
      requires c.RemoveEntry?
      modifies this
      ensures r == Step(old(View()), c) && View() == After(old(View()), c)
    {
      var at := DraftEntry(View(), c.line, c.version);
      if at.Err? {
        return Err(at.error);
      }
      var draft, n := revisions[at.value.revision], at.value.line;
      if IsFollowed(Entries(draft.lines), draft.lines[n].entry.item) {
        return Err(PredecessorInUse);
      }
      revisions := revisions[at.value.revision := Touched(draft, draft.lines[..n] + draft.lines[n + 1..])];
      r := Ok(View());
    }

    method DiscardDraft(version: nat) returns (r: Result<Store, Error>)
      modifies this
      ensures r == Step(old(View()), Command.DiscardDraft(version)) && View() == After(old(View()), Command.DiscardDraft(version))
    {
      var d := Find(revisions, Draft);
      if d.None? {
        return Err(NoDraft);
      }
      var draft := revisions[d.value];
      if draft.version != version {
        return Err(VersionConflict);
      }
      revisions := revisions[d.value := draft.(status := Discarded, version := version + 1)];
      r := Ok(View());
    }

    method ApproveDraft(version: nat, reason: string) returns (r: Result<Store, Error>)
      modifies this
      ensures r == Step(old(View()), Command.ApproveDraft(version, reason))
      ensures View() == After(old(View()), Command.ApproveDraft(version, reason))
    {
      var d := Find(revisions, Draft);
      if d.None? {
        return Err(NoDraft);
      }
      var draft := revisions[d.value];
      if draft.version != version {
        return Err(VersionConflict);
      }
      var current := Find(revisions, Approved);
      var baseline := if current.Some? then Some(Entries(revisions[current.value].lines)) else None;
      var problems := ApprovalViolations(View(), Entries(draft.lines), baseline, reason);
      if problems != [] {
        return Err(Refused(problems));
      }
      ReplaceBaseline(d.value, if current.Some? then reason else "");
      r := Ok(View());
    }

    method ReplaceBaseline(d: nat, reason: string)
      requires d < |revisions| && revisions[d].status == Draft
      modifies this
      ensures View() == old(View()).(revisions := Approving(old(revisions), d, reason))
    {
      var current, draft := Find(revisions, Approved), revisions[d];
      if current.Some? {
        var before := revisions[current.value];
        revisions := revisions[current.value := before.(status := Superseded, version := before.version + 1)];
      }
      revisions := revisions[d := draft.(status := Approved, version := draft.version + 1, reason := reason)];
    }
  }
}
