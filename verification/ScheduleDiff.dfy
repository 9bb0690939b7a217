/** What changed between two revisions of the schedule: the diff, applying it, and undoing it. */
module ScheduleDiff {
  import opened Wrappers
  import opened Text

  type Item = string

  datatype Entry = Entry(item: Item, start: string, finish: string, sequence: int, predecessor: Option<Item>)

  datatype Field = PlannedStart | PlannedFinish | Sequence | Predecessor
  datatype Kind = Added | Removed | Changed
  datatype Change = Change(item: Item, kind: Kind, before: Option<Entry>, after: Option<Entry>, fields: seq<Field>)

  predicate UniqueItems(es: seq<Entry>) { forall i, j :: 0 <= i < j < |es| ==> es[i].item != es[j].item }

  /** Entries by item; a later entry with the same item replaces an earlier one. */
  function ByItem(es: seq<Entry>): (m: map<Item, Entry>)
    ensures forall k :: k in m ==> m[k].item == k && m[k] in es
    ensures forall e :: e in es ==> e.item in m
    ensures UniqueItems(es) ==> forall e :: e in es ==> m[e.item] == e
  {
    if es == [] then map[]
    else
      var m, last := ByItem(es[..|es| - 1]), es[|es| - 1];
      assert forall e :: e in es ==> e in es[..|es| - 1] || e == last;
      m[last.item := last]
  }

  function Look(m: map<Item, Entry>, k: Item): Option<Entry> { if k in m then Some(m[k]) else None }

  function ChangedFields(a: Entry, b: Entry): seq<Field> {
    (if a.start != b.start then [PlannedStart] else []) + (if a.finish != b.finish then [PlannedFinish] else [])
    + (if a.sequence != b.sequence then [Sequence] else []) + (if a.predecessor != b.predecessor then [Predecessor] else [])
  }

  /** The change that takes an item from one state to another. */
  function ChangeOf(k: Item, before: Option<Entry>, after: Option<Entry>): Change {
    if before.None? then Change(k, Added, before, after, [])
    else if after.None? then Change(k, Removed, before, after, [])
    else Change(k, Changed, before, after, ChangedFields(before.value, after.value))
  }

  // ---------------------------------------------------------------- the changes, in the order they are found

  function AfterChanges(es: seq<Entry>, was: map<Item, Entry>): seq<Change> {
    if es == [] then []
    else
      var rest, e := AfterChanges(es[..|es| - 1], was), es[|es| - 1];
      if e.item !in was then rest + [ChangeOf(e.item, None, Some(e))]
      else if ChangedFields(was[e.item], e) != [] then rest + [ChangeOf(e.item, Some(was[e.item]), Some(e))]
      else rest
  }

  function BeforeChanges(es: seq<Entry>, now: map<Item, Entry>): seq<Change> {
    if es == [] then []
    else
      var rest, e := BeforeChanges(es[..|es| - 1], now), es[|es| - 1];
      if e.item !in now then rest + [ChangeOf(e.item, Some(e), None)] else rest
  }

  // ---------------------------------------------------------------- the order they are shown in

  function ShownEntry(c: Change): Option<Entry> { if c.after.Some? then c.after else c.before }

  predicate ShownBefore(a: Change, b: Change) {
    var x, y := ShownEntry(a), ShownEntry(b);
    x.Some? && y.Some?
    && (x.value.sequence < y.value.sequence
        || (x.value.sequence == y.value.sequence
            && (StringLess(x.value.start, y.value.start)
                || (x.value.start == y.value.start && StringLess(a.item, b.item)))))
  }

  predicate Ordered(cs: seq<Change>) { forall i :: 0 <= i < |cs| - 1 ==> !ShownBefore(cs[i + 1], cs[i]) }

  lemma ShownBeforeAsymmetric(a: Change, b: Change)
    ensures !(ShownBefore(a, b) && ShownBefore(b, a))
  {
    if ShownEntry(a).Some? && ShownEntry(b).Some? {
      StringLessAsymmetric(ShownEntry(a).value.start, ShownEntry(b).value.start);
      StringLessAsymmetric(a.item, b.item);
    }
  }

  function Insert(c: Change, cs: seq<Change>): (r: seq<Change>)
    ensures multiset(r) == multiset(cs) + multiset{c}
    ensures Ordered(cs) ==> Ordered(r)
    ensures r[0] == c || (cs != [] && r[0] == cs[0])
  {
    if cs == [] then [c]
    else if ShownBefore(c, cs[0]) then
      ShownBeforeAsymmetric(c, cs[0]);
      [c] + cs
    else
      assert cs == [cs[0]] + cs[1..];
      var rest := Insert(c, cs[1..]);
      OrderedCons(c, cs, rest);
      [cs[0]] + rest
  }

  lemma OrderedCons(c: Change, cs: seq<Change>, rest: seq<Change>)
    requires cs != [] && rest != [] && !ShownBefore(c, cs[0])
    requires Ordered(cs[1..]) ==> Ordered(rest)
    requires rest[0] == c || (|cs| > 1 && rest[0] == cs[1])
    ensures Ordered(cs) ==> Ordered([cs[0]] + rest)
  {
    if Ordered(cs) {
      OrderedTail(cs);
      var all := [cs[0]] + rest;
      forall i | 0 <= i < |all| - 1 ensures !ShownBefore(all[i + 1], all[i]) {
        if i == 0 {
          assert |cs| > 1 ==> !ShownBefore(cs[0 + 1], cs[0]);
        } else {
          assert !ShownBefore(rest[(i - 1) + 1], rest[i - 1]);
        }
      }
    }
  }

  lemma OrderedTail(cs: seq<Change>)
    requires cs != [] && Ordered(cs)
    ensures Ordered(cs[1..])
  {
    forall i | 0 <= i < |cs| - 2 ensures !ShownBefore(cs[1..][i + 1], cs[1..][i]) {
      assert !ShownBefore(cs[(i + 1) + 1], cs[i + 1]);
    }
  }

  function SortChanges(cs: seq<Change>): (r: seq<Change>)
    ensures multiset(r) == multiset(cs) && Ordered(r)
  {
    if cs == [] then []
    else
      assert cs == cs[..|cs| - 1] + [cs[|cs| - 1]];
      Insert(cs[|cs| - 1], SortChanges(cs[..|cs| - 1]))
  }

  function Diff(before: seq<Entry>, after: seq<Entry>): seq<Change> {
    SortChanges(AfterChanges(after, ByItem(before)) + BeforeChanges(before, ByItem(after)))
  }

  method DiffScheduleEntries(before: seq<Entry>, after: seq<Entry>) returns (changes: seq<Change>)
    ensures changes == Diff(before, after)
  {
    var was, now := ByItem(before), ByItem(after);
    var added := ChangesOfAfter(after, was);
    var removed := ChangesOfBefore(before, now);
    changes := SortChanges(added + removed);
  }

  method ChangesOfAfter(after: seq<Entry>, was: map<Item, Entry>) returns (changes: seq<Change>)
    ensures changes == AfterChanges(after, was)
  {
    changes := [];
    for i := 0 to |after|
      invariant changes == AfterChanges(after[..i], was)
    {
      var e := after[i];
      assert after[..i + 1][..i] == after[..i];
      if e.item !in was {
        changes := changes + [Change(e.item, Added, None, Some(e), [])];
        continue;
      }
      var fields := ChangedFields(was[e.item], e);
      if fields != [] {
        changes := changes + [Change(e.item, Changed, Some(was[e.item]), Some(e), fields)];
      }
    }
    assert after[..|after|] == after;
  }

  method ChangesOfBefore(before: seq<Entry>, now: map<Item, Entry>) returns (changes: seq<Change>)
    ensures changes == BeforeChanges(before, now)
  {
    changes := [];
    for i := 0 to |before|
      invariant changes == BeforeChanges(before[..i], now)
    {
      assert before[..i + 1][..i] == before[..i];
      if before[i].item !in now {
        changes := changes + [Change(before[i].item, Removed, Some(before[i]), None, [])];
      }
    }
    assert before[..|before|] == before;
  }

  // ---------------------------------------------------------------- what the diff says

  /** Each change says exactly how its item differs. */
  predicate Explains(c: Change, was: map<Item, Entry>, now: map<Item, Entry>) {
    Look(was, c.item) != Look(now, c.item) && c == ChangeOf(c.item, Look(was, c.item), Look(now, c.item))
  }

  ghost predicate HasItem(cs: seq<Change>, k: Item) { exists i :: 0 <= i < |cs| && cs[i].item == k }

  lemma SameFields(a: Entry, b: Entry)
    requires a.item == b.item
    ensures ChangedFields(a, b) == [] <==> a == b
  {
  }

  lemma {:induction false} AfterChangesExplain(es: seq<Entry>, was: map<Item, Entry>, now: map<Item, Entry>)
    requires UniqueItems(es) && forall e :: e in es ==> Look(now, e.item) == Some(e)
    requires forall k :: k in was ==> was[k].item == k
    ensures forall c :: c in AfterChanges(es, was) ==> Explains(c, was, now) && c.after.Some?
    ensures forall e :: e in es && Look(was, e.item) != Some(e) ==> ChangeOf(e.item, Look(was, e.item), Some(e)) in AfterChanges(es, was)
  {
    if es != [] {
      var init, e := es[..|es| - 1], es[|es| - 1];
      AfterChangesExplain(init, was, now);
      if e.item in was {
        SameFields(was[e.item], e);
      }
      assert forall x :: x in es ==> x in init || x == e;
    }
  }

  lemma {:induction false} BeforeChangesExplain(es: seq<Entry>, was: map<Item, Entry>, now: map<Item, Entry>)
    requires UniqueItems(es) && forall e :: e in es ==> Look(was, e.item) == Some(e)
    ensures forall c :: c in BeforeChanges(es, now) ==> Explains(c, was, now) && c.after.None?
    ensures forall e :: e in es && e.item !in now ==> ChangeOf(e.item, Some(e), None) in BeforeChanges(es, now)
  {
    if es != [] {
      var init, e := es[..|es| - 1], es[|es| - 1];
      BeforeChangesExplain(init, was, now);
      assert forall x :: x in es ==> x in init || x == e;
    }
  }

  /** The diff holds exactly the changes of the items that differ. */
  lemma DiffExact(before: seq<Entry>, after: seq<Entry>, c: Change)
    requires UniqueItems(before) && UniqueItems(after)
    ensures c in Diff(before, after) <==> Explains(c, ByItem(before), ByItem(after))
  {
    var was, now := ByItem(before), ByItem(after);
    var found := AfterChanges(after, was) + BeforeChanges(before, now);
    AfterChangesExplain(after, was, now);
    BeforeChangesExplain(before, was, now);
    assert c in Diff(before, after) <==> c in multiset(found);
    if Explains(c, was, now) {
      if c.item in now {
        assert now[c.item] in after;
      } else {
        assert was[c.item] in before;
      }
    }
  }

  lemma {:induction false} AfterChangesOnce(es: seq<Entry>, was: map<Item, Entry>, c: Change)
    requires UniqueItems(es)
    ensures multiset(AfterChanges(es, was))[c] <= 1
    ensures c in AfterChanges(es, was) ==> exists e :: e in es && e.item == c.item
  {
    if es != [] {
      var init, e := es[..|es| - 1], es[|es| - 1];
      AfterChangesOnce(init, was, c);
      assert e in es && forall x :: x in init ==> x in es;
    }
  }

  lemma {:induction false} BeforeChangesOnce(es: seq<Entry>, now: map<Item, Entry>, c: Change)
    requires UniqueItems(es)
    ensures multiset(BeforeChanges(es, now))[c] <= 1
  {
    if es != [] {
      var init, e := es[..|es| - 1], es[|es| - 1];
      BeforeChangesOnce(init, now, c);
      if c.item == e.item {
        BeforeChangesFrom(init, now, c);
      }
    }
  }

  lemma {:induction false} BeforeChangesFrom(es: seq<Entry>, now: map<Item, Entry>, c: Change)
    ensures c in BeforeChanges(es, now) ==> exists e :: e in es && e.item == c.item
  {
    if es != [] {
      var init, e := es[..|es| - 1], es[|es| - 1];
      BeforeChangesFrom(init, now, c);
      assert e in es && forall x :: x in init ==> x in es;
    }
  }

  /** No change is shown twice; with DiffExact, an item that differs has one change and any other item none. */
  lemma ChangesOnce(before: seq<Entry>, after: seq<Entry>, c: Change)
    requires UniqueItems(before) && UniqueItems(after)
    ensures multiset(Diff(before, after))[c] <= 1
  {
    var was, now := ByItem(before), ByItem(after);
    AfterChangesOnce(after, was, c);
    BeforeChangesOnce(before, now, c);
    AfterChangesExplain(after, was, now);
    BeforeChangesExplain(before, was, now);
    assert c in AfterChanges(after, was) ==> c !in BeforeChanges(before, now);
  }

  lemma ShownBeforeTotal(a: Change, b: Change)
    requires ShownEntry(a).Some? && ShownEntry(b).Some? && a.item != b.item
    ensures ShownBefore(a, b) || ShownBefore(b, a)
  {
    StringLessTotal(ShownEntry(a).value.start, ShownEntry(b).value.start);
    StringLessTotal(a.item, b.item);
  }

  lemma ShownBeforeTransitive(a: Change, b: Change, c: Change)
    requires ShownBefore(a, b) && ShownBefore(b, c)
    ensures ShownBefore(a, c)
  {
    var x, y, z := ShownEntry(a).value.start, ShownEntry(b).value.start, ShownEntry(c).value.start;
    if StringLess(x, y) && StringLess(y, z) {
      StringLessTransitive(x, y, z);
    }
    if StringLess(a.item, b.item) && StringLess(b.item, c.item) {
      StringLessTransitive(a.item, b.item, c.item);
    }
  }

  lemma NeighboursDiffer(before: seq<Entry>, after: seq<Entry>, i: nat, j: nat)
    requires UniqueItems(before) && UniqueItems(after) && i < j < |Diff(before, after)|
    ensures Diff(before, after)[i].item != Diff(before, after)[j].item
    ensures ShownEntry(Diff(before, after)[i]).Some?
  {
    var cs := Diff(before, after);
    DiffExact(before, after, cs[i]);
    DiffExact(before, after, cs[j]);
    assert cs[i] in cs && cs[j] in cs;
    if cs[i].item == cs[j].item {
      ChangesOnce(before, after, cs[i]);
      TwiceInMultiset(cs, i, j);
    }
  }

  lemma TwiceInMultiset(cs: seq<Change>, i: nat, j: nat)
    requires i < j < |cs| && cs[i] == cs[j]
    ensures multiset(cs)[cs[i]] >= 2
  {
    assert cs == cs[..j] + [cs[j]] + cs[j + 1..];
    assert cs[i] in cs[..j];
  }

  /** The shown order is strict, so it does not depend on how the sort treats equals: there are none. */
  lemma {:induction false} DiffStrictlyOrdered(before: seq<Entry>, after: seq<Entry>, i: nat, j: nat)
    requires UniqueItems(before) && UniqueItems(after) && i < j < |Diff(before, after)|
    ensures ShownBefore(Diff(before, after)[i], Diff(before, after)[j])
    decreases j
  {
    var cs := Diff(before, after);
    var k := j - 1;
    NeighboursDiffer(before, after, k, j);
    LastShown(before, after, j);
    assert !ShownBefore(cs[k + 1], cs[k]);
    ShownBeforeTotal(cs[k], cs[j]);
    if i < k {
      DiffStrictlyOrdered(before, after, i, k);
      ShownBeforeTransitive(cs[i], cs[k], cs[j]);
    }
  }

  lemma LastShown(before: seq<Entry>, after: seq<Entry>, j: nat)
    requires UniqueItems(before) && UniqueItems(after) && j < |Diff(before, after)|
    ensures ShownEntry(Diff(before, after)[j]).Some?
  {
    DiffExact(before, after, Diff(before, after)[j]);
  }

  // ---------------------------------------------------------------- applying and undoing

  function ApplyChange(m: map<Item, Entry>, c: Change): map<Item, Entry> {
    if c.after.None? then m - {c.item} else m[c.item := c.after.value]
  }

  function Patch(m: map<Item, Entry>, cs: seq<Change>): map<Item, Entry>
    decreases |cs|
  {
    if cs == [] then m else Patch(ApplyChange(m, cs[0]), cs[1..])
  }

  lemma {:induction false} PatchLook(m: map<Item, Entry>, cs: seq<Change>, was: map<Item, Entry>, now: map<Item, Entry>, k: Item)
    requires forall c :: c in cs ==> Explains(c, was, now)
    requires Look(m, k) == Look(was, k) || Look(m, k) == Look(now, k)
    ensures Look(Patch(m, cs), k) == if HasItem(cs, k) then Look(now, k) else Look(m, k)
    decreases |cs|
  {
    if cs != [] {
      var next := ApplyChange(m, cs[0]);
      assert Explains(cs[0], was, now);
      assert Look(next, k) == if cs[0].item == k then Look(now, k) else Look(m, k);
      PatchLook(next, cs[1..], was, now, k);
      HasItemCons(cs, k);
    }
  }

  lemma HasItemCons(cs: seq<Change>, k: Item)
    requires cs != []
    ensures HasItem(cs, k) <==> cs[0].item == k || HasItem(cs[1..], k)
  {
    assert forall i :: 1 <= i < |cs| ==> cs[i] == cs[1..][i - 1];
    if HasItem(cs[1..], k) {
      var i :| 0 <= i < |cs| - 1 && cs[1..][i].item == k;
      assert cs[i + 1].item == k;
    }
  }

  lemma SameLooksSameMap(a: map<Item, Entry>, b: map<Item, Entry>)
    requires forall k :: Look(a, k) == Look(b, k)
    ensures a == b
  {
    forall k ensures k in a <==> k in b { assert Look(a, k) == Look(b, k); }
    forall k | k in a ensures a[k] == b[k] { assert Look(a, k) == Look(b, k); }
  }

  /** Applying the diff to what was gives what is. */
  lemma PatchOfDiff(before: seq<Entry>, after: seq<Entry>)
    requires UniqueItems(before) && UniqueItems(after)
    ensures Patch(ByItem(before), Diff(before, after)) == ByItem(after)
  {
    var was, now, cs := ByItem(before), ByItem(after), Diff(before, after);
    forall c | c in cs ensures Explains(c, was, now) { DiffExact(before, after, c); }
    forall k ensures Look(Patch(was, cs), k) == Look(now, k) {
      PatchLook(was, cs, was, now, k);
      if Look(was, k) != Look(now, k) {
        var c := ChangeOf(k, Look(was, k), Look(now, k));
        DiffExact(before, after, c);
        assert c in cs;
      }
    }
    SameLooksSameMap(Patch(was, cs), now);
  }

  function Inverse(c: Change): Change {
    var kind := match c.kind case Added => Removed case Removed => Added case Changed => Changed;
    Change(c.item, kind, c.after, c.before, c.fields)
  }

  lemma FieldsSymmetric(a: Entry, b: Entry)
    ensures ChangedFields(a, b) == ChangedFields(b, a)
  {
  }

  lemma InverseExplains(c: Change, was: map<Item, Entry>, now: map<Item, Entry>)
    ensures Explains(c, was, now) <==> Explains(Inverse(c), now, was)
  {
    var x, y := Look(was, c.item), Look(now, c.item);
    if x.Some? && y.Some? {
      FieldsSymmetric(x.value, y.value);
    }
    assert Inverse(Inverse(c)) == c;
  }

  /** Swapping the arguments gives exactly the inverse changes, so the opposite diff undoes the diff. */
  lemma DiffSwapped(before: seq<Entry>, after: seq<Entry>, c: Change)
    requires UniqueItems(before) && UniqueItems(after)
    ensures c in Diff(before, after) <==> Inverse(c) in Diff(after, before)
    ensures Patch(Patch(ByItem(before), Diff(before, after)), Diff(after, before)) == ByItem(before)
  {
    DiffExact(before, after, c);
    DiffExact(after, before, Inverse(c));
    InverseExplains(c, ByItem(before), ByItem(after));
    PatchOfDiff(before, after);
    PatchOfDiff(after, before);
  }

  /** There is nothing to show exactly when the two revisions are the same map. */
  lemma DiffEmptyExactly(before: seq<Entry>, after: seq<Entry>)
    requires UniqueItems(before) && UniqueItems(after)
    ensures Diff(before, after) == [] <==> ByItem(before) == ByItem(after)
  {
    PatchOfDiff(before, after);
    var cs := Diff(before, after);
    if ByItem(before) == ByItem(after) && cs != [] {
      DiffExact(before, after, cs[0]);
      assert false;
    }
  }
}
