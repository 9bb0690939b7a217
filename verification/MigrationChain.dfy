/** What a chain of migrations defines, which names can reach hidden data changes through those definitions, and what an additive file may do. */
module MigrationChain {
  import opened Wrappers

  type Name = string

  // ---------------------------------------------------------------- statements

  /** One reading of a statement's tokens: the targets of its INSERT INTO, MERGE INTO and COPY, and the names it calls. */
  datatype Look = Look(writes: seq<Name>, calls: seq<Name>)

  /** A statement as the pattern catalogue classifies it. `ids` are the identifiers of its text, in order, repetitions included. */
  datatype Statement =
    | Blank
    | Grant
    | Routine(name: Option<Name>, head: seq<Name>, body: seq<Name>, armed: bool, upserts: bool, support: bool, looks: seq<Look>)
    | EventTrigger(routine: Option<Name>, ids: seq<Name>, looks: seq<Look>)
    | Trigger(routine: Option<Name>, table: Option<Name>, ids: seq<Name>, looks: seq<Look>)
    | Definition(node: Name, ids: seq<Name>, looks: seq<Look>)
    | Other(ids: seq<Name>, bindsImplicitly: bool, looks: seq<Look>)

  function AsSeq(o: Option<Name>): seq<Name> { if o.Some? then [o.value] else [] }

  /** The identifiers a later rule looks at: the hidden body of a routine is not among them. */
  function Visible(s: Statement): seq<Name> {
    match s
    case Blank => []
    case Grant => []
    case Routine(_, head, _, _, _, _, _) => head
    case _ => s.ids
  }

  /** Names whose mention evaluates nothing, once each: what a routine defines, the function and the table a trigger binds. */
  function Exempt(s: Statement): seq<Name> {
    match s
    case Routine(name, _, _, _, _, _, _) => AsSeq(name)
    case Trigger(f, table, _, _) => AsSeq(f) + AsSeq(table)
    case _ => []
  }

  function Own(s: Statement): seq<Name> {
    match s
    case Routine(name, _, _, _, _, _, _) => AsSeq(name)
    case Trigger(f, _, _, _) => AsSeq(f)
    case _ => []
  }

  function Looks(s: Statement): seq<Look> {
    match s
    case Blank => []
    case Grant => []
    case _ => s.looks
  }

  /** `n` occurs in `names` more often than it is exempt. */
  predicate Beyond(names: seq<Name>, exempt: seq<Name>, n: Name) { multiset(names)[n] > multiset(exempt)[n] }

  // ---------------------------------------------------------------- the chain as a value

  datatype Chain = Chain(
    mentions: map<Name, set<Name>>,
    armed: set<Name>,
    eventFunctions: set<Name>,
    implicitMentions: set<Name>,
    upsertTriggerFunctions: set<Name>,
    routines: set<Name>)

  const EMPTY_CHAIN := Chain(map[], {}, {}, {}, {}, {})

  function Elements(names: seq<Name>): set<Name> { set n | n in names }

  function Toggle(s: set<Name>, n: Name, present: bool): set<Name> { if present then s + {n} else s - {n} }

  function Defined(m: map<Name, set<Name>>, node: Name, names: set<Name>): map<Name, set<Name>> {
    m[node := (if node in m then m[node] else {}) + (names - {node})]
  }

  lemma DefinedAfresh(m: map<Name, set<Name>>, node: Name, names: set<Name>)
    ensures Defined(m - {node}, node, names) == m[node := names - {node}]
  {
    assert {} + (names - {node}) == names - {node};
  }

  function AbsorbRoutine(c: Chain, s: Statement): Chain
    requires s.Routine? && s.name.Some?
  {
    var n := s.name.value;
    c.(mentions := c.mentions[n := Elements(s.head + s.body) - {n}],
       armed := Toggle(c.armed, n, s.armed),
       upsertTriggerFunctions := Toggle(c.upsertTriggerFunctions, n, s.upserts),
       routines := c.routines + {n},
       implicitMentions := if s.support then c.implicitMentions + Elements(s.head) else c.implicitMentions)
  }

  function Absorb(c: Chain, s: Statement): Chain {
    match s
    case Blank => c
    case Grant => c
    case Routine(name, _, _, _, _, _, _) => if name.Some? then AbsorbRoutine(c, s) else c
    case EventTrigger(f, _, _) => c.(eventFunctions := c.eventFunctions + Elements(AsSeq(f)))
    case Trigger(_, table, ids, _) => if table.Some? then c.(mentions := Defined(c.mentions, table.value, Elements(ids))) else c
    case Definition(node, ids, _) => c.(mentions := Defined(c.mentions, node, Elements(ids)))
    case Other(ids, implicit, _) => if implicit then c.(implicitMentions := c.implicitMentions + Elements(ids)) else c
  }

  function AbsorbAll(c: Chain, stmts: seq<Statement>): Chain
    decreases |stmts|
  {
    if stmts == [] then c else AbsorbAll(Absorb(c, stmts[0]), stmts[1..])
  }

  lemma {:induction false} AbsorbAllAppend(c: Chain, a: seq<Statement>, b: seq<Statement>)
    ensures AbsorbAll(c, a + b) == AbsorbAll(AbsorbAll(c, a), b)
    decreases |a|
  {
    if a == [] {
      assert a + b == b;
    } else {
      assert (a + b)[0] == a[0] && (a + b)[1..] == a[1..] + b;
      AbsorbAllAppend(Absorb(c, a[0]), a[1..], b);
    }
  }

  lemma AbsorbAllSnoc(c: Chain, stmts: seq<Statement>, k: nat)
    requires k < |stmts|
    ensures AbsorbAll(c, stmts[..k + 1]) == Absorb(AbsorbAll(c, stmts[..k]), stmts[k])
  {
    AbsorbAllAppend(c, stmts[..k], [stmts[k]]);
    assert stmts[..k + 1] == stmts[..k] + [stmts[k]];
  }

  // ---------------------------------------------------------------- reaching a seed

  predicate Mentions(m: map<Name, set<Name>>, a: Name, b: Name) { a in m && b in m[a] }

  /** `path` starts at `n`, follows recorded mentions and ends at a seed. */
  predicate IsPath(m: map<Name, set<Name>>, path: seq<Name>, n: Name, seeds: set<Name>) {
    && path != [] && path[0] == n && path[|path| - 1] in seeds
    && forall i :: 0 <= i < |path| - 1 ==> Mentions(m, path[i], path[i + 1])
  }

  ghost predicate Reaches(m: map<Name, set<Name>>, n: Name, seeds: set<Name>) { exists path :: IsPath(m, path, n, seeds) }

  ghost predicate Closed(m: map<Name, set<Name>>, t: set<Name>) { forall a, b :: Mentions(m, a, b) && b in t ==> a in t }

  /** Every name with a mention path to a seed, seeds included. */
  ghost function Taint(m: map<Name, set<Name>>, seeds: set<Name>): set<Name> {
    set n | n in m.Keys + seeds && Reaches(m, n, seeds)
  }

  lemma ReachesStep(m: map<Name, set<Name>>, a: Name, b: Name, seeds: set<Name>)
    requires Mentions(m, a, b) && Reaches(m, b, seeds)
    ensures Reaches(m, a, seeds)
  {
    var path :| IsPath(m, path, b, seeds);
    var longer := [a] + path;
    forall i | 0 <= i < |longer| - 1 ensures Mentions(m, longer[i], longer[i + 1]) {
      assert i > 0 ==> Mentions(m, path[i - 1], path[i]);
    }
    assert IsPath(m, longer, a, seeds);
  }

  lemma SeedReaches(m: map<Name, set<Name>>, n: Name, seeds: set<Name>)
    requires n in seeds
    ensures Reaches(m, n, seeds)
  {
    assert IsPath(m, [n], n, seeds);
  }

  lemma {:induction false} PathStaysIn(m: map<Name, set<Name>>, path: seq<Name>, n: Name, seeds: set<Name>, t: set<Name>)
    requires IsPath(m, path, n, seeds) && Closed(m, t) && seeds <= t
    ensures n in t
  {
    if |path| > 1 {
      var rest := path[1..];
      forall i | 0 <= i < |rest| - 1 ensures Mentions(m, rest[i], rest[i + 1]) {
        assert Mentions(m, path[i + 1], path[i + 2]);
      }
      PathStaysIn(m, rest, path[1], seeds, t);
      assert Mentions(m, path[0], path[1]);
    }
  }

  lemma ReachesStaysIn(m: map<Name, set<Name>>, n: Name, seeds: set<Name>, t: set<Name>)
    requires Reaches(m, n, seeds) && Closed(m, t) && seeds <= t
    ensures n in t
  {
    var path :| IsPath(m, path, n, seeds);
    PathStaysIn(m, path, n, seeds, t);
  }

  /** The taint is exactly the reaching names: none is missed although the set ranges over recorded names only. */
  lemma TaintExact(m: map<Name, set<Name>>, seeds: set<Name>, n: Name)
    ensures n in Taint(m, seeds) <==> Reaches(m, n, seeds)
  {
    if Reaches(m, n, seeds) {
      var path :| IsPath(m, path, n, seeds);
      assert |path| > 1 ==> Mentions(m, path[0], path[1]);
    }
  }

  /** The taint is the least set that holds the seeds and every name mentioning a member. */
  lemma TaintIsLeast(m: map<Name, set<Name>>, seeds: set<Name>)
    ensures seeds <= Taint(m, seeds) && Closed(m, Taint(m, seeds))
    ensures forall t: set<Name> :: seeds <= t && Closed(m, t) ==> Taint(m, seeds) <= t
  {
    forall n | n in seeds ensures n in Taint(m, seeds) { SeedReaches(m, n, seeds); }
    forall a, b | Mentions(m, a, b) && b in Taint(m, seeds) ensures a in Taint(m, seeds) { ReachesStep(m, a, b, seeds); }
    forall t: set<Name>, n | seeds <= t && Closed(m, t) && n in Taint(m, seeds) ensures n in t { ReachesStaysIn(m, n, seeds, t); }
  }

  lemma TaintInside(m: map<Name, set<Name>>, seeds: set<Name>, t: set<Name>)
    requires seeds <= t && Closed(m, t)
    ensures Taint(m, seeds) <= t
  {
    TaintIsLeast(m, seeds);
  }

  ghost predicate Extends(m: map<Name, set<Name>>, more: map<Name, set<Name>>) { forall a, b :: Mentions(m, a, b) ==> Mentions(more, a, b) }

  lemma MoreMentionsMoreTaint(m: map<Name, set<Name>>, more: map<Name, set<Name>>, seeds: set<Name>)
    requires Extends(m, more)
    ensures Taint(m, seeds) <= Taint(more, seeds)
  {
    TaintIsLeast(more, seeds);
    TaintInside(m, seeds, Taint(more, seeds));
  }

  /** Absorbing anything but a routine never shrinks what is tainted, whatever the seeds. */
  lemma NonRoutineNeverShrinksTaint(c: Chain, s: Statement, seeds: set<Name>)
    requires !s.Routine?
    ensures Taint(c.mentions, seeds) <= Taint(Absorb(c, s).mentions, seeds)
    ensures Absorb(c, s).armed == c.armed && Absorb(c, s).upsertTriggerFunctions == c.upsertTriggerFunctions
  {
    MoreMentionsMoreTaint(c.mentions, Absorb(c, s).mentions, seeds);
  }

  /** Redefining a routine can shrink it: here a clean second definition of a name that mentioned an armed one. */
  lemma RoutineCanShrinkTaint() returns (c: Chain, s: Statement)
    ensures s.Routine? && "g" in Taint(c.mentions, c.armed) && "g" !in Taint(Absorb(c, s).mentions, Absorb(c, s).armed)
  {
    c := EMPTY_CHAIN.(mentions := map["g" := {"f"}], armed := {"f"});
    s := Routine(Some("g"), ["g"], [], false, false, false, []);
    SeedReaches(c.mentions, "f", c.armed);
    assert Mentions(c.mentions, "g", "f");
    ReachesStep(c.mentions, "g", "f", c.armed);
    TaintExact(c.mentions, c.armed, "g");
    var after := Absorb(c, s);
    forall a, b ensures !Mentions(after.mentions, a, b) {
      assert Elements(["g"] + []) == {"g"};
    }
    assert Closed(after.mentions, {"f"});
    TaintIsLeast(after.mentions, after.armed);
    assert Taint(after.mentions, after.armed) <= {"f"};
  }

  // ---------------------------------------------------------------- what an additive file may not do

  datatype Finding =
    | MentionsTainted(name: Name)
    | Fires(name: Name)
    | CallsUpsert(name: Name)
    | EventReaches(name: Name)
    | ImplicitReaches(name: Name)

  ghost function Tainted(c: Chain): set<Name> { Taint(c.mentions, c.armed) }

  ghost function Hazard(c: Chain): set<Name> { Taint(c.mentions, c.upsertTriggerFunctions) }

  function MentionFindings(tainted: set<Name>, s: Statement): set<Finding> {
    set n | n in Visible(s) && n in tainted && Beyond(Visible(s), Exempt(s), n) :: MentionsTainted(n)
  }

  function CallFindings(hazard: set<Name>, routines: set<Name>, own: seq<Name>, calls: seq<Name>): set<Finding> {
    set n | n in calls && n in hazard && n in routines && Beyond(calls, own, n) :: CallsUpsert(n)
  }

  function LookFindings(hazard: set<Name>, routines: set<Name>, own: seq<Name>, look: Look): set<Finding> {
    (set n | n in look.writes && n in hazard :: Fires(n)) + CallFindings(hazard, routines, own, look.calls)
  }

  function FiringFindings(hazard: set<Name>, routines: set<Name>, own: seq<Name>, looks: seq<Look>): set<Finding> {
    if looks == [] then {}
    else LookFindings(hazard, routines, own, looks[0]) + FiringFindings(hazard, routines, own, looks[1..])
  }

  ghost function StatementFindings(c: Chain, s: Statement): set<Finding> {
    FiringFindings(Hazard(c), c.routines, Own(s), Looks(s)) + MentionFindings(Tainted(c), s)
  }

  function EndFindings(tainted: set<Name>, c: Chain): set<Finding> {
    (set n | n in c.eventFunctions && n in tainted :: EventReaches(n)) + (set n | n in c.implicitMentions && n in tainted :: ImplicitReaches(n))
  }

  /** The findings of a file walked statement by statement, each judged by the chain just before it. */
  ghost function FileFindings(c: Chain, stmts: seq<Statement>): set<Finding>
    decreases |stmts|
  {
    if stmts == [] then EndFindings(Tainted(c), c)
    else StatementFindings(c, stmts[0]) + FileFindings(Absorb(c, stmts[0]), stmts[1..])
  }

  // ---------------------------------------------------------------- what acceptance means

  /** Nothing the statement evaluates can run hidden data changes, by the definitions live just before it. */
  ghost predicate Harmless(c: Chain, s: Statement) {
    && (forall n :: Beyond(Visible(s), Exempt(s), n) ==> !Reaches(c.mentions, n, c.armed))
    && (forall k, n :: 0 <= k < |Looks(s)| && n in Looks(s)[k].writes ==> !Reaches(c.mentions, n, c.upsertTriggerFunctions))
    && (forall k, n :: 0 <= k < |Looks(s)| && n in c.routines && Beyond(Looks(s)[k].calls, Own(s), n) ==>
          !Reaches(c.mentions, n, c.upsertTriggerFunctions))
  }

  /** Nothing that runs without being named can run hidden data changes. */
  ghost predicate NothingHiddenRuns(c: Chain) { forall n :: n in c.eventFunctions + c.implicitMentions ==> !Reaches(c.mentions, n, c.armed) }

  lemma BeyondIsIn(names: seq<Name>, exempt: seq<Name>, n: Name)
    requires Beyond(names, exempt, n)
    ensures n in names
  {
    assert n in multiset(names);
  }

  function Occurrences(names: seq<Name>, n: Name): nat { multiset(names)[n] }

  function One(o: Option<Name>, n: Name): nat { if o == Some(n) then 1 else 0 }

  /** What is looked at and what is excused, kind by kind: a grant mentions nothing, a routine its head less its own name once, a trigger its text less its function and its table once each. */
  lemma ExcusedExactly(s: Statement, n: Name)
    ensures Beyond(Visible(s), Exempt(s), n) <==>
            match s
            case Blank => false
            case Grant => false
            case Routine(name, head, _, _, _, _, _) => Occurrences(head, n) > One(name, n)
            case Trigger(f, table, ids, _) => Occurrences(ids, n) > One(f, n) + One(table, n)
            case EventTrigger(_, ids, _) => n in ids
            case Definition(_, ids, _) => n in ids
            case Other(ids, _, _) => n in ids
  {
    match s
    case Routine(name, head, _, _, _, _, _) => AsSeqCounts(name, n);
    case Trigger(f, table, ids, _) => AsSeqCounts(f, n); AsSeqCounts(table, n);
    case _ => InOccurs(Visible(s), n);
  }

  lemma InOccurs(names: seq<Name>, n: Name)
    ensures n in names <==> Occurrences(names, n) > 0
  {
    assert n in names <==> n in multiset(names);
  }

  lemma AsSeqCounts(o: Option<Name>, n: Name)
    ensures multiset(AsSeq(o))[n] == One(o, n)
  {
  }

  /** A call is excused as often as the statement defines or binds the routine, which is once. */
  lemma OwnExactly(s: Statement, n: Name)
    ensures multiset(Own(s))[n] ==
            match s
            case Routine(name, _, _, _, _, _, _) => One(name, n)
            case Trigger(f, _, _, _) => One(f, n)
            case _ => 0
  {
    match s
    case Routine(name, _, _, _, _, _, _) => AsSeqCounts(name, n);
    case Trigger(f, _, _, _) => AsSeqCounts(f, n);
    case _ =>
  }

  lemma {:induction false} NoFiringFindings(hazard: set<Name>, routines: set<Name>, own: seq<Name>, looks: seq<Look>)
    ensures FiringFindings(hazard, routines, own, looks) == {} <==>
            forall k :: 0 <= k < |looks| ==> LookFindings(hazard, routines, own, looks[k]) == {}
  {
    if looks != [] {
      NoFiringFindings(hazard, routines, own, looks[1..]);
      assert forall k :: 0 < k < |looks| ==> looks[k] == looks[1..][k - 1];
      var rest := FiringFindings(hazard, routines, own, looks[1..]);
      assert FiringFindings(hazard, routines, own, looks) == LookFindings(hazard, routines, own, looks[0]) + rest;
      if rest == {} {
        forall k | 0 < k < |looks| ensures LookFindings(hazard, routines, own, looks[k]) == {} {
          assert looks[k] == looks[1..][k - 1];
        }
      }
    }
  }

  lemma NoLookFindings(hazard: set<Name>, routines: set<Name>, own: seq<Name>, look: Look)
    ensures LookFindings(hazard, routines, own, look) == {} <==>
            && (forall n :: n in look.writes ==> n !in hazard)
            && (forall n :: n in routines && Beyond(look.calls, own, n) ==> n !in hazard)
  {
    var fs := LookFindings(hazard, routines, own, look);
    if fs == {} {
      forall n | n in look.writes ensures n !in hazard { assert Fires(n) !in fs; }
      forall n | n in routines && Beyond(look.calls, own, n) ensures n !in hazard {
        BeyondIsIn(look.calls, own, n);
        assert CallsUpsert(n) !in fs;
      }
    }
  }

  lemma NoMentionFindings(tainted: set<Name>, s: Statement)
    ensures MentionFindings(tainted, s) == {} <==> forall n :: Beyond(Visible(s), Exempt(s), n) ==> n !in tainted
  {
    var fs := MentionFindings(tainted, s);
    if fs == {} {
      forall n | Beyond(Visible(s), Exempt(s), n) ensures n !in tainted {
        BeyondIsIn(Visible(s), Exempt(s), n);
        assert MentionsTainted(n) !in fs;
      }
    }
  }

  lemma NoEndFindings(tainted: set<Name>, c: Chain)
    ensures EndFindings(tainted, c) == {} <==> forall n :: n in c.eventFunctions + c.implicitMentions ==> n !in tainted
  {
    var fs := EndFindings(tainted, c);
    if fs == {} {
      forall n | n in c.eventFunctions + c.implicitMentions ensures n !in tainted {
        assert EventReaches(n) !in fs && ImplicitReaches(n) !in fs;
      }
    }
  }

  lemma NoFiring(c: Chain, s: Statement)
    ensures FiringFindings(Hazard(c), c.routines, Own(s), Looks(s)) == {} <==>
            && (forall k, n :: 0 <= k < |Looks(s)| && n in Looks(s)[k].writes ==> n !in Hazard(c))
            && (forall k, n :: 0 <= k < |Looks(s)| && n in c.routines && Beyond(Looks(s)[k].calls, Own(s), n) ==> n !in Hazard(c))
  {
    NoFiringFindings(Hazard(c), c.routines, Own(s), Looks(s));
    forall k | 0 <= k < |Looks(s)|
      ensures LookFindings(Hazard(c), c.routines, Own(s), Looks(s)[k]) == {} <==>
              && (forall n :: n in Looks(s)[k].writes ==> n !in Hazard(c))
              && (forall n :: n in c.routines && Beyond(Looks(s)[k].calls, Own(s), n) ==> n !in Hazard(c))
    {
      NoLookFindings(Hazard(c), c.routines, Own(s), Looks(s)[k]);
    }
  }

  /** A statement draws no finding exactly when it is harmless. */
  lemma AcceptedStatementIsHarmless(c: Chain, s: Statement)
    ensures StatementFindings(c, s) == {} <==> Harmless(c, s)
  {
    NoFiring(c, s);
    NoMentionFindings(Tainted(c), s);
    forall n ensures n in Tainted(c) <==> Reaches(c.mentions, n, c.armed) { TaintExact(c.mentions, c.armed, n); }
    forall n ensures n in Hazard(c) <==> Reaches(c.mentions, n, c.upsertTriggerFunctions) { TaintExact(c.mentions, c.upsertTriggerFunctions, n); }
    EmptyUnion(FiringFindings(Hazard(c), c.routines, Own(s), Looks(s)), MentionFindings(Tainted(c), s));
  }

  lemma EmptyUnion<T>(a: set<T>, b: set<T>)
    ensures a + b == {} <==> a == {} && b == {}
  {
    if a + b == {} {
      assert forall x :: x in a ==> x in a + b;
      assert forall x :: x in b ==> x in a + b;
    }
  }

  lemma QuietEnd(c: Chain)
    ensures EndFindings(Tainted(c), c) == {} <==> NothingHiddenRuns(c)
  {
    NoEndFindings(Tainted(c), c);
    forall n ensures n in Tainted(c) <==> Reaches(c.mentions, n, c.armed) { TaintExact(c.mentions, c.armed, n); }
  }

  ghost predicate AllHarmless(c: Chain, stmts: seq<Statement>)
    decreases |stmts|
  {
    stmts == [] || (Harmless(c, stmts[0]) && AllHarmless(Absorb(c, stmts[0]), stmts[1..]))
  }

  ghost predicate HarmlessAt(c: Chain, stmts: seq<Statement>, k: nat)
    requires k < |stmts|
  {
    Harmless(AbsorbAll(c, stmts[..k]), stmts[k])
  }

  lemma HarmlessAtShift(c: Chain, stmts: seq<Statement>, k: nat)
    requires k + 1 < |stmts|
    ensures HarmlessAt(c, stmts, k + 1) == HarmlessAt(Absorb(c, stmts[0]), stmts[1..], k)
  {
    assert stmts[..k + 1][1..] == stmts[1..][..k];
  }

  lemma {:induction false} AllHarmlessMeans(c: Chain, stmts: seq<Statement>)
    ensures AllHarmless(c, stmts) <==> forall k :: 0 <= k < |stmts| ==> HarmlessAt(c, stmts, k)
    decreases |stmts|
  {
    if stmts != [] {
      var next, rest := Absorb(c, stmts[0]), stmts[1..];
      AllHarmlessMeans(next, rest);
      assert HarmlessAt(c, stmts, 0) == Harmless(c, stmts[0]);
      forall k | 0 <= k < |rest| ensures HarmlessAt(next, rest, k) == HarmlessAt(c, stmts, k + 1) { HarmlessAtShift(c, stmts, k); }
      forall k | 0 < k < |stmts| ensures HarmlessAt(c, stmts, k) == HarmlessAt(next, rest, k - 1) { HarmlessAtShift(c, stmts, k - 1); }
    }
  }

  lemma {:induction false} AcceptedFileWalk(c: Chain, stmts: seq<Statement>)
    ensures FileFindings(c, stmts) == {} <==> AllHarmless(c, stmts) && NothingHiddenRuns(AbsorbAll(c, stmts))
    decreases |stmts|
  {
    if stmts == [] {
      QuietEnd(c);
    } else {
      var next, rest := Absorb(c, stmts[0]), stmts[1..];
      AcceptedStatementIsHarmless(c, stmts[0]);
      AcceptedFileWalk(next, rest);
      EmptyUnion(StatementFindings(c, stmts[0]), FileFindings(next, rest));
    }
  }

  /** An additive file is accepted exactly when each statement is harmless where it stands and nothing hidden runs afterwards. */
  lemma AcceptedFileIsSafe(c: Chain, stmts: seq<Statement>)
    ensures FileFindings(c, stmts) == {} <==>
            && (forall k :: 0 <= k < |stmts| ==> HarmlessAt(c, stmts, k))
            && NothingHiddenRuns(AbsorbAll(c, stmts))
  {
    AcceptedFileWalk(c, stmts);
    AllHarmlessMeans(c, stmts);
  }

  lemma NewMentionIsVisible(c: Chain, s: Statement, a: Name, b: Name)
    requires !s.Routine? && !s.Trigger?
    requires Mentions(Absorb(c, s).mentions, a, b) && !Mentions(c.mentions, a, b)
    ensures Beyond(Visible(s), Exempt(s), b)
  {
    assert b in Visible(s) && Exempt(s) == [];
    assert b in multiset(Visible(s));
  }

  lemma CleanMentionsKeepClosed(m: map<Name, set<Name>>, more: map<Name, set<Name>>, seeds: set<Name>)
    requires forall a, b :: Mentions(more, a, b) && !Mentions(m, a, b) ==> b !in Taint(m, seeds)
    ensures seeds <= Taint(m, seeds) && Closed(more, Taint(m, seeds))
  {
    TaintIsLeast(m, seeds);
  }

  lemma CleanMentionsKeepTaint(m: map<Name, set<Name>>, more: map<Name, set<Name>>, seeds: set<Name>)
    requires Extends(m, more)
    requires forall a, b :: Mentions(more, a, b) && !Mentions(m, a, b) ==> b !in Taint(m, seeds)
    ensures Taint(more, seeds) == Taint(m, seeds)
  {
    MoreMentionsMoreTaint(m, more, seeds);
    CleanMentionsKeepClosed(m, more, seeds);
    TaintInside(more, seeds, Taint(m, seeds));
  }

  /** An accepted statement that defines no routine and binds no trigger leaves the taint exactly as it was. */
  lemma AcceptedStatementSpreadsNothing(c: Chain, s: Statement)
    requires StatementFindings(c, s) == {} && !s.Routine? && !s.Trigger?
    ensures Tainted(Absorb(c, s)) == Tainted(c)
  {
    EmptyUnion(FiringFindings(Hazard(c), c.routines, Own(s), Looks(s)), MentionFindings(Tainted(c), s));
    NoMentionFindings(Tainted(c), s);
    var m, more := c.mentions, Absorb(c, s).mentions;
    forall a, b | Mentions(more, a, b) && !Mentions(m, a, b) ensures b !in Taint(m, c.armed) {
      NewMentionIsVisible(c, s, a, b);
    }
    CleanMentionsKeepTaint(m, more, c.armed);
  }

  // ---------------------------------------------------------------- the checks as the source runs them

  /** The list without the first occurrence of `name`, if it has one. */
  method RemoveOnce(names: seq<Name>, name: Name) returns (rest: seq<Name>)
    ensures multiset(rest) == multiset(names) - multiset{name}
  {
    var at := 0;
    while at < |names| && names[at] != name
      invariant at <= |names| && name !in names[..at]
    {
      at := at + 1;
    }
    if at < |names| {
      rest := names[..at] + names[at + 1..];
      assert names == names[..at] + [name] + names[at + 1..];
    } else {
      rest := names;
      assert names == names[..at] && name !in multiset(names);
    }
  }

  lemma MultisetSnoc(names: seq<Name>, i: nat)
    requires i < |names|
    ensures multiset(names[..i + 1]) == multiset(names[..i]) + multiset{names[i]}
  {
    assert names[..i + 1] == names[..i] + [names[i]];
  }

  /** Each exempt name excuses one occurrence only. */
  method RemoveEach(ids: seq<Name>, exempt: seq<Name>) returns (rest: seq<Name>)
    ensures forall n :: n in rest <==> Beyond(ids, exempt, n)
  {
    rest := ids;
    for i := 0 to |exempt|
      invariant multiset(rest) == multiset(ids) - multiset(exempt[..i])
    {
      rest := RemoveOnce(rest, exempt[i]);
      MultisetSnoc(exempt, i);
    }
    assert exempt[..|exempt|] == exempt;
    forall n ensures n in rest <==> Beyond(ids, exempt, n) { assert n in rest <==> n in multiset(rest); }
  }

  method CheckMentions(tainted: set<Name>, s: Statement) returns (found: set<Finding>)
    ensures found == MentionFindings(tainted, s)
  {
    found := {};
    if tainted != {} {
      var rest := RemoveEach(Visible(s), Exempt(s));
      for i := 0 to |rest|
        invariant found == set n | n in rest[..i] && n in tainted :: MentionsTainted(n)
      {
        if rest[i] in tainted {
          found := found + {MentionsTainted(rest[i])};
        }
        assert rest[..i + 1] == rest[..i] + [rest[i]];
      }
      forall n | Beyond(Visible(s), Exempt(s), n) ensures n in Visible(s) { BeyondIsIn(Visible(s), Exempt(s), n); }
    }
  }

  lemma CallFindingsSnoc(hazard: set<Name>, routines: set<Name>, own: seq<Name>, calls: seq<Name>, i: nat)
    requires i < |calls|
    ensures CallFindings(hazard, routines, own, calls[..i + 1]) == CallFindings(hazard, routines, own, calls[..i])
      + (if calls[i] in hazard && calls[i] in routines && Beyond(calls[..i + 1], own, calls[i]) then {CallsUpsert(calls[i])} else {})
  {
    MultisetSnoc(calls, i);
    assert calls[..i + 1] == calls[..i] + [calls[i]];
    forall n | n in calls[..i] && n != calls[i] ensures Beyond(calls[..i + 1], own, n) == Beyond(calls[..i], own, n) {
      assert multiset(calls[..i + 1])[n] == multiset(calls[..i])[n];
    }
  }

  /** How often a name may still be skipped: its exempt occurrences less the calls already seen. */
  ghost predicate SkipsLeft(skipOnce: seq<Name>, own: seq<Name>, calls: seq<Name>, i: nat, n: Name)
    requires i <= |calls|
  {
    var left: int := (multiset(own)[n] as int) - (multiset(calls[..i])[n] as int);
    multiset(skipOnce)[n] == (if left > 0 then left else 0)
  }

  method CheckCalls(hazard: set<Name>, routines: set<Name>, own: seq<Name>, calls: seq<Name>) returns (found: set<Finding>)
    ensures found == CallFindings(hazard, routines, own, calls)
  {
    found := {};
    var skipOnce := own;
    for i := 0 to |calls|
      invariant forall n :: n in hazard && n in routines ==> SkipsLeft(skipOnce, own, calls, i, n)
      invariant found == CallFindings(hazard, routines, own, calls[..i])
    {
      CallFindingsSnoc(hazard, routines, own, calls, i);
      MultisetSnoc(calls, i);
      if calls[i] in hazard && calls[i] in routines {
        if calls[i] in skipOnce {
          assert multiset(skipOnce)[calls[i]] > 0;
          skipOnce := RemoveOnce(skipOnce, calls[i]);
        } else {
          assert multiset(skipOnce)[calls[i]] == 0;
          found := found + {CallsUpsert(calls[i])};
        }
      }
    }
    assert calls[..|calls|] == calls;
  }

  method CheckLook(hazard: set<Name>, routines: set<Name>, own: seq<Name>, look: Look) returns (found: set<Finding>)
    ensures found == LookFindings(hazard, routines, own, look)
  {
    var fires: set<Finding> := {};
    for i := 0 to |look.writes|
      invariant fires == set n | n in look.writes[..i] && n in hazard :: Fires(n)
    {
      if look.writes[i] in hazard {
        fires := fires + {Fires(look.writes[i])};
      }
      assert look.writes[..i + 1] == look.writes[..i] + [look.writes[i]];
    }
    assert look.writes[..|look.writes|] == look.writes;
    var calls := CheckCalls(hazard, routines, own, look.calls);
    found := fires + calls;
  }

  lemma {:induction false} FiringFindingsAppend(hazard: set<Name>, routines: set<Name>, own: seq<Name>, looks: seq<Look>, look: Look)
    ensures FiringFindings(hazard, routines, own, looks + [look])
              == FiringFindings(hazard, routines, own, looks) + LookFindings(hazard, routines, own, look)
  {
    if looks == [] {
      assert looks + [look] == [look] && [look][1..] == [];
    } else {
      assert (looks + [look])[1..] == looks[1..] + [look];
      FiringFindingsAppend(hazard, routines, own, looks[1..], look);
    }
  }

  method CheckFiring(hazard: set<Name>, routines: set<Name>, s: Statement) returns (found: set<Finding>)
    ensures found == FiringFindings(hazard, routines, Own(s), Looks(s))
  {
    found := {};
    var looks := Looks(s);
    for i := 0 to |looks|
      invariant found == FiringFindings(hazard, routines, Own(s), looks[..i])
    {
      var more := CheckLook(hazard, routines, Own(s), looks[i]);
      FiringFindingsAppend(hazard, routines, Own(s), looks[..i], looks[i]);
      assert looks[..i + 1] == looks[..i] + [looks[i]];
      found := found + more;
    }
    assert looks[..|looks|] == looks;
  }

  // ---------------------------------------------------------------- the chain as the source keeps it

  class NameSet {
    var names: set<Name>

    constructor (names: set<Name>)
      ensures this.names == names
    {
      this.names := names;
    }
  }

  class DefinitionChain {
    var mentions: map<Name, NameSet>
    var armed: set<Name>
    var eventFunctions: set<Name>
    var implicitMentions: set<Name>
    var upsertTriggerFunctions: set<Name>
    var routines: set<Name>

    /** No two nodes share a set object. */
    ghost predicate Valid()
      reads this`mentions
    {
      forall a, b :: a in mentions && b in mentions && a != b ==> mentions[a] != mentions[b]
    }

    ghost function Repr(): set<object>
      reads this`mentions
    {
      {this} + mentions.Values
    }

    ghost function MentionView(): map<Name, set<Name>>
      reads this`mentions, mentions.Values
    {
      map n | n in mentions :: mentions[n].names
    }

    ghost function View(): Chain
      reads this, mentions.Values
    {
      Chain(MentionView(), armed, eventFunctions, implicitMentions, upsertTriggerFunctions, routines)
    }

    constructor ()
      ensures Valid() && View() == EMPTY_CHAIN && fresh(Repr())
    {
      mentions, armed, eventFunctions, implicitMentions, upsertTriggerFunctions, routines := map[], {}, {}, {}, {}, {};
    }

    /** A deep copy: no set object is shared with the original. */
    constructor Clone(c: DefinitionChain)
      requires c.Valid()
      ensures Valid() && View() == c.View() && fresh(Repr())
    {
      mentions, armed, eventFunctions, implicitMentions := map[], c.armed, c.eventFunctions, c.implicitMentions;
      upsertTriggerFunctions, routines := c.upsertTriggerFunctions, c.routines;
      new;
      var todo := c.mentions.Keys;
      while todo != {}
        invariant todo <= c.mentions.Keys && mentions.Keys == c.mentions.Keys - todo
        invariant Valid()
        invariant forall n :: n in mentions ==> fresh(mentions[n])
        invariant forall n :: n in mentions ==> mentions[n].names == c.mentions[n].names
        invariant armed == c.armed && eventFunctions == c.eventFunctions && implicitMentions == c.implicitMentions
        invariant upsertTriggerFunctions == c.upsertTriggerFunctions && routines == c.routines
      {
        var n :| n in todo;
        var copy := new NameSet(c.mentions[n].names);
        assert copy !in mentions.Values;
        mentions := mentions[n := copy];
        todo := todo - {n};
      }
    }

    /** Add what the definition of `node` mentions, except itself. */
    method Define(node: Name, names: seq<Name>)
      requires Valid()
      modifies this`mentions, mentions.Values
      ensures Valid() && fresh(Repr() - old(Repr()))
      ensures MentionView() == Defined(old(MentionView()), node, Elements(names))
    {
      if node !in mentions {
        var s := new NameSet({});
        mentions := mentions[node := s];
      }
      var s := mentions[node];
      for i := 0 to |names|
        modifies s
        invariant s.names == old(if node in MentionView() then MentionView()[node] else {}) + (Elements(names[..i]) - {node})
      {
        if names[i] != node {
          s.names := s.names + {names[i]};
        }
        assert names[..i + 1] == names[..i] + [names[i]];
      }
      assert names[..|names|] == names;
    }

    method AbsorbStatement(s: Statement)
      requires Valid()
      modifies this, mentions.Values
      ensures Valid() && fresh(Repr() - old(Repr()))
      ensures View() == Absorb(old(View()), s)
    {
      match s
      case Blank =>
      case Grant =>
      case Routine(name, head, body, isArmed, upserts, support, _) =>
        if name.Some? {
          DefineRoutine(name.value, s);
        }
      case EventTrigger(f, _, _) =>
        if f.Some? {
          eventFunctions := eventFunctions + {f.value};
        }
      case Trigger(_, table, ids, _) =>
        if table.Some? {
          Define(table.value, ids);
        }
      case Definition(node, ids, _) =>
        Define(node, ids);
      case Other(ids, implicit, _) =>
        if implicit {
          implicitMentions := implicitMentions + Elements(ids);
        }
    }

    /** CREATE OR REPLACE: the old definition of the name is forgotten. */
    method Redefine(node: Name, names: seq<Name>)
      requires Valid()
      modifies this`mentions, mentions.Values
      ensures Valid() && fresh(Repr() - old(Repr()))
      ensures MentionView() == old(MentionView())[node := Elements(names) - {node}]
    {
      mentions := mentions - {node};
      assert MentionView() == old(MentionView()) - {node};
      Define(node, names);
      DefinedAfresh(old(MentionView()), node, Elements(names));
    }

    method DefineRoutine(name: Name, s: Statement)
      requires Valid() && s.Routine? && s.name == Some(name)
      modifies this, mentions.Values
      ensures Valid() && fresh(Repr() - old(Repr()))
      ensures View() == AbsorbRoutine(old(View()), s)
    {
      routines := routines + {name};
      Redefine(name, s.head + s.body);
      ghost var m := MentionView();
      armed := Toggle(armed, name, s.armed);
      upsertTriggerFunctions := Toggle(upsertTriggerFunctions, name, s.upserts);
      if s.support {
        implicitMentions := implicitMentions + Elements(s.head);
      }
      assert MentionView() == m;
    }

    method AbsorbStatements(stmts: seq<Statement>)
      requires Valid()
      modifies this, mentions.Values
      ensures Valid() && fresh(Repr() - old(Repr()))
      ensures View() == AbsorbAll(old(View()), stmts)
    {
      for k := 0 to |stmts|
        invariant Valid() && fresh(Repr() - old(Repr()))
        invariant View() == AbsorbAll(old(View()), stmts[..k])
      {
        AbsorbStatement(stmts[k]);
        AbsorbAllSnoc(old(View()), stmts, k);
      }
      assert stmts[..|stmts|] == stmts;
    }

    /** Loop until a whole pass over the definitions adds nothing. */
    method TaintedFrom(seeds: set<Name>) returns (tainted: set<Name>)
      requires Valid()
      ensures tainted == Taint(MentionView(), seeds)
    {
      ghost var m, all := MentionView(), Taint(MentionView(), seeds);
      TaintIsLeast(m, seeds);
      tainted := seeds;
      var changed := true;
      while changed
        invariant seeds <= tainted <= all
        invariant !changed ==> Closed(m, tainted)
        decreases mentions.Keys - tainted, changed
      {
        tainted, changed := Pass(m, all, tainted);
      }
    }

    /** One pass of the loop, in whatever order the definitions come. */
    method Pass(ghost m: map<Name, set<Name>>, ghost all: set<Name>, before: set<Name>) returns (tainted: set<Name>, changed: bool)
      requires Valid() && m == MentionView()
      requires before <= all && Closed(m, all)
      ensures before <= tainted <= all
      ensures changed ==> mentions.Keys - tainted < mentions.Keys - before
      ensures !changed ==> tainted == before && Closed(m, before)
    {
      tainted, changed := before, false;
      var todo := mentions.Keys;
      while todo != {}
        invariant todo <= mentions.Keys
        invariant before <= tainted <= all
        invariant changed ==> mentions.Keys - tainted < mentions.Keys - before
        invariant !changed ==> tainted == before
        invariant !changed ==> forall a, b :: a !in todo && Mentions(m, a, b) && b in before ==> a in before
      {
        var node :| node in todo;
        todo := todo - {node};
        if node !in tainted && exists n :: n in mentions[node].names && n in tainted {
          ghost var n :| n in mentions[node].names && n in tainted;
          assert Mentions(m, node, n);
          tainted := tainted + {node};
          changed := true;
        }
      }
    }

    method CheckStatement(s: Statement) returns (found: set<Finding>)
      requires Valid()
      ensures found == StatementFindings(View(), s)
    {
      var tainted := TaintedFrom(armed);
      var hazard := TaintedFrom(upsertTriggerFunctions);
      var firing := CheckFiring(hazard, routines, s);
      var mentioned := CheckMentions(tainted, s);
      assert View().mentions == MentionView();
      assert tainted == Tainted(View()) && hazard == Hazard(View());
      found := firing + mentioned;
    }

    method CheckEnd() returns (found: set<Finding>)
      requires Valid()
      ensures found == EndFindings(Tainted(View()), View())
    {
      var after := TaintedFrom(armed);
      found := (set n | n in eventFunctions && n in after :: EventReaches(n)) + (set n | n in implicitMentions && n in after :: ImplicitReaches(n));
    }

    /** Walk a file over this chain, which ends as if the file had simply been absorbed. */
    method WalkFile(stmts: seq<Statement>) returns (found: set<Finding>)
      requires Valid()
      modifies this, mentions.Values
      ensures Valid() && fresh(Repr() - old(Repr()))
      ensures View() == AbsorbAll(old(View()), stmts)
      ensures found == FileFindings(old(View()), stmts)
    {
      ghost var start := View();
      found := {};
      for k := 0 to |stmts|
        invariant Valid() && fresh(Repr() - old(Repr()))
        invariant View() == AbsorbAll(start, stmts[..k])
        invariant FileFindings(start, stmts) == found + FileFindings(View(), stmts[k..])
      {
        ghost var before, sofar := View(), found;
        var more := CheckStatement(stmts[k]);
        found := found + more;
        AbsorbStatement(stmts[k]);
        AbsorbAllSnoc(start, stmts, k);
        FileFindingsStep(before, stmts, k, sofar);
      }
      assert stmts[..|stmts|] == stmts;
      var last := CheckEnd();
      found := found + last;
    }

    /** What an additive file may not do: the walk is done on a copy, and the caller's chain stays as it is. */
    method ChainViolations(stmts: seq<Statement>) returns (found: set<Finding>)
      requires Valid()
      ensures Valid() && View() == old(View()) && Repr() == old(Repr())
      ensures found == FileFindings(View(), stmts)
    {
      var work := new DefinitionChain.Clone(this);
      found := work.WalkFile(stmts);
    }
  }

  lemma FileFindingsStep(c: Chain, stmts: seq<Statement>, k: nat, found: set<Finding>)
    requires k < |stmts|
    ensures found + FileFindings(c, stmts[k..]) == (found + StatementFindings(c, stmts[k])) + FileFindings(Absorb(c, stmts[k]), stmts[k + 1..])
  {
    assert stmts[k..][0] == stmts[k] && stmts[k..][1..] == stmts[k + 1..];
  }

  // ---------------------------------------------------------------- a whole chain of files

  datatype File = File(statements: seq<Statement>, additive: bool)

  function AllStatements(files: seq<File>): seq<Statement> {
    if files == [] then [] else AllStatements(files[..|files| - 1]) + files[|files| - 1].statements
  }

  /** The chain a file is judged by: everything before it, whatever the class of the files that hold it. */
  function Before(files: seq<File>, i: nat): Chain
    requires i <= |files|
  {
    AbsorbAll(EMPTY_CHAIN, AllStatements(files[..i]))
  }

  lemma BeforeNext(files: seq<File>, i: nat)
    requires i < |files|
    ensures Before(files, i + 1) == AbsorbAll(Before(files, i), files[i].statements)
  {
    assert files[..i + 1][..i] == files[..i];
    AbsorbAllAppend(EMPTY_CHAIN, AllStatements(files[..i]), files[i].statements);
  }

  /** The findings that are due to the chain before the file; legacy and contract files have none. */
  ghost function Verdict(files: seq<File>, i: nat): set<Finding>
    requires i < |files|
  {
    if files[i].additive then FileFindings(Before(files, i), files[i].statements) else {}
  }

  /** The findings of the files judged so far. */
  ghost predicate Judged(files: seq<File>, findings: seq<set<Finding>>) {
    |findings| <= |files| && forall m :: 0 <= m < |findings| ==> findings[m] == Verdict(files, m)
  }

  lemma JudgedSnoc(files: seq<File>, findings: seq<set<Finding>>, found: set<Finding>)
    requires Judged(files, findings) && |findings| < |files| && found == Verdict(files, |findings|)
    ensures Judged(files, findings + [found])
  {
  }

  method ScanMigrationChain(files: seq<File>) returns (findings: seq<set<Finding>>)
    ensures |findings| == |files| && Judged(files, findings)
    ensures forall i, f :: 0 <= i < |files| ==> (f in findings[i] <==> DueIn(files, i, f))
  {
    var chain := new DefinitionChain();
    findings := [];
    for i := 0 to |files|
      invariant chain.Valid() && fresh(chain.Repr()) && chain.View() == Before(files, i)
      invariant |findings| == i && Judged(files, findings)
    {
      var found := ScanFile(chain, files, i);
      JudgedSnoc(files, findings, found);
      findings := findings + [found];
    }
    forall i | 0 <= i < |files| ensures forall f :: f in findings[i] <==> DueIn(files, i, f) { ScanIsExact(files, findings, i); }
  }

  method ScanFile(chain: DefinitionChain, files: seq<File>, i: nat) returns (found: set<Finding>)
    requires i < |files| && chain.Valid() && chain.View() == Before(files, i)
    modifies chain, chain.mentions.Values
    ensures chain.Valid() && fresh(chain.Repr() - old(chain.Repr())) && chain.View() == Before(files, i + 1)
    ensures found == Verdict(files, i)
  {
    found := {};
    if files[i].additive {
      found := chain.ChainViolations(files[i].statements);
    }
    BeforeNext(files, i);
    chain.AbsorbStatements(files[i].statements);
  }

  // ---------------------------------------------------------------- what a history of statements defines

  /** The two kinds of routine whose reach is followed. */
  datatype Danger = Armed | Upserting

  predicate Defines(s: Statement, n: Name) { s.Routine? && s.name == Some(n) }

  predicate Endangers(s: Statement, d: Danger, n: Name) { Defines(s, n) && if d.Armed? then s.armed else s.upserts }

  /** The statement records that the definition of `a` mentions `b`. */
  predicate Records(s: Statement, a: Name, b: Name) {
    && a != b
    && match s
       case Routine(name, head, body, _, _, _, _) => name == Some(a) && b in head + body
       case Trigger(_, table, ids, _) => table == Some(a) && b in ids
       case Definition(node, ids, _) => node == a && b in ids
       case _ => false
  }

  /** An event trigger of the statement runs `n`. */
  predicate Binds(s: Statement, n: Name) { s.EventTrigger? && s.routine == Some(n) }

  /** The statement makes `n` run without naming it where it runs. */
  predicate Implies(s: Statement, n: Name) {
    match s
    case Routine(name, head, _, _, _, support, _) => name.Some? && support && n in head
    case Other(ids, implicit, _) => implicit && n in ids
    case _ => false
  }

  /** The statement makes `n` run without being named. */
  predicate Hides(s: Statement, n: Name) { Binds(s, n) || Implies(s, n) }

  /** No statement after the `j`-th defines a routine of the name `n`. */
  predicate Live(h: seq<Statement>, j: nat, n: Name) { forall k :: j < k < |h| ==> !Defines(h[k], n) }

  ghost predicate LiveRecord(h: seq<Statement>, a: Name, b: Name) { exists j :: 0 <= j < |h| && Records(h[j], a, b) && Live(h, j, a) }

  ghost predicate LiveDanger(h: seq<Statement>, d: Danger, n: Name) { exists j :: 0 <= j < |h| && Endangers(h[j], d, n) && Live(h, j, n) }

  /** A path of live mentions from `n` to a routine whose live definition is dangerous. */
  ghost predicate LivePath(h: seq<Statement>, d: Danger, path: seq<Name>, n: Name) {
    && path != [] && path[0] == n && LiveDanger(h, d, path[|path| - 1])
    && forall i :: 0 <= i < |path| - 1 ==> LiveRecord(h, path[i], path[i + 1])
  }

  ghost predicate LiveReaches(h: seq<Statement>, d: Danger, n: Name) { exists path :: LivePath(h, d, path, n) }

  function Seeds(c: Chain, d: Danger): set<Name> { if d.Armed? then c.armed else c.upsertTriggerFunctions }

  function History(h: seq<Statement>): Chain { AbsorbAll(EMPTY_CHAIN, h) }

  lemma HistorySnoc(h: seq<Statement>)
    requires h != []
    ensures History(h) == Absorb(History(h[..|h| - 1]), h[|h| - 1])
  {
    AbsorbAllSnoc(EMPTY_CHAIN, h, |h| - 1);
    assert h[..|h|] == h;
  }

  lemma AbsorbedMention(c: Chain, s: Statement, a: Name, b: Name)
    ensures Mentions(Absorb(c, s).mentions, a, b) <==> Records(s, a, b) || (Mentions(c.mentions, a, b) && !Defines(s, a))
  {
  }

  lemma LiveRecordSnoc(h: seq<Statement>, a: Name, b: Name)
    requires h != []
    ensures LiveRecord(h, a, b) <==> Records(h[|h| - 1], a, b) || (LiveRecord(h[..|h| - 1], a, b) && !Defines(h[|h| - 1], a))
  {
    var init, last := h[..|h| - 1], h[|h| - 1];
    if LiveRecord(init, a, b) && !Defines(last, a) {
      var j :| 0 <= j < |init| && Records(init[j], a, b) && Live(init, j, a);
      assert Live(h, j, a);
    }
    if LiveRecord(h, a, b) {
      var j :| 0 <= j < |h| && Records(h[j], a, b) && Live(h, j, a);
      if j < |init| {
        assert Live(init, j, a) && init[j] == h[j];
      }
    }
    assert Live(h, |h| - 1, a);
  }

  /** The chain records exactly the mentions of live definitions. */
  lemma {:induction false} MentionsAreLive(h: seq<Statement>, a: Name, b: Name)
    ensures Mentions(History(h).mentions, a, b) <==> LiveRecord(h, a, b)
  {
    if h != [] {
      MentionsAreLive(h[..|h| - 1], a, b);
      HistorySnoc(h);
      AbsorbedMention(History(h[..|h| - 1]), h[|h| - 1], a, b);
      LiveRecordSnoc(h, a, b);
    }
  }

  lemma LiveDangerSnoc(h: seq<Statement>, d: Danger, n: Name)
    requires h != []
    ensures LiveDanger(h, d, n) <==> Endangers(h[|h| - 1], d, n) || (LiveDanger(h[..|h| - 1], d, n) && !Defines(h[|h| - 1], n))
  {
    var init, last := h[..|h| - 1], h[|h| - 1];
    if LiveDanger(init, d, n) && !Defines(last, n) {
      var j :| 0 <= j < |init| && Endangers(init[j], d, n) && Live(init, j, n);
      assert Live(h, j, n);
    }
    if LiveDanger(h, d, n) {
      var j :| 0 <= j < |h| && Endangers(h[j], d, n) && Live(h, j, n);
      if j < |init| {
        assert Live(init, j, n) && init[j] == h[j];
      }
    }
    assert Live(h, |h| - 1, n);
  }

  /** The chain's dangerous routines are exactly those whose live definition is. */
  lemma {:induction false} DangersAreLive(h: seq<Statement>, d: Danger, n: Name)
    ensures n in Seeds(History(h), d) <==> LiveDanger(h, d, n)
  {
    if h != [] {
      DangersAreLive(h[..|h| - 1], d, n);
      HistorySnoc(h);
      LiveDangerSnoc(h, d, n);
    }
  }

  lemma {:induction false} RoutinesAreDefined(h: seq<Statement>, n: Name)
    ensures n in History(h).routines <==> exists j :: 0 <= j < |h| && Defines(h[j], n)
  {
    if h != [] {
      var init, last := h[..|h| - 1], h[|h| - 1];
      RoutinesAreDefined(init, n);
      HistorySnoc(h);
      assert forall j :: 0 <= j < |init| ==> init[j] == h[j];
    }
  }

  lemma {:induction false} EventsAreRecorded(h: seq<Statement>, n: Name)
    ensures n in History(h).eventFunctions <==> exists j :: 0 <= j < |h| && Binds(h[j], n)
  {
    if h != [] {
      var init, last := h[..|h| - 1], h[|h| - 1];
      EventsAreRecorded(init, n);
      HistorySnoc(h);
      assert forall j :: 0 <= j < |init| ==> init[j] == h[j];
    }
  }

  lemma {:induction false} ImplicitAreRecorded(h: seq<Statement>, n: Name)
    ensures n in History(h).implicitMentions <==> exists j :: 0 <= j < |h| && Implies(h[j], n)
  {
    if h != [] {
      var init, last := h[..|h| - 1], h[|h| - 1];
      ImplicitAreRecorded(init, n);
      HistorySnoc(h);
      assert forall j :: 0 <= j < |init| ==> init[j] == h[j];
    }
  }

  lemma HiddenAreRecorded(h: seq<Statement>, n: Name)
    ensures n in History(h).eventFunctions + History(h).implicitMentions <==> exists j :: 0 <= j < |h| && Hides(h[j], n)
  {
    EventsAreRecorded(h, n);
    ImplicitAreRecorded(h, n);
  }

  /** What the chain can reach is what live definitions reach. */
  lemma ReachIsLive(h: seq<Statement>, d: Danger, n: Name)
    ensures Reaches(History(h).mentions, n, Seeds(History(h), d)) <==> LiveReaches(h, d, n)
  {
    var c := History(h);
    forall path ensures IsPath(c.mentions, path, n, Seeds(c, d)) <==> LivePath(h, d, path, n) {
      if path != [] {
        DangersAreLive(h, d, path[|path| - 1]);
        forall i | 0 <= i < |path| - 1 ensures Mentions(c.mentions, path[i], path[i + 1]) <==> LiveRecord(h, path[i], path[i + 1]) {
          MentionsAreLive(h, path[i], path[i + 1]);
        }
      }
    }
  }

  // ---------------------------------------------------------------- acceptance over every chain

  /** What the statement evaluates reaches no dangerous routine through the definitions live after `h`. */
  ghost predicate SafeAfter(h: seq<Statement>, s: Statement) {
    && (forall n :: Beyond(Visible(s), Exempt(s), n) ==> !LiveReaches(h, Armed, n))
    && (forall k, n :: 0 <= k < |Looks(s)| && n in Looks(s)[k].writes ==> !LiveReaches(h, Upserting, n))
    && (forall k, n, j :: 0 <= k < |Looks(s)| && 0 <= j < |h| && Defines(h[j], n) && Beyond(Looks(s)[k].calls, Own(s), n) ==>
          !LiveReaches(h, Upserting, n))
  }

  /** Nothing that runs without being named reaches an armed routine. */
  ghost predicate QuietAfter(h: seq<Statement>) { forall j, n :: 0 <= j < |h| && Hides(h[j], n) ==> !LiveReaches(h, Armed, n) }

  lemma HarmlessIsSafe(h: seq<Statement>, s: Statement)
    ensures Harmless(History(h), s) <==> SafeAfter(h, s)
  {
    forall n ensures Reaches(History(h).mentions, n, History(h).armed) <==> LiveReaches(h, Armed, n) { ReachIsLive(h, Armed, n); }
    forall n ensures Reaches(History(h).mentions, n, History(h).upsertTriggerFunctions) <==> LiveReaches(h, Upserting, n) { ReachIsLive(h, Upserting, n); }
    forall n ensures n in History(h).routines <==> exists j :: 0 <= j < |h| && Defines(h[j], n) { RoutinesAreDefined(h, n); }
  }

  lemma HiddenIsQuiet(h: seq<Statement>)
    ensures NothingHiddenRuns(History(h)) <==> QuietAfter(h)
  {
    forall n ensures Reaches(History(h).mentions, n, History(h).armed) <==> LiveReaches(h, Armed, n) { ReachIsLive(h, Armed, n); }
    forall n ensures n in History(h).eventFunctions + History(h).implicitMentions <==> exists j :: 0 <= j < |h| && Hides(h[j], n) { HiddenAreRecorded(h, n); }
  }

  /** The statements run before statement `k` of file `i`. */
  function Earlier(files: seq<File>, i: nat, k: nat): seq<Statement>
    requires i < |files| && k <= |files[i].statements|
  {
    AllStatements(files[..i]) + files[i].statements[..k]
  }

  lemma EarlierChain(files: seq<File>, i: nat, k: nat)
    requires i < |files| && k <= |files[i].statements|
    ensures History(Earlier(files, i, k)) == AbsorbAll(Before(files, i), files[i].statements[..k])
  {
    AbsorbAllAppend(EMPTY_CHAIN, AllStatements(files[..i]), files[i].statements[..k]);
  }

  /**
   * Safety over every chain, read off its statements alone: a file draws no finding exactly when no statement of it evaluates a name that
   * reaches a dangerous routine through the definitions live just before it, and nothing hidden reaches an armed one at its end.
   */
  lemma AcceptedChainIsSafe(files: seq<File>, i: nat)
    requires i < |files|
    ensures FileFindings(Before(files, i), files[i].statements) == {} <==>
            && (forall k :: 0 <= k < |files[i].statements| ==> SafeAfter(Earlier(files, i, k), files[i].statements[k]))
            && QuietAfter(Earlier(files, i, |files[i].statements|))
  {
    var c, stmts := Before(files, i), files[i].statements;
    AcceptedFileIsSafe(c, stmts);
    forall k | 0 <= k < |stmts| ensures HarmlessAt(c, stmts, k) <==> SafeAfter(Earlier(files, i, k), stmts[k]) {
      EarlierChain(files, i, k);
      HarmlessIsSafe(Earlier(files, i, k), stmts[k]);
    }
    EarlierChain(files, i, |stmts|);
    assert stmts[..|stmts|] == stmts;
    HiddenIsQuiet(Earlier(files, i, |stmts|));
  }

  // ---------------------------------------------------------------- which findings a scan reports

  /** The statement, run after `h`, is to be reported so. */
  ghost predicate DueAt(h: seq<Statement>, s: Statement, f: Finding) {
    match f
    case MentionsTainted(n) => Beyond(Visible(s), Exempt(s), n) && LiveReaches(h, Armed, n)
    case Fires(n) => (exists l :: 0 <= l < |Looks(s)| && n in Looks(s)[l].writes) && LiveReaches(h, Upserting, n)
    case CallsUpsert(n) =>
      && (exists l :: 0 <= l < |Looks(s)| && Beyond(Looks(s)[l].calls, Own(s), n)) && (exists j :: 0 <= j < |h| && Defines(h[j], n))
      && LiveReaches(h, Upserting, n)
    case _ => false
  }

  /** A file that ends after `h` is to be reported so. */
  ghost predicate DueAfter(h: seq<Statement>, f: Finding) {
    match f
    case EventReaches(n) => (exists j :: 0 <= j < |h| && Binds(h[j], n)) && LiveReaches(h, Armed, n)
    case ImplicitReaches(n) => (exists j :: 0 <= j < |h| && Implies(h[j], n)) && LiveReaches(h, Armed, n)
    case _ => false
  }

  /** An additive file is to be reported so, at one of its statements or at its end; no other file is to be reported at all. */
  ghost predicate DueIn(files: seq<File>, i: nat, f: Finding)
    requires i < |files|
  {
    && files[i].additive
    && ((exists k :: 0 <= k < |files[i].statements| && DueAt(Earlier(files, i, k), files[i].statements[k], f))
        || DueAfter(Earlier(files, i, |files[i].statements|), f))
  }

  lemma {:induction false} FiringFindingsMembers(hazard: set<Name>, routines: set<Name>, own: seq<Name>, looks: seq<Look>, f: Finding)
    ensures f in FiringFindings(hazard, routines, own, looks) <==>
            exists l :: 0 <= l < |looks| && f in LookFindings(hazard, routines, own, looks[l])
  {
    if looks != [] {
      FiringFindingsMembers(hazard, routines, own, looks[1..], f);
      assert forall l :: 0 < l < |looks| ==> looks[l] == looks[1..][l - 1];
      if exists l :: 0 <= l < |looks[1..]| && f in LookFindings(hazard, routines, own, looks[1..][l]) {
        var l :| 0 <= l < |looks[1..]| && f in LookFindings(hazard, routines, own, looks[1..][l]);
        assert looks[l + 1] == looks[1..][l];
      }
    }
  }

  lemma LookFindingsMembers(hazard: set<Name>, routines: set<Name>, own: seq<Name>, look: Look, f: Finding)
    ensures f in LookFindings(hazard, routines, own, look) <==>
            match f
            case Fires(n) => n in look.writes && n in hazard
            case CallsUpsert(n) => n in routines && Beyond(look.calls, own, n) && n in hazard
            case _ => false
  {
    if f.CallsUpsert? && Beyond(look.calls, own, f.name) {
      BeyondIsIn(look.calls, own, f.name);
    }
  }

  lemma StatementFindingsMembers(c: Chain, s: Statement, f: Finding)
    ensures f in StatementFindings(c, s) <==>
            match f
            case MentionsTainted(n) => Beyond(Visible(s), Exempt(s), n) && n in Tainted(c)
            case Fires(n) => (exists l :: 0 <= l < |Looks(s)| && n in Looks(s)[l].writes) && n in Hazard(c)
            case CallsUpsert(n) => (exists l :: 0 <= l < |Looks(s)| && Beyond(Looks(s)[l].calls, Own(s), n)) && n in c.routines && n in Hazard(c)
            case _ => false
  {
    FiringFindingsMembers(Hazard(c), c.routines, Own(s), Looks(s), f);
    forall l | 0 <= l < |Looks(s)|
      ensures f in LookFindings(Hazard(c), c.routines, Own(s), Looks(s)[l]) <==>
              match f
              case Fires(n) => n in Looks(s)[l].writes && n in Hazard(c)
              case CallsUpsert(n) => n in c.routines && Beyond(Looks(s)[l].calls, Own(s), n) && n in Hazard(c)
              case _ => false
    {
      LookFindingsMembers(Hazard(c), c.routines, Own(s), Looks(s)[l], f);
    }
    if f.MentionsTainted? && Beyond(Visible(s), Exempt(s), f.name) {
      BeyondIsIn(Visible(s), Exempt(s), f.name);
    }
  }

  lemma StatementFindingsExactly(h: seq<Statement>, s: Statement, f: Finding)
    ensures f in StatementFindings(History(h), s) <==> DueAt(h, s, f)
  {
    StatementFindingsMembers(History(h), s, f);
    TaintExact(History(h).mentions, History(h).armed, f.name);
    TaintExact(History(h).mentions, History(h).upsertTriggerFunctions, f.name);
    ReachIsLive(h, Armed, f.name);
    ReachIsLive(h, Upserting, f.name);
    RoutinesAreDefined(h, f.name);
  }

  lemma EndFindingsExactly(h: seq<Statement>, f: Finding)
    ensures f in EndFindings(Tainted(History(h)), History(h)) <==> DueAfter(h, f)
  {
    TaintExact(History(h).mentions, History(h).armed, f.name);
    ReachIsLive(h, Armed, f.name);
    EventsAreRecorded(h, f.name);
    ImplicitAreRecorded(h, f.name);
  }

  ghost predicate FoundAt(c: Chain, stmts: seq<Statement>, k: nat, f: Finding)
    requires k < |stmts|
  {
    f in StatementFindings(AbsorbAll(c, stmts[..k]), stmts[k])
  }

  lemma FoundAtShift(c: Chain, stmts: seq<Statement>, k: nat, f: Finding)
    requires k + 1 < |stmts|
    ensures FoundAt(c, stmts, k + 1, f) == FoundAt(Absorb(c, stmts[0]), stmts[1..], k, f)
  {
    assert stmts[..k + 1][1..] == stmts[1..][..k];
  }

  lemma {:induction false} FileFindingsMembers(c: Chain, stmts: seq<Statement>, f: Finding)
    ensures f in FileFindings(c, stmts) <==>
            (exists k :: 0 <= k < |stmts| && FoundAt(c, stmts, k, f)) || f in EndFindings(Tainted(AbsorbAll(c, stmts)), AbsorbAll(c, stmts))
    decreases |stmts|
  {
    if stmts != [] {
      var next, rest := Absorb(c, stmts[0]), stmts[1..];
      FileFindingsMembers(next, rest, f);
      assert FoundAt(c, stmts, 0, f) <==> f in StatementFindings(c, stmts[0]);
      forall k | 0 <= k < |rest| ensures FoundAt(next, rest, k, f) == FoundAt(c, stmts, k + 1, f) { FoundAtShift(c, stmts, k, f); }
      if exists k :: 0 <= k < |stmts| && FoundAt(c, stmts, k, f) {
        var k :| 0 <= k < |stmts| && FoundAt(c, stmts, k, f);
        assert k > 0 ==> FoundAt(next, rest, k - 1, f);
      }
    }
  }

  lemma FileFindingsExactly(files: seq<File>, i: nat, f: Finding)
    requires i < |files| && files[i].additive
    ensures f in FileFindings(Before(files, i), files[i].statements) <==> DueIn(files, i, f)
  {
    var c, stmts := Before(files, i), files[i].statements;
    FileFindingsMembers(c, stmts, f);
    forall k | 0 <= k < |stmts| ensures FoundAt(c, stmts, k, f) <==> DueAt(Earlier(files, i, k), stmts[k], f) {
      EarlierChain(files, i, k);
      StatementFindingsExactly(Earlier(files, i, k), stmts[k], f);
    }
    EarlierChain(files, i, |stmts|);
    assert stmts[..|stmts|] == stmts;
    EndFindingsExactly(Earlier(files, i, |stmts|), f);
  }

  /**
   * What the scan of a whole chain reports: each finding exactly where it is due. So only an additive file has findings, and it has none
   * exactly when each of its statements is safe where it stands and nothing hidden reaches an armed routine at its end.
   */
  lemma ScanIsExact(files: seq<File>, findings: seq<set<Finding>>, i: nat)
    requires |findings| == |files| && Judged(files, findings) && i < |files|
    ensures forall f :: f in findings[i] <==> DueIn(files, i, f)
    ensures !files[i].additive ==> findings[i] == {}
    ensures files[i].additive ==>
              (findings[i] == {} <==>
                 && (forall k :: 0 <= k < |files[i].statements| ==> SafeAfter(Earlier(files, i, k), files[i].statements[k]))
                 && QuietAfter(Earlier(files, i, |files[i].statements|)))
  {
    if files[i].additive {
      forall f ensures f in findings[i] <==> DueIn(files, i, f) { FileFindingsExactly(files, i, f); }
      AcceptedChainIsSafe(files, i);
    }
  }

  /** Arming lasts until the name is defined again: until then a file with a non-exempt mention that reaches it is refused. */
  lemma ArmedStaysRefused(files: seq<File>, i: nat, k: nat, j: nat, path: seq<Name>)
    requires i < |files| && k < |files[i].statements| && j < |Earlier(files, i, k)|
    requires path != [] && Endangers(Earlier(files, i, k)[j], Armed, path[|path| - 1]) && Live(Earlier(files, i, k), j, path[|path| - 1])
    requires forall m :: 0 <= m < |path| - 1 ==> LiveRecord(Earlier(files, i, k), path[m], path[m + 1])
    requires Beyond(Visible(files[i].statements[k]), Exempt(files[i].statements[k]), path[0])
    ensures FileFindings(Before(files, i), files[i].statements) != {}
  {
    AcceptedChainIsSafe(files, i);
    assert LivePath(Earlier(files, i, k), Armed, path, path[0]);
  }

  // ---------------------------------------------------------------- what redefinition forgets

  ghost predicate EverArmed(h: seq<Statement>, n: Name) { exists j :: 0 <= j < |h| && Endangers(h[j], Armed, n) }

  ghost predicate EverRecord(h: seq<Statement>, a: Name, b: Name) { exists j :: 0 <= j < |h| && Records(h[j], a, b) }

  /** A path of recorded mentions from `n` to a routine armed at some time, whether or not a later definition of a name replaced them. */
  ghost predicate EverPath(h: seq<Statement>, path: seq<Name>, n: Name) {
    && path != [] && path[0] == n && EverArmed(h, path[|path| - 1])
    && forall i :: 0 <= i < |path| - 1 ==> EverRecord(h, path[i], path[i + 1])
  }

  ghost predicate EverReaches(h: seq<Statement>, n: Name) { exists path :: EverPath(h, path, n) }

  /** No unflagged statement can mention what reaches a routine ever armed. */
  ghost predicate RemembersAll(h: seq<Statement>) {
    forall s, n :: StatementFindings(History(h), s) == {} && Beyond(Visible(s), Exempt(s), n) ==> !EverReaches(h, n)
  }

  /** The replaced definition `j` of `n` was armed, or mentioned what is tainted now. */
  ghost predicate WasTainted(h: seq<Statement>, j: nat, n: Name)
    requires j < |h|
  {
    && !Live(h, j, n)
    && (Endangers(h[j], Armed, n) || exists b :: Records(h[j], n, b) && LiveReaches(h, Armed, b))
  }

  /** Every replaced definition that would taint its name left the name tainted. */
  ghost predicate NothingUntainted(h: seq<Statement>) {
    forall j, n :: 0 <= j < |h| && WasTainted(h, j, n) ==> LiveReaches(h, Armed, n)
  }

  lemma LiveReachesStep(h: seq<Statement>, a: Name, b: Name)
    requires LiveRecord(h, a, b) && LiveReaches(h, Armed, b)
    ensures LiveReaches(h, Armed, a)
  {
    ReachIsLive(h, Armed, a);
    ReachIsLive(h, Armed, b);
    MentionsAreLive(h, a, b);
    ReachesStep(History(h).mentions, a, b, Seeds(History(h), Armed));
  }

  /** A definition that would taint its name does, or has been replaced by one that leaves the name tainted. */
  lemma {:induction false} EverPathIsLive(h: seq<Statement>, path: seq<Name>, n: Name)
    requires NothingUntainted(h) && EverPath(h, path, n)
    ensures LiveReaches(h, Armed, n)
  {
    if |path| == 1 {
      var j :| 0 <= j < |h| && Endangers(h[j], Armed, n);
      if Live(h, j, n) {
        assert LivePath(h, Armed, path, n);
      } else {
        assert WasTainted(h, j, n);
      }
    } else {
      var b := path[1];
      EverPathTail(h, path, n);
      EverPathIsLive(h, path[1..], b);
      assert EverRecord(h, path[0], path[0 + 1]);
      var j :| 0 <= j < |h| && Records(h[j], n, b);
      if Live(h, j, n) {
        LiveReachesStep(h, n, b);
      } else {
        assert WasTainted(h, j, n);
      }
    }
  }

  lemma EverPathTail(h: seq<Statement>, path: seq<Name>, n: Name)
    requires EverPath(h, path, n) && |path| > 1
    ensures EverPath(h, path[1..], path[1])
  {
    var rest := path[1..];
    forall i | 0 <= i < |rest| - 1 ensures EverRecord(h, rest[i], rest[i + 1]) {
      assert EverRecord(h, path[i + 1], path[(i + 1) + 1]);
    }
  }

  lemma LivePathIsEver(h: seq<Statement>, path: seq<Name>, n: Name)
    requires LivePath(h, Armed, path, n)
    ensures EverPath(h, path, n)
  {
    assert LiveDanger(h, Armed, path[|path| - 1]);
    forall i | 0 <= i < |path| - 1 ensures EverRecord(h, path[i], path[i + 1]) {
      assert LiveRecord(h, path[i], path[i + 1]);
    }
  }

  lemma EverReachesStep(h: seq<Statement>, a: Name, b: Name, path: seq<Name>)
    requires EverRecord(h, a, b) && EverPath(h, path, b)
    ensures EverReaches(h, a)
  {
    var longer := [a] + path;
    forall i | 0 <= i < |longer| - 1 ensures EverRecord(h, longer[i], longer[i + 1]) {
      if i > 0 {
        assert EverRecord(h, path[i - 1], path[(i - 1) + 1]);
      }
    }
    assert EverPath(h, longer, a);
  }

  lemma WasTaintedEverReaches(h: seq<Statement>, j: nat, n: Name)
    requires j < |h| && WasTainted(h, j, n)
    ensures EverReaches(h, n)
  {
    if Endangers(h[j], Armed, n) {
      assert EverArmed(h, n);
      assert EverPath(h, [n], n);
    } else {
      var b :| Records(h[j], n, b) && LiveReaches(h, Armed, b);
      var path :| LivePath(h, Armed, path, b);
      LivePathIsEver(h, path, b);
      assert EverRecord(h, n, b);
      EverReachesStep(h, n, b, path);
    }
  }

  /** A bare mention of one name. */
  function Mention(n: Name): Statement { Other([n], false, []) }

  lemma MentionIsFoundExactly(h: seq<Statement>, n: Name)
    ensures StatementFindings(History(h), Mention(n)) == {} <==> !LiveReaches(h, Armed, n)
    ensures Beyond(Visible(Mention(n)), Exempt(Mention(n)), n)
  {
    AcceptedStatementIsHarmless(History(h), Mention(n));
    HarmlessIsSafe(h, Mention(n));
    assert forall m :: Beyond(Visible(Mention(n)), Exempt(Mention(n)), m) <==> m == n;
  }

  /** Overloads share a name, so the chain forgets: it keeps every unflagged statement off the routines EVER armed exactly when no replaced definition lost its taint. */
  lemma RemembersExactly(h: seq<Statement>)
    ensures RemembersAll(h) <==> NothingUntainted(h)
  {
    if RemembersAll(h) {
      forall j, n | 0 <= j < |h| && WasTainted(h, j, n) ensures LiveReaches(h, Armed, n) {
        WasTaintedEverReaches(h, j, n);
        MentionIsFoundExactly(h, n);
      }
    }
    if NothingUntainted(h) {
      forall s, n | StatementFindings(History(h), s) == {} && Beyond(Visible(s), Exempt(s), n) ensures !EverReaches(h, n) {
        AcceptedStatementIsHarmless(History(h), s);
        HarmlessIsSafe(h, s);
        if EverReaches(h, n) {
          var path :| EverPath(h, path, n);
          EverPathIsLive(h, path, n);
        }
      }
    }
  }

  /** An armed routine, and a clean overload of the same name. */
  const ARMS_G := Routine(Some("g"), ["g"], ["x"], true, false, false, [])
  const OVERLOADS_G := Routine(Some("g"), ["g"], [], false, false, false, [])

  lemma NothingLiveIsArmed(h: seq<Statement>, g: Name)
    requires |h| >= 2 && Defines(h[1], g) && !h[1].armed && Defines(h[0], g)
    requires forall j :: 2 <= j < |h| ==> !h[j].Routine?
    ensures forall n :: !LiveReaches(h, Armed, n)
  {
    forall n ensures !LiveDanger(h, Armed, n) {
      forall j | 0 <= j < |h| && Endangers(h[j], Armed, n) ensures !Live(h, j, n) {
        assert j == 0 && Defines(h[1], n);
      }
    }
  }

  const OVERLOAD_CHAIN := [File([ARMS_G], false), File([OVERLOADS_G], true), File([Mention("g")], true)]

  lemma OverloadHistories()
    ensures Earlier(OVERLOAD_CHAIN, 1, 0) == [ARMS_G] && Earlier(OVERLOAD_CHAIN, 1, 1) == [ARMS_G, OVERLOADS_G]
    ensures Earlier(OVERLOAD_CHAIN, 2, 0) == [ARMS_G, OVERLOADS_G] && Earlier(OVERLOAD_CHAIN, 2, 1) == [ARMS_G, OVERLOADS_G, Mention("g")]
  {
    var files := OVERLOAD_CHAIN;
    assert files[..1][..0] == [] && files[..2][..1] == files[..1];
    assert AllStatements(files[..1]) == [ARMS_G];
    assert AllStatements(files[..2]) == [ARMS_G] + [OVERLOADS_G];
  }

  lemma OverloadIsAccepted()
    ensures FileFindings(Before(OVERLOAD_CHAIN, 1), OVERLOAD_CHAIN[1].statements) == {}
  {
    OverloadHistories();
    NothingLiveIsArmed([ARMS_G, OVERLOADS_G], "g");
    assert forall n :: !Beyond(Visible(OVERLOADS_G), Exempt(OVERLOADS_G), n);
    AcceptedChainIsSafe(OVERLOAD_CHAIN, 1);
  }

  lemma LateMentionIsAccepted()
    ensures FileFindings(Before(OVERLOAD_CHAIN, 2), OVERLOAD_CHAIN[2].statements) == {}
  {
    OverloadHistories();
    NothingLiveIsArmed([ARMS_G, OVERLOADS_G], "g");
    NothingLiveIsArmed([ARMS_G, OVERLOADS_G, Mention("g")], "g");
    AcceptedChainIsSafe(OVERLOAD_CHAIN, 2);
  }

  lemma OverloadForgets()
    ensures !RemembersAll([ARMS_G, OVERLOADS_G])
  {
    var h := [ARMS_G, OVERLOADS_G];
    NothingLiveIsArmed(h, "g");
    assert WasTainted(h, 0, "g") by {
      assert Defines(h[1], "g") && Endangers(h[0], Armed, "g");
    }
    RemembersExactly(h);
  }

  /** The forgetting happens: after a clean overload of an armed routine an additive file may mention the name they share. */
  lemma OverloadUnarms() returns (files: seq<File>)
    ensures |files| == 3 && files[1].additive && files[2].additive
    ensures FileFindings(Before(files, 1), files[1].statements) == {} && FileFindings(Before(files, 2), files[2].statements) == {}
    ensures |Earlier(files, 2, 0)| == 2 && Endangers(Earlier(files, 2, 0)[0], Armed, "g") && !RemembersAll(Earlier(files, 2, 0))
    ensures |files[2].statements| == 1 && Beyond(Visible(files[2].statements[0]), Exempt(files[2].statements[0]), "g")
  {
    files := OVERLOAD_CHAIN;
    OverloadIsAccepted();
    LateMentionIsAccepted();
    OverloadHistories();
    OverloadForgets();
  }
}
