/** The status of a schedule entry: the linear plan and the delay measured against it, in exact arithmetic. */
module ScheduleStatus {
  import opened Wrappers
  import opened Text
  import CivilDate

  datatype State = NotStarted | InProgress | Delayed | Completed
  datatype Phase = NotDue | Underway | DueComplete
  datatype Reliability = Reported | NotReported | Unknown
  datatype DelayKind = Start | Progress | Finish

  datatype Facts = Facts(plannedStart: string, plannedFinish: string, factUnknown: bool, plannedQuantity: real, rpFact: Option<real>)

  datatype Status = Status(
    plannedProgress: real,
    actualProgress: Option<real>,
    factReported: bool,
    overperformed: bool,
    phase: Phase,
    reliability: Reliability,
    assessable: bool,
    state: Option<State>,
    delayDays: int,
    delayKind: Option<DelayKind>)

  // ---------------------------------------------------------------- the rules, on day numbers

  function PlannedProgress(start: int, finish: int, t: int): (p: real)
    ensures 0.0 <= p <= 100.0
  {
    if t < start then 0.0
    else if t >= finish then 100.0
    else
      Between((t - start) as real, (finish - start) as real);
      (t - start) as real / (finish - start) as real * 100.0
  }

  function ExpectedPhase(start: int, finish: int, t: int): Phase {
    if t < start then NotDue else if t >= finish then DueComplete else Underway
  }

  function ActualProgress(fact: real, plan: real): Option<real> {
    if plan <= 0.0 then None
    else
      var p := fact / plan * 100.0;
      Some(if p < 0.0 then 0.0 else if p > 100.0 then 100.0 else p)
  }

  /** The lag multiplied by the plan, which keeps it exact. */
  function ScaledLag(start: int, finish: int, t: int, plan: real, fact: real): real {
    (t - start) as real * plan - (finish - start) as real * fact
  }

  function DelayDays(start: int, finish: int, t: int, plan: real, fact: real): int
    requires plan > 0.0
  {
    var lag := ScaledLag(start, finish, t, plan, fact);
    if lag >= plan then (lag / plan).Floor else 0
  }

  function DeriveOnDays(facts: Facts, start: int, finish: int, t: int): Status {
    var planned, phase := PlannedProgress(start, finish, t), ExpectedPhase(start, finish, t);
    if facts.factUnknown then Status(planned, None, false, false, phase, Unknown, false, None, 0, None)
    else
      var plan, reported := facts.plannedQuantity, facts.rpFact.Some?;
      var fact := if reported then facts.rpFact.value else 0.0;
      var base := Status(planned, ActualProgress(fact, plan), reported, plan > 0.0 && fact > plan, phase,
                         if reported then Reported else NotReported, true, Some(NotStarted), 0, None);
      if plan <= 0.0 then base
      else if fact >= plan then base.(state := Some(Completed))
      else
        var delay := DelayDays(start, finish, t, plan, fact);
        if delay >= 1 then
          base.(state := Some(Delayed), delayDays := delay,
                delayKind := Some(if t >= finish then Finish else if fact <= 0.0 then Start else Progress))
        else base.(state := Some(if fact > 0.0 then InProgress else NotStarted))
  }

  /** A date that is not in the format is refused. */
  function Derive(facts: Facts, today: string): Option<Status> {
    var start, finish, t := CivilDate.CivilDayNumber(facts.plannedStart), CivilDate.CivilDayNumber(facts.plannedFinish), CivilDate.CivilDayNumber(today);
    if start.None? || finish.None? || t.None? then None
    else Some(DeriveOnDays(facts, start.value, finish.value, t.value))
  }

  // ---------------------------------------------------------------- arithmetic of quotients

  lemma Between(a: real, b: real)
    requires 0.0 <= a <= b && b > 0.0
    ensures 0.0 <= a / b * 100.0 <= 100.0
  {
    QuotientAtLeast(a, b, 0.0);
    QuotientAtLeast(a, b, 1.0);
  }

  lemma ProductGrows(x: real, y: real, k: real)
    requires x <= y && k >= 0.0
    ensures x * k <= y * k
  {
    assert (y - x) * k >= 0.0;
  }

  lemma PositiveProduct(x: real, y: real)
    requires x > 0.0 && y > 0.0
    ensures x * y > 0.0
  {
  }

  /** Division by a positive number and comparison can change places. */
  lemma QuotientAtLeast(a: real, b: real, c: real)
    requires b > 0.0
    ensures a / b >= c <==> a >= c * b
  {
    var q := a / b;
    assert q * b == a;
    if q >= c {
      ProductGrows(c, q, b);
    } else {
      PositiveProduct(c - q, b);
    }
  }

  // ---------------------------------------------------------------- the delay refines the plan

  /** On day `x` of the plan the linear plan has reached the share done. */
  predicate Reached(start: int, finish: int, x: int, plan: real, fact: real)
    requires plan > 0.0
  {
    x >= start && PlannedProgress(start, finish, x) >= fact / plan * 100.0
  }

  lemma SharesCompare(a: real, b: real, c: real, d: real)
    requires b > 0.0 && d > 0.0
    ensures a / b * 100.0 >= c / d * 100.0 <==> a * d >= b * c
  {
    QuotientAtLeast(a, b, c / d);
    assert c / d * b == b * c / d;
    QuotientAtLeast(a * d, d, c / d * b);
    assert a * d / d == a;
    assert b * c / d * d == b * c;
    assert c / d * b * d == b * c;
  }

  /** Reached, on a day inside the plan and before the finish date, in multiplied form. */
  lemma ReachedMeans(start: int, finish: int, x: int, plan: real, fact: real)
    requires start <= finish && 0.0 <= fact < plan
    ensures Reached(start, finish, x, plan, fact) <==> (x - start) as real * plan >= (finish - start) as real * fact
  {
    var past, long := (x - start) as real, (finish - start) as real;
    ProductGrows(0.0, long, fact);
    if x < start {
      assert past * plan < 0.0;
    } else if x >= finish {
      QuotientAtLeast(fact, plan, 1.0);
      ProductGrows(long, past, plan);
      ProductGrows(fact, plan, long);
      assert plan * long == long * plan && fact * long == long * fact;
    } else {
      SharesCompare(past, long, fact, plan);
    }
  }

  lemma LagShift(start: int, finish: int, t: int, d: int, plan: real, fact: real)
    ensures ScaledLag(start, finish, t - d, plan, fact) == ScaledLag(start, finish, t, plan, fact) - d as real * plan
  {
    assert (t - d - start) as real == (t - start) as real - d as real;
    assert ((t - start) as real - d as real) * plan == (t - start) as real * plan - d as real * plan;
  }

  /** The plan had reached the share done `d` days ago exactly when `d` does not exceed the lag. */
  lemma ReachedDaysAgo(start: int, finish: int, t: int, d: int, plan: real, fact: real)
    requires start <= finish && 0.0 <= fact < plan
    ensures Reached(start, finish, t - d, plan, fact) <==> d <= (ScaledLag(start, finish, t, plan, fact) / plan).Floor
  {
    var lag := ScaledLag(start, finish, t, plan, fact);
    ReachedMeans(start, finish, t - d, plan, fact);
    LagShift(start, finish, t, d, plan, fact);
    QuotientAtLeast(lag, plan, d as real);
  }

  lemma DelayIsFloor(start: int, finish: int, t: int, plan: real, fact: real)
    requires plan > 0.0
    ensures var days := (ScaledLag(start, finish, t, plan, fact) / plan).Floor;
            DelayDays(start, finish, t, plan, fact) == if days >= 1 then days else 0
  {
    QuotientAtLeast(ScaledLag(start, finish, t, plan, fact), plan, 1.0);
  }

  /** The delay is the number of days since the plan first reached the share done, and 0 when it never had. */
  lemma DelayRefinesPlan(start: int, finish: int, t: int, plan: real, fact: real)
    requires start <= finish && 0.0 <= fact < plan
    ensures var d := DelayDays(start, finish, t, plan, fact);
            && d >= 0
            && (d > 0 ==> Reached(start, finish, t - d, plan, fact))
            && forall x :: x <= t && Reached(start, finish, x, plan, fact) ==> x >= t - d
  {
    DelayIsFloor(start, finish, t, plan, fact);
    var d := DelayDays(start, finish, t, plan, fact);
    ReachedDaysAgo(start, finish, t, d, plan, fact);
    forall x | x <= t && Reached(start, finish, x, plan, fact) ensures x >= t - d {
      var e := t - x;
      assert t - e == x;
      ReachedDaysAgo(start, finish, t, e, plan, fact);
    }
  }

  /** A day later a delay has grown by exactly one day, and so has an exact lag of less than a day. */
  lemma NextDayOneMore(start: int, finish: int, t: int, plan: real, fact: real)
    requires plan > 0.0 && ScaledLag(start, finish, t, plan, fact) >= 0.0
    ensures DelayDays(start, finish, t + 1, plan, fact) == DelayDays(start, finish, t, plan, fact) + 1
  {
    var lag := ScaledLag(start, finish, t, plan, fact);
    LagShift(start, finish, t, -1, plan, fact);
    assert lag / plan * plan == lag;
    assert (lag / plan + 1.0) * plan == lag + plan;
    SameQuotient(lag + plan, plan, lag / plan + 1.0);
    QuotientAtLeast(lag, plan, 0.0);
    DelayIsFloor(start, finish, t, plan, fact);
    DelayIsFloor(start, finish, t + 1, plan, fact);
  }

  lemma SameQuotient(a: real, b: real, q: real)
    requires b > 0.0 && q * b == a
    ensures a / b == q
  {
    assert a / b * b == a;
    assert (a / b - q) * b == 0.0;
  }

  /** A positive delay has a lag, so it grows. */
  lemma PositiveDelayGrows(start: int, finish: int, t: int, plan: real, fact: real)
    requires plan > 0.0 && DelayDays(start, finish, t, plan, fact) >= 1
    ensures DelayDays(start, finish, t + 1, plan, fact) == DelayDays(start, finish, t, plan, fact) + 1
  {
    NextDayOneMore(start, finish, t, plan, fact);
  }

  /** Reporting more never raises the delay. */
  lemma MoreFactNoMoreDelay(start: int, finish: int, t: int, plan: real, fact: real, more: real)
    requires start <= finish && plan > 0.0 && fact <= more
    ensures DelayDays(start, finish, t, plan, more) <= DelayDays(start, finish, t, plan, fact)
  {
    var long := (finish - start) as real;
    ProductGrows(fact, more, long);
    assert fact * long == long * fact && more * long == long * more;
    var a, b := ScaledLag(start, finish, t, plan, more), ScaledLag(start, finish, t, plan, fact);
    assert a / plan * plan == a;
    QuotientAtLeast(b, plan, a / plan);
    DelayIsFloor(start, finish, t, plan, fact);
    DelayIsFloor(start, finish, t, plan, more);
  }

  /** Nothing done: the delay is the days since the start. Unfinished after the finish date: at least the days since the finish. */
  lemma DelayBounds(start: int, finish: int, t: int, plan: real, fact: real)
    requires start <= finish && 0.0 <= fact < plan
    ensures fact == 0.0 ==> DelayDays(start, finish, t, plan, fact) == if t > start then t - start else 0
    ensures t > finish ==> t - finish <= DelayDays(start, finish, t, plan, fact)
    ensures t >= start ==> DelayDays(start, finish, t, plan, fact) <= t - start
  {
    DelayRefinesPlan(start, finish, t, plan, fact);
    var d := DelayDays(start, finish, t, plan, fact);
    assert d > 0 ==> t - d >= start;
    if t > finish {
      ReachedFinish(start, finish, plan, fact);
    }
    if fact == 0.0 && t >= start {
      SameQuotient(0.0, plan, 0.0);
      assert fact / plan * 100.0 == 0.0;
      assert Reached(start, finish, start, plan, fact);
    }
  }

  lemma ReachedFinish(start: int, finish: int, plan: real, fact: real)
    requires start <= finish && 0.0 <= fact < plan
    ensures Reached(start, finish, finish, plan, fact)
  {
    QuotientAtLeast(fact, plan, 1.0);
  }

  /** The four states, by the fact and by the delay. */
  lemma StatesExact(facts: Facts, start: int, finish: int, t: int)
    requires !facts.factUnknown && facts.plannedQuantity > 0.0 && start <= finish
    requires facts.rpFact.Some? ==> facts.rpFact.value >= 0.0
    ensures var fact, plan := if facts.rpFact.Some? then facts.rpFact.value else 0.0, facts.plannedQuantity;
            var s := DeriveOnDays(facts, start, finish, t);
            && s.state.Some?
            && (s.state.value == Completed <==> fact >= plan)
            && (s.state.value == Delayed <==> fact < plan && Reached(start, finish, t - 1, plan, fact))
            && (s.state.value == InProgress <==> 0.0 < fact < plan && !Reached(start, finish, t - 1, plan, fact))
            && (s.state.value == NotStarted <==> fact == 0.0 && t <= start)
            && (s.delayDays > 0 <==> s.state.value == Delayed)
  {
    var fact, plan := if facts.rpFact.Some? then facts.rpFact.value else 0.0, facts.plannedQuantity;
    if fact < plan {
      DelayIsFloor(start, finish, t, plan, fact);
      ReachedDaysAgo(start, finish, t, 1, plan, fact);
      DelayBounds(start, finish, t, plan, fact);
    }
  }

  /** Everything else a status says: where the calendar stands, how much is done, how far the fact can be trusted, and of which kind a delay is. */
  lemma StatusFieldsExact(facts: Facts, start: int, finish: int, t: int)
    ensures var s, plan, fact := DeriveOnDays(facts, start, finish, t), facts.plannedQuantity, Fact(facts);
            && (s.phase == NotDue <==> t < start) && (s.phase == DueComplete <==> start <= t && finish <= t)
            && (s.phase == Underway <==> start <= t < finish)
            && (s.assessable <==> !facts.factUnknown) && (s.state == None <==> facts.factUnknown)
            && s.reliability == (if facts.factUnknown then Unknown else if facts.rpFact == None then NotReported else Reported)
            && (s.factReported <==> !facts.factUnknown && facts.rpFact != None)
            && (s.overperformed <==> !facts.factUnknown && 0.0 < plan < fact)
            && (s.actualProgress == None <==> facts.factUnknown || plan <= 0.0)
            && (!facts.factUnknown && plan <= 0.0 ==> s.state == Some(NotStarted) && s.delayDays == 0)
            && (s.delayKind == None <==> s.delayDays == 0)
            && (s.delayKind == Some(Finish) <==> s.delayDays != 0 && finish <= t)
            && (s.delayKind == Some(Start) <==> s.delayDays != 0 && t < finish && fact <= 0.0)
            && (s.delayKind == Some(Progress) <==> s.delayDays != 0 && t < finish && 0.0 < fact)
            && s.plannedProgress == PlannedProgress(start, finish, t)
  {
  }

  /** The share done in percent, kept between nothing and all. */
  lemma ActualProgressExact(fact: real, plan: real)
    requires plan > 0.0
    ensures ActualProgress(fact, plan).Some?
    ensures var p := ActualProgress(fact, plan).value;
            && (fact <= 0.0 ==> p == 0.0) && (plan <= fact ==> p == 100.0) && (0.0 <= fact <= plan ==> p * plan == 100.0 * fact)
  {
    var p := fact / plan * 100.0;
    assert p * plan == 100.0 * fact by {
      assert fact / plan * plan == fact;
      assert p * plan == fact / plan * plan * 100.0;
    }
    QuotientAtLeast(fact, plan, 0.0);
    QuotientAtLeast(fact, plan, 1.0);
    if fact <= 0.0 {
      QuotientAtLeast(-fact, plan, 0.0);
      assert -fact / plan == -(fact / plan) by {
        SameQuotient(-fact, plan, -(fact / plan));
      }
    }
  }

  /** The linear plan: nothing before the start, all from the finish on, and between them the share of the days gone. */
  lemma PlannedProgressExact(start: int, finish: int, t: int)
    ensures t < start ==> PlannedProgress(start, finish, t) == 0.0
    ensures start <= t && finish <= t ==> PlannedProgress(start, finish, t) == 100.0
    ensures start <= t < finish ==> PlannedProgress(start, finish, t) * (finish - start) as real == 100.0 * (t - start) as real
  {
    if start <= t < finish {
      var a, b := (t - start) as real, (finish - start) as real;
      assert a / b * b == a;
      assert a / b * 100.0 * b == a / b * b * 100.0;
    }
  }

  // ---------------------------------------------------------------- the same on dates

  function Fact(facts: Facts): real { if facts.rpFact.Some? then facts.rpFact.value else 0.0 }

  predicate DatesFit(facts: Facts, today: string) {
    && CivilDate.IsCivilDate(facts.plannedStart) && CivilDate.IsCivilDate(facts.plannedFinish) && CivilDate.IsCivilDate(today)
    && !StringLess(facts.plannedFinish, facts.plannedStart)
  }

  /** On the day `x` the plan has reached the share done. */
  predicate ReachedOn(facts: Facts, x: string)
    requires DatesFit(facts, x) && facts.plannedQuantity > 0.0
  {
    Reached(Day(facts.plannedStart), Day(facts.plannedFinish), Day(x), facts.plannedQuantity, Fact(facts))
  }

  function Day(s: string): int
    requires CivilDate.IsCivilDate(s)
  {
    CivilDate.CivilDayNumber(s).value
  }

  lemma DerivedOnDays(facts: Facts, start: int, finish: int, t: int)
    requires !facts.factUnknown && 0.0 <= Fact(facts) < facts.plannedQuantity
    ensures DeriveOnDays(facts, start, finish, t).delayDays == DelayDays(start, finish, t, facts.plannedQuantity, Fact(facts))
  {
    DelayIsFloor(start, finish, t, facts.plannedQuantity, Fact(facts));
  }

  lemma DerivedDelay(facts: Facts, today: string)
    requires DatesFit(facts, today) && !facts.factUnknown && 0.0 <= Fact(facts) < facts.plannedQuantity
    ensures Day(facts.plannedStart) <= Day(facts.plannedFinish)
    ensures Derive(facts, today).Some?
    ensures Derive(facts, today).value.delayDays
              == DelayDays(Day(facts.plannedStart), Day(facts.plannedFinish), Day(today), facts.plannedQuantity, Fact(facts))
  {
    CivilDate.StringOrderIsDayOrder(facts.plannedFinish, facts.plannedStart);
    DerivedOnDays(facts, Day(facts.plannedStart), Day(facts.plannedFinish), Day(today));
  }

  /** On date strings: the status is that of the days, and the calendar stands where the order of the three dates says. */
  lemma DerivedByDates(facts: Facts, today: string)
    requires DatesFit(facts, today)
    ensures Derive(facts, today) == Some(DeriveOnDays(facts, Day(facts.plannedStart), Day(facts.plannedFinish), Day(today)))
    ensures var phase := Derive(facts, today).value.phase;
            && (phase == NotDue <==> StringLess(today, facts.plannedStart))
            && (phase == DueComplete <==> !StringLess(today, facts.plannedStart) && !StringLess(today, facts.plannedFinish))
            && (phase == Underway <==> !StringLess(today, facts.plannedStart) && StringLess(today, facts.plannedFinish))
  {
    CivilDate.StringOrderIsDayOrder(today, facts.plannedStart);
    CivilDate.StringOrderIsDayOrder(today, facts.plannedFinish);
    StatusFieldsExact(facts, Day(facts.plannedStart), Day(facts.plannedFinish), Day(today));
  }

  lemma DelayedSinceDay(start: int, finish: int, t: int, plan: real, fact: real) returns (n: int)
    requires start <= finish && 0.0 <= fact < plan && DelayDays(start, finish, t, plan, fact) != 0
    ensures start <= n < t && n + DelayDays(start, finish, t, plan, fact) == t && Reached(start, finish, n, plan, fact)
  {
    DelayRefinesPlan(start, finish, t, plan, fact);
    n := t - DelayDays(start, finish, t, plan, fact);
  }

  /** A delay of a status is counted from a date of the calendar: not before the planned start, before today, with the plan at the share done. */
  lemma DelayedSince(facts: Facts, today: string) returns (since: string)
    requires DatesFit(facts, today) && !facts.factUnknown && 0.0 <= Fact(facts) < facts.plannedQuantity
    requires Derive(facts, today).Some? && Derive(facts, today).value.delayDays != 0
    ensures CivilDate.IsCivilDate(since) && !StringLess(since, facts.plannedStart) && StringLess(since, today)
    ensures Day(since) + Derive(facts, today).value.delayDays == Day(today) && ReachedOn(facts, since)
  {
    DerivedDelay(facts, today);
    var n := DelayedSinceDay(Day(facts.plannedStart), Day(facts.plannedFinish), Day(today), facts.plannedQuantity, Fact(facts));
    since := CivilDate.DateBetween(facts.plannedStart, today, n);
  }

  /** And no date up to today on which the plan is at the share done lies further back, so none does when there is no delay. */
  lemma NoEarlierDate(facts: Facts, today: string, x: string)
    requires DatesFit(facts, today) && !facts.factUnknown && 0.0 <= Fact(facts) < facts.plannedQuantity
    requires CivilDate.IsCivilDate(x) && !StringLess(today, x) && ReachedOn(facts, x)
    ensures Derive(facts, today).Some? && Day(today) - Day(x) <= Derive(facts, today).value.delayDays
  {
    DerivedDelay(facts, today);
    CivilDate.StringOrderIsDayOrder(today, x);
    DelayRefinesPlan(Day(facts.plannedStart), Day(facts.plannedFinish), Day(today), facts.plannedQuantity, Fact(facts));
  }
}
