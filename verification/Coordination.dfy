/** The coordination lock of an object: pooled clients, per-transaction tokens, the lock table and every interleaving of their steps. */
module Coordination {
  import opened Wrappers

  type Client = nat
  type Row = nat
  type Key = nat
  type Site = nat

  datatype Mode = Shared | Exclusive

  /** Where a client stands between two steps; a failed transaction may have been granted a lock that was never remembered. */
  datatype Phase =
    | Idle
    | Begun
    | Running
    | Checking(site: Site, mode: Mode)
    | Waiting(site: Site, mode: Mode, ticket: nat)
    | Granted(site: Site, mode: Mode)
    | WaitingRow(row: Row)
    | Failed(unremembered: bool)
    | Ended

  /** `token` is the mark of the running transaction, `hasId` says whether the database gave it a transaction id. */
  datatype Session = Session(phase: Phase, token: Option<nat>, hasId: bool)

  /** What the process remembers about a client, with the token of the transaction that took the lock. */
  datatype Held = Held(token: nat, site: Site, mode: Mode)

  datatype Grant = Grant(client: Client, key: Key, mode: Mode)

  datatype State = State(
    sessions: map<Client, Session>,
    held: map<Client, Held>,
    grants: set<Grant>,
    rows: map<Row, Client>,
    nextToken: nat,
    nextTicket: nat)

  datatype Event =
    | Begin(client: Client)
    | Mark(client: Client)
    | Acquire(client: Client, site: Site, mode: Mode)
    | CheckAssigned(client: Client)
    | GrantLock(client: Client)
    | Remember(client: Client)
    | TakeRow(client: Client, row: Row)
    | GrantRow(client: Client)
    | Write(client: Client)
    | Fail(client: Client)
    | Commit(client: Client)
    | Rollback(client: Client)
    | Unmark(client: Client)

  datatype Answer = Acquired | AlreadyHeld | NotInTransaction | ObjectMismatch | UpgradeForbidden

  // ---------------------------------------------------------------- what the process knows

  /** The remembered entry, if it belongs to the running transaction; an entry of an earlier transaction is stale. */
  function HeldNow(s: State, c: Client): Option<Held> {
    if c in s.held && c in s.sessions && s.sessions[c].token == Some(s.held[c].token) then Some(s.held[c]) else None
  }

  /** The synchronous part of taking the lock. */
  function Decide(key: Site -> Key, s: State, c: Client, site: Site, mode: Mode): Answer
    requires c in s.sessions
  {
    var held := HeldNow(s, c);
    if s.sessions[c].token.None? then NotInTransaction
    else if held.None? then Acquired
    else if key(held.value.site) != key(site) then ObjectMismatch
    else if held.value.mode == Exclusive || mode == Shared then AlreadyHeld
    else UpgradeForbidden
  }

  // ---------------------------------------------------------------- the lock table

  predicate Conflict(a: Mode, b: Mode) { a == Exclusive || b == Exclusive }

  predicate CanGrant(s: State, c: Client, k: Key, m: Mode) {
    forall g :: g in s.grants && g.client != c && g.key == k ==> !Conflict(g.mode, m)
  }

  function In(s: State, c: Client, phase: Phase): State
    requires c in s.sessions
  {
    s.(sessions := s.sessions[c := s.sessions[c].(phase := phase)])
  }

  /** The end of a transaction gives back its locks; the process keeps the token until the client is unmarked. */
  function Finish(s: State, c: Client): State
    requires c in s.sessions
  {
    s.(sessions := s.sessions[c := Session(Ended, s.sessions[c].token, false)],
       grants := (set g | g in s.grants && g.client != c),
       rows := (map r | r in s.rows && s.rows[r] != c :: s.rows[r]))
  }

  function HasRow(s: State, c: Client, row: Row): State
    requires c in s.sessions
  {
    s.(rows := s.rows[row := c], sessions := s.sessions[c := s.sessions[c].(phase := Running, hasId := true)])
  }

  predicate InTransaction(p: Phase) { !(p.Idle? || p.Ended?) }

  /** One step. An event that its client is not ready for changes nothing. */
  function Step(key: Site -> Key, s: State, e: Event): State {
    var c := e.client;
    if c !in s.sessions then s
    else
      var me := s.sessions[c];
      match e
      case Begin(_) => if me.phase.Idle? then In(s, c, Begun) else s
      case Mark(_) =>
        if me.phase.Begun? then
          s.(sessions := s.sessions[c := me.(phase := Running, token := Some(s.nextToken))], nextToken := s.nextToken + 1)
        else s
      case Acquire(_, site, mode) =>
        if me.phase.Running? && Decide(key, s, c, site, mode).Acquired? then In(s, c, Checking(site, mode)) else s
      case CheckAssigned(_) =>
        if !me.phase.Checking? then s
        else if me.hasId then In(s, c, Running)
        else In(s, c, Waiting(me.phase.site, me.phase.mode, s.nextTicket)).(nextTicket := s.nextTicket + 1)
      case GrantLock(_) =>
        if me.phase.Waiting? && CanGrant(s, c, key(me.phase.site), me.phase.mode) then
          In(s, c, Granted(me.phase.site, me.phase.mode)).(grants := s.grants + {Grant(c, key(me.phase.site), me.phase.mode)})
        else s
      case Remember(_) =>
        if me.phase.Granted? && me.token.Some? then
          In(s, c, Running).(held := s.held[c := Held(me.token.value, me.phase.site, me.phase.mode)])
        else s
      case TakeRow(_, row) =>
        if !me.phase.Running? then s
        else if row in s.rows && s.rows[row] != c then In(s, c, WaitingRow(row))
        else HasRow(s, c, row)
      case GrantRow(_) => if me.phase.WaitingRow? && me.phase.row !in s.rows then HasRow(s, c, me.phase.row) else s
      case Write(_) => if me.phase.Running? then s.(sessions := s.sessions[c := me.(hasId := true)]) else s
      case Fail(_) => if InTransaction(me.phase) && !me.phase.Failed? then In(s, c, Failed(me.phase.Granted?)) else s
      case Commit(_) => if me.phase.Running? then Finish(s, c) else s
      case Rollback(_) => if me.phase.Failed? then Finish(s, c) else s
      case Unmark(_) => if me.phase.Ended? then s.(sessions := s.sessions[c := Session(Idle, None, false)]) else s
  }

  function Run(key: Site -> Key, s: State, es: seq<Event>): State {
    if es == [] then s else Step(key, Run(key, s, es[..|es| - 1]), es[|es| - 1])
  }

  function Start(clients: set<Client>): State {
    State(map c | c in clients :: Session(Idle, None, false), map[], {}, map[], 0, 0)
  }

  // ---------------------------------------------------------------- the invariant

  /** The client owns exactly the lock `o`. */
  ghost predicate Owns(s: State, c: Client, o: Option<Grant>) {
    && (forall g :: g in s.grants && g.client == c ==> o == Some(g))
    && (o.Some? ==> o.value in s.grants && o.value.client == c)
  }

  predicate OwnsRow(s: State, c: Client, r: Row) { r in s.rows && s.rows[r] == c }

  /** An exclusive holder excludes every other holder of its key. */
  ghost predicate Exclusion(s: State) {
    forall g, h :: g in s.grants && h in s.grants && g.key == h.key && g.client != h.client ==> !Conflict(g.mode, h.mode)
  }

  ghost predicate TokensFresh(s: State) {
    && (forall c :: c in s.sessions && s.sessions[c].token.Some? ==> s.sessions[c].token.value < s.nextToken)
    && (forall c :: c in s.held ==> s.held[c].token < s.nextToken)
  }

  function HeldGrant(key: Site -> Key, s: State, c: Client): Option<Grant> {
    var held := HeldNow(s, c);
    if held.Some? then Some(Grant(c, key(held.value.site), held.value.mode)) else None
  }

  predicate Marked(p: Phase) { p.Running? || p.Checking? || p.Waiting? || p.Granted? || p.WaitingRow? }

  /** The lock a client owns, by its phase: what the process remembers, except in the two windows around the lock's life. */
  ghost predicate LockFits(key: Site -> Key, s: State, c: Client)
    requires c in s.sessions
  {
    var me, held := s.sessions[c], HeldGrant(key, s, c);
    && (me.phase.Idle? || me.phase.Begun? ==> me.token.None?)
    && (Marked(me.phase) ==> me.token.Some?)
    && (me.phase.Checking? || me.phase.Waiting? || me.phase.Granted? ==> held.None?)
    && (me.phase.Waiting? || me.phase.Granted? ==> !me.hasId)
    && (!InTransaction(me.phase) ==> Owns(s, c, None) && !me.hasId)
    && (me.phase.Granted? ==> Owns(s, c, Some(Grant(c, key(me.phase.site), me.phase.mode))))
    && (Marked(me.phase) && !me.phase.Granted? ==> Owns(s, c, held))
    && (me.phase.Begun? ==> Owns(s, c, None))
    && (me.phase.Failed? && !me.phase.unremembered ==> Owns(s, c, held))
    && (me.phase.Failed? && me.phase.unremembered ==> held.None? && !Owns(s, c, None))
  }

  ghost predicate RowsFit(s: State, c: Client)
    requires c in s.sessions
  {
    forall r :: OwnsRow(s, c, r) ==> s.sessions[c].hasId
  }

  ghost predicate ClientsFit(key: Site -> Key, s: State) {
    && (forall c :: c in s.sessions ==> LockFits(key, s, c) && RowsFit(s, c))
    && (forall g :: g in s.grants ==> g.client in s.sessions)
    && (forall r :: r in s.rows ==> s.rows[r] in s.sessions)
  }

  ghost predicate Inv(key: Site -> Key, s: State) { Exclusion(s) && TokensFresh(s) && ClientsFit(key, s) }

  /** A step of one client leaves everything about another as it was. */
  ghost predicate SameFor(s: State, t: State, d: Client) {
    && (d in s.sessions <==> d in t.sessions) && (d in s.sessions ==> t.sessions[d] == s.sessions[d])
    && (d in s.held <==> d in t.held) && (d in s.held ==> t.held[d] == s.held[d])
    && (forall g: Grant :: g.client == d ==> (g in s.grants <==> g in t.grants))
    && (forall r :: OwnsRow(s, d, r) <==> OwnsRow(t, d, r))
  }

  lemma LockStepIsLocal(key: Site -> Key, s: State, e: Event, d: Client)
    requires d != e.client && IsLockEvent(e)
    ensures SameFor(s, Step(key, s, e), d)
  {
  }

  lemma RowStepIsLocal(key: Site -> Key, s: State, e: Event, d: Client)
    requires d != e.client && IsRowEvent(e)
    ensures SameFor(s, Step(key, s, e), d)
  {
  }

  lemma EdgeStepIsLocal(key: Site -> Key, s: State, e: Event, d: Client)
    requires d != e.client && !IsLockEvent(e) && !IsRowEvent(e)
    ensures SameFor(s, Step(key, s, e), d)
  {
  }

  lemma StepsAreLocal(key: Site -> Key, s: State, e: Event, d: Client)
    requires d != e.client
    ensures SameFor(s, Step(key, s, e), d)
  {
    if IsLockEvent(e) {
      LockStepIsLocal(key, s, e, d);
    } else if IsRowEvent(e) {
      RowStepIsLocal(key, s, e, d);
    } else {
      EdgeStepIsLocal(key, s, e, d);
    }
  }

  lemma LocalKeepsFit(key: Site -> Key, s: State, t: State, d: Client)
    requires d in s.sessions && SameFor(s, t, d) && LockFits(key, s, d) && RowsFit(s, d)
    ensures d in t.sessions && LockFits(key, t, d) && RowsFit(t, d)
  {
    assert HeldGrant(key, t, d) == HeldGrant(key, s, d);
  }

  lemma StepKeepsExclusion(key: Site -> Key, s: State, e: Event)
    requires Exclusion(s)
    ensures Exclusion(Step(key, s, e))
  {
  }

  lemma StepKeepsTokens(key: Site -> Key, s: State, e: Event)
    requires TokensFresh(s)
    ensures TokensFresh(Step(key, s, e))
  {
  }

  lemma StepKeepsSessions(key: Site -> Key, s: State, e: Event)
    ensures Step(key, s, e).sessions.Keys == s.sessions.Keys
  {
  }

  lemma StepKeepsGrantees(key: Site -> Key, s: State, e: Event)
    requires forall g :: g in s.grants ==> g.client in s.sessions
    ensures forall g :: g in Step(key, s, e).grants ==> g.client in s.sessions
  {
  }

  lemma StepKeepsRowOwners(key: Site -> Key, s: State, e: Event)
    requires forall r :: r in s.rows ==> s.rows[r] in s.sessions
    ensures forall r :: r in Step(key, s, e).rows ==> Step(key, s, e).rows[r] in s.sessions
  {
  }

  lemma StepKeepsKnown(key: Site -> Key, s: State, e: Event)
    requires ClientsFit(key, s)
    ensures Step(key, s, e).sessions.Keys == s.sessions.Keys
    ensures forall g :: g in Step(key, s, e).grants ==> g.client in s.sessions
    ensures forall r :: r in Step(key, s, e).rows ==> Step(key, s, e).rows[r] in s.sessions
  {
    StepKeepsSessions(key, s, e);
    StepKeepsGrantees(key, s, e);
    StepKeepsRowOwners(key, s, e);
  }

  /** A client without a transaction id gets no row, and one that keeps its rows keeps the id. */
  lemma OtherStepKeepsOwnRows(key: Site -> Key, s: State, e: Event)
    requires e.client in s.sessions && LockFits(key, s, e.client) && RowsFit(s, e.client) && !IsRowEvent(e)
    ensures e.client in Step(key, s, e).sessions && RowsFit(Step(key, s, e), e.client)
  {
    var t := Step(key, s, e);
    forall r | OwnsRow(t, e.client, r) ensures t.sessions[e.client].hasId {
      assert OwnsRow(s, e.client, r);
    }
  }

  lemma RowStepKeepsOwnRows(key: Site -> Key, s: State, e: Event)
    requires e.client in s.sessions && RowsFit(s, e.client) && IsRowEvent(e)
    ensures e.client in Step(key, s, e).sessions && RowsFit(Step(key, s, e), e.client)
  {
    var t := Step(key, s, e);
    forall r | OwnsRow(t, e.client, r) ensures t.sessions[e.client].hasId {
      assert t.rows == s.rows ==> OwnsRow(s, e.client, r);
    }
  }

  lemma StepKeepsOwnRows(key: Site -> Key, s: State, e: Event)
    requires Inv(key, s) && e.client in s.sessions
    ensures e.client in Step(key, s, e).sessions && RowsFit(Step(key, s, e), e.client)
  {
    if IsRowEvent(e) {
      RowStepKeepsOwnRows(key, s, e);
    } else {
      OtherStepKeepsOwnRows(key, s, e);
    }
  }

  predicate IsLockEvent(e: Event) { e.Acquire? || e.CheckAssigned? || e.GrantLock? || e.Remember? }

  predicate IsRowEvent(e: Event) { e.TakeRow? || e.GrantRow? || e.Write? }

  lemma LockStepKeepsOwnFit(key: Site -> Key, s: State, e: Event)
    requires Inv(key, s) && e.client in s.sessions && IsLockEvent(e)
    ensures e.client in Step(key, s, e).sessions && LockFits(key, Step(key, s, e), e.client)
  {
  }

  lemma RowStepKeepsOwnFit(key: Site -> Key, s: State, e: Event)
    requires Inv(key, s) && e.client in s.sessions && IsRowEvent(e)
    ensures e.client in Step(key, s, e).sessions && LockFits(key, Step(key, s, e), e.client)
  {
  }

  lemma EdgeStepKeepsOwnFit(key: Site -> Key, s: State, e: Event)
    requires Inv(key, s) && e.client in s.sessions && !IsLockEvent(e) && !IsRowEvent(e)
    ensures e.client in Step(key, s, e).sessions && LockFits(key, Step(key, s, e), e.client)
  {
  }

  lemma StepKeepsOwnFit(key: Site -> Key, s: State, e: Event)
    requires Inv(key, s) && e.client in s.sessions
    ensures e.client in Step(key, s, e).sessions && LockFits(key, Step(key, s, e), e.client)
  {
    if IsLockEvent(e) {
      LockStepKeepsOwnFit(key, s, e);
    } else if IsRowEvent(e) {
      RowStepKeepsOwnFit(key, s, e);
    } else {
      EdgeStepKeepsOwnFit(key, s, e);
    }
  }

  lemma StepKeepsInvariant(key: Site -> Key, s: State, e: Event)
    requires Inv(key, s)
    ensures Inv(key, Step(key, s, e))
  {
    var t := Step(key, s, e);
    StepKeepsExclusion(key, s, e);
    StepKeepsTokens(key, s, e);
    StepKeepsKnown(key, s, e);
    forall c | c in t.sessions ensures LockFits(key, t, c) && RowsFit(t, c) {
      if c == e.client {
        StepKeepsOwnFit(key, s, e);
        StepKeepsOwnRows(key, s, e);
      } else {
        StepsAreLocal(key, s, e, c);
        LocalKeepsFit(key, s, t, c);
      }
    }
  }

  lemma {:induction false} RunsKeepInvariant(key: Site -> Key, clients: set<Client>, es: seq<Event>)
    ensures Inv(key, Run(key, Start(clients), es)) && Run(key, Start(clients), es).sessions.Keys == clients
  {
    if es != [] {
      RunsKeepInvariant(key, clients, es[..|es| - 1]);
      StepKeepsInvariant(key, Run(key, Start(clients), es[..|es| - 1]), es[|es| - 1]);
      StepKeepsKnown(key, Run(key, Start(clients), es[..|es| - 1]), es[|es| - 1]);
    }
  }

  // ---------------------------------------------------------------- what holds over every interleaving

  /** While a client holds a key exclusively, nobody else holds it in any mode; sites whose keys collide only wait for each other. */
  lemma ExclusiveExcludes(key: Site -> Key, clients: set<Client>, es: seq<Event>, g: Grant, h: Grant)
    requires g in Run(key, Start(clients), es).grants && h in Run(key, Start(clients), es).grants
    requires g.key == h.key && (g.mode == Exclusive || h.mode == Exclusive)
    ensures g.client == h.client
  {
    RunsKeepInvariant(key, clients, es);
  }

  /** The same, read from what the process reports: an exclusive entry of a live transaction is the only live entry for its site. */
  lemma ReportedExclusiveExcludes(key: Site -> Key, clients: set<Client>, es: seq<Event>, c: Client, d: Client)
    requires c in clients && d in clients && c != d
    ensures var s := Run(key, Start(clients), es);
            && c in s.sessions && d in s.sessions
            && (HeldNow(s, c).Some? && HeldNow(s, c).value.mode == Exclusive && !s.sessions[c].phase.Ended?
                && HeldNow(s, d).Some? && key(HeldNow(s, d).value.site) == key(HeldNow(s, c).value.site)
                ==> s.sessions[d].phase.Ended?)
  {
    RunsKeepInvariant(key, clients, es);
  }

  /** Between the grant of a lock and its being remembered, where a transaction may also fail. */
  predicate GrantUnremembered(p: Phase) { p.Granted? || (p.Failed? && p.unremembered) }

  /**
   * What the process reports for a client is exactly what the lock table grants it, unless the grant was not remembered (yet, or because
   * the transaction failed first), or the transaction has ended and its client is not yet unmarked. In the first case a lock is granted
   * and none reported; in the second none is granted, whatever is reported.
   */
  lemma HeldIsGranted(key: Site -> Key, clients: set<Client>, es: seq<Event>, c: Client)
    requires c in clients
    ensures var s := Run(key, Start(clients), es);
            && c in s.sessions
            && (Owns(s, c, HeldGrant(key, s, c)) <==>
                  !GrantUnremembered(s.sessions[c].phase) && (s.sessions[c].phase.Ended? ==> HeldNow(s, c).None?))
            && (GrantUnremembered(s.sessions[c].phase) ==> HeldGrant(key, s, c).None? && !Owns(s, c, None))
            && (s.sessions[c].phase.Ended? ==> Owns(s, c, None))
  {
    RunsKeepInvariant(key, clients, es);
    var s := Run(key, Start(clients), es);
    assert LockFits(key, s, c);
  }

  /** The client owns a lock on the key, of the mode. */
  predicate OwnsLock(s: State, c: Client, k: Key, mode: Mode) { Grant(c, k, mode) in s.grants }

  /**
   * What a running transaction is told when it asks for the lock, by what the lock table grants it: a new lock exactly when it owns none,
   * that it has the lock exactly when it owns the key in a mode that covers the asked one, a forbidden upgrade exactly when it owns the key
   * shared and asks for it alone, another object exactly when it owns another key. Before its token is set it is told it has no transaction.
   */
  lemma AnswersAreExact(key: Site -> Key, clients: set<Client>, es: seq<Event>, c: Client, site: Site, mode: Mode)
    requires c in clients && c in Run(key, Start(clients), es).sessions
    ensures var s := Run(key, Start(clients), es);
            var answer := Decide(key, s, c, site, mode);
            && (s.sessions[c].phase.Idle? || s.sessions[c].phase.Begun? ==> answer == NotInTransaction)
            && (s.sessions[c].phase.Running? ==>
                  && (answer == Acquired <==> forall g :: g in s.grants ==> g.client != c)
                  && (answer == AlreadyHeld <==> OwnsLock(s, c, key(site), Exclusive) || (OwnsLock(s, c, key(site), Shared) && mode == Shared))
                  && (answer == UpgradeForbidden <==> OwnsLock(s, c, key(site), Shared) && mode == Exclusive)
                  && (answer == ObjectMismatch <==> exists g :: g in s.grants && g.client == c && g.key != key(site)))
  {
    RunsKeepInvariant(key, clients, es);
    var s := Run(key, Start(clients), es);
    assert LockFits(key, s, c);
    if HeldGrant(key, s, c).Some? && s.sessions[c].phase.Running? {
      assert HeldGrant(key, s, c).value in s.grants;
    }
  }

  /** A transaction that already has an id, from a row lock or a write, is not let into the queue for the lock: it goes on without it. */
  lemma LateRequestIsRefused(key: Site -> Key, s: State, c: Client)
    requires c in s.sessions && s.sessions[c].phase.Checking?
    ensures var t := Step(key, s, CheckAssigned(c));
            && c in t.sessions && t.grants == s.grants
            && (s.sessions[c].hasId ==> t.sessions[c].phase == Running)
            && (!s.sessions[c].hasId ==> t.sessions[c].phase == Waiting(s.sessions[c].phase.site, s.sessions[c].phase.mode, s.nextTicket))
  {
  }

  /** A waiter is let in exactly when nobody else holds the key, or everybody who does holds it shared and so does the waiter ask for it. */
  lemma GrantedExactly(key: Site -> Key, s: State, c: Client)
    requires c in s.sessions && s.sessions[c].phase.Waiting?
    ensures var t := Step(key, s, GrantLock(c));
            var me := s.sessions[c].phase;
            var free := forall g :: g in s.grants && g.key == key(me.site) && g.client != c ==> g.mode == Shared && me.mode == Shared;
            && (free ==> t == s.(sessions := s.sessions[c := s.sessions[c].(phase := Granted(me.site, me.mode))],
                                 grants := s.grants + {Grant(c, key(me.site), me.mode)}))
            && (!free ==> t == s)
  {
    var me := s.sessions[c].phase;
    assert CanGrant(s, c, key(me.site), me.mode)
           <==> forall g :: g in s.grants && g.key == key(me.site) && g.client != c ==> g.mode == Shared && me.mode == Shared;
  }

  /** Taking a row gives it and a transaction id, or makes the client wait for whoever has it; the wait ends when the row is free. */
  lemma RowIsTakenOrAwaited(key: Site -> Key, s: State, c: Client, row: Row)
    requires c in s.sessions
    ensures var t, u := Step(key, s, TakeRow(c, row)), Step(key, s, GrantRow(c));
            && (s.sessions[c].phase.Running? && (row !in s.rows || s.rows[row] == c) ==>
                  OwnsRow(t, c, row) && t.sessions[c].phase.Running? && t.sessions[c].hasId)
            && (s.sessions[c].phase.Running? && row in s.rows && s.rows[row] != c ==> t.sessions[c].phase == WaitingRow(row) && t.rows == s.rows)
            && (s.sessions[c].phase == WaitingRow(row) && row !in s.rows ==> OwnsRow(u, c, row) && u.sessions[c].phase.Running? && u.sessions[c].hasId)
            && (s.sessions[c].phase == WaitingRow(row) && row in s.rows ==> u == s)
  {
  }

  /** A transaction that works may commit, one that failed may only roll back; either way its locks and rows are free again and no others. */
  lemma EndGivesBack(key: Site -> Key, s: State, c: Client, e: Event)
    requires c in s.sessions && (e == Commit(c) || e == Rollback(c))
    ensures var t := Step(key, s, e);
            var ends := if e.Commit? then s.sessions[c].phase.Running? else s.sessions[c].phase.Failed?;
            && (!ends ==> t == s)
            && (ends ==>
                  && t.sessions == s.sessions[c := Session(Ended, s.sessions[c].token, false)] && t.held == s.held
                  && (forall g :: g in t.grants <==> g in s.grants && g.client != c)
                  && (forall r :: r in t.rows <==> r in s.rows && s.rows[r] != c)
                  && (forall r :: r in t.rows ==> t.rows[r] == s.rows[r]))
  {
  }

  /** A step may fail at any point of the transaction, and an ended one leaves its client ready for the next. */
  lemma FailedAndUnmarked(key: Site -> Key, s: State, c: Client)
    requires c in s.sessions
    ensures var me, t, u := s.sessions[c], Step(key, s, Fail(c)), Step(key, s, Unmark(c));
            && t == (if me.phase.Idle? || me.phase.Ended? || me.phase.Failed? then s
                     else s.(sessions := s.sessions[c := me.(phase := Failed(me.phase.Granted?))]))
            && u == (if me.phase.Ended? then s.(sessions := s.sessions[c := Session(Idle, None, false)]) else s)
            && (me.phase.Running? ==> Step(key, s, Write(c)) == s.(sessions := s.sessions[c := me.(hasId := true)]))
  {
  }

  /** An entry left by an earlier transaction of the same client is never reported: a new transaction starts with nothing held. */
  lemma StaleEntryIgnored(key: Site -> Key, clients: set<Client>, es: seq<Event>, c: Client)
    requires c in Run(key, Start(clients), es).sessions && Run(key, Start(clients), es).sessions[c].phase.Begun?
    ensures HeldNow(Run(key, Start(clients), es + [Mark(c)]), c).None?
  {
    RunsKeepInvariant(key, clients, es);
    assert (es + [Mark(c)])[..|es|] == es;
  }

  const FIRST := [Begin(0), Mark(0), Acquire(0, 7, Exclusive), CheckAssigned(0), GrantLock(0), Remember(0), Commit(0)]
  const SECOND := [Begin(1), Mark(1), Acquire(1, 7, Exclusive), CheckAssigned(1), GrantLock(1)]

  /** The two clients of the example, and the tables that matter to them. */
  predicate Scene(s: State, zero: Session, one: Session, held: map<Client, Held>, grants: set<Grant>, tokens: nat) {
    0 in s.sessions && s.sessions[0] == zero && 1 in s.sessions && s.sessions[1] == one
    && s.held == held && s.grants == grants && s.nextToken == tokens
  }

  lemma Prefix(key: Site -> Key, s: State, es: seq<Event>, i: nat)
    requires i < |es|
    ensures Run(key, s, es[..i + 1]) == Step(key, Run(key, s, es[..i]), es[i])
    ensures Run(key, s, es[..0]) == s
  {
    assert es[..i + 1][..i] == es[..i];
  }

  lemma FirstBegins(key: Site -> Key, s: State)
    requires Scene(s, Session(Idle, None, false), Session(Idle, None, false), map[], {}, 0)
    ensures Scene(Run(key, s, FIRST[..2]), Session(Running, Some(0), false), Session(Idle, None, false), map[], {}, 1)
  {
    Prefix(key, s, FIRST, 0);
    assert Scene(Run(key, s, FIRST[..1]), Session(Begun, None, false), Session(Idle, None, false), map[], {}, 0);
    Prefix(key, s, FIRST, 1);
  }

  lemma FirstAsks(key: Site -> Key, s: State)
    requires Scene(s, Session(Idle, None, false), Session(Idle, None, false), map[], {}, 0)
    ensures exists n :: Scene(Run(key, s, FIRST[..4]), Session(Waiting(7, Exclusive, n), Some(0), false), Session(Idle, None, false), map[], {}, 1)
  {
    var idle := Session(Idle, None, false);
    FirstBegins(key, s);
    Prefix(key, s, FIRST, 2);
    assert Scene(Run(key, s, FIRST[..3]), Session(Checking(7, Exclusive), Some(0), false), idle, map[], {}, 1);
    Prefix(key, s, FIRST, 3);
    assert Scene(Run(key, s, FIRST[..4]), Session(Waiting(7, Exclusive, Run(key, s, FIRST[..3]).nextTicket), Some(0), false), idle, map[], {}, 1);
  }

  lemma FirstRemembers(key: Site -> Key, s: State)
    requires key(7) == 7 && Scene(s, Session(Idle, None, false), Session(Idle, None, false), map[], {}, 0)
    ensures Scene(Run(key, s, FIRST[..6]), Session(Running, Some(0), false), Session(Idle, None, false), map[0 := Held(0, 7, Exclusive)], {Grant(0, 7, Exclusive)}, 1)
  {
    FirstAsks(key, s);
    Prefix(key, s, FIRST, 4);
    assert Scene(Run(key, s, FIRST[..5]), Session(Granted(7, Exclusive), Some(0), false), Session(Idle, None, false), map[], {Grant(0, 7, Exclusive)}, 1);
    Prefix(key, s, FIRST, 5);
  }

  lemma FirstCommits(key: Site -> Key, s: State)
    requires key(7) == 7 && Scene(s, Session(Idle, None, false), Session(Idle, None, false), map[], {}, 0)
    ensures Scene(Run(key, s, FIRST), Session(Ended, Some(0), false), Session(Idle, None, false), map[0 := Held(0, 7, Exclusive)], {}, 1)
  {
    FirstRemembers(key, s);
    Prefix(key, s, FIRST, 6);
    assert FIRST[..7] == FIRST;
  }

  lemma SecondBegins(key: Site -> Key, s: State, held: map<Client, Held>)
    requires Scene(s, Session(Ended, Some(0), false), Session(Idle, None, false), held, {}, 1)
    ensures Scene(Run(key, s, SECOND[..2]), Session(Ended, Some(0), false), Session(Running, Some(1), false), held, {}, 2)
  {
    Prefix(key, s, SECOND, 0);
    assert Scene(Run(key, s, SECOND[..1]), Session(Ended, Some(0), false), Session(Begun, None, false), held, {}, 1);
    Prefix(key, s, SECOND, 1);
  }

  lemma SecondAsks(key: Site -> Key, s: State, held: map<Client, Held>)
    requires Scene(s, Session(Ended, Some(0), false), Session(Idle, None, false), held, {}, 1) && 1 !in held
    ensures exists n :: Scene(Run(key, s, SECOND[..4]), Session(Ended, Some(0), false), Session(Waiting(7, Exclusive, n), Some(1), false), held, {}, 2)
  {
    var first := Session(Ended, Some(0), false);
    SecondBegins(key, s, held);
    Prefix(key, s, SECOND, 2);
    assert Scene(Run(key, s, SECOND[..3]), first, Session(Checking(7, Exclusive), Some(1), false), held, {}, 2);
    Prefix(key, s, SECOND, 3);
    assert Scene(Run(key, s, SECOND[..4]), first, Session(Waiting(7, Exclusive, Run(key, s, SECOND[..3]).nextTicket), Some(1), false), held, {}, 2);
  }

  lemma SecondIsGranted(key: Site -> Key, s: State, held: map<Client, Held>)
    requires key(7) == 7 && Scene(s, Session(Ended, Some(0), false), Session(Idle, None, false), held, {}, 1) && 1 !in held
    ensures Scene(Run(key, s, SECOND), Session(Ended, Some(0), false), Session(Granted(7, Exclusive), Some(1), false), held, {Grant(1, 7, Exclusive)}, 2)
  {
    SecondAsks(key, s, held);
    Prefix(key, s, SECOND, 4);
    assert SECOND[..5] == SECOND;
  }

  /**
   * Both windows are real: one client has committed and is still reported as the exclusive holder, while another already owns the same
   * lock and is not reported yet.
   */
  lemma BothWindowsHappen() returns (key: Site -> Key, es: seq<Event>)
    ensures var s := Run(key, Start({0, 1}), es);
            HeldNow(s, 0) == Some(Held(0, 7, Exclusive)) && HeldNow(s, 1).None? && s.grants == {Grant(1, key(7), Exclusive)}
  {
    key := site => site;
    es := FIRST + SECOND;
    FirstCommits(key, Start({0, 1}));
    SecondIsGranted(key, Run(key, Start({0, 1}), FIRST), map[0 := Held(0, 7, Exclusive)]);
    RunAppend(key, Start({0, 1}), FIRST, SECOND);
  }

  lemma {:induction false} RunAppend(key: Site -> Key, s: State, a: seq<Event>, b: seq<Event>)
    ensures Run(key, s, a + b) == Run(key, Run(key, s, a), b)
    decreases |b|
  {
    if b == [] {
      assert a + b == a;
    } else {
      RunAppend(key, s, a, b[..|b| - 1]);
      assert (a + b)[..|a + b| - 1] == a + b[..|b| - 1];
    }
  }

  // ---------------------------------------------------------------- no deadlock through the lock

  /** The next event of `c` has to wait for `d`: for a lock it holds, for a row it holds, or behind it in the queue of the lock. */
  ghost predicate WaitsFor(key: Site -> Key, s: State, c: Client, d: Client) {
    && c in s.sessions && d in s.sessions && c != d
    && match s.sessions[c].phase
       case Waiting(site, mode, ticket) =>
         || (exists g :: g in s.grants && g.client == d && g.key == key(site) && Conflict(g.mode, mode))
         || (s.sessions[d].phase.Waiting? && key(s.sessions[d].phase.site) == key(site) && s.sessions[d].phase.ticket < ticket)
       case WaitingRow(row) => OwnsRow(s, d, row)
       case _ => false
  }

  /** A client that waits for the lock holds nothing anybody could wait for. */
  lemma WaiterHoldsNothing(key: Site -> Key, s: State, c: Client)
    requires Inv(key, s) && c in s.sessions && s.sessions[c].phase.Waiting?
    ensures Owns(s, c, None) && forall r :: !OwnsRow(s, c, r)
  {
    assert LockFits(key, s, c) && RowsFit(s, c);
  }

  lemma WaiterWaitedForByWaiter(key: Site -> Key, s: State, c: Client, d: Client)
    requires Inv(key, s) && WaitsFor(key, s, c, d) && s.sessions[d].phase.Waiting?
    ensures s.sessions[c].phase.Waiting? && s.sessions[c].phase.ticket > s.sessions[d].phase.ticket
  {
    WaiterHoldsNothing(key, s, d);
  }

  ghost predicate IsWaitPath(key: Site -> Key, s: State, path: seq<Client>) {
    forall i :: 0 <= i < |path| - 1 ==> WaitsFor(key, s, path[i], path[i + 1])
  }

  lemma {:induction false} WaitersAllTheWayBack(key: Site -> Key, s: State, path: seq<Client>, i: nat, j: nat)
    requires Inv(key, s) && IsWaitPath(key, s, path) && i <= j < |path|
    requires path[j] in s.sessions && s.sessions[path[j]].phase.Waiting?
    ensures path[i] in s.sessions && s.sessions[path[i]].phase.Waiting?
    ensures s.sessions[path[i]].phase.ticket >= s.sessions[path[j]].phase.ticket + (j - i)
    decreases j - i
  {
    if i < j {
      assert WaitsFor(key, s, path[j - 1], path[j]);
      WaiterWaitedForByWaiter(key, s, path[j - 1], path[j]);
      WaitersAllTheWayBack(key, s, path, i, j - 1);
    }
  }

  lemma NoCycleThroughWaiter(key: Site -> Key, s: State, cycle: seq<Client>, j: nat)
    requires Inv(key, s) && IsWaitPath(key, s, cycle) && |cycle| >= 2 && cycle[0] == cycle[|cycle| - 1] && j < |cycle| && cycle[j] in s.sessions
    ensures !s.sessions[cycle[j]].phase.Waiting?
  {
    if s.sessions[cycle[j]].phase.Waiting? {
      WaitersAllTheWayBack(key, s, cycle, 0, j);
      WaitersAllTheWayBack(key, s, cycle, 0, |cycle| - 1);
    }
  }

  /** No cycle of waiting, over locks, rows and queues together, passes through a client that waits for the coordination lock. */
  lemma NoWaitCycleThroughLock(key: Site -> Key, clients: set<Client>, es: seq<Event>, cycle: seq<Client>, j: nat)
    requires IsWaitPath(key, Run(key, Start(clients), es), cycle)
    requires |cycle| >= 2 && cycle[0] == cycle[|cycle| - 1] && j < |cycle| && cycle[j] in clients
    ensures Run(key, Start(clients), es).sessions.Keys == clients
    ensures !Run(key, Start(clients), es).sessions[cycle[j]].phase.Waiting?
  {
    RunsKeepInvariant(key, clients, es);
    NoCycleThroughWaiter(key, Run(key, Start(clients), es), cycle, j);
  }
}
