/** The command ledgers: claim a key, execute once, replay the stored result, over every interleaving with commits and aborts. */
module CommandLedger {
  import opened Wrappers

  type Key = nat
  type Tx = nat
  type Outcome = nat

  /** A JSON object by key; `None` is a key whose value is undefined. */
  type Payload = map<string, Option<string>>

  /** What is compared on a repeated key: the fingerprint in one ledger; actor, scope and payload in the other. */
  datatype Tag = Fingerprint(text: string) | Claim(actor: nat, scope: nat, payload: Payload)

  datatype Verdict = Same | OtherActor | OtherData

  datatype Row = Row(tag: Tag, result: Option<Outcome>)
  datatype Request = Request(key: Option<Key>, tag: Tag)

  datatype Mark = Authorized | Claimed | Compared | Replayed | Executed | Completed

  datatype Phase =
    | Arrived
    | Permitted
    | Owner
    | Done(result: Outcome)
    | Written(result: Outcome)
    | Answering(result: Outcome)
    | Refused(verdict: Verdict)
    | Committed
    | Aborted

  datatype Call = Call(request: Request, phase: Phase, trace: seq<Mark>)

  /** A committed execution, and a committed answer; several answers may come from one execution. */
  datatype Effect = Effect(request: Request, result: Outcome)
  datatype Answer = Answer(request: Request, result: Outcome, replayed: bool)

  datatype State = State(
    calls: map<Tx, Call>,
    rows: map<Key, Row>,
    claims: map<Key, (Tx, Row)>,
    effects: seq<Effect>,
    answers: seq<Answer>)

  datatype Event =
    | Arrive(tx: Tx, request: Request)
    | Authorize(tx: Tx, granted: bool)
    | ClaimKey(tx: Tx)
    | Execute(tx: Tx, result: Outcome)
    | Complete(tx: Tx)
    | Commit(tx: Tx)
    | Abort(tx: Tx)

  // ---------------------------------------------------------------- comparing payloads

  function Look(p: Payload, k: string): Option<string> { if k in p then p[k] else None }

  ghost predicate SamePayload(a: Payload, b: Payload) { forall k :: Look(a, k) == Look(b, k) }

  /** What the database keeps of a payload: undefined values are not written. */
  function Stored(p: Payload): Payload { map k | k in p && p[k].Some? :: p[k] }

  /** Compare over the keys of both, one by one. */
  method PayloadEquals(a: Payload, b: Payload) returns (same: bool)
    ensures same <==> SamePayload(a, b)
  {
    var keys := a.Keys + b.Keys;
    while keys != {}
      invariant forall k :: k !in keys ==> Look(a, k) == Look(b, k)
    {
      var k :| k in keys;
      if Look(a, k) != Look(b, k) {
        return false;
      }
      keys := keys - {k};
    }
    return true;
  }

  lemma StoredIsSame(p: Payload, q: Payload)
    ensures SamePayload(Stored(p), q) <==> SamePayload(p, q)
  {
    assert forall k :: Look(Stored(p), k) == Look(p, k);
  }

  /** The verdict on a repeated key: another actor's key is reported as such before the data is looked at. */
  ghost function Compare(stored: Tag, given: Tag): Verdict {
    match (stored, given)
    case (Fingerprint(a), Fingerprint(b)) => if a == b then Same else OtherData
    case (Claim(actor, scope, payload), Claim(actor', scope', payload')) =>
      if actor != actor' then OtherActor
      else if scope == scope' && SamePayload(payload, payload') then Same
      else OtherData
    case _ => OtherData
  }

  function StoredTag(t: Tag): Tag { if t.Claim? then t.(payload := Stored(t.payload)) else t }

  lemma SameIsEquivalence(a: Tag, b: Tag, c: Tag)
    ensures Compare(a, a) == Same
    ensures Compare(StoredTag(a), b) == Compare(a, b)
    ensures Compare(a, b) == Same ==> Compare(b, a) == Same
    ensures Compare(a, b) == Same && Compare(b, c) == Same ==> Compare(a, c) == Same
  {
    if a.Claim? && b.Claim? {
      StoredIsSame(a.payload, b.payload);
    }
  }

  /** The payload has the key with this value; an undefined value is none. */
  predicate Holds(p: Payload, k: string, v: string) { k in p && p[k] == Some(v) }

  /** One fingerprint text, or one actor, scope and set of payload values. */
  ghost predicate SameRequest(a: Tag, b: Tag) {
    match (a, b)
    case (Fingerprint(x), Fingerprint(y)) => x == y
    case (Claim(actor, scope, payload), Claim(actor', scope', payload')) =>
      actor == actor' && scope == scope' && forall k, v :: Holds(payload, k, v) <==> Holds(payload', k, v)
    case _ => false
  }

  predicate OfOtherActor(a: Tag, b: Tag) { a.Claim? && b.Claim? && a.actor != b.actor }

  lemma SamePayloadHoldsSame(a: Payload, b: Payload)
    ensures SamePayload(a, b) <==> forall k, v :: Holds(a, k, v) <==> Holds(b, k, v)
  {
    forall k, v ensures Holds(a, k, v) <==> Look(a, k) == Some(v) { }
    forall k, v ensures Holds(b, k, v) <==> Look(b, k) == Some(v) { }
    if forall k, v :: Holds(a, k, v) <==> Holds(b, k, v) {
      forall k ensures Look(a, k) == Look(b, k) {
        if Look(a, k).Some? {
          assert Holds(a, k, Look(a, k).value);
        } else if Look(b, k).Some? {
          assert Holds(b, k, Look(b, k).value);
        }
      }
    }
  }

  /** The verdict tells another actor's key first, then other data. */
  lemma CompareExactly(a: Tag, b: Tag)
    ensures Compare(a, b) == if SameRequest(a, b) then Same else if OfOtherActor(a, b) then OtherActor else OtherData
  {
    if a.Claim? && b.Claim? {
      SamePayloadHoldsSame(a.payload, b.payload);
    }
  }

  // ---------------------------------------------------------------- the steps

  function To(s: State, tx: Tx, phase: Phase, marks: seq<Mark>): State
    requires tx in s.calls
  {
    s.(calls := s.calls[tx := s.calls[tx].(phase := phase, trace := s.calls[tx].trace + marks)])
  }

  predicate Ended(p: Phase) { p.Committed? || p.Aborted? }

  /** The claim of a key: blocked while another transaction holds it unfinished, answered by a committed row, taken otherwise. */
  ghost function DoClaim(s: State, tx: Tx): State
    requires tx in s.calls && s.calls[tx].request.key.Some?
  {
    var r, k := s.calls[tx].request, s.calls[tx].request.key.value;
    if k in s.claims then s
    else if k in s.rows then
      var v := Compare(s.rows[k].tag, r.tag);
      if v != Same || s.rows[k].result.None? then To(s, tx, Refused(v), [Claimed, Compared])
      else To(s, tx, Answering(s.rows[k].result.value), [Claimed, Compared, Replayed])
    else To(s, tx, Owner, [Claimed]).(claims := s.claims[k := (tx, Row(StoredTag(r.tag), None))])
  }

  /** Undo the claim a transaction may hold. */
  function Released(s: State, tx: Tx): map<Key, (Tx, Row)> { map k | k in s.claims && s.claims[k].0 != tx :: s.claims[k] }

  function DoCommit(s: State, tx: Tx): State
    requires tx in s.calls
  {
    var r, p := s.calls[tx].request, s.calls[tx].phase;
    if p.Written? && r.key.Some? && r.key.value in s.claims then
      To(s, tx, Committed, []).(
        rows := s.rows[r.key.value := s.claims[r.key.value].1],
        claims := Released(s, tx),
        effects := s.effects + [Effect(r, p.result)],
        answers := s.answers + [Answer(r, p.result, false)])
    else if p.Done? && r.key.None? then
      To(s, tx, Committed, []).(effects := s.effects + [Effect(r, p.result)], answers := s.answers + [Answer(r, p.result, false)])
    else if p.Answering? then
      To(s, tx, Committed, []).(answers := s.answers + [Answer(r, p.result, true)])
    else s
  }

  ghost function Step(s: State, e: Event): State {
    var tx := e.tx;
    if e.Arrive? then (if tx in s.calls then s else s.(calls := s.calls[tx := Call(e.request, Arrived, [])]))
    else if tx !in s.calls then s
    else
      var c := s.calls[tx];
      match e
      case Arrive(_, _) => s
      case Authorize(_, granted) =>
        if !c.phase.Arrived? then s else if granted then To(s, tx, Permitted, [Authorized]) else To(s, tx, Aborted, [Authorized])
      case ClaimKey(_) => if c.phase.Permitted? && c.request.key.Some? then DoClaim(s, tx) else s
      case Execute(_, result) =>
        if c.phase.Owner? || (c.phase.Permitted? && c.request.key.None?) then To(s, tx, Done(result), [Executed]) else s
      case Complete(_) =>
        if c.phase.Done? && c.request.key.Some? && c.request.key.value in s.claims then
          var k := c.request.key.value;
          To(s, tx, Written(c.phase.result), [Completed]).(claims := s.claims[k := (s.claims[k].0, s.claims[k].1.(result := Some(c.phase.result)))])
        else s
      case Commit(_) => DoCommit(s, tx)
      case Abort(_) => if Ended(c.phase) then s else To(s, tx, Aborted, []).(claims := Released(s, tx))
  }

  ghost function Run(s: State, es: seq<Event>): State {
    if es == [] then s else Step(Run(s, es[..|es| - 1]), es[|es| - 1])
  }

  const EMPTY := State(map[], map[], map[], [], [])

  /** The read-only look-up before the command: a stored answer, a refusal, or nothing. */
  datatype Lookup = Nothing | Replay(result: Outcome) | Reject(verdict: Verdict)

  ghost function LookupReplay(s: State, r: Request): Lookup {
    if r.key.None? || r.key.value !in s.rows then Nothing
    else
      var row := s.rows[r.key.value];
      if Compare(row.tag, r.tag) != Same || row.result.None? then Reject(Compare(row.tag, r.tag)) else Replay(row.result.value)
  }

  // ---------------------------------------------------------------- the invariant

  predicate IsEffectOf(e: Effect, k: Key) { e.request.key == Some(k) }

  /** One committed execution per stored row, and the row holds its result. */
  ghost predicate RowsFit(s: State) {
    && (forall i, j, k :: 0 <= i < j < |s.effects| && IsEffectOf(s.effects[i], k) ==> !IsEffectOf(s.effects[j], k))
    && (forall i, k :: 0 <= i < |s.effects| && IsEffectOf(s.effects[i], k) ==>
          k in s.rows && s.rows[k] == Row(StoredTag(s.effects[i].request.tag), Some(s.effects[i].result)))
    && (forall k :: k in s.rows ==> s.rows[k].result.Some? && k !in s.claims && exists i :: 0 <= i < |s.effects| && IsEffectOf(s.effects[i], k))
  }

  /** A claim belongs to one unfinished transaction, which holds no other. */
  ghost predicate ClaimsFit(s: State) {
    forall k :: k in s.claims ==>
      var (tx, row) := s.claims[k];
      && tx in s.calls && s.calls[tx].request.key == Some(k) && row.tag == StoredTag(s.calls[tx].request.tag)
      && (s.calls[tx].phase.Owner? || s.calls[tx].phase.Done? || s.calls[tx].phase.Written?)
      && (s.calls[tx].phase.Written? ==> row.result == Some(s.calls[tx].phase.result))
  }

  ghost predicate CallFits(s: State, tx: Tx)
    requires tx in s.calls
  {
    var c := s.calls[tx];
    && ((c.phase.Owner? || c.phase.Done? || c.phase.Written?) && c.request.key.Some? ==>
          c.request.key.value in s.claims && s.claims[c.request.key.value].0 == tx)
    && (c.phase.Written? ==> c.request.key.Some?)
    && (c.phase.Answering? ==>
          && c.request.key.Some? && c.request.key.value in s.rows
          && s.rows[c.request.key.value].result == Some(c.phase.result)
          && Compare(s.rows[c.request.key.value].tag, c.request.tag) == Same)
  }

  ghost predicate AnswersFit(s: State) {
    forall i :: 0 <= i < |s.answers| && s.answers[i].request.key.Some? ==>
      var a, k := s.answers[i], s.answers[i].request.key.value;
      k in s.rows && s.rows[k].result == Some(a.result) && Compare(s.rows[k].tag, a.request.tag) == Same
  }

  ghost predicate Inv(s: State) {
    RowsFit(s) && ClaimsFit(s) && (forall tx :: tx in s.calls ==> CallFits(s, tx)) && AnswersFit(s)
  }

  ghost predicate CallsFit(s: State) { forall tx :: tx in s.calls ==> CallFits(s, tx) }

  lemma OnlyCommitStores(s: State, e: Event)
    requires !e.Commit?
    ensures Step(s, e).rows == s.rows && Step(s, e).effects == s.effects && Step(s, e).answers == s.answers
  {
  }

  lemma StoredStayUnclaimed(s: State, e: Event)
    requires RowsFit(s) && !e.Commit?
    ensures forall k :: k in s.rows ==> k !in Step(s, e).claims
  {
    forall k | k in s.rows ensures k !in Step(s, e).claims {
      assert k !in s.claims;
      if e.ClaimKey? && e.tx in s.calls && s.calls[e.tx].request.key == Some(k) {
        assert DoClaim(s, e.tx).claims == s.claims;
      }
    }
  }

  lemma NonCommitKeepsRows(s: State, e: Event)
    requires RowsFit(s) && AnswersFit(s) && !e.Commit?
    ensures RowsFit(Step(s, e)) && AnswersFit(Step(s, e))
  {
    OnlyCommitStores(s, e);
    StoredStayUnclaimed(s, e);
  }

  lemma StartKeepsClaims(s: State, e: Event)
    requires ClaimsFit(s) && (e.Arrive? || e.Authorize? || e.Execute?)
    ensures ClaimsFit(Step(s, e)) && Step(s, e).claims == s.claims
  {
  }

  lemma ClaimKeepsClaims(s: State, e: Event)
    requires Inv(s) && e.ClaimKey?
    ensures ClaimsFit(Step(s, e))
  {
  }

  lemma CompleteKeepsClaims(s: State, e: Event)
    requires Inv(s) && e.Complete?
    ensures ClaimsFit(Step(s, e))
  {
  }

  lemma AbortKeepsClaims(s: State, e: Event)
    requires ClaimsFit(s) && e.Abort?
    ensures ClaimsFit(Step(s, e))
  {
  }

  lemma CommitKeepsClaims(s: State, e: Event)
    requires Inv(s) && e.Commit?
    ensures ClaimsFit(Step(s, e))
  {
    if e.tx in s.calls {
      assert CallFits(s, e.tx);
    }
  }

  lemma StartKeepsCalls(s: State, e: Event)
    requires Inv(s) && (e.Arrive? || e.Authorize? || e.Execute?)
    ensures CallsFit(Step(s, e))
  {
  }

  lemma ClaimKeepsCalls(s: State, e: Event)
    requires Inv(s) && e.ClaimKey?
    ensures CallsFit(Step(s, e))
  {
  }

  lemma CompleteKeepsCalls(s: State, e: Event)
    requires Inv(s) && e.Complete?
    ensures CallsFit(Step(s, e))
  {
  }

  lemma AbortKeepsCalls(s: State, e: Event)
    requires Inv(s) && e.Abort?
    ensures CallsFit(Step(s, e))
  {
    forall tx | tx in Step(s, e).calls ensures CallFits(Step(s, e), tx) { assert CallFits(s, tx); }
  }

  lemma CommittedCallFits(s: State, e: Event)
    requires CallsFit(s) && e.Commit? && e.tx in s.calls
    ensures CallFits(Step(s, e), e.tx)
  {
    assert CallFits(s, e.tx);
  }

  lemma OtherCallFits(s: State, e: Event, tx: Tx)
    requires Inv(s) && e.Commit? && tx in s.calls && tx != e.tx
    ensures tx in Step(s, e).calls && CallFits(Step(s, e), tx)
  {
    assert CallFits(s, tx);
    CommitKeepsStored(s, e);
  }

  lemma CommitKeepsCalls(s: State, e: Event)
    requires Inv(s) && e.Commit?
    ensures CallsFit(Step(s, e))
  {
    forall tx | tx in Step(s, e).calls ensures CallFits(Step(s, e), tx) {
      if tx == e.tx {
        CommittedCallFits(s, e);
      } else {
        OtherCallFits(s, e, tx);
      }
    }
  }

  /** A commit stores a row only under a key that had none. */
  lemma CommitKeepsStored(s: State, e: Event)
    requires Inv(s) && e.Commit?
    ensures forall k :: k in s.rows ==> k in Step(s, e).rows && Step(s, e).rows[k] == s.rows[k]
  {
    if e.tx in s.calls && s.calls[e.tx].phase.Written? {
      assert CallFits(s, e.tx);
    }
  }

  lemma OneMoreEffect(s: State, effect: Effect)
    requires RowsFit(s) && forall k :: IsEffectOf(effect, k) ==> k !in s.rows
    ensures var es := s.effects + [effect]; forall i, j, k :: 0 <= i < j < |es| && IsEffectOf(es[i], k) ==> !IsEffectOf(es[j], k)
  {
  }

  lemma StoredByOwner(s: State, t: State, r: Request, result: Outcome)
    requires RowsFit(s) && r.key.Some? && r.key.value in s.claims
    requires t.rows == s.rows[r.key.value := Row(StoredTag(r.tag), Some(result))]
    requires t.effects == s.effects + [Effect(r, result)]
    requires r.key.value !in t.claims && forall k :: k in t.claims ==> k in s.claims
    ensures RowsFit(t)
  {
    var k := r.key.value;
    assert k !in s.rows;
    OneMoreEffect(s, Effect(r, result));
    assert IsEffectOf(t.effects[|s.effects|], k);
    forall j | j in t.rows ensures exists i :: 0 <= i < |t.effects| && IsEffectOf(t.effects[i], j) {
      if j != k {
        var i :| 0 <= i < |s.effects| && IsEffectOf(s.effects[i], j);
        assert IsEffectOf(t.effects[i], j);
      }
    }
  }

  lemma UnkeyedEffect(s: State, t: State, r: Request, result: Outcome)
    requires RowsFit(s) && r.key.None?
    requires t.rows == s.rows && t.claims == s.claims && t.effects == s.effects + [Effect(r, result)]
    ensures RowsFit(t)
  {
    forall j | j in t.rows ensures exists i :: 0 <= i < |t.effects| && IsEffectOf(t.effects[i], j) {
      var i :| 0 <= i < |s.effects| && IsEffectOf(s.effects[i], j);
      assert IsEffectOf(t.effects[i], j);
    }
  }

  lemma WrittenCommit(s: State, tx: Tx)
    requires tx in s.calls && s.calls[tx].phase.Written? && CallFits(s, tx) && ClaimsFit(s)
    ensures var r, result, t := s.calls[tx].request, s.calls[tx].phase.result, DoCommit(s, tx);
            && r.key.Some? && r.key.value in s.claims
            && t.rows == s.rows[r.key.value := Row(StoredTag(r.tag), Some(result))]
            && t.effects == s.effects + [Effect(r, result)]
            && r.key.value !in t.claims && forall k :: k in t.claims ==> k in s.claims
  {
  }

  lemma UnkeyedCommit(s: State, tx: Tx)
    requires tx in s.calls && s.calls[tx].phase.Done? && s.calls[tx].request.key.None?
    ensures var r, result, t := s.calls[tx].request, s.calls[tx].phase.result, DoCommit(s, tx);
            t.rows == s.rows && t.claims == s.claims && t.effects == s.effects + [Effect(r, result)]
  {
  }

  lemma QuietCommit(s: State, tx: Tx)
    requires tx in s.calls && !s.calls[tx].phase.Written? && !(s.calls[tx].phase.Done? && s.calls[tx].request.key.None?)
    ensures DoCommit(s, tx).rows == s.rows && DoCommit(s, tx).claims == s.claims && DoCommit(s, tx).effects == s.effects
  {
  }

  lemma SameRowsFit(s: State, t: State)
    requires RowsFit(s) && t.rows == s.rows && t.claims == s.claims && t.effects == s.effects
    ensures RowsFit(t)
  {
  }

  lemma EndedKeepsRows(s: State, tx: Tx, t: State)
    requires RowsFit(s) && ClaimsFit(s) && tx in s.calls && CallFits(s, tx) && t == DoCommit(s, tx)
    ensures RowsFit(t)
  {
    var r, p := s.calls[tx].request, s.calls[tx].phase;
    if p.Written? {
      WrittenCommit(s, tx);
      StoredByOwner(s, t, r, p.result);
    } else if p.Done? && r.key.None? {
      UnkeyedCommit(s, tx);
      UnkeyedEffect(s, t, r, p.result);
    } else {
      QuietCommit(s, tx);
      SameRowsFit(s, t);
    }
  }

  lemma CommitKeepsRows(s: State, e: Event)
    requires Inv(s) && e.Commit?
    ensures RowsFit(Step(s, e))
  {
    if e.tx in s.calls {
      EndedKeepsRows(s, e.tx, DoCommit(s, e.tx));
    }
  }

  lemma CommitKeepsAnswers(s: State, e: Event)
    requires Inv(s) && e.Commit?
    ensures AnswersFit(Step(s, e))
  {
    if e.tx in s.calls {
      var tag := s.calls[e.tx].request.tag;
      SameIsEquivalence(tag, tag, tag);
    }
  }

  lemma StepKeepsInvariant(s: State, e: Event)
    requires Inv(s)
    ensures Inv(Step(s, e))
  {
    match e
    case Arrive(_, _) => NonCommitKeepsRows(s, e); StartKeepsClaims(s, e); StartKeepsCalls(s, e);
    case Authorize(_, _) => NonCommitKeepsRows(s, e); StartKeepsClaims(s, e); StartKeepsCalls(s, e);
    case Execute(_, _) => NonCommitKeepsRows(s, e); StartKeepsClaims(s, e); StartKeepsCalls(s, e);
    case ClaimKey(_) => NonCommitKeepsRows(s, e); ClaimKeepsClaims(s, e); ClaimKeepsCalls(s, e);
    case Complete(_) => NonCommitKeepsRows(s, e); CompleteKeepsClaims(s, e); CompleteKeepsCalls(s, e);
    case Abort(_) => NonCommitKeepsRows(s, e); AbortKeepsClaims(s, e); AbortKeepsCalls(s, e);
    case Commit(_) => CommitKeepsRows(s, e); CommitKeepsAnswers(s, e); CommitKeepsClaims(s, e); CommitKeepsCalls(s, e);
  }

  lemma {:induction false} RunsKeepInvariant(es: seq<Event>)
    ensures Inv(Run(EMPTY, es))
  {
    if es != [] {
      RunsKeepInvariant(es[..|es| - 1]);
      StepKeepsInvariant(Run(EMPTY, es[..|es| - 1]), es[|es| - 1]);
    }
  }

  // ---------------------------------------------------------------- at most once, over every interleaving

  /** A key has at most one committed execution. */
  lemma AtMostOneExecution(es: seq<Event>, i: nat, j: nat, k: Key)
    requires i < j < |Run(EMPTY, es).effects|
    ensures !(IsEffectOf(Run(EMPTY, es).effects[i], k) && IsEffectOf(Run(EMPTY, es).effects[j], k))
  {
    RunsKeepInvariant(es);
  }

  /** Every committed answer for a key, first or replayed, is the result of the one execution, asked for with the same data by the same actor. */
  lemma AnswersComeFromTheExecution(es: seq<Event>, a: Answer, k: Key)
    requires a in Run(EMPTY, es).answers && a.request.key == Some(k)
    ensures exists i :: 0 <= i < |Run(EMPTY, es).effects| && Run(EMPTY, es).effects[i].request.key == Some(k)
              && Run(EMPTY, es).effects[i].result == a.result && SameRequest(Run(EMPTY, es).effects[i].request.tag, a.request.tag)
  {
    RunsKeepInvariant(es);
    var s := Run(EMPTY, es);
    var i :| 0 <= i < |s.effects| && IsEffectOf(s.effects[i], k);
    SameIsEquivalence(s.effects[i].request.tag, a.request.tag, a.request.tag);
    CompareExactly(s.effects[i].request.tag, a.request.tag);
  }

  /** A stored row never changes again. */
  lemma StepKeepsRow(s: State, e: Event, k: Key)
    requires Inv(s) && k in s.rows
    ensures k in Step(s, e).rows && Step(s, e).rows[k] == s.rows[k]
  {
    if e.Commit? {
      CommitKeepsStored(s, e);
    } else {
      OnlyCommitStores(s, e);
    }
  }

  lemma {:induction false} RowsStay(s: State, es: seq<Event>, k: Key)
    requires Inv(s) && k in s.rows
    ensures Inv(Run(s, es)) && k in Run(s, es).rows && Run(s, es).rows[k] == s.rows[k]
  {
    if es != [] {
      RowsStay(s, es[..|es| - 1], k);
      StepKeepsInvariant(Run(s, es[..|es| - 1]), es[|es| - 1]);
      StepKeepsRow(Run(s, es[..|es| - 1]), es[|es| - 1], k);
    }
  }

  /** The row of a key is the one committed execution's: its data, without undefined values, and its result. */
  lemma RowIsTheExecution(es: seq<Event>, i: nat, k: Key)
    requires i < |Run(EMPTY, es).effects| && Run(EMPTY, es).effects[i].request.key == Some(k)
    ensures Inv(Run(EMPTY, es)) && k in Run(EMPTY, es).rows && k !in Run(EMPTY, es).claims
    ensures var e := Run(EMPTY, es).effects[i]; Run(EMPTY, es).rows[k] == Row(StoredTag(e.request.tag), Some(e.result))
    ensures var row, asked := Run(EMPTY, es).rows[k], Run(EMPTY, es).effects[i].request.tag;
            match asked
            case Fingerprint(_) => row.tag == asked
            case Claim(actor, scope, payload) =>
              && row.tag.Claim? && row.tag.actor == actor && row.tag.scope == scope
              && forall x :: (x in row.tag.payload <==> x in payload && payload[x] != None) && (x in row.tag.payload ==> row.tag.payload[x] == payload[x])
  {
    RunsKeepInvariant(es);
    assert IsEffectOf(Run(EMPTY, es).effects[i], k);
  }

  /** What the look-up tells, by the committed executions alone: nothing exactly when the key has none, the result to the same request, a refusal to any other. */
  lemma LookupExactly(es: seq<Event>, r: Request)
    ensures LookupReplay(Run(EMPTY, es), r) == Nothing <==>
            forall i :: 0 <= i < |Run(EMPTY, es).effects| ==> r.key == None || Run(EMPTY, es).effects[i].request.key != r.key
    ensures forall i :: 0 <= i < |Run(EMPTY, es).effects| && r.key != None && Run(EMPTY, es).effects[i].request.key == r.key ==>
              var e := Run(EMPTY, es).effects[i];
              LookupReplay(Run(EMPTY, es), r) ==
                if SameRequest(e.request.tag, r.tag) then Replay(e.result)
                else Reject(if OfOtherActor(e.request.tag, r.tag) then OtherActor else OtherData)
  {
    var s := Run(EMPTY, es);
    RunsKeepInvariant(es);
    forall i | 0 <= i < |s.effects| && r.key != None && s.effects[i].request.key == r.key
      ensures r.key.value in s.rows
      ensures LookupReplay(s, r) ==
              if SameRequest(s.effects[i].request.tag, r.tag) then Replay(s.effects[i].result)
              else Reject(if OfOtherActor(s.effects[i].request.tag, r.tag) then OtherActor else OtherData)
    {
      var tag := s.effects[i].request.tag;
      RowIsTheExecution(es, i, r.key.value);
      SameIsEquivalence(tag, r.tag, r.tag);
      CompareExactly(tag, r.tag);
    }
    if r.key.Some? && r.key.value in s.rows {
      var i :| 0 <= i < |s.effects| && IsEffectOf(s.effects[i], r.key.value);
    }
  }

  /** A look-up that found something is never contradicted: whenever the command claims its key later, it gets the same answer. */
  lemma LookupNeverContradicted(before: seq<Event>, es: seq<Event>, tx: Tx, r: Request)
    requires LookupReplay(Run(EMPTY, before), r) != Nothing
    requires var t := Run(Run(EMPTY, before), es); tx in t.calls && t.calls[tx].request == r && t.calls[tx].phase == Permitted
    ensures var t := Step(Run(Run(EMPTY, before), es), ClaimKey(tx));
            && tx in t.calls
            && (LookupReplay(Run(EMPTY, before), r).Replay? ==> t.calls[tx].phase == Answering(LookupReplay(Run(EMPTY, before), r).result))
            && (LookupReplay(Run(EMPTY, before), r).Reject? ==> t.calls[tx].phase == Refused(LookupReplay(Run(EMPTY, before), r).verdict))
            && t.effects == Run(Run(EMPTY, before), es).effects
  {
    RunsKeepInvariant(before);
    RowsStay(Run(EMPTY, before), es, r.key.value);
  }

  lemma ClaimIsAnswered(s: State, tx: Tx, k: Key)
    requires tx in s.calls && s.calls[tx].phase == Permitted && s.calls[tx].request.key == Some(k)
    requires k in s.rows && k !in s.claims && s.rows[k].result.Some? && Compare(s.rows[k].tag, s.calls[tx].request.tag) == Same
    ensures Step(s, ClaimKey(tx)) == To(s, tx, Answering(s.rows[k].result.value), [Claimed, Compared, Replayed])
  {
  }

  /** On a committed key the same request is answered with the stored result and executes nothing. */
  lemma SameRequestIsReplayed(es: seq<Event>, tx: Tx, i: nat, k: Key)
    requires var s := Run(EMPTY, es); tx in s.calls && s.calls[tx].phase == Permitted && s.calls[tx].request.key == Some(k)
    requires i < |Run(EMPTY, es).effects| && Run(EMPTY, es).effects[i].request.key == Some(k)
    requires SameRequest(Run(EMPTY, es).effects[i].request.tag, Run(EMPTY, es).calls[tx].request.tag)
    ensures var s, t := Run(EMPTY, es), Step(Run(EMPTY, es), ClaimKey(tx));
            && tx in t.calls && t.calls[tx].phase == Answering(s.effects[i].result) && t.effects == s.effects && t.claims == s.claims
  {
    var s := Run(EMPTY, es);
    var tag, given := s.effects[i].request.tag, s.calls[tx].request.tag;
    RowIsTheExecution(es, i, k);
    SameIsEquivalence(tag, given, given);
    CompareExactly(tag, given);
    ClaimIsAnswered(s, tx, k);
  }

  lemma ClaimIsRefused(s: State, tx: Tx, k: Key)
    requires tx in s.calls && s.calls[tx].phase == Permitted && s.calls[tx].request.key == Some(k)
    requires k in s.rows && k !in s.claims && Compare(s.rows[k].tag, s.calls[tx].request.tag) != Same
    ensures Step(s, ClaimKey(tx)) == To(s, tx, Refused(Compare(s.rows[k].tag, s.calls[tx].request.tag)), [Claimed, Compared])
  {
  }

  lemma RefusedDoesNothing(s: State, tx: Tx)
    requires tx in s.calls && s.calls[tx].phase.Refused?
    ensures forall result :: Step(s, Execute(tx, result)) == s
    ensures Step(s, Commit(tx)) == s && Step(s, ClaimKey(tx)) == s && Step(s, Complete(tx)) == s
  {
  }

  /** On a committed key another actor, or other data, is refused as such and executes nothing. */
  lemma OtherRequestExecutesNothing(es: seq<Event>, tx: Tx, i: nat, k: Key)
    requires var s := Run(EMPTY, es); tx in s.calls && s.calls[tx].phase == Permitted && s.calls[tx].request.key == Some(k)
    requires i < |Run(EMPTY, es).effects| && Run(EMPTY, es).effects[i].request.key == Some(k)
    requires !SameRequest(Run(EMPTY, es).effects[i].request.tag, Run(EMPTY, es).calls[tx].request.tag)
    ensures var s, t := Run(EMPTY, es), Step(Run(EMPTY, es), ClaimKey(tx));
            && tx in t.calls
            && t.calls[tx].phase == Refused(if OfOtherActor(s.effects[i].request.tag, s.calls[tx].request.tag) then OtherActor else OtherData)
            && t.effects == s.effects && t.claims == s.claims
            && forall result :: Step(t, Execute(tx, result)) == t && Step(t, Commit(tx)) == t
  {
    var s := Run(EMPTY, es);
    var tag, given := s.effects[i].request.tag, s.calls[tx].request.tag;
    RowIsTheExecution(es, i, k);
    SameIsEquivalence(tag, given, given);
    CompareExactly(tag, given);
    ClaimIsRefused(s, tx, k);
    RefusedDoesNothing(Step(s, ClaimKey(tx)), tx);
  }

  lemma ClaimTakesFreeKey(s: State, tx: Tx, k: Key)
    requires tx in s.calls && s.calls[tx].phase == Permitted && s.calls[tx].request.key == Some(k)
    requires k !in s.rows && k !in s.claims
    ensures tx in Step(s, ClaimKey(tx)).calls && Step(s, ClaimKey(tx)).calls[tx].phase == Owner
  {
  }

  lemma AbortReleases(s: State, first: Tx, k: Key)
    requires ClaimsFit(s) && k in s.claims && s.claims[k].0 == first
    ensures k !in Step(s, Abort(first)).claims && Step(s, Abort(first)).rows == s.rows
  {
  }

  /** A key held by an unfinished transaction blocks; once that one aborts, the key is free again and the next claim takes it. */
  lemma AbortFreesTheKey(es: seq<Event>, first: Tx, second: Tx, k: Key)
    requires var s := Run(EMPTY, es);
             && first != second && k in s.claims && s.claims[k].0 == first
             && second in s.calls && s.calls[second].phase == Permitted && s.calls[second].request.key == Some(k)
    ensures var s := Run(EMPTY, es);
            && Step(s, ClaimKey(second)) == s
            && second in Step(Step(s, Abort(first)), ClaimKey(second)).calls
            && Step(Step(s, Abort(first)), ClaimKey(second)).calls[second].phase == Owner
  {
    RunsKeepInvariant(es);
    var s := Run(EMPTY, es);
    assert k !in s.rows;
    AbortReleases(s, first, k);
    OtherCallsStay(s, Abort(first), second);
    ClaimTakesFreeKey(Step(s, Abort(first)), second, k);
  }

  // ---------------------------------------------------------------- a command left alone goes through

  /** The call stands at the phase, nothing is committed since `s`, and it holds the claim of its key exactly when `holding`. */
  ghost predicate Stage(s: State, t: State, tx: Tx, r: Request, phase: Phase, holding: bool) {
    && t.effects == s.effects && t.answers == s.answers && t.rows == s.rows
    && tx in t.calls && t.calls[tx].request == r && t.calls[tx].phase == phase
    && (!holding ==> t.claims == s.claims)
    && (holding ==> r.key.Some? && r.key.value in t.claims && t.claims[r.key.value].0 == tx)
  }

  lemma RunSnoc(s: State, es: seq<Event>, e: Event)
    ensures Run(s, es + [e]) == Step(Run(s, es), e)
  {
    assert (es + [e])[..|es|] == es;
  }

  lemma RunTwo(s: State, es: seq<Event>, a: Event, b: Event)
    ensures Run(s, es + [a, b]) == Step(Step(Run(s, es), a), b)
  {
    RunSnoc(s, es, a);
    RunSnoc(s, es + [a], b);
    assert es + [a, b] == es + [a] + [b];
  }

  lemma ArriveStage(s: State, tx: Tx, r: Request)
    requires tx !in s.calls
    ensures Stage(s, Step(s, Arrive(tx, r)), tx, r, Arrived, false)
  {
  }

  lemma AuthorizeStage(s: State, t: State, tx: Tx, r: Request, granted: bool)
    requires Stage(s, t, tx, r, Arrived, false)
    ensures Stage(s, Step(t, Authorize(tx, granted)), tx, r, if granted then Permitted else Aborted, false)
  {
  }

  lemma ClaimStage(s: State, t: State, tx: Tx, r: Request)
    requires Stage(s, t, tx, r, Permitted, false) && r.key.Some? && r.key.value !in s.rows && r.key.value !in s.claims
    ensures Stage(s, Step(t, ClaimKey(tx)), tx, r, Owner, true)
  {
  }

  lemma ExecuteStage(s: State, t: State, tx: Tx, r: Request, result: Outcome)
    requires if r.key.Some? then Stage(s, t, tx, r, Owner, true) else Stage(s, t, tx, r, Permitted, false)
    ensures Stage(s, Step(t, Execute(tx, result)), tx, r, Done(result), r.key.Some?)
  {
  }

  lemma CompleteStage(s: State, t: State, tx: Tx, r: Request, result: Outcome)
    requires Stage(s, t, tx, r, Done(result), true)
    ensures Stage(s, Step(t, Complete(tx)), tx, r, Written(result), true)
  {
  }

  lemma CommitStage(s: State, t: State, tx: Tx, r: Request, result: Outcome)
    requires if r.key.Some? then Stage(s, t, tx, r, Written(result), true) else Stage(s, t, tx, r, Done(result), false)
    ensures var u := Step(t, Commit(tx));
            && u.effects == s.effects + [Effect(r, result)] && u.answers == s.answers + [Answer(r, result, false)]
            && tx in u.calls && u.calls[tx].phase == Committed
            && (r.key.Some? ==> r.key.value in u.rows && r.key.value !in u.claims)
  {
  }

  /** The events of a command nobody disturbs, from its arrival to its commit. */
  function Undisturbed(tx: Tx, r: Request, result: Outcome): seq<Event> {
    if r.key.Some? then [Arrive(tx, r), Authorize(tx, true), ClaimKey(tx), Execute(tx, result), Complete(tx), Commit(tx)]
    else [Arrive(tx, r), Authorize(tx, true), Execute(tx, result), Commit(tx)]
  }

  /** Under a new key, or without one, an authorised command executes once and commits its effect and its answer. */
  lemma NewCommandExecutes(s: State, tx: Tx, r: Request, result: Outcome)
    requires tx !in s.calls && (r.key.Some? ==> r.key.value !in s.rows && r.key.value !in s.claims)
    ensures var t := Run(s, Undisturbed(tx, r, result));
            && t.effects == s.effects + [Effect(r, result)] && t.answers == s.answers + [Answer(r, result, false)]
            && tx in t.calls && t.calls[tx].phase == Committed && (r.key.Some? ==> r.key.value in t.rows && r.key.value !in t.claims)
  {
    if r.key.Some? {
      KeyedCommandExecutes(s, tx, r, result);
    } else {
      UnkeyedCommandExecutes(s, tx, r, result);
    }
  }

  lemma KeyedStages(s: State, asked: State, tx: Tx, r: Request, result: Outcome)
    requires Stage(s, asked, tx, r, Permitted, false) && r.key.Some? && r.key.value !in s.rows && r.key.value !in s.claims
    ensures var t := Step(Step(Step(Step(asked, ClaimKey(tx)), Execute(tx, result)), Complete(tx)), Commit(tx));
            && t.effects == s.effects + [Effect(r, result)] && t.answers == s.answers + [Answer(r, result, false)]
            && tx in t.calls && t.calls[tx].phase == Committed && r.key.value in t.rows && r.key.value !in t.claims
  {
    ClaimStage(s, asked, tx, r);
    var owner := Step(asked, ClaimKey(tx));
    ExecuteStage(s, owner, tx, r, result);
    var done := Step(owner, Execute(tx, result));
    CompleteStage(s, done, tx, r, result);
    CommitStage(s, Step(done, Complete(tx)), tx, r, result);
  }

  lemma KeyedCommandExecutes(s: State, tx: Tx, r: Request, result: Outcome)
    requires tx !in s.calls && r.key.Some? && r.key.value !in s.rows && r.key.value !in s.claims
    ensures var t := Run(s, Undisturbed(tx, r, result));
            && t.effects == s.effects + [Effect(r, result)] && t.answers == s.answers + [Answer(r, result, false)]
            && tx in t.calls && t.calls[tx].phase == Committed && r.key.value in t.rows && r.key.value !in t.claims
  {
    var asked := Asked(s, tx, r);
    var start := [Arrive(tx, r), Authorize(tx, true)];
    KeyedStages(s, asked, tx, r, result);
    RunTwo(s, start, ClaimKey(tx), Execute(tx, result));
    RunTwo(s, start + [ClaimKey(tx), Execute(tx, result)], Complete(tx), Commit(tx));
    assert Undisturbed(tx, r, result) == start + [ClaimKey(tx), Execute(tx, result)] + [Complete(tx), Commit(tx)];
  }

  lemma UnkeyedCommandExecutes(s: State, tx: Tx, r: Request, result: Outcome)
    requires tx !in s.calls && r.key.None?
    ensures var t := Run(s, Undisturbed(tx, r, result));
            && t.effects == s.effects + [Effect(r, result)] && t.answers == s.answers + [Answer(r, result, false)]
            && tx in t.calls && t.calls[tx].phase == Committed
  {
    var asked := Asked(s, tx, r);
    ExecuteStage(s, asked, tx, r, result);
    CommitStage(s, Step(asked, Execute(tx, result)), tx, r, result);
    RunTwo(s, [Arrive(tx, r), Authorize(tx, true)], Execute(tx, result), Commit(tx));
    assert Undisturbed(tx, r, result) == [Arrive(tx, r), Authorize(tx, true)] + [Execute(tx, result), Commit(tx)];
  }

  lemma Asked(s: State, tx: Tx, r: Request) returns (t: State)
    requires tx !in s.calls
    ensures t == Run(s, [Arrive(tx, r), Authorize(tx, true)]) && Stage(s, t, tx, r, Permitted, false)
  {
    var first := Step(s, Arrive(tx, r));
    ArriveStage(s, tx, r);
    AuthorizeStage(s, first, tx, r, true);
    RunTwo(s, [], Arrive(tx, r), Authorize(tx, true));
    assert [] + [Arrive(tx, r), Authorize(tx, true)] == [Arrive(tx, r), Authorize(tx, true)];
    t := Step(first, Authorize(tx, true));
  }

  lemma AnswerStage(s: State, t: State, tx: Tx, r: Request, result: Outcome)
    requires Stage(s, t, tx, r, Answering(result), false)
    ensures var u := Step(t, Commit(tx));
            && u.effects == s.effects && u.rows == s.rows && u.answers == s.answers + [Answer(r, result, true)]
            && tx in u.calls && u.calls[tx].phase == Committed
  {
  }

  /** In every reachable state a repeated command is answered again: authorised, it commits the stored result and nothing else. */
  lemma RepeatedCommandIsAnswered(es: seq<Event>, tx: Tx, r: Request, i: nat)
    requires tx !in Run(EMPTY, es).calls && r.key.Some?
    requires i < |Run(EMPTY, es).effects| && Run(EMPTY, es).effects[i].request.key == r.key && SameRequest(Run(EMPTY, es).effects[i].request.tag, r.tag)
    ensures var s, t := Run(EMPTY, es), Run(Run(EMPTY, es), [Arrive(tx, r), Authorize(tx, true), ClaimKey(tx), Commit(tx)]);
            t.effects == s.effects && t.rows == s.rows && t.answers == s.answers + [Answer(r, s.effects[i].result, true)]
  {
    var s := Run(EMPTY, es);
    var tag := s.effects[i].request.tag;
    RowIsTheExecution(es, i, r.key.value);
    SameIsEquivalence(tag, r.tag, r.tag);
    CompareExactly(tag, r.tag);
    var asked := Asked(s, tx, r);
    ClaimIsAnswered(asked, tx, r.key.value);
    var claimed := Step(asked, ClaimKey(tx));
    AnswerStage(s, claimed, tx, r, s.effects[i].result);
    RunTwo(s, [Arrive(tx, r), Authorize(tx, true)], ClaimKey(tx), Commit(tx));
    assert [Arrive(tx, r), Authorize(tx, true), ClaimKey(tx), Commit(tx)] == [Arrive(tx, r), Authorize(tx, true)] + [ClaimKey(tx), Commit(tx)];
  }

  /** A caller without the right is turned away before anything of the ledger is looked at. */
  lemma UnauthorisedIsTurnedAway(s: State, tx: Tx, r: Request)
    requires tx !in s.calls
    ensures var t := Step(Step(s, Arrive(tx, r)), Authorize(tx, false));
            && Stage(s, t, tx, r, Aborted, false) && t.calls[tx].trace == [Authorized]
            && forall e: Event :: e.tx == tx ==> Step(t, e) == t
  {
    ArriveStage(s, tx, r);
    AuthorizeStage(s, Step(s, Arrive(tx, r)), tx, r, false);
  }

  // ---------------------------------------------------------------- the order of the phases

  /** What a call has been through, by its phase: authorisation always comes first. */
  ghost predicate TraceFits(c: Call) {
    match c.phase
    case Arrived => c.trace == []
    case Permitted => c.trace == [Authorized]
    case Owner => c.request.key.Some? && c.trace == [Authorized, Claimed]
    case Done(_) => c.trace == if c.request.key.Some? then [Authorized, Claimed, Executed] else [Authorized, Executed]
    case Written(_) => c.trace == [Authorized, Claimed, Executed, Completed]
    case Answering(_) => c.trace == [Authorized, Claimed, Compared, Replayed]
    case Refused(_) => c.trace == [Authorized, Claimed, Compared]
    case Committed =>
      || c.trace == [Authorized, Claimed, Executed, Completed] || c.trace == [Authorized, Claimed, Compared, Replayed]
      || (c.request.key.None? && c.trace == [Authorized, Executed])
    case Aborted => c.trace == [] || c.trace[0] == Authorized
  }

  lemma OtherCallsStay(s: State, e: Event, tx: Tx)
    requires tx != e.tx
    ensures tx in Step(s, e).calls <==> tx in s.calls
    ensures tx in s.calls ==> Step(s, e).calls[tx] == s.calls[tx]
  {
  }

  lemma OwnTraceEarly(s: State, e: Event)
    requires e.tx in s.calls ==> TraceFits(s.calls[e.tx])
    requires e.Arrive? || e.Authorize? || e.ClaimKey?
    ensures e.tx in Step(s, e).calls ==> TraceFits(Step(s, e).calls[e.tx])
  {
  }

  lemma OwnTraceLate(s: State, e: Event)
    requires e.tx in s.calls ==> TraceFits(s.calls[e.tx]) && CallFits(s, e.tx)
    requires e.Execute? || e.Complete?
    ensures e.tx in Step(s, e).calls ==> TraceFits(Step(s, e).calls[e.tx])
  {
  }

  lemma OwnTraceEnd(s: State, e: Event)
    requires e.tx in s.calls ==> TraceFits(s.calls[e.tx]) && CallFits(s, e.tx)
    requires e.Commit? || e.Abort?
    ensures e.tx in Step(s, e).calls ==> TraceFits(Step(s, e).calls[e.tx])
  {
    if e.tx in s.calls {
      assert s.calls[e.tx].trace + [] == s.calls[e.tx].trace;
    }
  }

  lemma StepKeepsTraces(s: State, e: Event)
    requires Inv(s) && forall tx :: tx in s.calls ==> TraceFits(s.calls[tx])
    ensures forall tx :: tx in Step(s, e).calls ==> TraceFits(Step(s, e).calls[tx])
  {
    assert e.tx in s.calls ==> CallFits(s, e.tx);
    forall tx | tx in Step(s, e).calls ensures TraceFits(Step(s, e).calls[tx]) {
      if tx != e.tx {
        OtherCallsStay(s, e, tx);
      } else if e.Commit? || e.Abort? {
        OwnTraceEnd(s, e);
      } else if e.Execute? || e.Complete? {
        OwnTraceLate(s, e);
      } else {
        OwnTraceEarly(s, e);
      }
    }
  }

  /** On every call, of any run, the caller's rights are checked before the key is claimed, anything is replayed or executed. */
  lemma {:induction false} AuthorisedFirst(es: seq<Event>)
    ensures forall tx :: tx in Run(EMPTY, es).calls ==> TraceFits(Run(EMPTY, es).calls[tx])
  {
    if es != [] {
      AuthorisedFirst(es[..|es| - 1]);
      RunsKeepInvariant(es[..|es| - 1]);
      StepKeepsTraces(Run(EMPTY, es[..|es| - 1]), es[|es| - 1]);
    }
  }
}
