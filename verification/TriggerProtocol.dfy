/** Ad-hoc sync requests with idempotency keys: lookup, insert, commit, enqueue and clean-up are separate
    steps, and the steps of any number of requests interleave freely over one table. */
module TriggerProtocol {
  import opened Wrappers

  datatype Key = Key(user: string, execution: string)

  /** A row of the table. A row that is not committed belongs to an open transaction. */
  datatype Row = Row(key: Key, committed: bool)

  datatype Phase =
    | Started                   // before the lookup
    | Missed                    // the lookup found nothing
    | Inserted(row: nat)        // flushed inside an open transaction
    | Conflicted                // the unique index refused the insert; rolled back
    | Stored(row: nat)          // committed, not yet enqueued
    | Queued(row: nat)          // the broker took the task
    | Refused(row: nat)         // the broker did not take the task; the row is still to be discarded
    | Existing(row: nat)        // answered with an existing sync
    | Conflict409               // answered that the key conflicts
    | Failed                    // answered with an error, or died

  datatype Request = Request(key: Key, phase: Phase)

  datatype Task = Task(request: nat, key: Key)

  /** `everCommitted` remembers each row whose insert was committed; it is history, not stored anywhere. */
  datatype State = State(
    rows: map<nat, Row>, nextId: nat, requests: map<nat, Request>, queue: seq<Task>, everCommitted: map<nat, Key>)

  const Initial := State(map[], 0, map[], [], map[])

  datatype Event =
    | Begin(q: nat, key: Key)
    | Lookup(q: nat)
    | Insert(q: nat)
    | Commit(q: nat)
    | SecondLookup(q: nat)
    | Enqueue(q: nat, accepted: bool)
    | LoseAcknowledgement(q: nat)
    | Discard(q: nat)
    | Die(q: nat)

  predicate In(s: State, q: nat, phase: Phase) {
    q in s.requests && s.requests[q].phase == phase
  }

  predicate HasKey(s: State, r: nat, key: Key, committed: bool) {
    r in s.rows && s.rows[r] == Row(key, committed)
  }

  predicate Exists(s: State, key: Key, committed: bool) {
    exists r | r in s.rows :: s.rows[r] == Row(key, committed)
  }

  predicate Owning(p: Phase) {
    p.Inserted? || p.Stored? || p.Queued? || p.Refused?
  }

  /** The request has neither been answered nor handed its task to the broker. */
  predicate Open(p: Phase) {
    p.Started? || p.Missed? || p.Inserted? || p.Conflicted? || p.Stored? || p.Refused?
  }

  /** An insert waits while another transaction holds a row with the same key. */
  predicate Enabled(s: State, e: Event) {
    match e
    case Begin(q, _) => q !in s.requests
    case Lookup(q) => In(s, q, Started)
    case Insert(q) => In(s, q, Missed) && !Exists(s, s.requests[q].key, false)
    case Commit(q) => q in s.requests && s.requests[q].phase.Inserted?
    case SecondLookup(q) => In(s, q, Conflicted)
    case Enqueue(q, _) => q in s.requests && s.requests[q].phase.Stored?
    case LoseAcknowledgement(q) => q in s.requests && s.requests[q].phase.Stored?
    case Discard(q) => q in s.requests && s.requests[q].phase.Refused?
    case Die(q) => q in s.requests
  }

  /** What a select by key returns: a committed row, or nothing. */
  ghost function Select(s: State, key: Key): Option<nat> {
    if r: nat :| HasKey(s, r, key, true) then Some(r) else None
  }

  function Moved(s: State, q: nat, phase: Phase): map<nat, Request>
    requires q in s.requests
  {
    s.requests[q := s.requests[q].(phase := phase)]
  }

  ghost function Apply(s: State, e: Event): State
    requires Enabled(s, e)
  {
    match e
    case Begin(q, key) => s.(requests := s.requests[q := Request(key, Started)])
    case Lookup(q) =>
      var found := Select(s, s.requests[q].key);
      s.(requests := Moved(s, q, if found.Some? then Existing(found.value) else Missed))
    case Insert(q) =>
      if Exists(s, s.requests[q].key, true) then s.(requests := Moved(s, q, Conflicted))
      else s.(rows := s.rows[s.nextId := Row(s.requests[q].key, false)], nextId := s.nextId + 1,
              requests := Moved(s, q, Inserted(s.nextId)))
    case Commit(q) =>
      var r := s.requests[q].phase.row;
      s.(rows := s.rows[r := Row(s.requests[q].key, true)], requests := Moved(s, q, Stored(r)),
         everCommitted := s.everCommitted[r := s.requests[q].key])
    case SecondLookup(q) =>
      var found := Select(s, s.requests[q].key);
      s.(requests := Moved(s, q, if found.Some? then Existing(found.value) else Conflict409))
    case Enqueue(q, accepted) =>
      var r := s.requests[q].phase.row;
      if accepted then s.(requests := Moved(s, q, Queued(r)), queue := s.queue + [Task(q, s.requests[q].key)])
      else s.(requests := Moved(s, q, Refused(r)))
    case LoseAcknowledgement(q) =>
      s.(requests := Moved(s, q, Refused(s.requests[q].phase.row)), queue := s.queue + [Task(q, s.requests[q].key)])
    case Discard(q) =>
      s.(rows := s.rows - {s.requests[q].phase.row}, requests := Moved(s, q, Failed))
    case Die(q) =>
      var p := s.requests[q].phase;
      if p.Inserted? then s.(rows := s.rows - {p.row}, requests := Moved(s, q, Failed))
      else if Open(p) then s.(requests := Moved(s, q, Failed)) else s
  }

  ghost function Replay(evs: seq<Event>, k: nat): Option<State>
    requires k <= |evs|
  {
    if k == 0 then Some(Initial)
    else
      var s := Replay(evs, k - 1);
      if s.Some? && Enabled(s.value, evs[k - 1]) then Some(Apply(s.value, evs[k - 1])) else None
  }

  // ------------------------------------------------------ the invariant

  ghost predicate KeysUnique(s: State) {
    forall a, b | a in s.rows && b in s.rows && s.rows[a].key == s.rows[b].key :: a == b
  }

  ghost predicate IdsUsed(s: State) {
    && (forall r | r in s.rows :: r < s.nextId)
    && (forall r | r in s.everCommitted :: r < s.nextId)
  }

  ghost predicate OwnerFits(s: State, q: nat)
    requires q in s.requests
  {
    var p := s.requests[q].phase;
    && (Owning(p) ==> HasKey(s, p.row, s.requests[q].key, !p.Inserted?))
    && (p.Existing? ==> p.row in s.everCommitted && s.everCommitted[p.row] == s.requests[q].key)
  }

  predicate Owns(s: State, q: nat, r: nat) {
    q in s.requests && Owning(s.requests[q].phase) && s.requests[q].phase.row == r
  }

  ghost predicate OneOwner(s: State) {
    forall a, b, r | Owns(s, a, r) && Owns(s, b, r) :: a == b
  }

  ghost predicate RowsRemembered(s: State) {
    forall r | r in s.rows ::
      && (s.rows[r].committed ==> r in s.everCommitted)
      && (r in s.everCommitted ==> s.everCommitted[r] == s.rows[r].key)
  }

  /** Every task of the key belongs to a request whose broker answered, and to no other task. */
  ghost predicate TasksQueued(s: State, key: Key) {
    && (forall i | 0 <= i < |s.queue| && s.queue[i].key == key :: QueuedFor(s, s.queue[i].request, key))
    && (forall i, j | 0 <= i < j < |s.queue| && s.queue[i].key == key && s.queue[j].key == key ::
          s.queue[i].request != s.queue[j].request)
  }

  predicate QueuedFor(s: State, q: nat, key: Key) {
    q in s.requests && s.requests[q].phase.Queued? && s.requests[q].key == key
  }

  /** The broker took the task of a request with this key, but its answer never arrived. */
  predicate LosesAnswer(s: State, e: Event, key: Key) {
    e.LoseAcknowledgement? && e.q in s.requests && s.requests[e.q].key == key
  }

  /** The part that holds whether or not acknowledgements get lost. */
  ghost predicate TableInv(s: State) {
    && KeysUnique(s) && IdsUsed(s) && OneOwner(s) && RowsRemembered(s)
    && forall q | q in s.requests :: OwnerFits(s, q)
  }

  lemma SelectFinds(s: State, key: Key)
    ensures Select(s, key).Some? ==> HasKey(s, Select(s, key).value, key, true)
    ensures Select(s, key).None? <==> !Exists(s, key, true)
  {
    if Exists(s, key, true) {
      var r :| r in s.rows && s.rows[r] == Row(key, true);
      assert HasKey(s, r, key, true);
    }
  }

  /** A request whose key has a committed row is told that row, wherever it has got to: by its first lookup, or
      after the index has refused its insert by the second; and it changes nothing but its own state. */
  lemma CommittedKeyIsNamed(s: State, q: nat, key: Key, r: nat)
    requires TableInv(s) && HasKey(s, r, key, true) && q in s.requests && s.requests[q].key == key
    ensures In(s, q, Started) ==>
              Apply(s, Lookup(q)) == s.(requests := s.requests[q := Request(key, Existing(r))])
    ensures In(s, q, Missed) ==>
              Enabled(s, Insert(q)) && Apply(s, Insert(q)) == s.(requests := s.requests[q := Request(key, Conflicted)])
    ensures In(s, q, Conflicted) ==>
              Apply(s, SecondLookup(q)) == s.(requests := s.requests[q := Request(key, Existing(r))])
  {
    SelectFinds(s, key);
  }

  lemma RowsStep(s: State, e: Event)
    requires TableInv(s) && Enabled(s, e)
    ensures KeysUnique(Apply(s, e)) && IdsUsed(Apply(s, e)) && RowsRemembered(Apply(s, e))
  {
    if e.Commit? {
      assert OwnerFits(s, e.q);
    }
  }

  lemma OneOwnerStep(s: State, e: Event)
    requires TableInv(s) && Enabled(s, e)
    ensures OneOwner(Apply(s, e))
  {
    var s' := Apply(s, e);
    forall a: nat, r: nat | Owns(s, a, r)
      ensures r < s.nextId
    {
      assert OwnerFits(s, a);
    }
    forall a: nat, b: nat, r: nat | Owns(s', a, r) && Owns(s', b, r)
      ensures a == b
    {
      assert a != e.q ==> Owns(s, a, r);
      assert b != e.q ==> Owns(s, b, r);
      assert !e.Insert? && Owns(s', e.q, r) ==> Owns(s, e.q, r);
    }
  }

  lemma MoverStep(s: State, e: Event)
    requires TableInv(s) && Enabled(s, e)
    ensures OwnerFits(Apply(s, e), e.q)
  {
    if e.q in s.requests {
      assert OwnerFits(s, e.q);
      SelectFinds(s, s.requests[e.q].key);
    }
  }

  lemma BystanderStep(s: State, e: Event, q: nat)
    requires TableInv(s) && Enabled(s, e) && q in s.requests && q != e.q
    ensures OwnerFits(Apply(s, e), q)
  {
    assert OwnerFits(s, q);
    var p := s.requests[q].phase;
    if Owning(p) {
      assert Owns(s, q, p.row);
      if e.q in s.requests && Owning(s.requests[e.q].phase) {
        assert Owns(s, e.q, s.requests[e.q].phase.row);
      }
    } else if e.Commit? {
      assert OwnerFits(s, e.q);
    }
  }

  lemma TableInvStep(s: State, e: Event)
    requires TableInv(s) && Enabled(s, e)
    ensures TableInv(Apply(s, e))
  {
    RowsStep(s, e);
    OneOwnerStep(s, e);
    forall q | q in Apply(s, e).requests
      ensures OwnerFits(Apply(s, e), q)
    {
      if q == e.q { MoverStep(s, e); } else { BystanderStep(s, e, q); }
    }
  }

  lemma QueuedForStays(s: State, e: Event, q: nat, key: Key)
    requires Enabled(s, e) && QueuedFor(s, q, key)
    ensures QueuedFor(Apply(s, e), q, key)
  {
  }

  lemma QueueAfter(s: State, e: Event)
    requires Enabled(s, e)
    ensures Apply(s, e).queue == s.queue ||
            (e.q in s.requests && s.requests[e.q].phase.Stored? &&
             Apply(s, e).queue == s.queue + [Task(e.q, s.requests[e.q].key)])
  {
  }

  lemma TasksQueuedStep(s: State, e: Event, key: Key)
    requires TasksQueued(s, key) && Enabled(s, e) && !LosesAnswer(s, e, key)
    ensures TasksQueued(Apply(s, e), key)
  {
    var s' := Apply(s, e);
    QueueAfter(s, e);
    forall i | 0 <= i < |s'.queue| && s'.queue[i].key == key
      ensures QueuedFor(s', s'.queue[i].request, key)
    {
      if i < |s.queue| {
        QueuedForStays(s, e, s.queue[i].request, key);
      }
    }
    forall i, j | 0 <= i < j < |s'.queue| && s'.queue[i].key == key && s'.queue[j].key == key
      ensures s'.queue[i].request != s'.queue[j].request
    {
      assert QueuedFor(s, s.queue[i].request, key);
    }
  }
}
