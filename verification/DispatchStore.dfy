/** The two Valkey keys of a schedule's dispatch lock and the commands that touch them. */
module DispatchStore {
  import opened Wrappers

  type Token = string

  const DIGITS := "0123456789"

  // ------------------------------------------------------ the counter's text

  function Decimal(n: nat): (s: string)
    ensures s != [] && AllDigits(s)
  {
    if n < 10 then [DIGITS[n]] else Decimal(n / 10) + [DIGITS[n % 10]]
  }

  predicate AllDigits(s: string) {
    forall c | c in s :: c in DIGITS
  }

  function DigitValue(c: char): nat
    requires c in DIGITS
  {
    c as int - '0' as int
  }

  function ReadDecimal(s: string): nat
    requires AllDigits(s)
  {
    if s == [] then 0 else 10 * ReadDecimal(s[..|s| - 1]) + DigitValue(s[|s| - 1])
  }

  lemma {:induction false} DecimalRoundTrip(n: nat)
    ensures ReadDecimal(Decimal(n)) == n
  {
    if n >= 10 {
      DecimalRoundTrip(n / 10);
      assert Decimal(n)[..|Decimal(n)| - 1] == Decimal(n / 10);
    }
  }

  datatype Counter = Counter(token: Token, left: int)

  function WriteCounter(token: Token, n: nat): string {
    token + ":" + Decimal(n)
  }

  /** The pattern ^(.-):(%d+)$ from position i on: the shortest token, then a colon and digits to the end. */
  function ReadFrom(s: string, i: nat): Option<Counter>
    requires i <= |s|
    decreases |s| - i
  {
    if i == |s| then None
    else if s[i] == ':' && i + 1 < |s| && AllDigits(s[i + 1..]) then Some(Counter(s[..i], ReadDecimal(s[i + 1..])))
    else ReadFrom(s, i + 1)
  }

  function ReadCounter(s: string): Option<Counter> {
    ReadFrom(s, 0)
  }

  /** Whatever the token, even one with colons in it, the counter reads back as written. */
  lemma {:induction false} ReadsFrom(token: Token, n: nat, i: nat)
    requires i <= |token|
    ensures ReadFrom(WriteCounter(token, n), i) == Some(Counter(token, n))
    decreases |token| - i
  {
    var s := WriteCounter(token, n);
    assert s[|token|] == ':';
    if i < |token| {
      assert s[i + 1..][|token| - i - 1] == ':' && ':' in s[i + 1..] && ':' !in DIGITS;
      ReadsFrom(token, n, i + 1);
    } else {
      assert s[i + 1..] == Decimal(n) && s[..i] == token;
      DecimalRoundTrip(n);
    }
  }

  lemma CounterRoundTrip(token: Token, n: nat)
    ensures ReadCounter(WriteCounter(token, n)) == Some(Counter(token, n))
  {
    ReadsFrom(token, n, 0);
  }

  // ------------------------------------------------------ commands, as functions

  datatype Store = Store(lock: Option<Token>, counter: Option<Counter>)

  predicate HoldsLock(st: Store, t: Token) {
    st.lock == Some(t)
  }

  predicate HoldsCounter(st: Store, t: Token) {
    st.counter.Some? && st.counter.value.token == t
  }

  /** Both keys go, provided the lock is the caller's own. */
  function Release(st: Store, t: Token): Store {
    if HoldsLock(st, t) then Store(None, None) else st
  }

  /** One child fewer to wait for, provided the counter is the caller's own. No child left to wait for frees both
      keys, whoever holds the lock. */
  function ChildFinished(st: Store, t: Token): Store {
    if !HoldsCounter(st, t) then st
    else if st.counter.value.left - 1 <= 0 then Store(None, None)
    else st.(counter := Some(Counter(t, st.counter.value.left - 1)))
  }

  datatype TaskState = Retry | Terminal

  datatype Task = Parent(spawnedTargets: bool) | Child

  /** The postrun hook: a retry keeps the lock, a child counts down, a parent without children releases. */
  function Postrun(st: Store, token: Option<Token>, task: Task, state: TaskState): Store {
    if token.None? || token.value == "" then st
    else if state.Retry? then st
    else if task.Child? then ChildFinished(st, token.value)
    else if !task.spawnedTargets then Release(st, token.value)
    else st
  }

  // ------------------------------------------------------ commands, in place

  /** A Valkey server, as far as one schedule's keys go. The counter key holds text. */
  class Valkey {
    var lock: Option<Token>
    var counter: Option<string>
    ghost var left: Option<Counter>

    ghost predicate Valid()
      reads this
    {
      && (left.Some? <==> counter.Some?)
      && (left.Some? ==> left.value.left >= 0 && counter.value == WriteCounter(left.value.token, left.value.left))
    }

    ghost function State(): Store
      reads this
    {
      Store(lock, left)
    }

    constructor ()
      ensures Valid() && State() == Store(None, None)
    {
      lock, counter, left := None, None, None;
    }

    /** SET lock token NX. */
    method SetLockIfAbsent(t: Token) returns (acquired: bool)
      requires Valid()
      modifies this
      ensures Valid() && acquired == old(lock).None?
      ensures State() == if acquired then old(State()).(lock := Some(t)) else old(State())
    {
      acquired := lock.None?;
      if acquired {
        lock := Some(t);
      }
    }

    /** SET counter token:n. */
    method SetCounter(t: Token, n: nat)
      requires Valid()
      modifies this
      ensures Valid() && State() == old(State()).(counter := Some(Counter(t, n)))
    {
      counter := Some(WriteCounter(t, n));
      left := Some(Counter(t, n));
    }

    /** Acquire, with nobody in between. Either command may fail to get through: the token is handed out all the
        same, and whatever was stored before the outage stays. */
    method TryAcquire(t: Token, childCount: nat, lockAnswered: bool, counterAnswered: bool)
      returns (token: Option<Token>)
      requires Valid()
      modifies this
      ensures Valid()
      ensures token.None? <==> lockAnswered && old(lock).Some?
      ensures token.Some? ==> token.value == t
      ensures token.None? || !lockAnswered ==> State() == old(State())
      ensures token.Some? && lockAnswered ==>
                var counter := if counterAnswered then Some(Counter(t, childCount)) else old(State()).counter;
                State() == Store(Some(t), counter)
    {
      if !lockAnswered {
        return Some(t);
      }
      var acquired := SetLockIfAbsent(t);
      if !acquired {
        return None;
      }
      if counterAnswered {
        SetCounter(t, childCount);
      }
      return Some(t);
    }

    method ReleaseScript(t: Token)
      requires Valid()
      modifies this
      ensures Valid() && State() == Release(old(State()), t)
      ensures old(lock) == Some(t) ==> lock.None? && counter.None?
      ensures old(lock) != Some(t) ==> lock == old(lock) && counter == old(counter)
    {
      if lock.None? || lock.value != t {
        return;
      }
      lock, counter := None, None;
      left := None;
    }

    method ChildFinishedScript(t: Token)
      requires Valid()
      modifies this
      ensures Valid() && State() == ChildFinished(old(State()), t)
      ensures old(left).None? || old(left).value.token != t ==> lock == old(lock) && counter == old(counter)
      ensures old(left).Some? && old(left).value.token == t && old(left).value.left <= 1 ==> lock.None? && counter.None?
      ensures old(left).Some? && old(left).value.token == t && old(left).value.left > 1 ==>
                lock == old(lock) && left == Some(Counter(t, old(left).value.left - 1))
    {
      if counter.None? {
        return;
      }
      CounterRoundTrip(left.value.token, left.value.left);
      var val := ReadCounter(counter.value);
      if val.None? || val.value.token != t {
        return;
      }
      var n := val.value.left - 1;
      if n <= 0 {
        counter, lock := None, None;
        left := None;
        return;
      }
      counter := Some(WriteCounter(t, n));
      left := Some(Counter(t, n));
    }

    /** The hook connected to the end of every task attempt. Attempts without a token, attempts that will be retried
        and parents that have spawned children touch nothing. */
    method OnPostrun(token: Option<Token>, task: Task, state: TaskState)
      requires Valid()
      modifies this
      ensures Valid() && State() == Postrun(old(State()), token, task, state)
      ensures token.None? || token.value == "" || state.Retry? || task == Parent(true) ==>
                lock == old(lock) && counter == old(counter)
      ensures token.Some? && token.value != "" && state.Terminal? && task == Parent(false) ==>
                if old(lock) == token then lock.None? && counter.None? else lock == old(lock) && counter == old(counter)
      ensures token.Some? && token.value != "" && state.Terminal? && task.Child? ==>
                if old(left).Some? && Some(old(left).value.token) == token then
                  if old(left).value.left <= 1 then lock.None? && counter.None?
                  else lock == old(lock) && left == Some(Counter(token.value, old(left).value.left - 1))
                else lock == old(lock) && counter == old(counter)
    {
      if token.None? || token.value == "" {
        return;
      }
      if state.Retry? {
        return;
      }
      if task.Child? {
        ChildFinishedScript(token.value);
      } else if !task.spawnedTargets {
        ReleaseScript(token.value);
      }
    }
  }

  // ------------------------------------------------------ whose keys a script touches

  /** Keys of runs other than t are as before. */
  ghost predicate OthersUntouched(st: Store, st': Store, t: Token) {
    forall u | u != t ::
      && (HoldsLock(st, u) ==> HoldsLock(st', u))
      && (HoldsCounter(st, u) ==> st'.counter == st.counter)
  }

  /** A child step takes the lock of somebody else: it still owns the counter and is the last to count down. */
  predicate TakesForeignLock(st: Store, t: Token, task: Task) {
    task.Child? && HoldsCounter(st, t) && st.counter.value.left <= 1 && st.lock.Some? && st.lock.value != t
  }

  /** A release takes the counter of somebody else: it owns the lock, but its own counter was never stored. */
  predicate TakesForeignCounter(st: Store, t: Token, task: Task) {
    task == Parent(false) && HoldsLock(st, t) && st.counter.Some? && st.counter.value.token != t
  }

  /** The end of a task leaves the keys of all other runs alone in every other case. */
  lemma PostrunIsolatedIff(st: Store, t: Token, task: Task)
    requires t != ""
    ensures OthersUntouched(st, Postrun(st, Some(t), task, Terminal), t) <==>
            !TakesForeignLock(st, t, task) && !TakesForeignCounter(st, t, task)
  {
    var st' := Postrun(st, Some(t), task, Terminal);
    if TakesForeignLock(st, t, task) {
      assert HoldsLock(st, st.lock.value) && !HoldsLock(st', st.lock.value);
    }
    if TakesForeignCounter(st, t, task) {
      assert HoldsCounter(st, st.counter.value.token) && st'.counter != st.counter;
    }
  }

  /** Seen from the run u that loses its lock. */
  lemma ForeignLockTakenIff(st: Store, t: Token, u: Token)
    requires u != t && HoldsLock(st, u)
    ensures !HoldsLock(ChildFinished(st, t), u) <==> HoldsCounter(st, t) && st.counter.value.left <= 1
  {
  }
}
