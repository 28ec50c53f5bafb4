/**
  The restart backoff of one effective key that is used under one lifecycle and stays in the
  inventory. One lock then covers the look at the backoff, the start and every recorded failure:
  the key lock of a persistent runtime, the start lock of fresh ones.
 */
module RestartBackoff {
  import opened Wrappers

  datatype Backoff = Backoff(failures: nat, delay: real, retryAt: real)

  /** Where the holder of the lock is. */
  datatype Phase = Unlocked | Admitted(priorDelay: real) | AtManager(priorDelay: real)

  datatype Event =
    | Tick(elapsed: real)
    | Enter
    | ReachManager
    | StartFails
    | IsCancelled
    | Starts
    | DiesUnexpectedly
    | IsRetired
    | LooksStable

  /** A call of the manager: when, and the retry time of the last failure before it, forgiven or not. */
  datatype ManagerCall = ManagerCall(at: real, lastRetry: Option<real>)

  function Power(n: nat): (r: real)
    ensures r >= 1.0
  {
    if n == 0 then 1.0 else 2.0 * Power(n - 1)
  }

  function Min(a: real, b: real): real {
    if a <= b then a else b
  }

  /** The delay after n failures in a row, in closed form. */
  function Delay(initial: real, maximum: real, n: nat): real
    requires n >= 1
  {
    Min(maximum, initial * Power(n - 1))
  }

  lemma DelayDoubles(initial: real, maximum: real, n: nat)
    requires 0.0 <= initial <= maximum && n >= 1
    ensures Delay(initial, maximum, n + 1) == Min(maximum, Delay(initial, maximum, n) * 2.0)
  {
    assert Power(n) == 2.0 * Power(n - 1);
    assert initial * Power(n) == initial * Power(n - 1) * 2.0;
    assert initial * Power(n - 1) >= 0.0;
  }

  lemma DelayBeginsInitial(initial: real, maximum: real)
    requires 0.0 <= initial <= maximum
    ensures Delay(initial, maximum, 1) == initial
  {
    assert initial * Power(0) == initial;
  }

  /** More failures never shorten the delay, and it never exceeds the maximum. */
  lemma {:induction false} DelayIsMonotoneAndBounded(initial: real, maximum: real, n: nat, m: nat)
    requires 0.0 <= initial <= maximum && 1 <= n <= m
    ensures initial <= Delay(initial, maximum, n) <= Delay(initial, maximum, m) <= maximum
  {
    if n == m {
      assert initial * Power(n - 1) >= initial * 1.0;
    } else {
      DelayIsMonotoneAndBounded(initial, maximum, n, m - 1);
      DelayDoubles(initial, maximum, m - 1);
    }
  }

  class RestartBackoff {
    const initial: real
    const maximum: real
    // Whether the key's runtimes are persistent.
    const lasting: bool
    var state: Option<Backoff>
    var now: real
    var phase: Phase
    // When the published runtime counts as stable; None when none is published.
    var stableAfter: Option<real>
    ghost var failures: nat
    // The retry time set by the last failure ever; forgiving failures does not change it.
    ghost var lastRetry: Option<real>
    ghost var calls: seq<ManagerCall>

    /** The time is up that the last failure asked to wait. */
    ghost predicate Waited()
      reads this
    {
      lastRetry.Some? ==> lastRetry.value <= now
    }

    ghost predicate Valid()
      reads this
    {
      && 0.0 <= initial <= maximum
      && (state.None? <==> failures == 0)
      && (state.Some? ==> state.value.failures == failures && state.value.delay == Delay(initial, maximum, failures)
                          && lastRetry == Some(state.value.retryAt))
      // A holder of the lock, a published runtime or an empty record: each means that the time was up.
      && (!phase.Unlocked? || stableAfter.Some? || state.None? ==> Waited())
      && (stableAfter.Some? ==> lasting && phase.Unlocked?)
      && (forall c :: c in calls ==> c.lastRetry.Some? ==> c.lastRetry.value <= c.at)
    }

    constructor (initial: real, maximum: real, lasting: bool)
      requires 0.0 <= initial <= maximum
      ensures Valid() && this.initial == initial && this.maximum == maximum && this.lasting == lasting
      ensures state == None && lastRetry == None && calls == []
    {
      this.initial, this.maximum, this.lasting := initial, maximum, lasting;
      state, now, phase, stableAfter, failures, lastRetry, calls := None, 0.0, Unlocked, None, 0, None, [];
    }

    method Advance(elapsed: real)
      requires Valid() && elapsed >= 0.0
      modifies this`now
      ensures Valid() && now == old(now) + elapsed
    {
      now := now + elapsed;
    }

    /** The lock is taken with nothing published; refused while the last failure's time is not over. */
    method EnterLock() returns (admitted: bool)
      requires Valid() && phase.Unlocked? && stableAfter.None?
      modifies this`phase
      ensures Valid()
      ensures admitted <==> Waited()
      ensures admitted <==> state == None || state.value.retryAt <= now
      ensures phase == if admitted then Admitted(if state.Some? then state.value.delay else 0.0) else Unlocked
    {
      if state.Some? && state.value.retryAt - now > 0.0 {
        return false;
      }
      phase := Admitted(if state.Some? then state.value.delay else 0.0);
      admitted := true;
    }

    /** A slot is free, and the manager is asked for a runtime. */
    method CallManager()
      requires Valid() && phase.Admitted?
      modifies this`phase, this`calls
      ensures Valid() && phase == AtManager(old(phase).priorDelay)
      ensures calls == old(calls) + [ManagerCall(now, lastRetry)]
    {
      phase := AtManager(phase.priorDelay);
      calls := calls + [ManagerCall(now, lastRetry)];
    }

    /**
      One more failure in a row: the delay has doubled, up to the maximum. A runtime that died is
      published no more.
     */
    method Record()
      requires Valid()
      modifies this`state, this`failures, this`phase, this`stableAfter, this`lastRetry
      ensures Valid() && phase == Unlocked && stableAfter == None && failures == old(failures) + 1
      ensures lastRetry == Some(now + Delay(initial, maximum, failures))
      // Initial at first, then twice the last one, up to the maximum.
      ensures state.Some? && state.value.retryAt == now + state.value.delay
      ensures old(state) == None ==> state.value.delay == initial && state.value.failures == 1
      ensures old(state) != None ==>
                && state.value.failures == old(state).value.failures + 1
                && state.value.delay == if old(state).value.delay * 2.0 <= maximum then old(state).value.delay * 2.0
                                        else maximum
      ensures state == Some(Backoff(failures, Delay(initial, maximum, failures),
              now + Delay(initial, maximum, failures)))
    {
      if state.None? {
        state := Some(Backoff(1, initial, now + initial));
        assert initial * Power(0) == initial;
      } else {
        var delay := Min(maximum, state.value.delay * 2.0);
        DelayDoubles(initial, maximum, failures);
        state := Some(Backoff(state.value.failures + 1, delay, now + delay));
      }
      failures := failures + 1;
      lastRetry := Some(state.value.retryAt);
      phase, stableAfter := Unlocked, None;
    }

    /**
      The start succeeded: a fresh runtime is forgiven at once, a persistent one must outlive the
      delay it was held back for.
     */
    method StartSucceeds()
      requires Valid() && phase.AtManager?
      modifies this`phase, this`stableAfter, this`state, this`failures
      ensures Valid() && phase == Unlocked
      ensures stableAfter == if lasting then Some(now + old(phase).priorDelay) else None
      ensures state == if lasting then old(state) else None
    {
      if lasting {
        stableAfter := Some(now + phase.priorDelay);
      } else {
        state, failures := None, 0;
      }
      phase := Unlocked;
    }

    /** The published runtime is withdrawn without having failed. */
    method Retire()
      requires Valid() && phase.Unlocked? && stableAfter.Some?
      modifies this`stableAfter
      ensures Valid() && stableAfter == None
    {
      stableAfter := None;
    }

    /** Failures are forgiven only on account of a runtime that is published. */
    method ResetIfStable()
      requires Valid() && phase.Unlocked? && stableAfter.Some?
      modifies this`state, this`failures
      ensures Valid() && state == if now >= stableAfter.value then None else old(state)
    {
      if now >= stableAfter.value {
        state, failures := None, 0;
      }
    }

    /** A start is cancelled. */
    method Cancel()
      requires Valid() && !phase.Unlocked?
      modifies this`phase
      ensures Valid() && phase == Unlocked
    {
      phase := Unlocked;
    }

    predicate Enabled(e: Event)
      reads this
    {
      match e
      case Tick(d) => d >= 0.0
      case Enter => phase.Unlocked? && stableAfter.None?
      case ReachManager => phase.Admitted?
      case StartFails => phase.AtManager?
      case IsCancelled => !phase.Unlocked?
      case Starts => phase.AtManager?
      case DiesUnexpectedly => phase.Unlocked? && stableAfter.Some?
      case IsRetired => phase.Unlocked? && stableAfter.Some?
      case LooksStable => phase.Unlocked? && stableAfter.Some?
    }

    /** What can happen when: time passes, and a key's runtime is started, used and lost in turn. */
    lemma SomethingCanHappen(elapsed: real)
      requires elapsed >= 0.0 && Valid()
      ensures Enabled(Tick(elapsed))
      ensures match phase
              case Unlocked => if stableAfter.None? then Enabled(Enter)
                               else Enabled(LooksStable) && Enabled(IsRetired) && Enabled(DiesUnexpectedly)
              case Admitted(_) => Enabled(ReachManager) && Enabled(IsCancelled)
              case AtManager(_) => Enabled(Starts) && Enabled(StartFails) && Enabled(IsCancelled)
    {
    }

    method Step(e: Event)
      requires Valid() && Enabled(e)
      modifies this
      ensures Valid() && old(calls) <= calls
      ensures e.StartFails? || e.DiesUnexpectedly? || lastRetry == old(lastRetry)
    {
      match e {
        case Tick(d) => Advance(d);
        case Enter => var _ := EnterLock();
        case ReachManager => CallManager();
        case StartFails => Record();
        case IsCancelled => Cancel();
        case Starts => StartSucceeds();
        case DiesUnexpectedly => Record();
        case IsRetired => Retire();
        case LooksStable => ResetIfStable();
      }
    }

    /** Over every run, the manager is never asked before the retry time of the last failure, forgiven or not. */
    method RunEvents(events: seq<Event>)
      requires Valid()
      modifies this
      ensures Valid() && old(calls) <= calls
      ensures forall c :: c in calls ==> c.lastRetry.Some? ==> c.lastRetry.value <= c.at
      ensures state.Some? ==> state.value.delay == Delay(initial, maximum, state.value.failures)
    {
      for n := 0 to |events|
        invariant Valid() && old(calls) <= calls
      {
        if Enabled(events[n]) {
          Step(events[n]);
        }
      }
    }
  }
}
