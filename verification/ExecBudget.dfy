/** The session exec budget (main.py): reserve before a call, record its duration after it, reset on
    configure. Seconds are modelled by real numbers. */
module ExecBudget {
  import opened Wrappers

  datatype Breach = CountBreach(limit: nat, used: nat) | SecondsBreach(ceiling: real, spent: real)

  /** A ceiling of zero disables that check. */
  datatype Limits = Limits(maxCount: nat, maxSeconds: real)

  datatype Budget = Budget(count: nat, seconds: real, exceeded: Option<Breach>)

  const FRESH := Budget(0, 0.0, None)

  function CountBreachOf(l: Limits, count: nat): Option<Breach> {
    if l.maxCount > 0 && count >= l.maxCount then Some(CountBreach(l.maxCount, count)) else None
  }

  function SecondsBreachOf(l: Limits, seconds: real): Option<Breach> {
    if l.maxSeconds > 0.0 && seconds > l.maxSeconds then Some(SecondsBreach(l.maxSeconds, seconds)) else None
  }

  /** Whether the next call would be let in. */
  predicate Admits(l: Limits, b: Budget) { b.exceeded.None? && CountBreachOf(l, b.count).None? }

  function AfterReserve(l: Limits, b: Budget): Budget {
    if b.exceeded.Some? then b
    else if CountBreachOf(l, b.count).Some? then b.(exceeded := CountBreachOf(l, b.count))
    else b.(count := b.count + 1)
  }

  function Spent(d: real): real { if d > 0.0 then d else 0.0 }

  function AfterRecord(l: Limits, b: Budget, d: real): Budget {
    var seconds := b.seconds + Spent(d);
    b.(seconds := seconds,
       exceeded := if SecondsBreachOf(l, seconds).Some? then SecondsBreachOf(l, seconds) else b.exceeded)
  }

  // ---------------------------------------------- any number of concurrent callers

  /** `inFlight` holds, for every call let in and not yet over, the duration it will turn out to have. */
  datatype State = State(budget: Budget, inFlight: seq<real>)

  datatype Step =
    | Reserve(duration: real)  // a caller asks; if let in, its call will last `duration`
    | Record(call: nat)        // a call in flight ends and is recorded
    | Abandon(call: nat)       // a call in flight ends without being recorded
    | Reset                    // a new session starts; calls of the old one may still be in flight

  const INITIAL := State(FRESH, [])

  function Without(calls: seq<real>, i: nat): seq<real>
    requires i < |calls|
  {
    calls[..i] + calls[i + 1..]
  }

  function Next(l: Limits, s: State, step: Step): State {
    match step
    case Reserve(d) =>
      State(AfterReserve(l, s.budget), if Admits(l, s.budget) then s.inFlight + [d] else s.inFlight)
    case Record(i) =>
      if i >= |s.inFlight| then s
      else State(AfterRecord(l, s.budget, s.inFlight[i]), Without(s.inFlight, i))
    case Abandon(i) =>
      if i >= |s.inFlight| then s else s.(inFlight := Without(s.inFlight, i))
    case Reset => s.(budget := FRESH)
  }

  function Run(l: Limits, s: State, steps: seq<Step>): State {
    if steps == [] then s else Next(l, Run(l, s, steps[..|steps| - 1]), steps[|steps| - 1])
  }

  /** What a schedule comes to, kept as a ledger: callers let in and seconds spent since the last reset, whether
      a ceiling was met since then, and the calls that are open. */
  datatype Ledger = Ledger(admitted: nat, spent: real, breached: bool, open: seq<real>)

  function Account(l: Limits, steps: seq<Step>): Ledger {
    if steps == [] then Ledger(0, 0.0, false, [])
    else
      var before := Account(l, steps[..|steps| - 1]);
      match steps[|steps| - 1]
      case Reserve(d) =>
        if before.breached then before
        else if 0 < l.maxCount == before.admitted then before.(breached := true)
        else before.(admitted := before.admitted + 1, open := before.open + [d])
      case Record(i) =>
        if i >= |before.open| then before
        else
          var spent := if before.open[i] > 0.0 then before.spent + before.open[i] else before.spent;
          Ledger(before.admitted, spent, before.breached || 0.0 < l.maxSeconds < spent, Without(before.open, i))
      case Abandon(i) => if i >= |before.open| then before else before.(open := Without(before.open, i))
      case Reset => Ledger(0, 0.0, false, before.open)
  }

  /** Under every schedule the budget is what the ledger says: the counter is the number of calls let in since the
      last reset, the seconds are those of the recorded calls, and a breach is flagged exactly if a caller met
      the full count or a recorded call took the seconds over their ceiling. So the counter never exceeds its
      ceiling, and without a flag neither do the seconds. */
  lemma {:induction false} BudgetInvariant(l: Limits, steps: seq<Step>)
    ensures var (s, ledger) := (Run(l, INITIAL, steps), Account(l, steps));
      && s.budget.count == ledger.admitted && s.budget.seconds == ledger.spent && s.inFlight == ledger.open
      && (s.budget.exceeded.Some? <==> ledger.breached)
      && (l.maxCount > 0 ==> s.budget.count <= l.maxCount)
      && 0.0 <= s.budget.seconds
      && (s.budget.exceeded.None? && l.maxSeconds > 0.0 ==> s.budget.seconds <= l.maxSeconds)
  {
    if steps != [] {
      BudgetInvariant(l, steps[..|steps| - 1]);
    }
  }

  /** Once flagged, nobody is let in before the next reset, whichever route they come by. */
  lemma {:induction false} NothingAdmittedAfterBreach(l: Limits, s: State, steps: seq<Step>)
    requires s.budget.exceeded.Some? && Reset !in steps
    ensures var t := Run(l, s, steps);
      && t.budget.exceeded.Some? && !Admits(l, t.budget)
      && t.budget.count == s.budget.count && |t.inFlight| <= |s.inFlight|
  {
    if steps != [] {
      NothingAdmittedAfterBreach(l, s, steps[..|steps| - 1]);
    }
  }

  function Total(calls: seq<real>): real {
    if calls == [] then 0.0 else Spent(calls[0]) + Total(calls[1..])
  }

  lemma {:induction false} TotalWithout(calls: seq<real>, i: nat)
    requires i < |calls|
    ensures Total(Without(calls, i)) == Total(calls) - Spent(calls[i])
  {
    if i == 0 {
      assert Without(calls, 0) == calls[1..];
    } else {
      TotalWithout(calls[1..], i - 1);
      assert Without(calls, i) == [calls[0]] + Without(calls[1..], i - 1);
    }
  }

  /** From a breach on, recorded seconds plus those still to come only shrink. */
  lemma {:induction false} SecondsAreConserved(l: Limits, s: State, steps: seq<Step>)
    requires s.budget.exceeded.Some? && Reset !in steps
    ensures Run(l, s, steps).budget.seconds + Total(Run(l, s, steps).inFlight) <= s.budget.seconds + Total(s.inFlight)
    ensures Total(Run(l, s, steps).inFlight) >= 0.0
  {
    if steps != [] {
      var before := steps[..|steps| - 1];
      var t := Run(l, s, before);
      SecondsAreConserved(l, s, before);
      NothingAdmittedAfterBreach(l, s, before);
      match steps[|steps| - 1]
      case Record(i) => if i < |t.inFlight| { TotalWithout(t.inFlight, i); TotalNonNegative(Without(t.inFlight, i)); }
      case Abandon(i) => if i < |t.inFlight| { TotalWithout(t.inFlight, i); TotalNonNegative(Without(t.inFlight, i)); }
      case _ =>
    } else {
      TotalNonNegative(s.inFlight);
    }
  }

  lemma {:induction false} TotalNonNegative(calls: seq<real>)
    ensures Total(calls) >= 0.0
  {
    if calls != [] {
      TotalNonNegative(calls[1..]);
    }
  }

  /** Overshoot: if `steps` reach the first breach after `s`, the seconds recorded then and ever after,
      until the next reset, exceed the ceiling by at most the durations of the calls that were in
      flight when the breach happened. */
  lemma OvershootIsInFlight(l: Limits, history: seq<Step>, breaching: Step, later: seq<Step>)
    requires l.maxSeconds > 0.0 && Reset !in later
    requires Run(l, INITIAL, history).budget.exceeded.None?
    requires Next(l, Run(l, INITIAL, history), breaching).budget.exceeded.Some?
    ensures var s := Run(l, INITIAL, history);
      Run(l, Next(l, s, breaching), later).budget.seconds <= l.maxSeconds + Total(s.inFlight)
  {
    var s := Run(l, INITIAL, history);
    BudgetInvariant(l, history);
    SecondsAreConserved(l, Next(l, s, breaching), later);
    if breaching.Record? {
      TotalWithout(s.inFlight, breaching.call);
    }
  }

  // -------------------------------------------------------------- the module globals

  class SessionBudget {
    const limits: Limits
    var count: nat
    var seconds: real
    var exceeded: Option<Breach>

    function View(): Budget
      reads this
    {
      Budget(count, seconds, exceeded)
    }

    constructor (limits: Limits)
      ensures this.limits == limits && View() == FRESH
    {
      this.limits := limits;
      count, seconds, exceeded := 0, 0.0, None;
    }

    /** `_reset_session_exec_budget`. */
    method ResetBudget()
      modifies this
      ensures View() == FRESH
    {
      count := 0;
      seconds := 0.0;
      exceeded := None;
    }

    /** `_reserve_session_exec_slot_or_raise`; `refused` is the 403 it raises. */
    method ReserveSlot() returns (refused: Option<Breach>)
      modifies this
      ensures View() == AfterReserve(limits, old(View()))
      ensures refused.None? <==> Admits(limits, old(View()))
      ensures refused.Some? ==> refused == exceeded && count == old(count)
      ensures refused.None? <==> old(exceeded).None? && (limits.maxCount == 0 || old(count) < limits.maxCount)
      ensures refused.None? ==> count == old(count) + 1 && exceeded.None?
      ensures old(exceeded).Some? ==> exceeded == old(exceeded)
      ensures old(exceeded).None? && refused.Some? ==> refused == Some(CountBreach(limits.maxCount, old(count)))
      ensures seconds == old(seconds)
    {
      if exceeded.Some? {
        return exceeded;
      }
      var breach := CountBreachOf(limits, count);
      if breach.Some? {
        exceeded := breach;
        return breach;
      }
      count := count + 1;
      return None;
    }

    /** `_record_session_exec_duration_or_raise`. */
    method RecordDuration(duration: real) returns (refused: Option<Breach>)
      modifies this
      ensures View() == AfterRecord(limits, old(View()), duration)
      ensures seconds == (if duration > 0.0 then old(seconds) + duration else old(seconds)) && count == old(count)
      ensures refused == if limits.maxSeconds > 0.0 && seconds > limits.maxSeconds
                         then Some(SecondsBreach(limits.maxSeconds, seconds)) else None
      ensures exceeded == if refused.Some? then refused else old(exceeded)
    {
      seconds := seconds + (if duration > 0.0 then duration else 0.0);
      var breach := SecondsBreachOf(limits, seconds);
      if breach.Some? {
        exceeded := breach;
        return breach;
      }
      return None;
    }

    /** Any schedule of callers and resets, performed on the globals. */
    method Perform(steps: seq<Step>) returns (calls: seq<real>)
      requires View() == FRESH
      modifies this
      ensures State(View(), calls) == Run(limits, INITIAL, steps)
      ensures limits.maxCount > 0 ==> count <= limits.maxCount
      ensures exceeded.None? && limits.maxSeconds > 0.0 ==> seconds <= limits.maxSeconds
    {
      calls := [];
      for i := 0 to |steps|
        invariant State(View(), calls) == Run(limits, INITIAL, steps[..i])
      {
        assert steps[..i + 1][..i] == steps[..i];
        match steps[i]
        case Reserve(d) =>
          var refused := ReserveSlot();
          if refused.None? {
            calls := calls + [d];
          }
        case Record(call) =>
          if call < |calls| {
            var _ := RecordDuration(calls[call]);
            calls := Without(calls, call);
          }
        case Abandon(call) =>
          if call < |calls| {
            calls := Without(calls, call);
          }
        case Reset =>
          ResetBudget();
      }
      assert steps[..|steps|] == steps;
      BudgetInvariant(limits, steps);
    }
  }
}
