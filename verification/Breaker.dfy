/**
  The circuit breaker for MCP providers (src/mcp/circuit_breaker.rs).

  Time is an argument, in nanoseconds. A call and its result are separate events, so
  results may arrive late and in any order.
 */
module Breaker {
  import opened Wrappers

  const PROBE_TIMEOUT: nat := 60_000_000_000
  const U32_MAX: nat := 0xFFFF_FFFF
  const U64_MAX: nat := 0xFFFF_FFFF_FFFF_FFFF

  type u32 = x: nat | x <= U32_MAX

  datatype Config = Config(failureThreshold: u32, cooldown: nat)

  datatype Phase = Closed | Open(openedAt: nat) | HalfOpen(probe: Option<nat>)

  datatype State = State(failures: u32, phase: Phase, openedCount: nat)

  datatype Event = Call(at: nat) | Succeeded(at: nat) | Failed(at: nat)

  const INITIAL := State(0, Closed, 0)

  /** `Instant::elapsed`, which is zero for an instant in the future. */
  function Elapsed(since: nat, now: nat): nat { SatSub(now, since) }

  function SaturatingIncrement(n: nat, max: nat): nat { if n < max then n + 1 else max }

  /** `+= 1` on a 32-bit counter, which wraps around. */
  function WrappingIncrement(n: u32): u32 { if n == U32_MAX then 0 else n + 1 }

  function AllowStep(config: Config, s: State, now: nat): (State, bool) {
    if s.phase.Open? && Elapsed(s.phase.openedAt, now) < config.cooldown then (s, false)
    else if s.phase.Closed? then (s, true)
    else if s.phase.HalfOpen? && s.phase.probe.Some? && Elapsed(s.phase.probe.value, now) < PROBE_TIMEOUT
    then (s, false)
    else (s.(phase := HalfOpen(Some(now))), true)
  }

  function SuccessStep(s: State): State { s.(failures := 0, phase := Closed) }

  function FailureStep(config: Config, s: State, now: nat): (State, bool) {
    var failures := WrappingIncrement(s.failures);
    if s.phase.HalfOpen? || failures >= config.failureThreshold
    then (State(failures, Open(now), SaturatingIncrement(s.openedCount, U32_MAX)), true)
    else (s.(failures := failures), false)
  }

  class CircuitBreaker {
    const config: Config
    var failures: u32
    var phase: Phase
    var openedCount: nat
    var rejectedCount: nat

    function Current(): State
      reads this
    {
      State(failures, phase, openedCount)
    }

    constructor (config: Config)
      ensures this.config == config && Current() == INITIAL && rejectedCount == 0
    {
      this.config := config;
      failures, phase, openedCount, rejectedCount := 0, Closed, 0, 0;
    }

    method Allow(now: nat) returns (permitted: bool)
      modifies this
      ensures (Current(), permitted) == AllowStep(config, old(Current()), now)
      ensures rejectedCount == old(rejectedCount)
    {
      if phase.Open? {
        if Elapsed(phase.openedAt, now) < config.cooldown {
          return false;
        }
        phase := HalfOpen(None);
      }
      match phase {
        case Closed => permitted := true;
        case Open(_) => permitted := false;
        case HalfOpen(probe) =>
          if probe.Some? && Elapsed(probe.value, now) < PROBE_TIMEOUT {
            permitted := false;
          } else {
            phase := HalfOpen(Some(now));
            permitted := true;
          }
      }
    }

    /** The gate in front of every provider call. */
    method Enter(now: nat) returns (permitted: bool)
      modifies this
      ensures (Current(), permitted) == AllowStep(config, old(Current()), now)
      ensures rejectedCount ==
              if permitted then old(rejectedCount) else SaturatingIncrement(old(rejectedCount), U64_MAX)
    {
      permitted := Allow(now);
      if !permitted {
        rejectedCount := SaturatingIncrement(rejectedCount, U64_MAX);
      }
    }

    method RecordSuccess()
      modifies this
      ensures Current() == SuccessStep(old(Current())) && rejectedCount == old(rejectedCount)
    {
      failures := 0;
      phase := Closed;
    }

    method RecordFailure(now: nat) returns (tripped: bool)
      modifies this
      ensures (Current(), tripped) == FailureStep(config, old(Current()), now)
      ensures rejectedCount == old(rejectedCount)
    {
      failures := WrappingIncrement(failures);
      match phase {
        case HalfOpen(_) => tripped := true;
        case _ => tripped := failures >= config.failureThreshold;
      }
      if tripped {
        phase := Open(now);
        openedCount := SaturatingIncrement(openedCount, U32_MAX);
      }
    }
  }

  // ---------------------------------------------------------------- runs

  function Step(config: Config, s: State, e: Event): (State, bool) {
    match e
    case Call(at) => AllowStep(config, s, at)
    case Succeeded(_) => (SuccessStep(s), false)
    case Failed(at) => FailureStep(config, s, at)
  }

  function RunFrom(config: Config, s: State, events: seq<Event>): State {
    if events == [] then s
    else Step(config, RunFrom(config, s, events[..|events| - 1]), events[|events| - 1]).0
  }

  predicate Monotone(events: seq<Event>) {
    forall i, j :: 0 <= i < j < |events| ==> events[i].at <= events[j].at
  }

  function LastTime(events: seq<Event>): nat {
    if events == [] then 0 else events[|events| - 1].at
  }

  /** Failures recorded since the last recorded success. */
  function FailuresSince(events: seq<Event>): nat {
    if events == [] then 0
    else
      var before := FailuresSince(events[..|events| - 1]);
      match events[|events| - 1]
      case Call(_) => before
      case Succeeded(_) => 0
      case Failed(_) => before + 1
  }

  /** Failures that brought the count since the last success to the threshold or beyond. */
  function Trips(config: Config, events: seq<Event>): nat {
    if events == [] then 0
    else
      Trips(config, events[..|events| - 1]) +
      if events[|events| - 1].Failed? && FailuresSince(events) >= config.failureThreshold then 1 else 0
  }

  /** At no point have more failures been recorded since a success than the counter holds. */
  predicate CounterSuffices(events: seq<Event>) {
    events == [] || (FailuresSince(events) <= U32_MAX && CounterSuffices(events[..|events| - 1]))
  }

  /** Whether the phase is closed depends on the recorded results alone, even when the
      failure counter wraps around; so does the open counter as long as it does not. */
  lemma {:induction false} HistoryDecides(config: Config, events: seq<Event>)
    ensures var s := RunFrom(config, INITIAL, events);
            && (CounterSuffices(events) ==> s.failures == FailuresSince(events))
            && (s.phase.Closed? ==> s.failures == FailuresSince(events))
            && (s.phase.Closed? <==> FailuresSince(events) < Max(config.failureThreshold, 1))
            && (CounterSuffices(events) ==> s.openedCount == Min(Trips(config, events), U32_MAX))
            && (s.phase.HalfOpen? ==> s.phase.probe.Some?)
  {
    if events != [] {
      HistoryDecides(config, events[..|events| - 1]);
    }
  }

  /** After any events a failure trips the breaker exactly when it is not closed, or when
      this failure is the one that reaches the threshold. */
  lemma FailureTripsIff(config: Config, events: seq<Event>, now: nat)
    requires CounterSuffices(events + [Failed(now)])
    ensures var s := RunFrom(config, INITIAL, events);
            FailureStep(config, s, now).1 <==>
            !s.phase.Closed? || FailuresSince(events) + 1 >= config.failureThreshold
  {
    assert (events + [Failed(now)])[..|events|] == events;
    HistoryDecides(config, events);
  }

  /** No instant kept by the breaker lies after the last event. */
  lemma {:induction false} InstantsArePast(config: Config, events: seq<Event>)
    requires Monotone(events)
    ensures var phase := RunFrom(config, INITIAL, events).phase;
            && (phase.Open? ==> phase.openedAt <= LastTime(events))
            && (phase.HalfOpen? ==> phase.probe.Some? && phase.probe.value <= LastTime(events))
  {
    if events != [] {
      var before := events[..|events| - 1];
      InstantsArePast(config, before);
      assert before != [] ==> before[|before| - 1] == events[|before| - 1];
    }
  }

  /** The breaker heals by itself: a call made long enough after the last event passes. */
  lemma SelfHealing(config: Config, events: seq<Event>, now: nat)
    requires Monotone(events)
    requires now >= LastTime(events) + Max(config.cooldown, PROBE_TIMEOUT)
    ensures AllowStep(config, RunFrom(config, INITIAL, events), now).1
  {
    InstantsArePast(config, events);
  }

  // ---------------------------------------------------------------- admission

  /** How many of the calls made at these times, with no result between them, are admitted. */
  function Admitted(config: Config, s: State, times: seq<nat>): nat
    decreases |times|
  {
    if times == [] then 0
    else
      var (next, permitted) := AllowStep(config, s, times[0]);
      (if permitted then 1 else 0) + Admitted(config, next, times[1..])
  }

  predicate Ordered(times: seq<nat>) {
    forall i, j :: 0 <= i < j < |times| ==> times[i] <= times[j]
  }

  /** After a probe every further admission takes a full probe timeout. */
  lemma {:induction false} AdmittedAfterProbe(config: Config, s: State, times: seq<nat>)
    requires s.phase.HalfOpen? && s.phase.probe.Some? && Ordered(times)
    requires times != [] ==> s.phase.probe.value <= times[0]
    ensures times != [] ==>
              PROBE_TIMEOUT * Admitted(config, s, times) <= times[|times| - 1] - s.phase.probe.value
    decreases |times|
  {
    if times != [] {
      AdmittedAfterProbe(config, AllowStep(config, s, times[0]).0, times[1..]);
    }
  }

  /** While the breaker is not closed, calls made within a window of length T and without
      a recorded result are admitted at most 1 + T / PROBE_TIMEOUT times. */
  lemma {:induction false} AdmissionBound(config: Config, s: State, times: seq<nat>)
    requires !s.phase.Closed? && Ordered(times) && times != []
    ensures Admitted(config, s, times) <= 1 + (times[|times| - 1] - times[0]) / PROBE_TIMEOUT
  {
    var (next, permitted) := AllowStep(config, s, times[0]);
    if permitted {
      AdmittedAfterProbe(config, next, times[1..]);
    } else if |times| > 1 {
      AdmissionBound(config, s, times[1..]);
    }
  }

  /** Whether some call among the events is admitted. */
  predicate SomeAdmitted(config: Config, s: State, events: seq<Event>) {
    exists i :: 0 <= i < |events| && events[i].Call? &&
                AllowStep(config, RunFrom(config, s, events[..i]), events[i].at).1
  }

  lemma {:induction false} StaysOpen(config: Config, s: State, f: nat, events: seq<Event>)
    requires s.phase.Open? && s.phase.openedAt >= f
    requires forall i :: 0 <= i < |events| ==>
                           !events[i].Succeeded? && f <= events[i].at < f + config.cooldown
    ensures RunFrom(config, s, events).phase.Open?
    ensures RunFrom(config, s, events).phase.openedAt >= f
  {
    if events != [] {
      StaysOpen(config, s, f, events[..|events| - 1]);
    }
  }

  /** After a failure that trips the breaker no call is admitted before the cooldown ends,
      however many other failures arrive, unless a success is recorded. */
  lemma CooldownHolds(config: Config, s: State, f: nat, events: seq<Event>)
    requires FailureStep(config, s, f).1
    requires forall i :: 0 <= i < |events| ==>
                           !events[i].Succeeded? && f <= events[i].at < f + config.cooldown
    ensures !SomeAdmitted(config, FailureStep(config, s, f).0, events)
  {
    var tripped := FailureStep(config, s, f).0;
    forall i | 0 <= i < |events| && events[i].Call?
      ensures !AllowStep(config, RunFrom(config, tripped, events[..i]), events[i].at).1
    {
      StaysOpen(config, tripped, f, events[..i]);
    }
  }

  // ---------------------------------------------------------------- who is admitted

  /** A call is admitted exactly when the breaker is closed, when it is open and the cooldown
      has passed, and when it is half-open and no probe is out that is younger than a minute;
      an admitted call is the probe of a breaker that is not closed. */
  lemma AdmittedIff(config: Config, s: State, now: nat)
    ensures AllowStep(config, s, now).1 <==>
            match s.phase
            case Closed => true
            case Open(since) => config.cooldown == 0 || now >= since + config.cooldown
            case HalfOpen(probe) => probe.None? || now >= probe.value + 60_000_000_000
    ensures AllowStep(config, s, now).0 ==
            if s.phase.Closed? || !AllowStep(config, s, now).1 then s else s.(phase := HalfOpen(Some(now)))
  {
  }

  /** A call right after the cooldown of a failure that tripped the breaker is admitted as the
      probe, however long a probe may take; until its result a second one has to wait for a
      minute. */
  lemma AdmittedAfterCooldown(config: Config, events: seq<Event>, f: nat, now: nat, later: nat)
    requires FailureStep(config, RunFrom(config, INITIAL, events), f).1 && now >= f + config.cooldown && later >= now
    ensures var tripped := RunFrom(config, INITIAL, events + [Failed(f)]);
            && AllowStep(config, tripped, now).1
            && (AllowStep(config, AllowStep(config, tripped, now).0, later).1 <==> later >= now + 60_000_000_000)
  {
    assert (events + [Failed(f)])[..|events|] == events;
    var tripped := FailureStep(config, RunFrom(config, INITIAL, events), f).0;
    AdmittedIff(config, tripped, now);
    AdmittedIff(config, AllowStep(config, tripped, now).0, later);
  }

  /** A success closes the breaker whatever went before, and then every call is admitted. */
  lemma SuccessCloses(config: Config, events: seq<Event>, at: nat, now: nat)
    ensures var s := RunFrom(config, INITIAL, events + [Succeeded(at)]);
            s.phase == Closed && s.failures == 0 && AllowStep(config, s, now) == (s, true)
  {
    assert (events + [Succeeded(at)])[..|events|] == events;
  }
}
