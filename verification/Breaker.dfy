/** The circuit breaker. */
module Breaker {
  import opened Scanner

  datatype Policy = Policy(failureThreshold: int, recoveryTime: real)

  datatype Health = Closed | Open | HalfOpen

  datatype BreakerState = BreakerState(failures: nat, openedAt: Option<real>, probeInFlight: bool)

  const NEW := BreakerState(0, None, false)

  function HealthAt(policy: Policy, b: BreakerState, now: real): Health {
    if b.openedAt == None then Closed
    else if now - b.openedAt.value >= policy.recoveryTime then HalfOpen
    else Open
  }

  /** Whether a request may be tried. When half-open, the one that may also takes the probe slot. */
  function Allows(policy: Policy, b: BreakerState, now: real): (BreakerState, bool) {
    match HealthAt(policy, b, now)
    case Closed => (b, true)
    case Open => (b, false)
    case HalfOpen => if b.probeInFlight then (b, false) else (b.(probeInFlight := true), true)
  }

  function Abandoned(b: BreakerState): BreakerState {
    b.(probeInFlight := false)
  }

  function Succeeded(b: BreakerState): BreakerState {
    NEW
  }

  function Failed(policy: Policy, b: BreakerState, now: real): BreakerState {
    var opens := b.failures + 1 >= policy.failureThreshold;
    BreakerState(b.failures + 1, if opens then Some(now) else b.openedAt, false)
  }

  class CircuitBreaker {
    const policy: Policy
    var consecutiveFailures: nat
    var openedAt: Option<real>
    var probeInFlight: bool

    function State(): BreakerState
      reads this
    {
      BreakerState(consecutiveFailures, openedAt, probeInFlight)
    }

    constructor (policy: Policy)
      ensures this.policy == policy && State() == NEW
    {
      this.policy := policy;
      consecutiveFailures, openedAt, probeInFlight := 0, None, false;
    }

    method AllowsRequest(now: real) returns (allowed: bool)
      modifies this
      ensures (State(), allowed) == Allows(policy, old(State()), now)
    {
      var health := HealthAt(policy, State(), now);
      if health == Closed {
        return true;
      }
      if health == Open {
        return false;
      }
      if probeInFlight {
        return false;
      }
      probeInFlight := true;
      return true;
    }

    method AbandonProbe()
      modifies this
      ensures State() == Abandoned(old(State()))
    {
      probeInFlight := false;
    }

    method RecordSuccess()
      modifies this
      ensures State() == Succeeded(old(State()))
    {
      consecutiveFailures := 0;
      openedAt := None;
      probeInFlight := false;
    }

    method RecordFailure(now: real)
      modifies this
      ensures State() == Failed(policy, old(State()), now)
    {
      consecutiveFailures := consecutiveFailures + 1;
      probeInFlight := false;
      if consecutiveFailures >= policy.failureThreshold {
        openedAt := Some(now);
      }
    }
  }
}
