/**
 * Rebooting a network device into fastbootd and waiting for it to come back:
 * probe, reboot, close, then rounds of wait, reopen and probe again.
 *
 * The environment (clock readings, cancellation, open results, device replies)
 * is an arbitrary script: one record for the first connection and one record per
 * retry round. A run over a finite script is a prefix of a real execution, and
 * `Pending` means that the script ended before the operation did.
 */
module Reconnect {
  import opened Common
  import opened Statuses
  import opened Deadlines

  datatype Failure = Failure(status: Status, state: TransferState)

  datatype Outcome = Pending | Succeeded | Failed(failure: Failure) | Cancelled(failure: Failure)

  datatype Reply = Answer(payload: string) | Refused(code: PrimitiveErrorCode, certainty: TransferState)

  datatype RebootReply = Rebooted(sent: TransferState) | RebootRefused(code: PrimitiveErrorCode, certainty: TransferState)

  datatype WaitStatus = Elapsed | WaitCancelled | WaitFailed

  datatype First = First(now: int, open: Option<Failure>, probe: Reply, reboot: RebootReply)

  /** `checked`, `measured` and `woken` are the three clock readings of a round. */
  datatype Round = Round(cancelled: bool, checked: int, measured: int, wait: WaitStatus,
                         woken: int, open: Option<Failure>, probe: Reply)

  /** What the operation does and sees; round 0 is the first connection. */
  datatype Event =
    | Poll(round: nat, requested: bool)
    | Budget(round: nat, left: Result<int, Status>)
    | Wait(round: nat, ms: int, status: WaitStatus)
    | OpenBudget(round: nat, left: Result<int, Status>)
    | Open(round: nat, timeoutMs: int, error: Option<Failure>)
    | Probe(round: nat, reply: Reply)
    | Reboot(result: RebootReply)
    | Close(round: nat)

  const INITIAL_BACKOFF_MS := 50
  const MAXIMUM_BACKOFF_MS := 1000

  function OperationFailure(failure: Failure): Outcome {
    if failure.status == CancelledStatus then Cancelled(failure) else Failed(failure)
  }

  /** Errors after which a reconnect attempt is simply repeated. */
  predicate Retryable(code: PrimitiveErrorCode) {
    code.ClosedCode? || code.PoisonedCode? || code.TimeoutCode? || code.DisconnectedCode? || code.TransportIoCode?
  }

  /** The reply to the first probe that shows the bootloader. */
  predicate ShowsBootloader(reply: Reply) {
    reply == Answer("no") || (reply.Refused? && reply.code == DeviceFailCode)
  }

  // ----- Specification: which event may follow which, and which event decides the outcome

  predicate Follows(a: Event, b: Event) {
    match a
    case Budget(k, left) => left.Ok? && (if k == 0 then b.Open? && b.round == 0 && b.timeoutMs == left.value
                                         else b.Wait? && b.round == k)
    case Open(k, _, error) => if error.None? then b.Probe? && b.round == k
                              else k > 0 && b.Poll? && b.round == k + 1
    case Probe(k, reply) => if k == 0 then ShowsBootloader(reply) && b.Reboot?
                            else reply.Refused? && Retryable(reply.code) && b == Close(k)
    case Reboot(result) => result == Rebooted(FullyTransferred) && b == Close(0)
    case Close(k) => b.Poll? && b.round == k + 1
    case Poll(k, requested) => !requested && b.Budget? && b.round == k
    case Wait(k, _, status) => status.Elapsed? && b.OpenBudget? && b.round == k
    case OpenBudget(k, left) => left.Ok? && b.Open? && b.round == k && b.timeoutMs == left.value
  }

  /** The outcome an event forces, if it ends the operation. */
  function Verdict(e: Event): Option<Outcome> {
    match e
    case Budget(k, Err(status)) => Some(Failed(Failure(status, if k == 0 then NotSent else FullyTransferred)))
    case OpenBudget(_, Err(status)) => Some(Failed(Failure(status, FullyTransferred)))
    case Open(k, _, Some(failure)) => if k == 0 then Some(OperationFailure(failure)) else None
    case Probe(k, Answer(payload)) =>
      if payload == "yes" then Some(Succeeded)
      else if k > 0 then Some(Failed(Failure(Protocol, FullyTransferred)))
      else if payload == "no" then None
      else Some(Failed(Failure(Protocol, NotSent)))
    case Probe(k, Refused(code, certainty)) =>
      if k == 0 then
        if code == DeviceFailCode then None else Some(OperationFailure(Failure(PrimitiveStatus(code), certainty)))
      else if Retryable(code) then None
      else Some(OperationFailure(Failure(PrimitiveStatus(code), FullyTransferred)))
    case Reboot(RebootRefused(code, certainty)) => Some(OperationFailure(Failure(PrimitiveStatus(code), certainty)))
    case Reboot(Rebooted(sent)) =>
      if sent == FullyTransferred then None else Some(Failed(Failure(Protocol, PartialOrUnknown)))
    case Poll(_, true) => Some(Cancelled(Failure(CancelledStatus, FullyTransferred)))
    case Wait(_, _, WaitCancelled) => Some(Cancelled(Failure(CancelledStatus, FullyTransferred)))
    case Wait(_, _, WaitFailed) => Some(Failed(Failure(Io, FullyTransferred)))
    case _ => None
  }

  /** The backoff of retry `k`, counted from zero. */
  function Backoff(k: nat): int {
    Min(INITIAL_BACKOFF_MS * Pow2(k), MAXIMUM_BACKOFF_MS)
  }

  function WaitMs(deadline: int, k: nat, now: int): int {
    if deadline == TIME_MAX then Backoff(k) else Min(Backoff(k), CeilMs(deadline - now))
  }

  /** The event reports what the environment answered in its round. */
  ghost predicate Observed(e: Event, deadline: int, first: First, rounds: seq<Round>) {
    if e.Reboot? then e.result == first.reboot
    else if e.Close? then e.round <= |rounds|
    else if e.round == 0 then ObservedFirst(e, deadline, first)
    else e.round <= |rounds| && ObservedRetry(e, deadline, rounds[e.round - 1])
  }

  ghost predicate ObservedFirst(e: Event, deadline: int, first: First) {
    match e
    case Budget(_, left) => left == RemainingTimeout(deadline, first.now)
    case Open(_, _, error) => error == first.open
    case Probe(_, reply) => reply == first.probe
    case _ => false
  }

  ghost predicate ObservedRetry(e: Event, deadline: int, r: Round)
    requires !e.Reboot? && e.round > 0
  {
    match e
    case Poll(_, requested) => requested == r.cancelled
    case Budget(_, left) => left == RemainingTimeout(deadline, r.checked)
    case Wait(_, ms, status) => ms == WaitMs(deadline, e.round - 1, r.measured) && status == r.wait
    case OpenBudget(_, left) => left == RemainingTimeout(deadline, r.woken)
    case Open(_, _, error) => error == r.open
    case Probe(_, reply) => reply == r.probe
    case _ => false
  }

  /** A trace of the protocol: starts with the deadline check and every event may follow its predecessor. */
  ghost predicate Lawful(t: seq<Event>) {
    && (|t| > 0 ==> t[0].Budget? && t[0].round == 0)
    && (forall i :: 0 < i < |t| ==> Follows(t[i - 1], t[i]))
  }

  ghost predicate Run(t: seq<Event>, deadline: int, first: First, rounds: seq<Round>) {
    Lawful(t) && forall i :: 0 <= i < |t| ==> Observed(t[i], deadline, first, rounds)
  }

  /** The trace stands where the next event polls for cancellation in round `k + 1`. */
  predicate EndsRound(t: seq<Event>, k: nat) {
    |t| > 0 && (t[|t| - 1] == Close(k) ||
                (t[|t| - 1].Open? && t[|t| - 1].round == k && k > 0 && t[|t| - 1].error.Some?))
  }

  // ----- The operation

  lemma Extend(t: seq<Event>, e: Event, deadline: int, first: First, rounds: seq<Round>)
    requires Run(t, deadline, first, rounds)
    requires |t| > 0 && Follows(t[|t| - 1], e) && Observed(e, deadline, first, rounds)
    ensures Run(t + [e], deadline, first, rounds)
  {
  }

  method ExecuteNetworkRebootFastboot(deadline: int, first: First, rounds: seq<Round>)
    returns (outcome: Outcome, trace: seq<Event>)
    ensures Run(trace, deadline, first, rounds) && |trace| > 0
    ensures outcome.Pending? ==> EndsRound(trace, |rounds|)
    ensures !outcome.Pending? ==> Verdict(trace[|trace| - 1]) == Some(outcome)
    ensures outcome.Succeeded? <==> trace[|trace| - 1].Probe? && trace[|trace| - 1].reply == Answer("yes")
    ensures (outcome.Failed? || outcome.Cancelled?) && Reboot(Rebooted(FullyTransferred)) in trace ==>
              outcome.failure.state == FullyTransferred
    ensures !LosesLink(trace[|trace| - 1])
    ensures outcome.Failed? || outcome.Cancelled? ==>
              (outcome.Cancelled? <==> outcome.failure.status == CancelledStatus)
  {
    outcome, trace := RunToEnd(deadline, first, rounds);
    if !outcome.Pending? && !outcome.Succeeded? && Reboot(Rebooted(FullyTransferred)) in trace {
      var i :| 0 <= i < |trace| && trace[i] == Reboot(Rebooted(FullyTransferred));
      ConfirmedRebootIsReported(trace, i, outcome);
    }
  }

  const LOST_LINK: set<PrimitiveErrorCode> := {ClosedCode, PoisonedCode, TimeoutCode, DisconnectedCode, TransportIoCode}

  /** A probe of the returning device that the link did not survive. */
  predicate LosesLink(e: Event) {
    e.Probe? && e.round > 0 && e.reply.Refused? && e.reply.code in LOST_LINK
  }

  method RunToEnd(deadline: int, first: First, rounds: seq<Round>) returns (outcome: Outcome, trace: seq<Event>)
    ensures Run(trace, deadline, first, rounds) && |trace| > 0
    ensures outcome.Pending? ==> EndsRound(trace, |rounds|)
    ensures !outcome.Pending? ==> Verdict(trace[|trace| - 1]) == Some(outcome)
  {
    outcome, trace := RebootOnce(deadline, first, rounds);
    if !outcome.Pending? { return; }
    var backoff := INITIAL_BACKOFF_MS;
    var i := 0;
    while i < |rounds|
      invariant 0 <= i <= |rounds|
      invariant Run(trace, deadline, first, rounds)
      invariant EndsRound(trace, i)
      invariant backoff == Backoff(i)
      invariant outcome.Pending?
    {
      outcome, trace := ReconnectOnce(deadline, first, rounds, i, backoff, trace);
      if !outcome.Pending? { return; }
      backoff := Min(backoff * 2, MAXIMUM_BACKOFF_MS);
      i := i + 1;
    }
  }

  /** The first connection: everything up to the closed session after the reboot. */
  method RebootOnce(deadline: int, first: First, ghost rounds: seq<Round>)
    returns (outcome: Outcome, trace: seq<Event>)
    ensures Run(trace, deadline, first, rounds) && |trace| > 0
    ensures outcome.Pending? ==> EndsRound(trace, 0)
    ensures !outcome.Pending? ==> Verdict(trace[|trace| - 1]) == Some(outcome)
  {
    var remaining := RemainingTimeout(deadline, first.now);
    trace := [Budget(0, remaining)];
    if remaining.Err? { return Failed(Failure(remaining.error, NotSent)), trace; }
    trace := trace + [Open(0, remaining.value, first.open)];
    if first.open.Some? { return OperationFailure(first.open.value), trace; }
    trace := trace + [Probe(0, first.probe)];
    match first.probe {
      case Refused(code, certainty) =>
        if code != DeviceFailCode {
          return OperationFailure(Failure(PrimitiveStatus(code), certainty)), trace;
        }
      case Answer(payload) =>
        if payload == "yes" { return Succeeded, trace; }
        if payload != "no" { return Failed(Failure(Protocol, NotSent)), trace; }
    }
    trace := trace + [Reboot(first.reboot)];
    match first.reboot {
      case RebootRefused(code, certainty) =>
        return OperationFailure(Failure(PrimitiveStatus(code), certainty)), trace;
      case Rebooted(sent) =>
        if sent != FullyTransferred { return Failed(Failure(Protocol, PartialOrUnknown)), trace; }
    }
    trace := trace + [Close(0)];
    outcome := Pending;
  }

  /** One pass of the retry loop; `Pending` asks for another pass. */
  method ReconnectOnce(deadline: int, ghost first: First, rounds: seq<Round>, i: nat, backoff: int, before: seq<Event>)
    returns (outcome: Outcome, trace: seq<Event>)
    requires i < |rounds| && backoff == Backoff(i)
    requires Run(before, deadline, first, rounds) && EndsRound(before, i)
    ensures Run(trace, deadline, first, rounds) && |trace| > 0
    ensures outcome.Pending? ==> EndsRound(trace, i + 1)
    ensures !outcome.Pending? ==> Verdict(trace[|trace| - 1]) == Some(outcome)
  {
    var env, k := rounds[i], i + 1;
    Extend(before, Poll(k, env.cancelled), deadline, first, rounds);
    trace := before + [Poll(k, env.cancelled)];
    if env.cancelled { return Cancelled(Failure(CancelledStatus, FullyTransferred)), trace; }
    var retryTimeout := RemainingTimeout(deadline, env.checked);
    Extend(trace, Budget(k, retryTimeout), deadline, first, rounds);
    trace := trace + [Budget(k, retryTimeout)];
    if retryTimeout.Err? { return Failed(Failure(retryTimeout.error, FullyTransferred)), trace; }
    var waitDuration := backoff;
    if deadline != TIME_MAX {
      waitDuration := Min(waitDuration, CeilMs(deadline - env.measured));
    }
    Extend(trace, Wait(k, waitDuration, env.wait), deadline, first, rounds);
    trace := trace + [Wait(k, waitDuration, env.wait)];
    if env.wait.WaitCancelled? { return Cancelled(Failure(CancelledStatus, FullyTransferred)), trace; }
    if !env.wait.Elapsed? { return Failed(Failure(Io, FullyTransferred)), trace; }
    outcome, trace := ReopenOnce(deadline, first, rounds, i, trace);
  }

  method ReopenOnce(deadline: int, ghost first: First, rounds: seq<Round>, i: nat, before: seq<Event>)
    returns (outcome: Outcome, trace: seq<Event>)
    requires i < |rounds|
    requires Run(before, deadline, first, rounds)
    requires |before| > 0 && before[|before| - 1].Wait? && before[|before| - 1].round == i + 1
    requires before[|before| - 1].status.Elapsed?
    ensures Run(trace, deadline, first, rounds) && |trace| > 0
    ensures outcome.Pending? ==> EndsRound(trace, i + 1)
    ensures !outcome.Pending? ==> Verdict(trace[|trace| - 1]) == Some(outcome)
  {
    var env, k := rounds[i], i + 1;
    var retryTimeout := RemainingTimeout(deadline, env.woken);
    Extend(before, OpenBudget(k, retryTimeout), deadline, first, rounds);
    trace := before + [OpenBudget(k, retryTimeout)];
    if retryTimeout.Err? { return Failed(Failure(retryTimeout.error, FullyTransferred)), trace; }
    Extend(trace, Open(k, retryTimeout.value, env.open), deadline, first, rounds);
    trace := trace + [Open(k, retryTimeout.value, env.open)];
    if env.open.Some? { return Pending, trace; }
    Extend(trace, Probe(k, env.probe), deadline, first, rounds);
    trace := trace + [Probe(k, env.probe)];
    match env.probe {
      case Refused(code, certainty) =>
        if code.ClosedCode? || code.PoisonedCode? || code.TimeoutCode? || code.DisconnectedCode? ||
           code.TransportIoCode?
        {
          Extend(trace, Close(k), deadline, first, rounds);
          return Pending, trace + [Close(k)];
        }
        return OperationFailure(Failure(PrimitiveStatus(code), FullyTransferred)), trace;
      case Answer(payload) =>
        if payload != "yes" { return Failed(Failure(Protocol, FullyTransferred)), trace; }
        return Succeeded, trace;
    }
  }

  // ----- Safety of every run

  /** The first connection occupies the first five positions of a run, in one order, and never comes back. */
  ghost predicate InPlace(e: Event, i: nat) {
    if i == 0 then e.Budget? && e.round == 0
    else if i == 1 then e.Open? && e.round == 0
    else if i == 2 then e.Probe? && e.round == 0
    else if i == 3 then e.Reboot?
    else if i == 4 then e == Close(0)
    else !e.Reboot? && e.round > 0
  }

  lemma {:induction false} EventsAreInPlace(t: seq<Event>, i: nat)
    requires Lawful(t) && i < |t|
    ensures InPlace(t[i], i)
  {
    if i > 0 {
      EventsAreInPlace(t, i - 1);
      assert Follows(t[i - 1], t[i]);
    }
  }

  /** At most one reboot is sent, right after a first probe that showed the bootloader. */
  lemma AtMostOneReboot(t: seq<Event>, i: nat)
    requires Lawful(t) && i < |t| && t[i].Reboot?
    ensures i == 3 && t[2].Probe? && ShowsBootloader(t[2].reply)
    ensures forall j :: 0 <= j < |t| && t[j].Reboot? ==> j == i
  {
    forall j | 0 <= j < |t| && t[j].Reboot? ensures j == 3 { EventsAreInPlace(t, j); }
    EventsAreInPlace(t, 2);
    assert Follows(t[2], t[3]);
  }

  /** Sessions opened and not yet closed. */
  function OpenSessions(t: seq<Event>): int {
    if t == [] then 0
    else
      var e := t[|t| - 1];
      OpenSessions(t[..|t| - 1]) + (if e.Open? && e.error.None? then 1 else if e.Close? then -1 else 0)
  }

  /** At most one session is open at any moment, and a session is opened only when none is. */
  lemma {:induction false} OneSessionAtATime(t: seq<Event>)
    requires Lawful(t) && |t| > 0
    ensures 0 <= OpenSessions(t) <= 1
    ensures var e := t[|t| - 1];
            OpenSessions(t) == 1 <==> (e.Open? && e.error.None?) || e.Probe? || e.Reboot?
  {
    if |t| > 1 {
      var before := t[..|t| - 1];
      assert forall i :: 0 <= i < |before| ==> before[i] == t[i];
      OneSessionAtATime(before);
      assert Follows(t[|t| - 2], t[|t| - 1]);
      EventsAreInPlace(t, |t| - 1);
      EventsAreInPlace(t, |t| - 2);
    } else {
      assert t[..0] == [];
    }
  }

  /**
   * After the reboot a probe is followed by another event exactly when it lost the link, and then its session is
   * closed; every other probe is the last event of its run.
   */
  lemma OnlyLostLinksAreRetried(t: seq<Event>, i: nat)
    requires Lawful(t) && 0 < i < |t|
    ensures t[i - 1].Probe? && t[i - 1].round > 0 ==> LosesLink(t[i - 1]) && t[i] == Close(t[i - 1].round)
    ensures t[i].Close? && t[i].round > 0 ==> LosesLink(t[i - 1]) && t[i - 1].round == t[i].round
  {
    assert Follows(t[i - 1], t[i]);
  }

  /** Once the reboot is confirmed fully sent, every outcome but success says so. */
  lemma ConfirmedRebootIsReported(t: seq<Event>, i: nat, outcome: Outcome)
    requires Lawful(t) && i < |t| && t[i] == Reboot(Rebooted(FullyTransferred))
    requires Verdict(t[|t| - 1]) == Some(outcome) && outcome != Succeeded
    ensures (outcome.Failed? || outcome.Cancelled?) && outcome.failure.state == FullyTransferred
  {
    AtMostOneReboot(t, i);
    EventsAreInPlace(t, |t| - 1);
  }

  /** A finite deadline never hands the infinite timeout to an open, and an infinite one always does. */
  lemma OpenTimeouts(t: seq<Event>, i: nat, deadline: int, first: First, rounds: seq<Round>)
    requires Run(t, deadline, first, rounds) && i < |t| && t[i].Open? && deadline <= TIME_MAX
    ensures deadline == TIME_MAX ==> t[i].timeoutMs == WAIT_INFINITE
    ensures deadline < TIME_MAX ==> 1 <= t[i].timeoutMs < WAIT_INFINITE
  {
    EventsAreInPlace(t, i);
    assert Follows(t[i - 1], t[i]) && Observed(t[i - 1], deadline, first, rounds);
    if i > 1 { EventsAreInPlace(t, i - 1); }
    if deadline < TIME_MAX {
      var now := if i == 1 then first.now else rounds[t[i].round - 1].woken;
      RemainingTimeoutIsTight(deadline, now);
    }
  }

  // ----- Termination

  /** A steady clock, and a wait that reports having elapsed lasts at least as long as asked. */
  ghost predicate HonestClock(deadline: int, rounds: seq<Round>) {
    && (forall k :: 0 <= k < |rounds| ==> HonestRound(deadline, k, rounds[k]))
    && (forall k :: 0 < k < |rounds| ==> rounds[k - 1].woken <= rounds[k].checked)
  }

  ghost predicate HonestRound(deadline: int, k: nat, r: Round) {
    && r.checked <= r.measured <= r.woken
    && (r.wait.Elapsed? ==> r.measured + WaitMs(deadline, k, r.measured) * NS_PER_MS <= r.woken)
  }

  function TotalBackoff(n: nat): int {
    if n == 0 then 0 else TotalBackoff(n - 1) + Backoff(n - 1)
  }

  lemma {:induction false} TotalBackoffGrows(n: nat)
    ensures TotalBackoff(n) >= 50 * n
    ensures n >= 5 ==> TotalBackoff(n) == 1000 * n - 3450
  {
    if n > 0 {
      TotalBackoffGrows(n - 1);
      Pow2Grows(n - 1);
      if n == 5 {
        assert TotalBackoff(5) == Backoff(0) + Backoff(1) + Backoff(2) + Backoff(3) + Backoff(4) by {
          assert TotalBackoff(1) == Backoff(0);
          assert TotalBackoff(2) == Backoff(0) + Backoff(1);
          assert TotalBackoff(3) == Backoff(0) + Backoff(1) + Backoff(2);
          assert TotalBackoff(4) == Backoff(0) + Backoff(1) + Backoff(2) + Backoff(3);
        }
        assert Pow2(0) == 1 && Pow2(1) == 2 && Pow2(2) == 4 && Pow2(3) == 8 && Pow2(4) == 16;
      }
    }
  }

  lemma {:induction false} Pow2Grows(k: nat)
    ensures Pow2(k) >= 1
    ensures k >= 5 ==> Pow2(k) >= 32
  {
    if k > 0 {
      Pow2Grows(k - 1);
      if k == 5 { assert Pow2(1) == 2 && Pow2(2) == 4 && Pow2(3) == 8 && Pow2(4) == 16; }
    }
  }

  /** The rounds of a run that are over: their wait elapsed and left time before the deadline. */
  ghost predicate RoundPassed(deadline: int, r: Round) {
    r.wait.Elapsed? && RemainingTimeout(deadline, r.woken).Ok?
  }

  /** Rounds before the current one are over, and so is the current one once its session is opened. */
  lemma {:induction false} EarlierRoundsPassed(t: seq<Event>, i: nat, deadline: int, first: First, rounds: seq<Round>)
    requires Run(t, deadline, first, rounds) && 5 <= i < |t|
    ensures InPlace(t[i], i) && t[i].round <= |rounds|
    ensures forall k :: 0 <= k < t[i].round - 1 ==> RoundPassed(deadline, rounds[k])
    ensures t[i].OpenBudget? ==> rounds[t[i].round - 1].wait.Elapsed?
    ensures t[i].Open? || t[i].Probe? || t[i].Close? ==> RoundPassed(deadline, rounds[t[i].round - 1])
  {
    EventsAreInPlace(t, i);
    EventsAreInPlace(t, i - 1);
    assert Observed(t[i], deadline, first, rounds) && Observed(t[i - 1], deadline, first, rounds);
    assert Follows(t[i - 1], t[i]);
    if i > 5 { EarlierRoundsPassed(t, i - 1, deadline, first, rounds); }
  }

  /** A round that is over took at least its backoff. */
  lemma {:induction false} PassedRoundsTakeTime(deadline: int, rounds: seq<Round>, n: nat)
    requires HonestClock(deadline, rounds) && deadline < TIME_MAX && 0 < n <= |rounds|
    requires forall k :: 0 <= k < n ==> RoundPassed(deadline, rounds[k])
    ensures rounds[0].checked + TotalBackoff(n) * NS_PER_MS <= rounds[n - 1].woken < deadline
  {
    var r := rounds[n - 1];
    assert HonestRound(deadline, n - 1, r) && RoundPassed(deadline, r);
    RemainingTimeoutIsTight(deadline, r.woken);
    assert r.measured + Backoff(n - 1) * NS_PER_MS <= r.woken;
    if n > 1 {
      PassedRoundsTakeTime(deadline, rounds, n - 1);
      assert rounds[n - 1 - 1].woken <= rounds[n - 1].checked;
    } else {
      assert TotalBackoff(1) == Backoff(0);
    }
  }

  /**
   * With a finite deadline the retry loop is still running after n rounds only
   * if the first n backoffs, and so at least 50 ms per round, fit before it.
   */
  lemma RetriesFitBeforeDeadline(t: seq<Event>, deadline: int, first: First, rounds: seq<Round>)
    requires Run(t, deadline, first, rounds) && |rounds| > 0 && EndsRound(t, |rounds|)
    requires deadline < TIME_MAX && HonestClock(deadline, rounds)
    ensures rounds[0].checked + TotalBackoff(|rounds|) * NS_PER_MS < deadline
    ensures INITIAL_BACKOFF_MS * NS_PER_MS * |rounds| < deadline - rounds[0].checked
  {
    if |t| <= 5 { EventsAreInPlace(t, |t| - 1); }
    EarlierRoundsPassed(t, |t| - 1, deadline, first, rounds);
    PassedRoundsTakeTime(deadline, rounds, |rounds|);
    TotalBackoffGrows(|rounds|);
  }

  /** The operation as a whole: it ends within the rounds that fit before a finite deadline. */
  method ExecuteUntilDeadline(deadline: int, first: First, rounds: seq<Round>) returns (outcome: Outcome)
    requires deadline < TIME_MAX && HonestClock(deadline, rounds) && |rounds| > 0
    requires deadline - rounds[0].checked <= INITIAL_BACKOFF_MS * NS_PER_MS * |rounds|
    ensures !outcome.Pending?
  {
    var trace;
    outcome, trace := ExecuteNetworkRebootFastboot(deadline, first, rounds);
    if outcome.Pending? {
      RetriesFitBeforeDeadline(trace, deadline, first, rounds);
      assert false;
    }
  }
}
