/**
 * Flashing a plan of parts to every slot of a partition: all parts in order to
 * one partition before the next, cumulative progress, and set_active last.
 */
module FlashLoop {
  import opened Common
  import opened Progress
  import opened Statuses

  const TWO_64 := U64_MAX + 1

  /** Addition and multiplication of unsigned 64-bit numbers. */
  function Add64(a: nat, b: nat): nat {
    if a + b <= U64_MAX then a + b else a + b - TWO_64
  }

  function Mul64(a: nat, b: nat): nat {
    (a * b) % TWO_64
  }

  datatype PrimitiveOperation = Download | Flash

  /** What one download-and-flash does: the progress it reports for itself, and how it ends. */
  datatype Attempt =
    | Completes(progress: seq<nat>)
    | Fails(progress: seq<nat>, operation: PrimitiveOperation, state: TransferState)

  datatype Event =
    | Report(completed: nat, total: nat)
    | Flashed(partition: string, part: nat, ok: bool)
    | Activate(slot: string)

  datatype Outcome =
    | Succeeded | TooLarge | Cancelled(state: TransferState)
    | Failed(state: TransferState) | ActivationFailed(state: TransferState)

  /** Replies by partition and part, cancellations, reports that stop the operation, and how set_active fails. */
  datatype World = World(
    attempt: (nat, nat) -> Attempt,
    cancelledBefore: bool, stoppedAtStart: bool, cancelledAfter: bool, cancelledAtEnd: bool, stoppedAtEnd: bool,
    activation: Option<TransferState>)

  /** Each source's own progress rises and stays within its size. */
  ghost predicate WellBehaved(w: World, sizes: seq<nat>) {
    forall p: nat, j: nat :: j < |sizes| ==> Monotone(w.attempt(p, j).progress, 0, sizes[j])
  }

  function Sum(sizes: seq<nat>): nat {
    if sizes == [] then 0 else Sum(sizes[..|sizes| - 1]) + sizes[|sizes| - 1]
  }

  // ----- What a log says

  datatype Send = Send(partition: string, part: nat)

  function Sends(log: seq<Event>): seq<Send> {
    if log == [] then []
    else
      var last := log[|log| - 1];
      Sends(log[..|log| - 1]) + if last.Flashed? then [Send(last.partition, last.part)] else []
  }

  function Reports(log: seq<Event>): seq<nat> {
    if log == [] then []
    else
      var last := log[|log| - 1];
      Reports(log[..|log| - 1]) + if last.Report? then [last.completed] else []
  }

  lemma {:induction false} LogSplit(a: seq<Event>, b: seq<Event>)
    ensures Sends(a + b) == Sends(a) + Sends(b) && Reports(a + b) == Reports(a) + Reports(b)
  {
    if b == [] {
      assert a + b == a;
    } else {
      LogSplit(a, b[..|b| - 1]);
      assert (a + b)[..|a + b| - 1] == a + b[..|b| - 1];
    }
  }

  /** All parts in order. */
  function Block(partition: string, parts: nat): seq<Send> {
    seq(parts, j requires 0 <= j => Send(partition, j))
  }

  /** Partition after partition, each with all parts in order. */
  function Expected(partitions: seq<string>, parts: nat): seq<Send> {
    if partitions == [] then []
    else Expected(partitions[..|partitions| - 1], parts) + Block(partitions[|partitions| - 1], parts)
  }

  lemma {:induction false} ExpectedPrefix(partitions: seq<string>, parts: nat, p: nat)
    requires p <= |partitions|
    ensures Expected(partitions[..p], parts) <= Expected(partitions, parts)
  {
    if p < |partitions| {
      var init := partitions[..|partitions| - 1];
      ExpectedPrefix(init, parts, p);
      assert init[..p] == partitions[..p];
    } else {
      assert partitions[..p] == partitions;
    }
  }

  /** Every part but the one tried last has been flashed, and nothing follows a failure. */
  predicate StopsAtFailure(log: seq<Event>) {
    forall i :: 0 <= i < |log| && log[i].Flashed? && !log[i].ok ==> i == |log| - 1
  }

  predicate AllOk(log: seq<Event>) {
    forall i :: 0 <= i < |log| && log[i].Flashed? ==> log[i].ok
  }

  // ----- How much of a failed flash is known to have been sent

  function AccumulateTransferState(state: TransferState, operation: PrimitiveOperation,
                                   before: nat, size: nat, total: nat): TransferState
  {
    if state == PartialOrUnknown || before > total || size > total - before then PartialOrUnknown
    else
      var known := before + if operation == Flash || state == FullyTransferred then size else 0;
      if known == 0 then NotSent else if known == total then FullyTransferred else PartialOrUnknown
  }

  /** Bytes of the parts that were flashed successfully. */
  function Confirmed(log: seq<Event>, sizes: seq<nat>): nat {
    if log == [] then 0
    else
      var last := log[|log| - 1];
      Confirmed(log[..|log| - 1], sizes)
      + if last.Flashed? && last.ok && last.part < |sizes| then sizes[last.part] else 0
  }

  lemma {:induction false} ConfirmedSplit(a: seq<Event>, b: seq<Event>, sizes: seq<nat>)
    ensures Confirmed(a + b, sizes) == Confirmed(a, sizes) + Confirmed(b, sizes)
  {
    if b == [] {
      assert a + b == a;
    } else {
      ConfirmedSplit(a, b[..|b| - 1], sizes);
      assert (a + b)[..|a + b| - 1] == a + b[..|b| - 1];
    }
  }

  // ----- One part

  /** The source's own progress, counted from the bytes before it. */
  function ReportLog(progress: seq<nat>, before: nat, total: nat): seq<Event> {
    seq(|progress|, i requires 0 <= i < |progress| => Report(Add64(before, progress[i]), total))
  }

  function PartLog(a: Attempt, partition: string, part: nat, before: nat, total: nat): seq<Event> {
    ReportLog(a.progress, before, total) + [Flashed(partition, part, a.Completes?)]
  }

  lemma {:induction false} ReportLogFacts(progress: seq<nat>, before: nat, total: nat, sizes: seq<nat>)
    ensures Sends(ReportLog(progress, before, total)) == []
    ensures Confirmed(ReportLog(progress, before, total), sizes) == 0
    ensures (forall i :: 0 <= i < |progress| ==> before + progress[i] <= U64_MAX) ==>
              Reports(ReportLog(progress, before, total)) == Shift(progress, before)
  {
    if progress != [] {
      var init := progress[..|progress| - 1];
      var log := ReportLog(progress, before, total);
      assert log[..|log| - 1] == ReportLog(init, before, total);
      ReportLogFacts(init, before, total, sizes);
      if forall i :: 0 <= i < |progress| ==> before + progress[i] <= U64_MAX {
        assert forall i :: 0 <= i < |init| ==> init[i] == progress[i];
        assert Shift(progress, before) == Shift(init, before) + [before + progress[|progress| - 1]];
      }
    }
  }

  lemma PartLogFacts(a: Attempt, partition: string, part: nat, before: nat, total: nat, sizes: seq<nat>)
    requires part < |sizes| && before + sizes[part] <= U64_MAX
    ensures var log := PartLog(a, partition, part, before, total);
            && Sends(log) == [Send(partition, part)]
            && Confirmed(log, sizes) == (if a.Completes? then sizes[part] else 0)
            && (Monotone(a.progress, 0, sizes[part]) ==> Reports(log) == Shift(a.progress, before))
  {
    var reports, flashed := ReportLog(a.progress, before, total), [Flashed(partition, part, a.Completes?)];
    ReportLogFacts(a.progress, before, total, sizes);
    LogSplit(reports, flashed);
    ConfirmedSplit(reports, flashed, sizes);
    assert flashed[..0] == [];
  }

  // ----- The loop

  /** Bytes sent before part j of partition p. */
  function Bytes(sizes: seq<nat>, p: nat, j: nat): nat
    requires j <= |sizes|
  {
    p * Sum(sizes) + Sum(sizes[..j])
  }

  lemma {:induction false} SumPrefix(sizes: seq<nat>, j: nat)
    requires j <= |sizes|
    ensures Sum(sizes[..j]) <= Sum(sizes)
    ensures j < |sizes| ==> Sum(sizes[..j + 1]) == Sum(sizes[..j]) + sizes[j]
  {
    if j < |sizes| {
      assert sizes[..j + 1][..j] == sizes[..j];
      var init := sizes[..|sizes| - 1];
      SumPrefix(init, j);
      assert init[..j] == sizes[..j];
    } else {
      assert sizes[..j] == sizes;
    }
  }

  lemma BytesStep(sizes: seq<nat>, p: nat, j: nat, n: nat)
    requires j < |sizes| && p < n
    ensures Bytes(sizes, p, j + 1) == Bytes(sizes, p, j) + sizes[j] <= n * Sum(sizes)
  {
    SumPrefix(sizes, j);
    SumPrefix(sizes, j + 1);
    Times(p + 1, n, Sum(sizes));
    assert (p + 1) * Sum(sizes) == p * Sum(sizes) + Sum(sizes);
  }

  lemma Times(a: nat, b: nat, s: nat)
    requires a <= b
    ensures a * s <= b * s
  {
    assert b * s == a * s + (b - a) * s;
  }

  lemma BytesNext(sizes: seq<nat>, p: nat)
    ensures Bytes(sizes, p, |sizes|) == Bytes(sizes, p + 1, 0)
  {
    assert sizes[..|sizes|] == sizes && sizes[..0] == [];
    assert (p + 1) * Sum(sizes) == p * Sum(sizes) + Sum(sizes);
  }

  predicate Quiet(log: seq<Event>) {
    forall i :: 0 <= i < |log| ==> !log[i].Activate?
  }

  /** The sends that come before part j of partition p. */
  function SentBefore(partitions: seq<string>, parts: nat, p: nat, j: nat): seq<Send>
    requires p <= |partitions| && j <= parts
  {
    Expected(partitions[..p], parts) + if p < |partitions| then Block(partitions[p], parts)[..j] else []
  }

  lemma SentStep(partitions: seq<string>, parts: nat, p: nat, j: nat)
    requires p < |partitions| && j < parts
    ensures SentBefore(partitions, parts, p, j) + [Send(partitions[p], j)] == SentBefore(partitions, parts, p, j + 1)
    ensures SentBefore(partitions, parts, p, j + 1) <= Expected(partitions, parts)
  {
    var block := Block(partitions[p], parts);
    assert block[..j] + [Send(partitions[p], j)] == block[..j + 1];
    ExpectedPrefix(partitions, parts, p + 1);
    assert partitions[..p + 1][..p] == partitions[..p];
    assert Expected(partitions[..p + 1], parts) == Expected(partitions[..p], parts) + block;
  }

  lemma SentNext(partitions: seq<string>, parts: nat, p: nat)
    requires p < |partitions|
    ensures SentBefore(partitions, parts, p, parts) == SentBefore(partitions, parts, p + 1, 0)
  {
    var block := Block(partitions[p], parts);
    assert block[..parts] == block;
    assert partitions[..p + 1][..p] == partitions[..p];
  }

  /** Everything before part j of partition p was sent, in order, and nothing else happened. */
  ghost predicate Reached(partitions: seq<string>, sizes: seq<nat>, w: World, log: seq<Event>,
                          p: nat, j: nat, completed: nat)
    requires j <= |sizes| && p <= |partitions|
  {
    && AllOk(log) && Quiet(log)
    && Sends(log) == SentBefore(partitions, |sizes|, p, j)
    && completed == Confirmed(log, sizes) == Bytes(sizes, p, j)
    && (WellBehaved(w, sizes) ==> Monotone(Reports(log), 0, completed))
  }

  lemma PartAppended(log: seq<Event>, a: Attempt, partition: string, part: nat, before: nat, total: nat)
    requires AllOk(log) && Quiet(log)
    ensures var log' := log + PartLog(a, partition, part, before, total);
            Quiet(log') && StopsAtFailure(log') && (a.Completes? ==> AllOk(log'))
  {
  }

  /** What one attempt adds to the log. */
  lemma PartTried(partitions: seq<string>, sizes: seq<nat>, w: World, log: seq<Event>,
                  p: nat, j: nat, completed: nat, total: nat)
    requires p < |partitions| && j < |sizes| && Reached(partitions, sizes, w, log, p, j, completed)
    requires |partitions| * Sum(sizes) <= U64_MAX
    ensures var log' := log + PartLog(w.attempt(p, j), partitions[p], j, completed, total);
            && Sends(log') == SentBefore(partitions, |sizes|, p, j + 1)
            && Confirmed(log', sizes) == completed + (if w.attempt(p, j).Completes? then sizes[j] else 0)
            && (WellBehaved(w, sizes) ==> Monotone(Reports(log'), 0, completed + sizes[j]))
  {
    var a := w.attempt(p, j);
    var more := PartLog(a, partitions[p], j, completed, total);
    BytesStep(sizes, p, j, |partitions|);
    PartLogFacts(a, partitions[p], j, completed, total, sizes);
    LogSplit(log, more);
    ConfirmedSplit(log, more, sizes);
    SentStep(partitions, |sizes|, p, j);
    if WellBehaved(w, sizes) {
      ShiftMonotone(Reports(log), completed, a.progress, sizes[j]);
    }
  }

  lemma PartReached(partitions: seq<string>, sizes: seq<nat>, w: World, log: seq<Event>,
                    p: nat, j: nat, completed: nat, total: nat)
    requires p < |partitions| && j < |sizes| && Reached(partitions, sizes, w, log, p, j, completed)
    requires |partitions| * Sum(sizes) <= U64_MAX && w.attempt(p, j).Completes?
    ensures Reached(partitions, sizes, w, log + PartLog(w.attempt(p, j), partitions[p], j, completed, total),
                    p, j + 1, completed + sizes[j])
    ensures Add64(completed, sizes[j]) == completed + sizes[j]
  {
    PartTried(partitions, sizes, w, log, p, j, completed, total);
    PartAppended(log, w.attempt(p, j), partitions[p], j, completed, total);
    BytesStep(sizes, p, j, |partitions|);
  }

  lemma PartitionReached(partitions: seq<string>, sizes: seq<nat>, w: World, log: seq<Event>, p: nat, completed: nat)
    requires p < |partitions| && Reached(partitions, sizes, w, log, p, |sizes|, completed)
    ensures Reached(partitions, sizes, w, log, p + 1, 0, completed)
  {
    BytesNext(sizes, p);
    SentNext(partitions, |sizes|, p);
  }

  /** What holds of every log, however the flash ends. */
  ghost predicate Orderly(partitions: seq<string>, sizes: seq<nat>, w: World, log: seq<Event>) {
    && StopsAtFailure(log)
    && Sends(log) <= Expected(partitions, |sizes|)
    && (WellBehaved(w, sizes) ==> Monotone(Reports(log), 0, |partitions| * Sum(sizes)))
    && forall i :: 0 <= i < |log| && log[i].Activate? ==>
                     AllOk(log[..i]) && Sends(log[..i]) == Expected(partitions, |sizes|)
  }

  lemma NothingOrderly(partitions: seq<string>, sizes: seq<nat>, w: World)
    ensures Orderly(partitions, sizes, w, [])
  {
  }

  lemma FailureOrderly(partitions: seq<string>, sizes: seq<nat>, w: World, log: seq<Event>,
                       p: nat, j: nat, completed: nat, total: nat)
    requires p < |partitions| && j < |sizes| && Reached(partitions, sizes, w, log, p, j, completed)
    requires |partitions| * Sum(sizes) <= U64_MAX
    ensures Orderly(partitions, sizes, w, log + PartLog(w.attempt(p, j), partitions[p], j, completed, total))
  {
    PartTried(partitions, sizes, w, log, p, j, completed, total);
    PartAppended(log, w.attempt(p, j), partitions[p], j, completed, total);
    BytesStep(sizes, p, j, |partitions|);
    SentStep(partitions, |sizes|, p, j);
  }

  lemma NoWrap(transferSize: nat, n: nat)
    requires n * transferSize <= U64_MAX
    ensures Mul64(transferSize, n) == n * transferSize
  {
    var product := transferSize * n;
    assert product == n * transferSize;
    assert product % TWO_64 == product;
  }

  lemma Fits(transferSize: nat, n: nat)
    requires transferSize <= U64_MAX
    ensures n > 1 && transferSize > U64_MAX / n <==> n * transferSize > U64_MAX
  {
    if n > 0 {
      var q := U64_MAX / n;
      assert q * n <= U64_MAX < q * n + n;
      if transferSize <= q {
        Times(transferSize, q, n);
      } else {
        Times(q + 1, transferSize, n);
        assert (q + 1) * n == q * n + n;
      }
    }
  }

  /** The log after the last part, with set_active and the final report still to come. */
  ghost predicate Sent(partitions: seq<string>, sizes: seq<nat>, w: World, log: seq<Event>) {
    && Orderly(partitions, sizes, w, log) && AllOk(log)
    && Sends(log) == Expected(partitions, |sizes|)
    && Confirmed(log, sizes) == |partitions| * Sum(sizes)
  }

  /** The end of the loop: everything was sent. */
  lemma AllReached(partitions: seq<string>, sizes: seq<nat>, w: World, log: seq<Event>, completed: nat)
    requires Reached(partitions, sizes, w, log, |partitions|, 0, completed)
    ensures completed == |partitions| * Sum(sizes)
    ensures Sent(partitions, sizes, w, log)
  {
    assert partitions[..|partitions|] == partitions && sizes[..0] == [];
  }

  /** Activating or reporting after the last part keeps the log in order. */
  lemma SentExtends(partitions: seq<string>, sizes: seq<nat>, w: World, log: seq<Event>, e: Event)
    requires Sent(partitions, sizes, w, log)
    requires e.Activate? || (e.Report? && e.completed == |partitions| * Sum(sizes))
    ensures Sent(partitions, sizes, w, log + [e])
  {
    var log' := log + [e];
    assert log'[..|log|] == log;
    if WellBehaved(w, sizes) && e.Report? {
      MonotoneSnoc(Reports(log), 0, e.completed, e.completed);
    }
    forall i | 0 <= i < |log'| && log'[i].Activate?
      ensures AllOk(log'[..i]) && Sends(log'[..i]) == Expected(partitions, |sizes|)
    {
      assert log'[..i] == if i == |log| then log else log[..i];
    }
  }

  /** A reported state never denies bytes that were confirmed, nor claims more than was sent. */
  ghost predicate HonestState(state: TransferState, log: seq<Event>, sizes: seq<nat>, total: nat) {
    && (state == NotSent ==> Confirmed(log, sizes) == 0)
    && (state == FullyTransferred ==>
          && log != [] && log[|log| - 1].Flashed? && log[|log| - 1].part < |sizes|
          && Confirmed(log, sizes) <= total <= Confirmed(log, sizes) + sizes[log[|log| - 1].part])
  }

  /** Every part of the first p partitions, and the first j of the next, can be flashed. */
  ghost predicate Flashable(w: World, parts: nat, p: nat, j: nat) {
    && (forall q: nat, k: nat :: q < p && k < parts ==> w.attempt(q, k).Completes?)
    && (forall k: nat :: k < j ==> w.attempt(p, k).Completes?)
  }

  /** The bytes known to have been sent: those confirmed, and the failed part if its download was complete. */
  function KnownSent(a: Attempt, confirmed: nat, size: nat): nat
    requires a.Fails?
  {
    if a.operation == Flash || a.state == FullyTransferred then confirmed + size else confirmed
  }

  /** The state reported for a failed part says exactly what is known. */
  ghost predicate ExactState(state: TransferState, a: Attempt, confirmed: nat, size: nat, total: nat)
    requires a.Fails?
  {
    && (state == NotSent <==> a.state != PartialOrUnknown && KnownSent(a, confirmed, size) == 0)
    && (state == FullyTransferred <==>
          a.state != PartialOrUnknown && KnownSent(a, confirmed, size) == total && total > 0)
  }

  /** The first part that fails, and what is reported for it. */
  ghost predicate FailsAt(partitions: seq<string>, sizes: seq<nat>, w: World, log: seq<Event>, state: TransferState,
                          p: nat, j: nat)
  {
    && p < |partitions| && j < |sizes| && w.attempt(p, j).Fails? && Flashable(w, |sizes|, p, j)
    && Confirmed(log, sizes) == Bytes(sizes, p, j)
    && ExactState(state, w.attempt(p, j), Confirmed(log, sizes), sizes[j], |partitions| * Sum(sizes))
  }

  lemma AccumulatedIsExact(partitions: seq<string>, sizes: seq<nat>, w: World, log: seq<Event>,
                           p: nat, j: nat, completed: nat, total: nat)
    requires p < |partitions| && j < |sizes| && Reached(partitions, sizes, w, log, p, j, completed)
    requires total == |partitions| * Sum(sizes) <= U64_MAX && w.attempt(p, j).Fails?
    ensures var a := w.attempt(p, j);
            && Confirmed(log + PartLog(a, partitions[p], j, completed, total), sizes) == completed == Bytes(sizes, p, j)
            && ExactState(AccumulateTransferState(a.state, a.operation, completed, sizes[j], total), a, completed,
                          sizes[j], total)
  {
    PartTried(partitions, sizes, w, log, p, j, completed, total);
    BytesStep(sizes, p, j, |partitions|);
  }

  lemma AccumulatedIsHonest(partitions: seq<string>, sizes: seq<nat>, w: World, log: seq<Event>,
                            p: nat, j: nat, completed: nat, total: nat)
    requires p < |partitions| && j < |sizes| && Reached(partitions, sizes, w, log, p, j, completed)
    requires |partitions| * Sum(sizes) <= U64_MAX && w.attempt(p, j).Fails?
    ensures var a := w.attempt(p, j);
            HonestState(AccumulateTransferState(a.state, a.operation, completed, sizes[j], total),
                        log + PartLog(a, partitions[p], j, completed, total), sizes, total)
  {
    PartTried(partitions, sizes, w, log, p, j, completed, total);
  }

  /** Every report names the same total. */
  predicate TotalIs(log: seq<Event>, total: nat) {
    forall i :: 0 <= i < |log| && log[i].Report? ==> log[i].total == total
  }

  /** One part: None when it was flashed. */
  method FlashPart(partitions: seq<string>, sizes: seq<nat>, w: World, total: nat, p: nat, j: nat,
                   completed: nat, before: seq<Event>)
    returns (log: seq<Event>, failure: Option<TransferState>)
    requires total == |partitions| * Sum(sizes) <= U64_MAX && p < |partitions| && j < |sizes|
    requires Reached(partitions, sizes, w, before, p, j, completed) && TotalIs(before, total)
    ensures failure.None? <==> w.attempt(p, j).Completes?
    ensures failure.None? ==> Reached(partitions, sizes, w, log, p, j + 1, Add64(completed, sizes[j]))
    ensures failure.Some? ==> Orderly(partitions, sizes, w, log) && HonestState(failure.value, log, sizes, total)
    ensures failure.Some? ==> Confirmed(log, sizes) == Bytes(sizes, p, j)
    ensures failure.Some? ==> ExactState(failure.value, w.attempt(p, j), Confirmed(log, sizes), sizes[j], total)
    ensures before <= log && TotalIs(log, total)
  {
    var a := w.attempt(p, j);
    log := before + PartLog(a, partitions[p], j, completed, total);
    if a.Fails? {
      FailureOrderly(partitions, sizes, w, before, p, j, completed, total);
      AccumulatedIsHonest(partitions, sizes, w, before, p, j, completed, total);
      AccumulatedIsExact(partitions, sizes, w, before, p, j, completed, total);
      return log, Some(AccumulateTransferState(a.state, a.operation, completed, sizes[j], total));
    }
    PartReached(partitions, sizes, w, before, p, j, completed, total);
    failure := None;
  }

  method FlashParts(partitions: seq<string>, sizes: seq<nat>, w: World, total: nat, before: seq<Event>)
    returns (log: seq<Event>, failure: Option<TransferState>)
    requires total == |partitions| * Sum(sizes) <= U64_MAX
    requires Reached(partitions, sizes, w, before, 0, 0, 0) && TotalIs(before, total)
    ensures failure.None? <==> Flashable(w, |sizes|, |partitions|, 0)
    ensures failure.None? ==> Reached(partitions, sizes, w, log, |partitions|, 0, total)
    ensures failure.Some? ==> Orderly(partitions, sizes, w, log) && HonestState(failure.value, log, sizes, total)
    ensures failure.Some? ==> exists p, j :: FailsAt(partitions, sizes, w, log, failure.value, p, j)
    ensures before <= log && TotalIs(log, total)
  {
    log, failure := before, None;
    var completed: nat := 0;
    for p := 0 to |partitions|
      invariant Reached(partitions, sizes, w, log, p, 0, completed) && Flashable(w, |sizes|, p, 0) && before <= log
      invariant TotalIs(log, total)
    {
      for j := 0 to |sizes|
        invariant Reached(partitions, sizes, w, log, p, j, completed) && Flashable(w, |sizes|, p, j) && before <= log
        invariant TotalIs(log, total)
      {
        log, failure := FlashPart(partitions, sizes, w, total, p, j, completed, log);
        if failure.Some? {
          assert FailsAt(partitions, sizes, w, log, failure.value, p, j);
          return;
        }
        completed := Add64(completed, sizes[j]);
      }
      PartitionReached(partitions, sizes, w, log, p, completed);
    }
    AllReached(partitions, sizes, w, log, completed);
    failure := None;
  }

  lemma StartReached(partitions: seq<string>, sizes: seq<nat>, w: World, total: nat)
    ensures Reached(partitions, sizes, w, [Report(0, total)], 0, 0, 0)
  {
    var log := [Report(0, total)];
    assert log[..0] == [] && partitions[..0] == [] && sizes[..0] == [];
    assert Reports(log) == [0];
  }

  lemma StartOrderly(partitions: seq<string>, sizes: seq<nat>, w: World, total: nat)
    ensures Orderly(partitions, sizes, w, [Report(0, total)])
  {
    var log := [Report(0, total)];
    assert log[..0] == [];
    assert Reports(log) == [0] && Sends(log) == [];
  }

  /** After the last part: activate the slot if asked to, then report the end. */
  method FinishFlash(partitions: seq<string>, sizes: seq<nat>, w: World, total: nat, active: Option<string>,
                     before: seq<Event>)
    returns (r: Outcome, log: seq<Event>)
    requires total == |partitions| * Sum(sizes) && Sent(partitions, sizes, w, before) && TotalIs(before, total)
    ensures Sent(partitions, sizes, w, log)
    ensures r.Succeeded?
       <==> !w.cancelledAfter && !w.cancelledAtEnd && !w.stoppedAtEnd && (active.Some? ==> w.activation.None?)
    ensures r.Succeeded? ==> log != [] && log[|log| - 1] == Report(total, total)
    ensures r.Cancelled? ==> r.state == FullyTransferred
    ensures r.Succeeded? && active.Some? ==> Activate(active.value) in log
    ensures !r.Failed? && !r.TooLarge? && before <= log && TotalIs(log, total)
  {
    log := before;
    if w.cancelledAfter { return Cancelled(FullyTransferred), log; }
    if active.Some? {
      SentExtends(partitions, sizes, w, log, Activate(active.value));
      log := log + [Activate(active.value)];
      if w.activation.Some? { return ActivationFailed(w.activation.value), log; }
    }
    if w.cancelledAtEnd { return Cancelled(FullyTransferred), log; }
    SentExtends(partitions, sizes, w, log, Report(total, total));
    log := log + [Report(total, total)];
    r := if w.stoppedAtEnd then Cancelled(FullyTransferred) else Succeeded;
  }

  /**
   * The whole operation. `transferSize` is what the plan says its parts add up to; `active` is the slot to
   * activate afterwards.
   */
  method FlashAll(partitions: seq<string>, sizes: seq<nat>, transferSize: nat, active: Option<string>, w: World)
    returns (r: Outcome, log: seq<Event>)
    requires transferSize == Sum(sizes) <= U64_MAX
    ensures r.TooLarge? <==> |partitions| * Sum(sizes) > U64_MAX
    ensures r.Succeeded?
       <==> && |partitions| * Sum(sizes) <= U64_MAX && Flashable(w, |sizes|, |partitions|, 0)
            && !w.cancelledBefore && !w.stoppedAtStart && !w.cancelledAfter && !w.cancelledAtEnd && !w.stoppedAtEnd
            && (active.Some? ==> w.activation.None?)
    ensures Orderly(partitions, sizes, w, log) && TotalIs(log, |partitions| * Sum(sizes))
    ensures r.Cancelled? && r.state != FullyTransferred ==>
              log == if w.cancelledBefore then [] else [Report(0, |partitions| * Sum(sizes))]
    ensures !r.TooLarge? && !w.cancelledBefore ==> log != [] && log[0] == Report(0, |partitions| * Sum(sizes))
    ensures r.ActivationFailed? || (r.Cancelled? && r.state == FullyTransferred) ==> Sent(partitions, sizes, w, log)
    ensures r.Succeeded? ==> Sent(partitions, sizes, w, log) && log != []
    ensures r.Succeeded? ==> log[|log| - 1] == Report(|partitions| * Sum(sizes), |partitions| * Sum(sizes))
    ensures r.Succeeded? && active.Some? ==> Activate(active.value) in log
    ensures r.Failed? ==> HonestState(r.state, log, sizes, |partitions| * Sum(sizes))
    ensures r.Failed? ==> exists p, j :: FailsAt(partitions, sizes, w, log, r.state, p, j)
  {
    Fits(transferSize, |partitions|);
    NothingOrderly(partitions, sizes, w);
    if |partitions| > 1 && transferSize > U64_MAX / |partitions| { return TooLarge, []; }
    var total := Mul64(transferSize, |partitions|);
    NoWrap(transferSize, |partitions|);
    if w.cancelledBefore { return Cancelled(NotSent), []; }
    StartReached(partitions, sizes, w, total);
    if w.stoppedAtStart {
      StartOrderly(partitions, sizes, w, total);
      return Cancelled(NotSent), [Report(0, total)];
    }
    var failure;
    log, failure := FlashParts(partitions, sizes, w, total, [Report(0, total)]);
    if failure.Some? { return Failed(failure.value), log; }
    AllReached(partitions, sizes, w, log, total);
    r, log := FinishFlash(partitions, sizes, w, total, active, log);
  }
}
