/** What happens to a row after its worker failed: retry, dead letter, drop
    (packages/queue/src/queue/worker/recovery.util.ts and with-worker.ts, lines 339-517),
    for configurations without loop options. */
module FailureRecovery {
  import opened Options
  import Backoff

  // ---------------------------------------------------------- configuration

  datatype Policy = Fail | Loop | Custom

  /** `dlq` holds the maximal number of handoff attempts. */
  datatype Config = Config(policyExplicit: bool, policy: Policy, hasLoop: bool, dlq: Option<nat>,
                           retry: Option<Backoff.Retry>)

  datatype ConfigOp = WithLoop(setPolicyLoop: bool) | WithRetry(retry: Backoff.Retry) | WithDlq(maxHandoffAttempts: nat)

  function InitialConfig(onFailure: Option<Policy>): Config {
    Config(onFailure.Some?, onFailure.GetOr(Fail), false, None, None)
  }

  predicate Conflicts(c: Config, op: ConfigOp) {
    match op
    case WithLoop(setPolicyLoop) => setPolicyLoop && (c.retry.Some? || (c.policyExplicit && c.policy != Loop))
    case WithRetry(_) => c.retry.Some? || (c.policyExplicit && c.policy != Fail)
    case WithDlq(_) => false
  }

  /** A conflicting option throws and leaves the configuration as it was. */
  function Configured(c: Config, op: ConfigOp): Config {
    if Conflicts(c, op) then c
    else
      match op
      case WithLoop(setPolicyLoop) =>
        if setPolicyLoop then c.(policy := Loop, policyExplicit := true, hasLoop := true) else c.(hasLoop := true)
      case WithRetry(retry) => c.(policy := Fail, policyExplicit := true, retry := Some(retry))
      case WithDlq(n) => c.(dlq := Some(n))
  }

  function ConfiguredAll(c: Config, ops: seq<ConfigOp>): Config {
    if ops == [] then c else Configured(ConfiguredAll(c, ops[..|ops| - 1]), ops[|ops| - 1])
  }

  /** Retry pins the fail policy, loop options pin the loop policy. */
  ghost predicate Coherent(c: Config) {
    && (c.retry.Some? ==> c.policyExplicit && c.policy == Fail)
    && (c.hasLoop ==> c.policyExplicit && c.policy == Loop)
  }

  /** `withLoop` always sets the policy; then retry and loop options never coexist. */
  lemma {:induction false} RetryExcludesLoop(onFailure: Option<Policy>, ops: seq<ConfigOp>)
    requires forall op :: op in ops && op.WithLoop? ==> op.setPolicyLoop
    ensures var c := ConfiguredAll(InitialConfig(onFailure), ops);
      Coherent(c) && !(c.retry.Some? && c.hasLoop)
  {
    if ops != [] {
      RetryExcludesLoop(onFailure, ops[..|ops| - 1]);
    }
  }

  /** Setting loop options without the policy breaks the exclusion unless the policy is already pinned. */
  lemma LoopOptionsStayExclusiveIff(c: Config, setPolicyLoop: bool)
    requires Coherent(c)
    ensures Coherent(Configured(c, WithLoop(setPolicyLoop)))
       <==> setPolicyLoop || (c.policyExplicit && c.policy == Loop)
  {
  }

  class RecoveryConfig {
    var policyExplicit: bool
    var policy: Policy
    var hasLoop: bool
    var dlq: Option<nat>
    var retry: Option<Backoff.Retry>

    function State(): Config
      reads this
    {
      Config(policyExplicit, policy, hasLoop, dlq, retry)
    }

    constructor (onFailure: Option<Policy>)
      ensures State() == InitialConfig(onFailure)
    {
      policyExplicit, policy := onFailure.Some?, onFailure.GetOr(Fail);
      hasLoop, dlq, retry := false, None, None;
    }

    method ConfigureLoop(setPolicyLoop: bool) returns (ok: bool)
      modifies this
      ensures ok == !Conflicts(old(State()), WithLoop(setPolicyLoop))
      ensures ok <==> setPolicyLoop ==> old(retry).None? && (old(policyExplicit) ==> old(policy) == Loop)
      ensures ok ==> hasLoop && (setPolicyLoop ==> policy == Loop && policyExplicit)
      ensures retry == old(retry) && dlq == old(dlq)
      ensures State() == Configured(old(State()), WithLoop(setPolicyLoop))
    {
      if setPolicyLoop {
        if retry.Some? || (policyExplicit && policy != Loop) {
          return false;
        }
        policy := Loop;
        policyExplicit := true;
      }
      hasLoop := true;
      ok := true;
    }

    method ConfigureRetry(options: Backoff.Retry) returns (ok: bool)
      modifies this
      ensures ok == !Conflicts(old(State()), WithRetry(options))
      ensures ok <==> old(retry).None? && (old(policyExplicit) ==> old(policy) == Fail)
      ensures ok ==> retry == Some(options) && policy == Fail && policyExplicit
      ensures hasLoop == old(hasLoop) && dlq == old(dlq)
      ensures State() == Configured(old(State()), WithRetry(options))
    {
      if retry.Some? || (policyExplicit && policy != Fail) {
        return false;
      }
      policy := Fail;
      policyExplicit := true;
      retry := Some(options);
      ok := true;
    }

    method ConfigureDlq(maxHandoffAttempts: nat)
      modifies this
      ensures State() == Configured(old(State()), WithDlq(maxHandoffAttempts))
      ensures dlq == Some(maxHandoffAttempts) && retry == old(retry) && hasLoop == old(hasLoop)
      ensures policy == old(policy) && policyExplicit == old(policyExplicit)
    {
      dlq := Some(maxHandoffAttempts);
    }
  }

  // ------------------------------------------------------- one failed delivery

  /** What user code and the dead-letter destination answered. */
  datatype Outcome = Outcome(classifiesRetry: bool, filterPasses: bool, handoffWorks: bool)

  /** A row whose lease was lost is another holder's. */
  datatype Next = Settled | Redelivered(attempt: nat, handoff: nat) | NotHeld

  function MaxAttempts(c: Config): nat {
    if c.retry.Some? then c.retry.value.maxAttempts else 1
  }

  function MaxHandoffs(c: Config): nat {
    if c.dlq.Some? then c.dlq.value else 1
  }

  /** The fail policy without loop options: the path modelled below. Retry always implies it. */
  predicate FailPath(c: Config) {
    c.policy == Fail && !c.hasLoop
  }

  /** Retry is on, the classifier agrees and attempts are left. */
  ghost predicate Retries(c: Config, attempt: nat, o: Outcome) {
    c.retry.Some? && o.classifiesRetry && attempt < c.retry.value.maxAttempts
  }

  /** A failed delivery of a row whose lease carries `attempt` and `handoff`. */
  ghost function FailedDelivery(c: Config, attempt: nat, handoff: nat, o: Outcome): Next
    requires FailPath(c)
  {
    if Retries(c, attempt, o) then Redelivered(attempt + 1, handoff)
    else if c.dlq.Some? && o.filterPasses && !o.handoffWorks && handoff + 1 < c.dlq.value
    then Redelivered(attempt, handoff + 1)
    else Settled
  }

  function Above(limit: int, x: int): nat {
    if x < limit then limit - x else 0
  }

  function Measure(c: Config, attempt: nat, handoff: nat): nat {
    Above(MaxAttempts(c), attempt) + Above(MaxHandoffs(c) - 1, handoff)
  }

  /** Every failed delivery settles the row or strictly lowers the measure. */
  lemma MeasureDecreases(c: Config, attempt: nat, handoff: nat, o: Outcome)
    requires FailPath(c)
    ensures var next := FailedDelivery(c, attempt, handoff, o);
      next.Redelivered? ==> Measure(c, next.attempt, next.handoff) < Measure(c, attempt, handoff)
  {
  }

  /** The row after a run of failed deliveries. */
  ghost function AfterFailures(c: Config, attempt: nat, handoff: nat, outcomes: seq<Outcome>): Next
    requires FailPath(c)
    decreases |outcomes|
  {
    if outcomes == [] then Redelivered(attempt, handoff)
    else
      var next := FailedDelivery(c, attempt, handoff, outcomes[0]);
      if next.Redelivered? then AfterFailures(c, next.attempt, next.handoff, outcomes[1..]) else next
  }

  lemma {:induction false} FailuresLowerMeasure(c: Config, attempt: nat, handoff: nat, outcomes: seq<Outcome>)
    requires FailPath(c)
    ensures !AfterFailures(c, attempt, handoff, outcomes).NotHeld?
    ensures var next := AfterFailures(c, attempt, handoff, outcomes);
      next.Redelivered? ==> Measure(c, next.attempt, next.handoff) + |outcomes| <= Measure(c, attempt, handoff)
    decreases |outcomes|
  {
    if outcomes != [] {
      var next := FailedDelivery(c, attempt, handoff, outcomes[0]);
      if next.Redelivered? {
        MeasureDecreases(c, attempt, handoff, outcomes[0]);
        FailuresLowerMeasure(c, next.attempt, next.handoff, outcomes[1..]);
      }
    }
  }

  /** A fresh row is delivered at most maxAttempts + maxHandoffs - 1 times, whatever
      the worker, the classifier, the filter and the destination do. */
  lemma DeliveriesAreBounded(c: Config, outcomes: seq<Outcome>)
    requires Coherent(c) && (c.retry.Some? || FailPath(c))
    requires MaxAttempts(c) >= 1 && MaxHandoffs(c) >= 1
    requires |outcomes| >= MaxAttempts(c) + MaxHandoffs(c) - 1
    ensures AfterFailures(c, 1, 0, outcomes) == Settled
  {
    FailuresLowerMeasure(c, 1, 0, outcomes);
  }

  /** Retry until exhausted, then fail every handoff. */
  lemma {:induction false} AlwaysFailing(c: Config, attempt: nat, handoff: nat, n: nat)
    requires FailPath(c) && attempt >= 1 && Measure(c, attempt, handoff) >= n
    ensures AfterFailures(c, attempt, handoff, seq(n, _ => Outcome(true, true, false))).Redelivered?
    decreases n
  {
    if n > 0 {
      var next := FailedDelivery(c, attempt, handoff, Outcome(true, true, false));
      assert seq(n, _ => Outcome(true, true, false))[1..] == seq(n - 1, _ => Outcome(true, true, false));
      AlwaysFailing(c, next.attempt, next.handoff, n - 1);
    }
  }

  /** The bound is reached: one failure fewer can leave the row still to be delivered. */
  lemma BoundIsReached(c: Config)
    requires FailPath(c)
    requires MaxAttempts(c) >= 1 && MaxHandoffs(c) >= 1
    ensures exists outcomes: seq<Outcome> ::
      |outcomes| == MaxAttempts(c) + MaxHandoffs(c) - 2 && AfterFailures(c, 1, 0, outcomes).Redelivered?
  {
    var n := MaxAttempts(c) + MaxHandoffs(c) - 2;
    AlwaysFailing(c, 1, 0, n);
    var outcomes := seq(n, _ => Outcome(true, true, false));
    assert |outcomes| == n;
  }

  // ------------------------------------------------------------------ worker

  /** What a settling call on the queue answers. */
  datatype Answer = Works | LeaseLost | OtherError

  /** Calls the worker makes on the queue and on the dead-letter destination. */
  datatype Effect =
    | Acked | AckFailed(answer: Answer)
    | Rescheduled(attempt: nat, handoff: nat, delayed: bool) | RescheduleFailed(answer: Answer)
    | Released
    | DeadLetterAccepted | DeadLetterRefused | DeadLetterFiltered

  /** An ack gives the row up only after its fate was settled in the same failed delivery: the
      destination took it, the filter dropped it, or the last allowed handoff was tried and refused. */
  ghost predicate AcksAreJustified(c: Config, handoff: nat, effects: seq<Effect>, from: nat) {
    forall i :: from <= i < |effects| && effects[i] == Acked ==>
      || c.dlq.None?
      || (exists j :: from <= j < i && effects[j] in {DeadLetterAccepted, DeadLetterFiltered})
      || (handoff + 1 >= c.dlq.value && exists j :: from <= j < i && effects[j] == DeadLetterRefused)
  }

  /** What a settled call did to the row, as its caller reports it: acknowledged, or put back, with a
      delay, under just these counts. */
  ghost predicate Did(e: Effect, next: Next) {
    match next
    case Settled => e == Acked
    case Redelivered(attempt, handoff) => e == Rescheduled(attempt, handoff, true)
    case NotHeld => false
  }

  /** The call that failed last, and why. */
  ghost predicate Failing(e: Effect, answer: Answer) {
    !answer.Works? && (e.AckFailed? || e.RescheduleFailed?) && (answer.LeaseLost? ==> e.answer.LeaseLost?)
  }

  /** The row that the queue delivers next, as the last call on the queue left it. */
  function RowAfter(e: Effect, attempt: nat, handoff: nat): Next {
    match e
    case Acked => Settled
    case Rescheduled(a, h, _) => Redelivered(a, h)
    case Released => Redelivered(attempt, handoff)
    case _ => NotHeld
  }

  class FailureHandler {
    const config: Config
    /** No store failure and no lost lease. */
    const reliable: bool
    var effects: seq<Effect>

    constructor (config: Config, reliable: bool)
      requires FailPath(config)
      ensures this.config == config && this.reliable == reliable && effects == []
    {
      this.config, this.reliable, effects := config, reliable, [];
    }

    method QueueAnswers() returns (answer: Answer)
      ensures reliable ==> answer.Works?
    {
      answer := *;
      answer := if reliable then Works else answer;
    }

    method SettleAck() returns (answer: Answer)
      modifies this
      ensures reliable ==> answer.Works?
      ensures effects == old(effects) + [if answer.Works? then Acked else AckFailed(answer)]
    {
      answer := QueueAnswers();
      effects := effects + [if answer.Works? then Acked else AckFailed(answer)];
    }

    method SettleReschedule(attempt: nat, handoff: nat, delayed: bool) returns (answer: Answer)
      modifies this
      ensures reliable ==> answer.Works?
      ensures effects == old(effects) + [if answer.Works? then Rescheduled(attempt, handoff, delayed)
                                         else RescheduleFailed(answer)]
    {
      answer := QueueAnswers();
      effects := effects + [if answer.Works? then Rescheduled(attempt, handoff, delayed) else RescheduleFailed(answer)];
    }

    /** The loop path with an overridden item, which turns every failure into an error of its own. */
    method LoopBack(attempt: nat, handoff: nat) returns (answer: Answer)
      modifies this
      ensures reliable ==> answer.Works?
      ensures !answer.LeaseLost? && |effects| == |old(effects)| + 1 && old(effects) <= effects
      ensures var last := effects[|effects| - 1];
        if answer.Works? then last == Rescheduled(attempt, handoff, true) else Failing(last, answer)
      ensures !effects[|effects| - 1].Acked?
    {
      answer := SettleReschedule(attempt, handoff, true);
      answer := if answer.LeaseLost? then OtherError else answer;
    }

    /** The filter and the handoff; the destination's answer, then the ack. */
    method HandOff(o: Outcome) returns (thrown: bool)
      modifies this
      ensures reliable ==> thrown == (o.filterPasses && !o.handoffWorks)
      ensures old(effects) <= effects && |effects| > |old(effects)|
      ensures effects[|old(effects)|] ==
        (if !o.filterPasses then DeadLetterFiltered else if o.handoffWorks then DeadLetterAccepted
         else DeadLetterRefused)
      ensures thrown ==> forall i :: |old(effects)| <= i < |effects| ==> effects[i] != Acked
      ensures !thrown ==> |effects| == |old(effects)| + 2 && effects[|old(effects)| + 1] == Acked
      ensures !thrown ==> !effects[|old(effects)|].DeadLetterRefused?
    {
      thrown := true;
      if !o.filterPasses {
        effects := effects + [DeadLetterFiltered];
        var answer := SettleAck();
        thrown := !answer.Works?;
      } else if o.handoffWorks {
        effects := effects + [DeadLetterAccepted];
        var answer := SettleAck();
        thrown := !answer.Works?;
      } else {
        effects := effects + [DeadLetterRefused];
      }
    }

    /** Fail path; it throws unless the answer is that all works. */
    method ApplyFail(attempt: nat, handoff: nat, o: Outcome) returns (answer: Answer, next: Next)
      requires FailPath(config)
      modifies this
      ensures reliable ==> answer.Works? && next == FailedDelivery(config.(retry := None), attempt, handoff, o)
      ensures old(effects) <= effects && |effects| > |old(effects)|
      ensures var last := effects[|effects| - 1]; if answer.Works? then Did(last, next) else Failing(last, answer)
      ensures answer.Works? && next.Redelivered? ==> next == Redelivered(attempt, handoff + 1)
      ensures AcksAreJustified(config, handoff, effects, |old(effects)|)
    {
      next := Settled;
      if config.dlq.None? {
        answer := SettleAck();
        return;
      }
      var thrown := HandOff(o);
      if !thrown {
        return Works, Settled;
      }
      assert effects[|old(effects)|] in {DeadLetterAccepted, DeadLetterFiltered, DeadLetterRefused};
      var handoffAttempt := handoff + 1;
      if handoffAttempt >= config.dlq.value {
        ghost var before := effects;
        answer := SettleAck();
        assert effects[|old(effects)|] == before[|old(effects)|];
        return;
      }
      answer := LoopBack(attempt, handoffAttempt);
      next := Redelivered(attempt, handoffAttempt);
    }

    /** Retry, or else the fail path. Where the call went through, the last call on the queue was an
        ack of a settled row, or put the row back with a delay under the counts reported. */
    method ApplyRecovery(attempt: nat, handoff: nat, o: Outcome) returns (answer: Answer, next: Next)
      requires FailPath(config)
      modifies this
      ensures reliable ==> answer.Works? && next == FailedDelivery(config, attempt, handoff, o)
      ensures old(effects) <= effects && |effects| > |old(effects)|
      ensures var last := effects[|effects| - 1]; if answer.Works? then Did(last, next) else Failing(last, answer)
      ensures answer.Works? && next.Redelivered? ==>
        next == if config.retry.Some? && o.classifiesRetry && attempt < config.retry.value.maxAttempts
                then Redelivered(attempt + 1, handoff) else Redelivered(attempt, handoff + 1)
      ensures answer.Works? && next.Settled? && config.retry.Some? ==>
        !o.classifiesRetry || attempt >= config.retry.value.maxAttempts
      ensures AcksAreJustified(config, handoff, effects, |old(effects)|)
    {
      if config.retry.Some? && o.classifiesRetry && attempt < config.retry.value.maxAttempts {
        answer := SettleReschedule(attempt + 1, handoff, true);
        next := Redelivered(attempt + 1, handoff);
        return;
      }
      answer, next := ApplyFail(attempt, handoff, o);
    }

    /** Recovery, then a release of the lease when recovery failed for any reason but a lost lease. */
    method FailLease(attempt: nat, handoff: nat, o: Outcome) returns (next: Next)
      requires FailPath(config)
      modifies this
      ensures reliable ==> next == FailedDelivery(config, attempt, handoff, o)
      ensures old(effects) <= effects && |effects| > |old(effects)|
      ensures var last := effects[|effects| - 1];
        match next
        case NotHeld => Failing(last, LeaseLost)
        case Settled => last == Acked
        case Redelivered(a, h) =>
          || last == Rescheduled(a, h, true)
          || (last == Released && a == attempt && h == handoff
              && |effects| > |old(effects)| + 1 && Failing(effects[|effects| - 2], OtherError))
      ensures AcksAreJustified(config, handoff, effects, |old(effects)|)
    {
      var answer;
      answer, next := ApplyRecovery(attempt, handoff, o);
      if answer.OtherError? {
        ghost var before := effects;
        effects := effects + [Released];
        assert forall j :: 0 <= j < |before| ==> effects[j] == before[j];
        next := Redelivered(attempt, handoff);
      } else if answer.LeaseLost? {
        next := NotHeld;
      }
    }
  }

  function First(outcomes: nat -> Outcome, n: nat): seq<Outcome> {
    seq(n, i requires 0 <= i < n => outcomes(i))
  }

  /** A row that fails every delivery, on a reliable queue: it is delivered as the last call on
      the queue left it, and the loop of deliveries ends in time. */
  method DeliverUntilSettled(c: Config, outcomes: nat -> Outcome) returns (deliveries: nat)
    requires Coherent(c) && (c.retry.Some? || FailPath(c))
    requires MaxAttempts(c) >= 1 && MaxHandoffs(c) >= 1
    ensures 1 <= deliveries <= MaxAttempts(c) + MaxHandoffs(c) - 1
    ensures AfterFailures(c, 1, 0, First(outcomes, deliveries)) == Settled
  {
    var handler := new FailureHandler(c, true);
    var row := Redelivered(1, 0);
    deliveries := 0;
    while row.Redelivered?
      invariant deliveries == 0 ==> row == Redelivered(1, 0)
      invariant row.Redelivered? ==>
        deliveries + Measure(c, row.attempt, row.handoff) <= MaxAttempts(c) + MaxHandoffs(c) - 2
      invariant deliveries <= MaxAttempts(c) + MaxHandoffs(c) - 1
      invariant handler.config == c && handler.reliable && !row.NotHeld?
      invariant row == AfterFailures(c, 1, 0, First(outcomes, deliveries))
      decreases if row.Redelivered? then Measure(c, row.attempt, row.handoff) + 1 else 0
    {
      var o := outcomes(deliveries);
      MeasureDecreases(c, row.attempt, row.handoff, o);
      OneMoreFailure(c, 1, 0, First(outcomes, deliveries), o);
      assert First(outcomes, deliveries + 1) == First(outcomes, deliveries) + [o];
      var next := handler.FailLease(row.attempt, row.handoff, o);
      row := RowAfter(handler.effects[|handler.effects| - 1], row.attempt, row.handoff);
      deliveries := deliveries + 1;
    }
  }

  lemma {:induction false} OneMoreFailure(c: Config, attempt: nat, handoff: nat, outcomes: seq<Outcome>, o: Outcome)
    requires FailPath(c) && AfterFailures(c, attempt, handoff, outcomes).Redelivered?
    ensures var row := AfterFailures(c, attempt, handoff, outcomes);
      AfterFailures(c, attempt, handoff, outcomes + [o]) == FailedDelivery(c, row.attempt, row.handoff, o)
    decreases |outcomes|
  {
    if outcomes == [] {
      assert ([o])[1..] == [];
    } else {
      var next := FailedDelivery(c, attempt, handoff, outcomes[0]);
      assert (outcomes + [o])[1..] == outcomes[1..] + [o];
      OneMoreFailure(c, next.attempt, next.handoff, outcomes[1..], o);
    }
  }
}
