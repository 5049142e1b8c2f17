/** What runs of answers do to an instance's breaker and to the counters. An upstream has failed to
    answer if the error handler ran or a status of 500 or more was written, and in no other case. */
module Answers {
  import opened CircuitBreaker
  import opened BreakerRuns
  import opened Proxy
  import opened Sequences

  /** The books after answers from the instance at this address, in order. */
  function After(o: Options, addr: string, b: Books, answers: seq<Answer>): Books {
    if answers == [] then b else Booked(o, addr, After(o, addr, b, Front(answers)), Last(answers))
  }

  // ----- Counters -----

  function ServerErrors(answers: seq<Answer>): nat {
    if answers == [] then 0 else
      ServerErrors(Front(answers)) + if Last(answers).errored || Last(answers).status >= 500 then 1 else 0
  }

  /** Every answer counts once, on the right side, for its own address and for no other. */
  lemma {:induction false} EveryAnswerCounts(o: Options, addr: string, b: Books, answers: seq<Answer>)
    ensures var after := After(o, addr, b, answers);
            && Total(after.failures, addr) == Total(b.failures, addr) + ServerErrors(answers)
            && Total(after.successes, addr) + ServerErrors(answers)
               == Total(b.successes, addr) + |answers|
            && forall other :: other != addr ==>
                 && Total(after.failures, other) == Total(b.failures, other)
                 && Total(after.successes, other) == Total(b.successes, other)
  {
    if answers != [] {
      EveryAnswerCounts(o, addr, b, Front(answers));
    }
  }

  // ----- The breaker -----

  /** Answers below 500 keep a CLOSED breaker CLOSED, clear its streak, and count no failure. */
  lemma {:induction false} GoodAnswersKeepClosed(o: Options, addr: string, b: Books, answers: seq<Answer>)
    requires b.breaker.state == Closed
    requires forall i :: 0 <= i < |answers| ==> !answers[i].errored && answers[i].status < 500
    ensures var after := After(o, addr, b, answers);
            && after.breaker.state == Closed
            && (answers != [] ==> after.breaker.consecutiveFails == 0)
            && after.failures == b.failures
  {
    if answers != [] {
      GoodAnswersKeepClosed(o, addr, b, Front(answers));
    }
  }

  /** Each server error adds one to the streak of a CLOSED breaker; the one that makes it as long as
      the threshold opens the breaker from then on. */
  lemma {:induction false} ServerErrorsOpen(o: Options, addr: string, b: Books, answers: seq<Answer>)
    requires Usable(o) && b.breaker.state == Closed && b.breaker.consecutiveFails >= 0 && answers != []
    requires forall i :: 0 <= i < |answers| ==> answers[i].errored || answers[i].status >= 500
    requires b.breaker.consecutiveFails + |answers| <= o.failureThreshold
    ensures var after, last := After(o, addr, b, answers).breaker, Last(answers);
            && after.consecutiveFails == b.breaker.consecutiveFails + |answers|
            && if after.consecutiveFails < o.failureThreshold then after.state == Closed
               else after.openedAt == last.recorded
                    && after.state == if last.shown - last.recorded < o.recoveryTimeout then Open else HalfOpen
  {
    if Front(answers) != [] {
      ServerErrorsOpen(o, addr, b, Front(answers));
    }
  }

  /** The breaker was CLOSED after each of the answers. */
  predicate StaysClosed(o: Options, addr: string, b: Books, answers: seq<Answer>) {
    && After(o, addr, b, answers).breaker.state == Closed
    && (answers != [] ==> StaysClosed(o, addr, b, Front(answers)))
  }

  /** Server errors since the last other answer. */
  function Trailing(answers: seq<Answer>): nat {
    if answers == [] then 0
    else if Last(answers).errored || Last(answers).status >= 500 then Trailing(Front(answers)) + 1
    else 0
  }

  predicate ShortRuns(answers: seq<Answer>, threshold: int) {
    Trailing(answers) < threshold && (answers != [] ==> ShortRuns(Front(answers), threshold))
  }

  lemma {:induction false} ClosedWhileShort(o: Options, addr: string, b: Books, answers: seq<Answer>)
    requires Usable(o) && b.breaker.state == Closed && b.breaker.consecutiveFails == 0
    ensures StaysClosed(o, addr, b, answers) <==> ShortRuns(answers, o.failureThreshold)
    ensures StaysClosed(o, addr, b, answers)
            ==> After(o, addr, b, answers).breaker.consecutiveFails == Trailing(answers)
  {
    if answers != [] {
      ClosedWhileShort(o, addr, b, Front(answers));
    }
  }

  /** The n answers from place k on are all server errors. */
  predicate InARow(answers: seq<Answer>, k: nat, n: int) {
    k + n <= |answers| && forall j :: k <= j < k + n ==> answers[j].errored || answers[j].status >= 500
  }

  lemma {:induction false} TrailingIsInARow(answers: seq<Answer>)
    ensures Trailing(answers) <= |answers|
    ensures InARow(answers, |answers| - Trailing(answers), Trailing(answers))
    ensures var k := |answers| - Trailing(answers) - 1;
            k >= 0 ==> !answers[k].errored && answers[k].status < 500
  {
    if answers != [] {
      TrailingIsInARow(Front(answers));
    }
  }

  lemma {:induction false} ShortRunsIff(answers: seq<Answer>, threshold: int)
    requires threshold >= 1
    ensures ShortRuns(answers, threshold) <==> !exists k: nat :: InARow(answers, k, threshold)
  {
    TrailingIsInARow(answers);
    if Trailing(answers) >= threshold {
      assert InARow(answers, |answers| - threshold, threshold);
    } else if answers != [] {
      ShortRunsIff(Front(answers), threshold);
      forall k: nat ensures InARow(answers, k, threshold) <==> InARow(Front(answers), k, threshold) {
        if k + threshold == |answers| {
          assert k <= |answers| - Trailing(answers) - 1 < k + threshold;
        }
      }
    }
  }

  /** A breaker that is CLOSED without a streak leaves CLOSED exactly if as many answers in a row as
      the threshold are server errors: an answer with any other status, be it 404, takes no instance
      out of rotation. */
  lemma LeavesClosedIff(o: Options, addr: string, b: Books, answers: seq<Answer>)
    requires Usable(o) && b.breaker.state == Closed && b.breaker.consecutiveFails == 0
    ensures !StaysClosed(o, addr, b, answers) <==> exists k: nat :: InARow(answers, k, o.failureThreshold)
  {
    ClosedWhileShort(o, addr, b, answers);
    ShortRunsIff(answers, o.failureThreshold);
  }
}
