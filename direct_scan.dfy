/**
 * The reply-selection loop of the direct-scan client
 * (scripts/manual_scan_direct.py): an MQTT listener drops retained messages
 * and queues every other one; the main loop polls that queue, skips status
 * reports, and stops at the first periodogram or raw data message, or when
 * more than ten seconds have passed.
 *
 * The listener thread and the clock are replaced by a schedule of ticks, one
 * per iteration of the main loop: the messages the listener delivers before
 * that iteration looks at the queue, and the number of seconds elapsed since
 * the loop started as that iteration reads it.
 */
module DirectScan {
  import opened Wrappers

  /** The time budget in seconds. */
  const Timeout: real := 10.0

  /**
   * A decoded message as the loop inspects it: whether it has a `status`
   * key, its `metadata.data_type` (None when `metadata` or `data_type` is
   * missing), and the rest of it.
   */
  datatype Payload = Payload(hasStatus: bool, dataType: Option<string>, data: string)

  /** An MQTT message: its retain flag and its decoded payload. */
  datatype Message = Message(retain: bool, payload: Payload)

  /** One iteration of the main loop, as seen from outside. */
  datatype Tick = Tick(arrivals: seq<Message>, elapsed: real)

  /**
   * How the loop ends: with a data message selected, after the time budget,
   * or with a KeyError on a message that has neither `status` nor
   * `metadata.data_type`.
   */
  datatype Outcome = Selected(reply: Payload) | TimedOut | Crashed(culprit: Payload)

  /** What one dequeued message does to the loop. */
  datatype Verdict = Skip | Select | Crash

  /** The loop's treatment of one message. */
  function VerdictOf(p: Payload): (v: Verdict)
    ensures p.hasStatus ==> v == Skip
    ensures v == Select <==> !p.hasStatus && p.dataType in {Some("periodogram"), Some("raw")}
    ensures v == Crash <==> !p.hasStatus && p.dataType.None?
  {
    if p.hasStatus then Skip
    else match p.dataType
      case None => Crash
      case Some(t) => if t == "periodogram" || t == "raw" then Select else Skip
  }

  /** The outcome a message that ends the loop gives. */
  function OutcomeOf(p: Payload): (o: Outcome)
    requires VerdictOf(p) != Skip
    ensures o != TimedOut
    ensures o.Selected? <==> p.dataType in {Some("periodogram"), Some("raw")}
  {
    if VerdictOf(p) == Select then Selected(p) else Crashed(p)
  }

  /** The payloads of a batch of messages that the listener queues, in arrival order. */
  function Accepted(batch: seq<Message>): (q: seq<Payload>)
    ensures |q| <= |batch|
    ensures (forall i :: 0 <= i < |batch| ==> batch[i].retain) ==> q == []
    ensures (forall i :: 0 <= i < |batch| ==> !batch[i].retain) ==> |q| == |batch|
  {
    if batch == [] then []
    else
      var last := batch[|batch| - 1];
      Accepted(batch[..|batch| - 1]) + (if last.retain then [] else [last.payload])
  }

  /** Everything the listener queues over a run of ticks. */
  function AcceptedAll(ticks: seq<Tick>): seq<Payload>
  {
    if ticks == [] then [] else Accepted(ticks[0].arrivals) + AcceptedAll(ticks[1..])
  }

  /**
   * The reference definition: in a stream of queued payloads, the first one
   * that does not skip decides; a stream of skips decides nothing.
   */
  function Decide(stream: seq<Payload>): (o: Outcome)
    ensures o == TimedOut <==> forall i :: 0 <= i < |stream| ==> VerdictOf(stream[i]) == Skip
  {
    if stream == [] then TimedOut
    else if VerdictOf(stream[0]) == Skip then Decide(stream[1..])
    else OutcomeOf(stream[0])
  }

  /** The clock has passed the budget by the last tick, as a real clock eventually does. */
  predicate Expires(ticks: seq<Tick>)
  {
    |ticks| > 0 && ticks[|ticks| - 1].elapsed > Timeout
  }

  /**
   * The end of a wait: its outcome, the payloads the loop dequeued in order,
   * what was still queued when it stopped, and how many ticks it ran.
   */
  datatype Wait = Wait(outcome: Outcome, taken: seq<Payload>, left: seq<Payload>, used: nat)

  /** The main loop run from a queue over a schedule of ticks. */
  function Await(queue: seq<Payload>, ticks: seq<Tick>): (w: Wait)
    requires Expires(ticks)
    ensures 1 <= w.used <= |ticks|
    ensures |w.taken| <= w.used
    decreases |ticks|
  {
    var pending := queue + Accepted(ticks[0].arrivals);
    if ticks[0].elapsed > Timeout then Wait(TimedOut, [], pending, 1)
    else if pending == [] then
      var w := Await(pending, ticks[1..]);
      Wait(w.outcome, w.taken, w.left, w.used + 1)
    else if VerdictOf(pending[0]) == Skip then
      var w := Await(pending[1..], ticks[1..]);
      Wait(w.outcome, [pending[0]] + w.taken, w.left, w.used + 1)
    else Wait(OutcomeOf(pending[0]), [pending[0]], pending[1..], 1)
  }

  // ---- Properties of the wait ----

  /** AcceptedAll, one tick at a time from the front. */
  lemma AcceptedAllCons(t: Tick, rest: seq<Tick>)
    ensures AcceptedAll([t] + rest) == Accepted(t.arrivals) + AcceptedAll(rest)
  {
    assert ([t] + rest)[1..] == rest;
  }

  /**
   * Nothing is lost, duplicated or reordered: what the loop dequeued followed
   * by what is left is the starting queue followed by everything the
   * listener queued during the ticks the loop ran.
   */
  lemma {:induction false} AwaitConserves(queue: seq<Payload>, ticks: seq<Tick>)
    requires Expires(ticks)
    ensures var w := Await(queue, ticks);
      w.taken + w.left == queue + AcceptedAll(ticks[..w.used])
    decreases |ticks|
  {
    var pending := queue + Accepted(ticks[0].arrivals);
    if ticks[0].elapsed > Timeout || (pending != [] && VerdictOf(pending[0]) != Skip) {
      ConservesOnFirstTick(queue, ticks);
    } else if pending == [] {
      AwaitConserves(pending, ticks[1..]);
      ConservesOnIdleTick(queue, ticks);
    } else {
      AwaitConserves(pending[1..], ticks[1..]);
      ConservesOnSkip(queue, ticks);
    }
  }

  /** AwaitConserves when the loop stops on its first tick. */
  lemma ConservesOnFirstTick(queue: seq<Payload>, ticks: seq<Tick>)
    requires Expires(ticks)
    requires var pending := queue + Accepted(ticks[0].arrivals);
      ticks[0].elapsed > Timeout || (pending != [] && VerdictOf(pending[0]) != Skip)
    ensures var w := Await(queue, ticks);
      w.taken + w.left == queue + AcceptedAll(ticks[..w.used])
  {
    var pending := queue + Accepted(ticks[0].arrivals);
    AcceptedAllFirst(ticks);
    if ticks[0].elapsed <= Timeout {
      assert pending == [pending[0]] + pending[1..];
    }
  }

  /** AwaitConserves when the first tick finds the queue empty, given it for the later ticks. */
  lemma ConservesOnIdleTick(queue: seq<Payload>, ticks: seq<Tick>)
    requires Expires(ticks) && ticks[0].elapsed <= Timeout
    requires queue + Accepted(ticks[0].arrivals) == []
    requires var v := Await([], ticks[1..]);
      v.taken + v.left == [] + AcceptedAll(ticks[1..][..v.used])
    ensures var w := Await(queue, ticks);
      w.taken + w.left == queue + AcceptedAll(ticks[..w.used])
  {
    AwaitOnIdleTick(queue, ticks);
    AcceptedAllPrefix(ticks, Await([], ticks[1..]).used);
  }

  /** AwaitConserves when the first tick skips a message, given it for the later ticks. */
  lemma ConservesOnSkip(queue: seq<Payload>, ticks: seq<Tick>)
    requires Expires(ticks) && ticks[0].elapsed <= Timeout
    requires var pending := queue + Accepted(ticks[0].arrivals);
      pending != [] && VerdictOf(pending[0]) == Skip
    requires var pending := queue + Accepted(ticks[0].arrivals);
      var v := Await(pending[1..], ticks[1..]);
      v.taken + v.left == pending[1..] + AcceptedAll(ticks[1..][..v.used])
    ensures var w := Await(queue, ticks);
      w.taken + w.left == queue + AcceptedAll(ticks[..w.used])
  {
    var pending := queue + Accepted(ticks[0].arrivals);
    AwaitOnSkip(queue, ticks);
    ConservedAfterSkip(queue, ticks, pending, Await(pending[1..], ticks[1..]), Await(queue, ticks));
  }

  /** ConservesOnSkip for a wait `w` that dequeued the head of `pending` before a wait `v` on the later ticks. */
  lemma ConservedAfterSkip(queue: seq<Payload>, ticks: seq<Tick>, pending: seq<Payload>, v: Wait, w: Wait)
    requires v.used < |ticks| && pending == queue + Accepted(ticks[0].arrivals) && pending != []
    requires v.taken + v.left == pending[1..] + AcceptedAll(ticks[1..][..v.used])
    requires w.used == v.used + 1 && w.taken == [pending[0]] + v.taken && w.left == v.left
    ensures w.taken + w.left == queue + AcceptedAll(ticks[..w.used])
  {
    var later := AcceptedAll(ticks[1..][..v.used]);
    AcceptedAllPrefix(ticks, v.used);
    assert pending == [pending[0]] + pending[1..];
    Regroup(pending[0], pending[1..], v.taken, v.left, later, queue, Accepted(ticks[0].arrivals));
  }

  /** Await when the first tick dequeues a payload that skips. */
  lemma AwaitOnSkip(queue: seq<Payload>, ticks: seq<Tick>)
    requires Expires(ticks) && ticks[0].elapsed <= Timeout
    requires var pending := queue + Accepted(ticks[0].arrivals);
      pending != [] && VerdictOf(pending[0]) == Skip
    ensures var pending := queue + Accepted(ticks[0].arrivals);
      var v := Await(pending[1..], ticks[1..]);
      Await(queue, ticks) == Wait(v.outcome, [pending[0]] + v.taken, v.left, v.used + 1)
  {
  }

  /** Sequence bookkeeping for ConservesOnSkip. */
  lemma Regroup(x: Payload, tail: seq<Payload>, taken: seq<Payload>, left: seq<Payload>,
                later: seq<Payload>, queue: seq<Payload>, arrived: seq<Payload>)
    requires [x] + tail == queue + arrived
    requires taken + left == tail + later
    ensures ([x] + taken) + left == queue + (arrived + later)
  {
    calc {
      ([x] + taken) + left;
      [x] + (taken + left);
      [x] + (tail + later);
      ([x] + tail) + later;
    }
  }

  /** The first tick alone queues its own accepted arrivals. */
  lemma AcceptedAllFirst(ticks: seq<Tick>)
    requires |ticks| > 0
    ensures AcceptedAll(ticks[..1]) == Accepted(ticks[0].arrivals)
  {
    assert ticks[..1] == [ticks[0]] + [];
    AcceptedAllCons(ticks[0], []);
  }

  /** The first n + 1 ticks queue the first tick's arrivals, then those of the next n. */
  lemma AcceptedAllPrefix(ticks: seq<Tick>, n: nat)
    requires n < |ticks|
    ensures AcceptedAll(ticks[..n + 1]) == Accepted(ticks[0].arrivals) + AcceptedAll(ticks[1..][..n])
  {
    assert ticks[..n + 1] == [ticks[0]] + ticks[1..][..n];
    AcceptedAllCons(ticks[0], ticks[1..][..n]);
  }

  /**
   * Every dequeued message but the last one skips; the loop times out with
   * nothing but skips dequeued, and otherwise ends on the last message it
   * dequeued.
   */
  lemma {:induction false} AwaitSkipsUntilDecided(queue: seq<Payload>, ticks: seq<Tick>)
    requires Expires(ticks)
    ensures SkipsThenDecides(Await(queue, ticks))
    decreases |ticks|
  {
    var pending := queue + Accepted(ticks[0].arrivals);
    if ticks[0].elapsed > Timeout {
    } else if pending == [] {
      AwaitSkipsUntilDecided(pending, ticks[1..]);
    } else if VerdictOf(pending[0]) == Skip {
      AwaitSkipsUntilDecided(pending[1..], ticks[1..]);
      AwaitOnSkip(queue, ticks);
      SkipsThenDecidesAfterSkip(pending[0], Await(pending[1..], ticks[1..]), Await(queue, ticks));
    }
  }

  /**
   * Every payload a wait dequeued skips except possibly the last one; the
   * wait timed out exactly when that one skips too, and otherwise ended
   * with that one's outcome.
   */
  predicate SkipsThenDecides(w: Wait)
  {
    && (forall i :: 0 <= i < |w.taken| - 1 ==> VerdictOf(w.taken[i]) == Skip)
    && (w.outcome == TimedOut ==> forall i :: 0 <= i < |w.taken| ==> VerdictOf(w.taken[i]) == Skip)
    && (w.outcome != TimedOut ==>
          |w.taken| > 0 && VerdictOf(w.taken[|w.taken| - 1]) != Skip
          && w.outcome == OutcomeOf(w.taken[|w.taken| - 1]))
  }

  /** A skip dequeued ahead of a wait keeps SkipsThenDecides. */
  lemma SkipsThenDecidesAfterSkip(x: Payload, v: Wait, w: Wait)
    requires VerdictOf(x) == Skip && SkipsThenDecides(v)
    requires w.outcome == v.outcome && w.taken == [x] + v.taken
    ensures SkipsThenDecides(w)
  {
    forall i | 0 <= i < |w.taken| && (i < |w.taken| - 1 || w.outcome == TimedOut)
      ensures VerdictOf(w.taken[i]) == Skip
    {
      if i > 0 {
        assert w.taken[i] == v.taken[i - 1];
      }
    }
    if w.outcome != TimedOut {
      assert w.taken[|w.taken| - 1] == v.taken[|v.taken| - 1];
    }
  }

  /**
   * The loop reads the clock on every tick it runs and stops at the first
   * reading over the budget: every earlier tick was within it, and it timed
   * out exactly when its last tick was over.
   */
  lemma {:induction false} AwaitWatchesClock(queue: seq<Payload>, ticks: seq<Tick>)
    requires Expires(ticks)
    ensures var w := Await(queue, ticks);
      && (forall i :: 0 <= i < w.used - 1 ==> ticks[i].elapsed <= Timeout)
      && (w.outcome == TimedOut <==> ticks[w.used - 1].elapsed > Timeout)
    decreases |ticks|
  {
    var pending := queue + Accepted(ticks[0].arrivals);
    if ticks[0].elapsed > Timeout {
    } else if pending == [] {
      AwaitWatchesClock(pending, ticks[1..]);
      AwaitOnIdleTick(queue, ticks);
      WatchedOneTickLater(ticks, Await(pending, ticks[1..]), Await(queue, ticks));
    } else if VerdictOf(pending[0]) == Skip {
      AwaitWatchesClock(pending[1..], ticks[1..]);
      AwaitOnSkip(queue, ticks);
      WatchedOneTickLater(ticks, Await(pending[1..], ticks[1..]), Await(queue, ticks));
    }
  }

  /** AwaitWatchesClock for a wait that ran one tick within the budget before a wait `v` on the later ticks. */
  lemma WatchedOneTickLater(ticks: seq<Tick>, v: Wait, w: Wait)
    requires |ticks| > 1 && ticks[0].elapsed <= Timeout && 1 <= v.used < |ticks|
    requires w.outcome == v.outcome && w.used == v.used + 1
    requires forall i :: 0 <= i < v.used - 1 ==> ticks[1..][i].elapsed <= Timeout
    requires v.outcome == TimedOut <==> ticks[1..][v.used - 1].elapsed > Timeout
    ensures forall i :: 0 <= i < w.used - 1 ==> ticks[i].elapsed <= Timeout
    ensures w.outcome == TimedOut <==> ticks[w.used - 1].elapsed > Timeout
  {
    forall i | 0 < i < w.used - 1
      ensures ticks[i].elapsed <= Timeout
    {
      assert ticks[i] == ticks[1..][i - 1];
    }
    assert ticks[w.used - 1] == ticks[1..][v.used - 1];
  }

  /** Await when the first tick, within the budget, finds the queue empty. */
  lemma AwaitOnIdleTick(queue: seq<Payload>, ticks: seq<Tick>)
    requires Expires(ticks) && ticks[0].elapsed <= Timeout
    requires queue + Accepted(ticks[0].arrivals) == []
    ensures var v := Await([], ticks[1..]);
      Await(queue, ticks) == Wait(v.outcome, v.taken, v.left, v.used + 1)
  {
  }

  /** A stream whose head skips decides as its tail does. */
  lemma DecideSkipsHead(p: Payload, rest: seq<Payload>)
    requires VerdictOf(p) == Skip
    ensures Decide([p] + rest) == Decide(rest)
  {
    assert ([p] + rest)[1..] == rest;
  }

  /**
   * Whenever the loop does not time out, its outcome is the reference
   * decision over the starting queue and everything the listener ever
   * queues: messages that arrive later cannot change it.
   */
  lemma {:induction false} AwaitAgreesWithDecide(queue: seq<Payload>, ticks: seq<Tick>)
    requires Expires(ticks)
    ensures var o := Await(queue, ticks).outcome;
      o == TimedOut || o == Decide(queue + AcceptedAll(ticks))
    decreases |ticks|
  {
    var pending := queue + Accepted(ticks[0].arrivals);
    var rest := AcceptedAll(ticks[1..]);
    assert ticks == [ticks[0]] + ticks[1..];
    AcceptedAllCons(ticks[0], ticks[1..]);
    assert queue + AcceptedAll(ticks) == pending + rest;
    if ticks[0].elapsed > Timeout {
    } else if pending == [] {
      AwaitAgreesWithDecide(pending, ticks[1..]);
      AwaitOnIdleTick(queue, ticks);
    } else if VerdictOf(pending[0]) == Skip {
      AwaitAgreesWithDecide(pending[1..], ticks[1..]);
      AwaitOnSkip(queue, ticks);
      assert pending + rest == [pending[0]] + (pending[1..] + rest);
      DecideSkipsHead(pending[0], pending[1..] + rest);
    } else {
      assert (pending + rest)[0] == pending[0];
    }
  }

  /**
   * A decision already in the queue is reached in time when the clock stays
   * within the budget for as many ticks as the queue is long; whatever
   * arrives meanwhile queues behind it.
   */
  lemma {:induction false} QueuedDecisionReached(queue: seq<Payload>, later: seq<Payload>, ticks: seq<Tick>)
    requires Expires(ticks)
    requires forall i :: 0 <= i < |queue| && i < |ticks| ==> ticks[i].elapsed <= Timeout
    requires Decide(queue) != TimedOut
    ensures Await(queue + later, ticks).outcome == Decide(queue)
    decreases |queue|
  {
    var pending := queue + later + Accepted(ticks[0].arrivals);
    assert pending == queue + (later + Accepted(ticks[0].arrivals));
    assert pending[0] == queue[0];
    if VerdictOf(queue[0]) == Skip {
      assert |ticks| > 1;
      assert queue == [queue[0]] + queue[1..];
      DecideSkipsHead(queue[0], queue[1..]);
      assert pending[1..] == queue[1..] + (later + Accepted(ticks[0].arrivals));
      QueuedDecisionReached(queue[1..], later + Accepted(ticks[0].arrivals), ticks[1..]);
    }
  }

  /**
   * The tick by which a loop that has seen the arrivals of the first `k`
   * ticks has dequeued `n` more payloads, at the latest, plus one: the
   * arrivals of tick `k - 1` can be taken on that same tick.
   */
  function Deadline(k: nat, n: nat): nat
  {
    (if k == 0 then 0 else k - 1) + n
  }

  /**
   * A reply that arrives during the wait is reached: when the payloads queued
   * by the end of tick `k - 1` already decide, and the clock stays within the
   * budget until all of them could have been dequeued, the loop ends with
   * that decision.
   */
  lemma {:induction false} ArrivedDecisionReached(queue: seq<Payload>, ticks: seq<Tick>, k: nat)
    requires Expires(ticks) && k <= |ticks|
    requires Decide(queue + AcceptedAll(ticks[..k])) != TimedOut
    requires forall i :: 0 <= i < |ticks| && i < Deadline(k, |queue + AcceptedAll(ticks[..k])|) ==>
               ticks[i].elapsed <= Timeout
    ensures Await(queue, ticks).outcome == Decide(queue + AcceptedAll(ticks[..k]))
    decreases |ticks|, 2
  {
    if k == 0 {
      assert ticks[..0] == [] && queue + AcceptedAll(ticks[..0]) == queue + [];
      QueuedDecisionReached(queue, [], ticks);
      assert queue + [] == queue;
    } else {
      var rest := AcceptedAll(ticks[1..][..k - 1]);
      AcceptedAllPrefix(ticks, k - 1);
      assert queue + AcceptedAll(ticks[..k]) == (queue + Accepted(ticks[0].arrivals)) + rest;
      ArrivedAfterFirstTick(queue, ticks, k, rest);
    }
  }

  /** ArrivedDecisionReached for k > 0, with the arrivals of ticks 1 to k - 1 as `rest`. */
  lemma {:induction false} ArrivedAfterFirstTick(queue: seq<Payload>, ticks: seq<Tick>, k: nat, rest: seq<Payload>)
    requires Expires(ticks) && 0 < k <= |ticks|
    requires rest == AcceptedAll(ticks[1..][..k - 1])
    requires Decide((queue + Accepted(ticks[0].arrivals)) + rest) != TimedOut
    requires forall i :: 0 <= i < |ticks| && i < Deadline(k, |(queue + Accepted(ticks[0].arrivals)) + rest|) ==>
               ticks[i].elapsed <= Timeout
    ensures Await(queue, ticks).outcome == Decide((queue + Accepted(ticks[0].arrivals)) + rest)
    decreases |ticks|, 1
  {
    var pending := queue + Accepted(ticks[0].arrivals);
    assert pending + rest != [];
    assert ticks[0].elapsed <= Timeout;
    if pending == [] {
      ArrivedOnIdleTick(queue, ticks, k, rest);
      assert pending + rest == rest;
    } else if VerdictOf(pending[0]) == Skip {
      ArrivedOnSkip(queue, ticks, k, pending, rest);
    } else {
      ArrivedOnDecisive(queue, ticks, rest);
    }
  }

  /** ArrivedDecisionReached when the first tick dequeues a payload that decides. */
  lemma ArrivedOnDecisive(queue: seq<Payload>, ticks: seq<Tick>, rest: seq<Payload>)
    requires Expires(ticks) && ticks[0].elapsed <= Timeout
    requires var pending := queue + Accepted(ticks[0].arrivals);
      pending != [] && VerdictOf(pending[0]) != Skip
    ensures var pending := queue + Accepted(ticks[0].arrivals);
      Await(queue, ticks).outcome == Decide(pending + rest)
  {
    var pending := queue + Accepted(ticks[0].arrivals);
    assert (pending + rest)[0] == pending[0];
  }

  /** Ticks within the budget up to `n` stay so, one tick later, up to `m`. */
  lemma InBudgetShift(ticks: seq<Tick>, n: nat, m: nat)
    requires |ticks| > 0 && m + 1 <= n
    requires forall i :: 0 <= i < |ticks| && i < n ==> ticks[i].elapsed <= Timeout
    ensures forall i :: 0 <= i < |ticks[1..]| && i < m ==> ticks[1..][i].elapsed <= Timeout
  {
    forall i | 0 <= i < |ticks[1..]| && i < m
      ensures ticks[1..][i].elapsed <= Timeout
    {
      assert ticks[1..][i] == ticks[i + 1];
    }
  }

  /** ArrivedDecisionReached when the first tick finds the queue empty. */
  lemma {:induction false} ArrivedOnIdleTick(queue: seq<Payload>, ticks: seq<Tick>, k: nat, rest: seq<Payload>)
    requires Expires(ticks) && 0 < k <= |ticks| && ticks[0].elapsed <= Timeout
    requires queue + Accepted(ticks[0].arrivals) == []
    requires rest == AcceptedAll(ticks[1..][..k - 1])
    requires Decide(rest) != TimedOut
    requires forall i :: 0 <= i < |ticks| && i < Deadline(k, |rest|) ==> ticks[i].elapsed <= Timeout
    ensures Await(queue, ticks).outcome == Decide(rest)
    decreases |ticks|, 0
  {
    var later := ticks[1..];
    assert Await(queue, ticks).outcome == Await([], later).outcome;
    if k == 1 {
      assert false;
    }
    assert [] + AcceptedAll(later[..k - 1]) == rest;
    InBudgetShift(ticks, Deadline(k, |rest|), Deadline(k - 1, |rest|));
    ArrivedDecisionReached([], later, k - 1);
  }

  /** ArrivedDecisionReached when the first tick dequeues a payload that skips. */
  lemma {:induction false} ArrivedOnSkip(queue: seq<Payload>, ticks: seq<Tick>, k: nat,
                                         pending: seq<Payload>, rest: seq<Payload>)
    requires Expires(ticks) && 0 < k <= |ticks| && ticks[0].elapsed <= Timeout
    requires pending == queue + Accepted(ticks[0].arrivals)
    requires pending != [] && VerdictOf(pending[0]) == Skip
    requires rest == AcceptedAll(ticks[1..][..k - 1])
    requires Decide(pending + rest) != TimedOut
    requires forall i :: 0 <= i < |ticks| && i < Deadline(k, |pending + rest|) ==> ticks[i].elapsed <= Timeout
    ensures Await(queue, ticks).outcome == Decide(pending + rest)
    decreases |ticks|, 0
  {
    var tail := pending[1..] + rest;
    assert pending + rest == [pending[0]] + tail;
    DecideSkipsHead(pending[0], tail);
    InBudgetShift(ticks, Deadline(k, |pending + rest|), Deadline(k - 1, |tail|));
    ArrivedDecisionReached(pending[1..], ticks[1..], k - 1);
    AwaitOnSkip(queue, ticks);
  }

  /**
   * A live data reply, the only message delivered before the first
   * iteration, which reads the clock within the budget, is selected on that
   * iteration.
   */
  lemma ReplyOnFirstTickSelected(p: Payload, ticks: seq<Tick>)
    requires Expires(ticks) && ticks[0].elapsed <= Timeout
    requires ticks[0].arrivals == [Message(false, p)] && VerdictOf(p) == Select
    ensures Await([], ticks).outcome == Selected(p)
  {
    assert ticks[0].arrivals[..0] == [];
  }

  /** A schedule of retained messages queues nothing. */
  lemma {:induction false} RetainedQueueNothing(ticks: seq<Tick>)
    requires forall i, j :: 0 <= i < |ticks| && 0 <= j < |ticks[i].arrivals| ==> ticks[i].arrivals[j].retain
    ensures AcceptedAll(ticks) == []
  {
    if ticks != [] {
      assert Accepted(ticks[0].arrivals) == [] by {
        assert forall j :: 0 <= j < |ticks[0].arrivals| ==> ticks[0].arrivals[j].retain;
      }
      RetainedQueueNothing(ticks[1..]);
    }
  }

  /** Retained messages alone never end the wait: from an empty queue it times out. */
  lemma RetainedOnlyTimesOut(ticks: seq<Tick>)
    requires Expires(ticks)
    requires forall i, j :: 0 <= i < |ticks| && 0 <= j < |ticks[i].arrivals| ==> ticks[i].arrivals[j].retain
    ensures Await([], ticks).outcome == TimedOut
  {
    RetainedQueueNothing(ticks);
    AwaitAgreesWithDecide([], ticks);
    assert [] + AcceptedAll(ticks) == [];
  }

  // ---- The client ----

  /** The client's response queue and the code that fills and drains it. */
  class Inbox {
    /** Decoded payloads waiting for the main loop, oldest first. */
    var queue: seq<Payload>

    constructor()
      ensures queue == []
    {
      queue := [];
    }

    /** The MQTT callback: a retained message is ignored, any other is queued at the back. */
    method OnMessage(msg: Message)
      modifies this
      ensures msg.retain ==> queue == old(queue)
      ensures !msg.retain ==> queue == old(queue) + [msg.payload]
    {
      if msg.retain {
        return;
      }
      queue := queue + [msg.payload];
    }

    /** The listener handing over a batch of messages in arrival order. */
    method Deliver(batch: seq<Message>)
      modifies this
      ensures queue == old(queue) + Accepted(batch)
    {
      for i := 0 to |batch|
        invariant queue == old(queue) + Accepted(batch[..i])
      {
        assert batch[..i + 1][..i] == batch[..i];
        OnMessage(batch[i]);
      }
      assert batch[..|batch|] == batch;
    }

    /** `response.get()` on a non-empty queue: the oldest payload. */
    method Get() returns (p: Payload)
      requires queue != []
      modifies this
      ensures [p] + queue == old(queue)
    {
      p := queue[0];
      queue := queue[1..];
    }

    /**
     * The main loop: on each tick, after the listener's deliveries, give up
     * if more than the budget has elapsed; otherwise take the oldest queued
     * payload, if any, skip it when it is a status report, and stop when it
     * is periodogram or raw data.
     */
    method AwaitReply(ticks: seq<Tick>) returns (outcome: Outcome)
      requires Expires(ticks)
      modifies this
      ensures outcome == Await(old(queue), ticks).outcome
      ensures queue == Await(old(queue), ticks).left
    {
      ghost var goal := Await(queue, ticks);
      var t := 0;
      while true
        invariant 0 <= t <= |ticks| && Expires(ticks[t..])
        invariant Await(queue, ticks[t..]).outcome == goal.outcome
        invariant Await(queue, ticks[t..]).left == goal.left
        decreases |ticks| - t
      {
        Deliver(ticks[t].arrivals);
        if ticks[t].elapsed > Timeout {
          outcome := TimedOut;
          break;
        }
        assert |ticks[t..]| > 1 && ticks[t..][1..] == ticks[t + 1..];
        if queue == [] {
          t := t + 1;
          continue;
        }
        var message := Get();
        if message.hasStatus {
          t := t + 1;
          continue;
        }
        if message.dataType.None? {
          outcome := Crashed(message);
          break;
        }
        if message.dataType.value == "periodogram" {
          outcome := Selected(message);
          break;
        }
        if message.dataType.value == "raw" {
          outcome := Selected(message);
          break;
        }
        t := t + 1;
      }
    }
  }
}
