/**
 What every answer of the limiter is, from the attempts alone: which attempt opened the window
 it falls in, and how many attempts of its key that window has seen.
*/
module RateAnswers {
  import opened RateLimiter
  import opened RateWindows

  /** How many of the attempts from one index on and before another are the key's. */
  function Attempts(events: seq<Event>, key: string, from: nat, upTo: nat): nat
    requires upTo <= |events|
  {
    if upTo <= from then 0
    else Attempts(events, key, from, upTo - 1) + if events[upTo - 1].key == key then 1 else 0
  }

  /** The key's last attempt before an index; -1 when there is none. */
  function Last(events: seq<Event>, key: string, before: nat): (p: int)
    requires before <= |events|
    ensures -1 <= p < before
    ensures p >= 0 ==> events[p].key == key
    ensures forall j | p < j < before :: events[j].key != key
  {
    if before == 0 then -1
    else if events[before - 1].key == key then before - 1
    else Last(events, key, before - 1)
  }

  /**
   The attempt that opened the window of attempt `i`: the one that opened its key's last window,
   while that is running, and `i` itself otherwise.
  */
  function Opening(windowMs: int, events: seq<Event>, i: nat): (w: nat)
    requires i < |events|
    ensures w <= i && events[w].key == events[i].key
    decreases i
  {
    var p := Last(events, events[i].key, i);
    if p >= 0 && events[i].now < events[Opening(windowMs, events, p)].now + windowMs
    then Opening(windowMs, events, p)
    else i
  }

  /** The number of the attempt in its window, itself included. */
  function Ordinal(windowMs: int, events: seq<Event>, i: nat): nat
    requires i < |events|
  {
    Attempts(events, events[i].key, Opening(windowMs, events, i), i + 1)
  }

  function AtMost(n: int, limit: int): int {
    if n < limit then n else limit
  }

  /** The answer to attempt `i`, from the attempts up to it. */
  ghost predicate RightAnswer(o: Options, events: seq<Event>, i: nat, answer: Answer)
    requires i < |events|
  {
    var start := events[Opening(o.windowMs, events, i)].now;
    var limit := if o.attemptsPerWindow > 1 then o.attemptsPerWindow else 1;
    var wait := start + o.windowMs - events[i].now;
    && (answer.allowed <==> Ordinal(o.windowMs, events, i) <= limit)
    && answer.entry.attempts == AtMost(Ordinal(o.windowMs, events, i), limit)
    && answer.entry.windowStart == start && answer.entry.resetAt == start + o.windowMs
    && (answer.allowed ==> answer.retryAfterSeconds == 0)
    && (!answer.allowed ==> 1000 * (answer.retryAfterSeconds - 1) < wait <= 1000 * answer.retryAfterSeconds)
  }

  // ---------- the unbounded limiter ----------

  /** The windows before attempt `i`. */
  function IdealAt(o: Options, m: Windows, events: seq<Event>, i: nat): Windows
    requires i <= |events|
  {
    if i == 0 then m
    else IdealStep(o, IdealAt(o, m, events, i - 1), events[i - 1].key, events[i - 1].now).0
  }

  lemma {:induction false} IdealAtTail(o: Options, m: Windows, events: seq<Event>, i: nat)
    requires 0 < i <= |events|
    ensures IdealAt(o, m, events, i)
            == IdealAt(o, IdealStep(o, m, events[0].key, events[0].now).0, events[1..], i - 1)
  {
    if i > 1 {
      IdealAtTail(o, m, events, i - 1);
      assert events[1..][i - 2] == events[i - 1];
    }
  }

  lemma {:induction false} AnswerAt(o: Options, m: Windows, events: seq<Event>, i: nat)
    requires i < |events|
    ensures RunIdeal(o, m, events)[i] == IdealStep(o, IdealAt(o, m, events, i), events[i].key, events[i].now).1
    decreases |events|
  {
    if i > 0 {
      AnswerAt(o, IdealStep(o, m, events[0].key, events[0].now).0, events[1..], i - 1);
      IdealAtTail(o, m, events, i);
    }
  }

  /** The window a key has after its attempt `p`. */
  function WindowOf(o: Options, events: seq<Event>, p: nat): Entry
    requires p < |events|
  {
    var start := events[Opening(o.windowMs, events, p)].now;
    Entry(AtMost(Ordinal(o.windowMs, events, p), Budget(o)), start, start + o.windowMs)
  }

  /** A key has the window of its last attempt. */
  ghost predicate KeyWindow(o: Options, events: seq<Event>, i: nat, m: Windows, key: string)
    requires i <= |events|
  {
    var p := Last(events, key, i);
    if p < 0 then key !in m else key in m && m[key] == WindowOf(o, events, p)
  }

  lemma OrdinalStep(windowMs: int, events: seq<Event>, i: nat)
    requires i < |events|
    ensures Opening(windowMs, events, i) == i ==> Ordinal(windowMs, events, i) == 1
    ensures Opening(windowMs, events, i) < i ==>
              var p := Last(events, events[i].key, i);
              && p >= 0 && Opening(windowMs, events, i) == Opening(windowMs, events, p)
              && Ordinal(windowMs, events, i) == Ordinal(windowMs, events, p) + 1
  {
    var w := Opening(windowMs, events, i);
    var p := Last(events, events[i].key, i);
    assert Attempts(events, events[i].key, i, i) == 0;
    if w < i {
      NoneBetween(events, events[i].key, w, p + 1, i);
    }
  }

  lemma {:induction false} NoneBetween(events: seq<Event>, key: string, from: nat, a: nat, b: nat)
    requires a <= b <= |events| && forall j | a <= j < b :: events[j].key != key
    ensures Attempts(events, key, from, b) == Attempts(events, key, from, a)
  {
    if a < b {
      NoneBetween(events, key, from, a, b - 1);
    }
  }

  lemma WindowsStep(o: Options, events: seq<Event>, i: nat, m: Windows)
    requires i < |events| && forall key :: KeyWindow(o, events, i, m, key)
    ensures IdealStep(o, m, events[i].key, events[i].now).0 == m[events[i].key := WindowOf(o, events, i)]
    ensures RightAnswer(o, events, i, IdealStep(o, m, events[i].key, events[i].now).1)
  {
    OrdinalStep(o.windowMs, events, i);
    assert KeyWindow(o, events, i, m, events[i].key);
  }

  lemma {:induction false} WindowsAt(o: Options, events: seq<Event>, i: nat)
    requires i <= |events|
    ensures forall key :: KeyWindow(o, events, i, IdealAt(o, map[], events, i), key)
  {
    if i > 0 {
      WindowsAt(o, events, i - 1);
      WindowsStep(o, events, i - 1, IdealAt(o, map[], events, i - 1));
      forall key ensures KeyWindow(o, events, i, IdealAt(o, map[], events, i), key) {
        assert KeyWindow(o, events, i - 1, IdealAt(o, map[], events, i - 1), key);
      }
    }
  }

  /** Every answer of the unbounded limiter, on every run and for every option. */
  lemma IdealAnswersExactly(o: Options, events: seq<Event>, i: nat)
    requires i < |events|
    ensures RightAnswer(o, events, i, RunIdeal(o, map[], events)[i])
  {
    WindowsAt(o, events, i);
    AnswerAt(o, map[], events, i);
    WindowsStep(o, events, i, IdealAt(o, map[], events, i));
  }

  // ---------- the bounded limiter ----------

  /** The keys with a window that is still running at attempt `i`. */
  function Running(windowMs: int, events: seq<Event>, i: nat): set<string>
    requires i < |events|
  {
    set j: nat | j < i && events[i].now < events[Opening(windowMs, events, j)].now + windowMs :: events[j].key
  }

  /** At every attempt the map has room for its key beside the keys whose windows are running. */
  ghost predicate Roomy(o: Options, events: seq<Event>) {
    forall i | 0 <= i < |events| :: |Running(o.windowMs, events, i) + {events[i].key}| <= o.maxEntries
  }

  lemma {:induction false} OpeningsAscend(windowMs: int, events: seq<Event>, j: nat, p: nat)
    requires j <= p < |events| && events[j].key == events[p].key
    ensures Opening(windowMs, events, j) <= Opening(windowMs, events, p)
    decreases p
  {
    var q := Last(events, events[p].key, p);
    if j < p && q >= 0 {
      OpeningsAscend(windowMs, events, j, q);
    }
  }

  lemma RunningKey(windowMs: int, events: seq<Event>, i: nat, key: string)
    requires i < |events| && Monotone(events)
    ensures var p := Last(events, key, i);
            key in Running(windowMs, events, i)
            <==> p >= 0 && events[i].now < events[Opening(windowMs, events, p)].now + windowMs
  {
    var p := Last(events, key, i);
    if key in Running(windowMs, events, i) {
      var j: nat :| j < i && events[i].now < events[Opening(windowMs, events, j)].now + windowMs && events[j].key == key;
      OpeningsAscend(windowMs, events, j, p);
    }
  }

  lemma RunningAreOpen(o: Options, events: seq<Event>, i: nat)
    requires i < |events| && Monotone(events)
    ensures Running(o.windowMs, events, i) == OpenKeys(IdealAt(o, map[], events, i), events[i].now)
  {
    var m := IdealAt(o, map[], events, i);
    WindowsAt(o, events, i);
    forall key ensures key in Running(o.windowMs, events, i) <==> key in OpenKeys(m, events[i].now) {
      assert KeyWindow(o, events, i, m, key);
      RunningKey(o.windowMs, events, i, key);
    }
  }

  ghost predicate RoomAt(o: Options, m: Windows, events: seq<Event>, i: nat)
    requires i < |events|
  {
    |OpenKeys(IdealAt(o, m, events, i), events[i].now) + {events[i].key}| <= o.maxEntries
  }

  lemma RoomAtTail(o: Options, m: Windows, events: seq<Event>, i: nat)
    requires i + 1 < |events| && RoomAt(o, m, events, i + 1)
    ensures RoomAt(o, IdealStep(o, m, events[0].key, events[0].now).0, events[1..], i)
  {
    IdealAtTail(o, m, events, i + 1);
    assert events[1..][i] == events[i + 1];
  }

  lemma {:induction false} FitsAt(o: Options, m: Windows, events: seq<Event>)
    requires forall i | 0 <= i < |events| :: RoomAt(o, m, events, i)
    ensures Fits(o, m, events)
    decreases |events|
  {
    if events != [] {
      var next := IdealStep(o, m, events[0].key, events[0].now).0;
      assert RoomAt(o, m, events, 0);
      forall i | 0 <= i < |events[1..]| ensures RoomAt(o, next, events[1..], i) {
        RoomAtTail(o, m, events, i);
      }
      FitsAt(o, next, events[1..]);
    }
  }

  lemma RoomyFits(o: Options, events: seq<Event>)
    requires Monotone(events) && Roomy(o, events)
    ensures Fits(o, map[], events)
  {
    forall i | 0 <= i < |events| ensures RoomAt(o, map[], events, i) {
      RunningAreOpen(o, events, i);
    }
    FitsAt(o, map[], events);
  }

  /**
   Every answer of the bounded limiter, on every run with a clock that does not go back and room
   for the running windows.
  */
  lemma AnswersExactly(o: Options, events: seq<Event>, i: nat)
    requires Monotone(events) && Roomy(o, events) && i < |events|
    ensures RightAnswer(o, events, i, RunLimiter(o, [], events)[i])
  {
    RoomyFits(o, events);
    BoundedIsIdeal(o, [], map[], events[0].now, events);
    IdealAnswersExactly(o, events, i);
  }

  // ---------- what one window grants ----------

  /** How many of the key's attempts from one index on and before another were allowed. */
  function Granted(events: seq<Event>, answers: seq<Answer>, key: string, from: nat, upTo: nat): nat
    requires upTo <= |events| == |answers|
  {
    if upTo <= from then 0
    else Granted(events, answers, key, from, upTo - 1)
         + if events[upTo - 1].key == key && answers[upTo - 1].allowed then 1 else 0
  }

  /** The attempts of the opener's key before the reset are the opener's. */
  lemma {:induction false} SameWindow(windowMs: int, events: seq<Event>, i: nat, j: nat)
    requires Monotone(events) && i <= j < |events| && events[j].key == events[i].key
    requires Opening(windowMs, events, i) == i && (j == i || events[j].now < events[i].now + windowMs)
    ensures Opening(windowMs, events, j) == i
    decreases j
  {
    if i < j {
      var p := Last(events, events[j].key, j);
      assert i <= p;
      assert events[p].now <= events[j].now;
      SameWindow(windowMs, events, i, p);
    }
  }

  lemma AnswerInWindow(o: Options, events: seq<Event>, i: nat, j: nat)
    requires Monotone(events) && Roomy(o, events) && i <= j < |events| && events[j].key == events[i].key
    requires Opening(o.windowMs, events, i) == i && (j == i || events[j].now < events[i].now + o.windowMs)
    ensures RunLimiter(o, [], events)[j].allowed
            <==> Attempts(events, events[i].key, i, j + 1) <= if o.attemptsPerWindow > 1 then o.attemptsPerWindow else 1
  {
    SameWindow(o.windowMs, events, i, j);
    AnswersExactly(o, events, j);
  }

  lemma {:induction false} FirstAreGranted(events: seq<Event>, answers: seq<Answer>, key: string, limit: int, from: nat, upTo: nat)
    requires upTo <= |events| == |answers| && limit >= 1
    requires forall j | from <= j < upTo && events[j].key == key ::
               answers[j].allowed <==> Attempts(events, key, from, j + 1) <= limit
    ensures Granted(events, answers, key, from, upTo) == AtMost(Attempts(events, key, from, upTo), limit)
  {
    if from < upTo {
      FirstAreGranted(events, answers, key, limit, from, upTo - 1);
    }
  }

  /**
   A window grants the configured attempts, at least one, and grants them to the first: of the
   key's attempts from the one that opens it up to any later moment before its reset.
  */
  lemma WindowGrants(o: Options, events: seq<Event>, i: nat, upTo: nat)
    requires Monotone(events) && Roomy(o, events) && i < upTo <= |events|
    requires Opening(o.windowMs, events, i) == i
    requires upTo == i + 1 || events[upTo - 1].now < events[i].now + o.windowMs
    ensures var answers, key := RunLimiter(o, [], events), events[i].key;
            var limit := if o.attemptsPerWindow > 1 then o.attemptsPerWindow else 1;
            && Granted(events, answers, key, i, upTo) == AtMost(Attempts(events, key, i, upTo), limit)
            && forall j | i <= j < upTo && events[j].key == key ::
                 answers[j].allowed <==> Attempts(events, key, i, j + 1) <= limit
  {
    var answers, key := RunLimiter(o, [], events), events[i].key;
    var limit := if o.attemptsPerWindow > 1 then o.attemptsPerWindow else 1;
    forall j | i <= j < upTo && events[j].key == key
      ensures answers[j].allowed <==> Attempts(events, key, i, j + 1) <= limit
    {
      assert events[j].now <= events[upTo - 1].now;
      AnswerInWindow(o, events, i, j);
    }
    FirstAreGranted(events, answers, key, limit, i, upTo);
  }
}
