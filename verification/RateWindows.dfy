/** Properties of the limiter over whole runs of checks, for any number of interleaved keys. */
module RateWindows {
  import opened Common
  import opened RateLimiter

  datatype Event = Event(key: string, now: int)

  /** The clock never goes backwards. */
  ghost predicate Monotone(events: seq<Event>) {
    forall i, j | 0 <= i <= j < |events| :: events[i].now <= events[j].now
  }

  ghost predicate NotBefore(events: seq<Event>, clock: int) {
    forall e <- events :: clock <= e.now
  }

  lemma MonotoneTail(events: seq<Event>)
    requires events != [] && Monotone(events)
    ensures Monotone(events[1..]) && NotBefore(events[1..], events[0].now)
  {
    forall x <- events[1..] ensures events[0].now <= x.now {
      var i :| 0 <= i < |events[1..]| && events[1..][i] == x;
      assert events[i + 1] == x;
    }
  }

  function RunLimiter(o: Options, s: Slots, events: seq<Event>): (answers: seq<Answer>)
    ensures |answers| == |events|
    decreases |events|
  {
    if events == [] then []
    else
      var (next, answer) := Step(o, s, events[0].key, events[0].now);
      [answer] + RunLimiter(o, next, events[1..])
  }

  function StateAfter(o: Options, s: Slots, events: seq<Event>): Slots
    decreases |events|
  {
    if events == [] then s
    else StateAfter(o, Step(o, s, events[0].key, events[0].now).0, events[1..])
  }

  // ---------- representation ----------

  lemma PutDistinct(s: Slots, key: string, entry: Entry)
    requires DistinctKeys(s)
    ensures DistinctKeys(Put(s, key, entry))
    ensures forall x :: x in Put(s, key, entry) <==> x == Slot(key, entry) || (x in s && x.key != key)
  {
    var i := IndexOf(s, key);
    var p := Put(s, key, entry);
    if i < |s| {
      assert p[i] == Slot(key, entry);
      forall x | x in s && x.key != key ensures x in p {
        var j :| 0 <= j < |s| && s[j] == x;
        assert p[j] == x;
      }
    } else {
      assert p[|s|] == Slot(key, entry);
    }
  }

  lemma RemoveDistinct(s: Slots, i: nat)
    requires DistinctKeys(s) && i < |s|
    ensures DistinctKeys(RemoveAt(s, i))
    ensures forall x :: x in RemoveAt(s, i) <==> x in s && x.key != s[i].key
  {
    var r := RemoveAt(s, i);
    forall x | x in s && x.key != s[i].key ensures x in r {
      var j :| 0 <= j < |s| && s[j] == x;
      assert if j < i then r[j] == x else r[j - 1] == x;
    }
  }

  lemma StepDistinct(o: Options, s: Slots, key: string, now: int)
    requires DistinctKeys(s)
    ensures DistinctKeys(Step(o, s, key, now).0)
  {
    UnexpiredIsLive(s, now);
    var live := Unexpired(s, now);
    if live != [] {
      RemoveDistinct(live, OldestFrom(live, 0));
    }
    forall entry: Entry ensures DistinctKeys(Put(live, key, entry)) && DistinctKeys(Put(WithoutOldest(live), key, entry)) {
      PutDistinct(live, key, entry);
      PutDistinct(WithoutOldest(live), key, entry);
    }
  }

  /** The roll-over branch of `check` is dead: eviction already removed every expired entry. */
  lemma RollOverUnreachable(s: Slots, key: string, now: int)
    requires DistinctKeys(s)
    ensures Lookup(Unexpired(s, now), key).Some? ==> now < Lookup(Unexpired(s, now), key).value.resetAt
  {
    UnexpiredIsLive(s, now);
    var live := Unexpired(s, now);
    if IndexOf(live, key) < |live| {
      assert live[IndexOf(live, key)] in live;
    }
  }

  lemma PutLength(s: Slots, key: string, entry: Entry)
    ensures |Put(s, key, entry)| == if HasKey(s, key) then |s| else |s| + 1
  {
  }

  lemma InsertBounded(o: Options, s: Slots, key: string, entry: Entry)
    requires |s| <= o.maxEntries || |s| <= 1
    ensures |Insert(o, s, key, entry)| <= o.maxEntries || |Insert(o, s, key, entry)| <= 1
  {
    PutLength(s, key, entry);
    PutLength(WithoutOldest(s), key, entry);
  }

  lemma StepBounded(o: Options, s: Slots, key: string, now: int)
    requires DistinctKeys(s)
    requires |s| <= o.maxEntries || |s| <= 1
    ensures |Step(o, s, key, now).0| <= o.maxEntries || |Step(o, s, key, now).0| <= 1
  {
    UnexpiredIsLive(s, now);
    StepAt(o, s, key, now);
    InsertBounded(o, Unexpired(s, now), key, Fresh(o, now));
  }

  /** The map is bounded by `maxEntries`, and by one entry when that is below one, whatever the clock does. */
  lemma {:induction false} AlwaysBounded(o: Options, s: Slots, events: seq<Event>)
    requires DistinctKeys(s)
    requires |s| <= o.maxEntries || |s| <= 1
    ensures |StateAfter(o, s, events)| <= o.maxEntries || |StateAfter(o, s, events)| <= 1
    decreases |events|
  {
    if events != [] {
      StepDistinct(o, s, events[0].key, events[0].now);
      StepBounded(o, s, events[0].key, events[0].now);
      AlwaysBounded(o, Step(o, s, events[0].key, events[0].now).0, events[1..]);
    }
  }

  /** Insertion order is reset order, and nothing resets later than a window opened now would. */
  ghost predicate Ordered(o: Options, s: Slots, clock: int) {
    && (forall i, j | 0 <= i < j < |s| :: s[i].entry.resetAt <= s[j].entry.resetAt)
    && (forall i | 0 <= i < |s| :: s[i].entry.resetAt <= clock + o.windowMs)
  }

  /** Expired entries are a prefix. */
  lemma {:induction false} UnexpiredSuffix(s: Slots, now: int) returns (k: nat)
    requires forall i, j | 0 <= i < j < |s| :: s[i].entry.resetAt <= s[j].entry.resetAt
    ensures k <= |s| && Unexpired(s, now) == s[k..]
  {
    if s == [] {
      k := 0;
    } else if now >= s[0].entry.resetAt {
      k := UnexpiredSuffix(s[1..], now);
      assert s[1..][k..] == s[k + 1..];
      k := k + 1;
    } else {
      AllLive(s, now);
      k := 0;
    }
  }

  lemma {:induction false} AllLive(s: Slots, now: int)
    requires forall i | 0 <= i < |s| :: now < s[i].entry.resetAt
    ensures Unexpired(s, now) == s
  {
    if s != [] {
      AllLive(s[1..], now);
    }
  }

  lemma UnexpiredOrdered(o: Options, s: Slots, clock: int, now: int)
    requires Ordered(o, s, clock)
    ensures Ordered(o, Unexpired(s, now), clock)
  {
    var k := UnexpiredSuffix(s, now);
  }

  /** With a clock that does not go back, eviction of the oldest entry removes the first one. */
  lemma OldestIsFirst(o: Options, s: Slots, clock: int)
    requires Ordered(o, s, clock) && s != []
    ensures WithoutOldest(s) == s[1..]
  {
    assert OldestFrom(s, 0) == 0;
    assert RemoveAt(s, 0) == s[1..];
  }

  lemma AppendOrdered(o: Options, s: Slots, clock: int, key: string, now: int)
    requires Ordered(o, s, clock) && clock <= now && !HasKey(s, key)
    ensures Ordered(o, Put(s, key, Fresh(o, now)), now)
  {
    var p := Put(s, key, Fresh(o, now));
    assert p == s + [Slot(key, Fresh(o, now))];
    forall i | 0 <= i < |s| ensures p[i].entry.resetAt <= now + o.windowMs {
      assert p[i] == s[i];
    }
  }

  lemma TailOrdered(o: Options, s: Slots, clock: int, key: string)
    requires Ordered(o, s, clock) && s != [] && !HasKey(s, key)
    ensures Ordered(o, s[1..], clock) && !HasKey(s[1..], key)
  {
    assert forall i | 0 <= i < |s[1..]| :: s[1..][i] == s[i + 1];
  }

  lemma InsertOrdered(o: Options, s: Slots, clock: int, key: string, now: int)
    requires Ordered(o, s, clock) && clock <= now && !HasKey(s, key)
    ensures Ordered(o, Insert(o, s, key, Fresh(o, now)), now)
  {
    AppendOrdered(o, s, clock, key, now);
    if s != [] {
      OldestIsFirst(o, s, clock);
      TailOrdered(o, s, clock, key);
      AppendOrdered(o, s[1..], clock, key, now);
    }
  }

  lemma CountOrdered(o: Options, live: Slots, clock: int, key: string, i: nat, entry: Entry)
    requires Ordered(o, live, clock) && i < |live| && entry.resetAt == live[i].entry.resetAt
    ensures Ordered(o, live[i := Slot(key, entry)], clock)
  {
  }

  /** A step keeps the order. */
  lemma StepOrdered(o: Options, s: Slots, clock: int, key: string, now: int)
    requires DistinctKeys(s) && Ordered(o, s, clock) && clock <= now
    ensures Ordered(o, Step(o, s, key, now).0, now)
  {
    UnexpiredOrdered(o, s, clock, now);
    var live := Unexpired(s, now);
    StepAt(o, s, key, now);
    if HasKey(live, key) {
      var i := IndexOf(live, key);
      var existing := live[i].entry;
      CountOrdered(o, live, now, key, i, existing.(attempts := existing.attempts + 1));
    } else {
      InsertOrdered(o, live, clock, key, now);
    }
  }

  /** Over every run with a clock that does not go back, insertion order stays reset order. */
  lemma {:induction false} AlwaysOrdered(o: Options, s: Slots, clock: int, events: seq<Event>)
    requires DistinctKeys(s) && Ordered(o, s, clock)
    requires Monotone(events) && NotBefore(events, clock)
    ensures Ordered(o, StateAfter(o, s, events), if events == [] then clock else events[|events| - 1].now)
    decreases |events|
  {
    if events != [] {
      assert events[0] in events;
      StepDistinct(o, s, events[0].key, events[0].now);
      StepOrdered(o, s, clock, events[0].key, events[0].now);
      MonotoneTail(events);
      AlwaysOrdered(o, Step(o, s, events[0].key, events[0].now).0, events[0].now, events[1..]);
    }
  }

  // ---------- a refused key is served again ----------

  ghost predicate WaitsUntil(s: Slots, key: string, resetAt: int) {
    forall x <- s :: x.key == key ==> x.entry.resetAt <= resetAt
  }

  lemma PutWaits(s: Slots, key: string, resetAt: int, other: string, entry: Entry)
    requires DistinctKeys(s) && WaitsUntil(s, key, resetAt) && other != key
    ensures WaitsUntil(Put(s, other, entry), key, resetAt)
  {
    PutDistinct(s, other, entry);
  }

  lemma WithoutOldestWaits(s: Slots, key: string, resetAt: int)
    requires DistinctKeys(s) && WaitsUntil(s, key, resetAt)
    ensures DistinctKeys(WithoutOldest(s)) && WaitsUntil(WithoutOldest(s), key, resetAt)
  {
    if s != [] {
      RemoveDistinct(s, OldestFrom(s, 0));
    }
  }

  /** A check keeps or refreshes an entry, or inserts one after an eviction at most. */
  lemma OtherKeyWaits(o: Options, s: Slots, key: string, resetAt: int, other: string, now: int)
    requires DistinctKeys(s) && WaitsUntil(s, key, resetAt) && other != key
    ensures WaitsUntil(Step(o, s, other, now).0, key, resetAt)
  {
    UnexpiredIsLive(s, now);
    StepAt(o, s, other, now);
    var live := Unexpired(s, now);
    if HasKey(live, other) {
      var existing := live[IndexOf(live, other)].entry;
      PutWaits(live, key, resetAt, other, existing.(attempts := existing.attempts + 1));
    } else {
      WithoutOldestWaits(live, key, resetAt);
      PutWaits(live, key, resetAt, other, Fresh(o, now));
      PutWaits(WithoutOldest(live), key, resetAt, other, Fresh(o, now));
    }
  }

  lemma {:induction false} OthersWait(o: Options, s: Slots, key: string, resetAt: int, others: seq<Event>)
    requires DistinctKeys(s) && WaitsUntil(s, key, resetAt)
    requires forall e <- others :: e.key != key
    ensures DistinctKeys(StateAfter(o, s, others)) && WaitsUntil(StateAfter(o, s, others), key, resetAt)
    decreases |others|
  {
    if others != [] {
      assert others[0] in others;
      StepDistinct(o, s, others[0].key, others[0].now);
      OtherKeyWaits(o, s, key, resetAt, others[0].key, others[0].now);
      assert forall e <- others[1..] :: e in others;
      OthersWait(o, Step(o, s, others[0].key, others[0].now).0, key, resetAt, others[1..]);
    }
  }

  /**
   A refusal's `retryAfterSeconds` is honest: whatever other keys do meanwhile, the key's next
   check is allowed once that long has passed; and it is the least whole number of seconds.
  */
  lemma RetryAfterIsHonest(o: Options, s: Slots, key: string, now: int, others: seq<Event>, later: int)
    requires DistinctKeys(s)
    requires !Step(o, s, key, now).1.allowed
    requires forall e <- others :: e.key != key
    requires now + 1000 * Step(o, s, key, now).1.retryAfterSeconds <= later
    ensures Step(o, StateAfter(o, Step(o, s, key, now).0, others), key, later).1.allowed
    ensures var answer := Step(o, s, key, now).1;
      1 <= answer.retryAfterSeconds && now + 1000 * (answer.retryAfterSeconds - 1) < answer.entry.resetAt
  {
    var (refused, answer) := Step(o, s, key, now);
    var live := Unexpired(s, now);
    UnexpiredIsLive(s, now);
    RollOverUnreachable(s, key, now);
    var i := IndexOf(live, key);
    assert refused == live && live[i].entry == answer.entry;
    assert WaitsUntil(refused, key, answer.entry.resetAt);
    OthersWait(o, refused, key, answer.entry.resetAt, others);
    var s' := StateAfter(o, refused, others);
    UnexpiredIsLive(s', later);
    var late := Unexpired(s', later);
    forall x <- late ensures x.key != key {
      assert x in s';
    }
    assert forall j | 0 <= j < |late| :: late[j] in late;
  }

  // ---------- the unbounded limiter ----------

  /** One window per key, never evicted. */
  type Windows = map<string, Entry>

  predicate Open(m: Windows, key: string, now: int) {
    key in m && now < m[key].resetAt
  }

  function IdealStep(o: Options, m: Windows, key: string, now: int): (Windows, Answer) {
    if !Open(m, key, now) then (m[key := Fresh(o, now)], Answer(true, 0, Fresh(o, now)))
    else if m[key].attempts >= o.attemptsPerWindow then
      (m, Answer(false, CeilSeconds(m[key].resetAt - now), m[key]))
    else
      var counted := m[key].(attempts := m[key].attempts + 1);
      (m[key := counted], Answer(true, 0, counted))
  }

  function RunIdeal(o: Options, m: Windows, events: seq<Event>): (answers: seq<Answer>)
    ensures |answers| == |events|
    decreases |events|
  {
    if events == [] then []
    else
      var (next, answer) := IdealStep(o, m, events[0].key, events[0].now);
      [answer] + RunIdeal(o, next, events[1..])
  }

  function OpenKeys(m: Windows, now: int): set<string> {
    set key | key in m && now < m[key].resetAt
  }

  /** At each check at most `maxEntries` keys, the checked one included, have an open window. */
  ghost predicate Fits(o: Options, m: Windows, events: seq<Event>)
    decreases |events|
  {
    events == [] ||
    (&& |OpenKeys(m, events[0].now) + {events[0].key}| <= o.maxEntries
     && Fits(o, IdealStep(o, m, events[0].key, events[0].now).0, events[1..]))
  }

  /** The limiter holds every open window, and nothing that is not a window of the ideal one. */
  ghost predicate Refines(s: Slots, m: Windows, clock: int) {
    && DistinctKeys(s)
    && (forall x <- s :: x.key in m && m[x.key] == x.entry)
    && (forall key | Open(m, key, clock) :: Slot(key, m[key]) in s)
  }

  function KeysOf(s: Slots): set<string> {
    set x | x in s :: x.key
  }

  lemma {:induction false} KeyCount(s: Slots)
    requires DistinctKeys(s)
    ensures |KeysOf(s)| == |s|
  {
    if s != [] {
      KeyCount(s[1..]);
      assert s == [s[0]] + s[1..];
      assert KeysOf(s) == {s[0].key} + KeysOf(s[1..]);
      assert s[0].key !in KeysOf(s[1..]);
    }
  }

  lemma LookupIsWindow(s: Slots, m: Windows, clock: int, key: string, now: int)
    requires Refines(s, m, clock) && clock <= now
    ensures var live := Unexpired(s, now);
      && DistinctKeys(live)
      && (forall x :: x in live <==> x.key in m && now < m[x.key].resetAt && x.entry == m[x.key])
      && Lookup(live, key) == (if Open(m, key, now) then Some(m[key]) else None)
      && |live| == |OpenKeys(m, now)|
  {
    UnexpiredIsLive(s, now);
    var live := Unexpired(s, now);
    forall x ensures x in live <==> x.key in m && now < m[x.key].resetAt && x.entry == m[x.key] {
      if x.key in m && now < m[x.key].resetAt && x.entry == m[x.key] {
        assert Open(m, x.key, clock);
        assert Slot(x.key, m[x.key]) in s && x == Slot(x.key, m[x.key]);
      }
    }
    if Open(m, key, now) {
      assert Slot(key, m[key]) in live;
    }
    if IndexOf(live, key) < |live| {
      assert live[IndexOf(live, key)] in live;
    }
    KeyCount(live);
    assert KeysOf(live) == OpenKeys(m, now) by {
      forall k ensures k in KeysOf(live) <==> k in OpenKeys(m, now) {
        if k in OpenKeys(m, now) {
          assert Slot(k, m[k]) in live;
        }
      }
    }
  }

  /** Recording `entry` for `key` on both sides keeps the refinement. */
  lemma PutRefines(live: Slots, m: Windows, now: int, key: string, entry: Entry)
    requires DistinctKeys(live)
    requires forall x :: x in live <==> x.key in m && now < m[x.key].resetAt && x.entry == m[x.key]
    ensures Refines(Put(live, key, entry), m[key := entry], now)
  {
    PutDistinct(live, key, entry);
    var m' := m[key := entry];
    forall k | Open(m', k, now) ensures Slot(k, m'[k]) in Put(live, key, entry) {
      if k != key {
        assert Slot(k, m[k]) in live;
      }
    }
  }

  lemma StepRefines(o: Options, s: Slots, m: Windows, clock: int, key: string, now: int)
    requires Refines(s, m, clock) && clock <= now
    requires |OpenKeys(m, now) + {key}| <= o.maxEntries
    ensures Step(o, s, key, now).1 == IdealStep(o, m, key, now).1
    ensures Refines(Step(o, s, key, now).0, IdealStep(o, m, key, now).0, now)
  {
    var live := Unexpired(s, now);
    LookupIsWindow(s, m, clock, key, now);
    PutRefines(live, m, now, key, IdealStep(o, m, key, now).1.entry);
    if Open(m, key, now) {
      assert Lookup(live, key) == Some(m[key]);
      LiveRefines(live, m, now);
    } else {
      assert key !in OpenKeys(m, now);
      assert |OpenKeys(m, now) + {key}| == |live| + 1;
      assert Insert(o, live, key, Fresh(o, now)) == Put(live, key, Fresh(o, now));
    }
  }

  lemma LiveRefines(live: Slots, m: Windows, now: int)
    requires DistinctKeys(live)
    requires forall x :: x in live <==> x.key in m && now < m[x.key].resetAt && x.entry == m[x.key]
    ensures Refines(live, m, now)
  {
  }

  /**
   On every run with a clock that does not go back and at most `maxEntries` keys unexpired at
   once, the bounded limiter answers exactly as the unbounded one.
  */
  lemma {:induction false} BoundedIsIdeal(o: Options, s: Slots, m: Windows, clock: int, events: seq<Event>)
    requires Refines(s, m, clock)
    requires Monotone(events) && NotBefore(events, clock)
    requires Fits(o, m, events)
    ensures RunLimiter(o, s, events) == RunIdeal(o, m, events)
    decreases |events|
  {
    if events != [] {
      var e := events[0];
      assert e in events;
      StepRefines(o, s, m, clock, e.key, e.now);
      assert NotBefore(events[1..], e.now) by {
        forall x <- events[1..] ensures e.now <= x.now {
          var i :| 0 <= i < |events[1..]| && events[1..][i] == x;
          assert events[i + 1] == x;
        }
      }
      BoundedIsIdeal(o, Step(o, s, e.key, e.now).0, IdealStep(o, m, e.key, e.now).0, e.now, events[1..]);
    }
  }

  // ---------- how much one key gets ----------

  /** The attempts one window allows; a window is always opened by an allowed attempt. */
  function Budget(o: Options): int {
    if o.attemptsPerWindow < 1 then 1 else o.attemptsPerWindow
  }

  /** How many checks of `key` in `[from, to)` were allowed. */
  function Allowed(events: seq<Event>, answers: seq<Answer>, key: string, from: int, to: int): nat
    requires |events| == |answers|
  {
    if events == [] then 0
    else (if events[0].key == key && from <= events[0].now < to && answers[0].allowed then 1 else 0)
         + Allowed(events[1..], answers[1..], key, from, to)
  }

  /** Inside one window at most the rest of its budget is allowed. */
  lemma {:induction false} RestOfWindow(o: Options, m: Windows, events: seq<Event>, key: string, from: int, to: int)
    requires Monotone(events)
    requires key in m && to <= m[key].resetAt && m[key].attempts <= Budget(o)
    ensures Allowed(events, RunIdeal(o, m, events), key, from, to) <= Budget(o) - m[key].attempts
    decreases |events|
  {
    if events != [] {
      var e := events[0];
      MonotoneTail(events);
      if e.now < to {
        RestOfWindow(o, IdealStep(o, m, e.key, e.now).0, events[1..], key, from, to);
      } else {
        LateIsNothing(o, m, events, key, from, to);
      }
    }
  }

  lemma {:induction false} LateIsNothing(o: Options, m: Windows, events: seq<Event>, key: string, from: int, to: int)
    requires Monotone(events) && NotBefore(events, to)
    ensures Allowed(events, RunIdeal(o, m, events), key, from, to) == 0
    decreases |events|
  {
    if events != [] {
      assert events[0] in events;
      MonotoneTail(events);
      assert forall e <- events[1..] :: e in events;
      LateIsNothing(o, IdealStep(o, m, events[0].key, events[0].now).0, events[1..], key, from, to);
    }
  }

  ghost predicate WithinBudget(o: Options, m: Windows) {
    forall key <- m :: 1 <= m[key].attempts <= Budget(o)
  }

  lemma StepWithinBudget(o: Options, m: Windows, key: string, now: int)
    requires WithinBudget(o, m)
    ensures WithinBudget(o, IdealStep(o, m, key, now).0)
  {
  }

  /** Once the interval has begun: a window opened inside it outlives it. */
  lemma {:induction false} InsideInterval(o: Options, m: Windows, events: seq<Event>, key: string, from: int, to: int)
    requires Monotone(events) && NotBefore(events, from) && WithinBudget(o, m)
    requires to <= from + o.windowMs
    ensures Allowed(events, RunIdeal(o, m, events), key, from, to)
         <= if key in m then 2 * Budget(o) - m[key].attempts else Budget(o)
    decreases |events|
  {
    if events != [] {
      var e := events[0];
      assert e in events;
      MonotoneTail(events);
      assert forall x <- events[1..] :: x in events;
      var next := IdealStep(o, m, e.key, e.now).0;
      StepWithinBudget(o, m, e.key, e.now);
      if e.key == key && !Open(m, key, e.now) {
        RestOfWindow(o, next, events[1..], key, from, to);
      } else {
        InsideInterval(o, next, events[1..], key, from, to);
      }
    }
  }

  lemma {:induction false} IntervalBound(o: Options, m: Windows, events: seq<Event>, key: string, from: int, to: int)
    requires Monotone(events) && WithinBudget(o, m)
    requires to <= from + o.windowMs
    ensures Allowed(events, RunIdeal(o, m, events), key, from, to) <= 2 * Budget(o) - 1
    decreases |events|
  {
    if events != [] {
      var e := events[0];
      MonotoneTail(events);
      if from <= e.now {
        assert NotBefore(events, from);
        InsideInterval(o, m, events, key, from, to);
      } else {
        StepWithinBudget(o, m, e.key, e.now);
        IntervalBound(o, IdealStep(o, m, e.key, e.now).0, events[1..], key, from, to);
      }
    }
  }

  /**
   No key is allowed more than 2N - 1 attempts in any interval of one window length (half
   open; N is at least one), however the other keys interleave.
  */
  lemma AtMostTwoWindows(o: Options, events: seq<Event>, key: string, from: int)
    requires Monotone(events)
    ensures Allowed(events, RunIdeal(o, map[], events), key, from, from + o.windowMs) <= 2 * Budget(o) - 1
  {
    IntervalBound(o, map[], events, key, from, from + o.windowMs);
  }

  /** The bounded limiter inherits the bound on every run that fits it. */
  lemma BoundedAtMostTwoWindows(o: Options, events: seq<Event>, clock: int, key: string, from: int)
    requires Monotone(events) && NotBefore(events, clock) && Fits(o, map[], events)
    ensures Allowed(events, RunLimiter(o, [], events), key, from, from + o.windowMs) <= 2 * Budget(o) - 1
  {
    BoundedIsIdeal(o, [], map[], clock, events);
    AtMostTwoWindows(o, events, key, from);
  }

  /** From the attempt that opens a window to its reset, at most N attempts are allowed, that one included. */
  lemma AtMostBudgetPerWindow(o: Options, m: Windows, events: seq<Event>, key: string)
    requires Monotone(events) && events != [] && events[0].key == key && !Open(m, key, events[0].now)
    ensures Allowed(events, RunIdeal(o, m, events), key, events[0].now, events[0].now + o.windowMs) <= Budget(o)
  {
    MonotoneTail(events);
    var e := events[0];
    RestOfWindow(o, IdealStep(o, m, key, e.now).0, events[1..], key, e.now, e.now + o.windowMs);
  }
}
