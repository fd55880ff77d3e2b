/** For which options the limiter keeps the bounds the options name, and what happens for the others. */
module RateOptions {
  import opened Common
  import opened RateLimiter
  import opened RateWindows

  // ---------- the bounds as configured ----------

  /** From the attempt that opens a window to its reset, at most `attemptsPerWindow` are allowed. */
  ghost predicate WithinWindowBound(o: Options, events: seq<Event>, answers: seq<Answer>)
    requires events != [] && |answers| == |events|
  {
    Allowed(events, answers, events[0].key, events[0].now, events[0].now + o.windowMs) <= o.attemptsPerWindow
  }

  /** A monotone run whose first check opens a window. */
  ghost predicate Opens(m: Windows, events: seq<Event>) {
    Monotone(events) && events != [] && !Open(m, events[0].key, events[0].now)
  }

  ghost predicate KeepsWindowBound(o: Options) {
    forall m: Windows, events: seq<Event> | Opens(m, events) :: WithinWindowBound(o, events, RunIdeal(o, m, events))
  }

  /** The run meets the bounded limiter in a state that holds every open window, and fits it. */
  ghost predicate Served(o: Options, s: Slots, m: Windows, clock: int, events: seq<Event>) {
    Refines(s, m, clock) && NotBefore(events, clock) && Fits(o, m, events)
  }

  /** The same of the bounded limiter, from any state and on any run where no open window is evicted. */
  ghost predicate KeepsWindowBoundWhenFitting(o: Options) {
    forall s: Slots, m: Windows, clock: int, events: seq<Event> | Opens(m, events) && Served(o, s, m, clock, events) ::
      WithinWindowBound(o, events, RunLimiter(o, s, events))
  }

  ghost predicate WithinIntervalBound(o: Options, events: seq<Event>, key: string, from: int) {
    Allowed(events, RunIdeal(o, map[], events), key, from, from + o.windowMs) <= 2 * o.attemptsPerWindow - 1
  }

  /** In any half-open interval of one window length at most twice the attempts less one are allowed. */
  ghost predicate KeepsIntervalBound(o: Options) {
    forall events: seq<Event>, key: string, from: int | Monotone(events) :: WithinIntervalBound(o, events, key, from)
  }

  /** The map never holds more than `maxEntries` entries. */
  ghost predicate KeepsMapBound(o: Options) {
    forall events: seq<Event> :: |StateAfter(o, [], events)| <= o.maxEntries
  }

  // ---------- at the inputs where they fail ----------

  /** Whatever the options, the first check is allowed and leaves one entry. */
  lemma FirstIsAllowed(o: Options, key: string, now: int)
    ensures Step(o, [], key, now) == ([Slot(key, Fresh(o, now))], Answer(true, 0, Fresh(o, now)))
    ensures o.attemptsPerWindow < 1 ==> Step(o, [], key, now).1.allowed
    ensures o.maxEntries < 1 ==> |Step(o, [], key, now).0| == 1
  {
    assert Unexpired([], now) == [] && WithoutOldest([]) == [];
    assert Put([], key, Fresh(o, now)) == [Slot(key, Fresh(o, now))];
  }

  const ONE: seq<Event> := [Event("a", 0)]

  lemma OneCheck(o: Options)
    ensures Monotone(ONE)
    ensures Allowed(ONE, RunIdeal(o, map[], ONE), "a", 0, o.windowMs) == if o.windowMs > 0 then 1 else 0
    ensures RunLimiter(o, [], ONE) == RunIdeal(o, map[], ONE)
    ensures |StateAfter(o, [], ONE)| == 1
  {
    FirstIsAllowed(o, "a", 0);
    assert ONE[1..] == [];
    var answers := RunIdeal(o, map[], ONE);
    assert answers[0] == Answer(true, 0, Fresh(o, 0)) && answers[1..] == [];
    assert RunLimiter(o, Step(o, [], "a", 0).0, []) == [];
  }

  // ---------- exactly when they hold ----------

  lemma {:induction false} EmptyInterval(events: seq<Event>, answers: seq<Answer>, key: string, from: int, to: int)
    requires |events| == |answers| && to <= from
    ensures Allowed(events, answers, key, from, to) == 0
  {
    if events != [] {
      EmptyInterval(events[1..], answers[1..], key, from, to);
    }
  }

  /** The least `attemptsPerWindow` that is kept: a window of positive length lets its opening attempt through. */
  function LeastKept(o: Options): int {
    if o.windowMs > 0 then 1 else 0
  }

  lemma WindowBound(o: Options, m: Windows, events: seq<Event>)
    requires LeastKept(o) <= o.attemptsPerWindow && Opens(m, events)
    ensures WithinWindowBound(o, events, RunIdeal(o, m, events))
  {
    if o.windowMs > 0 {
      AtMostBudgetPerWindow(o, m, events, events[0].key);
    } else {
      EmptyInterval(events, RunIdeal(o, m, events), events[0].key, events[0].now, events[0].now + o.windowMs);
    }
  }

  /** The per-window bound holds exactly when at least one attempt is configured (none, for empty windows). */
  lemma WindowBoundExactly(o: Options)
    ensures KeepsWindowBound(o) <==> LeastKept(o) <= o.attemptsPerWindow
  {
    if LeastKept(o) <= o.attemptsPerWindow {
      forall m: Windows, events: seq<Event> | Opens(m, events)
        ensures WithinWindowBound(o, events, RunIdeal(o, m, events))
      {
        WindowBound(o, m, events);
      }
    }
    if KeepsWindowBound(o) {
      OneCheck(o);
      assert Opens(map[], ONE);
      assert WithinWindowBound(o, ONE, RunIdeal(o, map[], ONE));
    }
  }

  lemma FittingWindowBound(o: Options, s: Slots, m: Windows, clock: int, events: seq<Event>)
    requires LeastKept(o) <= o.attemptsPerWindow && Opens(m, events) && Served(o, s, m, clock, events)
    ensures WithinWindowBound(o, events, RunLimiter(o, s, events))
  {
    BoundedIsIdeal(o, s, m, clock, events);
    WindowBound(o, m, events);
  }

  /** The same for the bounded limiter, as soon as it has room for a key at all. */
  lemma FittingWindowBoundExactly(o: Options)
    requires o.maxEntries >= 1
    ensures KeepsWindowBoundWhenFitting(o) <==> LeastKept(o) <= o.attemptsPerWindow
  {
    if LeastKept(o) <= o.attemptsPerWindow {
      forall s: Slots, m: Windows, clock: int, events: seq<Event> | Opens(m, events) && Served(o, s, m, clock, events)
        ensures WithinWindowBound(o, events, RunLimiter(o, s, events))
      {
        FittingWindowBound(o, s, m, clock, events);
      }
    }
    if KeepsWindowBoundWhenFitting(o) {
      OneCheck(o);
      OneFits(o);
      assert Opens(map[], ONE) && Served(o, [], map[], 0, ONE);
      assert WithinWindowBound(o, ONE, RunLimiter(o, [], ONE));
    }
  }

  lemma OneFits(o: Options)
    requires o.maxEntries >= 1
    ensures Fits(o, map[], ONE)
  {
    assert OpenKeys(map[], 0) + {"a"} == {"a"};
    assert ONE[1..] == [];
  }

  lemma IntervalBoundExactly(o: Options)
    ensures KeepsIntervalBound(o) <==> o.attemptsPerWindow >= 1
  {
    if o.attemptsPerWindow >= 1 {
      forall events: seq<Event>, key: string, from: int | Monotone(events)
        ensures WithinIntervalBound(o, events, key, from)
      {
        AtMostTwoWindows(o, events, key, from);
      }
    }
    if KeepsIntervalBound(o) {
      assert WithinIntervalBound(o, [], "a", 0);
    }
  }

  lemma MapBoundExactly(o: Options)
    ensures KeepsMapBound(o) <==> o.maxEntries >= 1
  {
    if o.maxEntries >= 1 {
      forall events: seq<Event> ensures |StateAfter(o, [], events)| <= o.maxEntries {
        AlwaysBounded(o, [], events);
      }
    }
    if KeepsMapBound(o) {
      OneCheck(o);
      assert |StateAfter(o, [], ONE)| <= o.maxEntries;
    }
  }

  // ---------- eviction forgets windows ----------

  /** The per-window bound without the condition that the run fits. */
  ghost predicate KeepsWindowBoundAlways(o: Options) {
    forall events: seq<Event> | Opens(map[], events) :: WithinWindowBound(o, events, RunLimiter(o, [], events))
  }

  /** How many keys the map holds at most. */
  function Room(o: Options): (room: nat)
    ensures room >= 1 && (o.maxEntries >= 1 ==> room == o.maxEntries)
  {
    if o.maxEntries < 1 then 1 else o.maxEntries
  }

  /** One key more than there is room for, taken in turn: the number of the `i`-th. */
  function Turn(room: nat, i: nat): (turn: nat)
    ensures turn <= room
  {
    if i <= room then i else Turn(room, i - room - 1)
  }

  function TurnKey(room: nat, i: nat): string {
    seq(Turn(room, i), j => 'k')
  }

  function Turns(room: nat, from: nat, n: nat): seq<Event> {
    seq(n, j requires 0 <= j < n => Event(TurnKey(room, from + j), 0))
  }

  lemma {:induction false} TurnsDiffer(room: nat, i: nat, d: nat)
    requires 1 <= d <= room && d <= i
    ensures Turn(room, i) != Turn(room, i - d)
  {
    if i > room && i - d > room {
      TurnsDiffer(room, i - room - 1, d);
    }
  }

  lemma KeysDiffer(room: nat, i: nat, d: nat)
    requires 1 <= d <= room && d <= i
    ensures TurnKey(room, i) != TurnKey(room, i - d)
  {
    TurnsDiffer(room, i, d);
    assert |TurnKey(room, i)| == Turn(room, i) && |TurnKey(room, i - d)| == Turn(room, i - d);
  }

  function Least(a: nat, b: nat): nat {
    if a <= b then a else b
  }

  /** After `i` turns the map holds the last of them. */
  function Held(o: Options, i: nat): Slots {
    var n := Least(i, Room(o));
    seq(n, j requires 0 <= j < n => Slot(TurnKey(Room(o), i - n + j), Fresh(o, 0)))
  }

  lemma HeldLacks(o: Options, i: nat)
    ensures !HasKey(Held(o, i), TurnKey(Room(o), i))
  {
    var n := Least(i, Room(o));
    forall j | 0 <= j < n ensures Held(o, i)[j].key != TurnKey(Room(o), i) {
      KeysDiffer(Room(o), i, n - j);
    }
  }

  lemma {:induction false} NothingExpires(s: Slots, now: int)
    requires forall x <- s :: now < x.entry.resetAt
    ensures Unexpired(s, now) == s
  {
    if s != [] {
      NothingExpires(s[1..], now);
    }
  }

  /** Every turn misses: its key was evicted by the one before it came round again. */
  lemma TurnMisses(o: Options, i: nat)
    requires o.windowMs > 0
    ensures Step(o, Held(o, i), TurnKey(Room(o), i), 0) == (Held(o, i + 1), Answer(true, 0, Fresh(o, 0)))
  {
    var s, key := Held(o, i), TurnKey(Room(o), i);
    forall x <- s ensures x.entry == Fresh(o, 0) {
      var j :| 0 <= j < |s| && s[j] == x;
    }
    NothingExpires(s, 0);
    HeldLacks(o, i);
    if i < Room(o) {
      HeldGrows(o, i);
    } else {
      HeldSlides(o, i);
    }
    InsertMiss(o, s, key, Fresh(o, 0));
  }

  lemma HeldGrows(o: Options, i: nat)
    requires i < Room(o)
    ensures Held(o, i + 1) == Held(o, i) + [Slot(TurnKey(Room(o), i), Fresh(o, 0))]
    ensures |Held(o, i)| < o.maxEntries || Held(o, i) == []
  {
  }

  lemma HeldSlides(o: Options, i: nat)
    requires i >= Room(o)
    ensures Held(o, i) != [] && |Held(o, i)| >= o.maxEntries
    ensures WithoutOldest(Held(o, i)) == Held(o, i)[1..]
    ensures Held(o, i + 1) == Held(o, i)[1..] + [Slot(TurnKey(Room(o), i), Fresh(o, 0))]
  {
    FirstIsOldest(Held(o, i));
  }

  lemma FirstIsOldest(s: Slots)
    requires s != [] && forall j | 0 <= j < |s| :: s[j].entry == s[0].entry
    ensures WithoutOldest(s) == s[1..]
  {
    assert OldestFrom(s, 0) == 0;
  }

  lemma InsertMiss(o: Options, s: Slots, key: string, entry: Entry)
    requires !HasKey(s, key) && (forall x <- WithoutOldest(s) :: x in s)
    ensures Insert(o, s, key, entry) == (if |s| >= o.maxEntries then WithoutOldest(s) else s) + [Slot(key, entry)]
  {
    var rest := WithoutOldest(s);
    forall j | 0 <= j < |rest| ensures rest[j].key != key {
      assert rest[j] in s;
    }
  }

  function Repeated<T>(x: T, n: nat): (r: seq<T>)
    ensures |r| == n
  {
    if n == 0 then [] else [x] + Repeated(x, n - 1)
  }

  lemma TurnsTail(room: nat, i: nat, n: nat)
    requires n > 0
    ensures Turns(room, i, n)[0] == Event(TurnKey(room, i), 0) && Turns(room, i, n)[1..] == Turns(room, i + 1, n - 1)
  {
  }

  lemma RunStep(o: Options, s: Slots, events: seq<Event>, next: Slots, answer: Answer)
    requires events != [] && Step(o, s, events[0].key, events[0].now) == (next, answer)
    ensures RunLimiter(o, s, events) == [answer] + RunLimiter(o, next, events[1..])
  {
  }

  lemma {:induction false} TurnsAllowed(o: Options, i: nat, n: nat)
    requires o.windowMs > 0
    ensures RunLimiter(o, Held(o, i), Turns(Room(o), i, n)) == Repeated(Answer(true, 0, Fresh(o, 0)), n)
    decreases n
  {
    if n > 0 {
      var yes := Answer(true, 0, Fresh(o, 0));
      TurnsTail(Room(o), i, n);
      TurnMisses(o, i);
      RunStep(o, Held(o, i), Turns(Room(o), i, n), Held(o, i + 1), yes);
      TurnsAllowed(o, i + 1, n - 1);
    }
  }

  /** The turns of so many rounds. */
  function Rounds(room: nat, rounds: nat): nat {
    if rounds == 0 then 0 else room + 1 + Rounds(room, rounds - 1)
  }

  lemma {:induction false} SuffixAllows(events: seq<Event>, answers: seq<Answer>, k: nat, key: string, from: int, to: int)
    requires |events| == |answers| && k <= |events|
    ensures Allowed(events[k..], answers[k..], key, from, to) <= Allowed(events, answers, key, from, to)
  {
    if k == 0 {
      assert events[0..] == events && answers[0..] == answers;
    } else {
      SuffixAllows(events[1..], answers[1..], k - 1, key, from, to);
      assert events[1..][k - 1..] == events[k..] && answers[1..][k - 1..] == answers[k..];
    }
  }

  lemma {:induction false} RepeatedSuffix<T>(x: T, n: nat, k: nat)
    requires k <= n
    ensures Repeated(x, n)[k..] == Repeated(x, n - k)
  {
    if k > 0 {
      RepeatedSuffix(x, n - 1, k - 1);
      assert Repeated(x, n)[k..] == Repeated(x, n - 1)[k - 1..];
    } else {
      assert Repeated(x, n)[0..] == Repeated(x, n);
    }
  }

  /** Each round the first key is allowed once more. */
  lemma {:induction false} RoundsAllow(o: Options, room: nat, i: nat, rounds: nat, yes: Answer)
    requires o.windowMs > 0 && yes.allowed && Turn(room, i) == 0
    ensures rounds <= Allowed(Turns(room, i, Rounds(room, rounds)), Repeated(yes, Rounds(room, rounds)), "", 0, o.windowMs)
    decreases rounds
  {
    if rounds > 0 {
      var n, rest := Rounds(room, rounds), Rounds(room, rounds - 1);
      var events, answers := Turns(room, i, n), Repeated(yes, n);
      RoundsAllow(o, room, i + room + 1, rounds - 1, yes);
      assert events[1..][room..] == Turns(room, i + room + 1, rest);
      RepeatedSuffix(yes, n - 1, room);
      SuffixAllows(events[1..], answers[1..], room, "", 0, o.windowMs);
      assert TurnKey(room, i) == "" && events[0] == Event("", 0);
    }
  }

  /** A run whose first key is allowed more than so many attempts in the window its first check opens. */
  ghost predicate Exceeds(o: Options, events: seq<Event>, attempts: int) {
    && Opens(map[], events)
    && Allowed(events, RunLimiter(o, [], events), events[0].key, events[0].now, events[0].now + o.windowMs) > attempts
  }

  /** One key more than there is room for, taken in turn, exceeds any number of attempts. */
  lemma EvictionForgets(o: Options, attempts: int)
    requires o.windowMs > 0
    ensures exists events :: Exceeds(o, events, attempts)
  {
    var rounds: nat := if attempts < 0 then 1 else attempts + 1;
    var n := Rounds(Room(o), rounds);
    TurnsOpen(o, n);
    TurnsAllowed(o, 0, n);
    RoundsAllow(o, Room(o), 0, rounds, Answer(true, 0, Fresh(o, 0)));
    assert Exceeds(o, Turns(Room(o), 0, n), attempts);
  }

  lemma TurnsOpen(o: Options, n: nat)
    requires n > 0
    ensures Held(o, 0) == [] && Opens(map[], Turns(Room(o), 0, n)) && Turns(Room(o), 0, n)[0] == Event("", 0)
  {
    assert TurnKey(Room(o), 0) == "";
  }

  /** Without the condition that the run fits, no option keeps the bound for windows that last. */
  lemma AlwaysBoundExactly(o: Options)
    ensures KeepsWindowBoundAlways(o) <==> o.windowMs <= 0 <= o.attemptsPerWindow
  {
    if o.windowMs <= 0 <= o.attemptsPerWindow {
      forall events: seq<Event> | Opens(map[], events) ensures WithinWindowBound(o, events, RunLimiter(o, [], events)) {
        EmptyInterval(events, RunLimiter(o, [], events), events[0].key, events[0].now, events[0].now + o.windowMs);
      }
    }
    if o.windowMs > 0 {
      NeverAlways(o);
    } else if KeepsWindowBoundAlways(o) {
      OneCheck(o);
      assert Opens(map[], ONE);
      assert WithinWindowBound(o, ONE, RunLimiter(o, [], ONE));
    }
  }

  lemma NeverAlways(o: Options)
    requires o.windowMs > 0
    ensures !KeepsWindowBoundAlways(o)
  {
    EvictionForgets(o, o.attemptsPerWindow);
    var events :| Exceeds(o, events, o.attemptsPerWindow);
    assert !WithinWindowBound(o, events, RunLimiter(o, [], events));
  }
}
