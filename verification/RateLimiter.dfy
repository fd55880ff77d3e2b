/**
 The bounded in-memory fixed-window rate limiter: its ordered map, and the unbounded
 per-key limiter it refines.
*/
module RateLimiter {
  import opened Common

  datatype Options = Options(attemptsPerWindow: int, windowMs: int, maxEntries: int)

  datatype Entry = Entry(attempts: int, windowStart: int, resetAt: int)

  datatype Answer = Answer(allowed: bool, retryAfterSeconds: int, entry: Entry)

  datatype Slot = Slot(key: string, entry: Entry)

  /** A JavaScript Map: distinct keys in insertion order. */
  type Slots = seq<Slot>

  predicate DistinctKeys(s: Slots) {
    forall i, j | 0 <= i < j < |s| :: s[i].key != s[j].key
  }

  predicate HasKey(s: Slots, key: string) {
    exists i | 0 <= i < |s| :: s[i].key == key
  }

  function IndexOf(s: Slots, key: string): (i: nat)
    ensures i <= |s|
    ensures i < |s| <==> HasKey(s, key)
    ensures i < |s| ==> s[i].key == key
    ensures forall j | 0 <= j < i :: s[j].key != key
  {
    if s == [] then 0
    else if s[0].key == key then 0
    else
      var i := 1 + IndexOf(s[1..], key);
      assert forall j | 1 <= j < |s| :: s[j] == s[1..][j - 1];
      i
  }

  function Lookup(s: Slots, key: string): Option<Entry> {
    if IndexOf(s, key) < |s| then Some(s[IndexOf(s, key)].entry) else None
  }

  /** Map.prototype.set: in place for a present key, at the end for a new one. */
  function Put(s: Slots, key: string, entry: Entry): Slots {
    if IndexOf(s, key) < |s| then s[IndexOf(s, key) := Slot(key, entry)] else s + [Slot(key, entry)]
  }

  function RemoveAt(s: Slots, i: nat): Slots
    requires i < |s|
  {
    s[..i] + s[i + 1..]
  }

  // ---------- eviction ----------

  /** The slots that have not expired, in order. */
  function Unexpired(s: Slots, now: int): Slots {
    if s == [] then []
    else (if now >= s[0].entry.resetAt then [] else [s[0]]) + Unexpired(s[1..], now)
  }

  /** The first slot with the least reset time. */
  ghost predicate IsOldest(s: Slots, i: nat) {
    && i < |s|
    && (forall j | 0 <= j < |s| :: s[i].entry.resetAt <= s[j].entry.resetAt)
    && (forall j | 0 <= j < i :: s[i].entry.resetAt < s[j].entry.resetAt)
  }

  function OldestFrom(s: Slots, i: nat): (k: nat)
    requires i < |s|
    ensures i <= k < |s|
    ensures forall j | i <= j < |s| :: s[k].entry.resetAt <= s[j].entry.resetAt
    ensures forall j | i <= j < k :: s[k].entry.resetAt < s[j].entry.resetAt
    decreases |s| - i
  {
    if i + 1 == |s| then i
    else
      var k := OldestFrom(s, i + 1);
      if s[k].entry.resetAt < s[i].entry.resetAt then k else i
  }

  function WithoutOldest(s: Slots): Slots {
    if s == [] then s else RemoveAt(s, OldestFrom(s, 0))
  }

  // ---------- one check ----------

  function Fresh(o: Options, now: int): Entry {
    Entry(1, now, now + o.windowMs)
  }

  function CeilSeconds(ms: int): int {
    -((-ms) / 1000)
  }

  function Insert(o: Options, s: Slots, key: string, entry: Entry): Slots {
    Put(if |s| >= o.maxEntries && !HasKey(s, key) then WithoutOldest(s) else s, key, entry)
  }

  /** The state and answer of one check on the evicted state. */
  function Decide(o: Options, live: Slots, key: string, now: int): (Slots, Answer) {
    var existing := Lookup(live, key);
    if existing.None? then (Insert(o, live, key, Fresh(o, now)), Answer(true, 0, Fresh(o, now)))
    else if now >= existing.value.resetAt then (Put(live, key, Fresh(o, now)), Answer(true, 0, Fresh(o, now)))
    else if existing.value.attempts >= o.attemptsPerWindow then
      (live, Answer(false, CeilSeconds(existing.value.resetAt - now), existing.value))
    else
      var counted := existing.value.(attempts := existing.value.attempts + 1);
      (Put(live, key, counted), Answer(true, 0, counted))
  }

  function Step(o: Options, s: Slots, key: string, now: int): (Slots, Answer) {
    Decide(o, Unexpired(s, now), key, now)
  }

  /** The outcome of a check by where the key stands among the unexpired slots. */
  function Outcome(o: Options, live: Slots, key: string, now: int): (Slots, Answer) {
    var i := IndexOf(live, key);
    if i == |live| then (Insert(o, live, key, Fresh(o, now)), Answer(true, 0, Fresh(o, now)))
    else
      var existing := live[i].entry;
      if existing.attempts >= o.attemptsPerWindow
      then (live, Answer(false, CeilSeconds(existing.resetAt - now), existing))
      else
        var counted := existing.(attempts := existing.attempts + 1);
        (live[i := Slot(key, counted)], Answer(true, 0, counted))
  }

  /** The roll-over is never taken: an unexpired entry is before its reset time. */
  lemma DecideAt(o: Options, live: Slots, key: string, now: int)
    requires forall i | 0 <= i < |live| :: now < live[i].entry.resetAt
    ensures Decide(o, live, key, now) == Outcome(o, live, key, now)
  {
  }

  lemma StepAt(o: Options, s: Slots, key: string, now: int)
    requires DistinctKeys(s)
    ensures Step(o, s, key, now) == Outcome(o, Unexpired(s, now), key, now)
    ensures DistinctKeys(Unexpired(s, now))
    ensures forall i | 0 <= i < |Unexpired(s, now)| :: now < Unexpired(s, now)[i].entry.resetAt
  {
    UnexpiredIsLive(s, now);
    DecideAt(o, Unexpired(s, now), key, now);
  }

  lemma CountKeepsKeys(s: Slots, i: nat, entry: Entry)
    requires DistinctKeys(s) && i < |s|
    ensures DistinctKeys(s[i := Slot(s[i].key, entry)])
  {
  }

  /** The sweep of expired slots: those before `i` were kept, those from `i` on are still to see. */
  ghost predicate Sweeping(s: Slots, i: nat, all: Slots, done: nat, now: int) {
    && i <= |s| && done <= |all|
    && s[..i] == Unexpired(all[..done], now) && s[i..] == all[done..]
  }

  lemma SweepStep(s: Slots, i: nat, all: Slots, done: nat, now: int)
    requires Sweeping(s, i, all, done, now) && i < |s| && DistinctKeys(s)
    ensures done < |all|
    ensures now >= s[i].entry.resetAt ==>
              Sweeping(RemoveAt(s, i), i, all, done + 1, now) && DistinctKeys(RemoveAt(s, i))
    ensures now < s[i].entry.resetAt ==> Sweeping(s, i + 1, all, done + 1, now)
  {
    assert |s[i..]| == |all[done..]| && s[i..][0] == all[done..][0];
    UnexpiredAppend(all[..done], all[done], now);
    assert all[..done + 1] == all[..done] + [all[done]];
    assert s[i + 1..] == s[i..][1..] && all[done + 1..] == all[done..][1..];
    if now >= s[i].entry.resetAt {
      assert RemoveAt(s, i)[..i] == s[..i] && RemoveAt(s, i)[i..] == s[i + 1..];
    } else {
      assert s[..i + 1] == s[..i] + [s[i]];
    }
  }

  class InMemoryRateLimiter {
    const options: Options
    var state: Slots

    ghost predicate Valid()
      reads this
    {
      DistinctKeys(state)
    }

    constructor (options: Options)
      ensures Valid() && this.options == options && state == []
    {
      this.options := options;
      state := [];
    }

    /** Records one attempt and says whether it is allowed. */
    method Check(key: string, now: int) returns (answer: Answer)
      requires Valid()
      modifies this
      ensures Valid()
      ensures (state, answer) == Step(options, old(state), key, now)
    {
      EvictExpired(now);
      ghost var live := state;
      StepAt(options, old(state), key, now);
      var i := IndexOf(state, key);
      if i == |state| {
        var entry := Entry(1, now, now + options.windowMs);
        InsertEntry(key, entry);
        return Answer(true, 0, entry);
      }
      var existing := state[i].entry;
      // After eviction no entry is at or past its reset time, so the roll-over of the source
      // is never taken.
      assert now < existing.resetAt;
      if existing.attempts >= options.attemptsPerWindow {
        return Answer(false, CeilSeconds(existing.resetAt - now), existing);
      }
      var counted := existing.(attempts := existing.attempts + 1);
      CountKeepsKeys(state, i, counted);
      state := state[i := Slot(key, counted)];
      return Answer(true, 0, counted);
    }

    method InsertEntry(key: string, entry: Entry)
      requires Valid() && !HasKey(state, key)
      modifies this
      ensures Valid()
      ensures state == Insert(options, old(state), key, entry)
    {
      if |state| >= options.maxEntries {
        EvictOldest();
      }
      assert !HasKey(state, key);
      state := state + [Slot(key, entry)];
    }

    method EvictExpired(now: int)
      requires Valid()
      modifies this
      ensures Valid()
      ensures state == Unexpired(old(state), now)
    {
      ghost var all := state;
      ghost var done := 0;
      var i := 0;
      assert Unexpired(all[..0], now) == [];
      while i < |state|
        invariant Sweeping(state, i, all, done, now) && Valid()
        decreases |state| - i
      {
        SweepStep(state, i, all, done, now);
        if now >= state[i].entry.resetAt {
          state := RemoveAt(state, i);
        } else {
          i := i + 1;
        }
        done := done + 1;
      }
      assert state[..i] == state && all[..done] == all;
    }

    method EvictOldest()
      requires Valid()
      modifies this
      ensures Valid()
      ensures state == WithoutOldest(old(state))
    {
      if state == [] {
        return;
      }
      var oldest := 0;
      for i := 0 to |state|
        invariant oldest < |state|
        invariant oldest <= i
        invariant forall j | 0 <= j < i :: state[oldest].entry.resetAt <= state[j].entry.resetAt
        invariant forall j | 0 <= j < oldest :: state[oldest].entry.resetAt < state[j].entry.resetAt
      {
        if state[i].entry.resetAt < state[oldest].entry.resetAt {
          oldest := i;
        }
      }
      OldestUnique(state, oldest, OldestFrom(state, 0));
      state := RemoveAt(state, oldest);
    }
  }

  lemma OldestUnique(s: Slots, i: nat, k: nat)
    requires IsOldest(s, i) && IsOldest(s, k)
    ensures i == k
  {
    assert s[i].entry.resetAt <= s[k].entry.resetAt && s[k].entry.resetAt <= s[i].entry.resetAt;
  }

  lemma {:induction false} UnexpiredAppend(s: Slots, last: Slot, now: int)
    ensures Unexpired(s + [last], now) == Unexpired(s, now) + if now >= last.entry.resetAt then [] else [last]
  {
    if s == [] {
      assert s + [last] == [last];
    } else {
      assert (s + [last])[1..] == s[1..] + [last];
      UnexpiredAppend(s[1..], last, now);
    }
  }

  /** Eviction keeps exactly the live slots. */
  lemma {:induction false} UnexpiredIsLive(s: Slots, now: int)
    requires DistinctKeys(s)
    ensures forall x :: x in Unexpired(s, now) <==> x in s && now < x.entry.resetAt
    ensures DistinctKeys(Unexpired(s, now))
    ensures |Unexpired(s, now)| <= |s|
  {
    if s != [] {
      UnexpiredIsLive(s[1..], now);
      assert s == [s[0]] + s[1..];
      var tail := Unexpired(s[1..], now);
      forall i | 0 <= i < |tail| ensures tail[i].key != s[0].key {
        assert tail[i] in s[1..];
      }
    }
  }
}
