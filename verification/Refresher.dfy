/**
 The ticketed refresher over the swappable registry.  Refreshes overlap: each takes a ticket,
 reads the durable exposed set some time later, and completes or fails later still.
*/
module Refresher {
  import opened Common

  datatype Exposure = Exposure(alias: string, schema: string, table: string)

  /** A rebuilt registry and the durable version its read saw. */
  datatype Snapshot = Snapshot(version: nat, exposed: set<Exposure>)

  datatype Refresh = Started(since: nat) | Rebuilt(since: nat, snapshot: Snapshot)

  /** What became of the refresh that started last. */
  datatype Fate = Pending | Installed | Failed

  /**
   `versions` holds every durable exposed set so far.  `since`, `fate` and `installed` are
   bookkeeping for the statements below: when the latest refresh started, how it ended, and
   whose snapshot is served (ticket 0 is start-up's own).
  */
  datatype State = State(versions: seq<set<Exposure>>, latestTicket: nat, served: Snapshot,
                         inFlight: map<nat, Refresh>, since: nat, fate: Fate, installed: nat)

  datatype Event =
    | CommitExposure(exposed: set<Exposure>)
    | Start
    | Read(ticket: nat)
    | Complete(ticket: nat)
    | Fail(ticket: nat)

  function Version(s: State): int {
    |s.versions| - 1
  }

  function Next(s: State, e: Event): Option<State>
    requires s.versions != []
  {
    match e
    case CommitExposure(exposed) => Some(s.(versions := s.versions + [exposed]))
    case Start =>
      var ticket := s.latestTicket + 1;
      Some(s.(latestTicket := ticket, inFlight := s.inFlight[ticket := Started(Version(s))],
              since := Version(s), fate := Pending))
    case Read(t) =>
      if t !in s.inFlight || s.inFlight[t].Rebuilt? then None
      else
        var snapshot := Snapshot(Version(s), s.versions[Version(s)]);
        Some(s.(inFlight := s.inFlight[t := Rebuilt(s.inFlight[t].since, snapshot)]))
    case Complete(t) =>
      if t !in s.inFlight || s.inFlight[t].Started? then None
      else
        var done := s.(inFlight := s.inFlight - {t});
        if t == s.latestTicket
        then Some(done.(served := s.inFlight[t].snapshot, fate := Installed, installed := t)) else Some(done)
    case Fail(t) =>
      if t !in s.inFlight then None
      else Some(s.(inFlight := s.inFlight - {t}, fate := if t == s.latestTicket then Failed else s.fate))
  }

  function Run(s: State, events: seq<Event>): (end: Option<State>)
    requires s.versions != []
    ensures end.Some? ==> end.value.versions != []
    decreases |events|
  {
    if events == [] then Some(s)
    else
      var next := Next(s, events[0]);
      if next.None? then None else Run(next.value, events[1..])
  }

  /** Start-up serves the set it read and verified itself. */
  function Boot(exposed: set<Exposure>): State {
    State([exposed], 0, Snapshot(0, exposed), map[], 0, Installed, 0)
  }

  ghost predicate Faithful(s: State, snapshot: Snapshot) {
    snapshot.version < |s.versions| && snapshot.exposed == s.versions[snapshot.version]
  }

  ghost predicate Inv(s: State) {
    && s.versions != []
    && Faithful(s, s.served)
    && s.since < |s.versions|
    && s.installed <= s.latestTicket && s.installed !in s.inFlight
    && (forall t <- s.inFlight :: t <= s.latestTicket && s.inFlight[t].since < |s.versions|)
    && (forall t <- s.inFlight :: s.inFlight[t].Rebuilt? ==>
          Faithful(s, s.inFlight[t].snapshot) && s.inFlight[t].since <= s.inFlight[t].snapshot.version)
    && (s.latestTicket in s.inFlight ==>
          s.fate == Pending && s.inFlight[s.latestTicket].since == s.since && s.served.version <= s.since)
    && (s.fate == Installed ==> s.since <= s.served.version)
  }

  /** One event keeps the invariant, and the durable version behind the served registry never goes back. */
  lemma StepNeverGoesBack(s: State, e: Event, s': State)
    requires Inv(s) && Next(s, e) == Some(s')
    ensures Inv(s')
    ensures s.served.version <= s'.served.version
    ensures s.versions <= s'.versions
  {
    forall v: nat | v < |s.versions| ensures s'.versions[v] == s.versions[v] {
    }
  }

  lemma {:induction false} RunNeverGoesBack(s: State, events: seq<Event>, s': State)
    requires Inv(s) && Run(s, events) == Some(s')
    ensures Inv(s') && s.served.version <= s'.served.version && s.versions <= s'.versions
    decreases |events|
  {
    if events != [] {
      var next := Next(s, events[0]).value;
      StepNeverGoesBack(s, events[0], next);
      RunNeverGoesBack(next, events[1..], s');
    }
  }

  // ---------- whose snapshot is served ----------

  lemma StepInstallsNewest(s: State, e: Event, s': State)
    requires Inv(s) && Next(s, e) == Some(s')
    ensures s.latestTicket <= s'.latestTicket
    ensures if s'.installed == s.installed then s'.served == s.served
            else e == Complete(s'.installed) && s'.installed == s.latestTicket
                 && s'.installed in s.inFlight && s.inFlight[s'.installed].Rebuilt?
                 && s'.served == s.inFlight[s'.installed].snapshot
  {
  }

  /**
   Over every run, the ticket behind the served snapshot only grows, and it grows only to
   tickets at least as new as every refresh started before: what has been overtaken at any
   moment is never installed after it.
  */
  lemma {:induction false} OnlyNewestIsInstalled(s: State, events: seq<Event>, s': State)
    requires Inv(s) && Run(s, events) == Some(s')
    ensures s.latestTicket <= s'.latestTicket
    ensures if s'.installed == s.installed then s'.served == s.served else s.latestTicket <= s'.installed
    decreases |events|
  {
    if events != [] {
      var next := Next(s, events[0]).value;
      StepNeverGoesBack(s, events[0], next);
      StepInstallsNewest(s, events[0], next);
      OnlyNewestIsInstalled(next, events[1..], s');
    }
  }

  /**
   A refresh that a newer start has overtaken is never installed: whatever happens in between,
   its completion leaves the served registry as it finds it, and no later state serves it.
  */
  lemma OvertakenIsDiscarded(s: State, ticket: nat, events: seq<Event>, mid: State, done: State,
                             later: seq<Event>, s': State)
    requires Inv(s) && ticket < s.latestTicket
    requires Run(s, events) == Some(mid)
    requires Next(mid, Complete(ticket)) == Some(done)
    requires Run(done, later) == Some(s')
    ensures done.served == mid.served && done.installed == mid.installed
    ensures s'.installed != ticket
  {
    RunNeverGoesBack(s, events, mid);
    OnlyNewestIsInstalled(s, events, mid);
    StepNeverGoesBack(mid, Complete(ticket), done);
    OnlyNewestIsInstalled(done, later, s');
  }

  /**
   The served snapshot is start-up's own, or the one of a refresh that was the newest when it
   completed, at the `i`-th event of the run, and nothing has been installed since.
  */
  lemma {:induction false} ServedWasNewest(s: State, events: seq<Event>, s': State) returns (i: nat, at: State)
    requires Inv(s) && Run(s, events) == Some(s')
    ensures s'.installed == s.installed ==> s'.served == s.served
    ensures s'.installed != s.installed ==>
              && i < |events| && events[i] == Complete(s'.installed)
              && Run(s, events[..i]) == Some(at) && at.latestTicket == s'.installed
              && s'.installed in at.inFlight && at.inFlight[s'.installed].Rebuilt?
              && s'.served == at.inFlight[s'.installed].snapshot
    decreases |events|
  {
    i, at := 0, s;
    OnlyNewestIsInstalled(s, events, s');
    if s'.installed != s.installed {
      var next := Next(s, events[0]).value;
      StepNeverGoesBack(s, events[0], next);
      StepInstallsNewest(s, events[0], next);
      var j, mid := ServedWasNewest(next, events[1..], s');
      if s'.installed == next.installed {
        assert events[..0] == [];
      } else {
        i, at := j + 1, mid;
        assert events[..i][1..] == events[1..][..j];
      }
    }
  }

  /**
   Over every interleaving: once a refresh started after the last commit is the newest one and
   completed, the served set is the durable set.  Older refreshes may still be in flight.
  */
  lemma ServedIsDurable(exposed: set<Exposure>, events: seq<Event>, s: State)
    requires Run(Boot(exposed), events) == Some(s)
    requires s.fate == Installed && s.since == Version(s)
    ensures s.served.exposed == s.versions[Version(s)]
  {
    RunNeverGoesBack(Boot(exposed), events, s);
  }

  ghost predicate QuietFor(ticket: nat, events: seq<Event>) {
    forall e <- events :: !e.CommitExposure? && e != Start && e != Fail(ticket)
  }

  /**
   The same in terms of the run: commit, start a refresh, and let anything but another commit,
   another start or that refresh's own failure happen; when it completes, it serves the
   committed set.
  */
  lemma {:induction false} RefreshAfterCommit(s: State, exposed: set<Exposure>, committed: State, started: State,
                                              events: seq<Event>, s': State)
    requires Inv(s)
    requires Next(s, CommitExposure(exposed)) == Some(committed)
    requires Next(committed, Start) == Some(started)
    requires Run(started, events) == Some(s') && QuietFor(started.latestTicket, events)
    requires started.latestTicket !in s'.inFlight
    ensures s'.served.exposed == exposed
  {
    StepNeverGoesBack(s, CommitExposure(exposed), committed);
    StepNeverGoesBack(committed, Start, started);
    QuietRun(started, events, s');
    RunNeverGoesBack(started, events, s');
  }

  lemma {:induction false} QuietRun(s: State, events: seq<Event>, s': State)
    requires Inv(s) && Run(s, events) == Some(s') && QuietFor(s.latestTicket, events)
    requires s.since == Version(s) && (s.latestTicket in s.inFlight || s.fate == Installed)
    ensures s'.versions == s.versions && s'.since == s.since && s'.latestTicket == s.latestTicket
    ensures s'.latestTicket in s'.inFlight || s'.fate == Installed
    decreases |events|
  {
    if events != [] {
      var next := Next(s, events[0]).value;
      assert events[0] in events;
      StepNeverGoesBack(s, events[0], next);
      assert forall e <- events[1..] :: e in events;
      QuietRun(next, events[1..], s');
    }
  }

  // ---------- the closure itself ----------

  /** The cell new requests read; replacing it is one assignment. */
  class SwappableTableRegistry {
    var current: Snapshot

    constructor (initial: Snapshot)
      ensures current == initial
    {
      current := initial;
    }

    method Replace(next: Snapshot)
      modifies this
      ensures current == next
    {
      current := next;
    }
  }

  class RuntimeRegistryRefresher {
    const registry: SwappableTableRegistry
    var latestTicket: nat

    constructor (registry: SwappableTableRegistry)
      ensures this.registry == registry && latestTicket == 0
    {
      this.registry := registry;
      latestTicket := 0;
    }

    ghost predicate Represents(s: State)
      reads this, registry
    {
      latestTicket == s.latestTicket && registry.current == s.served
    }

    /** Up to the await: takes the next ticket. */
    method Begin(ghost s: State) returns (ticket: nat, ghost s': State)
      requires s.versions != [] && Represents(s)
      modifies this
      ensures Next(s, Start) == Some(s') && Represents(s')
      ensures ticket == latestTicket
    {
      latestTicket := latestTicket + 1;
      ticket := latestTicket;
      s' := Next(s, Start).value;
    }

    /** After the await: installs the rebuilt snapshot only while its ticket is the newest. */
    method Finish(ticket: nat, next: Snapshot, ghost s: State) returns (ghost s': State)
      requires s.versions != [] && Represents(s)
      requires ticket in s.inFlight && s.inFlight[ticket].Rebuilt? && s.inFlight[ticket].snapshot == next
      modifies registry
      ensures Next(s, Complete(ticket)) == Some(s') && Represents(s')
    {
      if ticket == latestTicket {
        registry.Replace(next);
      }
      s' := Next(s, Complete(ticket)).value;
    }
  }
}
