/** What a list of timed input events means: the last-value lookup of a channel, and the event
    that writes a channel at a given time. */
module EventLookup {
  import opened Common
  import opened Inputs

  predicate Matches(e: Event, action: nat, kind: nat) {
    e.action == action && e.valueKind == kind
  }

  /** The full scan: the latest matching event up to timeMs, the later position winning ties. */
  function Lookup(events: seq<Event>, action: nat, kind: nat, timeMs: int): Option<Event> {
    if events == [] then None
    else
      var e, earlier := events[|events| - 1], Lookup(events[..|events| - 1], action, kind, timeMs);
      if Matches(e, action, kind) && e.timeMs <= timeMs && (earlier.None? || e.timeMs >= earlier.value.timeMs)
      then Some(e) else earlier
  }

  /** The last event of a channel at exactly one time. */
  function WriterAt(events: seq<Event>, action: nat, kind: nat, at: int): Option<Event> {
    if events == [] then None
    else
      var e := events[|events| - 1];
      if Matches(e, action, kind) && e.timeMs == at then Some(e)
      else WriterAt(events[..|events| - 1], action, kind, at)
  }

  function ValueAt(events: seq<Event>, action: nat, kind: nat, timeMs: int, initial: int): int {
    var found := Lookup(events, action, kind, timeMs);
    if found.Some? then found.value.value else initial
  }

  lemma {:induction false} WriterIsEvent(events: seq<Event>, action: nat, kind: nat, at: int)
    ensures var w := WriterAt(events, action, kind, at);
            w.Some? ==> w.value in events && Matches(w.value, action, kind) && w.value.timeMs == at
    ensures WriterAt(events, action, kind, at).None? <==>
            forall e :: e in events && Matches(e, action, kind) ==> e.timeMs != at
  {
    if events != [] {
      WriterIsEvent(events[..|events| - 1], action, kind, at);
      assert events == events[..|events| - 1] + [events[|events| - 1]];
    }
  }

  /** A lookup finds the writer at the latest written time. */
  lemma {:induction false} LookupFindsLatestWriter(events: seq<Event>, action: nat, kind: nat, timeMs: int)
    ensures var found := Lookup(events, action, kind, timeMs);
            match found
            case None => forall e :: e in events && Matches(e, action, kind) ==> e.timeMs > timeMs
            case Some(w) =>
              && w.timeMs <= timeMs
              && WriterAt(events, action, kind, w.timeMs) == found
              && forall e :: e in events && Matches(e, action, kind) && e.timeMs <= timeMs ==> e.timeMs <= w.timeMs
  {
    if events != [] {
      LookupFindsLatestWriter(events[..|events| - 1], action, kind, timeMs);
      assert events == events[..|events| - 1] + [events[|events| - 1]];
    }
  }

  lemma {:induction false} LookupIsEvent(events: seq<Event>, action: nat, kind: nat, timeMs: int)
    ensures var found := Lookup(events, action, kind, timeMs); found.Some? ==> found.value in events
  {
    if events != [] {
      LookupIsEvent(events[..|events| - 1], action, kind, timeMs);
    }
  }

  /** Looking in two runs: the later run wins unless the earlier one was written later. */
  lemma {:induction false} LookupConcat(a: seq<Event>, b: seq<Event>, action: nat, kind: nat, timeMs: int)
    ensures var early, late := Lookup(a, action, kind, timeMs), Lookup(b, action, kind, timeMs);
      Lookup(a + b, action, kind, timeMs) ==
        if late.Some? && (early.None? || late.value.timeMs >= early.value.timeMs) then late else early
    decreases |b|
  {
    if b == [] {
      assert a + b == a;
    } else {
      assert (a + b)[..|a + b| - 1] == a + b[..|b| - 1];
      LookupConcat(a, b[..|b| - 1], action, kind, timeMs);
    }
  }

  /** Lists with the same writers up to a time look the same at that time. */
  lemma {:induction false} SameWritersSameLookup(a: seq<Event>, b: seq<Event>, action: nat, kind: nat, timeMs: int)
    requires forall at :: at <= timeMs ==> WriterAt(a, action, kind, at) == WriterAt(b, action, kind, at)
    ensures Lookup(a, action, kind, timeMs) == Lookup(b, action, kind, timeMs)
  {
    var x, y := Lookup(a, action, kind, timeMs), Lookup(b, action, kind, timeMs);
    LookupFindsLatestWriter(a, action, kind, timeMs);
    LookupFindsLatestWriter(b, action, kind, timeMs);
    if x.Some? {
      WriterIsEvent(b, action, kind, x.value.timeMs);
      WriterIsEvent(a, action, kind, x.value.timeMs);
    }
    if y.Some? {
      WriterIsEvent(a, action, kind, y.value.timeMs);
      WriterIsEvent(b, action, kind, y.value.timeMs);
    }
  }

  /** A writer that nothing follows up to a time is what the lookup finds. */
  lemma {:induction false} LastWriterIsLookup(events: seq<Event>, action: nat, kind: nat, w: Event, timeMs: int)
    requires w.timeMs <= timeMs && WriterAt(events, action, kind, w.timeMs) == Some(w)
    requires forall at :: w.timeMs < at <= timeMs ==> WriterAt(events, action, kind, at).None?
    ensures Lookup(events, action, kind, timeMs) == Some(w)
  {
    LookupFindsLatestWriter(events, action, kind, timeMs);
    WriterIsEvent(events, action, kind, w.timeMs);
  }

  /** Nothing is written after what the lookup finds. */
  lemma {:induction false} SilentAfterLookup(events: seq<Event>, action: nat, kind: nat, timeMs: int, at: int)
    requires at <= timeMs
    requires var found := Lookup(events, action, kind, timeMs);
             found.Some? ==> found.value.timeMs < at
    ensures WriterAt(events, action, kind, at).None?
  {
    LookupFindsLatestWriter(events, action, kind, timeMs);
    WriterIsEvent(events, action, kind, at);
  }

  /** Looking later changes nothing while nothing is written in between. */
  lemma {:induction false} LookupPersists(events: seq<Event>, action: nat, kind: nat, timeMs: int, later: int)
    requires timeMs <= later
    requires forall e :: e in events && Matches(e, action, kind) ==> e.timeMs <= timeMs || e.timeMs > later
    ensures Lookup(events, action, kind, timeMs) == Lookup(events, action, kind, later)
  {
    var x, y := Lookup(events, action, kind, timeMs), Lookup(events, action, kind, later);
    LookupFindsLatestWriter(events, action, kind, timeMs);
    LookupFindsLatestWriter(events, action, kind, later);
    if x.Some? {
      WriterIsEvent(events, action, kind, x.value.timeMs);
    }
    if y.Some? {
      WriterIsEvent(events, action, kind, y.value.timeMs);
    }
  }

  lemma {:induction false} WriterAppend(a: seq<Event>, b: seq<Event>, action: nat, kind: nat, at: int)
    ensures WriterAt(a + b, action, kind, at) ==
            if WriterAt(b, action, kind, at).Some? then WriterAt(b, action, kind, at)
            else WriterAt(a, action, kind, at)
  {
    if b == [] {
      assert a + b == a;
    } else {
      WriterAppend(a, b[..|b| - 1], action, kind, at);
      assert (a + b)[..|a + b| - 1] == a + b[..|b| - 1];
    }
  }

  ghost predicate TimeSorted(events: seq<Event>) {
    forall i, j :: 0 <= i < j < |events| ==> events[i].timeMs <= events[j].timeMs
  }
}
