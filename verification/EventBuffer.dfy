/** The in-place operations on one candidate's event buffer: range removal, last-value lookup by
    full scan and by binary search, and held insertions. */
module EventBuffer {
  import opened Common
  import opened Inputs
  import opened EventLookup

  // ----- Range removal

  predicate InRange(e: Event, action: nat, start: int, end: int) {
    e.action == action && start <= e.timeMs <= end
  }

  /** The events that survive a range removal, in order. */
  function Keep(events: seq<Event>, action: nat, start: int, end: int): seq<Event> {
    if events == [] then []
    else
      var kept, e := Keep(events[..|events| - 1], action, start, end), events[|events| - 1];
      if InRange(e, action, start, end) then kept else kept + [e]
  }

  /** Removal silences its action inside the range and changes nothing else. */
  lemma {:induction false} KeepWriters(events: seq<Event>, action: nat, start: int, end: int,
                                       a: nat, kind: nat, at: int)
    ensures WriterAt(Keep(events, action, start, end), a, kind, at) ==
            if a == action && start <= at <= end then None else WriterAt(events, a, kind, at)
  {
    if events != [] {
      var front := events[..|events| - 1];
      var kept, e := Keep(front, action, start, end), events[|events| - 1];
      KeepWriters(front, action, start, end, a, kind, at);
      assert (kept + [e])[..|kept|] == kept;
    }
  }

  /** How the survivors and the lookup grow by one position. */
  lemma {:induction false} PrefixStep(events: seq<Event>, k: nat, action: nat, kind: nat, start: int, end: int)
    requires k < |events|
    ensures Keep(events[..k + 1], action, start, end) ==
            Keep(events[..k], action, start, end) + if InRange(events[k], action, start, end) then [] else [events[k]]
    ensures var e, earlier := events[k], Lookup(events[..k], action, kind, start);
            Lookup(events[..k + 1], action, kind, start) ==
            if Matches(e, action, kind) && e.timeMs <= start && (earlier.None? || e.timeMs >= earlier.value.timeMs)
            then Some(e) else earlier
  {
    assert events[..k + 1][..k] == events[..k];
  }

  // ----- Sorted lookup

  /** The last matching event of a list, whatever its time. */
  function LastMatch(events: seq<Event>, action: nat, kind: nat): Option<Event> {
    if events == [] then None
    else if Matches(events[|events| - 1], action, kind) then Some(events[|events| - 1])
    else LastMatch(events[..|events| - 1], action, kind)
  }

  /** On a sorted list the full scan is a backward scan from the upper bound. */
  lemma {:induction false} SortedLookup(events: seq<Event>, action: nat, kind: nat, timeMs: int, upper: nat)
    requires TimeSorted(events) && upper <= |events|
    requires forall i :: 0 <= i < upper ==> events[i].timeMs <= timeMs
    requires forall i :: upper <= i < |events| ==> events[i].timeMs > timeMs
    ensures Lookup(events, action, kind, timeMs) == LastMatch(events[..upper], action, kind)
  {
    if events != [] {
      var k := |events| - 1;
      if upper == |events| {
        SortedLookup(events[..k], action, kind, timeMs, k);
        LookupFindsLatestWriter(events[..k], action, kind, timeMs);
        if Lookup(events[..k], action, kind, timeMs).Some? {
          WriterIsEvent(events[..k], action, kind, Lookup(events[..k], action, kind, timeMs).value.timeMs);
        }
        assert events[..upper] == events && events[..k][..k] == events[..k];
      } else {
        SortedLookup(events[..k], action, kind, timeMs, upper);
        assert events[..k][..upper] == events[..upper];
      }
    }
  }

  // ----- Held insertion

  predicate SwitchAt(events: seq<Event>, action: nat, timeMs: int, initial: bool) {
    ValueAt(events, action, 1, timeMs, if initial then 1 else 0) != 0
  }

  function SwitchEvent(timeMs: int, action: nat, pressed: bool): Event {
    Event(timeMs, action, 1, if pressed then 1 else 0)
  }

  datatype Hold = Hold(start: int, end: int)

  /** A start and a length as the generator draws them. */
  datatype Draw = Draw(start: int, length: int)

  /** The hold ends at the end of the window at the latest. */
  function HoldOf(draw: Draw, maximumTimeMs: int): Hold {
    Hold(draw.start, if draw.start + draw.length > maximumTimeMs then maximumTimeMs else draw.start + draw.length)
  }

  function HoldsOf(draws: seq<Draw>, maximumTimeMs: int): seq<Hold> {
    seq(|draws|, i requires 0 <= i < |draws| => HoldOf(draws[i], maximumTimeMs))
  }

  /** The list after one insertion of InsertSwitchChannel. */
  function Inserted(events: seq<Event>, baseline: seq<Event>, action: nat, hold: Hold, initial: bool): seq<Event> {
    var previous := SwitchAt(events, action, hold.start, initial);
    var pressed := Keep(events, action, hold.start, hold.end) + [SwitchEvent(hold.start, action, !previous)];
    if hold.end > hold.start then
      pressed + [SwitchEvent(hold.end, action, SwitchAt(baseline, action, hold.end, initial))]
    else pressed
  }

  /** The writers of a list after an insertion: press, release, and what the cleared range leaves. */
  lemma {:induction false} InsertedWriters(events: seq<Event>, baseline: seq<Event>, action: nat, hold: Hold,
                                           initial: bool, a: nat, kind: nat, at: int)
    ensures WriterAt(Inserted(events, baseline, action, hold, initial), a, kind, at) ==
            if a == action && kind == 1 && at == hold.start then
              Some(SwitchEvent(at, action, !SwitchAt(events, action, hold.start, initial)))
            else if a == action && kind == 1 && hold.start < hold.end == at then
              Some(SwitchEvent(at, action, SwitchAt(baseline, action, hold.end, initial)))
            else if a == action && hold.start <= at <= hold.end then None
            else WriterAt(events, a, kind, at)
  {
    var kept := Keep(events, action, hold.start, hold.end);
    var press := SwitchEvent(hold.start, action, !SwitchAt(events, action, hold.start, initial));
    KeepWriters(events, action, hold.start, hold.end, a, kind, at);
    WriterAppend(kept, [press], a, kind, at);
    OneWriter(press, a, kind, at);
    if hold.start < hold.end {
      var release := SwitchEvent(hold.end, action, SwitchAt(baseline, action, hold.end, initial));
      WriterAppend(kept + [press], [release], a, kind, at);
      OneWriter(release, a, kind, at);
    }
  }

  lemma {:induction false} OneWriter(e: Event, a: nat, kind: nat, at: int)
    ensures WriterAt([e], a, kind, at) == if Matches(e, a, kind) && e.timeMs == at then Some(e) else None
  {
    assert [e][..0] == [];
  }

  /** What one insertion with a positive hold does to its channel at every time. */
  lemma {:induction false} InsertedLookup(events: seq<Event>, baseline: seq<Event>, action: nat, hold: Hold,
                                          initial: bool, t: int)
    requires hold.start < hold.end
    ensures var list := Inserted(events, baseline, action, hold, initial);
            var found, before := Lookup(list, action, 1, t), Lookup(events, action, 1, t);
            if t < hold.start then found == before
            else if t < hold.end then
              found == Some(SwitchEvent(hold.start, action, !SwitchAt(events, action, hold.start, initial)))
            else if before.Some? && before.value.timeMs > hold.end then found == before
            else found == Some(SwitchEvent(hold.end, action, SwitchAt(baseline, action, hold.end, initial)))
  {
    var list := Inserted(events, baseline, action, hold, initial);
    var before := Lookup(events, action, 1, t);
    forall at: int
      ensures var w := WriterAt(list, action, 1, at);
              && (at < hold.start || hold.end < at ==> w == WriterAt(events, action, 1, at))
              && (hold.start < at < hold.end ==> w == None)
              && (at == hold.start ==> w == Some(SwitchEvent(at, action, !SwitchAt(events, action, at, initial))))
              && (at == hold.end ==> w == Some(SwitchEvent(at, action, SwitchAt(baseline, action, at, initial))))
    {
      InsertedWriters(events, baseline, action, hold, initial, action, 1, at);
    }
    if t < hold.start {
      SameWritersSameLookup(list, events, action, 1, t);
    } else if t < hold.end {
      var press := SwitchEvent(hold.start, action, !SwitchAt(events, action, hold.start, initial));
      LastWriterIsLookup(list, action, 1, press, t);
    } else {
      var last := if before.Some? && before.value.timeMs > hold.end then before.value
                  else SwitchEvent(hold.end, action, SwitchAt(baseline, action, hold.end, initial));
      LookupFindsLatestWriter(events, action, 1, t);
      forall at | last.timeMs < at <= t
        ensures WriterAt(list, action, 1, at).None?
      {
        SilentAfterLookup(events, action, 1, t, at);
      }
      LastWriterIsLookup(list, action, 1, last, t);
    }
  }

  /** MAIN RESULT.  An insertion into the pass baseline leaves the channel unchanged before start
      and from end on, inverts the value at start throughout the hold, and touches no other channel. */
  lemma {:induction false} HeldInsertionIsLocal(baseline: seq<Event>, action: nat, hold: Hold, initial: bool, t: int)
    requires hold.start < hold.end
    ensures var list := Inserted(baseline, baseline, action, hold, initial);
            && (t < hold.start || hold.end <= t ==>
                  SwitchAt(list, action, t, initial) == SwitchAt(baseline, action, t, initial))
            && (hold.start <= t < hold.end ==>
                  SwitchAt(list, action, t, initial) == !SwitchAt(baseline, action, hold.start, initial))
            && forall a: nat, kind: nat :: a != action ==> Lookup(list, a, kind, t) == Lookup(baseline, a, kind, t)
  {
    var list := Inserted(baseline, baseline, action, hold, initial);
    InsertedLookup(baseline, baseline, action, hold, initial, t);
    if hold.end <= t {
      BaselinePersists(baseline, action, hold.end, t);
    }
    forall a: nat, kind: nat | a != action
      ensures Lookup(list, a, kind, t) == Lookup(baseline, a, kind, t)
    {
      OtherChannel(baseline, baseline, action, hold, initial, a, kind, t);
    }
  }

  /** Every time outside the hold keeps the channel's value. */
  ghost predicate KeepsOutside(baseline: seq<Event>, action: nat, hold: Hold, initial: bool) {
    forall t: int :: t < hold.start || hold.end <= t ==>
      SwitchAt(Inserted(baseline, baseline, action, hold, initial), action, t, initial) ==
      SwitchAt(baseline, action, t, initial)
  }

  /** MAIN RESULT.  An insertion is local exactly if it ends after it starts, whatever the baseline. */
  lemma {:induction false} HoldIsLocalIff(baseline: seq<Event>, action: nat, hold: Hold, initial: bool)
    ensures KeepsOutside(baseline, action, hold, initial) <==> hold.start < hold.end
  {
    if hold.start < hold.end {
      forall t: int | t < hold.start || hold.end <= t
        ensures SwitchAt(Inserted(baseline, baseline, action, hold, initial), action, t, initial) ==
                SwitchAt(baseline, action, t, initial)
      {
        HeldInsertionIsLocal(baseline, action, hold, initial, t);
      }
    } else {
      ZeroHoldInverts(baseline, action, hold, initial);
    }
  }

  /** In terms of what the generator draws: an insertion is local exactly if it draws a positive length and
      starts before the end of the window. */
  lemma {:induction false} DrawIsLocalIff(baseline: seq<Event>, action: nat, draw: Draw, maximumTimeMs: int,
                                          initial: bool)
    ensures KeepsOutside(baseline, action, HoldOf(draw, maximumTimeMs), initial) <==>
            draw.length > 0 && draw.start < maximumTimeMs
  {
    HoldIsLocalIff(baseline, action, HoldOf(draw, maximumTimeMs), initial);
  }

  /** An insertion that does not end after its start inverts the value there and writes no release. */
  lemma {:induction false} ZeroHoldInverts(baseline: seq<Event>, action: nat, hold: Hold, initial: bool)
    requires hold.end <= hold.start
    ensures SwitchAt(Inserted(baseline, baseline, action, hold, initial), action, hold.start, initial) ==
            !SwitchAt(baseline, action, hold.start, initial)
  {
    var press := SwitchEvent(hold.start, action, !SwitchAt(baseline, action, hold.start, initial));
    var kept := Keep(baseline, action, hold.start, hold.end);
    assert Inserted(baseline, baseline, action, hold, initial) == kept + [press];
    assert (kept + [press])[..|kept|] == kept;
    LookupFindsLatestWriter(kept, action, 1, hold.start);
  }

  /** No event of the hold's action with this value kind lies in the range that an insertion clears. */
  ghost predicate SilentInHold(events: seq<Event>, action: nat, kind: nat, hold: Hold) {
    forall e :: e in events && Matches(e, action, kind) ==> e.timeMs < hold.start || hold.end < e.timeMs
  }

  /** Other value kinds of the same action keep their meaning exactly if none of their events lies in
      the closed range of the hold, which the insertion clears for all kinds. */
  lemma {:induction false} OtherKindsKeptIff(events: seq<Event>, baseline: seq<Event>, action: nat, hold: Hold,
                                             initial: bool, kind: nat)
    requires kind != 1
    ensures SilentInHold(events, action, kind, hold) <==>
            forall t: int :: Lookup(Inserted(events, baseline, action, hold, initial), action, kind, t) ==
                             Lookup(events, action, kind, t)
  {
    var list := Inserted(events, baseline, action, hold, initial);
    forall at: int
      ensures WriterAt(list, action, kind, at) ==
              if hold.start <= at <= hold.end then None else WriterAt(events, action, kind, at)
    {
      InsertedWriters(events, baseline, action, hold, initial, action, kind, at);
    }
    if SilentInHold(events, action, kind, hold) {
      forall t: int
        ensures Lookup(list, action, kind, t) == Lookup(events, action, kind, t)
      {
        forall at | at <= t
          ensures WriterAt(list, action, kind, at) == WriterAt(events, action, kind, at)
        {
          WriterIsEvent(events, action, kind, at);
        }
        SameWritersSameLookup(list, events, action, kind, t);
      }
    } else {
      var e :| e in events && Matches(e, action, kind) && hold.start <= e.timeMs <= hold.end;
      LookupFindsLatestWriter(events, action, kind, e.timeMs);
      LookupFindsLatestWriter(list, action, kind, e.timeMs);
      assert Lookup(list, action, kind, e.timeMs) != Lookup(events, action, kind, e.timeMs);
    }
  }

  lemma {:induction false} OtherChannel(events: seq<Event>, baseline: seq<Event>, action: nat, hold: Hold,
                                        initial: bool, a: nat, kind: nat, t: int)
    requires a != action
    ensures Lookup(Inserted(events, baseline, action, hold, initial), a, kind, t) == Lookup(events, a, kind, t)
  {
    var list := Inserted(events, baseline, action, hold, initial);
    forall at | at <= t
      ensures WriterAt(list, a, kind, at) == WriterAt(events, a, kind, at)
    {
      InsertedWriters(events, baseline, action, hold, initial, a, kind, at);
    }
    SameWritersSameLookup(list, events, a, kind, t);
  }

  /** If nothing was written after a time, the value there is the value later. */
  lemma {:induction false} BaselinePersists(baseline: seq<Event>, action: nat, timeMs: int, later: int)
    requires timeMs <= later
    ensures var y := Lookup(baseline, action, 1, later);
            y.None? || y.value.timeMs <= timeMs ==> Lookup(baseline, action, 1, timeMs) == y
  {
    LookupFindsLatestWriter(baseline, action, 1, later);
    var y := Lookup(baseline, action, 1, later);
    if y.None? || y.value.timeMs <= timeMs {
      LookupPersists(baseline, action, 1, timeMs, later);
    }
  }

  // ----- Whole passes of insertions

  /** The list after all insertions of a pass; every insertion consults the same baseline. */
  function InsertedAll(baseline: seq<Event>, action: nat, holds: seq<Hold>, initial: bool): seq<Event> {
    if holds == [] then baseline
    else
      var k := |holds| - 1;
      Inserted(InsertedAll(baseline, action, holds[..k], initial), baseline, action, holds[k], initial)
  }

  ghost predicate OutsideAll(holds: seq<Hold>, t: int) {
    forall i :: 0 <= i < |holds| ==> t < holds[i].start || holds[i].end <= t
  }

  ghost predicate PositiveHolds(holds: seq<Hold>) {
    forall i :: 0 <= i < |holds| ==> holds[i].start < holds[i].end
  }

  /** MAIN RESULT.  After any number of overlapping insertions with positive holds, the channel has
      its baseline value at every time outside all holds. */
  lemma {:induction false} InsertionPassIsLocal(baseline: seq<Event>, action: nat, holds: seq<Hold>,
                                                initial: bool, t: int)
    requires PositiveHolds(holds) && OutsideAll(holds, t)
    ensures var list := InsertedAll(baseline, action, holds, initial);
            var now, was := Lookup(list, action, 1, t), Lookup(baseline, action, 1, t);
            && SwitchAt(list, action, t, initial) == SwitchAt(baseline, action, t, initial)
            && (was.Some? ==> now.Some? && now.value.timeMs >= was.value.timeMs)
  {
    if holds != [] {
      var k := |holds| - 1;
      var hold, before := holds[k], InsertedAll(baseline, action, holds[..k], initial);
      InsertionPassIsLocal(baseline, action, holds[..k], initial, t);
      InsertedLookup(before, baseline, action, hold, initial, t);
      if hold.end <= t {
        BaselinePersists(baseline, action, hold.end, t);
      }
    }
  }

  /** The empty baseline as a witness: with a hold of length zero the inverted value stays. */
  lemma {:induction false} ZeroHoldLeaks()
    ensures var hold := Hold(10, 10);
            !SwitchAt([], 1, 20, false) && SwitchAt(Inserted([], [], 1, hold, false), 1, 20, false)
  {
    var press := SwitchEvent(10, 1, true);
    assert Inserted([], [], 1, Hold(10, 10), false) == [press];
    assert [press][..0] == [];
    assert Lookup([press], 1, 1, 20) == Some(press);
  }

  // ----- The buffer

  class Buffer {
    const events: array<Event>
    var count: nat

    ghost predicate Valid()
      reads this, events
    {
      count <= events.Length && forall i :: 0 <= i < count ==> IsTime32(events[i].timeMs)
    }

    ghost function Contents(): seq<Event>
      requires Valid()
      reads this, events
    {
      events[..count]
    }

    constructor (capacity: nat)
      ensures Valid() && Contents() == [] && fresh(events) && events.Length == capacity
    {
      events := new Event[capacity](_ => Event(0, 0, 0, 0));
      count := 0;
    }

    method Push(event: Event) returns (ok: bool)
      requires Valid() && IsTime32(event.timeMs)
      modifies `count, events
      ensures Valid() && ok == (old(count) < events.Length)
      ensures Contents() == if ok then old(Contents()) + [event] else old(Contents())
    {
      if count >= events.Length {
        return false;
      }
      events[count] := event;
      count := count + 1;
      ok := true;
    }

    /** Where the events of a sorted stretch pass a time, by binary search. */
    method UpperBoundTime(from: nat, end: nat, timeMs: int) returns (first: nat)
      requires Valid() && from <= end <= count && TimeSorted(events[from..end])
      ensures from <= first <= end
      ensures forall i :: from <= i < first ==> events[i].timeMs <= timeMs
      ensures forall i :: first <= i < end ==> events[i].timeMs > timeMs
    {
      first := from;
      var last := end;
      while first < last
        invariant from <= first <= last <= end
        invariant forall i :: from <= i < first ==> events[i].timeMs <= timeMs
        invariant forall i :: last <= i < end ==> events[i].timeMs > timeMs
      {
        var middle := first + (last - first) / 2;
        ghost var stretch := events[from..end];
        assert forall i :: from <= i < end ==> events[i] == stretch[i - from];
        if events[middle].timeMs <= timeMs {
          first := middle + 1;
        } else {
          last := middle;
        }
      }
    }

    /** The backward scan from an upper bound. */
    method ScanBack(from: nat, upper: nat, action: nat, kind: nat) returns (found: Option<Event>)
      requires Valid() && from <= upper <= count
      ensures found == LastMatch(events[from..upper], action, kind)
    {
      var index := upper;
      while index != from
        invariant from <= index <= upper
        invariant LastMatch(events[from..upper], action, kind) == LastMatch(events[from..index], action, kind)
      {
        index := index - 1;
        assert events[from..index + 1][..index - from] == events[from..index];
        if events[index].action == action && events[index].valueKind == kind {
          return Some(events[index]);
        }
      }
      found := None;
    }

    /** Binary search and backward scan find what the full scan of a sorted stretch finds. */
    method FindSorted(from: nat, end: nat, action: nat, kind: nat, timeMs: int) returns (found: Option<Event>)
      requires Valid() && from <= end <= count && TimeSorted(events[from..end])
      ensures found == Lookup(events[from..end], action, kind, timeMs)
    {
      var upper := UpperBoundTime(from, end, timeMs);
      ghost var stretch := events[from..end];
      assert forall i :: 0 <= i < |stretch| ==> stretch[i] == events[from + i];
      SortedLookup(stretch, action, kind, timeMs, upper - from);
      assert stretch[..upper - from] == events[from..upper];
      found := ScanBack(from, upper, action, kind);
    }

    /** ChannelStateAt: both ways of looking agree with the one meaning. */
    method ChannelStateAt(action: nat, kind: nat, timeMs: int, sortedByTime: bool, initial: int)
      returns (state: int)
      requires Valid() && (sortedByTime ==> TimeSorted(Contents()))
      ensures state == ValueAt(Contents(), action, kind, timeMs, initial)
    {
      if sortedByTime {
        assert events[0..count] == Contents();
        var found := FindSorted(0, count, action, kind, timeMs);
        return if found.Some? then found.value.value else initial;
      }
      state := FullScan(action, kind, timeMs, initial);
    }

    /** ChannelStateAtWithAppendedRun: two binary searches, in a sorted list and in the ascending run
        appended to it, agree with the full scan of the unsorted whole. */
    method ChannelStateAtWithAppendedRun(canonicalCount: nat, action: nat, kind: nat, timeMs: int, initial: int)
      returns (state: int)
      requires Valid() && canonicalCount <= count
      requires TimeSorted(events[0..canonicalCount]) && TimeSorted(events[canonicalCount..count])
      ensures state == ValueAt(Contents(), action, kind, timeMs, initial)
    {
      LookupInRuns(canonicalCount, action, kind, timeMs);
      var bestTime := INT64_MIN;
      state := initial;
      var early := FindSorted(0, canonicalCount, action, kind, timeMs);
      if early.Some? {
        state, bestTime := early.value.value, early.value.timeMs;
      }
      var late := FindSorted(canonicalCount, count, action, kind, timeMs);
      if late.Some? && late.value.timeMs >= bestTime {
        state := late.value.value;
      }
    }

    lemma {:induction false} LookupInRuns(split: nat, action: nat, kind: nat, timeMs: int)
      requires Valid() && split <= count
      ensures var early, late := Lookup(events[0..split], action, kind, timeMs),
                                 Lookup(events[split..count], action, kind, timeMs);
        && Lookup(Contents(), action, kind, timeMs) ==
             (if late.Some? && (early.None? || late.value.timeMs >= early.value.timeMs) then late else early)
        && (late.Some? ==> late.value.timeMs >= INT64_MIN)
    {
      var a, b := events[0..split], events[split..count];
      assert Contents() == a + b;
      LookupConcat(a, b, action, kind, timeMs);
      LookupIsEvent(b, action, kind, timeMs);
    }

    method FullScan(action: nat, kind: nat, timeMs: int, initial: int) returns (state: int)
      requires Valid()
      ensures state == ValueAt(Contents(), action, kind, timeMs, initial)
    {
      state := initial;
      var bestTime := INT64_MIN;
      for index := 0 to count
        invariant var found := Lookup(events[..index], action, kind, timeMs);
                  match found
                  case None => state == initial && bestTime == INT64_MIN
                  case Some(w) => state == w.value && bestTime == w.timeMs
      {
        var event := events[index];
        assert events[..index + 1][..index] == events[..index];
        if event.action == action && event.valueKind == kind && event.timeMs <= timeMs && event.timeMs >= bestTime {
          state := event.value;
          bestTime := event.timeMs;
        }
      }
    }

    /** The compaction step of both removals. */
    method CompactEvent(index: nat, destination: nat, action: nat, start: int, end: int)
      returns (next: nat)
      requires Valid() && destination <= index < count
      modifies events
      ensures Valid() && next <= index + 1
      ensures events[..next] == old(events[..destination]) +
                                if InRange(old(events[index]), action, start, end) then [] else [old(events[index])]
      ensures events[index + 1..count] == old(events[index + 1..count])
    {
      var event := events[index];
      next := destination;
      if !(event.action == action && event.timeMs >= start && event.timeMs <= end) {
        events[destination] := event;
        next := destination + 1;
        assert events[..next] == events[..destination] + [event];
      }
    }

    /** RemoveActionRangeAndReadState: one pass that reads the state at start while it compacts. */
    method RemoveActionRangeAndReadState(action: nat, kind: nat, start: int, end: int, initial: int)
      returns (state: int)
      requires Valid()
      modifies `count, events
      ensures Valid()
      ensures Contents() == Keep(old(Contents()), action, start, end)
      ensures state == ValueAt(old(Contents()), action, kind, start, initial)
    {
      ghost var before := Contents();
      state := initial;
      var bestTime: int, destination: nat := INT64_MIN, 0;
      for index := 0 to count
        invariant Valid() && destination <= index && count == |before|
        invariant events[..destination] == Keep(before[..index], action, start, end)
        invariant events[index..count] == before[index..]
        invariant var found := Lookup(before[..index], action, kind, start);
                  match found
                  case None => state == initial && bestTime == INT64_MIN
                  case Some(w) => state == w.value && bestTime == w.timeMs
      {
        var event := events[index];
        assert event == events[index..count][0] == before[index] && IsTime32(event.timeMs);
        assert events[index + 1..count] == events[index..count][1..] == before[index + 1..];
        PrefixStep(before, index, action, kind, start, end);
        if event.action == action && event.valueKind == kind && event.timeMs <= start && event.timeMs >= bestTime {
          state := event.value;
          bestTime := event.timeMs;
        }
        destination := CompactEvent(index, destination, action, start, end);
      }
      assert before[..count] == before;
      count := destination;
    }

    /** LegacyRemoveRange: a full scan, then the compaction; it promises what the one pass promises. */
    method LegacyRemoveRange(start: int, end: int) returns (state: int)
      requires Valid()
      modifies `count, events
      ensures Valid()
      ensures Contents() == Keep(old(Contents()), 4, start, end)
      ensures state == ValueAt(old(Contents()), 4, 2, start, 0)
    {
      ghost var before := Contents();
      state := FullScan(4, 2, start, 0);
      var destination: nat := 0;
      for index := 0 to count
        invariant Valid() && destination <= index && count == |before|
        invariant events[..destination] == Keep(before[..index], 4, start, end)
        invariant events[index..count] == before[index..]
      {
        assert events[index] == events[index..count][0] == before[index];
        assert events[index + 1..count] == events[index..count][1..] == before[index + 1..];
        PrefixStep(before, index, 4, 2, start, end);
        destination := CompactEvent(index, destination, 4, start, end);
      }
      assert before[..count] == before;
      count := destination;
    }

    /** One turn of the loop: remove, press, and release if the hold ends later. */
    method InsertHold(action: nat, start: int, end: int, initial: bool, passBaseline: seq<Event>)
      returns (ok: bool)
      requires Valid() && IsTime32(start) && IsTime32(end)
      modifies `count, events
      ensures Valid()
      ensures ok ==> Contents() == Inserted(old(Contents()), passBaseline, action, Hold(start, end), initial)
      ensures !ok ==> count == events.Length
    {
      var state := RemoveActionRangeAndReadState(action, 1, start, end, if initial then 1 else 0);
      ok := Push(SwitchEvent(start, action, state == 0));
      if ok && end > start {
        ok := Push(SwitchEvent(end, action, SwitchAt(passBaseline, action, end, initial)));
      }
    }

    /** InsertSwitchChannel over what the generator draws. */
    method InsertSwitchChannel(enabled: bool, action: nat, draws: seq<Draw>, maximumTimeMs: int, initial: bool,
                               passBaseline: seq<Event>)
      returns (ok: bool)
      requires Valid() && Contents() == passBaseline
      requires forall i :: 0 <= i < |draws| ==>
                 IsTime32(draws[i].start) && IsTime32(HoldOf(draws[i], maximumTimeMs).end)
      modifies `count, events
      ensures Valid()
      ensures ok ==>
                Contents() == if enabled then InsertedAll(passBaseline, action, HoldsOf(draws, maximumTimeMs), initial)
                              else passBaseline
      ensures !ok ==> enabled && count == events.Length
    {
      if !enabled {
        return true;
      }
      ghost var holds := HoldsOf(draws, maximumTimeMs);
      for index := 0 to |draws|
        invariant Valid() && Contents() == InsertedAll(passBaseline, action, holds[..index], initial)
      {
        assert holds[..index + 1][..index] == holds[..index];
        var start, end := draws[index].start, draws[index].start + draws[index].length;
        if end > maximumTimeMs {
          end := maximumTimeMs;
        }
        ok := InsertHold(action, start, end, initial, passBaseline);
        if !ok {
          return;
        }
      }
      assert holds[..|holds|] == holds;
      ok := true;
    }
  }
}
