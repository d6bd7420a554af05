/** BuildSyntheticInputs: generation of synthetic events, stable sorting, and group-wise
    normalisation to one event per time and action. */
module InputNormalization {
  import opened Common
  import opened Inputs
  import opened EventLookup
  import opened Arithmetic

  /** The event that a normalised list keeps apart: one per time and action. */
  datatype Key = Key(timeMs: int, action: nat)

  function KeyOf(e: Event): Key {
    Key(e.timeMs, e.action)
  }

  function Keys(events: seq<Event>): seq<Key> {
    seq(|events|, i requires 0 <= i < |events| => KeyOf(events[i]))
  }

  /** The last event with a key. */
  function LastWriter(events: seq<Event>, key: Key): Option<Event> {
    if events == [] then None
    else if KeyOf(events[|events| - 1]) == key then Some(events[|events| - 1])
    else LastWriter(events[..|events| - 1], key)
  }

  lemma {:induction false} LastWriterFacts(events: seq<Event>, key: Key)
    ensures LastWriter(events, key).Some? <==> key in Keys(events)
    ensures LastWriter(events, key).Some? ==>
              KeyOf(LastWriter(events, key).value) == key && LastWriter(events, key).value in events
  {
    if events != [] {
      var k := |events| - 1;
      LastWriterFacts(events[..k], key);
      assert Keys(events) == Keys(events[..k]) + [KeyOf(events[k])];
      assert events == events[..k] + [events[k]];
    }
  }

  /** The normal form: the last writer of every key, keys in order of first occurrence. */
  function NormalForm(events: seq<Event>): seq<Event> {
    var keys := Distinct(Keys(events));
    seq(|keys|, i requires 0 <= i < |keys| => var w := LastWriter(events, keys[i]);
                                              if w.Some? then w.value else events[0])
  }

  lemma {:induction false} NormalFormFacts(events: seq<Event>)
    ensures Keys(NormalForm(events)) == Distinct(Keys(events))
    ensures forall i :: 0 <= i < |NormalForm(events)| ==>
              LastWriter(events, Distinct(Keys(events))[i]) == Some(NormalForm(events)[i])
  {
    var keys := Distinct(Keys(events));
    DistinctFacts(Keys(events));
    forall i | 0 <= i < |keys|
      ensures LastWriter(events, keys[i]) == Some(NormalForm(events)[i]) && KeyOf(NormalForm(events)[i]) == keys[i]
    {
      assert keys[i] in keys;
      LastWriterFacts(events, keys[i]);
    }
  }

  // ----- What normalisation keeps

  /** A list without repeated keys has every event as the last writer of its key. */
  lemma {:induction false} UniqueWriter(events: seq<Event>, i: nat)
    requires NoRepeats(Keys(events)) && i < |events|
    ensures LastWriter(events, KeyOf(events[i])) == Some(events[i])
  {
    var k := |events| - 1;
    if i < k {
      assert Keys(events)[i] != Keys(events)[k];
      assert forall j :: 0 <= j < k ==> Keys(events[..k])[j] == Keys(events)[j];
      UniqueWriter(events[..k], i);
    }
  }

  /** Normalising keeps the last writer of every key and loses no key. */
  lemma {:induction false} NormalFormWriters(events: seq<Event>, key: Key)
    ensures LastWriter(NormalForm(events), key) == LastWriter(events, key)
  {
    var form := NormalForm(events);
    NormalFormFacts(events);
    DistinctFacts(Keys(events));
    LastWriterFacts(events, key);
    LastWriterFacts(form, key);
    if key in Keys(form) {
      var i :| 0 <= i < |form| && Keys(form)[i] == key;
      UniqueWriter(form, i);
    }
  }

  /** Normalising twice is normalising once. */
  lemma {:induction false} NormalFormIdempotent(events: seq<Event>)
    ensures NormalForm(NormalForm(events)) == NormalForm(events)
  {
    var form := NormalForm(events);
    NormalFormFacts(events);
    DistinctFacts(Keys(events));
    DistinctOfDistinct(Keys(form));
    NormalFormFacts(form);
    forall i | 0 <= i < |form|
      ensures NormalForm(form)[i] == form[i]
    {
      UniqueWriter(form, i);
    }
  }

  ghost predicate KeysSorted(keys: seq<Key>) {
    forall i, j :: 0 <= i < j < |keys| ==> keys[i].timeMs <= keys[j].timeMs
  }

  lemma {:induction false} DistinctStaysSorted(keys: seq<Key>)
    requires KeysSorted(keys)
    ensures KeysSorted(Distinct(keys))
  {
    if keys != [] {
      var k := |keys| - 1;
      DistinctStaysSorted(keys[..k]);
      DistinctFacts(keys[..k]);
      var d := Distinct(keys[..k]);
      forall i | 0 <= i < |d|
        ensures d[i].timeMs <= keys[k].timeMs
      {
        assert d[i] in keys[..k];
        var j :| 0 <= j < k && keys[j] == d[i];
      }
    }
  }

  /** The normal form of a sorted list is sorted and has one event per time and action. */
  lemma {:induction false} NormalFormIsSorted(events: seq<Event>)
    requires TimeSorted(events)
    ensures TimeSorted(NormalForm(events)) && NoRepeats(Keys(NormalForm(events)))
  {
    NormalFormFacts(events);
    DistinctFacts(Keys(events));
    DistinctStaysSorted(Keys(events));
    var form := NormalForm(events);
    forall i, j | 0 <= i < j < |form|
      ensures form[i].timeMs <= form[j].timeMs
    {
      assert Keys(form)[i].timeMs <= Keys(form)[j].timeMs;
    }
  }

  // ----- What the lists mean

  /** The value kind is determined by time and action. */
  ghost predicate OneKindPerKey(events: seq<Event>) {
    forall i, j :: 0 <= i < |events| && 0 <= j < |events| && KeyOf(events[i]) == KeyOf(events[j]) ==>
      events[i].valueKind == events[j].valueKind
  }

  ghost predicate SameMeaning(a: seq<Event>, b: seq<Event>) {
    forall action: nat, kind: nat, timeMs: int :: Lookup(a, action, kind, timeMs) == Lookup(b, action, kind, timeMs)
  }

  /** With one kind per key the channel writer is the last writer, if that has the kind. */
  lemma {:induction false} WriterByKey(events: seq<Event>, action: nat, kind: nat, at: int)
    requires OneKindPerKey(events)
    ensures var w := LastWriter(events, Key(at, action));
            WriterAt(events, action, kind, at) == if w.Some? && w.value.valueKind == kind then w else None
  {
    if events != [] {
      var k := |events| - 1;
      WriterByKey(events[..k], action, kind, at);
      WriterIsEvent(events[..k], action, kind, at);
    }
  }

  lemma {:induction false} OneKindOfForm(events: seq<Event>)
    requires OneKindPerKey(events)
    ensures OneKindPerKey(NormalForm(events))
  {
    NormalFormFacts(events);
    DistinctFacts(Keys(events));
    var form := NormalForm(events);
    forall i, j | 0 <= i < |form| && 0 <= j < |form| && KeyOf(form[i]) == KeyOf(form[j])
      ensures form[i].valueKind == form[j].valueKind
    {
      assert Keys(form)[i] == Keys(form)[j];
    }
  }

  /** MAIN RESULT.  Normalisation preserves every last-value lookup of every channel exactly when
      the value kind is determined by time and action. */
  lemma {:induction false} NormalFormMeansTheSame(events: seq<Event>)
    ensures SameMeaning(NormalForm(events), events) <==> OneKindPerKey(events)
  {
    var form := NormalForm(events);
    if OneKindPerKey(events) {
      OneKindOfForm(events);
      forall action: nat, kind: nat, timeMs: int
        ensures Lookup(form, action, kind, timeMs) == Lookup(events, action, kind, timeMs)
      {
        forall at | at <= timeMs
          ensures WriterAt(form, action, kind, at) == WriterAt(events, action, kind, at)
        {
          WriterByKey(events, action, kind, at);
          WriterByKey(form, action, kind, at);
          NormalFormWriters(events, Key(at, action));
        }
        SameWritersSameLookup(form, events, action, kind, timeMs);
      }
    } else {
      var i, j :| 0 <= i < |events| && 0 <= j < |events| && KeyOf(events[i]) == KeyOf(events[j])
                  && events[i].valueKind != events[j].valueKind;
      MixedKindsDiffer(events, i, j);
    }
  }

  /** Two kinds under one key: the form has lost one of them, and a lookup notices. */
  lemma {:induction false} MixedKindsDiffer(events: seq<Event>, i: nat, j: nat)
    requires i < |events| && j < |events| && KeyOf(events[i]) == KeyOf(events[j])
    requires events[i].valueKind != events[j].valueKind
    ensures !SameMeaning(NormalForm(events), events)
  {
    var form, key := NormalForm(events), KeyOf(events[i]);
    NormalFormWriters(events, key);
    var kept := LastWriter(events, key);
    var lost := if kept.Some? && kept.value.valueKind == events[i].valueKind then events[j] else events[i];
    var kind := lost.valueKind;
    LookupFindsLatestWriter(events, key.action, kind, key.timeMs);
    LookupFindsLatestWriter(form, key.action, kind, key.timeMs);
    assert lost in events && Matches(lost, key.action, kind);
    var found := Lookup(form, key.action, kind, key.timeMs);
    if found.Some? && found.value.timeMs == key.timeMs {
      WriterIsEvent(form, key.action, kind, key.timeMs);
      var m :| 0 <= m < |form| && form[m] == found.value;
      NormalFormIsUnique(events, m);
    }
    assert Lookup(form, key.action, kind, key.timeMs) != Lookup(events, key.action, kind, key.timeMs);
  }

  lemma {:induction false} NormalFormIsUnique(events: seq<Event>, m: nat)
    requires m < |NormalForm(events)|
    ensures LastWriter(events, KeyOf(NormalForm(events)[m])) == Some(NormalForm(events)[m])
  {
    NormalFormFacts(events);
    assert Keys(NormalForm(events))[m] == KeyOf(NormalForm(events)[m]);
  }

  // ----- Stable sorting

  /** The events at one time, in list order. */
  function AtTime(events: seq<Event>, at: int): seq<Event> {
    if events == [] then []
    else
      var front, e := AtTime(events[..|events| - 1], at), events[|events| - 1];
      if e.timeMs == at then front + [e] else front
  }

  /** std::stable_sort by time: sorted, and at every time the same events in the same order. */
  ghost predicate StablySorted(sorted: seq<Event>, events: seq<Event>) {
    TimeSorted(sorted) && forall at: int :: AtTime(sorted, at) == AtTime(events, at)
  }

  lemma {:induction false} WriterOfAtTime(events: seq<Event>, action: nat, kind: nat, at: int)
    ensures WriterAt(AtTime(events, at), action, kind, at) == WriterAt(events, action, kind, at)
  {
    if events != [] {
      var front, e := AtTime(events[..|events| - 1], at), events[|events| - 1];
      WriterOfAtTime(events[..|events| - 1], action, kind, at);
      assert (front + [e])[..|front|] == front;
    }
  }

  /** A stable sort preserves meaning, whatever the kinds. */
  lemma {:induction false} StableSortMeansTheSame(sorted: seq<Event>, events: seq<Event>)
    requires StablySorted(sorted, events)
    ensures SameMeaning(sorted, events)
  {
    forall action: nat, kind: nat, timeMs: int
      ensures Lookup(sorted, action, kind, timeMs) == Lookup(events, action, kind, timeMs)
    {
      forall at | at <= timeMs
        ensures WriterAt(sorted, action, kind, at) == WriterAt(events, action, kind, at)
      {
        WriterOfAtTime(sorted, action, kind, at);
        WriterOfAtTime(events, action, kind, at);
      }
      SameWritersSameLookup(sorted, events, action, kind, timeMs);
    }
  }

  lemma {:induction false} AtTimeAppend(a: seq<Event>, b: seq<Event>, at: int)
    ensures AtTime(a + b, at) == AtTime(a, at) + AtTime(b, at)
  {
    if b == [] {
      assert a + b == a;
    } else {
      AtTimeAppend(a, b[..|b| - 1], at);
      assert (a + b)[..|a + b| - 1] == a + b[..|b| - 1];
    }
  }

  lemma {:induction false} AtTimeOfOthers(events: seq<Event>, at: int)
    requires forall e :: e in events ==> e.timeMs != at
    ensures AtTime(events, at) == []
  {
    if events != [] {
      AtTimeOfOthers(events[..|events| - 1], at);
    }
  }

  lemma {:induction false} AtTimeMember(events: seq<Event>, e: Event)
    ensures e in AtTime(events, e.timeMs) <==> e in events
  {
    if events != [] {
      AtTimeMember(events[..|events| - 1], e);
      assert events == events[..|events| - 1] + [events[|events| - 1]];
    }
  }

  /** Insertion sort in place of the library's stable sort. */
  method StableSort(events: seq<Event>) returns (sorted: seq<Event>)
    ensures StablySorted(sorted, events)
  {
    sorted := [];
    for i := 0 to |events|
      invariant StablySorted(sorted, events[..i])
    {
      var e := events[i];
      var k: nat := |sorted|;
      while k > 0 && sorted[k - 1].timeMs > e.timeMs
        invariant k <= |sorted|
        invariant forall j :: k <= j < |sorted| ==> sorted[j].timeMs > e.timeMs
      {
        k := k - 1;
      }
      StableInsert(sorted, events[..i], e, k);
      assert events[..i + 1] == events[..i] + [e];
      sorted := sorted[..k] + [e] + sorted[k..];
    }
    assert events[..|events|] == events;
  }

  lemma {:induction false} InsertAtTime(left: seq<Event>, e: Event, right: seq<Event>, at: int)
    requires forall x :: x in right ==> x.timeMs > e.timeMs
    ensures AtTime(left + [e] + right, at) == AtTime(left + right + [e], at)
  {
    AtTimeAppend(left + [e], right, at);
    AtTimeAppend(left, [e], at);
    AtTimeAppend(left + right, [e], at);
    AtTimeAppend(left, right, at);
    if at == e.timeMs {
      AtTimeOfOthers(right, at);
    } else {
      AtTimeOfOthers([e], at);
    }
  }

  lemma {:induction false} SortedInsert(left: seq<Event>, e: Event, right: seq<Event>)
    requires TimeSorted(left + right)
    requires forall j :: 0 <= j < |right| ==> right[j].timeMs > e.timeMs
    requires left != [] ==> left[|left| - 1].timeMs <= e.timeMs
    ensures TimeSorted(left + [e] + right)
  {
    var all, out := left + right, left + [e] + right;
    forall i, j | 0 <= i < j < |out|
      ensures out[i].timeMs <= out[j].timeMs
    {
      var i', j' := if i <= |left| then i else i - 1, if j <= |left| then j else j - 1;
      assert i < |left| ==> out[i] == all[i] && all[i].timeMs <= all[|left| - 1].timeMs;
      assert i' < j' && j' < |all| ==> all[i'].timeMs <= all[j'].timeMs;
    }
  }

  lemma {:induction false} StableInsert(sorted: seq<Event>, events: seq<Event>, e: Event, k: nat)
    requires StablySorted(sorted, events) && k <= |sorted|
    requires forall j :: k <= j < |sorted| ==> sorted[j].timeMs > e.timeMs
    requires k > 0 ==> sorted[k - 1].timeMs <= e.timeMs
    ensures StablySorted(sorted[..k] + [e] + sorted[k..], events + [e])
  {
    var left, right := sorted[..k], sorted[k..];
    assert sorted == left + right;
    SortedInsert(left, e, right);
    forall at: int
      ensures AtTime(left + [e] + right, at) == AtTime(events + [e], at)
    {
      InsertAtTime(left, e, right, at);
      AtTimeAppend(sorted, [e], at);
      AtTimeAppend(events, [e], at);
    }
  }

  // ----- The whole routine

  lemma {:induction false} NormalFormStep(events: seq<Event>, e: Event, i: nat)
    requires i < |NormalForm(events)| && KeyOf(NormalForm(events)[i]) == KeyOf(e)
    ensures NormalForm(events + [e]) == NormalForm(events)[i := e]
  {
    var all := events + [e];
    NormalFormFacts(events);
    NormalFormFacts(all);
    DistinctFacts(Keys(events));
    assert all[..|events|] == events && Keys(all)[..|events|] == Keys(events);
    assert Keys(NormalForm(events))[i] == KeyOf(e);
    assert Distinct(Keys(all)) == Distinct(Keys(events));
    forall j | 0 <= j < |NormalForm(all)|
      ensures NormalForm(all)[j] == NormalForm(events)[i := e][j]
    {
      assert Distinct(Keys(events))[j] == KeyOf(e) <==> j == i;
    }
  }

  lemma {:induction false} NormalFormNew(events: seq<Event>, e: Event)
    requires KeyOf(e) !in Keys(NormalForm(events))
    ensures NormalForm(events + [e]) == NormalForm(events) + [e]
  {
    var all := events + [e];
    NormalFormFacts(events);
    NormalFormFacts(all);
    assert all[..|events|] == events && Keys(all)[..|events|] == Keys(events);
    assert Distinct(Keys(all)) == Distinct(Keys(events)) + [KeyOf(e)];
    forall j | 0 <= j < |NormalForm(events)|
      ensures NormalForm(all)[j] == NormalForm(events)[j]
    {
      assert Keys(NormalForm(events))[j] != KeyOf(e);
    }
  }

  lemma {:induction false} NormalFormTimes(events: seq<Event>)
    requires TimeSorted(events) && events != []
    ensures NormalForm(events) != []
    ensures forall i :: 0 <= i < |NormalForm(events)| ==>
              NormalForm(events)[i].timeMs <= events[|events| - 1].timeMs
    ensures NormalForm(events)[|NormalForm(events)| - 1].timeMs == events[|events| - 1].timeMs
  {
    var form, last := NormalForm(events), events[|events| - 1];
    NormalFormFacts(events);
    NormalFormIsSorted(events);
    DistinctFacts(Keys(events));
    assert Keys(events)[|events| - 1] == KeyOf(last);
    assert KeyOf(last) in Keys(form);
    var m :| 0 <= m < |form| && Keys(form)[m] == KeyOf(last);
    forall i | 0 <= i < |form|
      ensures form[i].timeMs <= last.timeMs
    {
      assert Keys(form)[i] in Keys(events);
      var j :| 0 <= j < |events| && Keys(events)[j] == Keys(form)[i];
    }
  }

  /** std::find_if over the current group. */
  method FindAction(events: seq<Event>, from: nat, action: nat) returns (position: nat)
    requires from <= |events|
    ensures from <= position <= |events|
    ensures position < |events| ==> events[position].action == action
    ensures forall j :: from <= j < position ==> events[j].action != action
  {
    position := from;
    while position < |events| && events[position].action != action
      invariant from <= position <= |events|
      invariant forall j :: from <= j < position ==> events[j].action != action
    {
      position := position + 1;
    }
  }

  /** The group-wise normalisation loop. */
  method Normalize(inputs: seq<Event>) returns (normalized: seq<Event>)
    requires TimeSorted(inputs)
    ensures normalized == NormalForm(inputs)
  {
    normalized := [];
    var groupBegin: nat := 0;
    for i := 0 to |inputs|
      invariant normalized == NormalForm(inputs[..i])
      invariant groupBegin <= |normalized|
      invariant i > 0 ==> forall j :: 0 <= j < |normalized| ==>
                  (j < groupBegin <==> normalized[j].timeMs < inputs[i - 1].timeMs)
    {
      var event := inputs[i];
      assert inputs[..i + 1] == inputs[..i] + [event];
      if i > 0 {
        NormalFormTimes(inputs[..i]);
      }
      if normalized == [] || normalized[|normalized| - 1].timeMs != event.timeMs {
        groupBegin := |normalized|;
      }
      var duplicate := FindAction(normalized, groupBegin, event.action);
      if duplicate == |normalized| {
        NormalFormNew(inputs[..i], event);
        normalized := normalized + [event];
      } else {
        NormalFormStep(inputs[..i], event, duplicate);
        normalized := normalized[duplicate := event];
      }
    }
    assert inputs[..|inputs|] == inputs;
  }

  const ACCELERATE: nat := 1
  const BRAKE: nat := 3
  const STEER: nat := 4
  const SWITCH: nat := 1
  const ANALOG: nat := 2

  /** The synthetic event with a given running index. */
  function GeneratedEvent(timeMs: int, index: nat): Event {
    var time := ToTime32(timeMs);
    match index % 3
    case 0 => Event(time, STEER, ANALOG, -24000 + index % 17 * 3000)
    case 1 => Event(time, ACCELERATE, SWITCH, if index / 3 % 2 == 0 then 1 else 0)
    case _ => Event(time, BRAKE, SWITCH, if index / 3 % 2 == 0 then 0 else 1)
  }

  /** The synthetic events: one every interval from firstTimeMs through lastTimeMs. */
  function Generated(firstTimeMs: int, lastTimeMs: int, interval: int, index: nat): seq<Event>
    requires interval > 0
    decreases lastTimeMs - firstTimeMs + interval
  {
    if firstTimeMs > lastTimeMs then []
    else [GeneratedEvent(firstTimeMs, index)] + Generated(firstTimeMs + interval, lastTimeMs, interval, index + 1)
  }

  lemma {:induction false} GeneratedAt(firstTimeMs: int, lastTimeMs: int, interval: int, index: nat, k: nat,
                                       timeMs: int)
    requires interval > 0 && k < |Generated(firstTimeMs, lastTimeMs, interval, index)|
    requires timeMs == firstTimeMs + k * interval
    ensures timeMs <= lastTimeMs
    ensures Generated(firstTimeMs, lastTimeMs, interval, index)[k] == GeneratedEvent(timeMs, index + k)
    decreases k
  {
    var rest := Generated(firstTimeMs + interval, lastTimeMs, interval, index + 1);
    var all := [GeneratedEvent(firstTimeMs, index)] + rest;
    assert all == Generated(firstTimeMs, lastTimeMs, interval, index);
    if k > 0 {
      assert k * interval == (k - 1) * interval + interval;
      GeneratedAt(firstTimeMs + interval, lastTimeMs, interval, index + 1, k - 1, timeMs);
      assert all[k] == rest[k - 1];
    }
  }

  lemma {:induction false} GeneratedCount(firstTimeMs: int, lastTimeMs: int, interval: int, index: nat)
    requires interval > 0
    ensures lastTimeMs < firstTimeMs + |Generated(firstTimeMs, lastTimeMs, interval, index)| * interval
    decreases lastTimeMs - firstTimeMs + interval
  {
    if firstTimeMs <= lastTimeMs {
      GeneratedCount(firstTimeMs + interval, lastTimeMs, interval, index + 1);
    }
  }

  /** The event in place k of the generated ones, k intervals behind the first time.  Steering, with 17
      values in steps of 3000 from -24000, takes turns with pressing and releasing gas and brake. */
  ghost predicate IsGenerated(e: Event, firstTimeMs: int, interval: int, k: nat) {
    && -0x8000_0000 <= e.timeMs < 0x8000_0000
    && (e.timeMs - (firstTimeMs + k * interval)) % 0x1_0000_0000 == 0
    && (k % 3 == 0 ==> e.action == 4 && e.valueKind == 2 && e.value == 3000 * (k % 17) - 24000)
    && (k % 3 == 1 ==> e.action == 1 && e.valueKind == 1 && e.value == if k % 6 == 1 then 1 else 0)
    && (k % 3 == 2 ==> e.action == 3 && e.valueKind == 1 && e.value == if k % 6 == 2 then 0 else 1)
  }

  /** The events that are added: one for every interval from the first through the last time. */
  lemma {:induction false} GeneratedAre(firstTimeMs: int, lastTimeMs: int, interval: int)
    requires interval > 0
    ensures var added := Generated(firstTimeMs, lastTimeMs, interval, 0);
            && (forall k: nat :: k < |added| <==> firstTimeMs + k * interval <= lastTimeMs)
            && (forall k :: 0 <= k < |added| ==> IsGenerated(added[k], firstTimeMs, interval, k))
  {
    var added := Generated(firstTimeMs, lastTimeMs, interval, 0);
    GeneratedCount(firstTimeMs, lastTimeMs, interval, 0);
    forall k: nat
      ensures k < |added| <==> firstTimeMs + k * interval <= lastTimeMs
      ensures k < |added| ==> IsGenerated(added[k], firstTimeMs, interval, k)
    {
      if k < |added| {
        GeneratedAt(firstTimeMs, lastTimeMs, interval, 0, k, firstTimeMs + k * interval);
        TimeWraps(firstTimeMs + k * interval);
        SixTurns(k);
      } else {
        ProductMonotone(|added|, k, interval);
      }
    }
  }

  lemma {:induction false} TimeWraps(timeMs: int)
    ensures (ToTime32(timeMs) - timeMs) % 0x1_0000_0000 == 0
  {
    var shifted := timeMs + 0x8000_0000;
    var q := shifted / 0x1_0000_0000;
    assert ToTime32(timeMs) - timeMs == -q * 0x1_0000_0000;
  }

  lemma {:induction false} SixTurns(k: nat)
    ensures k % 3 == 1 ==> (k / 3 % 2 == 0 <==> k % 6 == 1)
    ensures k % 3 == 2 ==> (k / 3 % 2 == 0 <==> k % 6 == 2)
  {
  }

  /** BuildSyntheticInputs.  A positive rate yields a normal form of the inputs followed by the
      generated events; it means what they mean exactly if time and action determine the kind. */
  method BuildSyntheticInputs(inputs: seq<Event>, firstTimeMs: int, lastTimeMs: int, eventsPerSecond: nat)
    returns (result: seq<Event>)
    ensures eventsPerSecond == 0 ==> result == inputs
    ensures eventsPerSecond > 0 ==>
              var interval := if 1000 / eventsPerSecond >= 1 then 1000 / eventsPerSecond else 1;
              var raw := inputs + Generated(firstTimeMs, lastTimeMs, interval, 0);
              && TimeSorted(result)
              && NoRepeats(Keys(result))
              && (forall key :: LastWriter(result, key) == LastWriter(raw, key))
              && (SameMeaning(result, raw) <==> OneKindPerKey(raw))
  {
    if eventsPerSecond == 0 {
      return inputs;
    }
    var intervalMs := if 1000 / eventsPerSecond >= 1 then 1000 / eventsPerSecond else 1;
    var all := inputs;
    var generatedIndex, timeMs := 0, firstTimeMs;
    ghost var raw := inputs + Generated(firstTimeMs, lastTimeMs, intervalMs, 0);
    while timeMs <= lastTimeMs
      invariant raw == all + Generated(timeMs, lastTimeMs, intervalMs, generatedIndex)
      decreases lastTimeMs - timeMs + intervalMs
    {
      all := all + [GeneratedEvent(timeMs, generatedIndex)];
      timeMs := timeMs + intervalMs;
      generatedIndex := generatedIndex + 1;
    }
    assert raw == all;
    var sorted := StableSort(all);
    result := Normalize(sorted);
    NormalFormIsSorted(sorted);
    forall key
      ensures LastWriter(result, key) == LastWriter(all, key)
    {
      NormalFormWriters(sorted, key);
      LastWriterOfAtTime(sorted, key);
      LastWriterOfAtTime(all, key);
    }
    StableSortMeansTheSame(sorted, all);
    SortedKinds(sorted, all);
    NormalFormMeansTheSame(sorted);
    assert SameMeaning(result, sorted) <==> SameMeaning(result, all);
  }

  lemma {:induction false} LastWriterOfAtTime(events: seq<Event>, key: Key)
    ensures LastWriter(AtTime(events, key.timeMs), key) == LastWriter(events, key)
  {
    if events != [] {
      var front, e := AtTime(events[..|events| - 1], key.timeMs), events[|events| - 1];
      LastWriterOfAtTime(events[..|events| - 1], key);
      assert (front + [e])[..|front|] == front;
    }
  }

  /** Sorting neither adds nor removes two kinds under one key. */
  lemma {:induction false} SortedKinds(sorted: seq<Event>, events: seq<Event>)
    requires StablySorted(sorted, events)
    ensures OneKindPerKey(sorted) <==> OneKindPerKey(events)
  {
    forall e
      ensures e in sorted <==> e in events
    {
      AtTimeMember(sorted, e);
      AtTimeMember(events, e);
    }
    if OneKindPerKey(events) {
      KindsAmong(sorted, events);
    }
    if OneKindPerKey(sorted) {
      KindsAmong(events, sorted);
    }
  }

  lemma {:induction false} KindsAmong(some: seq<Event>, events: seq<Event>)
    requires (forall e :: e in some ==> e in events) && OneKindPerKey(events)
    ensures OneKindPerKey(some)
  {
    forall i, j | 0 <= i < |some| && 0 <= j < |some| && KeyOf(some[i]) == KeyOf(some[j])
      ensures some[i].valueKind == some[j].valueKind
    {
      assert some[i] in events && some[j] in events;
    }
  }
}
