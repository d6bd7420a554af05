/** apply_unified_patch: exact-context application of a single-file patch to a list of lines. */
module UnifiedPatch {
  import opened Common

  /** A patch line by its role.  Break starts with the hunk mark without being a hunk header; Other
      stands for the lines that carry nothing, such as the missing-newline marker. */
  datatype PatchLine =
    | Header(oldStart: int, newStart: int)
    | Break
    | Shared(payload: string)
    | Removed(payload: string)
    | Added(payload: string)
    | Other

  datatype Hunk = Hunk(oldStart: int, newStart: int, before: seq<string>, after: seq<string>)

  predicate EndsHunk(line: PatchLine) {
    line.Header? || line.Break?
  }

  /** The number of leading lines that belong to the hunk body. */
  function BodyLength(lines: seq<PatchLine>): (n: nat)
    ensures n <= |lines|
  {
    if lines == [] || EndsHunk(lines[0]) then 0 else 1 + BodyLength(lines[1..])
  }

  function Side(lines: seq<PatchLine>, left: bool): seq<string> {
    if lines == [] then []
    else
      var front, last := Side(lines[..|lines| - 1], left), lines[|lines| - 1];
      if last.Shared? || (left && last.Removed?) || (!left && last.Added?) then front + [last.payload] else front
  }

  /** The hunks that a patch describes. */
  function Hunks(patch: seq<PatchLine>): seq<Hunk>
    decreases |patch|
  {
    if patch == [] then []
    else if !patch[0].Header? then Hunks(patch[1..])
    else
      var n := BodyLength(patch[1..]);
      var body := patch[1..][..n];
      [Hunk(patch[0].oldStart, patch[0].newStart, Side(body, true), Side(body, false))] + Hunks(patch[1..][n..])
  }

  // ----- Placing hunks

  predicate MatchesAt(source: seq<string>, lines: seq<string>, at: nat) {
    at + |lines| <= |source| && source[at..at + |lines|] == lines
  }

  function Distance(a: int, b: int): nat {
    if a <= b then b - a else a - b
  }

  /** The match at or after from that is nearest to the expected index; the first one wins ties. */
  ghost predicate Nearest(source: seq<string>, lines: seq<string>, from: nat, expected: int, at: nat) {
    && from <= at && MatchesAt(source, lines, at)
    && forall i: nat :: from <= i && MatchesAt(source, lines, i) ==>
         Distance(at, expected) < Distance(i, expected) || (Distance(at, expected) == Distance(i, expected) && at <= i)
  }

  method FindNearest(source: seq<string>, lines: seq<string>, from: nat, expected: int) returns (found: Option<nat>)
    ensures found.Some? ==> Nearest(source, lines, from, expected, found.value)
    ensures found.None? ==> forall i: nat :: from <= i ==> !MatchesAt(source, lines, i)
  {
    found := None;
    var i := from;
    while i + |lines| <= |source|
      invariant from <= i
      invariant found.None? ==> forall j: nat :: from <= j < i ==> !MatchesAt(source, lines, j)
      invariant found.Some? ==>
                  && from <= found.value < i && MatchesAt(source, lines, found.value)
                  && forall j: nat :: from <= j < i && MatchesAt(source, lines, j) ==>
                       Distance(found.value, expected) < Distance(j, expected)
                       || (Distance(found.value, expected) == Distance(j, expected) && found.value <= j)
      decreases |source| - i
    {
      if MatchesAt(source, lines, i) && (found.None? || Distance(i, expected) < Distance(found.value, expected)) {
        found := Some(i);
      }
      i := i + 1;
    }
  }

  /** A hunk and the source line at which it is substituted. */
  datatype Placement = Placement(hunk: Hunk, at: nat)

  function HunksOf(placements: seq<Placement>): seq<Hunk> {
    seq(|placements|, i requires 0 <= i < |placements| => placements[i].hunk)
  }

  /** The first source line that the placements leave untouched behind them. */
  function Cursor(placements: seq<Placement>): nat {
    if placements == [] then 0
    else placements[|placements| - 1].at + |placements[|placements| - 1].hunk.before|
  }

  /** Placements advance through the source without overlap and match it. */
  ghost predicate Placed(source: seq<string>, placements: seq<Placement>) {
    placements == [] ||
    var front, last := placements[..|placements| - 1], placements[|placements| - 1];
    Placed(source, front) && Cursor(front) <= last.at && MatchesAt(source, last.hunk.before, last.at)
  }

  /** The placements that the nearest-match rule picks, hunk after hunk. */
  ghost predicate NearestPlaces(source: seq<string>, placements: seq<Placement>) {
    placements == [] ||
    var front, last := placements[..|placements| - 1], placements[|placements| - 1];
    && NearestPlaces(source, front)
    && Nearest(source, last.hunk.before, Cursor(front), last.hunk.oldStart - 1, last.at)
  }

  /** The target lines up to the cursor. */
  ghost function Emitted(source: seq<string>, placements: seq<Placement>): seq<string>
    requires Placed(source, placements)
  {
    if placements == [] then []
    else
      var front, last := placements[..|placements| - 1], placements[|placements| - 1];
      Emitted(source, front) + source[Cursor(front)..last.at] + last.hunk.after
  }

  /** The source with every hunk body substituted at its place and all other lines kept. */
  ghost function Spliced(source: seq<string>, placements: seq<Placement>): seq<string>
    requires Placed(source, placements)
  {
    Emitted(source, placements) + source[Cursor(placements)..]
  }

  /** Among all lines behind the hunk before at which its old lines stand, a hunk is placed at the one
      closest to the line that its header names, and at the earlier one of two that are equally close. */
  lemma {:induction false} PlacedClosest(source: seq<string>, placements: seq<Placement>, m: nat, i: nat)
    requires NearestPlaces(source, placements) && m < |placements|
    requires m > 0 ==> placements[m - 1].at + |placements[m - 1].hunk.before| <= i
    requires var before := placements[m].hunk.before;
             i + |before| <= |source| && forall j :: 0 <= j < |before| ==> source[i + j] == before[j]
    ensures var at, named := placements[m].at, placements[m].hunk.oldStart - 1;
            var here := if at < named then named - at else at - named;
            var there := if i < named then named - i else i - named;
            here < there || (here == there && at <= i)
    decreases |placements|
  {
    if m < |placements| - 1 {
      PlacedClosest(source, placements[..|placements| - 1], m, i);
    } else {
      var front := placements[..m];
      assert m > 0 ==> front[m - 1] == placements[m - 1];
      assert MatchesAt(source, placements[m].hunk.before, i) && Cursor(front) <= i;
    }
  }

  /** Placing one more hunk by the nearest-match rule. */
  lemma {:induction false} PlaceNext(source: seq<string>, placements: seq<Placement>, hunk: Hunk, at: nat)
    requires Placed(source, placements) && NearestPlaces(source, placements)
    requires Nearest(source, hunk.before, Cursor(placements), hunk.oldStart - 1, at)
    ensures var further := placements + [Placement(hunk, at)];
            && Placed(source, further) && NearestPlaces(source, further)
            && HunksOf(further) == HunksOf(placements) + [hunk]
            && Cursor(further) == at + |hunk.before| <= |source|
            && Emitted(source, further) == Emitted(source, placements) + source[Cursor(placements)..at] + hunk.after
  {
    var further := placements + [Placement(hunk, at)];
    assert further[..|placements|] == placements;
  }

  /** What the patch loop keeps about the hunks that are placed. */
  ghost predicate Progress(source: seq<string>, placements: seq<Placement>, sourceIndex: nat, output: seq<string>) {
    && Placed(source, placements) && NearestPlaces(source, placements)
    && sourceIndex == Cursor(placements) <= |source|
    && output == Emitted(source, placements)
  }

  /** Substituting one hunk at its nearest match. */
  method ApplyHunk(source: seq<string>, hunk: Hunk, sourceIndex: nat, output: seq<string>,
                   ghost placements: seq<Placement>)
    returns (found: bool, nextIndex: nat, longer: seq<string>, ghost further: seq<Placement>)
    requires Progress(source, placements, sourceIndex, output)
    ensures !found ==> forall i: nat :: sourceIndex <= i ==> !MatchesAt(source, hunk.before, i)
    ensures found ==> Progress(source, further, nextIndex, longer) && HunksOf(further) == HunksOf(placements) + [hunk]
  {
    var place := FindNearest(source, hunk.before, sourceIndex, hunk.oldStart - 1);
    if place.None? {
      return false, sourceIndex, output, placements;
    }
    PlaceNext(source, placements, hunk, place.value);
    longer := output + source[sourceIndex..place.value] + hunk.after;
    return true, place.value + |hunk.before|, longer, placements + [Placement(hunk, place.value)];
  }

  /** Reading one hunk body: the two sides, and how many lines it takes. */
  method ReadBody(lines: seq<PatchLine>) returns (count: nat, before: seq<string>, after: seq<string>)
    ensures count == BodyLength(lines)
    ensures before == Side(lines[..count], true) && after == Side(lines[..count], false)
    ensures |before| == Count(lines, 0, count, true) && Stands(lines, 0, count, true, before, 0)
    ensures |after| == Count(lines, 0, count, false) && Stands(lines, 0, count, false, after, 0)
  {
    count, before, after := 0, [], [];
    while count < |lines| && !EndsHunk(lines[count])
      invariant count <= |lines| && BodyLength(lines) == count + BodyLength(lines[count..])
      invariant before == Side(lines[..count], true) && after == Side(lines[..count], false)
    {
      assert lines[..count + 1][..count] == lines[..count] && lines[count..][1..] == lines[count + 1..];
      var line := lines[count];
      if line.Shared? || line.Removed? {
        before := before + [line.payload];
      }
      if line.Shared? || line.Added? {
        after := after + [line.payload];
      }
      count := count + 1;
    }
    assert lines[0..count] == lines[..count];
    SideCounts(lines, 0, count, true);
    SideCounts(lines, 0, count, false);
    StandsIff(lines, 0, count, true, before, 0);
    StandsIff(lines, 0, count, false, after, 0);
  }

  /** The hunks read before patch line k. */
  ghost predicate Reading(patch: seq<PatchLine>, k: nat, done: seq<Hunk>)
    requires k <= |patch|
  {
    Hunks(patch) == done + Hunks(patch[k..])
  }

  /** The hunk whose header is patch line k. */
  function HunkAt(patch: seq<PatchLine>, k: nat): Hunk
    requires k < |patch| && patch[k].Header?
  {
    var body := patch[k + 1..][..BodyLength(patch[k + 1..])];
    Hunk(patch[k].oldStart, patch[k].newStart, Side(body, true), Side(body, false))
  }

  lemma {:induction false} HunksFrom(patch: seq<PatchLine>, k: nat)
    requires k < |patch|
    ensures !patch[k].Header? ==> Hunks(patch[k..]) == Hunks(patch[k + 1..])
    ensures patch[k].Header? ==>
              var n := BodyLength(patch[k + 1..]);
              Hunks(patch[k..]) == [HunkAt(patch, k)] + Hunks(patch[k + 1 + n..])
  {
    var rest := patch[k..];
    assert rest[0] == patch[k] && rest[1..] == patch[k + 1..];
    assert patch[k + 1..][BodyLength(patch[k + 1..])..] == patch[k + 1 + BodyLength(patch[k + 1..])..];
  }

  lemma {:induction false} Insertion(done: seq<Hunk>, hunk: Hunk, rest: seq<Hunk>)
    ensures var all := done + ([hunk] + rest);
            all == done + [hunk] + rest && |done| < |all| && all[..|done|] == done && all[|done|] == hunk
  {
  }

  lemma {:induction false} ReadStep(patch: seq<PatchLine>, k: nat, done: seq<Hunk>)
    requires k < |patch| && Reading(patch, k, done)
    ensures !patch[k].Header? ==> Reading(patch, k + 1, done)
    ensures patch[k].Header? ==>
              && Reading(patch, k + 1 + BodyLength(patch[k + 1..]), done + [HunkAt(patch, k)])
              && |done| < |Hunks(patch)| && Hunks(patch)[..|done|] == done && Hunks(patch)[|done|] == HunkAt(patch, k)
  {
    HunksFrom(patch, k);
    if patch[k].Header? {
      Insertion(done, HunkAt(patch, k), Hunks(patch[k + 1 + BodyLength(patch[k + 1..])..]));
    }
  }

  /** apply_unified_patch.  An accepted patch yields the source with every hunk body substituted at
      advancing, non-overlapping places, chosen nearest to the header's line number; a patch is
      refused only when some hunk has no match after the previous one. */
  method ApplyUnifiedPatch(source: seq<string>, patch: seq<PatchLine>)
    returns (result: Result<seq<string>>, ghost placements: seq<Placement>)
    ensures Outcome(source, Hunks(patch), placements, result)
    ensures result.Ok? ==> exists spots :: Substituted(source, patch, result.value, spots)
    ensures forall target, spots :: Substituted(source, patch, target, spots) && SpotsNamed(patch, spots) ==>
              result == Ok(target)
  {
    var output: seq<string>, sourceIndex: nat, patchIndex: nat := [], 0, 0;
    placements := [];
    while patchIndex < |patch|
      invariant patchIndex <= |patch|
      invariant Reading(patch, patchIndex, HunksOf(placements))
      invariant Progress(source, placements, sourceIndex, output)
      decreases |patch| - patchIndex
    {
      var line := patch[patchIndex];
      ReadStep(patch, patchIndex, HunksOf(placements));
      if !line.Header? {
        patchIndex := patchIndex + 1;
        continue;
      }
      var count, before, after := ReadBody(patch[patchIndex + 1..]);
      var found, nextIndex, longer, further :=
        ApplyHunk(source, Hunk(line.oldStart, line.newStart, before, after), sourceIndex, output, placements);
      if !found {
        result := Err("context not found");
        NamedAreAccepted(source, patch, placements, result);
        return;
      }
      placements, sourceIndex, output := further, nextIndex, longer;
      patchIndex := patchIndex + 1 + count;
    }
    assert patch[patchIndex..] == [] && HunksOf(placements) + [] == HunksOf(placements);
    result := Ok(output + source[sourceIndex..]);
    SplicedIsSubstituted(source, patch, placements);
    NamedAreAccepted(source, patch, placements, result);
  }

  // ----- The patch read line by line

  /** The line stands in the old text, or in the new one. */
  ghost predicate Belongs(line: PatchLine, left: bool) {
    line.Shared? || (left && line.Removed?) || (!left && line.Added?)
  }

  /** How many patch lines of a range stand in the old text, or in the new one. */
  ghost function Count(patch: seq<PatchLine>, first: nat, till: nat, left: bool): nat {
    |set k | first <= k < till && k < |patch| && Belongs(patch[k], left)|
  }

  /** The payload with j such lines before it in the range stands at place + j of the text. */
  ghost predicate Stands(patch: seq<PatchLine>, first: nat, till: nat, left: bool, text: seq<string>, place: nat)
    requires till <= |patch|
  {
    && place + Count(patch, first, till, left) <= |text|
    && forall k :: first <= k < till && Belongs(patch[k], left) ==>
         var j := Count(patch, first, k, left);
         j < Count(patch, first, till, left) && text[place + j] == patch[k].payload
  }

  lemma {:induction false} CountNext(patch: seq<PatchLine>, first: nat, till: nat, left: bool)
    requires first <= till
    ensures till == first ==> Count(patch, first, till, left) == 0
    ensures till < |patch| ==>
              Count(patch, first, till + 1, left) ==
              Count(patch, first, till, left) + if Belongs(patch[till], left) then 1 else 0
  {
    var some := set k | first <= k < till && k < |patch| && Belongs(patch[k], left);
    if till < |patch| {
      var more := set k | first <= k < till + 1 && k < |patch| && Belongs(patch[k], left);
      assert more == if Belongs(patch[till], left) then some + {till} else some;
    }
    if some != {} {
      var k :| k in some;
      assert first < till;
    }
  }

  lemma {:induction false} StandsNext(patch: seq<PatchLine>, first: nat, till: nat, left: bool,
                                      text: seq<string>, place: nat)
    requires first <= till < |patch|
    ensures Stands(patch, first, till + 1, left, text, place) <==>
            && Stands(patch, first, till, left, text, place)
            && (Belongs(patch[till], left) ==>
                  var at := place + Count(patch, first, till, left);
                  at < |text| && text[at] == patch[till].payload)
  {
    CountNext(patch, first, till, left);
    if Stands(patch, first, till + 1, left, text, place) {
      forall k | first <= k < till && Belongs(patch[k], left)
        ensures Count(patch, first, k, left) < Count(patch, first, till, left)
      {
        CountRises(patch, first, k, till, left);
      }
    }
  }

  lemma {:induction false} CountRises(patch: seq<PatchLine>, first: nat, k: nat, till: nat, left: bool)
    requires first <= k < till <= |patch| && Belongs(patch[k], left)
    ensures Count(patch, first, k, left) < Count(patch, first, till, left)
    decreases till
  {
    CountNext(patch, first, till - 1, left);
    if k < till - 1 {
      CountRises(patch, first, k, till - 1, left);
    }
  }

  lemma {:induction false} SideNext(patch: seq<PatchLine>, first: nat, till: nat, left: bool)
    requires first <= till < |patch|
    ensures Side(patch[first..till + 1], left) ==
            Side(patch[first..till], left) + if Belongs(patch[till], left) then [patch[till].payload] else []
  {
    assert patch[first..till + 1][..till - first] == patch[first..till];
  }

  lemma {:induction false} MatchesNext(text: seq<string>, front: seq<string>, last: string, place: nat)
    ensures MatchesAt(text, front + [last], place) <==>
            MatchesAt(text, front, place) && place + |front| < |text| && text[place + |front|] == last
  {
    if place + |front| < |text| {
      assert text[place..place + |front| + 1] == text[place..place + |front|] + [text[place + |front|]];
      assert (front + [last])[..|front|] == front;
    }
  }

  lemma {:induction false} SideCounts(patch: seq<PatchLine>, first: nat, till: nat, left: bool)
    requires first <= till <= |patch|
    ensures |Side(patch[first..till], left)| == Count(patch, first, till, left)
    decreases till
  {
    if first == till {
      CountNext(patch, first, till, left);
    } else {
      SideCounts(patch, first, till - 1, left);
      CountNext(patch, first, till - 1, left);
      SideNext(patch, first, till - 1, left);
    }
  }

  lemma {:induction false} StandsIffNext(patch: seq<PatchLine>, first: nat, till: nat, left: bool,
                                         text: seq<string>, place: nat, front: seq<string>)
    requires first <= till < |patch| && |front| == Count(patch, first, till, left)
    requires Stands(patch, first, till, left, text, place) <==> MatchesAt(text, front, place)
    ensures var side := front + if Belongs(patch[till], left) then [patch[till].payload] else [];
            Stands(patch, first, till + 1, left, text, place) <==> MatchesAt(text, side, place)
  {
    StandsNext(patch, first, till, left, text, place);
    if Belongs(patch[till], left) {
      MatchesNext(text, front, patch[till].payload, place);
    } else {
      assert front + [] == front;
    }
  }

  /** A side of a hunk body matches a text exactly if it stands there line by line. */
  lemma {:induction false} StandsIff(patch: seq<PatchLine>, first: nat, till: nat, left: bool,
                                     text: seq<string>, place: nat)
    requires first <= till <= |patch|
    ensures Stands(patch, first, till, left, text, place) <==>
            MatchesAt(text, Side(patch[first..till], left), place)
    decreases till
  {
    if first == till {
      SideCounts(patch, first, till, left);
    } else {
      var front := Side(patch[first..till - 1], left);
      SideCounts(patch, first, till - 1, left);
      SideNext(patch, first, till - 1, left);
      assert Stands(patch, first, till - 1, left, text, place) <==> MatchesAt(text, front, place) by {
        StandsIff(patch, first, till - 1, left, text, place);
      }
      StandsIffNext(patch, first, till - 1, left, text, place, front);
    }
  }

  /** The hunk body behind header line head ends before line end. */
  ghost predicate IsBody(patch: seq<PatchLine>, head: nat, end: nat) {
    && head < end <= |patch| && patch[head].Header?
    && (forall k :: head < k < end ==> !patch[k].Header? && !patch[k].Break?)
    && (end < |patch| ==> patch[end].Header? || patch[end].Break?)
  }

  /** A hunk: its header line, the line behind its body, where it stands in the source and in the target. */
  datatype Spot = Spot(head: nat, end: nat, place: nat, land: nat)

  /** The first source line, or target line, behind the first m spots. */
  ghost function Behind(patch: seq<PatchLine>, spots: seq<Spot>, m: nat, left: bool): nat
    requires m <= |spots|
  {
    if m == 0 then 0
    else
      var s := spots[m - 1];
      (if left then s.place else s.land) + Count(patch, s.head + 1, s.end, left)
  }

  /** Source lines i up to a are the target lines j up to b. */
  ghost predicate Kept(source: seq<string>, i: nat, a: nat, target: seq<string>, j: nat, b: nat) {
    i <= a <= |source| && j <= b <= |target| && source[i..a] == target[j..b]
  }

  /** The body of hunk m stands line by line in the source and in the target, and the lines between it
      and the hunk before it are kept. */
  ghost predicate SpotIs(source: seq<string>, patch: seq<PatchLine>, target: seq<string>, spots: seq<Spot>, m: nat)
    requires m < |spots|
  {
    var s := spots[m];
    && IsBody(patch, s.head, s.end)
    && Stands(patch, s.head + 1, s.end, true, source, s.place)
    && Stands(patch, s.head + 1, s.end, false, target, s.land)
    && Kept(source, Behind(patch, spots, m, true), s.place, target, Behind(patch, spots, m, false), s.land)
  }

  /** The listed lines are the header lines of the patch in their order. */
  ghost predicate HeadsListed(patch: seq<PatchLine>, heads: seq<nat>) {
    && (forall i, j :: 0 <= i < j < |heads| ==> heads[i] < heads[j])
    && AreHeads(patch, heads)
    && forall k :: 0 <= k < |patch| && patch[k].Header? ==> k in heads
  }

  ghost predicate AreHeads(patch: seq<PatchLine>, heads: seq<nat>) {
    forall m :: 0 <= m < |heads| ==> heads[m] < |patch| && patch[heads[m]].Header?
  }

  ghost function HeadsOf(spots: seq<Spot>): seq<nat> {
    seq(|spots|, m requires 0 <= m < |spots| => spots[m].head)
  }

  ghost predicate SpotsAre(source: seq<string>, patch: seq<PatchLine>, target: seq<string>, spots: seq<Spot>) {
    forall m :: 0 <= m < |spots| ==> SpotIs(source, patch, target, spots, m)
  }

  /** The target is the source with every hunk of the patch substituted at its spot. */
  ghost predicate Substituted(source: seq<string>, patch: seq<PatchLine>, target: seq<string>, spots: seq<Spot>) {
    && HeadsListed(patch, HeadsOf(spots))
    && SpotsAre(source, patch, target, spots)
    && Kept(source, Behind(patch, spots, |spots|, true), |source|,
            target, Behind(patch, spots, |spots|, false), |target|)
  }

  /** The header lines from line k on. */
  ghost function Heads(patch: seq<PatchLine>, k: nat): seq<nat>
    requires k <= |patch|
    decreases |patch| - k
  {
    if k == |patch| then []
    else if patch[k].Header? then [k] + Heads(patch, k + 1)
    else Heads(patch, k + 1)
  }

  lemma {:induction false} HeadsAreHeads(patch: seq<PatchLine>, k: nat)
    requires k <= |patch|
    ensures AreHeads(patch, Heads(patch, k))
    ensures forall m :: 0 <= m < |Heads(patch, k)| ==> k <= Heads(patch, k)[m]
    ensures forall i, j :: 0 <= i < j < |Heads(patch, k)| ==> Heads(patch, k)[i] < Heads(patch, k)[j]
    decreases |patch| - k
  {
    if k < |patch| {
      HeadsAreHeads(patch, k + 1);
    }
  }

  lemma {:induction false} HeadsAreAll(patch: seq<PatchLine>, k: nat, head: nat)
    requires k <= head < |patch| && patch[head].Header?
    ensures head in Heads(patch, k)
    decreases head - k
  {
    if k < head {
      HeadsAreAll(patch, k + 1, head);
    }
  }

  lemma {:induction false} BodyEnds(lines: seq<PatchLine>)
    ensures var n := BodyLength(lines);
            && (forall k :: 0 <= k < n ==> !EndsHunk(lines[k]))
            && (n < |lines| ==> EndsHunk(lines[n]))
  {
    if lines != [] && !EndsHunk(lines[0]) {
      BodyEnds(lines[1..]);
      forall k | 0 <= k < BodyLength(lines) ensures !EndsHunk(lines[k]) {
        if k > 0 {
          assert lines[k] == lines[1..][k - 1];
        }
      }
    }
  }

  /** The body behind a header is the one the hunk is read from. */
  lemma {:induction false} BodyIs(patch: seq<PatchLine>, head: nat, end: nat)
    requires head < |patch| && patch[head].Header?
    ensures IsBody(patch, head, end) <==> end == head + 1 + BodyLength(patch[head + 1..])
    ensures IsBody(patch, head, end) ==>
              HunkAt(patch, head) == Hunk(patch[head].oldStart, patch[head].newStart,
                                          Side(patch[head + 1..end], true), Side(patch[head + 1..end], false))
  {
    var rest := patch[head + 1..];
    var n := BodyLength(rest);
    BodyEnds(rest);
    assert forall k :: head < k < |patch| ==> patch[k] == rest[k - head - 1];
    assert rest[..n] == patch[head + 1..head + 1 + n];
    if IsBody(patch, head, end) {
      assert end < |patch| ==> EndsHunk(rest[end - head - 1]);
    }
  }

  /** The hunks of the header lines from the m-th on. */
  ghost function HunksAt(patch: seq<PatchLine>, heads: seq<nat>, m: nat): seq<Hunk>
    requires AreHeads(patch, heads) && m <= |heads|
    decreases |heads| - m
  {
    if m == |heads| then [] else [HunkAt(patch, heads[m])] + HunksAt(patch, heads, m + 1)
  }

  /** Header line m is the first one at or behind line k. */
  ghost predicate NextHead(heads: seq<nat>, k: nat, m: nat) {
    m <= |heads| && (m > 0 ==> heads[m - 1] < k) && (m < |heads| ==> k <= heads[m])
  }

  lemma {:induction false} NextHeadStep(patch: seq<PatchLine>, heads: seq<nat>, k: nat, m: nat)
    requires HeadsListed(patch, heads) && k < |patch| && NextHead(heads, k, m)
    ensures !patch[k].Header? ==> NextHead(heads, k + 1, m)
    ensures patch[k].Header? ==>
              && m < |heads| && heads[m] == k
              && NextHead(heads, k + 1 + BodyLength(patch[k + 1..]), m + 1)
  {
    if patch[k].Header? {
      assert k in heads;
      var i :| 0 <= i < |heads| && heads[i] == k;
      assert i == m;
      var rest := patch[k + 1..];
      BodyEnds(rest);
      forall j | k < j < k + 1 + BodyLength(rest) ensures !patch[j].Header? {
        assert patch[j] == rest[j - k - 1];
      }
    }
  }

  lemma {:induction false} HunksStep(patch: seq<PatchLine>, heads: seq<nat>, k: nat, m: nat)
    requires AreHeads(patch, heads) && k < |patch| && m <= |heads|
    requires !patch[k].Header? ==> Hunks(patch[k + 1..]) == HunksAt(patch, heads, m)
    requires patch[k].Header? ==>
               && m < |heads| && heads[m] == k
               && Hunks(patch[k + 1 + BodyLength(patch[k + 1..])..]) == HunksAt(patch, heads, m + 1)
    ensures Hunks(patch[k..]) == HunksAt(patch, heads, m)
  {
    HunksFrom(patch, k);
  }

  /** The hunks from line k on are those of the header lines from there on. */
  lemma {:induction false} HunksListed(patch: seq<PatchLine>, heads: seq<nat>, k: nat, m: nat)
    requires HeadsListed(patch, heads) && k <= |patch| && NextHead(heads, k, m)
    ensures Hunks(patch[k..]) == HunksAt(patch, heads, m)
    decreases |patch| - k
  {
    if k == |patch| {
      assert m == |heads|;
    } else {
      NextHeadStep(patch, heads, k, m);
      var header := patch[k].Header?;
      var next := if header then k + 1 + BodyLength(patch[k + 1..]) else k + 1;
      HunksListed(patch, heads, next, if header then m + 1 else m);
      HunksStep(patch, heads, k, m);
    }
  }

  lemma {:induction false} HunksAtIndex(patch: seq<PatchLine>, heads: seq<nat>, m: nat, i: nat)
    requires AreHeads(patch, heads) && m <= |heads|
    ensures |HunksAt(patch, heads, m)| == |heads| - m
    ensures m <= i < |heads| ==> HunksAt(patch, heads, m)[i - m] == HunkAt(patch, heads[i])
    decreases |heads| - m
  {
    if m < |heads| {
      HunksAtIndex(patch, heads, m + 1, i);
    }
  }

  /** The hunks of a patch are those of its header lines, in order. */
  lemma {:induction false} HunksAreListed(patch: seq<PatchLine>, heads: seq<nat>)
    requires HeadsListed(patch, heads)
    ensures |Hunks(patch)| == |heads|
    ensures forall m :: 0 <= m < |heads| ==> Hunks(patch)[m] == HunkAt(patch, heads[m])
  {
    assert patch[0..] == patch;
    HunksListed(patch, heads, 0, 0);
    HunksAtIndex(patch, heads, 0, 0);
    forall m | 0 <= m < |heads| ensures Hunks(patch)[m] == HunkAt(patch, heads[m]) {
      HunksAtIndex(patch, heads, 0, m);
    }
  }

  lemma {:induction false} SomeListing(patch: seq<PatchLine>)
    ensures HeadsListed(patch, Heads(patch, 0))
  {
    HeadsAreHeads(patch, 0);
    forall k | 0 <= k < |patch| && patch[k].Header? ensures k in Heads(patch, 0) {
      HeadsAreAll(patch, 0, k);
    }
  }

  // ----- Where placed hunks land

  /** The first source line, or target line, behind the first m placements. */
  ghost function Past(placements: seq<Placement>, lands: seq<nat>, m: nat, left: bool): nat
    requires m <= |placements| == |lands|
  {
    if m == 0 then 0
    else if left then placements[m - 1].at + |placements[m - 1].hunk.before|
    else lands[m - 1] + |placements[m - 1].hunk.after|
  }

  ghost predicate Landed(source: seq<string>, target: seq<string>, placements: seq<Placement>, lands: seq<nat>, m: nat)
    requires m < |placements| == |lands|
  {
    && MatchesAt(source, placements[m].hunk.before, placements[m].at)
    && MatchesAt(target, placements[m].hunk.after, lands[m])
    && Kept(source, Past(placements, lands, m, true), placements[m].at,
            target, Past(placements, lands, m, false), lands[m])
  }

  ghost predicate AllLanded(source: seq<string>, target: seq<string>, placements: seq<Placement>, lands: seq<nat>) {
    |placements| == |lands| && forall m :: 0 <= m < |lands| ==> Landed(source, target, placements, lands, m)
  }

  lemma {:induction false} LandedNext(source: seq<string>, target: seq<string>,
                                      placements: seq<Placement>, lands: seq<nat>, last: Placement, land: nat)
    requires |placements| == |lands|
    ensures AllLanded(source, target, placements + [last], lands + [land]) <==>
            && AllLanded(source, target, placements, lands)
            && Landed(source, target, placements + [last], lands + [land], |lands|)
  {
    assert forall m :: 0 <= m < |lands| ==>
        (Landed(source, target, placements + [last], lands + [land], m) <==>
         Landed(source, target, placements, lands, m));
  }

  /** The target lines at which the placed hunks are emitted. */
  ghost function Lands(source: seq<string>, placements: seq<Placement>): (lands: seq<nat>)
    requires Placed(source, placements)
    ensures |lands| == |placements|
  {
    if placements == [] then []
    else
      var front, last := placements[..|placements| - 1], placements[|placements| - 1];
      Lands(source, front) + [|Emitted(source, front)| + (last.at - Cursor(front))]
  }

  /** The placements emit the start of the target, and land there. */
  ghost predicate LandsIn(source: seq<string>, target: seq<string>, placements: seq<Placement>, lands: seq<nat>)
    requires Placed(source, placements)
  {
    && AllLanded(source, target, placements, lands)
    && Past(placements, lands, |placements|, true) == Cursor(placements)
    && Past(placements, lands, |placements|, false) == |Emitted(source, placements)|
  }

  lemma {:induction false} LandsNext(source: seq<string>, front: seq<Placement>, last: Placement,
                                     lands: seq<nat>, start: seq<string>, rest: seq<string>)
    requires Placed(source, front) && Placed(source, front + [last]) && Emitted(source, front) == start
    requires Cursor(front) <= last.at && MatchesAt(source, last.hunk.before, last.at)
    requires LandsIn(source, start + source[Cursor(front)..last.at] + last.hunk.after + rest, front, lands)
    ensures var land := |start| + (last.at - Cursor(front));
            LandsIn(source, start + source[Cursor(front)..last.at] + last.hunk.after + rest,
                    front + [last], lands + [land])
  {
    var kept := source[Cursor(front)..last.at];
    Slices(start, kept, last.hunk.after, rest);
    assert (front + [last])[..|front|] == front;
    LandedNext(source, start + kept + last.hunk.after + rest, front, lands, last, |start| + |kept|);
  }

  lemma {:induction false} PlacedLands(source: seq<string>, placements: seq<Placement>, rest: seq<string>)
    requires Placed(source, placements)
    ensures LandsIn(source, Emitted(source, placements) + rest, placements, Lands(source, placements))
  {
    if placements != [] {
      var front, last := placements[..|placements| - 1], placements[|placements| - 1];
      var start, kept := Emitted(source, front), source[Cursor(front)..last.at];
      assert start + (kept + last.hunk.after + rest) == start + kept + last.hunk.after + rest;
      PlacedLands(source, front, kept + last.hunk.after + rest);
      assert placements == front + [last];
      LandsNext(source, front, last, Lands(source, front), start, rest);
    }
  }

  /** What lands in a target was emitted there. */
  lemma {:induction false} LandedIsPlaced(source: seq<string>, target: seq<string>,
                                          placements: seq<Placement>, lands: seq<nat>)
    requires AllLanded(source, target, placements, lands)
    ensures Placed(source, placements) && Cursor(placements) == Past(placements, lands, |lands|, true)
    ensures Past(placements, lands, |lands|, false) <= |target|
    ensures Emitted(source, placements) == target[..Past(placements, lands, |lands|, false)]
  {
    if placements != [] {
      var k := |placements| - 1;
      var front, last := placements[..k], placements[k];
      assert front + [last] == placements && lands[..k] + [lands[k]] == lands;
      LandedNext(source, target, front, lands[..k], last, lands[k]);
      LandedIsPlaced(source, target, front, lands[..k]);
      PrefixSlices(target, Past(front, lands[..k], k, false), lands[k], lands[k] + |last.hunk.after|);
    }
  }

  // ----- Spots and placements

  /** The placements and landing lines that spots describe. */
  ghost predicate Describes(patch: seq<PatchLine>, spots: seq<Spot>, placements: seq<Placement>, lands: seq<nat>) {
    && |spots| == |placements| == |lands|
    && forall m :: 0 <= m < |spots| ==> DescribesAt(patch, spots[m], placements[m], lands[m])
  }

  ghost predicate DescribesAt(patch: seq<PatchLine>, s: Spot, p: Placement, land: nat) {
    && IsBody(patch, s.head, s.end)
    && s.place == p.at && s.land == land
    && p.hunk.before == Side(patch[s.head + 1..s.end], true)
    && p.hunk.after == Side(patch[s.head + 1..s.end], false)
  }

  lemma {:induction false} BehindIsPast(patch: seq<PatchLine>, spots: seq<Spot>, placements: seq<Placement>,
                                        lands: seq<nat>, m: nat, left: bool)
    requires Describes(patch, spots, placements, lands) && m <= |spots|
    ensures Behind(patch, spots, m, left) == Past(placements, lands, m, left)
  {
    if m > 0 {
      var s := spots[m - 1];
      assert DescribesAt(patch, s, placements[m - 1], lands[m - 1]);
      SideCounts(patch, s.head + 1, s.end, left);
    }
  }

  lemma {:induction false} SpotIffLanded(source: seq<string>, patch: seq<PatchLine>, target: seq<string>,
                                         spots: seq<Spot>, placements: seq<Placement>, lands: seq<nat>, m: nat)
    requires Describes(patch, spots, placements, lands) && m < |spots|
    ensures SpotIs(source, patch, target, spots, m) <==> Landed(source, target, placements, lands, m)
  {
    var s := spots[m];
    assert DescribesAt(patch, s, placements[m], lands[m]);
    BehindIsPast(patch, spots, placements, lands, m, true);
    BehindIsPast(patch, spots, placements, lands, m, false);
    StandsIff(patch, s.head + 1, s.end, true, source, s.place);
    StandsIff(patch, s.head + 1, s.end, false, target, s.land);
  }

  lemma {:induction false} SpotsIffLanded(source: seq<string>, patch: seq<PatchLine>, target: seq<string>,
                                          spots: seq<Spot>, placements: seq<Placement>, lands: seq<nat>)
    requires Describes(patch, spots, placements, lands)
    ensures SpotsAre(source, patch, target, spots) <==> AllLanded(source, target, placements, lands)
    ensures Behind(patch, spots, |spots|, true) == Past(placements, lands, |lands|, true)
    ensures Behind(patch, spots, |spots|, false) == Past(placements, lands, |lands|, false)
  {
    forall m | 0 <= m < |spots|
      ensures SpotIs(source, patch, target, spots, m) <==> Landed(source, target, placements, lands, m)
    {
      SpotIffLanded(source, patch, target, spots, placements, lands, m);
    }
    BehindIsPast(patch, spots, placements, lands, |spots|, true);
    BehindIsPast(patch, spots, placements, lands, |spots|, false);
  }

  /** The spots of placed hunks. */
  ghost function SpotsOf(patch: seq<PatchLine>, heads: seq<nat>, placements: seq<Placement>,
                         lands: seq<nat>): seq<Spot>
    requires AreHeads(patch, heads) && |heads| == |placements| == |lands|
  {
    seq(|heads|, m requires 0 <= m < |heads| && heads[m] < |patch| =>
      Spot(heads[m], heads[m] + 1 + BodyLength(patch[heads[m] + 1..]), placements[m].at, lands[m]))
  }

  lemma {:induction false} SpotsOfDescribe(patch: seq<PatchLine>, heads: seq<nat>, placements: seq<Placement>,
                                           lands: seq<nat>)
    requires AreHeads(patch, heads) && |heads| == |placements| == |lands|
    requires forall m :: 0 <= m < |heads| ==> placements[m].hunk == HunkAt(patch, heads[m])
    ensures HeadsOf(SpotsOf(patch, heads, placements, lands)) == heads
    ensures Describes(patch, SpotsOf(patch, heads, placements, lands), placements, lands)
  {
    var spots := SpotsOf(patch, heads, placements, lands);
    forall m | 0 <= m < |heads| ensures DescribesAt(patch, spots[m], placements[m], lands[m]) {
      BodyIs(patch, heads[m], spots[m].end);
    }
  }

  lemma {:induction false} LandedIsSubstituted(source: seq<string>, patch: seq<PatchLine>, target: seq<string>,
                                               heads: seq<nat>, placements: seq<Placement>, lands: seq<nat>)
    requires HeadsListed(patch, heads) && |heads| == |placements| && AllLanded(source, target, placements, lands)
    requires forall m :: 0 <= m < |heads| ==> placements[m].hunk == HunkAt(patch, heads[m])
    requires Kept(source, Past(placements, lands, |lands|, true), |source|,
                  target, Past(placements, lands, |lands|, false), |target|)
    ensures Substituted(source, patch, target, SpotsOf(patch, heads, placements, lands))
  {
    SpotsOfDescribe(patch, heads, placements, lands);
    SpotsIffLanded(source, patch, target, SpotsOf(patch, heads, placements, lands), placements, lands);
  }

  lemma {:induction false} HunkOfHead(patch: seq<PatchLine>, heads: seq<nat>, placements: seq<Placement>)
    requires HeadsListed(patch, heads) && HunksOf(placements) == Hunks(patch)
    ensures |heads| == |placements|
    ensures forall m :: 0 <= m < |heads| ==> placements[m].hunk == HunkAt(patch, heads[m])
  {
    HunksAreListed(patch, heads);
    assert |HunksOf(placements)| == |placements|;
    assert forall m :: 0 <= m < |placements| ==> HunksOf(placements)[m] == placements[m].hunk;
  }

  /** A target that the hunks of a patch were substituted in, read line by line. */
  lemma {:induction false} SplicedIsSubstituted(source: seq<string>, patch: seq<PatchLine>,
                                                placements: seq<Placement>)
    requires Placed(source, placements) && HunksOf(placements) == Hunks(patch) && Cursor(placements) <= |source|
    ensures exists spots :: Substituted(source, patch, Spliced(source, placements), spots)
  {
    var heads, lands := Heads(patch, 0), Lands(source, placements);
    SomeListing(patch);
    HunkOfHead(patch, heads, placements);
    PlacedLands(source, placements, source[Cursor(placements)..]);
    RestIsKept(source, placements, Spliced(source, placements));
    LandedIsSubstituted(source, patch, Spliced(source, placements), heads, placements, lands);
  }

  lemma {:induction false} RestIsKept(source: seq<string>, placements: seq<Placement>, target: seq<string>)
    requires Placed(source, placements) && Cursor(placements) <= |source|
    requires |Emitted(source, placements)| <= |target|
    requires target[..|Emitted(source, placements)|] == Emitted(source, placements)
    ensures Kept(source, Cursor(placements), |source|, target, |Emitted(source, placements)|, |target|) <==>
            target == Spliced(source, placements)
  {
    SplitAt(target, Emitted(source, placements), source[Cursor(placements)..]);
    assert source[Cursor(placements)..] == source[Cursor(placements)..|source|];
  }

  lemma {:induction false} SplitAt(target: seq<string>, front: seq<string>, rest: seq<string>)
    requires |front| <= |target| && target[..|front|] == front
    ensures target[|front|..|target|] == rest <==> target == front + rest
  {
    assert target == target[..|front|] + target[|front|..|target|];
    assert (front + rest)[|front|..] == rest;
  }

  /** The placements that spots describe. */
  ghost function Drawn(patch: seq<PatchLine>, spots: seq<Spot>): seq<Placement> {
    seq(|spots|, m requires 0 <= m < |spots| => Placement(DrawnHunk(patch, spots[m].head), spots[m].place))
  }

  ghost function DrawnHunk(patch: seq<PatchLine>, head: nat): Hunk {
    if head < |patch| && patch[head].Header? then HunkAt(patch, head) else Hunk(0, 0, [], [])
  }

  lemma {:induction false} DrawnIsDescribed(source: seq<string>, patch: seq<PatchLine>, target: seq<string>,
                                            spots: seq<Spot>, lands: seq<nat>)
    requires SpotsAre(source, patch, target, spots) && |lands| == |spots|
    requires forall m :: 0 <= m < |spots| ==> lands[m] == spots[m].land
    ensures Describes(patch, spots, Drawn(patch, spots), lands)
  {
    forall m | 0 <= m < |spots| ensures DescribesAt(patch, spots[m], Drawn(patch, spots)[m], lands[m]) {
      assert SpotIs(source, patch, target, spots, m);
      BodyIs(patch, spots[m].head, spots[m].end);
    }
  }

  lemma {:induction false} DrawnHunks(patch: seq<PatchLine>, spots: seq<Spot>)
    requires HeadsListed(patch, HeadsOf(spots))
    ensures HunksOf(Drawn(patch, spots)) == Hunks(patch)
  {
    HunksAreListed(patch, HeadsOf(spots));
    forall m | 0 <= m < |spots| ensures HunksOf(Drawn(patch, spots))[m] == Hunks(patch)[m] {
      assert HeadsOf(spots)[m] == spots[m].head;
    }
  }

  /** And the other way round. */
  lemma {:induction false} SubstitutedIsSpliced(source: seq<string>, patch: seq<PatchLine>, target: seq<string>,
                                                spots: seq<Spot>)
    requires Substituted(source, patch, target, spots)
    ensures var placements := Drawn(patch, spots);
            && Placed(source, placements) && HunksOf(placements) == Hunks(patch)
            && Cursor(placements) <= |source| && target == Spliced(source, placements)
  {
    var placements := Drawn(patch, spots);
    var lands := seq(|spots|, m requires 0 <= m < |spots| => spots[m].land);
    DrawnHunks(patch, spots);
    DrawnIsDescribed(source, patch, target, spots, lands);
    SpotsIffLanded(source, patch, target, spots, placements, lands);
    LandedIsPlaced(source, target, placements, lands);
    RestIsKept(source, placements, target);
  }

  // ----- Correct line numbers

  /** The old line numbers of the headers name the places in the source. */
  ghost predicate PlacesNamed(placements: seq<Placement>) {
    forall m :: 0 <= m < |placements| ==> placements[m].hunk.oldStart == placements[m].at + 1
  }

  lemma {:induction false} PrefixPlaced(source: seq<string>, placements: seq<Placement>, k: nat)
    requires Placed(source, placements) && k <= |placements|
    ensures Placed(source, placements[..k])
    ensures k < |placements| ==>
              && Cursor(placements[..k]) <= placements[k].at
              && MatchesAt(source, placements[k].hunk.before, placements[k].at)
  {
    if k == |placements| {
      assert placements[..k] == placements;
    } else {
      var front := placements[..|placements| - 1];
      PrefixPlaced(source, front, k);
      assert front[..k] == placements[..k];
    }
  }

  /** With correct line numbers the nearest match is the intended place. */
  lemma {:induction false} CorrectNumbersDecide(source: seq<string>, chosen: seq<Placement>,
                                                intended: seq<Placement>)
    requires NearestPlaces(source, chosen) && Placed(source, intended) && PlacesNamed(intended)
    requires HunksOf(chosen) == HunksOf(intended)
    ensures chosen == intended
  {
    assert |chosen| == |HunksOf(chosen)| == |intended|;
    if intended != [] {
      var k := |intended| - 1;
      assert HunksOf(chosen[..k]) == HunksOf(chosen)[..k] == HunksOf(intended[..k]);
      CorrectNumbersDecide(source, chosen[..k], intended[..k]);
      assert chosen[k].hunk == HunksOf(chosen)[k] == intended[k].hunk;
      assert Distance(intended[k].at, intended[k].hunk.oldStart - 1) == 0;
    }
  }

  /** What apply_unified_patch returns, and where it placed the hunks that it could place. */
  ghost predicate Outcome(source: seq<string>, hunks: seq<Hunk>, placements: seq<Placement>,
                          result: Result<seq<string>>)
  {
    && Placed(source, placements) && NearestPlaces(source, placements) && Cursor(placements) <= |source|
    && match result
       case Ok(target) => HunksOf(placements) == hunks && target == Spliced(source, placements)
       case Err(_) =>
         var k := |placements|;
         && k < |hunks| && HunksOf(placements) == hunks[..k]
         && forall i: nat :: Cursor(placements) <= i ==> !MatchesAt(source, hunks[k].before, i)
  }

  /** A patch whose old line numbers name where its hunks belong is accepted. */
  lemma {:induction false} CorrectIsAccepted(source: seq<string>, hunks: seq<Hunk>, placements: seq<Placement>,
                                             result: Result<seq<string>>, intended: seq<Placement>)
    requires Outcome(source, hunks, placements, result)
    requires Placed(source, intended) && PlacesNamed(intended) && HunksOf(intended) == hunks
    ensures result == Ok(Spliced(source, intended))
  {
    var k := |placements|;
    assert |HunksOf(placements)| == k;
    assert forall j :: 0 <= j < |intended| ==> HunksOf(intended)[j] == intended[j].hunk;
    PrefixPlaced(source, intended, k);
    assert HunksOf(intended[..k]) == HunksOf(intended)[..k];
    assert HunksOf(placements) == hunks[..k];
    CorrectNumbersDecide(source, placements, intended[..k]);
    if k == |intended| {
      assert intended[..k] == intended;
    }
  }

  /** The old line number of every header names the source line at which its hunk stands. */
  ghost predicate SpotsNamed(patch: seq<PatchLine>, spots: seq<Spot>) {
    forall m :: 0 <= m < |spots| && spots[m].head < |patch| && patch[spots[m].head].Header? ==>
                  patch[spots[m].head].oldStart == spots[m].place + 1
  }

  lemma {:induction false} NamedIsAccepted(source: seq<string>, patch: seq<PatchLine>, placements: seq<Placement>,
                                           result: Result<seq<string>>, target: seq<string>, spots: seq<Spot>)
    requires Outcome(source, Hunks(patch), placements, result)
    requires Substituted(source, patch, target, spots) && SpotsNamed(patch, spots)
    ensures result == Ok(target)
  {
    SubstitutedIsSpliced(source, patch, target, spots);
    var intended := Drawn(patch, spots);
    forall m | 0 <= m < |intended| ensures intended[m].hunk.oldStart == intended[m].at + 1 {
      assert HeadsOf(spots)[m] == spots[m].head;
    }
    CorrectIsAccepted(source, Hunks(patch), placements, result, intended);
  }

  lemma {:induction false} NamedAreAccepted(source: seq<string>, patch: seq<PatchLine>, placements: seq<Placement>,
                                            result: Result<seq<string>>)
    requires Outcome(source, Hunks(patch), placements, result)
    ensures forall target, spots :: Substituted(source, patch, target, spots) && SpotsNamed(patch, spots) ==>
              result == Ok(target)
  {
    forall target, spots | Substituted(source, patch, target, spots) && SpotsNamed(patch, spots)
      ensures result == Ok(target)
    {
      NamedIsAccepted(source, patch, placements, result, target, spots);
    }
  }

  /** MAIN RESULT.  A patch whose line numbers name where its hunks belong is accepted and yields the
      intended target, however often the context occurs elsewhere. */
  method ApplyCorrectPatch(source: seq<string>, patch: seq<PatchLine>, ghost intended: seq<Placement>)
    returns (target: seq<string>)
    requires Placed(source, intended) && PlacesNamed(intended) && HunksOf(intended) == Hunks(patch)
    ensures target == Spliced(source, intended)
  {
    var result, placements := ApplyUnifiedPatch(source, patch);
    CorrectIsAccepted(source, Hunks(patch), placements, result, intended);
    target := result.value;
  }

  /** Replacing one line. */
  method ApplyReplacement(source: seq<string>, patch: seq<PatchLine>, i: nat, x: string)
    returns (result: Result<seq<string>>)
    requires i < |source| && patch == [Header(i + 1, i + 1), Removed(source[i]), Added(x)]
    ensures result == Ok(source[i := x])
  {
    ghost var placements;
    result, placements := ApplyUnifiedPatch(source, patch);
    ReplacementIsSubstituted(source, patch, i, x);
  }

  lemma {:induction false} ReplacementIsSubstituted(source: seq<string>, patch: seq<PatchLine>, i: nat, x: string)
    requires i < |source| && patch == [Header(i + 1, i + 1), Removed(source[i]), Added(x)]
    ensures Substituted(source, patch, source[i := x], [Spot(0, 3, i, i)])
  {
    var spots := [Spot(0, 3, i, i)];
    assert HeadsOf(spots) == [0] && HeadsOf(spots)[0] == 0;
    CountNext(patch, 1, 1, true);
    CountNext(patch, 1, 2, true);
    CountNext(patch, 1, 1, false);
    CountNext(patch, 1, 2, false);
    assert SpotIs(source, patch, source[i := x], spots, 0);
  }

  // ----- Reversal

  /** The header line numbers name the places, in the source and in the target. */
  ghost predicate Numbered(source: seq<string>, placements: seq<Placement>)
    requires Placed(source, placements)
  {
    placements == [] ||
    var front, last := placements[..|placements| - 1], placements[|placements| - 1];
    && Numbered(source, front)
    && last.hunk.oldStart == last.at + 1
    && last.hunk.newStart == |Emitted(source, front)| + (last.at - Cursor(front)) + 1
  }

  lemma {:induction false} NumberedNamesPlaces(source: seq<string>, placements: seq<Placement>)
    requires Placed(source, placements) && Numbered(source, placements)
    ensures PlacesNamed(placements)
  {
    if placements != [] {
      NumberedNamesPlaces(source, placements[..|placements| - 1]);
    }
  }

  function ReverseLine(line: PatchLine): PatchLine {
    match line
    case Header(a, b) => Header(b, a)
    case Removed(payload) => Added(payload)
    case Added(payload) => Removed(payload)
    case _ => line
  }

  function ReversePatch(patch: seq<PatchLine>): seq<PatchLine> {
    seq(|patch|, i requires 0 <= i < |patch| => ReverseLine(patch[i]))
  }

  function ReverseHunk(hunk: Hunk): Hunk {
    Hunk(hunk.newStart, hunk.oldStart, hunk.after, hunk.before)
  }

  function ReverseHunks(hunks: seq<Hunk>): seq<Hunk> {
    seq(|hunks|, i requires 0 <= i < |hunks| => ReverseHunk(hunks[i]))
  }

  lemma {:induction false} ReverseSide(lines: seq<PatchLine>, left: bool)
    ensures Side(ReversePatch(lines), left) == Side(lines, !left)
  {
    if lines != [] {
      var k := |lines| - 1;
      ReverseSide(lines[..k], left);
      assert ReversePatch(lines)[..k] == ReversePatch(lines[..k]);
    }
  }

  lemma {:induction false} ReverseBody(lines: seq<PatchLine>)
    ensures BodyLength(ReversePatch(lines)) == BodyLength(lines)
  {
    if lines != [] {
      ReverseBody(lines[1..]);
      assert ReversePatch(lines)[1..] == ReversePatch(lines[1..]);
    }
  }

  lemma {:induction false} HunksOfReverse(patch: seq<PatchLine>)
    ensures Hunks(ReversePatch(patch)) == ReverseHunks(Hunks(patch))
    decreases |patch|
  {
    if patch != [] {
      var reversed, rest := ReversePatch(patch), patch[1..];
      assert reversed[1..] == ReversePatch(rest);
      if patch[0].Header? {
        var n := BodyLength(rest);
        ReverseBody(rest);
        ReverseSide(rest[..n], true);
        ReverseSide(rest[..n], false);
        assert ReversePatch(rest)[..n] == ReversePatch(rest[..n]);
        assert ReversePatch(rest)[n..] == ReversePatch(rest[n..]);
        HunksOfReverse(rest[n..]);
      } else {
        HunksOfReverse(rest);
      }
    }
  }

  /** The reversed hunks at the lines of the target where they stand. */
  ghost function ReversePlacements(source: seq<string>, placements: seq<Placement>): (r: seq<Placement>)
    requires Placed(source, placements)
    ensures |r| == |placements|
  {
    if placements == [] then []
    else
      var front, last := placements[..|placements| - 1], placements[|placements| - 1];
      ReversePlacements(source, front) +
      [Placement(ReverseHunk(last.hunk), |Emitted(source, front)| + (last.at - Cursor(front)))]
  }

  lemma {:induction false} ReverseKeepsHunks(source: seq<string>, placements: seq<Placement>)
    requires Placed(source, placements)
    ensures forall i :: 0 <= i < |placements| ==>
              ReversePlacements(source, placements)[i].hunk == ReverseHunk(placements[i].hunk)
  {
    if placements != [] {
      ReverseKeepsHunks(source, placements[..|placements| - 1]);
    }
  }

  lemma {:induction false} Slices(a: seq<string>, b: seq<string>, c: seq<string>, d: seq<string>)
    ensures var all := a + b + c + d;
            && all[|a|..|a| + |b|] == b
            && all[|a| + |b|..|a| + |b| + |c|] == c
            && all[|a| + |b| + |c|..] == d
  {
  }

  /** One more reversed hunk in a target whose shape is known up to and behind it. */
  lemma {:induction false} ReverseNext(target: seq<string>, reversed: seq<Placement>, hunk: Hunk, at: nat,
                                       start: seq<string>, copied: seq<string>, rest: seq<string>)
    requires target == start + copied + hunk.after + rest
    requires Placed(target, reversed) && Numbered(target, reversed) && Cursor(reversed) == |start|
    requires hunk.oldStart == at + 1 && hunk.newStart == |start| + |copied| + 1
    requires at == |Emitted(target, reversed)| + |copied|
    ensures var further := reversed + [Placement(ReverseHunk(hunk), |start| + |copied|)];
            && Placed(target, further) && Numbered(target, further)
            && Cursor(further) == |start| + |copied| + |hunk.after|
            && Emitted(target, further) == Emitted(target, reversed) + copied + hunk.before
  {
    var further := reversed + [Placement(ReverseHunk(hunk), |start| + |copied|)];
    assert further[..|reversed|] == reversed;
    Slices(start, copied, hunk.after, rest);
  }

  /** In the target, the reversed placements fit, are correctly numbered, and emit the source. */
  ghost predicate Restores(source: seq<string>, placements: seq<Placement>, target: seq<string>)
    requires Placed(source, placements)
  {
    var reversed := ReversePlacements(source, placements);
    && Placed(target, reversed) && Numbered(target, reversed)
    && Cursor(placements) <= |source|
    && Cursor(reversed) == |Emitted(source, placements)|
    && Emitted(target, reversed) == source[..Cursor(placements)]
  }

  lemma {:induction false} RestoresStep(source: seq<string>, placements: seq<Placement>, rest: seq<string>)
    requires placements != [] && Placed(source, placements) && Numbered(source, placements)
    requires Restores(source, placements[..|placements| - 1], Emitted(source, placements) + rest)
    ensures Restores(source, placements, Emitted(source, placements) + rest)
  {
    var front, last := placements[..|placements| - 1], placements[|placements| - 1];
    var start, copied := Emitted(source, front), source[Cursor(front)..last.at];
    var target := start + copied + last.hunk.after + rest;
    ReverseNext(target, ReversePlacements(source, front), last.hunk, last.at, start, copied, rest);
    PrefixSlices(source, Cursor(front), last.at, Cursor(placements));
  }

  lemma {:induction false} PrefixSlices(source: seq<string>, a: nat, b: nat, c: nat)
    requires a <= b <= c <= |source|
    ensures source[..a] + source[a..b] + source[b..c] == source[..c]
  {
  }

  /** Whatever follows the emitted target. */
  lemma {:induction false} ReverseRestores(source: seq<string>, placements: seq<Placement>, rest: seq<string>)
    requires Placed(source, placements) && Numbered(source, placements)
    ensures Restores(source, placements, Emitted(source, placements) + rest)
  {
    if placements != [] {
      var front, last := placements[..|placements| - 1], placements[|placements| - 1];
      var more := source[Cursor(front)..last.at] + last.hunk.after + rest;
      assert Emitted(source, front) + more == Emitted(source, placements) + rest;
      ReverseRestores(source, front, more);
      RestoresStep(source, placements, rest);
    }
  }

  /** MAIN RESULT.  Applying a correctly numbered patch and then its reversal restores the source. */
  method RoundTrip(source: seq<string>, patch: seq<PatchLine>, ghost intended: seq<Placement>)
    returns (restored: seq<string>)
    requires Placed(source, intended) && Numbered(source, intended) && HunksOf(intended) == Hunks(patch)
    ensures restored == source
  {
    NumberedNamesPlaces(source, intended);
    var target := ApplyCorrectPatch(source, patch, intended);
    ghost var kept := source[Cursor(intended)..];
    HunksOfReverse(patch);
    ReverseKeepsHunks(source, intended);
    assert HunksOf(ReversePlacements(source, intended)) == ReverseHunks(HunksOf(intended));
    ReverseRestores(source, intended, kept);
    NumberedNamesPlaces(target, ReversePlacements(source, intended));
    restored := ApplyCorrectPatch(target, ReversePatch(patch), ReversePlacements(source, intended));
  }
}
