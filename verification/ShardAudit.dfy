/** The shard auditor: discovering corpus and shards, parsing run logs and result files, pairing logged
    results with result JSON, and what a report without integrity issues proves about the corpus. */
module ShardAudit {
  import opened Common

  /** The identity of a replay; a path outside the corpus has an identity outside it. */
  type Id = nat

  datatype Outcome = Valid | Invalid | Error

  /** The four declared totals of a batch summary; None for a missing or non-integer field. */
  datatype Summary = Summary(total: Option<int>, valid: Option<int>, invalid: Option<int>, error: Option<int>)

  /** A run-log line by what the parser recognises in it. */
  datatype Line =
    | ValidateLine(id: Id)
    | ResultLine(id: Id, outcome: Outcome, code: Option<int>)
    | SummaryLine(summary: Summary)
    | BadSummaryLine
    | OtherLine

  datatype ExitFile = NoExitFile | BadExitFile | ExitCode(code: int)

  datatype LogFile = UnreadableLog | LogFile(lines: seq<Line>)

  datatype Status =
    | ValidStatus | ValidPrefix | WrongSimulation | IncompleteValidationRun | RaceCompletionUnavailable
    | ExpectingCompletedRace | RaceTimeMismatch | StuntsScoreMismatch | RespawnCountMismatch
    | RespawnExpectationUnavailable | TrajectoryObservationError | IncompatibleReplayVersion
    | ValidationInputUnavailable | ScriptedReplay | UnknownStatus

  /** The validate_result_code field: absent, of a wrong type, or an integer or null. */
  datatype CodeField = MissingCode | BadCode | Code(value: Option<int>)

  /** What a result file holds; None stands for a field that is missing or of a wrong type. */
  datatype JsonContent =
    | UnreadableFile | NotJson | NotObject
    | Fields(schemaOk: bool, replay: Option<Id>, status: Option<Status>, valid: Option<bool>, code: CodeField,
             metadataIsObject: bool, canonical: bool)

  /** A result file and its resolved path. */
  datatype ResultFile = ResultFile(path: nat, content: JsonContent)

  datatype ShardFiles = ShardFiles(log: LogFile, resultFiles: seq<ResultFile>, exit: ExitFile)

  datatype LogResult = LogResult(shard: nat, id: Id, outcome: Outcome, code: Option<int>)

  datatype JsonResult = JsonResult(shard: nat, id: Id, valid: bool)

  datatype Issue =
    | ErrorWithoutCode | NonErrorWithCode | BatchSummaryInvalid | BatchSummaryCount | BatchSummaryMismatch
    | ExitFileInvalid | ExitCodeMismatch
    | ResultJsonUnreadable | ResultJsonInvalid | ResultJsonNotObject | ResultSchemaMismatch | ResultReplayInvalid
    | ResultStatusInvalid | ResultValidInvalid | ResultCodeMissing | ResultCodeInvalid | ResultCodeMismatch
    | ResultMetadataInvalid | ResultNotCanonical
    | CorpusRootInvalid | EmptyCorpus | DuplicateCorpusIdentity
    | ResultsRootInvalid | MissingRunLogs | JsonOwnedTwice | UnownedJson | RunLogUnreadable
    | JsonOutsideCorpus | LogOutsideCorpus | LogResultCoverage | OutputCoverage | JsonLogPairing
    | ClassificationMismatch | ShardMismatch | ShardJsonCountsMismatch

  function Filter<T>(s: seq<T>, p: T -> bool): seq<T> {
    if s == [] then []
    else Filter(s[..|s| - 1], p) + if p(s[|s| - 1]) then [s[|s| - 1]] else []
  }

  function Count<T>(s: seq<T>, p: T -> bool): nat {
    |Filter(s, p)|
  }

  function LogById(id: Id): LogResult -> bool {
    (r: LogResult) => r.id == id
  }

  function JsonById(id: Id): JsonResult -> bool {
    (r: JsonResult) => r.id == id
  }

  function ByOutcome(outcome: Outcome): LogResult -> bool {
    (r: LogResult) => r.outcome == outcome
  }

  function NotError(): LogResult -> bool {
    (r: LogResult) => !r.outcome.Error?
  }

  // ----- What the files of a shard say

  function LinesOf(files: ShardFiles): seq<Line> {
    if files.log.LogFile? then files.log.lines else []
  }

  function ResultsOf(shard: nat, lines: seq<Line>): seq<LogResult> {
    if lines == [] then []
    else
      var front, line := ResultsOf(shard, lines[..|lines| - 1]), lines[|lines| - 1];
      if line.ResultLine? then front + [LogResult(shard, line.id, line.outcome, line.code)] else front
  }

  function SummariesOf(lines: seq<Line>): seq<Summary> {
    if lines == [] then []
    else
      var front, line := SummariesOf(lines[..|lines| - 1]), lines[|lines| - 1];
      if line.SummaryLine? then front + [line.summary] else front
  }

  predicate LineOk(line: Line) {
    match line
    case ResultLine(_, outcome, code) => outcome.Error? <==> code.Some?
    case BadSummaryLine => false
    case _ => true
  }

  function CountOutcome(results: seq<LogResult>, outcome: Outcome): nat {
    Count(results, ByOutcome(outcome))
  }

  predicate SummaryMatches(summary: Summary, results: seq<LogResult>) {
    && summary.total == Some(|results|)
    && summary.valid == Some(CountOutcome(results, Valid))
    && summary.invalid == Some(CountOutcome(results, Invalid))
    && summary.error == Some(CountOutcome(results, Error))
  }

  /** The exit code of the worst outcome. */
  function Severity(results: seq<LogResult>): int {
    if CountOutcome(results, Error) > 0 then 2 else if CountOutcome(results, Invalid) > 0 then 1 else 0
  }

  predicate ExitOk(exit: ExitFile, results: seq<LogResult>) {
    match exit
    case NoExitFile => true
    case BadExitFile => false
    case ExitCode(code) => code == Severity(results)
  }

  predicate LogOk(shard: nat, files: ShardFiles) {
    var lines := LinesOf(files);
    var results, summaries := ResultsOf(shard, lines), SummariesOf(lines);
    && files.log.LogFile?
    && (forall i :: 0 <= i < |lines| ==> LineOk(lines[i]))
    && |summaries| == 1 && SummaryMatches(summaries[0], results)
    && ExitOk(files.exit, results)
  }

  /** The result code that a status demands, if the auditor knows the status. */
  function ExpectedCode(status: Status): Option<Option<int>> {
    match status
    case ValidStatus | ValidPrefix => Some(Some(1))
    case WrongSimulation => Some(Some(2))
    case ExpectingCompletedRace | RaceTimeMismatch | StuntsScoreMismatch | RespawnCountMismatch => Some(Some(0))
    case IncompatibleReplayVersion | ScriptedReplay => Some(Some(0))
    case IncompleteValidationRun | RaceCompletionUnavailable | RespawnExpectationUnavailable => Some(None)
    case TrajectoryObservationError | ValidationInputUnavailable => Some(None)
    case UnknownStatus => None
  }

  predicate CodeOk(code: CodeField, status: Option<Status>) {
    && code.Code?
    && (status.Some? && ExpectedCode(status.value).Some? ==> code.value == ExpectedCode(status.value).value)
  }

  /** The required fields are there. */
  predicate Structural(content: JsonContent) {
    content.Fields? && content.schemaOk && content.replay.Some? && content.status.Some? && content.valid.Some?
  }

  /** A result that takes part in the coverage checks, even if some field check failed. */
  predicate Collected(content: JsonContent) {
    Structural(content) && content.canonical
  }

  predicate JsonOk(content: JsonContent) {
    Collected(content) && CodeOk(content.code, content.status) && content.metadataIsObject
  }

  function JsonsOf(shard: nat, resultFiles: seq<ResultFile>): seq<JsonResult> {
    if resultFiles == [] then []
    else
      var front, content := JsonsOf(shard, resultFiles[..|resultFiles| - 1]), resultFiles[|resultFiles| - 1].content;
      if Collected(content) then front + [JsonResult(shard, content.replay.value, content.valid.value)] else front
  }

  predicate JsonsOk(resultFiles: seq<ResultFile>) {
    forall i :: 0 <= i < |resultFiles| ==> JsonOk(resultFiles[i].content)
  }

  /** Log and result files of a shard are in order. */
  predicate ShardOk(shard: nat, files: ShardFiles) {
    LogOk(shard, files) && JsonsOk(files.resultFiles)
  }

  function LogsUpTo(shards: seq<ShardFiles>, n: nat): seq<LogResult>
    requires n <= |shards|
  {
    if n == 0 then [] else LogsUpTo(shards, n - 1) + ResultsOf(n - 1, LinesOf(shards[n - 1]))
  }

  function JsonsUpTo(shards: seq<ShardFiles>, n: nat): seq<JsonResult>
    requires n <= |shards|
  {
    if n == 0 then [] else JsonsUpTo(shards, n - 1) + JsonsOf(n - 1, shards[n - 1].resultFiles)
  }

  function AllLogs(shards: seq<ShardFiles>): seq<LogResult> {
    LogsUpTo(shards, |shards|)
  }

  function AllJsons(shards: seq<ShardFiles>): seq<JsonResult> {
    JsonsUpTo(shards, |shards|)
  }

  ghost predicate OkUpTo(shards: seq<ShardFiles>, n: nat)
    requires n <= |shards|
  {
    n == 0 || (OkUpTo(shards, n - 1) && ShardOk(n - 1, shards[n - 1]))
  }

  lemma {:induction false} OkUpToAll(shards: seq<ShardFiles>, n: nat)
    requires n <= |shards|
    ensures OkUpTo(shards, n) <==> forall s :: 0 <= s < n ==> ShardOk(s, shards[s])
  {
    if n > 0 {
      OkUpToAll(shards, n - 1);
    }
  }

  // ----- Coverage

  function LogsFor(logs: seq<LogResult>, id: Id): seq<LogResult> {
    Filter(logs, LogById(id))
  }

  function JsonsFor(jsons: seq<JsonResult>, id: Id): seq<JsonResult> {
    Filter(jsons, JsonById(id))
  }

  function ErrorsIn(logs: seq<LogResult>): seq<LogResult> {
    Filter(logs, ByOutcome(Error))
  }

  function NonErrorsIn(logs: seq<LogResult>): seq<LogResult> {
    Filter(logs, NotError())
  }

  predicate Paired(json: JsonResult, log: LogResult) {
    log.outcome == (if json.valid then Valid else Invalid) && json.shard == log.shard
  }

  predicate ReplayOk(logs: seq<LogResult>, jsons: seq<JsonResult>, id: Id) {
    var records, outputs := LogsFor(logs, id), JsonsFor(jsons, id);
    && |records| == 1
    && |outputs| + |ErrorsIn(records)| == 1
    && |outputs| == |NonErrorsIn(records)|
    && (|outputs| == 1 && |NonErrorsIn(records)| == 1 ==> Paired(outputs[0], NonErrorsIn(records)[0]))
  }

  predicate CountsOk(shard: nat, files: ShardFiles) {
    var results, jsons := ResultsOf(shard, LinesOf(files)), JsonsOf(shard, files.resultFiles);
    && CountOutcome(results, Valid) == Count(jsons, (j: JsonResult) => j.valid)
    && CountOutcome(results, Invalid) == Count(jsons, (j: JsonResult) => !j.valid)
  }

  /** Every check that the auditor makes. */
  ghost predicate AllChecks(corpus: seq<Id>, shards: seq<ShardFiles>) {
    && (forall s :: 0 <= s < |shards| ==> ShardOk(s, shards[s]))
    && (forall i :: 0 <= i < |AllJsons(shards)| ==> AllJsons(shards)[i].id in corpus)
    && (forall i :: 0 <= i < |AllLogs(shards)| ==> AllLogs(shards)[i].id in corpus)
    && (forall i :: 0 <= i < |corpus| ==> ReplayOk(AllLogs(shards), AllJsons(shards), corpus[i]))
    && (forall s :: 0 <= s < |shards| ==> CountsOk(s, shards[s]))
  }

  // ----- Which defect is recorded as which issue

  ghost predicate CorpusDefect(kind: Issue, root: Option<seq<Id>>) {
    || (kind.CorpusRootInvalid? && root.None?)
    || (kind.EmptyCorpus? && root == Some([]))
    || (kind.DuplicateCorpusIdentity? && root.Some? && !NoRepeats(root.value))
  }

  ghost predicate DiscoveryDefect(kind: Issue, root: Option<seq<ShardFiles>>, tree: set<nat>) {
    || (kind.ResultsRootInvalid? && root.None?)
    || (kind.MissingRunLogs? && root == Some([]))
    || (kind.JsonOwnedTwice? && root.Some? && !NoRepeats(OwnedPaths(root.value)))
    || (kind.UnownedJson? && root.Some? && root.value != [] &&
        exists path :: path in tree && path !in OwnedPaths(root.value))
  }

  ghost predicate LineDefect(kind: Issue, line: Line) {
    || (kind.ErrorWithoutCode? && line.ResultLine? && line.outcome.Error? && line.code.None?)
    || (kind.NonErrorWithCode? && line.ResultLine? && !line.outcome.Error? && line.code.Some?)
    || (kind.BatchSummaryInvalid? && line.BadSummaryLine?)
  }

  /** The code that the worst of some results calls for. */
  ghost predicate WrongExit(code: int, results: seq<LogResult>) {
    if exists r :: r in results && r.outcome.Error? then code != 2
    else if exists r :: r in results && r.outcome.Invalid? then code != 1
    else code != 0
  }

  ghost predicate ExitDefect(kind: Issue, exit: ExitFile, results: seq<LogResult>) {
    || (kind.ExitFileInvalid? && exit.BadExitFile?)
    || (kind.ExitCodeMismatch? && exit.ExitCode? && WrongExit(exit.code, results))
  }

  ghost predicate SummaryDefect(kind: Issue, summaries: seq<Summary>, results: seq<LogResult>) {
    || (kind.BatchSummaryCount? && |summaries| != 1)
    || (kind.BatchSummaryMismatch? && |summaries| == 1 && !SummaryMatches(summaries[0], results))
  }

  ghost predicate LogDefect(kind: Issue, shard: nat, files: ShardFiles) {
    if files.log.UnreadableLog? then kind.RunLogUnreadable?
    else
      var lines := files.log.lines;
      var results, summaries := ResultsOf(shard, lines), SummariesOf(lines);
      || (exists i :: 0 <= i < |lines| && LineDefect(kind, lines[i]))
      || SummaryDefect(kind, summaries, results)
      || ExitDefect(kind, files.exit, results)
  }

  /** A result code that is not the one of the status. */
  ghost predicate WrongCode(status: Status, value: Option<int>) {
    || (value != Some(1) && (status.ValidStatus? || status.ValidPrefix?))
    || (value != Some(2) && status.WrongSimulation?)
    || (value != Some(0) && (status.ExpectingCompletedRace? || status.RaceTimeMismatch?))
    || (value != Some(0) && (status.StuntsScoreMismatch? || status.RespawnCountMismatch?))
    || (value != Some(0) && (status.IncompatibleReplayVersion? || status.ScriptedReplay?))
    || (value != None && (status.IncompleteValidationRun? || status.RaceCompletionUnavailable?))
    || (value != None && (status.RespawnExpectationUnavailable? || status.TrajectoryObservationError?))
    || (value != None && status.ValidationInputUnavailable?)
  }

  ghost predicate CodeDefect(kind: Issue, code: CodeField, status: Option<Status>) {
    || (kind.ResultCodeMissing? && code.MissingCode?)
    || (kind.ResultCodeInvalid? && code.BadCode?)
    || (kind.ResultCodeMismatch? && code.Code? && status.Some? && WrongCode(status.value, code.value))
  }

  ghost predicate RequiredDefect(kind: Issue, content: JsonContent)
    requires content.Fields?
  {
    || (kind.ResultSchemaMismatch? && !content.schemaOk)
    || (kind.ResultReplayInvalid? && content.replay.None?)
    || (kind.ResultStatusInvalid? && content.status.None?)
    || (kind.ResultValidInvalid? && content.valid.None?)
  }

  ghost predicate JsonDefect(kind: Issue, content: JsonContent) {
    match content
    case UnreadableFile => kind.ResultJsonUnreadable?
    case NotJson => kind.ResultJsonInvalid?
    case NotObject => kind.ResultJsonNotObject?
    case Fields(schemaOk, replay, status, valid, code, metadataIsObject, canonical) =>
      || RequiredDefect(kind, content)
      || CodeDefect(kind, code, status)
      || (schemaOk && replay.Some? && status.Some? && valid.Some? &&
          ((kind.ResultMetadataInvalid? && !metadataIsObject) || (kind.ResultNotCanonical? && !canonical)))
  }

  ghost predicate ShardDefect(kind: Issue, shard: nat, files: ShardFiles) {
    || LogDefect(kind, shard, files)
    || exists i :: 0 <= i < |files.resultFiles| && JsonDefect(kind, files.resultFiles[i].content)
  }

  ghost predicate PairDefect(kind: Issue, json: JsonResult, log: LogResult) {
    || (kind.ClassificationMismatch? && log.outcome != if json.valid then Valid else Invalid)
    || (kind.ShardMismatch? && json.shard != log.shard)
  }

  ghost predicate ReplayDefect(kind: Issue, logs: seq<LogResult>, jsons: seq<JsonResult>, id: Id) {
    var records, outputs := LogsFor(logs, id), JsonsFor(jsons, id);
    var errors, others := ErrorsIn(records), NonErrorsIn(records);
    || (kind.LogResultCoverage? && |records| != 1)
    || (kind.OutputCoverage? && |outputs| + |errors| != 1)
    || (kind.JsonLogPairing? && |outputs| != |others|)
    || (|outputs| == |others| == 1 && PairDefect(kind, outputs[0], others[0]))
  }

  ghost predicate CoverageDefect(kind: Issue, corpus: seq<Id>, shards: seq<ShardFiles>, logs: seq<LogResult>,
                                 jsons: seq<JsonResult>)
  {
    || (kind.JsonOutsideCorpus? && exists i :: 0 <= i < |jsons| && jsons[i].id !in corpus)
    || (kind.LogOutsideCorpus? && exists i :: 0 <= i < |logs| && logs[i].id !in corpus)
    || (exists i :: 0 <= i < |corpus| && ReplayDefect(kind, logs, jsons, corpus[i]))
    || (kind.ShardJsonCountsMismatch? && exists s :: 0 <= s < |shards| && !CountsOk(s, shards[s]))
  }

  /** Everything that an audit records. */
  ghost predicate Defect(kind: Issue, corpusRoot: Option<seq<Id>>, resultsRoot: Option<seq<ShardFiles>>,
                         tree: set<nat>, corpus: seq<Id>, shards: seq<ShardFiles>)
  {
    || CorpusDefect(kind, corpusRoot)
    || DiscoveryDefect(kind, resultsRoot, tree)
    || (exists s :: 0 <= s < |shards| && ShardDefect(kind, s, shards[s]))
    || CoverageDefect(kind, corpus, shards, AllLogs(shards), AllJsons(shards))
  }

  // ----- The auditor

  /** Repeats show in the length of the list of distinct elements. */
  lemma {:induction false} DistinctLength(paths: seq<Id>)
    ensures |Distinct(paths)| <= |paths|
    ensures |Distinct(paths)| == |paths| <==> NoRepeats(paths)
  {
    if paths != [] {
      var k := |paths| - 1;
      DistinctLength(paths[..k]);
      DistinctFacts(paths[..k]);
      if paths[k] in paths[..k] {
        var i :| 0 <= i < k && paths[..k][i] == paths[k];
      }
    }
  }

  function PathsOf(resultFiles: seq<ResultFile>): seq<nat> {
    seq(|resultFiles|, i requires 0 <= i < |resultFiles| => resultFiles[i].path)
  }

  /** The result files of all shards, in the order in which they are claimed. */
  function OwnedPaths(shards: seq<ShardFiles>): seq<nat> {
    if shards == [] then [] else OwnedPaths(shards[..|shards| - 1]) + PathsOf(shards[|shards| - 1].resultFiles)
  }

  /** What discovery checks: both roots exist and hold something, no replay is found twice, and every
      result file in the tree belongs to exactly one shard. */
  ghost predicate DiscoveryOk(corpusRoot: Option<seq<Id>>, resultsRoot: Option<seq<ShardFiles>>, tree: set<nat>) {
    && corpusRoot.Some? && corpusRoot.value != [] && NoRepeats(corpusRoot.value)
    && ShardsOk(resultsRoot, tree)
  }

  ghost predicate ShardsOk(resultsRoot: Option<seq<ShardFiles>>, tree: set<nat>) {
    && resultsRoot.Some? && resultsRoot.value != []
    && NoRepeats(OwnedPaths(resultsRoot.value))
    && (forall path :: path in tree ==> path in OwnedPaths(resultsRoot.value))
  }

  /** Without issues every replay is accounted for once, and all totals are the size of the corpus. */
  ghost predicate Accounts(corpus: seq<Id>, shards: seq<ShardFiles>) {
    && NoRepeats(corpus)
    && (forall i :: 0 <= i < |corpus| ==> AccountedFor(AllLogs(shards), AllJsons(shards), corpus[i]))
    && DeclaredTotal(shards) == |AllLogs(shards)| == |corpus|
    && |AllJsons(shards)| + |ErrorsIn(AllLogs(shards))| == |corpus|
  }

  class Auditor {
    const corpusRoot: Option<seq<Id>>
    const resultsRoot: Option<seq<ShardFiles>>
    const resultTree: set<nat>
    var corpus: seq<Id>
    var shards: seq<ShardFiles>
    var issues: seq<Issue>
    var logResults: seq<LogResult>
    var jsonResults: seq<JsonResult>

    /** The directories as they are found; None for a root that is not a directory. */
    constructor (corpusRoot: Option<seq<Id>>, resultsRoot: Option<seq<ShardFiles>>, resultTree: set<nat>)
      ensures this.corpusRoot == corpusRoot && this.resultsRoot == resultsRoot && this.resultTree == resultTree
      ensures corpus == [] && shards == [] && issues == [] && logResults == [] && jsonResults == []
    {
      this.corpusRoot, this.resultsRoot, this.resultTree := corpusRoot, resultsRoot, resultTree;
      corpus, shards, issues, logResults, jsonResults := [], [], [], [], [];
    }

    /** Records an issue when a check fails. */
    method Check(passed: bool, issue: Issue)
      modifies `issues
      ensures old(issues) <= issues && (issues == old(issues) <==> passed)
      ensures forall kind :: kind in issues <==> kind in old(issues) || (!passed && kind == issue)
    {
      if !passed {
        issues := issues + [issue];
      }
    }

    /** discover_corpus: replays by identity, the first path of each. */
    method DiscoverCorpus()
      requires corpus == []
      modifies `issues, `corpus
      ensures corpus == if corpusRoot.Some? then Distinct(corpusRoot.value) else []
      ensures old(issues) <= issues
      ensures issues == old(issues) <==>
              corpusRoot.Some? && corpusRoot.value != [] && NoRepeats(corpusRoot.value)
      ensures forall kind :: kind in issues <==> kind in old(issues) || CorpusDefect(kind, corpusRoot)
    {
      Check(corpusRoot.Some?, CorpusRootInvalid);
      if corpusRoot.None? {
        return;
      }
      var paths := corpusRoot.value;
      Check(paths != [], EmptyCorpus);
      for i := 0 to |paths|
        invariant corpus == Distinct(paths[..i]) && |corpus| <= i
        invariant old(issues) <= issues
        invariant issues == old(issues) <==> paths != [] && |corpus| == i
        invariant forall kind :: kind in issues <==>
                    || kind in old(issues) || (kind.EmptyCorpus? && paths == [])
                    || (kind.DuplicateCorpusIdentity? && |corpus| < i)
      {
        assert paths[..i + 1][..i] == paths[..i];
        Check(paths[i] !in corpus, DuplicateCorpusIdentity);
        if paths[i] !in corpus {
          corpus := corpus + [paths[i]];
        }
      }
      assert paths[..|paths|] == paths;
      DistinctLength(paths);
    }

    /** discover_shards: every result file claimed by the shard whose directory holds it. */
    method DiscoverShards()
      requires shards == []
      modifies `issues, `shards
      ensures shards == if resultsRoot.Some? then resultsRoot.value else []
      ensures old(issues) <= issues
      ensures issues == old(issues) <==> ShardsOk(resultsRoot, resultTree)
      ensures forall kind :: kind in issues <==> kind in old(issues) || DiscoveryDefect(kind, resultsRoot, resultTree)
    {
      Check(resultsRoot.Some?, ResultsRootInvalid);
      if resultsRoot.None? {
        return;
      }
      Check(resultsRoot.value != [], MissingRunLogs);
      if resultsRoot.value == [] {
        return;
      }
      shards := resultsRoot.value;
      var found := resultsRoot.value;
      var owned: seq<nat> := [];
      for s := 0 to |found|
        invariant shards == found && owned == OwnedPaths(found[..s])
        invariant old(issues) <= issues && (issues == old(issues) <==> NoRepeats(owned))
        invariant forall kind :: kind in issues <==> kind in old(issues) || (kind.JsonOwnedTwice? && !NoRepeats(owned))
      {
        assert found[..s + 1][..s] == found[..s];
        OwnedOnce(owned, PathsOf(found[s].resultFiles));
        ClaimFiles(owned, found[s].resultFiles);
        owned := owned + PathsOf(found[s].resultFiles);
      }
      assert found[..|found|] == found;
      var unowned := set path | path in resultTree && path !in owned;
      forall path | unowned == {} && path in resultTree
        ensures path in owned
      {
        assert path !in unowned;
      }
      ReportUnowned(unowned);
    }

    /** Every result file that no shard claims is an issue. */
    method ReportUnowned(unowned: set<nat>)
      modifies `issues
      ensures old(issues) <= issues && (issues == old(issues) <==> unowned == {})
      ensures forall kind :: kind in issues <==> kind in old(issues) || (kind.UnownedJson? && unowned != {})
    {
      var left := unowned;
      while left != {}
        invariant left <= unowned && old(issues) <= issues
        invariant issues == old(issues) <==> left == unowned
        invariant forall kind :: kind in issues <==> kind in old(issues) || (kind.UnownedJson? && left != unowned)
        decreases |left|
      {
        var path :| path in left;
        Check(false, UnownedJson);
        left := left - {path};
      }
    }

    /** The inner loop: files that another shard has claimed, or that turn up twice, are issues. */
    method ClaimFiles(owned: seq<nat>, files: seq<ResultFile>)
      modifies `issues
      ensures old(issues) <= issues
      ensures NoRepeats(owned) ==> (issues == old(issues) <==> NoRepeats(owned + PathsOf(files)))
      ensures forall kind: Issue :: !kind.JsonOwnedTwice? ==> (kind in issues <==> kind in old(issues))
      ensures NoRepeats(owned) && !NoRepeats(owned + PathsOf(files)) ==> JsonOwnedTwice in issues
    {
      var claimed := owned;
      for i := 0 to |files|
        invariant claimed == owned + PathsOf(files[..i])
        invariant old(issues) <= issues
        invariant NoRepeats(owned) ==> (issues == old(issues) <==> NoRepeats(claimed))
        invariant forall kind: Issue :: !kind.JsonOwnedTwice? ==> (kind in issues <==> kind in old(issues))
        invariant NoRepeats(owned) && !NoRepeats(claimed) ==> JsonOwnedTwice in issues
      {
        assert PathsOf(files[..i + 1]) == PathsOf(files[..i]) + [files[i].path];
        AppendRepeats(claimed, files[i].path);
        Check(files[i].path !in claimed, JsonOwnedTwice);
        claimed := claimed + [files[i].path];
      }
      assert files[..|files|] == files;
    }

    /** parse_log: the line loop, then the summary and the exit code. */
    method ParseLog(shard: nat, files: ShardFiles)
      modifies `issues, `logResults
      ensures logResults == old(logResults) + ResultsOf(shard, LinesOf(files))
      ensures old(issues) <= issues && (issues == old(issues) <==> LogOk(shard, files))
      ensures forall kind :: kind in issues <==> kind in old(issues) || LogDefect(kind, shard, files)
    {
      if files.log.UnreadableLog? {
        Check(false, RunLogUnreadable);
        return;
      }
      var lines := files.log.lines;
      var results: seq<LogResult>, summaries: seq<Summary> := [], [];
      for i := 0 to |lines|
        invariant results == ResultsOf(shard, lines[..i]) && summaries == SummariesOf(lines[..i])
        invariant logResults == old(logResults) + results
        invariant old(issues) <= issues
        invariant issues == old(issues) <==> forall j :: 0 <= j < i ==> LineOk(lines[j])
        invariant forall kind :: kind in issues <==>
                    kind in old(issues) || exists j :: 0 <= j < i && LineDefect(kind, lines[j])
      {
        assert lines[..i + 1][..i] == lines[..i];
        match lines[i]
        case ResultLine(id, outcome, code) =>
          Check(!(outcome.Error? && code.None?), ErrorWithoutCode);
          Check(!(!outcome.Error? && code.Some?), NonErrorWithCode);
          var result := LogResult(shard, id, outcome, code);
          results := results + [result];
          logResults := logResults + [result];
        case SummaryLine(summary) => summaries := summaries + [summary];
        case BadSummaryLine => Check(false, BatchSummaryInvalid);
        case _ =>
      }
      assert lines[..|lines|] == lines;
      CheckSummaries(summaries, results);
      CheckExit(files.exit, results);
    }

    method CheckExit(exit: ExitFile, results: seq<LogResult>)
      modifies `issues
      ensures old(issues) <= issues && (issues == old(issues) <==> ExitOk(exit, results))
      ensures forall kind :: kind in issues <==> kind in old(issues) || ExitDefect(kind, exit, results)
    {
      SeverityIsWorst(results);
      match exit
      case NoExitFile =>
      case BadExitFile => Check(false, ExitFileInvalid);
      case ExitCode(code) => Check(code == Severity(results), ExitCodeMismatch);
    }

    method CheckSummaries(summaries: seq<Summary>, results: seq<LogResult>)
      modifies `issues
      ensures old(issues) <= issues
      ensures issues == old(issues) <==> |summaries| == 1 && SummaryMatches(summaries[0], results)
      ensures forall kind :: kind in issues <==> kind in old(issues) || SummaryDefect(kind, summaries, results)
    {
      Check(|summaries| == 1, BatchSummaryCount);
      if |summaries| == 1 {
        CheckSummary(summaries[0], results);
      }
    }

    method CheckSummary(summary: Summary, results: seq<LogResult>)
      modifies `issues
      ensures old(issues) <= issues && (issues == old(issues) <==> SummaryMatches(summary, results))
      ensures forall kind :: kind in issues <==>
                kind in old(issues) || (kind.BatchSummaryMismatch? && !SummaryMatches(summary, results))
    {
      Check(summary.total == Some(|results|), BatchSummaryMismatch);
      Check(summary.valid == Some(CountOutcome(results, Valid)), BatchSummaryMismatch);
      Check(summary.invalid == Some(CountOutcome(results, Invalid)), BatchSummaryMismatch);
      Check(summary.error == Some(CountOutcome(results, Error)), BatchSummaryMismatch);
    }

    /** parse_json_result over the result files of one shard. */
    method ParseJsonResults(shard: nat, files: seq<ResultFile>)
      modifies `issues, `jsonResults
      ensures jsonResults == old(jsonResults) + JsonsOf(shard, files)
      ensures old(issues) <= issues && (issues == old(issues) <==> JsonsOk(files))
      ensures forall kind :: kind in issues <==>
                kind in old(issues) || exists i :: 0 <= i < |files| && JsonDefect(kind, files[i].content)
    {
      for i := 0 to |files|
        invariant jsonResults == old(jsonResults) + JsonsOf(shard, files[..i])
        invariant old(issues) <= issues
        invariant issues == old(issues) <==> forall j :: 0 <= j < i ==> JsonOk(files[j].content)
        invariant forall kind :: kind in issues <==>
                    kind in old(issues) || exists j :: 0 <= j < i && JsonDefect(kind, files[j].content)
      {
        assert files[..i + 1][..i] == files[..i];
        ParseJsonResult(shard, files[i].content);
      }
      assert files[..|files|] == files;
    }

    /** parse_json_result: the required fields first; a result without them is not collected. */
    method ParseJsonResult(shard: nat, content: JsonContent)
      modifies `issues, `jsonResults
      ensures jsonResults == old(jsonResults) +
              if Collected(content) then [JsonResult(shard, content.replay.value, content.valid.value)] else []
      ensures old(issues) <= issues && (issues == old(issues) <==> JsonOk(content))
      ensures forall kind :: kind in issues <==> kind in old(issues) || JsonDefect(kind, content)
    {
      if !content.Fields? {
        Check(false, if content.UnreadableFile? then ResultJsonUnreadable
                     else if content.NotJson? then ResultJsonInvalid else ResultJsonNotObject);
        return;
      }
      CheckRequired(content);
      CheckCode(content.code, content.status);
      if !(content.schemaOk && content.replay.Some? && content.status.Some? && content.valid.Some?) {
        return;
      }
      Check(content.metadataIsObject, ResultMetadataInvalid);
      Check(content.canonical, ResultNotCanonical);
      if content.canonical {
        jsonResults := jsonResults + [JsonResult(shard, content.replay.value, content.valid.value)];
      }
    }

    method CheckRequired(content: JsonContent)
      requires content.Fields?
      modifies `issues
      ensures old(issues) <= issues && (issues == old(issues) <==> Structural(content))
      ensures forall kind :: kind in issues <==> kind in old(issues) || RequiredDefect(kind, content)
    {
      Check(content.schemaOk, ResultSchemaMismatch);
      Check(content.replay.Some?, ResultReplayInvalid);
      Check(content.status.Some?, ResultStatusInvalid);
      Check(content.valid.Some?, ResultValidInvalid);
    }

    method CheckCode(code: CodeField, status: Option<Status>)
      modifies `issues
      ensures old(issues) <= issues && (issues == old(issues) <==> CodeOk(code, status))
      ensures forall kind :: kind in issues <==> kind in old(issues) || CodeDefect(kind, code, status)
    {
      match code
      case MissingCode => Check(false, ResultCodeMissing);
      case BadCode => Check(false, ResultCodeInvalid);
      case Code(value) =>
        if status.Some? {
          var expected := ExpectedCode(status.value);
          Check(expected.None? || value == expected.value, ResultCodeMismatch);
        }
    }

    method ParseShard(shard: nat, files: ShardFiles)
      modifies `issues, `logResults, `jsonResults
      ensures logResults == old(logResults) + ResultsOf(shard, LinesOf(files))
      ensures jsonResults == old(jsonResults) + JsonsOf(shard, files.resultFiles)
      ensures old(issues) <= issues && (issues == old(issues) <==> ShardOk(shard, files))
      ensures forall kind :: kind in issues <==> kind in old(issues) || ShardDefect(kind, shard, files)
    {
      ParseLog(shard, files);
      ParseJsonResults(shard, files.resultFiles);
    }

    method ParseArtifacts()
      requires logResults == [] && jsonResults == []
      modifies `issues, `logResults, `jsonResults
      ensures logResults == AllLogs(shards) && jsonResults == AllJsons(shards)
      ensures old(issues) <= issues
      ensures issues == old(issues) <==> forall s :: 0 <= s < |shards| ==> ShardOk(s, shards[s])
      ensures forall kind :: kind in issues <==>
                kind in old(issues) || exists s :: 0 <= s < |shards| && ShardDefect(kind, s, shards[s])
    {
      var found := shards;
      for s := 0 to |found|
        invariant shards == found && old(issues) <= issues
        invariant logResults == LogsUpTo(found, s) && jsonResults == JsonsUpTo(found, s)
        invariant issues == old(issues) <==> OkUpTo(found, s)
        invariant forall kind :: kind in issues <==>
                    kind in old(issues) || exists t :: 0 <= t < s && ShardDefect(kind, t, found[t])
      {
        ParseShard(s, found[s]);
      }
      OkUpToAll(found, |found|);
    }

    /** The checks of one corpus replay. */
    method CheckReplay(id: Id)
      modifies `issues
      ensures old(issues) <= issues && (issues == old(issues) <==> ReplayOk(logResults, jsonResults, id))
      ensures forall kind :: kind in issues <==> kind in old(issues) || ReplayDefect(kind, logResults, jsonResults, id)
    {
      var records, outputs := LogsFor(logResults, id), JsonsFor(jsonResults, id);
      var errors, others := ErrorsIn(records), NonErrorsIn(records);
      Check(|records| == 1, LogResultCoverage);
      Check(|outputs| + |errors| == 1, OutputCoverage);
      Check(|outputs| == |others|, JsonLogPairing);
      if |outputs| == 1 && |others| == 1 {
        CheckPair(outputs[0], others[0]);
      }
    }

    method CheckPair(json: JsonResult, log: LogResult)
      modifies `issues
      ensures old(issues) <= issues && (issues == old(issues) <==> Paired(json, log))
      ensures forall kind :: kind in issues <==> kind in old(issues) || PairDefect(kind, json, log)
    {
      Check(log.outcome == (if json.valid then Valid else Invalid), ClassificationMismatch);
      Check(json.shard == log.shard, ShardMismatch);
    }

    method CheckJsonsInCorpus()
      modifies `issues
      ensures old(issues) <= issues
      ensures issues == old(issues) <==> forall i :: 0 <= i < |jsonResults| ==> jsonResults[i].id in corpus
      ensures forall kind :: kind in issues <==>
                || kind in old(issues)
                || (kind.JsonOutsideCorpus? && exists i :: 0 <= i < |jsonResults| && jsonResults[i].id !in corpus)
    {
      var results := jsonResults;
      for i := 0 to |results|
        invariant jsonResults == results && old(issues) <= issues
        invariant issues == old(issues) <==> forall j :: 0 <= j < i ==> results[j].id in corpus
        invariant forall kind :: kind in issues <==>
                    || kind in old(issues)
                    || (kind.JsonOutsideCorpus? && exists j :: 0 <= j < i && results[j].id !in corpus)
      {
        Check(results[i].id in corpus, JsonOutsideCorpus);
      }
    }

    method CheckLogsInCorpus()
      modifies `issues
      ensures old(issues) <= issues
      ensures issues == old(issues) <==> forall i :: 0 <= i < |logResults| ==> logResults[i].id in corpus
      ensures forall kind :: kind in issues <==>
                || kind in old(issues)
                || (kind.LogOutsideCorpus? && exists i :: 0 <= i < |logResults| && logResults[i].id !in corpus)
    {
      var results := logResults;
      for i := 0 to |results|
        invariant logResults == results && old(issues) <= issues
        invariant issues == old(issues) <==> forall j :: 0 <= j < i ==> results[j].id in corpus
        invariant forall kind :: kind in issues <==>
                    || kind in old(issues)
                    || (kind.LogOutsideCorpus? && exists j :: 0 <= j < i && results[j].id !in corpus)
      {
        Check(results[i].id in corpus, LogOutsideCorpus);
      }
    }

    method CheckReplays()
      modifies `issues
      ensures old(issues) <= issues
      ensures issues == old(issues) <==>
              forall i :: 0 <= i < |corpus| ==> ReplayOk(logResults, jsonResults, corpus[i])
      ensures forall kind :: kind in issues <==>
                || kind in old(issues)
                || exists i :: 0 <= i < |corpus| && ReplayDefect(kind, logResults, jsonResults, corpus[i])
    {
      var ids := corpus;
      for i := 0 to |ids|
        invariant corpus == ids && logResults == old(logResults) && jsonResults == old(jsonResults)
        invariant old(issues) <= issues
        invariant issues == old(issues) <==> forall j :: 0 <= j < i ==> ReplayOk(logResults, jsonResults, ids[j])
        invariant forall kind :: kind in issues <==>
                    || kind in old(issues)
                    || exists j :: 0 <= j < i && ReplayDefect(kind, logResults, jsonResults, ids[j])
      {
        CheckReplay(ids[i]);
      }
    }

    method CheckShardCounts()
      modifies `issues
      ensures old(issues) <= issues
      ensures issues == old(issues) <==> forall s :: 0 <= s < |shards| ==> CountsOk(s, shards[s])
      ensures forall kind :: kind in issues <==>
                || kind in old(issues)
                || (kind.ShardJsonCountsMismatch? && exists s :: 0 <= s < |shards| && !CountsOk(s, shards[s]))
    {
      var found := shards;
      for s := 0 to |found|
        invariant shards == found && old(issues) <= issues
        invariant issues == old(issues) <==> forall t :: 0 <= t < s ==> CountsOk(t, found[t])
        invariant forall kind :: kind in issues <==>
                    || kind in old(issues)
                    || (kind.ShardJsonCountsMismatch? && exists t :: 0 <= t < s && !CountsOk(t, found[t]))
      {
        Check(CountsOk(s, found[s]), ShardJsonCountsMismatch);
      }
    }

    /** verify_coverage */
    method VerifyCoverage()
      modifies `issues
      ensures old(issues) <= issues
      ensures issues == old(issues) <==>
              && (forall i :: 0 <= i < |jsonResults| ==> jsonResults[i].id in corpus)
              && (forall i :: 0 <= i < |logResults| ==> logResults[i].id in corpus)
              && (forall i :: 0 <= i < |corpus| ==> ReplayOk(logResults, jsonResults, corpus[i]))
              && (forall s :: 0 <= s < |shards| ==> CountsOk(s, shards[s]))
      ensures forall kind :: kind in issues <==>
                kind in old(issues) || CoverageDefect(kind, corpus, shards, logResults, jsonResults)
    {
      CheckJsonsInCorpus();
      CheckLogsInCorpus();
      CheckReplays();
      CheckShardCounts();
    }

    method Discover()
      requires corpus == [] && shards == []
      modifies `issues, `corpus, `shards
      ensures old(issues) <= issues
      ensures issues == old(issues) <==> DiscoveryOk(corpusRoot, resultsRoot, resultTree)
      ensures forall kind :: kind in issues <==>
                || kind in old(issues) || CorpusDefect(kind, corpusRoot)
                || DiscoveryDefect(kind, resultsRoot, resultTree)
      ensures corpus == if corpusRoot.Some? then Distinct(corpusRoot.value) else []
      ensures shards == if resultsRoot.Some? then resultsRoot.value else []
    {
      DiscoverCorpus();
      DiscoverShards();
    }

    method Examine()
      requires logResults == [] && jsonResults == []
      modifies `issues, `logResults, `jsonResults
      ensures old(issues) <= issues
      ensures issues == old(issues) <==> AllChecks(corpus, shards)
      ensures forall kind :: kind in issues <==>
                || kind in old(issues)
                || (exists s :: 0 <= s < |shards| && ShardDefect(kind, s, shards[s]))
                || CoverageDefect(kind, corpus, shards, AllLogs(shards), AllJsons(shards))
    {
      ParseArtifacts();
      VerifyCoverage();
    }

    /** The four steps that record issues. */
    method Inspect()
      requires corpus == [] && shards == [] && issues == [] && logResults == [] && jsonResults == []
      modifies this
      ensures issues == [] <==> DiscoveryOk(corpusRoot, resultsRoot, resultTree) && AllChecks(corpus, shards)
      ensures corpus == if corpusRoot.Some? then Distinct(corpusRoot.value) else []
      ensures shards == if resultsRoot.Some? then resultsRoot.value else []
      ensures forall kind :: kind in issues <==>
                Defect(kind, corpusRoot, resultsRoot, resultTree, corpus, shards)
    {
      Discover();
      Examine();
    }

    /** MAIN RESULT.  run: discovery, parsing, coverage, and the integrity verdict of report.  The verdict is
        good exactly if every check passes, and then the corpus is accounted for. */
    method Run() returns (integrityOk: bool)
      requires corpus == [] && shards == [] && issues == [] && logResults == [] && jsonResults == []
      modifies this
      ensures integrityOk <==> issues == []
      ensures forall kind :: kind in issues <==>
                Defect(kind, corpusRoot, resultsRoot, resultTree, corpus, shards)
      ensures integrityOk <==> DiscoveryOk(corpusRoot, resultsRoot, resultTree) && AllChecks(corpus, shards)
      ensures integrityOk ==> corpusRoot == Some(corpus) && resultsRoot == Some(shards) && Accounts(corpus, shards)
    {
      Inspect();
      integrityOk := issues == [];
      if integrityOk {
        DistinctOfDistinct(corpusRoot.value);
        assert corpus == corpusRoot.value;
        CleanAuditAccountsForCorpus(corpus, shards);
      }
    }
  }

  // ----- What a clean report proves

  lemma {:induction false} AppendRepeats(ids: seq<Id>, id: Id)
    ensures NoRepeats(ids + [id]) <==> NoRepeats(ids) && id !in ids
  {
    var longer := ids + [id];
    if NoRepeats(longer) {
      assert longer[..|ids|] == ids;
      forall i | 0 <= i < |ids|
        ensures ids[i] != id
      {
        assert longer[i] != longer[|ids|];
      }
      forall i, j | 0 <= i < j < |ids|
        ensures ids[i] != ids[j]
      {
        assert longer[i] != longer[j];
      }
    }
  }

  lemma {:induction false} OwnedOnce(owned: seq<Id>, more: seq<Id>)
    ensures NoRepeats(owned + more) ==> NoRepeats(owned)
  {
    var all := owned + more;
    forall i, j | NoRepeats(all) && 0 <= i < j < |owned|
      ensures owned[i] != owned[j]
    {
      assert all[i] != all[j];
    }
  }

  function LogIds(logs: seq<LogResult>): seq<Id> {
    seq(|logs|, i requires 0 <= i < |logs| => logs[i].id)
  }

  function JsonIds(jsons: seq<JsonResult>): seq<Id> {
    seq(|jsons|, i requires 0 <= i < |jsons| => jsons[i].id)
  }

  /** The replays of the JSON results and of the logged errors. */
  function OutputIds(logs: seq<LogResult>, jsons: seq<JsonResult>): seq<Id> {
    JsonIds(jsons) + LogIds(ErrorsIn(logs))
  }

  lemma {:induction false} LogMultiplicity(logs: seq<LogResult>, id: Id)
    ensures multiset(LogIds(logs))[id] == |LogsFor(logs, id)|
  {
    if logs != [] {
      var k := |logs| - 1;
      LogMultiplicity(logs[..k], id);
      assert LogIds(logs) == LogIds(logs[..k]) + [logs[k].id];
    }
  }

  lemma {:induction false} JsonMultiplicity(jsons: seq<JsonResult>, id: Id)
    ensures multiset(JsonIds(jsons))[id] == |JsonsFor(jsons, id)|
  {
    if jsons != [] {
      var k := |jsons| - 1;
      JsonMultiplicity(jsons[..k], id);
      assert JsonIds(jsons) == JsonIds(jsons[..k]) + [jsons[k].id];
    }
  }

  lemma {:induction false} DistinctMultiplicity(ids: seq<Id>, i: nat)
    requires NoRepeats(ids) && i < |ids|
    ensures multiset(ids)[ids[i]] == 1
  {
    var k := |ids| - 1;
    assert ids == ids[..k] + [ids[k]];
    if i < k {
      DistinctMultiplicity(ids[..k], i);
    } else {
      assert ids[k] !in ids[..k];
      assert ids[k] !in multiset(ids[..k]);
    }
  }

  /** A list in which every corpus replay occurs once, and nothing else, is as long as the corpus. */
  lemma {:induction false} OneToOne(ids: seq<Id>, corpus: seq<Id>)
    requires NoRepeats(corpus)
    requires forall i :: 0 <= i < |ids| ==> ids[i] in corpus
    requires forall i :: 0 <= i < |corpus| ==> multiset(ids)[corpus[i]] == 1
    ensures |ids| == |corpus|
  {
    forall x: Id
      ensures multiset(ids)[x] == multiset(corpus)[x]
    {
      if x in corpus {
        var i :| 0 <= i < |corpus| && corpus[i] == x;
        DistinctMultiplicity(corpus, i);
      } else {
        assert x !in multiset(corpus);
        assert x !in ids && x !in multiset(ids);
      }
    }
    assert multiset(ids) == multiset(corpus);
    assert |ids| == |multiset(ids)| == |multiset(corpus)| == |corpus|;
  }

  lemma {:induction false} FilterAppend<T>(s: seq<T>, x: T, p: T -> bool)
    ensures Filter(s + [x], p) == Filter(s, p) + if p(x) then [x] else []
  {
    assert (s + [x])[..|s|] == s;
  }

  lemma {:induction false} FilterCommutes<T>(s: seq<T>, p: T -> bool, q: T -> bool)
    ensures Filter(Filter(s, p), q) == Filter(Filter(s, q), p)
  {
    if s != [] {
      var k := |s| - 1;
      var byP, byQ := Filter(s[..k], p), Filter(s[..k], q);
      FilterCommutes(s[..k], p, q);
      FilterAppend(byP, s[k], q);
      FilterAppend(byQ, s[k], p);
      assert byP + [] == byP && byQ + [] == byQ;
    }
  }

  lemma {:induction false} FilterFacts<T>(s: seq<T>, p: T -> bool)
    ensures forall x :: x in Filter(s, p) <==> x in s && p(x)
  {
    if s != [] {
      FilterFacts(s[..|s| - 1], p);
      assert s == s[..|s| - 1] + [s[|s| - 1]];
    }
  }

  lemma {:induction false} FilterOne<T>(x: T, p: T -> bool)
    ensures Filter([x], p) == if p(x) then [x] else []
  {
    FilterAppend([], x, p);
    assert [] + [x] == [x];
  }

  /** One logged result; then an error and no JSON, or one JSON of the same shard and validity. */
  predicate AccountedFor(logs: seq<LogResult>, jsons: seq<JsonResult>, id: Id) {
    var records, outputs := LogsFor(logs, id), JsonsFor(jsons, id);
    && |records| == 1
    && if records[0].outcome.Error? then outputs == [] else |outputs| == 1 && Paired(outputs[0], records[0])
  }

  /** The three coverage counts together say exactly that a replay is accounted for. */
  lemma {:induction false} ReplayOkMeansAccounted(logs: seq<LogResult>, jsons: seq<JsonResult>, id: Id)
    ensures ReplayOk(logs, jsons, id) <==> AccountedFor(logs, jsons, id)
  {
    var records := LogsFor(logs, id);
    if |records| == 1 {
      assert records == [records[0]];
      FilterOne(records[0], ByOutcome(Error));
      FilterOne(records[0], NotError());
    }
  }

  /** The declared totals of the first n shards, for shards with one summary each. */
  ghost function DeclaredUpTo(shards: seq<ShardFiles>, n: nat): int
    requires n <= |shards|
  {
    if n == 0 then 0
    else
      var summaries := SummariesOf(LinesOf(shards[n - 1]));
      DeclaredUpTo(shards, n - 1) +
      if |summaries| == 1 && summaries[0].total.Some? then summaries[0].total.value else 0
  }

  ghost function DeclaredTotal(shards: seq<ShardFiles>): int {
    DeclaredUpTo(shards, |shards|)
  }

  lemma {:induction false} TotalsAddUp(shards: seq<ShardFiles>, n: nat)
    requires n <= |shards| && forall s :: 0 <= s < n ==> ShardOk(s, shards[s])
    ensures DeclaredUpTo(shards, n) == |LogsUpTo(shards, n)|
  {
    if n > 0 {
      TotalsAddUp(shards, n - 1);
      assert ShardOk(n - 1, shards[n - 1]);
    }
  }

  lemma {:induction false} AccountedOnce(logs: seq<LogResult>, jsons: seq<JsonResult>, id: Id)
    requires AccountedFor(logs, jsons, id)
    ensures multiset(LogIds(logs))[id] == 1
    ensures multiset(OutputIds(logs, jsons))[id] == 1
  {
    var records := LogsFor(logs, id);
    LogMultiplicity(logs, id);
    LogMultiplicity(ErrorsIn(logs), id);
    JsonMultiplicity(jsons, id);
    FilterCommutes(logs, ByOutcome(Error), LogById(id));
    assert records == [records[0]];
    FilterOne(records[0], ByOutcome(Error));
  }

  lemma {:induction false} OutputsInCorpus(corpus: seq<Id>, logs: seq<LogResult>, jsons: seq<JsonResult>)
    requires forall i :: 0 <= i < |logs| ==> logs[i].id in corpus
    requires forall i :: 0 <= i < |jsons| ==> jsons[i].id in corpus
    ensures var outputs := OutputIds(logs, jsons); forall i :: 0 <= i < |outputs| ==> outputs[i] in corpus
  {
    FilterFacts(logs, ByOutcome(Error));
    var errors := ErrorsIn(logs);
    forall i | 0 <= i < |errors|
      ensures errors[i].id in corpus
    {
      assert errors[i] in errors;
    }
  }

  lemma {:induction false} AccountedCounts(corpus: seq<Id>, logs: seq<LogResult>, jsons: seq<JsonResult>)
    requires NoRepeats(corpus)
    requires forall i :: 0 <= i < |jsons| ==> jsons[i].id in corpus
    requires forall i :: 0 <= i < |logs| ==> logs[i].id in corpus
    requires forall i :: 0 <= i < |corpus| ==> AccountedFor(logs, jsons, corpus[i])
    ensures |logs| == |corpus| && |jsons| + |ErrorsIn(logs)| == |corpus|
  {
    var outputs := OutputIds(logs, jsons);
    forall i | 0 <= i < |corpus|
      ensures multiset(LogIds(logs))[corpus[i]] == 1 && multiset(outputs)[corpus[i]] == 1
    {
      AccountedOnce(logs, jsons, corpus[i]);
    }
    OutputsInCorpus(corpus, logs, jsons);
    OneToOne(LogIds(logs), corpus);
    OneToOne(outputs, corpus);
  }

  /** MAIN RESULT.  A report without issues accounts for every corpus replay exactly once: the
      declared totals sum to the corpus, and so do the JSON results plus the logged errors. */
  lemma {:induction false} CleanAuditAccountsForCorpus(corpus: seq<Id>, shards: seq<ShardFiles>)
    requires NoRepeats(corpus) && AllChecks(corpus, shards)
    ensures Accounts(corpus, shards)
  {
    var logs, jsons := AllLogs(shards), AllJsons(shards);
    forall i | 0 <= i < |corpus|
      ensures AccountedFor(logs, jsons, corpus[i])
    {
      assert ReplayOk(logs, jsons, corpus[i]);
      ReplayOkMeansAccounted(logs, jsons, corpus[i]);
    }
    TotalsAddUp(shards, |shards|);
    AccountedCounts(corpus, logs, jsons);
  }

  /** The expected exit code is the severity of the worst outcome of a shard. */
  lemma {:induction false} SeverityIsWorst(results: seq<LogResult>)
    ensures Severity(results) == 2 <==> exists r :: r in results && r.outcome.Error?
    ensures Severity(results) == 0 <==> forall r :: r in results ==> r.outcome.Valid?
    ensures forall code :: code == Severity(results) <==> !WrongExit(code, results)
  {
    FilterFacts(results, ByOutcome(Error));
    FilterFacts(results, ByOutcome(Invalid));
    var errors := Filter(results, ByOutcome(Error));
    var invalids := Filter(results, ByOutcome(Invalid));
    assert errors != [] ==> errors[0] in errors;
    assert invalids != [] ==> invalids[0] in invalids;
  }
}
