/** `ImageOptimizer` (src/main/optimizer.ts): the search for the compression
    tool, the per-file pipeline that builds a `ProcessedFile` record, and the
    JSON-lines log it appends to and reads back. Every file-system, image
    library and process call is an injected outcome. */
module Optimizer {
  import opened Wrappers
  import opened Types
  import Text
  import Json

  // ---------------------------------------------------------------------------
  // Finding pngquant

  /** The fixed places probed first, in order. */
  const Candidates: seq<string> := [
    "pngquant",
    "/usr/local/bin/pngquant",
    "/opt/homebrew/bin/pngquant",
    "/usr/bin/pngquant",
    "/usr/local/opt/pngquant/bin/pngquant"
  ]

  /** How the shell answers the three kinds of command the search runs:
      `"<path>" --version` (exits 0 or not), `which pngquant` and
      `brew --prefix pngquant` (standard output, or `None` when the command
      fails). */
  datatype Shell = Shell(runs: string -> bool, which: Option<string>, brewPrefix: Option<string>)

  /** One command the search runs. */
  datatype Probe = Version(path: string) | Which | BrewPrefix

  /** The answer of a search, the cache afterwards and the commands it ran. */
  datatype Search = Search(found: Option<string>, cache: Option<string>, probes: seq<Probe>)

  function Versions(paths: seq<string>): (r: seq<Probe>)
    ensures |r| == |paths|
    ensures forall i :: 0 <= i < |paths| ==> r[i] == Version(paths[i])
  {
    if paths == [] then [] else [Version(paths[0])] + Versions(paths[1..])
  }

  /** `path.join(prefix, 'bin', 'pngquant')` */
  function BrewBinary(prefix: string): string {
    Text.JoinPath(prefix, "bin/pngquant")
  }

  /** Index of the first candidate that runs, or `|paths|`. */
  function FirstRunning(paths: seq<string>, runs: string -> bool): (i: nat)
    ensures i <= |paths|
    ensures i < |paths| ==> runs(paths[i])
    ensures forall j :: 0 <= j < i ==> !runs(paths[j])
  {
    if paths == [] then 0
    else if runs(paths[0]) then 0
    else 1 + FirstRunning(paths[1..], runs)
  }

  /** The trimmed standard output of `which pngquant`, empty when it fails. */
  function WhichOutput(sh: Shell): string {
    if sh.which.Some? then Text.Trim(sh.which.value) else []
  }

  /** The trimmed standard output of `brew --prefix pngquant`, empty when it
      fails. */
  function BrewOutput(sh: Shell): string {
    if sh.brewPrefix.Some? then Text.Trim(sh.brewPrefix.value) else []
  }

  /** `findPngquantPath`: a non-empty cached path is returned at once;
      otherwise the candidates are tried in order, then `which` (whose answer
      is taken without running it), then the Homebrew prefix. A hit is
      cached. */
  function FindPngquantPath(cache: Option<string>, sh: Shell): (s: Search)
    ensures s.found.Some? ==> s.cache == s.found && |s.found.value| > 0
    ensures s.found.None? ==> s.cache == cache
    ensures cache.Some? && |cache.value| > 0 ==> s.found == cache && |s.probes| == 0
  {
    if cache.Some? && cache.value != [] then Search(cache, cache, [])
    else
      var i := FirstRunning(Candidates, sh.runs);
      if i < |Candidates| then
        Search(Some(Candidates[i]), Some(Candidates[i]), Versions(Candidates[..i + 1]))
      else AskShell(cache, sh)
  }

  /** The part of the search after every candidate failed: `which`, then the
      Homebrew prefix. */
  function AskShell(cache: Option<string>, sh: Shell): (s: Search)
    ensures s.found.Some? ==> s.cache == s.found && |s.found.value| > 0
    ensures s.found.None? ==> s.cache == cache
  {
    if WhichOutput(sh) != [] then
      Search(Some(WhichOutput(sh)), Some(WhichOutput(sh)), FullOrder(sh)[..6])
    else if BrewOutput(sh) == [] then
      Search(None, cache, FullOrder(sh)[..7])
    else
      var p := BrewBinary(BrewOutput(sh));
      if sh.runs(p) then Search(Some(p), Some(p), FullOrder(sh))
      else Search(None, cache, FullOrder(sh))
  }

  /** The order in which the search runs its commands when nothing is found
      early: the five candidates, `which`, the Homebrew prefix, the Homebrew
      binary. */
  function FullOrder(sh: Shell): seq<Probe> {
    Versions(Candidates) + [Which, BrewPrefix, Version(BrewBinary(BrewOutput(sh)))]
  }

  lemma {:induction false} VersionsPrefix(paths: seq<string>, k: nat)
    requires k <= |paths|
    ensures Versions(paths[..k]) == Versions(paths)[..k]
  {
  }

  /** The commands a search runs are always a prefix of the fixed order. */
  lemma SearchOrder(cache: Option<string>, sh: Shell)
    ensures var s := FindPngquantPath(cache, sh);
      |s.probes| <= |FullOrder(sh)| && s.probes == FullOrder(sh)[..|s.probes|]
  {
    if !(cache.Some? && cache.value != []) {
      var i := FirstRunning(Candidates, sh.runs);
      if i < |Candidates| {
        CandidatesInOrder(sh, i);
      } else {
        AskShellOrder(cache, sh);
      }
    }
  }

  lemma AskShellOrder(cache: Option<string>, sh: Shell)
    ensures var s := AskShell(cache, sh);
      |s.probes| <= |FullOrder(sh)| && s.probes == FullOrder(sh)[..|s.probes|]
  {
    var n := AskShellProbes(cache, sh);
    OrderPrefix(FullOrder(sh), AskShell(cache, sh).probes, n);
  }

  /** The shell steps run the first six, seven or all eight commands. */
  lemma AskShellProbes(cache: Option<string>, sh: Shell) returns (n: nat)
    ensures n <= |FullOrder(sh)| && AskShell(cache, sh).probes == FullOrder(sh)[..n]
  {
    FullOrderLength(sh);
    if WhichOutput(sh) != [] {
      n := 6;
      WhichProbes(cache, sh);
    } else if BrewOutput(sh) == [] {
      n := 7;
      NoPrefixProbes(cache, sh);
    } else {
      n := 8;
      PrefixProbes(cache, sh);
      assert FullOrder(sh)[..8] == FullOrder(sh);
    }
  }

  lemma WhichProbes(cache: Option<string>, sh: Shell)
    requires WhichOutput(sh) != []
    ensures AskShell(cache, sh).probes == FullOrder(sh)[..6]
  {
  }

  lemma NoPrefixProbes(cache: Option<string>, sh: Shell)
    requires WhichOutput(sh) == [] && BrewOutput(sh) == []
    ensures AskShell(cache, sh).probes == FullOrder(sh)[..7]
  {
  }

  lemma PrefixProbes(cache: Option<string>, sh: Shell)
    requires WhichOutput(sh) == [] && BrewOutput(sh) != []
    ensures AskShell(cache, sh).probes == FullOrder(sh)
  {
  }

  lemma FullOrderLength(sh: Shell)
    ensures |FullOrder(sh)| == 8
  {
  }

  lemma OrderPrefix(f: seq<Probe>, probes: seq<Probe>, n: nat)
    requires n <= |f| && probes == f[..n]
    ensures |probes| <= |f| && probes == f[..|probes|]
  {
  }

  lemma CandidatesInOrder(sh: Shell, i: nat)
    requires i < |Candidates|
    ensures Versions(Candidates[..i + 1]) == FullOrder(sh)[..i + 1]
  {
    VersionsPrefix(Candidates, i + 1);
    assert FullOrder(sh)[..i + 1] == Versions(Candidates)[..i + 1];
  }

  /** The search answers the first candidate that runs, having tried exactly
      the candidates up to it; a candidate is never skipped. */
  lemma FirstCandidateWins(sh: Shell, i: nat)
    requires i < |Candidates| && sh.runs(Candidates[i])
    requires forall j :: 0 <= j < i ==> !sh.runs(Candidates[j])
    ensures FindPngquantPath(None, sh).found == Some(Candidates[i])
    ensures FindPngquantPath(None, sh).probes == Versions(Candidates[..i + 1])
  {
    assert FirstRunning(Candidates, sh.runs) == i;
  }

  /** Once found, the path is cached: the next search answers it again without
      running anything, whatever the shell would now say. */
  lemma CachedSearch(cache: Option<string>, sh: Shell, later: Shell)
    requires FindPngquantPath(cache, sh).found.Some?
    ensures var s := FindPngquantPath(cache, sh);
      FindPngquantPath(s.cache, later) == Search(s.found, s.cache, [])
  {
  }

  /** Nothing found means every probe failed. */
  lemma NotFound(sh: Shell)
    requires FindPngquantPath(None, sh).found.None?
    ensures forall i :: 0 <= i < |Candidates| ==> !sh.runs(Candidates[i])
    ensures WhichOutput(sh) == []
    ensures FindPngquantPath(None, sh).cache.None?
  {
  }

  // ---------------------------------------------------------------------------
  // One file

  const NotFoundMessage: string := "pngquant not found. Please install pngquant using: brew install pngquant"

  /** The outcome of every outside call one run of `optimizeImage` can make.
      `metadata` is what the image library decodes, with 0 for a missing
      width or height; `writeTemp` is writing the resized copy next to the
      file; `compress` is the pngquant run; `appendOk` says whether the log
      append succeeded. */
  datatype Outcomes = Outcomes(
    stat: Result<nat, string>,
    metadata: Result<Dimensions, string>,
    writeTemp: Result<(), string>,
    rename: Result<(), string>,
    shell: Shell,
    compress: Result<(), string>,
    statAfter: Result<nat, string>,
    appendOk: bool)

  /** What `resizeImage` did: nothing (no dimensions), replaced the file, or
      failed; a failure also removes the temporary file. */
  datatype ResizeStep = Skipped | Resized(from: Dimensions, to: Dimensions) | ResizeFailed(message: string)

  /** The image library's `resize` accepts only positive integer sides and
      throws, width first, with this text otherwise. */
  function SizeRejected(target: Dimensions): string {
    if target.width == 0 then "Expected positive integer for width but received 0 of type number"
    else "Expected positive integer for height but received 0 of type number"
  }

  function ResizeImage(ratio: Ratio, o: Outcomes): (step: ResizeStep)
    ensures step.Resized? ==> o.metadata == Success(step.from) && o.writeTemp.Success? && o.rename.Success?
    ensures step.Resized? ==> step.from.width > 0 && step.from.height > 0
    ensures step.Resized? ==> step.to == Dimensions(Scale(step.from.width, ratio), Scale(step.from.height, ratio))
    ensures step.Resized? ==> step.to.width > 0 && step.to.height > 0
    ensures step.Skipped? <==> o.metadata.Success? && (o.metadata.value.width == 0 || o.metadata.value.height == 0)
    ensures o.metadata.Success? && !step.Skipped? && o.writeTemp.Success? && o.rename.Success?
              && Scale(o.metadata.value.width, ratio) > 0 && Scale(o.metadata.value.height, ratio) > 0
            ==> step.Resized?
    ensures o.metadata.Failure? ==> step == ResizeFailed(o.metadata.error)
  {
    match o.metadata
    case Failure(e) => ResizeFailed(e)
    case Success(d) =>
      if d.width == 0 || d.height == 0 then Skipped
      else
        var target := Dimensions(Scale(d.width, ratio), Scale(d.height, ratio));
        if target.width == 0 || target.height == 0 then ResizeFailed(SizeRejected(target))
        else
          match o.writeTemp
          case Failure(e) => ResizeFailed(e)
          case Success(_) =>
            match o.rename
            case Failure(e) => ResizeFailed(e)
            case Success(_) => Resized(d, target)
  }

  /** The effect of a resize step on the record being built. */
  function ApplyResize(r: ProcessedFile, step: ResizeStep): ProcessedFile {
    match step
    case Skipped => r
    case Resized(from, to) => r.(resized := Some(true), originalDimensions := Some(from), resizedDimensions := Some(to))
    case ResizeFailed(e) => r.(error := Some("Resize failed: " + e))
  }

  /** The result of one run: the record, the tool cache afterwards, the log
      lines whose append was attempted, and the tool search (if one ran). */
  datatype Run = Run(record: ProcessedFile, cache: Option<string>, appends: seq<string>, search: Option<Search>)

  function Finish(r: ProcessedFile, cache: Option<string>, search: Option<Search>): Run {
    Run(r, cache, [LogLine(r)], search)
  }

  /** `optimizeImage(filePath, resizeRatio)`. `now` is the ISO text of the
      moment the run starts. */
  function OptimizeImage(filePath: string, ratio: Option<Ratio>, now: string, cache: Option<string>, o: Outcomes): (run: Run)
    ensures run.record.filePath == filePath && run.record.timestamp == now
    ensures run.appends == [LogLine(run.record)]
    ensures run.record.success <==>
      o.stat.Success? && run.search.Some? && run.search.value.found.Some?
      && o.compress.Success? && o.statAfter.Success?
    ensures run.record.success ==> run.record.originalSize == o.stat.value && run.record.optimizedSize == o.statAfter.value
    ensures !run.record.success ==> run.record.optimizedSize == 0
    ensures o.stat.Failure? ==> run.record.error == Some(o.stat.error) && run.search.None?
    ensures run.search.Some? ==> run.search.value == FindPngquantPath(cache, o.shell) && run.cache == run.search.value.cache
    ensures run.search.Some? && run.search.value.found.None? ==> run.record.error == Some(NotFoundMessage)
    ensures ratio.None? ==> run.record.resized.None? && run.record.originalDimensions.None? && run.record.resizedDimensions.None?
    ensures run.record.resized.Some? ==>
      ratio.Some? && o.stat.Success? && ResizeImage(ratio.value, o).Resized?
      && run.record.originalDimensions == Some(ResizeImage(ratio.value, o).from)
      && run.record.resizedDimensions == Some(ResizeImage(ratio.value, o).to)
    ensures ratio.Some? && o.stat.Success? && ResizeImage(ratio.value, o).Resized? ==>
      run.record.resized == Some(true)
      && run.record.originalDimensions == Some(ResizeImage(ratio.value, o).from)
      && run.record.resizedDimensions == Some(ResizeImage(ratio.value, o).to)
    ensures run.record.resized.None? ==> run.record.originalDimensions.None? && run.record.resizedDimensions.None?
    ensures run.search.Some? <==> o.stat.Success?
    ensures run.search.Some? && run.search.value.found.Some? && o.compress.Failure? ==>
      run.record.error == Some(o.compress.error)
    ensures run.search.Some? && run.search.value.found.Some? && o.compress.Success? && o.statAfter.Failure? ==>
      run.record.error == Some(o.statAfter.error)
    ensures run.record.success ==>
      run.record.error == (if ratio.Some? && ResizeImage(ratio.value, o).ResizeFailed?
        then Some("Resize failed: " + ResizeImage(ratio.value, o).message) else None)
  {
    var base := ProcessedFile(filePath, 0, 0, now, false, None, None, None, None);
    match o.stat
    case Failure(e) => Finish(base.(error := Some(e)), cache, None)
    case Success(size) =>
      var r1 := base.(originalSize := size);
      var r2 := if ratio.Some? then ApplyResize(r1, ResizeImage(ratio.value, o)) else r1;
      var search := FindPngquantPath(cache, o.shell);
      if search.found.None? then Finish(r2.(error := Some(NotFoundMessage)), search.cache, Some(search))
      else
        match o.compress
        case Failure(e) => Finish(r2.(error := Some(e)), search.cache, Some(search))
        case Success(_) =>
          match o.statAfter
          case Failure(e) => Finish(r2.(error := Some(e)), search.cache, Some(search))
          case Success(after) => Finish(r2.(optimizedSize := after, success := true), search.cache, Some(search))
  }

  /** A failed resize does not stop compression: the record can be a success
      that still carries the resize error. */
  lemma ResizeFailureIsNotFatal(filePath: string, ratio: Ratio, now: string, cache: Option<string>, o: Outcomes)
    requires o.stat.Success? && ResizeImage(ratio, o).ResizeFailed?
    requires FindPngquantPath(cache, o.shell).found.Some? && o.compress.Success? && o.statAfter.Success?
    ensures var run := OptimizeImage(filePath, Some(ratio), now, cache, o);
      run.record.success && run.record.error == Some("Resize failed: " + ResizeImage(ratio, o).message)
  {
  }

  /** The log file after an append: created when missing, unchanged when the
      write fails. */
  function AppendLog(log: Option<string>, line: string, ok: bool): (r: Option<string>)
    ensures !ok ==> r == log
    ensures ok ==> r.Some? && r.value == log.GetOr([]) + line
  {
    if !ok then log else Some(log.GetOr([]) + line)
  }

  // ---------------------------------------------------------------------------
  // The log

  /** The object `logProcessedFile` serializes. The resize fields are not part
      of it, and `error` is left out when there is none. */
  function LogEntry(r: ProcessedFile): (j: Json.Json)
    ensures j.JObject?
  {
    Json.JObject([
      Json.Member("timestamp", Json.JString(r.timestamp)),
      Json.Member("filePath", Json.JString(r.filePath)),
      Json.Member("originalSize", Json.JNumber(Text.NatToString(r.originalSize))),
      Json.Member("optimizedSize", Json.JNumber(Text.NatToString(r.optimizedSize))),
      Json.Member("success", Json.JBool(r.success))
    ] + (if r.error.Some? then [Json.Member("error", Json.JString(r.error.value))] else []))
  }

  function LogLine(r: ProcessedFile): string {
    Json.Serialize(LogEntry(r)) + "\n"
  }

  /** A field written once is read back as written. */
  lemma FieldAt(r: ProcessedFile, i: nat)
    requires i < 5
    ensures Json.Get(LogEntry(r), LogEntry(r).members[i].key) == Some(LogEntry(r).members[i].value)
  {
    Json.LookupUnique(LogEntry(r).members, LogEntry(r).members[i].key, i);
  }

  lemma LogEntryFields(r: ProcessedFile)
    ensures Json.Get(LogEntry(r), "timestamp") == Some(Json.JString(r.timestamp))
    ensures Json.Get(LogEntry(r), "filePath") == Some(Json.JString(r.filePath))
    ensures Json.Get(LogEntry(r), "originalSize") == Some(Json.JNumber(Text.NatToString(r.originalSize)))
    ensures Json.Get(LogEntry(r), "optimizedSize") == Some(Json.JNumber(Text.NatToString(r.optimizedSize)))
    ensures Json.Get(LogEntry(r), "success") == Some(Json.JBool(r.success))
  {
    FieldAt(r, 0);
    FieldAt(r, 1);
    FieldAt(r, 2);
    FieldAt(r, 3);
    FieldAt(r, 4);
  }

  /** The error is read back exactly when the record has one; the resize
      fields are never logged. */
  lemma LogEntryOptionalFields(r: ProcessedFile)
    ensures Json.Get(LogEntry(r), "error") == (if r.error.Some? then Some(Json.JString(r.error.value)) else None)
    ensures Json.Get(LogEntry(r), "resized") == None
    ensures Json.Get(LogEntry(r), "originalDimensions") == None
    ensures Json.Get(LogEntry(r), "resizedDimensions") == None
  {
    if r.error.Some? {
      Json.LookupUnique(LogEntry(r).members, "error", 5);
    }
  }

  /** Where `slice(start)` begins on an array of length `n`. */
  function SliceStart(n: nat, start: int): (k: nat)
    ensures k <= n
  {
    if start < 0 then (if n + start < 0 then 0 else n + start)
    else if start > n then n else start
  }

  /** `xs.slice(start)` for an array. */
  function Slice<T>(xs: seq<T>, start: int): (r: seq<T>)
    ensures start <= -|xs| ==> r == xs
    ensures -|xs| <= start < 0 ==> r == xs[|xs| + start..]
    ensures 0 <= start <= |xs| ==> r == xs[start..]
    ensures start >= |xs| ==> r == []
  {
    xs[SliceStart(|xs|, start)..]
  }

  /** `slice(-limit)` keeps the last `limit` lines, all lines when `limit` is 0
      or at least their number, and drops the first `-limit` lines when
      `limit` is negative. */
  lemma SliceKeepsLast<T>(xs: seq<T>, limit: int)
    ensures 0 < limit <= |xs| ==> Slice(xs, -limit) == xs[|xs| - limit..] && |Slice(xs, -limit)| == limit
    ensures limit == 0 || limit >= |xs| ==> Slice(xs, -limit) == xs
    ensures limit < 0 ==> Slice(xs, -limit) == if -limit >= |xs| then [] else xs[-limit..]
  {
  }

  function NonEmpty(lines: seq<string>): (r: seq<string>)
    ensures forall i :: 0 <= i < |r| ==> r[i] != []
    ensures (forall i :: 0 <= i < |lines| ==> lines[i] != []) ==> r == lines
  {
    if lines == [] then []
    else if lines[0] == [] then NonEmpty(lines[1..])
    else [lines[0]] + NonEmpty(lines[1..])
  }

  /** The non-empty lines of the trimmed log. */
  function LogLines(content: string): seq<string> {
    NonEmpty(Text.Split(Text.Trim(content), '\n'))
  }

  /** `JSON.parse` of every line, then the property read of `timestamp`;
      `None` as soon as one line does not parse or parses to `null`. */
  function ParseLines(lines: seq<string>): (r: Option<seq<Json.Json>>)
    ensures r.Some? ==> |r.value| == |lines|
    ensures r.Some? ==> forall i :: 0 <= i < |lines| ==> Json.Parse(lines[i]) == Wrappers.Success(r.value[i]) && r.value[i] != Json.JNull
    ensures r.None? ==> exists i :: 0 <= i < |lines| && (Json.Parse(lines[i]).Failure? || Json.Parse(lines[i]) == Wrappers.Success(Json.JNull))
  {
    if lines == [] then Some([])
    else
      match Json.Parse(lines[0])
      case Failure(_) => None
      case Success(v) =>
        if v == Json.JNull then None
        else
          match ParseLines(lines[1..])
          case None => None
          case Some(vs) => Some([v] + vs)
  }

  function Reverse<T>(xs: seq<T>): (r: seq<T>)
    ensures |r| == |xs|
    ensures forall i :: 0 <= i < |xs| ==> r[i] == xs[|xs| - 1 - i]
  {
    if xs == [] then [] else Reverse(xs[1..]) + [xs[0]]
  }

  /** `getProcessedFiles(limit)`: the last `limit` records, newest first, or
      nothing at all when the log cannot be read or any kept line is bad. */
  function GetProcessedFiles(log: Option<string>, limit: int): (r: seq<Json.Json>)
    ensures log.None? ==> r == []
  {
    if log.None? then []
    else
      match ParseLines(Slice(LogLines(log.value), -limit))
      case None => []
      case Some(vs) => Reverse(vs)
  }

  lemma {:induction false} ReverseReverse<T>(xs: seq<T>)
    ensures Reverse(Reverse(xs)) == xs
  {
    var r := Reverse(Reverse(xs));
    assert forall i :: 0 <= i < |xs| ==> r[i] == Reverse(xs)[|xs| - 1 - i];
  }

  /** A non-empty answer is the parse of every kept line, newest first: read
      back to front it is what `ParseLines` gives for the kept lines. */
  lemma ProcessedFilesParsed(log: string, limit: int)
    ensures var r := GetProcessedFiles(Some(log), limit);
      r != [] ==> ParseLines(Slice(LogLines(log), -limit)) == Some(Reverse(r))
  {
    var parsed := ParseLines(Slice(LogLines(log), -limit));
    if parsed.Some? {
      ReverseReverse(parsed.value);
    }
  }

  /** One bad line among the kept ones empties the whole answer. */
  lemma BadLineEmptiesRead(log: string, limit: int, i: nat)
    requires var kept := Slice(LogLines(log), -limit); i < |kept| && Json.Parse(kept[i]).Failure?
    ensures GetProcessedFiles(Some(log), limit) == []
  {
  }

  /** The default limit of `getProcessedFiles`. */
  const DefaultLimit: int := 100

  // ---------------------------------------------------------------------------
  // Reading back what was written

  /** A log holding the given objects, one per line, in order. */
  function Document(es: seq<Json.Json>): string
    decreases |es|
  {
    if es == [] then [] else Document(es[..|es| - 1]) + Json.Serialize(es[|es| - 1]) + "\n"
  }

  /** The log after the records were appended in order, each by a successful
      write. */
  function LogText(rs: seq<ProcessedFile>): string {
    Document(Entries(rs))
  }

  function Entries(rs: seq<ProcessedFile>): (es: seq<Json.Json>)
    ensures |es| == |rs|
    ensures forall i :: 0 <= i < |rs| ==> es[i] == LogEntry(rs[i])
  {
    if rs == [] then [] else [LogEntry(rs[0])] + Entries(rs[1..])
  }

  lemma DocumentSnoc(es: seq<Json.Json>, e: Json.Json)
    ensures Document(es + [e]) == Document(es) + Json.Serialize(e) + "\n"
  {
    assert (es + [e])[..|es|] == es;
  }

  /** Appending a record's line to the log of earlier records gives the log of
      all of them; the first append creates the file. */
  lemma AppendExtendsLog(rs: seq<ProcessedFile>, r: ProcessedFile)
    ensures AppendLog(if rs == [] then None else Some(LogText(rs)), LogLine(r), true) == Some(LogText(rs + [r]))
  {
    EntriesSnoc(rs, r);
    AppendDocument(Entries(rs), LogEntry(r));
  }

  lemma AppendDocument(es: seq<Json.Json>, e: Json.Json)
    ensures AppendLog(if es == [] then None else Some(Document(es)), Json.Serialize(e) + "\n", true) == Some(Document(es + [e]))
  {
    DocumentSnoc(es, e);
    var line := Json.Serialize(e) + "\n";
    assert Document(es) + Json.Serialize(e) + "\n" == Document(es) + line;
    if es == [] {
      assert Document(es) + line == line;
    }
  }

  lemma EntriesSnoc(rs: seq<ProcessedFile>, r: ProcessedFile)
    ensures Entries(rs + [r]) == Entries(rs) + [LogEntry(r)]
  {
  }

  /** The values the log holds: canonical objects. */
  predicate Loggable(es: seq<Json.Json>) {
    forall i :: 0 <= i < |es| ==> es[i].JObject? && Json.Canonical(es[i])
  }

  lemma LogEntryCanonical(r: ProcessedFile)
    ensures Json.Canonical(LogEntry(r))
  {
    var ms := LogEntry(r).members;
    assert forall i :: 0 <= i < |ms| ==> Json.Canonical(ms[i].value);
  }

  lemma EntriesLoggable(rs: seq<ProcessedFile>)
    ensures Loggable(Entries(rs))
  {
    forall i | 0 <= i < |rs|
      ensures Json.Canonical(LogEntry(rs[i]))
    {
      LogEntryCanonical(rs[i]);
    }
  }

  function SerializeAll(es: seq<Json.Json>): (ls: seq<string>)
    ensures |ls| == |es|
    ensures forall i :: 0 <= i < |es| ==> ls[i] == Json.Serialize(es[i])
  {
    if es == [] then [] else [Json.Serialize(es[0])] + SerializeAll(es[1..])
  }

  /** The line of a logged object starts with `{`, ends with `}` and holds no
      line break. */
  lemma LineShape(e: Json.Json)
    requires e.JObject? && Json.Canonical(e)
    ensures var l := Json.Serialize(e);
      |l| > 1 && l[0] == '{' && l[|l| - 1] == '}' && '\n' !in l
  {
    Json.SerializeNoControl(e);
  }

  lemma {:induction false} DocumentJoin(es: seq<Json.Json>)
    requires |es| >= 1
    ensures Document(es) == Text.Join(SerializeAll(es), '\n') + "\n"
    decreases |es|
  {
    var n := |es|;
    var front, x := es[..n - 1], Json.Serialize(es[n - 1]);
    assert Document(es) == Document(front) + x + "\n";
    if n > 1 {
      DocumentJoin(front);
      var lines := SerializeAll(front);
      assert SerializeAll(es) == lines + [x];
      Text.JoinSnoc(lines, '\n', x);
      assert Document(front) + x + "\n" == Text.Join(lines, '\n') + "\n" + x + "\n";
    } else {
      assert front == [];
      assert SerializeAll(es) == [x];
    }
  }

  /** The kept lines of a log are the lines of the objects it holds. */
  lemma {:induction false} LogLinesOfDocument(es: seq<Json.Json>)
    requires Loggable(es)
    ensures LogLines(Document(es)) == SerializeAll(es)
  {
    if |es| > 0 {
      var ls := SerializeAll(es);
      forall i | 0 <= i < |es|
        ensures |ls[i]| > 1 && ls[i][0] == '{' && ls[i][|ls[i]| - 1] == '}' && '\n' !in ls[i]
      {
        LineShape(es[i]);
      }
      DocumentJoin(es);
      Text.JoinEnds(ls, '\n');
      Text.TrimLine(Text.Join(ls, '\n'));
      Text.SplitJoin(ls, '\n');
    } else {
      assert Text.Split([], '\n') == [[]];
    }
  }

  lemma {:induction false} ParseLinesOfSerialized(es: seq<Json.Json>)
    requires Loggable(es)
    ensures ParseLines(SerializeAll(es)) == Some(es)
    decreases |es|
  {
    if es != [] {
      Json.ParseOfSerialize(es[0]);
      ParseLinesOfSerialized(es[1..]);
      assert SerializeAll(es)[1..] == SerializeAll(es[1..]);
      assert [es[0]] + es[1..] == es;
    }
  }

  /** Reading a log of objects gives back the last `limit` of them, newest
      first. */
  lemma {:induction false} ReadBackDocument(es: seq<Json.Json>, limit: int)
    requires Loggable(es)
    ensures GetProcessedFiles(Some(Document(es)), limit) == Reverse(Slice(es, -limit))
  {
    LogLinesOfDocument(es);
    var k := SliceStart(|es|, -limit);
    SerializeAllFrom(es, k);
    ParseLinesOfSerialized(es[k..]);
  }

  lemma SerializeAllFrom(es: seq<Json.Json>, k: nat)
    requires k <= |es|
    ensures SerializeAll(es)[k..] == SerializeAll(es[k..])
  {
  }

  /** Reading a log the program wrote gives back the logged objects of the
      last `limit` records, newest first. */
  lemma ReadBackLog(rs: seq<ProcessedFile>, limit: int)
    ensures GetProcessedFiles(Some(LogText(rs)), limit) == Reverse(Slice(Entries(rs), -limit))
  {
    EntriesLoggable(rs);
    ReadBackDocument(Entries(rs), limit);
  }

  /** With a positive limit the newest record comes first. */
  lemma NewestFirst(rs: seq<ProcessedFile>, limit: int)
    requires |rs| > 0 && limit > 0
    ensures |GetProcessedFiles(Some(LogText(rs)), limit)| == if limit < |rs| then limit else |rs|
    ensures GetProcessedFiles(Some(LogText(rs)), limit)[0] == LogEntry(rs[|rs| - 1])
  {
    ReadBackLog(rs, limit);
  }
}
