/** `FileWatcher` (src/main/fileWatcher.ts): the registry of running directory
    watchers keyed by configuration id, and what one watcher does with the
    events it receives. The directory-watching library is an event source; a
    handle is identified by the serial number it was given when started. */
module FileWatcher {
  import opened Wrappers
  import opened Types
  import Text
  import Optimizer

  // ---------------------------------------------------------------------------
  // The registry

  /** A running watcher: what it was started for. */
  datatype Watcher = Watcher(serial: nat, config: WatchConfig, ratio: Option<Ratio>)

  datatype Entry = Entry(id: string, watcher: Watcher)

  /** The `Map` of watchers in insertion order, and the serial the next handle
      gets. */
  datatype Registry = Registry(entries: seq<Entry>, next: nat)

  const Empty: Registry := Registry([], 0)

  /** The ids of the entries, in the registry's order. */
  function Ids(entries: seq<Entry>): (ids: seq<string>)
    ensures |ids| == |entries|
    ensures forall i :: 0 <= i < |entries| ==> ids[i] == entries[i].id
  {
    seq(|entries|, i requires 0 <= i < |entries| => entries[i].id)
  }

  /** Ids are unique and every handle is older than the next one. */
  predicate Valid(reg: Registry) {
    (forall i, j :: 0 <= i < j < |reg.entries| ==> reg.entries[i].id != reg.entries[j].id)
    && (forall i :: 0 <= i < |reg.entries| ==> reg.entries[i].watcher.serial < reg.next)
  }

  /** `watchers.get(id)` */
  function Get(entries: seq<Entry>, id: string): (w: Option<Watcher>)
    ensures w.None? <==> forall i :: 0 <= i < |entries| ==> entries[i].id != id
    ensures w.Some? ==> Entry(id, w.value) in entries
  {
    if entries == [] then None
    else if entries[0].id == id then Some(entries[0].watcher)
    else Get(entries[1..], id)
  }

  /** `watchers.delete(id)`: every entry but the one for `id`, in order. */
  function Remove(entries: seq<Entry>, id: string): (r: seq<Entry>)
    ensures |r| <= |entries|
    ensures forall e :: e in r <==> e in entries && e.id != id
  {
    if entries == [] then []
    else if entries[0].id == id then Remove(entries[1..], id)
    else [entries[0]] + Remove(entries[1..], id)
  }

  /** `stopWatching(id)`: the registry afterwards and the handle closed, if
      any. */
  function StopWatching(reg: Registry, id: string): (r: (Registry, Option<Watcher>))
    ensures r.1 == Get(reg.entries, id)
    ensures r.1.None? ==> r.0 == reg
    ensures r.0.next == reg.next
  {
    match Get(reg.entries, id)
    case None => (reg, None)
    case Some(w) => (Registry(Remove(reg.entries, id), reg.next), Some(w))
  }

  /** `startWatching(config, resizeRatio)`: a watcher already running for the
      id is stopped first; the new handle is added last. */
  function StartWatching(reg: Registry, config: WatchConfig, ratio: Option<Ratio>): (r: (Registry, Option<Watcher>))
    ensures r.1 == Get(reg.entries, config.id)
    ensures r.0.next == reg.next + 1
  {
    var (stopped, closed) := StopWatching(reg, config.id);
    (Registry(stopped.entries + [Entry(config.id, Watcher(reg.next, config, ratio))], reg.next + 1), closed)
  }

  /** `stopAllWatching()`: every handle is closed, in order. */
  function StopAllWatching(reg: Registry): (r: (Registry, seq<Watcher>))
    ensures r.0.entries == [] && r.0.next == reg.next
    ensures |r.1| == |reg.entries|
    ensures forall i :: 0 <= i < |reg.entries| ==> r.1[i] == reg.entries[i].watcher
  {
    (Registry([], reg.next), Watchers(reg.entries))
  }

  function Watchers(entries: seq<Entry>): (ws: seq<Watcher>)
    ensures |ws| == |entries|
    ensures forall i :: 0 <= i < |entries| ==> ws[i] == entries[i].watcher
  {
    if entries == [] then [] else [entries[0].watcher] + Watchers(entries[1..])
  }

  /** `getActiveWatchers()` */
  function ActiveWatchers(reg: Registry): seq<string> {
    Ids(reg.entries)
  }

  lemma {:induction false} RemoveKeepsOrder(entries: seq<Entry>, id: string)
    ensures Ids(Remove(entries, id)) == Filter(Ids(entries), id)
    decreases |entries|
  {
    if entries != [] {
      var tail := entries[1..];
      RemoveKeepsOrder(tail, id);
      IdsCons(entries[0], tail);
      assert entries == [entries[0]] + tail;
      if entries[0].id != id {
        IdsCons(entries[0], Remove(tail, id));
      }
    }
  }

  lemma IdsCons(e: Entry, rest: seq<Entry>)
    ensures Ids([e] + rest) == [e.id] + Ids(rest)
  {
  }

  /** The ids of a sequence other than `id`, in order. */
  function Filter(ids: seq<string>, id: string): (r: seq<string>)
    ensures forall x :: x in r <==> x in ids && x != id
  {
    if ids == [] then []
    else if ids[0] == id then Filter(ids[1..], id)
    else [ids[0]] + Filter(ids[1..], id)
  }

  lemma {:induction false} FilterAbsent(ids: seq<string>, id: string)
    requires id !in ids
    ensures Filter(ids, id) == ids
    decreases |ids|
  {
    if ids != [] {
      FilterAbsent(ids[1..], id);
      assert [ids[0]] + ids[1..] == ids;
    }
  }

  lemma {:induction false} RemoveUnique(entries: seq<Entry>, id: string)
    requires forall i, j :: 0 <= i < j < |entries| ==> entries[i].id != entries[j].id
    ensures forall i, j :: 0 <= i < j < |Remove(entries, id)| ==> Remove(entries, id)[i].id != Remove(entries, id)[j].id
    decreases |entries|
  {
    if entries != [] {
      RemoveUnique(entries[1..], id);
      var rest := Remove(entries[1..], id);
      if entries[0].id != id {
        forall k | 0 <= k < |rest|
          ensures rest[k].id != entries[0].id
        {
          assert rest[k] in entries[1..];
        }
      }
    }
  }

  /** Stopping keeps the registry valid. */
  lemma StopKeepsValid(reg: Registry, id: string)
    requires Valid(reg)
    ensures Valid(StopWatching(reg, id).0)
  {
    if Get(reg.entries, id).Some? {
      RemoveUnique(reg.entries, id);
      var r := Remove(reg.entries, id);
      forall i | 0 <= i < |r|
        ensures r[i].watcher.serial < reg.next
      {
        assert r[i] in reg.entries;
      }
    }
  }

  /** Stopping removes exactly that id and keeps the others in order; stopping
      an absent id changes nothing. */
  lemma StopRemovesOnlyId(reg: Registry, id: string)
    ensures ActiveWatchers(StopWatching(reg, id).0) == Filter(ActiveWatchers(reg), id)
  {
    RemoveKeepsOrder(reg.entries, id);
    if Get(reg.entries, id).None? {
      assert id !in Ids(reg.entries);
      FilterAbsent(Ids(reg.entries), id);
    }
  }

  lemma {:induction false} GetRemove(entries: seq<Entry>, id: string, other: string)
    requires other != id
    ensures Get(Remove(entries, id), other) == Get(entries, other)
    decreases |entries|
  {
    if entries != [] {
      GetRemove(entries[1..], id, other);
    }
  }

  lemma {:induction false} GetSnoc(entries: seq<Entry>, e: Entry, id: string)
    ensures Get(entries + [e], id) ==
      if Get(entries, id).Some? then Get(entries, id) else if e.id == id then Some(e.watcher) else None
    decreases |entries|
  {
    if entries == [] {
      assert entries + [e] == [e];
    } else {
      assert (entries + [e])[1..] == entries[1..] + [e];
      GetSnoc(entries[1..], e, id);
    }
  }

  /** After a stop the id has no watcher and every other id keeps its own. */
  lemma StopLookup(reg: Registry, id: string, other: string)
    ensures Get(StopWatching(reg, id).0.entries, id).None?
    ensures other != id ==> Get(StopWatching(reg, id).0.entries, other) == Get(reg.entries, other)
  {
    if other != id {
      GetRemove(reg.entries, id, other);
    }
  }

  /** A start keeps the registry valid. */
  lemma StartKeepsValid(reg: Registry, config: WatchConfig, ratio: Option<Ratio>)
    requires Valid(reg)
    ensures Valid(StartWatching(reg, config, ratio).0)
  {
    var stopped := StopWatching(reg, config.id).0;
    StopKeepsValid(reg, config.id);
    StopLookup(reg, config.id, config.id);
    ValidSnoc(stopped, Entry(config.id, Watcher(reg.next, config, ratio)));
  }

  lemma ValidSnoc(reg: Registry, e: Entry)
    requires Valid(reg) && Get(reg.entries, e.id).None? && e.watcher.serial == reg.next
    ensures Valid(Registry(reg.entries + [e], reg.next + 1))
  {
    var entries := reg.entries + [e];
    assert forall i :: 0 <= i < |reg.entries| ==> entries[i] == reg.entries[i];
  }

  /** After a start the id maps to exactly the new watcher and every other id
      keeps its own. */
  lemma StartLookup(reg: Registry, config: WatchConfig, ratio: Option<Ratio>, other: string)
    ensures Get(StartWatching(reg, config, ratio).0.entries, config.id) == Some(Watcher(reg.next, config, ratio))
    ensures other != config.id ==> Get(StartWatching(reg, config, ratio).0.entries, other) == Get(reg.entries, other)
  {
    var stopped := StopWatching(reg, config.id).0;
    var e := Entry(config.id, Watcher(reg.next, config, ratio));
    StopLookup(reg, config.id, other);
    GetSnoc(stopped.entries, e, config.id);
    GetSnoc(stopped.entries, e, other);
  }

  /** The new watcher is listed last, after the other ids in their old
      order. */
  lemma StartListsLast(reg: Registry, config: WatchConfig, ratio: Option<Ratio>)
    ensures ActiveWatchers(StartWatching(reg, config, ratio).0) == Filter(ActiveWatchers(reg), config.id) + [config.id]
  {
    var stopped := StopWatching(reg, config.id).0;
    StopRemovesOnlyId(reg, config.id);
    var entries := stopped.entries + [Entry(config.id, Watcher(reg.next, config, ratio))];
    assert Ids(entries) == Ids(stopped.entries) + [config.id];
  }

  /** After stopping all, nothing is active and every handle was closed. */
  lemma StopAllSpec(reg: Registry)
    requires Valid(reg)
    ensures var (after, closed) := StopAllWatching(reg);
      Valid(after) && ActiveWatchers(after) == [] && |closed| == |ActiveWatchers(reg)|
  {
  }

  // ---------------------------------------------------------------------------
  // Which files are handled

  /** The line terminators a regular-expression `.` does not match. */
  predicate IsLineTerminator(c: char) {
    c == '\n' || c == '\r' || c == '\U{2028}' || c == '\U{2029}'
  }

  /** The `ignored` pattern `(^|[\/\\])\..` matches at `i`: a `.` that starts
      the path or follows a separator, and some character after it. */
  predicate DotEntryAt(path: string, i: int) {
    0 <= i && i + 1 < |path| && path[i] == '.' && !IsLineTerminator(path[i + 1])
    && (i == 0 || path[i - 1] == '/' || path[i - 1] == '\\')
  }

  /** Paths the watcher ignores: some component is a dot-file or dot-directory
      name with at least one more character. */
  predicate Ignored(path: string) {
    exists i | 0 <= i < |path| :: DotEntryAt(path, i)
  }

  /** A left-to-right scan deciding `Ignored`. */
  function ScanIgnored(path: string, i: nat): (r: bool)
    requires i <= |path|
    ensures r <==> exists k | i <= k < |path| :: DotEntryAt(path, k)
    decreases |path| - i
  {
    if i == |path| then false
    else if DotEntryAt(path, i) then true
    else ScanIgnored(path, i + 1)
  }

  /** The scan and the pattern agree on every path. */
  lemma ScanDecidesIgnored(path: string)
    ensures ScanIgnored(path, 0) <==> Ignored(path)
  {
  }

  /** A file inside a dot-directory is ignored, wherever it sits. */
  lemma InsideDotDirectory(dir: string, name: string, rest: string)
    requires |name| > 0 && !IsLineTerminator(name[0])
    ensures Ignored(dir + "/." + name + rest)
  {
    var p := dir + "/." + name + rest;
    assert DotEntryAt(p, |dir| + 1);
  }

  /** A path with no `.` right after a separator or at the start is never
      ignored. */
  lemma PlainPathNotIgnored(path: string)
    requires |path| == 0 || path[0] != '.'
    requires forall i :: 0 < i < |path| && path[i] == '.' ==> path[i - 1] != '/' && path[i - 1] != '\\'
    ensures !Ignored(path)
  {
  }

  /** How `new RegExp(pattern).test(name)` answers: `None` when the pattern is
      not a valid regular expression. */
  type RegexTest = (string, string) -> Option<bool>

  const PngPattern: string := "*.png"

  /** A name whose last four characters, each lower-cased, spell `.png`. */
  predicate PngName(name: string) {
    |name| >= 4 && forall k :: 0 <= k < 4 ==> Text.LowerChar(name[|name| - 4 + k]) == ".png"[k]
  }

  /** `matchesPattern(filePath, pattern)`: only the file's base name is
      tested; the default pattern is a case-insensitive `.png` suffix test,
      any other is a regular expression whose answer is taken, and an invalid
      one matches nothing. */
  function MatchesPattern(filePath: string, pattern: string, test: RegexTest): (r: bool)
    ensures pattern == PngPattern ==> (r <==> PngName(Text.Basename(filePath)))
    ensures pattern != PngPattern && test(pattern, Text.Basename(filePath)).Some? ==>
      r == test(pattern, Text.Basename(filePath)).value
    ensures pattern != PngPattern && test(pattern, Text.Basename(filePath)).None? ==> !r
  {
    var name := Text.Basename(filePath);
    if pattern == PngPattern then Text.EndsWith(Text.Lower(name), ".png")
    else test(pattern, name).GetOr(false)
  }

  /** The default pattern never consults the regular-expression engine. */
  lemma PngPatternIgnoresRegex(filePath: string, t1: RegexTest, t2: RegexTest)
    ensures MatchesPattern(filePath, PngPattern, t1) == MatchesPattern(filePath, PngPattern, t2)
  {
  }

  /** Under `*.png`, a file `dir/name` matches exactly when its name ends in
      `.png` in any letter case. */
  lemma AnyCasePng(dir: string, name: string, test: RegexTest)
    requires |name| > 0 && '/' !in name
    ensures MatchesPattern(dir + "/" + name, PngPattern, test) <==>
      |name| >= 4 && forall k :: 0 <= k < 4 ==> Text.LowerChar(name[|name| - 4 + k]) == ".png"[k]
  {
    BasenameOfJoin(dir, name);
  }

  /** The base name of `dir/name` is `name`. */
  lemma BasenameOfJoin(dir: string, name: string)
    requires |name| > 0 && '/' !in name
    ensures Text.Basename(dir + "/" + name) == name
  {
    var p := dir + "/" + name;
    assert Text.DropTrailing(p, '/') == p;
    AfterLastOfJoin(dir + "/", name);
  }

  lemma {:induction false} AfterLastOfJoin(d: string, name: string)
    requires |d| > 0 && d[|d| - 1] == '/' && '/' !in name
    ensures Text.AfterLast(d + name, '/') == name
    decreases |name|
  {
    if name == [] {
      assert d + name == d;
    } else {
      var front := name[..|name| - 1];
      assert (d + name)[..|d + name| - 1] == d + front;
      AfterLastOfJoin(d, front);
      assert front + [name[|name| - 1]] == name;
    }
  }

  /** Only the base name counts: moving a file to another directory does not
      change whether it matches. */
  lemma DirectoryIrrelevant(d1: string, d2: string, name: string, pattern: string, test: RegexTest)
    requires |name| > 0 && '/' !in name
    ensures MatchesPattern(d1 + "/" + name, pattern, test) == MatchesPattern(d2 + "/" + name, pattern, test)
  {
    BasenameOfJoin(d1, name);
    BasenameOfJoin(d2, name);
  }

  // ---------------------------------------------------------------------------
  // Events

  /** What the watching library reports for a directory: a file added (with
      whether it was already there when watching started) or an error. */
  datatype Event = Added(path: string, initial: bool) | Failed(message: string)

  /** A call of the `onFileProcessed` callback. */
  datatype Callback = Callback(filePath: string, record: ProcessedFile)

  /** Whether an event reaches the add handler's processing step. */
  predicate Handled(ev: Event, pattern: string, test: RegexTest) {
    ev.Added? && !ev.initial && !Ignored(ev.path) && MatchesPattern(ev.path, pattern, test)
  }

  /** The record the handler reports when optimizing rejects. */
  function ErrorRecord(filePath: string, message: string, now: string): (r: ProcessedFile)
    ensures r.filePath == filePath && r.timestamp == now
    ensures r.originalSize == 0 && r.optimizedSize == 0 && !r.success
    ensures r.error == Some(message)
    ensures r.resized.None? && r.originalDimensions.None? && r.resizedDimensions.None?
  {
    ProcessedFile(filePath, 0, 0, now, false, Some(message), None, None, None)
  }

  /** The `add` handler once it has decided to process `path`: the optimizer's
      record, or a failure record built from the rejection. */
  function Process(path: string, outcome: Result<ProcessedFile, string>, now: string): (c: Callback)
    ensures c.filePath == path
    ensures outcome.Success? ==> c.record == outcome.value
    ensures outcome.Failure? ==> c.record == ErrorRecord(path, outcome.error, now)
  {
    match outcome
    case Success(rec) => Callback(path, rec)
    case Failure(e) => Callback(path, ErrorRecord(path, e, now))
  }

  /** One event at a running watcher. `hasCallback` says whether a callback was
      given; `outcome` is how the optimizer settles for this file and `now` the
      time a rejection is reported. Error events are only logged. */
  function OnEvent(w: Watcher, ev: Event, test: RegexTest, hasCallback: bool,
                   outcome: Result<ProcessedFile, string>, now: string): (calls: seq<Callback>)
    ensures |calls| <= 1
    ensures |calls| == 1 <==> hasCallback && Handled(ev, w.config.pattern, test)
    ensures |calls| == 1 ==> calls[0].filePath == ev.path
  {
    if hasCallback && Handled(ev, w.config.pattern, test) then [Process(ev.path, outcome, now)] else []
  }

  /** One file event as the program runs it: the optimizer, with the watcher's
      ratio and the shared tool cache, answers the processing step. */
  datatype Delivery = Delivery(calls: seq<Callback>, cache: Option<string>)

  function DeliverOne(w: Watcher, ev: Event, test: RegexTest, cache: Option<string>,
                      now: string, o: Optimizer.Outcomes): (d: Delivery)
  {
    if ev.Added? && Handled(ev, w.config.pattern, test) then
      var run := Optimizer.OptimizeImage(ev.path, w.ratio, now, cache, o);
      Delivery(OnEvent(w, ev, test, true, Success(run.record), now), run.cache)
    else Delivery([], cache)
  }

  /** Events delivered to one watcher, in order; the tool cache is threaded
      from one optimization to the next. */
  function Deliver(w: Watcher, evs: seq<Event>, test: RegexTest, cache: Option<string>,
                   now: seq<string>, os: seq<Optimizer.Outcomes>): (d: Delivery)
    requires |now| == |evs| && |os| == |evs|
    decreases |evs|
  {
    if evs == [] then Delivery([], cache)
    else
      var first := DeliverOne(w, evs[0], test, cache, now[0], os[0]);
      var rest := Deliver(w, evs[1..], test, first.cache, now[1..], os[1..]);
      Delivery(first.calls + rest.calls, rest.cache)
  }

  function CountHandled(evs: seq<Event>, pattern: string, test: RegexTest): nat {
    if evs == [] then 0 else (if Handled(evs[0], pattern, test) then 1 else 0) + CountHandled(evs[1..], pattern, test)
  }

  /** Every matching new file gets exactly one callback, in event order, whose
      record is the optimizer's; nothing else (errors, pre-existing, ignored or
      non-matching files) produces one. */
  lemma {:induction false} DeliverSpec(w: Watcher, evs: seq<Event>, test: RegexTest, cache: Option<string>,
                                       now: seq<string>, os: seq<Optimizer.Outcomes>)
    requires |now| == |evs| && |os| == |evs|
    ensures |Deliver(w, evs, test, cache, now, os).calls| == CountHandled(evs, w.config.pattern, test)
    ensures forall c :: c in Deliver(w, evs, test, cache, now, os).calls ==>
      (exists i :: 0 <= i < |evs| && evs[i] == Added(c.filePath, false) && Handled(evs[i], w.config.pattern, test))
      && c.record.filePath == c.filePath
    decreases |evs|
  {
    if evs != [] {
      DeliverSpec(w, evs[1..], test, DeliverOne(w, evs[0], test, cache, now[0], os[0]).cache, now[1..], os[1..]);
      var d := Deliver(w, evs, test, cache, now, os);
      var first := DeliverOne(w, evs[0], test, cache, now[0], os[0]);
      var rest := Deliver(w, evs[1..], test, first.cache, now[1..], os[1..]);
      forall c | c in d.calls
        ensures (exists i :: 0 <= i < |evs| && evs[i] == Added(c.filePath, false) && Handled(evs[i], w.config.pattern, test))
          && c.record.filePath == c.filePath
      {
        if c in first.calls {
          assert evs[0] == Added(c.filePath, false);
        } else {
          assert c in rest.calls;
          var i :| 0 <= i < |evs[1..]| && evs[1..][i] == Added(c.filePath, false) && Handled(evs[1..][i], w.config.pattern, test)
            && c.record.filePath == c.filePath;
          assert evs[i + 1] == evs[1..][i];
        }
      }
    }
  }

  /** The handler's failure branch cannot be reached through the optimizer,
      which always settles with a record; the record reported is the
      optimizer's, carrying the watcher's resize ratio. */
  lemma DeliveredRecordIsOptimizers(w: Watcher, path: string, test: RegexTest, cache: Option<string>,
                                    now: string, o: Optimizer.Outcomes)
    requires Handled(Added(path, false), w.config.pattern, test)
    ensures DeliverOne(w, Added(path, false), test, cache, now, o).calls
      == [Callback(path, Optimizer.OptimizeImage(path, w.ratio, now, cache, o).record)]
  {
  }
}
