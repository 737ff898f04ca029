/** The polling directory watcher (`FileWatcher`): the last modification time
    recorded per path, a registry of event handlers, and the scan that compares
    a directory listing with the record and fires `add`, `change`, `unlink`
    and `error`. */
module FileWatcher {
  import opened Optional

  /** One entry of a directory listing, its `mtime` already in milliseconds. */
  datatype FileInfo = FileInfo(path: string, mtime: int)

  /** One entry of the `lastChecked` map; the sequence keeps the map's insertion order. */
  datatype Entry = Entry(path: string, time: int)

  /** Stands for one handler function; equal ids are the same function object. */
  type HandlerId = nat

  /** What a handler receives: the listed file, `{ path }` of a removed file, or the error. */
  datatype Payload = FileData(file: FileInfo) | PathData(path: string) | ErrorData

  /** An event about to be triggered. */
  datatype Fired = Fired(event: string, data: Payload)

  /** One awaited handler invocation. */
  datatype Call = Call(handler: HandlerId, event: string, data: Payload)

  /** The answer of `getDirectoryContents`: the listing, or a rejected request. */
  datatype Listing = ListingFailed | Listed(files: seq<FileInfo>)

  /** The calls `trigger` made, and whether the last of them threw. */
  datatype Delivery = Delivery(calls: seq<Call>, threw: bool)

  /** The state of a scan under way: the record, the calls so far, and whether one threw. */
  datatype Outcome = Outcome(entries: seq<Entry>, calls: seq<Call>, threw: bool)

  /** What one `scanDirectory` leaves: the record, every call made, and whether the
      returned promise rejected (an `error` handler threw). */
  datatype ScanResult = ScanResult(entries: seq<Entry>, calls: seq<Call>, rejected: bool)

  const AddEvent: string := "add"
  const ChangeEvent: string := "change"
  const UnlinkEvent: string := "unlink"
  const ErrorEvent: string := "error"

  /** The polling interval when the options give none, in milliseconds. */
  const DefaultInterval: int := 5000

  // ----- the record as a JavaScript Map -----

  /** The record read as a map from path to time (`lastChecked.has` / `get`). */
  function View(entries: seq<Entry>): map<string, int>
  {
    if entries == [] then map[]
    else View(entries[1..])[entries[0].path := entries[0].time]
  }

  function Paths(entries: seq<Entry>): (r: seq<string>)
    ensures |r| == |entries| && forall k :: 0 <= k < |entries| ==> r[k] == entries[k].path
  {
    seq(|entries|, k requires 0 <= k < |entries| => entries[k].path)
  }

  predicate DistinctPaths(entries: seq<Entry>) {
    forall i, j :: 0 <= i < j < |entries| ==> entries[i].path != entries[j].path
  }

  /** The paths of the view are the paths of the entries. */
  lemma {:induction false} ViewKeys(entries: seq<Entry>)
    ensures forall p :: p in View(entries) <==> exists k :: 0 <= k < |entries| && entries[k].path == p
  {
    if entries != [] {
      ViewKeys(entries[1..]);
      forall p ensures p in View(entries) <==> exists k :: 0 <= k < |entries| && entries[k].path == p {
        if p in View(entries) && p != entries[0].path {
          assert p in View(entries[1..]);
          var k :| 0 <= k < |entries[1..]| && entries[1..][k].path == p;
          assert entries[k + 1].path == p;
        }
        if exists k :: 0 <= k < |entries| && entries[k].path == p {
          var k :| 0 <= k < |entries| && entries[k].path == p;
          if k > 0 {
            assert entries[1..][k - 1].path == p;
          }
        }
      }
    }
  }

  /** `lastChecked.set(path, t)`: a known path keeps its position, a new one goes last. */
  function SetTime(entries: seq<Entry>, path: string, t: int): (r: seq<Entry>)
    ensures path in View(entries) ==> |r| == |entries| && forall k :: 0 <= k < |r| ==> r[k].path == entries[k].path
    ensures path !in View(entries) ==> r == entries + [Entry(path, t)]
  {
    if entries == [] then [Entry(path, t)]
    else if entries[0].path == path then [Entry(path, t)] + entries[1..]
    else
      assert [entries[0]] + (entries[1..] + [Entry(path, t)]) == entries + [Entry(path, t)];
      [entries[0]] + SetTime(entries[1..], path, t)
  }

  /** Seen as a map, `set` updates one key. */
  lemma {:induction false} SetTimeView(entries: seq<Entry>, path: string, t: int)
    ensures View(SetTime(entries, path, t)) == View(entries)[path := t]
    decreases |entries|
  {
    if entries != [] && entries[0].path != path {
      var rest := SetTime(entries[1..], path, t);
      SetTimeView(entries[1..], path, t);
      assert ([entries[0]] + rest)[1..] == rest;
    } else if entries != [] {
      assert ([Entry(path, t)] + entries[1..])[1..] == entries[1..];
    }
  }

  /** `lastChecked.delete(path)` */
  function Delete(entries: seq<Entry>, path: string): (r: seq<Entry>)
    ensures |r| <= |entries|
  {
    if entries == [] then []
    else if entries[0].path == path then Delete(entries[1..], path)
    else [entries[0]] + Delete(entries[1..], path)
  }

  /** Seen as a map, `delete` removes one key. */
  lemma {:induction false} DeleteView(entries: seq<Entry>, path: string)
    ensures View(Delete(entries, path)) == View(entries) - {path}
    decreases |entries|
  {
    if entries != [] {
      DeleteView(entries[1..], path);
      if entries[0].path != path {
        var rest := Delete(entries[1..], path);
        assert ([entries[0]] + rest)[1..] == rest;
      }
    }
  }

  /** `delete` keeps only entries that were there, and none for `path`. */
  lemma {:induction false} DeleteKeeps(entries: seq<Entry>, path: string)
    ensures forall k :: 0 <= k < |Delete(entries, path)| ==>
      Delete(entries, path)[k] in entries && Delete(entries, path)[k].path != path
    decreases |entries|
  {
    if entries != [] {
      DeleteKeeps(entries[1..], path);
      var rest := Delete(entries[1..], path);
      if entries[0].path != path {
        forall k | 0 <= k < |[entries[0]] + rest| ensures ([entries[0]] + rest)[k] in entries {
          if k > 0 {
            assert ([entries[0]] + rest)[k] == rest[k - 1];
            assert rest[k - 1] in entries[1..];
          }
        }
      } else {
        forall k | 0 <= k < |rest| ensures rest[k] in entries {
          assert rest[k] in entries[1..];
        }
      }
    }
  }

  lemma SetTimeDistinct(entries: seq<Entry>, path: string, t: int)
    requires DistinctPaths(entries)
    ensures DistinctPaths(SetTime(entries, path, t))
  {
    var r := SetTime(entries, path, t);
    if path !in View(entries) {
      ViewKeys(entries);
      forall i, j | 0 <= i < j < |r| ensures r[i].path != r[j].path {
        if j == |entries| {
          assert r[i] == entries[i];
        }
      }
    }
  }

  lemma {:induction false} DeleteDistinct(entries: seq<Entry>, path: string)
    requires DistinctPaths(entries)
    ensures DistinctPaths(Delete(entries, path))
  {
    if entries != [] {
      assert DistinctPaths(entries[1..]) by {
        forall i, j | 0 <= i < j < |entries[1..]| ensures entries[1..][i].path != entries[1..][j].path {
          assert entries[1..][i] == entries[i + 1] && entries[1..][j] == entries[j + 1];
        }
      }
      DeleteDistinct(entries[1..], path);
      DeleteKeeps(entries[1..], path);
      if entries[0].path != path {
        var rest := Delete(entries[1..], path);
        var r := [entries[0]] + rest;
        forall i, j | 0 <= i < j < |r| ensures r[i].path != r[j].path {
          if i == 0 {
            assert r[j] == rest[j - 1] && rest[j - 1] in entries[1..];
            var k :| 0 <= k < |entries[1..]| && entries[1..][k] == rest[j - 1];
            assert entries[k + 1] == rest[j - 1];
          } else {
            assert r[i] == rest[i - 1] && r[j] == rest[j - 1];
          }
        }
      }
    }
  }

  // ----- the handler registry -----

  predicate Distinct(hs: seq<HandlerId>) {
    forall i, j :: 0 <= i < j < |hs| ==> hs[i] != hs[j]
  }

  /** `handlers.get(event)`, with a missing set read as empty. */
  function HandlersFor(handlers: map<string, seq<HandlerId>>, event: string): seq<HandlerId> {
    if event in handlers then handlers[event] else []
  }

  /** `Set.prototype.add`: a handler already present keeps its place and is not added twice. */
  function AddOnce(hs: seq<HandlerId>, h: HandlerId): (r: seq<HandlerId>)
    ensures forall x :: x in r <==> x in hs || x == h
    ensures Distinct(hs) ==> Distinct(r)
    ensures h in hs ==> r == hs
    ensures h !in hs ==> |r| == |hs| + 1 && r[..|hs|] == hs
  {
    if h in hs then hs else hs + [h]
  }

  /** `Set.prototype.delete`: only `h` goes, the others keep their order. */
  function Remove(hs: seq<HandlerId>, h: HandlerId): (r: seq<HandlerId>)
    ensures forall x :: x in r <==> x in hs && x != h
    ensures Distinct(hs) ==> Distinct(r)
    ensures h !in hs ==> r == hs
  {
    if hs == [] then []
    else if hs[0] == h then Remove(hs[1..], h)
    else
      var rest := Remove(hs[1..], h);
      assert Distinct(hs) ==> Distinct([hs[0]] + rest) by {
        if Distinct(hs) {
          assert hs[0] !in hs[1..];
          forall i, j | 0 <= i < j < |[hs[0]] + rest| ensures ([hs[0]] + rest)[i] != ([hs[0]] + rest)[j] {
            if i > 0 {
              assert ([hs[0]] + rest)[i] == rest[i - 1];
            }
            assert ([hs[0]] + rest)[j] == rest[j - 1];
          }
        }
      }
      [hs[0]] + rest
  }

  /** Registering the same handler twice counts once. */
  lemma AddOnceIdempotent(hs: seq<HandlerId>, h: HandlerId)
    ensures AddOnce(AddOnce(hs, h), h) == AddOnce(hs, h)
  {
    assert h in AddOnce(hs, h);
  }

  /** Removing a handler undoes registering it when it was not registered before. */
  lemma RemoveAddOnce(hs: seq<HandlerId>, h: HandlerId)
    requires h !in hs
    ensures Remove(AddOnce(hs, h), h) == hs
  {
    RemoveLast(hs, h);
  }

  lemma {:induction false} RemoveLast(hs: seq<HandlerId>, h: HandlerId)
    requires h !in hs
    ensures Remove(hs + [h], h) == hs
    decreases |hs|
  {
    var t := hs + [h];
    if hs == [] {
      assert t[1..] == [];
    } else {
      assert t[0] == hs[0] && t[1..] == hs[1..] + [h];
      RemoveLast(hs[1..], h);
    }
  }

  /** `trigger(event, data)` over handlers `hs`: each is awaited in order, and the
      first one that throws ends the loop and makes `trigger` reject. */
  function Deliver(hs: seq<HandlerId>, fired: Fired, failing: set<HandlerId>): Delivery
    decreases |hs|
  {
    if hs == [] then Delivery([], false)
    else
      var c := Call(hs[0], fired.event, fired.data);
      if hs[0] in failing then Delivery([c], true)
      else
        var rest := Deliver(hs[1..], fired, failing);
        Delivery([c] + rest.calls, rest.threw)
  }

  /** The handlers are called in registration order; `trigger` rejects exactly
      when one of them throws, and then the thrower is the last one called. */
  lemma {:induction false} DeliverOrder(hs: seq<HandlerId>, fired: Fired, failing: set<HandlerId>)
    ensures var d := Deliver(hs, fired, failing);
      && |d.calls| <= |hs|
      && (forall k :: 0 <= k < |d.calls| ==> d.calls[k] == Call(hs[k], fired.event, fired.data))
      && (d.threw <==> exists k :: 0 <= k < |hs| && hs[k] in failing)
      && (!d.threw ==> |d.calls| == |hs|)
      && (d.threw ==> (|d.calls| >= 1 && hs[|d.calls| - 1] in failing
                       && forall k :: 0 <= k < |d.calls| - 1 ==> hs[k] !in failing))
    decreases |hs|
  {
    if hs != [] && hs[0] !in failing {
      DeliverOrder(hs[1..], fired, failing);
      var rest := Deliver(hs[1..], fired, failing);
      var d := Deliver(hs, fired, failing);
      assert forall k :: 1 <= k < |d.calls| ==> d.calls[k] == rest.calls[k - 1];
      if exists k :: 0 <= k < |hs| && hs[k] in failing {
        var k :| 0 <= k < |hs| && hs[k] in failing;
        assert hs[1..][k - 1] == hs[k];
      }
      if exists k :: 0 <= k < |hs[1..]| && hs[1..][k] in failing {
        var k :| 0 <= k < |hs[1..]| && hs[1..][k] in failing;
        assert hs[k + 1] == hs[1..][k];
      }
    }
  }

  /** Triggering `fired` with the registry `handlers`. */
  function Fire(handlers: map<string, seq<HandlerId>>, fired: Fired, failing: set<HandlerId>): Delivery {
    Deliver(HandlersFor(handlers, fired.event), fired, failing)
  }

  /** No registered handler throws. */
  predicate Quiet(handlers: map<string, seq<HandlerId>>, failing: set<HandlerId>) {
    forall e :: e in handlers ==> forall k :: 0 <= k < |handlers[e]| ==> handlers[e][k] !in failing
  }

  /** Every handler of the event, called once each, in registration order. */
  function AllCalls(hs: seq<HandlerId>, fired: Fired): (r: seq<Call>)
    ensures |r| == |hs| && forall k :: 0 <= k < |hs| ==> r[k] == Call(hs[k], fired.event, fired.data)
  {
    seq(|hs|, k requires 0 <= k < |hs| => Call(hs[k], fired.event, fired.data))
  }

  /** With no throwing handler, an event reaches every handler registered for it. */
  lemma FireQuiet(handlers: map<string, seq<HandlerId>>, fired: Fired, failing: set<HandlerId>)
    requires Quiet(handlers, failing)
    ensures Fire(handlers, fired, failing) == Delivery(AllCalls(HandlersFor(handlers, fired.event), fired), false)
  {
    var hs := HandlersFor(handlers, fired.event);
    var d := Fire(handlers, fired, failing);
    DeliverOrder(hs, fired, failing);
    assert !d.threw;
    assert d.calls == AllCalls(hs, fired);
  }

  /** The calls a sequence of events makes when no handler throws. */
  function CallsFor(handlers: map<string, seq<HandlerId>>, events: seq<Fired>): seq<Call>
    decreases |events|
  {
    if events == [] then []
    else CallsFor(handlers, events[..|events| - 1])
         + AllCalls(HandlersFor(handlers, events[|events| - 1].event), events[|events| - 1])
  }

  lemma {:induction false} CallsForAppend(handlers: map<string, seq<HandlerId>>, a: seq<Fired>, b: seq<Fired>)
    ensures CallsFor(handlers, a + b) == CallsFor(handlers, a) + CallsFor(handlers, b)
    decreases |b|
  {
    if b == [] {
      assert a + b == a;
    } else {
      var b0 := b[..|b| - 1];
      assert (a + b)[..|a + b| - 1] == a + b0;
      assert (a + b)[|a + b| - 1] == b[|b| - 1];
      CallsForAppend(handlers, a, b0);
    }
  }

  // ----- one scan -----

  /** `files.some(f => f.path === path)` */
  predicate IsListed(files: seq<FileInfo>, path: string) {
    exists k | 0 <= k < |files| :: files[k].path == path
  }

  /** The event a listed file fires against the record `view`: `add` for a path
      not recorded, `change` for a strictly later time, nothing otherwise. */
  function Decide(view: map<string, int>, f: FileInfo): (r: seq<Fired>)
    ensures |r| <= 1
    ensures f.path !in view <==> r == [Fired(AddEvent, FileData(f))]
    ensures r == [Fired(ChangeEvent, FileData(f))] <==> f.path in view && f.mtime > view[f.path]
    ensures r == [] <==> f.path in view && f.mtime <= view[f.path]
  {
    if f.path !in view then [Fired(AddEvent, FileData(f))]
    else if f.mtime > view[f.path] then [Fired(ChangeEvent, FileData(f))]
    else []
  }

  /** One turn of the loop over the listing: the event (if any) is triggered,
      then, unless a handler threw, the time is recorded. */
  function Step1(handlers: map<string, seq<HandlerId>>, o: Outcome, f: FileInfo, failing: set<HandlerId>): Outcome
  {
    var ev := Decide(View(o.entries), f);
    var d := if ev == [] then Delivery([], false) else Fire(handlers, ev[0], failing);
    if d.threw then Outcome(o.entries, o.calls + d.calls, true)
    else Outcome(SetTime(o.entries, f.path, f.mtime), o.calls + d.calls, false)
  }

  /** The loop over the listing, stopped by the first handler that throws. */
  function Pass1(handlers: map<string, seq<HandlerId>>, start: seq<Entry>, files: seq<FileInfo>,
                 failing: set<HandlerId>): Outcome
    decreases |files|
  {
    if files == [] then Outcome(start, [], false)
    else
      var o := Pass1(handlers, start, files[..|files| - 1], failing);
      if o.threw then o else Step1(handlers, o, files[|files| - 1], failing)
  }

  /** One turn of the loop over the record: an entry not in the listing fires
      `unlink` with its path and, unless a handler threw, is deleted. */
  function Step2(handlers: map<string, seq<HandlerId>>, o: Outcome, e: Entry, files: seq<FileInfo>,
                 failing: set<HandlerId>): Outcome
  {
    if IsListed(files, e.path) then o
    else
      var d := Fire(handlers, Fired(UnlinkEvent, PathData(e.path)), failing);
      if d.threw then Outcome(o.entries, o.calls + d.calls, true)
      else Outcome(Delete(o.entries, e.path), o.calls + d.calls, false)
  }

  /** The loop over the record's entries as they stood after the first loop.
      Deleting the entry being visited does not disturb a `Map` iteration, so
      visiting a snapshot gives the same turns. */
  function Pass2(handlers: map<string, seq<HandlerId>>, o: Outcome, snapshot: seq<Entry>, files: seq<FileInfo>,
                 failing: set<HandlerId>): Outcome
    decreases |snapshot|
  {
    if snapshot == [] then o
    else
      var p := Pass2(handlers, o, snapshot[..|snapshot| - 1], files, failing);
      if p.threw then p else Step2(handlers, p, snapshot[|snapshot| - 1], files, failing)
  }

  /** `scanDirectory()`: a failed listing or a throwing handler ends the scan
      and triggers `error`; the promise rejects only when an `error` handler throws. */
  function Scan(handlers: map<string, seq<HandlerId>>, entries: seq<Entry>, listing: Listing,
                failing: set<HandlerId>): ScanResult
  {
    var o := match listing
      case ListingFailed => Outcome(entries, [], true)
      case Listed(files) =>
        var o1 := Pass1(handlers, entries, files, failing);
        if o1.threw then o1 else Pass2(handlers, o1, o1.entries, files, failing);
    if o.threw then
      var e := Fire(handlers, Fired(ErrorEvent, ErrorData), failing);
      ScanResult(o.entries, o.calls + e.calls, e.threw)
    else ScanResult(o.entries, o.calls, false)
  }

  // ----- the scan when no handler throws -----

  /** The record after every listed time has been set, in listing order. */
  function Record(start: seq<Entry>, files: seq<FileInfo>): seq<Entry>
    decreases |files|
  {
    if files == [] then start
    else SetTime(Record(start, files[..|files| - 1]), files[|files| - 1].path, files[|files| - 1].mtime)
  }

  /** The `add` and `change` events of the first loop. */
  function Events(start: seq<Entry>, files: seq<FileInfo>): seq<Fired>
    decreases |files|
  {
    if files == [] then []
    else
      var prefix := files[..|files| - 1];
      Events(start, prefix) + Decide(View(Record(start, prefix)), files[|files| - 1])
  }

  /** The `unlink` events for the entries whose path is not listed, in record order. */
  function Unlinks(entries: seq<Entry>, files: seq<FileInfo>): seq<Fired>
    decreases |entries|
  {
    if entries == [] then []
    else
      var e := entries[|entries| - 1];
      Unlinks(entries[..|entries| - 1], files)
        + (if IsListed(files, e.path) then [] else [Fired(UnlinkEvent, PathData(e.path))])
  }

  /** The entries whose path is listed, in record order. */
  function Kept(entries: seq<Entry>, files: seq<FileInfo>): seq<Entry>
    decreases |entries|
  {
    if entries == [] then []
    else (if IsListed(files, entries[0].path) then [entries[0]] else []) + Kept(entries[1..], files)
  }

  /** The entries whose path is not in `gone`. */
  function Without(entries: seq<Entry>, gone: set<string>): seq<Entry>
    decreases |entries|
  {
    if entries == [] then []
    else (if entries[0].path in gone then [] else [entries[0]]) + Without(entries[1..], gone)
  }

  /** The unlisted paths among `entries`. */
  function Gone(entries: seq<Entry>, files: seq<FileInfo>): (r: set<string>)
    ensures forall p :: p in r <==> exists k :: 0 <= k < |entries| && entries[k].path == p && !IsListed(files, p)
  {
    set k | 0 <= k < |entries| && !IsListed(files, entries[k].path) :: entries[k].path
  }

  lemma CallsForOne(handlers: map<string, seq<HandlerId>>, x: Fired)
    ensures CallsFor(handlers, [x]) == AllCalls(HandlersFor(handlers, x.event), x)
  {
    assert [x][..0] == [];
  }

  /** With no throwing handler the first loop records every listed time and
      fires the events of `Events`, each to all of its handlers. */
  lemma {:induction false} Pass1Quiet(handlers: map<string, seq<HandlerId>>, start: seq<Entry>,
                                      files: seq<FileInfo>, failing: set<HandlerId>)
    requires Quiet(handlers, failing)
    ensures Pass1(handlers, start, files, failing)
         == Outcome(Record(start, files), CallsFor(handlers, Events(start, files)), false)
    decreases |files|
  {
    if files != [] {
      var pre := files[..|files| - 1];
      var f := files[|files| - 1];
      Pass1Quiet(handlers, start, pre, failing);
      var ev := Decide(View(Record(start, pre)), f);
      CallsForAppend(handlers, Events(start, pre), ev);
      if ev != [] {
        assert ev == [ev[0]];
        FireQuiet(handlers, ev[0], failing);
        CallsForOne(handlers, ev[0]);
      }
    }
  }

  lemma {:induction false} WithoutNone(entries: seq<Entry>)
    ensures Without(entries, {}) == entries
    decreases |entries|
  {
    if entries != [] {
      WithoutNone(entries[1..]);
    }
  }

  lemma {:induction false} DeleteWithout(entries: seq<Entry>, gone: set<string>, path: string)
    ensures Delete(Without(entries, gone), path) == Without(entries, gone + {path})
    decreases |entries|
  {
    if entries != [] {
      DeleteWithout(entries[1..], gone, path);
      var rest := Without(entries[1..], gone);
      if entries[0].path !in gone {
        var w := [entries[0]] + rest;
        assert Without(entries, gone) == w;
        assert w[0] == entries[0] && w[1..] == rest;
        if entries[0].path == path {
          assert Delete(w, path) == Delete(rest, path);
          assert Without(entries, gone + {path}) == Without(entries[1..], gone + {path});
        } else {
          assert Delete(w, path) == [entries[0]] + Delete(rest, path);
          assert Without(entries, gone + {path}) == [entries[0]] + Without(entries[1..], gone + {path});
        }
      } else {
        assert Without(entries, gone) == rest;
        assert Without(entries, gone + {path}) == Without(entries[1..], gone + {path});
      }
    }
  }

  lemma {:induction false} WithoutKept(entries: seq<Entry>, gone: set<string>, files: seq<FileInfo>)
    requires forall k :: 0 <= k < |entries| ==> (entries[k].path in gone <==> !IsListed(files, entries[k].path))
    ensures Without(entries, gone) == Kept(entries, files)
    decreases |entries|
  {
    if entries != [] {
      assert forall k :: 0 <= k < |entries[1..]| ==> entries[1..][k] == entries[k + 1];
      WithoutKept(entries[1..], gone, files);
    }
  }

  /** With no throwing handler the second loop deletes every unlisted path of
      the snapshot and fires `unlink` for each, in snapshot order. */
  lemma {:induction false} Pass2Quiet(handlers: map<string, seq<HandlerId>>, start: seq<Entry>, calls: seq<Call>,
                                      snapshot: seq<Entry>, files: seq<FileInfo>, failing: set<HandlerId>)
    requires Quiet(handlers, failing)
    ensures Pass2(handlers, Outcome(start, calls, false), snapshot, files, failing)
         == Outcome(Without(start, Gone(snapshot, files)), calls + CallsFor(handlers, Unlinks(snapshot, files)), false)
    decreases |snapshot|
  {
    if snapshot == [] {
      WithoutNone(start);
      assert Gone(snapshot, files) == {};
    } else {
      var pre := snapshot[..|snapshot| - 1];
      var e := snapshot[|snapshot| - 1];
      Pass2Quiet(handlers, start, calls, pre, files, failing);
      assert Gone(snapshot, files) == if IsListed(files, e.path) then Gone(pre, files) else Gone(pre, files) + {e.path} by {
        GoneSnoc(pre, e, files);
      }
      Step2Quiet(handlers, start, calls, pre, e, files, failing);
    }
  }

  lemma GoneSnoc(pre: seq<Entry>, e: Entry, files: seq<FileInfo>)
    ensures Gone(pre + [e], files) == if IsListed(files, e.path) then Gone(pre, files) else Gone(pre, files) + {e.path}
  {
    var snapshot := pre + [e];
    var g := Gone(pre, files);
    forall p ensures p in Gone(snapshot, files) <==> p in (if IsListed(files, e.path) then g else g + {e.path}) {
      if p in Gone(snapshot, files) {
        var k :| 0 <= k < |snapshot| && snapshot[k].path == p && !IsListed(files, p);
        if k < |pre| {
          assert pre[k] == snapshot[k];
        }
      }
      if p in g {
        var k :| 0 <= k < |pre| && pre[k].path == p && !IsListed(files, p);
        assert snapshot[k] == pre[k];
      }
      if p == e.path && !IsListed(files, e.path) {
        assert snapshot[|pre|] == e;
      }
    }
  }

  lemma Step2Quiet(handlers: map<string, seq<HandlerId>>, start: seq<Entry>, calls: seq<Call>,
                   pre: seq<Entry>, e: Entry, files: seq<FileInfo>, failing: set<HandlerId>)
    requires Quiet(handlers, failing)
    ensures var g := Gone(pre, files);
      var u := if IsListed(files, e.path) then [] else [Fired(UnlinkEvent, PathData(e.path))];
      Step2(handlers, Outcome(Without(start, g), calls + CallsFor(handlers, Unlinks(pre, files)), false), e, files, failing)
      == Outcome(Without(start, if IsListed(files, e.path) then g else g + {e.path}),
                 calls + CallsFor(handlers, Unlinks(pre, files) + u), false)
  {
    var g := Gone(pre, files);
    var u := if IsListed(files, e.path) then [] else [Fired(UnlinkEvent, PathData(e.path))];
    CallsForAppend(handlers, Unlinks(pre, files), u);
    if !IsListed(files, e.path) {
      FireQuiet(handlers, Fired(UnlinkEvent, PathData(e.path)), failing);
      CallsForOne(handlers, Fired(UnlinkEvent, PathData(e.path)));
      DeleteWithout(start, g, e.path);
    }
  }

  lemma {:induction false} UnlinksSamePaths(x: seq<Entry>, y: seq<Entry>, files: seq<FileInfo>)
    requires |x| == |y| && forall k :: 0 <= k < |x| ==> x[k].path == y[k].path
    ensures Unlinks(x, files) == Unlinks(y, files)
    decreases |x|
  {
    if x != [] {
      UnlinksSamePaths(x[..|x| - 1], y[..|y| - 1], files);
    }
  }

  /** Recording listed paths changes no `unlink` event. */
  lemma {:induction false} UnlinksRecord(start: seq<Entry>, fs: seq<FileInfo>, files: seq<FileInfo>)
    requires forall k :: 0 <= k < |fs| ==> IsListed(files, fs[k].path)
    ensures Unlinks(Record(start, fs), files) == Unlinks(start, files)
    decreases |fs|
  {
    if fs != [] {
      var pre := fs[..|fs| - 1];
      var f := fs[|fs| - 1];
      UnlinksRecord(start, pre, files);
      var x := Record(start, pre);
      if f.path in View(x) {
        UnlinksSamePaths(SetTime(x, f.path, f.mtime), x, files);
      } else {
        var y := x + [Entry(f.path, f.mtime)];
        assert y[..|y| - 1] == x;
      }
    }
  }

  /** A scan in which no handler throws: the record keeps exactly the listed
      paths with their latest times, and the calls are those of the `add` and
      `change` events of the listing followed by one `unlink` per recorded path
      that is no longer listed, each event reaching all of its handlers. */
  lemma ScanQuiet(handlers: map<string, seq<HandlerId>>, entries: seq<Entry>, files: seq<FileInfo>,
                  failing: set<HandlerId>)
    requires Quiet(handlers, failing)
    ensures Scan(handlers, entries, Listed(files), failing)
         == ScanResult(Kept(Record(entries, files), files),
                       CallsFor(handlers, Events(entries, files) + Unlinks(entries, files)), false)
  {
    Pass1Quiet(handlers, entries, files, failing);
    var r := Record(entries, files);
    var c := CallsFor(handlers, Events(entries, files));
    Pass2Quiet(handlers, r, c, r, files, failing);
    WithoutKept(r, Gone(r, files), files);
    assert forall k :: 0 <= k < |files| ==> IsListed(files, files[k].path);
    UnlinksRecord(entries, files, files);
    CallsForAppend(handlers, Events(entries, files), Unlinks(entries, files));
  }

  // ----- what a scan promises -----

  lemma ListedSnoc(pre: seq<FileInfo>, f: FileInfo)
    ensures forall p :: IsListed(pre + [f], p) <==> IsListed(pre, p) || f.path == p
  {
    var fs := pre + [f];
    assert fs[|pre|] == f;
    forall p | IsListed(pre, p) ensures IsListed(fs, p) {
      var k :| 0 <= k < |pre| && pre[k].path == p;
      assert fs[k] == pre[k];
    }
    forall p | IsListed(fs, p) && p != f.path ensures IsListed(pre, p) {
      var k :| 0 <= k < |fs| && fs[k].path == p;
      assert pre[k] == fs[k];
    }
  }

  /** Recording the listing: the known paths grow by the listed ones, an unlisted
      path keeps its time, and a listed path gets the time of its last listing. */
  lemma {:induction false} RecordView(start: seq<Entry>, fs: seq<FileInfo>)
    ensures forall p :: p in View(Record(start, fs)) <==> p in View(start) || IsListed(fs, p)
    ensures forall p :: p in View(start) && !IsListed(fs, p) ==> View(Record(start, fs))[p] == View(start)[p]
    ensures forall k :: (0 <= k < |fs| && (forall j :: k < j < |fs| ==> fs[j].path != fs[k].path)) ==>
      (fs[k].path in View(Record(start, fs)) && View(Record(start, fs))[fs[k].path] == fs[k].mtime)
    decreases |fs|
  {
    if fs != [] {
      var pre := fs[..|fs| - 1];
      var f := fs[|fs| - 1];
      RecordView(start, pre);
      SetTimeView(Record(start, pre), f.path, f.mtime);
      assert pre + [f] == fs;
      ListedSnoc(pre, f);
      var v := View(Record(start, fs));
      forall k | 0 <= k < |fs| && (forall j :: k < j < |fs| ==> fs[j].path != fs[k].path)
        ensures fs[k].path in v && v[fs[k].path] == fs[k].mtime
      {
        if k < |pre| {
          assert fs[k] == pre[k];
          assert forall j :: k < j < |pre| ==> pre[j] == fs[j];
        }
      }
    }
  }

  /** Keeping the listed entries restricts the map to the listed paths. */
  lemma {:induction false} KeptView(entries: seq<Entry>, files: seq<FileInfo>)
    ensures forall p :: p in View(Kept(entries, files)) <==> p in View(entries) && IsListed(files, p)
    ensures forall p :: p in View(Kept(entries, files)) ==> View(Kept(entries, files))[p] == View(entries)[p]
    decreases |entries|
  {
    if entries != [] {
      KeptView(entries[1..], files);
      var rest := Kept(entries[1..], files);
      assert View(entries) == View(entries[1..])[entries[0].path := entries[0].time];
      if IsListed(files, entries[0].path) {
        assert Kept(entries, files) == [entries[0]] + rest;
        assert ([entries[0]] + rest)[1..] == rest;
        assert View(Kept(entries, files)) == View(rest)[entries[0].path := entries[0].time];
      } else {
        assert Kept(entries, files) == rest;
      }
    }
  }

  /** After a scan in which no handler throws, the record holds exactly the
      listed paths, each with the time of its last listing -- also when that
      time is not later than the one recorded before. */
  lemma ScanRecord(handlers: map<string, seq<HandlerId>>, entries: seq<Entry>, files: seq<FileInfo>,
                   failing: set<HandlerId>)
    requires Quiet(handlers, failing)
    ensures var v := View(Scan(handlers, entries, Listed(files), failing).entries);
      && (forall p :: p in v <==> IsListed(files, p))
      && (forall k :: (0 <= k < |files| && (forall j :: k < j < |files| ==> files[j].path != files[k].path)) ==>
            (files[k].path in v && v[files[k].path] == files[k].mtime))
  {
    ScanQuiet(handlers, entries, files, failing);
    RecordView(entries, files);
    KeptView(Record(entries, files), files);
    var v := View(Scan(handlers, entries, Listed(files), failing).entries);
    forall k | 0 <= k < |files| ensures IsListed(files, files[k].path) {
    }
  }

  /** Every file checked against the record as it stood before the scan. */
  function Reactions(view: map<string, int>, fs: seq<FileInfo>): seq<Fired>
    decreases |fs|
  {
    if fs == [] then [] else Reactions(view, fs[..|fs| - 1]) + Decide(view, fs[|fs| - 1])
  }

  /** In a listing without repeated paths each file's event depends only on
      the record before the scan: `add` for an unknown path, `change` for a
      strictly later time, nothing for an equal or earlier one. */
  lemma {:induction false} EventsAgainstOld(start: seq<Entry>, fs: seq<FileInfo>)
    requires forall i, j :: 0 <= i < j < |fs| ==> fs[i].path != fs[j].path
    ensures Events(start, fs) == Reactions(View(start), fs)
    decreases |fs|
  {
    if fs != [] {
      var pre := fs[..|fs| - 1];
      var f := fs[|fs| - 1];
      EventsAgainstOld(start, pre);
      RecordView(start, pre);
      forall k | 0 <= k < |pre| ensures pre[k].path != f.path {
        assert fs[k] == pre[k];
      }
      assert !IsListed(pre, f.path);
    }
  }

  lemma {:induction false} UnlinksAt(entries: seq<Entry>, files: seq<FileInfo>)
    ensures forall x :: x in Unlinks(entries, files) ==> x.event == UnlinkEvent && x.data.PathData?
    ensures forall p :: (Fired(UnlinkEvent, PathData(p)) in Unlinks(entries, files)) <==>
      (exists k :: 0 <= k < |entries| && entries[k].path == p && !IsListed(files, p))
    decreases |entries|
  {
    if entries != [] {
      var pre := entries[..|entries| - 1];
      var e := entries[|entries| - 1];
      UnlinksAt(pre, files);
      forall p ensures Fired(UnlinkEvent, PathData(p)) in Unlinks(entries, files)
        <==> exists k :: 0 <= k < |entries| && entries[k].path == p && !IsListed(files, p)
      {
        if exists k :: 0 <= k < |entries| && entries[k].path == p && !IsListed(files, p) {
          var k :| 0 <= k < |entries| && entries[k].path == p && !IsListed(files, p);
          if k < |pre| {
            assert pre[k] == entries[k];
          }
        }
        if exists k :: 0 <= k < |pre| && pre[k].path == p && !IsListed(files, p) {
          var k :| 0 <= k < |pre| && pre[k].path == p && !IsListed(files, p);
          assert entries[k] == pre[k];
        }
      }
    }
  }

  /** The `unlink` events of a scan name exactly the recorded paths that are no
      longer listed, each with `{ path }`. */
  lemma UnlinksExactly(entries: seq<Entry>, files: seq<FileInfo>)
    ensures forall x :: x in Unlinks(entries, files) ==> x.event == UnlinkEvent && x.data.PathData?
    ensures forall p :: (Fired(UnlinkEvent, PathData(p)) in Unlinks(entries, files)) <==>
      (p in View(entries) && !IsListed(files, p))
  {
    UnlinksAt(entries, files);
    ViewKeys(entries);
  }

  /** A listing that cannot be fetched leaves the record as it was; only the
      `error` handlers run. */
  lemma ScanListingFailed(handlers: map<string, seq<HandlerId>>, entries: seq<Entry>, failing: set<HandlerId>)
    ensures var r := Scan(handlers, entries, ListingFailed, failing);
      var e := Fire(handlers, Fired(ErrorEvent, ErrorData), failing);
      r.entries == entries && r.calls == e.calls && r.rejected == e.threw
  {
  }

  lemma Pass1Step(handlers: map<string, seq<HandlerId>>, start: seq<Entry>, files: seq<FileInfo>,
                  i: nat, failing: set<HandlerId>)
    requires i < |files| && !Pass1(handlers, start, files[..i], failing).threw
    ensures Pass1(handlers, start, files[..i + 1], failing)
         == Step1(handlers, Pass1(handlers, start, files[..i], failing), files[i], failing)
  {
    assert files[..i + 1][..i] == files[..i];
  }

  lemma Pass2Step(handlers: map<string, seq<HandlerId>>, o: Outcome, snapshot: seq<Entry>, files: seq<FileInfo>,
                  j: nat, failing: set<HandlerId>)
    requires j < |snapshot| && !Pass2(handlers, o, snapshot[..j], files, failing).threw
    ensures Pass2(handlers, o, snapshot[..j + 1], files, failing)
         == Step2(handlers, Pass2(handlers, o, snapshot[..j], files, failing), snapshot[j], files, failing)
  {
    assert snapshot[..j + 1][..j] == snapshot[..j];
  }

  /** The loop over the listing, one file further. */
  lemma Pass1Next(handlers: map<string, seq<HandlerId>>, start: seq<Entry>, files: seq<FileInfo>,
                  i: nat, failing: set<HandlerId>,
                  entries: seq<Entry>, calls: seq<Call>, entries': seq<Entry>, c: seq<Call>, t: bool)
    requires i < |files| && Pass1(handlers, start, files[..i], failing) == Outcome(entries, calls, false)
    requires Step1(handlers, Outcome(entries, [], false), files[i], failing) == Outcome(entries', c, t)
    ensures Pass1(handlers, start, files[..i + 1], failing) == Outcome(entries', calls + c, t)
  {
    Pass1Step(handlers, start, files, i, failing);
    Step1Calls(handlers, entries, calls, files[i], failing);
  }

  /** A turn does not depend on the calls made before it. */
  lemma Step1Calls(handlers: map<string, seq<HandlerId>>, entries: seq<Entry>, calls: seq<Call>, f: FileInfo,
                   failing: set<HandlerId>)
    ensures var o := Step1(handlers, Outcome(entries, [], false), f, failing);
      Step1(handlers, Outcome(entries, calls, false), f, failing) == Outcome(o.entries, calls + o.calls, o.threw)
  {
  }

  lemma {:induction false} Pass1Stops(handlers: map<string, seq<HandlerId>>, start: seq<Entry>, files: seq<FileInfo>,
                                      i: nat, failing: set<HandlerId>)
    requires i <= |files| && Pass1(handlers, start, files[..i], failing).threw
    ensures Pass1(handlers, start, files, failing) == Pass1(handlers, start, files[..i], failing)
    decreases |files|
  {
    if i < |files| {
      var pre := files[..|files| - 1];
      assert pre[..i] == files[..i];
      Pass1Stops(handlers, start, pre, i, failing);
    } else {
      assert files[..i] == files;
    }
  }

  lemma {:induction false} Pass2Stops(handlers: map<string, seq<HandlerId>>, o: Outcome, snapshot: seq<Entry>,
                                      files: seq<FileInfo>, j: nat, failing: set<HandlerId>)
    requires j <= |snapshot| && Pass2(handlers, o, snapshot[..j], files, failing).threw
    ensures Pass2(handlers, o, snapshot, files, failing) == Pass2(handlers, o, snapshot[..j], files, failing)
    decreases |snapshot|
  {
    if j < |snapshot| {
      var pre := snapshot[..|snapshot| - 1];
      assert pre[..j] == snapshot[..j];
      Pass2Stops(handlers, o, pre, files, j, failing);
    } else {
      assert snapshot[..j] == snapshot;
    }
  }

  lemma DeliverFrom(hs: seq<HandlerId>, i: nat, fired: Fired, failing: set<HandlerId>)
    requires i < |hs|
    ensures var c := Call(hs[i], fired.event, fired.data);
      var rest := Deliver(hs[i + 1..], fired, failing);
      Deliver(hs[i..], fired, failing)
      == if hs[i] in failing then Delivery([c], true) else Delivery([c] + rest.calls, rest.threw)
  {
    assert hs[i..][0] == hs[i] && hs[i..][1..] == hs[i + 1..];
  }

  /** `FileWatcher`: the record, the started/stopped state, whether the polling
      timer is set, and the handler sets (as duplicate-free sequences in
      insertion order, the order a `Set` iterates in). */
  class Watcher {
    const watchPath: string
    const interval: int
    var lastChecked: seq<Entry>
    var isWatching: bool
    var intervalActive: bool
    var handlers: map<string, seq<HandlerId>>

    ghost predicate Valid()
      reads this
    {
      && DistinctPaths(lastChecked)
      && (forall e :: e in handlers ==> Distinct(handlers[e]))
      && (intervalActive ==> isWatching)
    }

    /** `new FileWatcher(watchPath, options)`; `options.interval` overrides the default. */
    constructor(watchPath: string, interval: Option<int>)
      ensures Valid()
      ensures this.watchPath == watchPath
      ensures this.interval == (if interval.Some? then interval.value else DefaultInterval)
      ensures lastChecked == [] && !isWatching && !intervalActive && handlers == map[]
    {
      this.watchPath := watchPath;
      this.interval := if interval.Some? then interval.value else DefaultInterval;
      lastChecked := [];
      isWatching := false;
      intervalActive := false;
      handlers := map[];
    }

    /** `on(event, handler)` */
    method On(event: string, handler: HandlerId)
      requires Valid()
      modifies this
      ensures Valid()
      ensures handlers == old(handlers)[event := AddOnce(HandlersFor(old(handlers), event), handler)]
      ensures lastChecked == old(lastChecked) && isWatching == old(isWatching) && intervalActive == old(intervalActive)
    {
      if event !in handlers {
        handlers := handlers[event := []];
      }
      handlers := handlers[event := AddOnce(handlers[event], handler)];
    }

    /** `off(event, handler)`: only that handler leaves that event's set. */
    method Off(event: string, handler: HandlerId)
      requires Valid()
      modifies this
      ensures Valid()
      ensures handlers == if event in old(handlers) then old(handlers)[event := Remove(old(handlers)[event], handler)]
                          else old(handlers)
      ensures lastChecked == old(lastChecked) && isWatching == old(isWatching) && intervalActive == old(intervalActive)
    {
      if event in handlers {
        handlers := handlers[event := Remove(handlers[event], handler)];
      }
    }

    /** `trigger(event, data)`: the handlers of `event` awaited one after the
        other; the handlers in `failing` throw, which ends the loop. */
    method Trigger(event: string, data: Payload, failing: set<HandlerId>) returns (calls: seq<Call>, threw: bool)
      ensures Delivery(calls, threw) == Fire(handlers, Fired(event, data), failing)
    {
      calls, threw := [], false;
      if event in handlers {
        var hs := handlers[event];
        ghost var fired := Fired(event, data);
        var i := 0;
        while i < |hs| && !threw
          invariant 0 <= i <= |hs|
          invariant !threw ==>
            Deliver(hs, fired, failing) == Delivery(calls + Deliver(hs[i..], fired, failing).calls, Deliver(hs[i..], fired, failing).threw)
          invariant threw ==> Deliver(hs, fired, failing) == Delivery(calls, true)
        {
          var h := hs[i];
          DeliverFrom(hs, i, fired, failing);
          calls := calls + [Call(h, event, data)];
          if h in failing {
            threw := true;
          }
          i := i + 1;
        }
      }
    }

    /** `scanDirectory()` with the listing the request returned. */
    method ScanDirectory(listing: Listing, failing: set<HandlerId>) returns (calls: seq<Call>, rejected: bool)
      requires Valid()
      modifies this
      ensures Valid()
      ensures var r := Scan(handlers, old(lastChecked), listing, failing);
        lastChecked == r.entries && calls == r.calls && rejected == r.rejected
      ensures handlers == old(handlers) && isWatching == old(isWatching) && intervalActive == old(intervalActive)
    {
      calls := [];
      var threw := false;
      if listing.ListingFailed? {
        threw := true;
      } else {
        calls, threw := VisitListing(listing.files, failing);
        if !threw {
          calls, threw := VisitRecord(listing.files, calls, failing);
        }
      }
      if threw {
        var c, t := Trigger(ErrorEvent, ErrorData, failing);
        calls := calls + c;
        rejected := t;
      } else {
        rejected := false;
      }
    }

    /** The loop over the listing. */
    method VisitListing(files: seq<FileInfo>, failing: set<HandlerId>) returns (calls: seq<Call>, threw: bool)
      requires Valid()
      modifies this
      ensures Valid()
      ensures Pass1(handlers, old(lastChecked), files, failing) == Outcome(lastChecked, calls, threw)
      ensures handlers == old(handlers) && isWatching == old(isWatching) && intervalActive == old(intervalActive)
    {
      ghost var start := lastChecked;
      calls, threw := [], false;
      var i := 0;
      while i < |files| && !threw
        invariant 0 <= i <= |files|
        invariant Pass1(handlers, start, files[..i], failing) == Outcome(lastChecked, calls, threw)
        invariant Valid()
        invariant handlers == old(handlers) && isWatching == old(isWatching) && intervalActive == old(intervalActive)
      {
        ghost var entries0, calls0 := lastChecked, calls;
        var c, t := VisitFile(files[i], failing);
        Pass1Next(handlers, start, files, i, failing, entries0, calls0, lastChecked, c, t);
        calls := calls + c;
        threw := t;
        i := i + 1;
      }
      if threw {
        Pass1Stops(handlers, start, files, i, failing);
      } else {
        assert files[..i] == files;
      }
    }

    /** One turn of the loop over the listing. */
    method VisitFile(f: FileInfo, failing: set<HandlerId>) returns (calls: seq<Call>, threw: bool)
      requires Valid()
      modifies this
      ensures Valid()
      ensures Step1(handlers, Outcome(old(lastChecked), [], false), f, failing) == Outcome(lastChecked, calls, threw)
      ensures handlers == old(handlers) && isWatching == old(isWatching) && intervalActive == old(intervalActive)
    {
      if !(f.path in View(lastChecked)) {
        calls, threw := Trigger(AddEvent, FileData(f), failing);
      } else if f.mtime > View(lastChecked)[f.path] {
        calls, threw := Trigger(ChangeEvent, FileData(f), failing);
      } else {
        calls, threw := [], false;
      }
      if !threw {
        SetTimeDistinct(lastChecked, f.path, f.mtime);
        lastChecked := SetTime(lastChecked, f.path, f.mtime);
      }
    }

    /** The loop over the record, after the loop over the listing made `calls0`. */
    method VisitRecord(files: seq<FileInfo>, calls0: seq<Call>, failing: set<HandlerId>) returns (calls: seq<Call>, threw: bool)
      requires Valid()
      modifies this
      ensures Valid()
      ensures Pass2(handlers, Outcome(old(lastChecked), calls0, false), old(lastChecked), files, failing)
           == Outcome(lastChecked, calls, threw)
      ensures handlers == old(handlers) && isWatching == old(isWatching) && intervalActive == old(intervalActive)
    {
      var snapshot := lastChecked;
      ghost var o1 := Outcome(lastChecked, calls0, false);
      calls, threw := calls0, false;
      var j := 0;
      while j < |snapshot| && !threw
        invariant 0 <= j <= |snapshot|
        invariant Pass2(handlers, o1, snapshot[..j], files, failing) == Outcome(lastChecked, calls, threw)
        invariant Valid()
        invariant handlers == old(handlers) && isWatching == old(isWatching) && intervalActive == old(intervalActive)
      {
        var e := snapshot[j];
        Pass2Step(handlers, o1, snapshot, files, j, failing);
        if !IsListed(files, e.path) {
          var c, t := Trigger(UnlinkEvent, PathData(e.path), failing);
          calls := calls + c;
          if t {
            threw := true;
          } else {
            DeleteDistinct(lastChecked, e.path);
            lastChecked := Delete(lastChecked, e.path);
          }
        }
        j := j + 1;
      }
      if threw {
        Pass2Stops(handlers, o1, snapshot, files, j, failing);
      } else {
        assert snapshot[..j] == snapshot;
      }
    }

    /** `start()`: a no-op while watching; otherwise one scan, after which the
        timer is set unless the scan's promise rejected. */
    method Start(listing: Listing, failing: set<HandlerId>) returns (calls: seq<Call>)
      requires Valid()
      modifies this
      ensures Valid()
      ensures handlers == old(handlers) && isWatching
      ensures old(isWatching) ==>
        calls == [] && intervalActive == old(intervalActive) && lastChecked == old(lastChecked)
      ensures !old(isWatching) ==>
        var r := Scan(handlers, old(lastChecked), listing, failing);
        lastChecked == r.entries && calls == r.calls && intervalActive == !r.rejected
    {
      if isWatching {
        return [];
      }
      isWatching := true;
      var rejected;
      calls, rejected := ScanDirectory(listing, failing);
      if !rejected {
        intervalActive := true;
      }
    }

    /** `stop()`: clears the timer and the watching flag; a no-op when not watching. */
    method Stop()
      requires Valid()
      modifies this
      ensures Valid()
      ensures !isWatching && !intervalActive
      ensures lastChecked == old(lastChecked) && handlers == old(handlers)
    {
      if !isWatching {
        return;
      }
      intervalActive := false;
      isWatching := false;
    }
  }
}
