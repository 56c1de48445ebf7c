/** Drive over whole runs: no file is lost, every count is accounted for, and scanning again files nothing. */
module DriveRuns {
  import opened Basics
  import opened Faults
  import opened Naming
  import opened Pipeline
  import opened Store
  import opened Drive
  import opened DriveTheorems

  // ----- what one call does to index and inbox ---------------------------------------------

  /** This call inserts a row. */
  predicate Inserts(w: World, name: string, env: Env) {
    var args := WriteArgs(w, name, env);
    args.Some? && Indexed(args.value.0, env)
  }

  /** It does, and is told so. */
  predicate InsertReported(w: World, name: string, env: Env) {
    Inserts(w, name, env) && env.store(WriteArgs(w, name, env).value.0.tick + 5).Ok?
  }

  /** Cache and status are the same; at most one row was added, for a new hash and naming the cached file; and
      that file was moved only if its row was added and reported. */
  ghost predicate Changes(w: World, name: string, o: Outcome<World>, inserts: bool, reported: bool, h: string, row: DocumentRow) {
    && o.state.scan == w.scan && o.state.tables.status == w.tables.status
    && o.state.tables.documents == (if inserts then w.tables.documents[h := row] else w.tables.documents)
    && (inserts ==> h !in w.tables.documents && name in w.scan && row.driveFileId == w.scan[name].id)
    && (reported ==> inserts) && (reported <==> o.reply.Done? && o.reply.result.status.Processed?)
    && (o.state.moved == w.moved || (reported && o.state.moved == w.moved + [w.scan[name].id]))
  }

  lemma WrittenChanges(w: World, w2: World, w3: World, name: string, e: Entry<Bytes>, ok: bool, env: Env, o: Outcome<World>)
    requires Unindexed(w, name, env, e) && Calm(w, w2)
    requires Written(w2, e, env, w3, ok) && DriveTheorems.Follows(w3, name, ok, env, o)
    ensures ok <==> Indexed(w2, env) && env.store(w2.tick + 5).Ok?
    ensures Changes(w, name, o, Indexed(w2, env), ok, e.meta.contentHash, NewRow(w2, e, env))
  {
  }

  lemma UnwrittenChanges(w: World, name: string, o: Outcome<World>, h: string, row: DocumentRow)
    requires Calm(w, o.state) && (o.reply.Done? ==> !o.reply.result.status.Processed?)
    ensures Changes(w, name, o, false, false, h, row)
  {
  }

  lemma CallChanges(w: World, name: string, env: Env) returns (h: string, row: DocumentRow)
    ensures Changes(w, name, Process(w, name, env), Inserts(w, name, env), InsertReported(w, name, env), h, row)
  {
    hide Process, World.WriteEntry, WriteArgs, Indexed, Calm, Written, Unindexed, DriveTheorems.Follows, Changes;
    h, row := "", DocumentRow("", "", "");
    if WriteArgs(w, name, env).None? {
      NoWrite(w, name, env);
      UnwrittenChanges(w, name, Process(w, name, env), h, row);
    } else {
      var (w2, e) := WriteArgs(w, name, env).value;
      h, row := e.meta.contentHash, NewRow(w2, e, env);
      Writes(w, name, env);
      NewToIndex(w, w2, name, env, e);
      WriteEffect(w2, e, env);
      var (w3, r) := w2.WriteEntry(e, env);
      WrittenChanges(w, w2, w3, name, e, r.Some?, env, Process(w, name, env));
    }
  }

  lemma NewToIndex(w: World, w2: World, name: string, env: Env, e: Entry<Bytes>)
    requires Unindexed(w, name, env, e) && Calm(w, w2)
    ensures e.meta.contentHash !in w2.tables.documents
  {
  }

  // ----- no file is lost ------------------------------------------------------------------------

  /** Every file moved out of the inbox has a row that names it. */
  ghost predicate MovedIndexed(w: World) {
    forall id :: id in w.moved ==> RowsFrom(w, id) != {}
  }

  lemma ChangesKeepMoved(w: World, name: string, o: Outcome<World>, inserts: bool, reported: bool, h: string, row: DocumentRow)
    requires Changes(w, name, o, inserts, reported, h, row) && MovedIndexed(w)
    ensures MovedIndexed(o.state)
  {
    forall id | id in o.state.moved ensures RowsFrom(o.state, id) != {} {
      if id in w.moved {
        var k :| k in RowsFrom(w, id);
        assert k in RowsFrom(o.state, id);
      } else {
        assert h in RowsFrom(o.state, id);
      }
    }
  }

  lemma {:induction false} ScanKeepsMoved(w: World, names: seq<string>, env: Env, stop: nat)
    requires MovedIndexed(w)
    ensures MovedIndexed(ScanFiles(w, names, env, stop).0)
    decreases |names|
  {
    hide Process;
    if names != [] && stop > 0 {
      var h, row := CallChanges(w, names[0], env);
      ChangesKeepMoved(w, names[0], Process(w, names[0], env), Inserts(w, names[0], env), InsertReported(w, names[0], env), h, row);
      SameIndexed(Process(w, names[0], env).state, w, names[0], env);
      ScanKeepsMoved(ProcessFile(w, names[0], env), names[1..], env, stop - 1);
    }
  }

  lemma SameIndexed(w1: World, w: World, name: string, env: Env)
    requires w1 == Process(w, name, env).state && MovedIndexed(w1)
    ensures MovedIndexed(ProcessFile(w, name, env))
  {
    ProcessFileKeeps(w, name, env);
    IndexedAlike(w1, ProcessFile(w, name, env));
  }

  lemma IndexedAlike(w: World, w': World)
    requires MovedIndexed(w) && w'.moved == w.moved && w'.tables.documents == w.tables.documents
    ensures MovedIndexed(w')
  {
    forall id | id in w'.moved ensures RowsFrom(w', id) != {} {
      assert RowsFrom(w', id) == RowsFrom(w, id);
    }
  }

  lemma {:induction false} HistoryKeepsMoved(w: World, scans: seq<Scan>)
    requires MovedIndexed(w)
    ensures MovedIndexed(AfterScans(w, scans))
    decreases |scans|
  {
    hide RunScan;
    if scans != [] {
      var env, stop := scans[0].env, scans[0].stop;
      RunKeepsMoved(w.(alive := true), env, stop);
      HistoryKeepsMoved(RunScan(w.(alive := true), env, stop), scans[1..]);
    }
  }

  lemma RunKeepsMoved(w: World, env: Env, stop: nat)
    requires MovedIndexed(w)
    ensures MovedIndexed(RunScan(w, env, stop))
  {
    var (w1, names) := w.ListInbox(env);
    RunScanShape(w, env, stop);
    IndexedAlike(w, w1);
    if names.Some? {
      ScanKeepsMoved(w1, names.value, env, stop);
      IndexedAlike(ScanFiles(w1, names.value, env, stop).0, RunScan(w, env, stop));
    } else {
      IndexedAlike(w1, RunScan(w, env, stop));
    }
  }

  /** A row and a complete entry, with a PDF and a transcript, that name this Drive file. */
  ghost predicate FiledAs(w: World, id: string, h: string, i: int, hash: Bytes -> Hash) {
    && h in w.tables.documents && w.tables.documents[h].driveFileId == id
    && 0 <= i < |w.folders| && EntryOf(w.folders[i], h, w.tables.documents[h], hash)
  }

  /** No Drive file is lost: over any history of scans, whatever request or statement fails and wherever the
      daemon stops, a file whose move out of the inbox took effect has a row, and that row a complete entry. */
  lemma MovedAreFiled(w: World, scans: seq<Scan>, hash: Bytes -> Hash, id: string)
    requires MovedIndexed(w) && RowsHaveEntries(w.folders, w.tables.documents, hash)
    requires forall i | 0 <= i < |scans| :: scans[i].env.hash == hash
    ensures id in AfterScans(w, scans).moved ==> exists h, i :: FiledAs(AfterScans(w, scans), id, h, i, hash)
  {
    HistoryKeepsMoved(w, scans);
    RowsNameEntries(w, scans, hash);
    var w' := AfterScans(w, scans);
    if id in w'.moved {
      var h :| h in RowsFrom(w', id);
      var i :| 0 <= i < |w'.folders| && EntryOf(w'.folders[i], h, w'.tables.documents[h], hash);
      assert FiledAs(w', id, h, i, hash);
    }
  }

  // ----- every row is accounted for --------------------------------------------------------------

  /** The counter statement that ends this call takes place. */
  predicate Bumps(w: World, name: string, env: Env) {
    var s := Process(w, name, env).state;
    s.alive && Took(env.store(s.tick))
  }

  /** Rows this call adds that the processed counter misses: the insert was not reported, so the file counts as
      quarantined, or it was, but the counter statement did not take place. */
  function Uncounted(w: World, name: string, env: Env): nat {
    if Inserts(w, name, env) && !(InsertReported(w, name, env) && Bumps(w, name, env)) then 1 else 0
  }

  lemma ChangesCounted(w: World, name: string, o: Outcome<World>, inserts: bool, reported: bool, h: string, row: DocumentRow, env: Env)
    requires Changes(w, name, o, inserts, reported, h, row) && o.reply.Done?
    ensures var w' := o.state.Commit(o.state.tables.BumpCounter(CounterOf(o.reply.result.status)), env);
            |w'.tables.documents| + w.tables.status.processed + (if reported && o.state.alive && Took(env.store(o.state.tick)) then 1 else 0)
            == |w.tables.documents| + w'.tables.status.processed + (if inserts then 1 else 0)
  {
  }

  lemma FileConserved(w: World, name: string, env: Env)
    ensures var w' := ProcessFile(w, name, env);
            |w'.tables.documents| + w.tables.status.processed
            == |w.tables.documents| + w'.tables.status.processed + Uncounted(w, name, env)
  {
    var h, row := CallChanges(w, name, env);
    var o := Process(w, name, env);
    if o.reply.Done? {
      ChangesCounted(w, name, o, Inserts(w, name, env), InsertReported(w, name, env), h, row, env);
    } else {
      AbortInserts(w, name, env);
    }
  }

  lemma AbortInserts(w: World, name: string, env: Env)
    requires Process(w, name, env).reply.Abort?
    ensures !Inserts(w, name, env)
  {
    if WriteArgs(w, name, env).Some? {
      Writes(w, name, env);
    }
  }

  ghost function UncountedIn(w: World, names: seq<string>, env: Env, stop: nat): nat
    decreases |names|
  {
    if names == [] || stop == 0 then 0
    else Uncounted(w, names[0], env) + UncountedIn(ProcessFile(w, names[0], env), names[1..], env, stop - 1)
  }

  lemma {:induction false} ScanConserved(w: World, names: seq<string>, env: Env, stop: nat)
    ensures var w' := ScanFiles(w, names, env, stop).0;
            |w'.tables.documents| + w.tables.status.processed
            == |w.tables.documents| + w'.tables.status.processed + UncountedIn(w, names, env, stop)
    decreases |names|
  {
    hide ProcessFile;
    if names != [] && stop > 0 {
      FileConserved(w, names[0], env);
      ScanConserved(ProcessFile(w, names[0], env), names[1..], env, stop - 1);
    }
  }

  ghost function UncountedOver(w: World, scans: seq<Scan>): nat
    decreases |scans|
  {
    if scans == [] then 0
    else
      var env, stop := scans[0].env, scans[0].stop;
      var (w1, names) := w.(alive := true).ListInbox(env);
      (if names.None? then 0 else UncountedIn(w1, names.value, env, stop))
      + UncountedOver(RunScan(w.(alive := true), env, stop), scans[1..])
  }

  lemma RunConserved(w: World, env: Env, stop: nat)
    ensures var (w1, names) := w.ListInbox(env);
            var w' := RunScan(w, env, stop);
            |w'.tables.documents| + w.tables.status.processed
            == |w.tables.documents| + w'.tables.status.processed + (if names.None? then 0 else UncountedIn(w1, names.value, env, stop))
  {
    var (w1, names) := w.ListInbox(env);
    if names.Some? {
      ScanConserved(w1, names.value, env, stop);
    }
  }

  /** Conservation, whatever fails: over any history of scans the rows added are the growth of the processed
      counter plus exactly the rows whose insert was not reported or whose counter statement was lost. */
  lemma {:induction false} RowsConserved(w: World, scans: seq<Scan>)
    ensures var w' := AfterScans(w, scans);
            |w'.tables.documents| - |w.tables.documents|
            == w'.tables.status.processed - w.tables.status.processed + UncountedOver(w, scans)
    decreases |scans|
  {
    hide RunScan;
    if scans != [] {
      var env, stop := scans[0].env, scans[0].stop;
      RunConserved(w.(alive := true), env, stop);
      RowsConserved(RunScan(w.(alive := true), env, stop), scans[1..]);
    }
  }

  // ----- files that share a name --------------------------------------------------------------------

  /** Some later fully uploaded file of the listing has the name of the i-th. */
  ghost predicate Shadowed(files: seq<FileInfo>, cutoff: int, i: nat)
    requires i < |files|
  {
    exists j :: i < j < |files| && Stable(files[j], cutoff) && files[j].name == files[i].name
  }

  lemma ShadowedSnoc(files: seq<FileInfo>, cutoff: int, i: nat)
    requires i < |files| - 1
    ensures var n := |files| - 1;
            Shadowed(files, cutoff, i)
            <==> Shadowed(files[..n], cutoff, i) || (Stable(files[n], cutoff) && files[n].name == files[i].name)
  {
    var n := |files| - 1;
    var init := files[..n];
    if Shadowed(files, cutoff, i) {
      var j :| i < j < |files| && Stable(files[j], cutoff) && files[j].name == files[i].name;
      assert j < n ==> init[j] == files[j];
    }
    if Shadowed(init, cutoff, i) {
      var j :| i < j < n && Stable(init[j], cutoff) && init[j].name == init[i].name;
      assert files[j] == init[j];
    }
  }

  /** Of the fully uploaded files of one name exactly the one listed last is cached. */
  lemma {:induction false} CachedIffLast(files: seq<FileInfo>, cutoff: int, i: nat)
    requires DistinctIds(files) && i < |files| && Stable(files[i], cutoff)
    ensures var cache := ScanCache(files, cutoff);
            files[i].name in cache && (cache[files[i].name].id == files[i].id <==> !Shadowed(files, cutoff, i))
    decreases |files|
  {
    var n := |files| - 1;
    if i < n {
      CachedIffLast(files[..n], cutoff, i);
      ShadowedSnoc(files, cutoff, i);
      assert files[n].id != files[i].id;
    }
  }

  ghost predicate Uncached(w: World, id: string) {
    forall n :: n in w.scan ==> w.scan[n].id != id
  }

  lemma ChangesSpare(w: World, name: string, o: Outcome<World>, inserts: bool, reported: bool, h: string, row: DocumentRow, id: string)
    requires Changes(w, name, o, inserts, reported, h, row) && Uncached(w, id)
    ensures Uncached(o.state, id) && multiset(o.state.moved)[id] == multiset(w.moved)[id] && RowsFrom(o.state, id) == RowsFrom(w, id)
  {
  }

  lemma {:induction false} UncachedSpared(w: World, names: seq<string>, env: Env, stop: nat, id: string)
    requires Uncached(w, id)
    ensures var w' := ScanFiles(w, names, env, stop).0;
            multiset(w'.moved)[id] == multiset(w.moved)[id] && RowsFrom(w', id) == RowsFrom(w, id)
    decreases |names|
  {
    hide Process;
    if names != [] && stop > 0 {
      var o, w2 := Process(w, names[0], env), ProcessFile(w, names[0], env);
      var h, row := CallChanges(w, names[0], env);
      ChangesSpare(w, names[0], o, Inserts(w, names[0], env), InsertReported(w, names[0], env), h, row, id);
      ProcessFileKeeps(w, names[0], env);
      SameMovesAndRows(o.state, w2, id);
      UncachedSpared(w2, names[1..], env, stop - 1, id);
    }
  }

  /** A fully uploaded file with a later namesake is neither moved nor indexed in this scan, whatever fails. */
  lemma ShadowedWaits(w: World, env: Env, stop: nat, i: nat)
    requires var files := env.listing(w.tick);
             && w.Draw(env).Ok? && DistinctIds(files) && i < |files|
             && Stable(files[i], env.now(w.tick) - env.stableThreshold)
             && Shadowed(files, env.now(w.tick) - env.stableThreshold, i)
    ensures var id := env.listing(w.tick)[i].id;
            var w' := RunScan(w, env, stop);
            multiset(w'.moved)[id] == multiset(w.moved)[id] && RowsFrom(w', id) == RowsFrom(w, id)
  {
    var files, cutoff := env.listing(w.tick), env.now(w.tick) - env.stableThreshold;
    var id := files[i].id;
    var (w1, names) := w.ListInbox(env);
    ShadowedUncached(files, cutoff, i);
    assert Uncached(w1, id);
    UncachedSpared(w1, names.value, env, stop, id);
    RunScanShape(w, env, stop);
    SameMovesAndRows(w, w1, id);
    SameMovesAndRows(ScanFiles(w1, names.value, env, stop).0, RunScan(w, env, stop), id);
  }

  lemma ShadowedUncached(files: seq<FileInfo>, cutoff: int, i: nat)
    requires DistinctIds(files) && i < |files| && Stable(files[i], cutoff) && Shadowed(files, cutoff, i)
    ensures forall n :: n in ScanCache(files, cutoff) ==> ScanCache(files, cutoff)[n].id != files[i].id
  {
    CachedIffLast(files, cutoff, i);
    ListingCaches(files, cutoff);
  }

  // ----- scans in which nothing fails --------------------------------------------------------------

  /** The file passes re-verification and its download is answered; files without a name fail the schema. */
  predicate Usable(w: World, name: string, env: Env) {
    name != "" && Verified(w, name, env)
  }

  /** The content hashes that the usable files of a scan serve. */
  function ServedIn(w: World, names: seq<string>, env: Env, stop: nat): set<string>
    decreases |names|
  {
    if names == [] || stop == 0 then {}
    else (if Usable(w, names[0], env) then {ServedHash(w, names[0], env)} else {})
         + ServedIn(ProcessFile(w, names[0], env), names[1..], env, stop - 1)
  }

  function UsableIn(w: World, names: seq<string>, env: Env, stop: nat): nat
    decreases |names|
  {
    if names == [] || stop == 0 then 0
    else (if Usable(w, names[0], env) then 1 else 0) + UsableIn(ProcessFile(w, names[0], env), names[1..], env, stop - 1)
  }

  lemma FileServed(w: World, name: string, env: Env)
    requires w.alive && Smooth(env)
    ensures var w' := ProcessFile(w, name, env);
            && w'.alive && w'.scan == w.scan
            && w'.tables.documents.Keys == w.tables.documents.Keys + (if Usable(w, name, env) then {ServedHash(w, name, env)} else {})
  {
    if Usable(w, name, env) {
      SmoothFile(w, name, env);
    } else {
      ProcessAlive(w, name, env);
      ProcessFileKeeps(w, name, env);
      NotFiled(w, name, env);
      NoWrite(w, name, env);
    }
  }

  lemma {:induction false} ScanServed(w: World, names: seq<string>, env: Env, stop: nat)
    requires w.alive && Smooth(env)
    ensures ScanFiles(w, names, env, stop).0.tables.documents.Keys == w.tables.documents.Keys + ServedIn(w, names, env, stop)
    decreases |names|
  {
    hide ProcessFile;
    if names != [] && stop > 0 {
      FileServed(w, names[0], env);
      ScanServed(ProcessFile(w, names[0], env), names[1..], env, stop - 1);
    }
  }

  /** How a call ends when nothing fails. */
  lemma SmoothStatus(w: World, name: string, env: Env)
    requires w.alive && Smooth(env) && name != ""
    ensures var r := Process(w, name, env).reply;
            r.Done? && (r.result.status.Skipped? <==> Verified(w, name, env) && ServedHash(w, name, env) in w.tables.documents)
  {
    var (w1, got) := w.ReadPDF(name, env);
    ProcessSteps(w, name, env);
    if got.Some? {
      var (w2, dup) := w1.IsDuplicate(got.value.1, env);
      if dup == Some(false) {
        NotSkipped(w2, name, got.value.0, got.value.1, env);
      }
    }
  }

  lemma NotSkipped(w: World, name: string, pdf: Bytes, h: Hash, env: Env)
    ensures var r := Extract(DriveBackend(env), w, name, pdf, h).reply; r.Done? && !r.result.status.Skipped?
  {
  }

  lemma FileSkips(w: World, name: string, env: Env)
    requires w.alive && Smooth(env) && name != ""
    ensures var w' := ProcessFile(w, name, env);
            w'.tables.status.skipped - w.tables.status.skipped
            == if Usable(w, name, env) && ServedHash(w, name, env) in w.tables.documents then 1 else 0
  {
    SmoothStatus(w, name, env);
    ProcessAlive(w, name, env);
    ProcessKeepsStatus(w, name, env);
  }

  /** Of what a file serves and what the files after it serve, each new hash is counted once. */
  lemma NewHashes(known: set<string>, first: set<string>, rest: set<string>)
    ensures |first + rest - known| == |first - known| + |rest - (known + first)|
  {
    assert first + rest - known == (first - known) + (rest - (known + first));
  }

  /** The first file of a scan and the state it leaves. */
  lemma ScanHead(w: World, names: seq<string>, env: Env, stop: nat) returns (w1: World, first: set<string>)
    requires w.alive && Smooth(env) && names != [] && stop > 0 && names[0] != ""
    ensures w1.alive && ScanFiles(w, names, env, stop) == ScanFiles(w1, names[1..], env, stop - 1)
    ensures w1.tables.documents.Keys == w.tables.documents.Keys + first
    ensures ServedIn(w, names, env, stop) == first + ServedIn(w1, names[1..], env, stop - 1)
    ensures UsableIn(w, names, env, stop) == |first| + UsableIn(w1, names[1..], env, stop - 1)
    ensures w1.tables.status.skipped - w.tables.status.skipped == |first| - |first - w.tables.documents.Keys|
  {
    hide ProcessFile;
    w1 := ProcessFile(w, names[0], env);
    first := if Usable(w, names[0], env) then {ServedHash(w, names[0], env)} else {};
    FileServed(w, names[0], env);
    FileSkips(w, names[0], env);
    if Usable(w, names[0], env) {
      OneServed(w.tables.documents.Keys, ServedHash(w, names[0], env));
    }
  }

  lemma OneServed(known: set<string>, h: string)
    ensures |{h}| - |{h} - known| == if h in known then 1 else 0
  {
    assert {h} - known == if h in known then {} else {h};
  }

  lemma {:induction false} ScanSkips(w: World, names: seq<string>, env: Env, stop: nat)
    requires w.alive && Smooth(env) && "" !in names
    ensures ScanFiles(w, names, env, stop).0.tables.status.skipped - w.tables.status.skipped
            == UsableIn(w, names, env, stop) - |ServedIn(w, names, env, stop) - w.tables.documents.Keys|
    decreases |names|
  {
    hide ProcessFile;
    if names != [] && stop > 0 {
      var w1, first := ScanHead(w, names, env, stop);
      ScanSkips(w1, names[1..], env, stop - 1);
      NewHashes(w.tables.documents.Keys, first, ServedIn(w1, names[1..], env, stop - 1));
    }
  }

  lemma KeysAdded(before: map<string, DocumentRow>, after: map<string, DocumentRow>, served: set<string>)
    requires after.Keys == before.Keys + served
    ensures |after| - |before| == |served - before.Keys|
  {
    assert after.Keys == before.Keys + (served - before.Keys);
  }

  /** A scan in which nothing fails, from any state, orphans and partial folders included: the index ends with
      its old hashes and those the usable files serve, Processed counts the distinct new ones, the counters
      together count the files handled, and, of named files, Skipped counts the other usable ones, so that
      Quarantine counts those that are not usable. */
  lemma SmoothScan(w: World, env: Env, stop: nat)
    requires w.alive && Smooth(env)
    ensures var (w1, names) := w.ListInbox(env);
            var w' := RunScan(w, env, stop);
            names.Some? &&
            var served := ServedIn(w1, names.value, env, stop);
            var before, after := w.tables.status, w'.tables.status;
            && w'.tables.documents.Keys == w.tables.documents.Keys + served
            && after.processed - before.processed == |served - w.tables.documents.Keys|
            && Handled(after) - Handled(before) == HandledIn(w, env, stop)
            && ("" !in names.value ==>
                  after.skipped - before.skipped
                  == UsableIn(w1, names.value, env, stop) - |served - w.tables.documents.Keys|)
  {
    hide RunScan;
    var (w1, names) := w.ListInbox(env);
    ScanServed(w1, names.value, env, stop);
    RunScanShape(w, env, stop);
    RunCounted(w, env, stop);
    KeysAdded(w.tables.documents, RunScan(w, env, stop).tables.documents, ServedIn(w1, names.value, env, stop));
    SkippedByFiles(w, env, stop);
    if "" !in names.value {
      ScanSkips(w1, names.value, env, stop);
    }
  }

  lemma SkippedByFiles(w: World, env: Env, stop: nat)
    ensures var (w1, names) := w.ListInbox(env);
            names.Some? ==> RunScan(w, env, stop).tables.status.skipped == ScanFiles(w1, names.value, env, stop).0.tables.status.skipped
  {
  }

  // ----- scanning again ----------------------------------------------------------------------------

  /** Whatever a download of a cached file serves is in the index. */
  ghost predicate AllKnown(w: World, env: Env) {
    forall t, n :: n in w.scan && w.scan[n].id in env.served(t) ==>
      var rev := env.served(t)[w.scan[n].id];
      env.hash(env.content(w.scan[n].id, rev.size, rev.modified)) in w.tables.documents
  }

  lemma KnownNotWritten(w: World, name: string, env: Env)
    requires AllKnown(w, env)
    ensures WriteArgs(w, name, env).None?
  {
    var (w1, got) := w.ReadPDF(name, env);
    if got.Some? {
      assert w.scan[name].id in env.served(w.tick);
    }
  }

  lemma {:induction false} KnownFilesNothing(w: World, names: seq<string>, env: Env, stop: nat)
    requires AllKnown(w, env)
    ensures var w' := ScanFiles(w, names, env, stop).0;
            w'.folders == w.folders && w'.moved == w.moved && w'.tables.documents == w.tables.documents
    decreases |names|
  {
    hide Process;
    if names != [] && stop > 0 {
      KnownNotWritten(w, names[0], env);
      NoWrite(w, names[0], env);
      ProcessFileKeeps(w, names[0], env);
      KnownFilesNothing(ProcessFile(w, names[0], env), names[1..], env, stop - 1);
    }
  }

  /** Idempotence: after a scan in which nothing fails, a scan that only meets content the first one served
      files nothing: library, index and processed folder stay as they are, whatever fails in it. */
  lemma SecondScanFilesNothing(w: World, env: Env, stop: nat, env': Env, stop': nat)
    requires w.alive && Smooth(env)
    requires var (w1, names) := w.ListInbox(env);
             var w2 := RunScan(w, env, stop).(alive := true);
             var known := if names.None? then {} else ServedIn(w1, names.value, env, stop);
             forall t, f :: f in env'.listing(w2.tick) && f.id in env'.served(t) ==>
               env'.hash(env'.content(f.id, env'.served(t)[f.id].size, env'.served(t)[f.id].modified)) in known
    ensures var w2 := RunScan(w, env, stop).(alive := true);
            var w3 := RunScan(w2, env', stop');
            w3.folders == w2.folders && w3.moved == w2.moved && w3.tables.documents == w2.tables.documents
  {
    hide RunScan;
    SmoothScan(w, env, stop);
    KnownScan(RunScan(w, env, stop).(alive := true), env', stop');
  }

  lemma KnownScan(w: World, env: Env, stop: nat)
    requires forall t, f :: f in env.listing(w.tick) && f.id in env.served(t) ==>
               env.hash(env.content(f.id, env.served(t)[f.id].size, env.served(t)[f.id].modified)) in w.tables.documents
    ensures var w' := RunScan(w, env, stop);
            w'.folders == w.folders && w'.moved == w.moved && w'.tables.documents == w.tables.documents
  {
    hide RunScan, ScanFiles, ScanCache, StableNames;
    var (w1, names) := w.ListInbox(env);
    RunScanShape(w, env, stop);
    if names.Some? {
      ListingCaches(env.listing(w.tick), env.now(w.tick) - env.stableThreshold);
      assert AllKnown(w1, env);
      KnownFilesNothing(w1, names.value, env, stop);
    }
  }
}
