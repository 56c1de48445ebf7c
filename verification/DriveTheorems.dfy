/** How the SQLite index relates to the Drive library, and what one scan can do to one file. */
module DriveTheorems {
  import opened Basics
  import opened Faults
  import opened Naming
  import opened Pipeline
  import opened Store
  import opened Drive

  // ----- the scan cache ------------------------------------------------------------

  /** Cached under its own name, listed, and fully uploaded. */
  ghost predicate CacheSound(files: seq<FileInfo>, cutoff: int) {
    && (forall n :: n in ScanCache(files, cutoff) <==> n in StableNames(files, cutoff))
    && (forall n :: n in ScanCache(files, cutoff) ==>
          var f := ScanCache(files, cutoff)[n];
          f.name == n && f in files && Stable(f, cutoff))
  }

  /** After a listing, names and cache keys are the same set, although names may repeat. */
  lemma {:induction false} ListingCaches(files: seq<FileInfo>, cutoff: int)
    ensures CacheSound(files, cutoff)
  {
    if files != [] {
      var init := files[..|files| - 1];
      ListingCaches(init, cutoff);
      assert files == init + [files[|files| - 1]];
    }
  }

  ghost predicate DistinctIds(files: seq<FileInfo>) {
    forall i, j | 0 <= i < j < |files| :: files[i].id != files[j].id
  }

  ghost predicate IdsDistinct(scan: map<string, FileInfo>) {
    forall n, m :: n in scan && m in scan && scan[n].id == scan[m].id ==> n == m
  }

  lemma CachedIdsDistinct(files: seq<FileInfo>, cutoff: int)
    requires DistinctIds(files)
    ensures IdsDistinct(ScanCache(files, cutoff))
  {
    var scan := ScanCache(files, cutoff);
    ListingCaches(files, cutoff);
    forall n, m | n in scan && m in scan && scan[n].id == scan[m].id ensures n == m {
      assert scan[n] in files && scan[m] in files;
    }
  }

  // ----- one call ------------------------------------------------------------------

  /** What the pipeline hands to WriteEntry, if it gets that far, and in which state. */
  function WriteArgs(w: World, name: string, env: Env): Option<(World, Entry<Bytes>)> {
    var (w1, got) := w.ReadPDF(name, env);
    if got.None? then None else
    var (w2, dup) := w1.IsDuplicate(got.value.1, env);
    var transcript, props := env.extract(w2.tick), env.answer(w2.tick);
    if dup != Some(false) || transcript.None? || props.None? then None else
    var meta := ClassifiedAs(props.value, name, got.value.1);
    if SchemaValid(meta) then Some((w2, Entry(got.value.0, transcript.value, Described(meta)))) else None
  }

  /** Library, cache, moves and tables are the same. */
  predicate Calm(w: World, w': World) {
    w'.folders == w.folders && w'.scan == w.scan && w'.moved == w.moved && w'.tables == w.tables
  }

  lemma CleanupCalm(w: World, pdf: Bytes, env: Env)
    ensures Calm(w, w.Cleanup(pdf, env))
  {
  }

  /** A call that does not reach WriteEntry changes nothing that matters. */
  lemma NoWrite(w: World, name: string, env: Env)
    requires WriteArgs(w, name, env).None?
    ensures var o := Process(w, name, env);
            Calm(w, o.state) && (o.reply.Done? ==> !o.reply.result.status.Processed?)
  {
    var (w1, got) := w.ReadPDF(name, env);
    if got.Some? {
      var (w2, dup) := w1.IsDuplicate(got.value.1, env);
      var o := CheckDuplicate(DriveBackend(env), w1, name, got.value.0, got.value.1);
      if dup == Some(false) {
        NoWriteAfterCheck(w2, name, got.value.0, got.value.1, env);
      }
      assert Calm(w, o.state);
      CleanupCalm(o.state, got.value.0, env);
    }
  }

  lemma NoWriteAfterCheck(w: World, name: string, pdf: Bytes, h: Hash, env: Env)
    requires var transcript, props := env.extract(w.tick), env.answer(w.tick);
             transcript.None? || props.None? || !SchemaValid(ClassifiedAs(props.value, name, h))
    ensures var o := Extract(DriveBackend(env), w, name, pdf, h);
            Calm(w, o.state) && o.reply.Done? && o.reply.result.status.Quarantined?
  {
  }

  /** The entry a call writes: its hash is that of its PDF and is not yet in the index. */
  ghost predicate Unindexed(w: World, name: string, env: Env, e: Entry<Bytes>) {
    && name in w.scan && e.meta.sourceFilename == name && SchemaValid(e.meta)
    && e.meta.contentHash == e.meta.id == env.hash(e.pdf)
    && e.meta.contentHash !in w.tables.documents
  }

  /** What follows a write that ended in w3: the move of the original if and only if the write succeeded, and
      nothing else that matters. */
  ghost predicate Follows(w3: World, name: string, written: bool, env: Env, o: Outcome<World>) {
    && o.reply.Done? && o.state.folders == w3.folders && o.state.scan == w3.scan && o.state.tables == w3.tables
    && (if written then o.reply.result.status.Processed? && o.state.moved == w3.MoveToProcessed(name, env).0.moved
        else o.reply.result.status.Quarantined? && o.state.moved == w3.moved)
  }

  lemma MoveFollows(w3: World, name: string, dir: string, h: Hash, env: Env)
    ensures var (w4, moved) := w3.MoveToProcessed(name, env);
            Follows(w3, name, true, env, Outcome(w4, Done(Result(Processed, Some(h), dir, None, moved))))
    ensures Follows(w3, name, false, env, Outcome(w3.Quarantine(name, LibraryWrite, env), Fault(Some(h), LibraryWrite)))
  {
  }

  lemma FileFollows(w: World, name: string, h: Hash, e: Entry<Bytes>, env: Env)
    ensures var (w3, r) := w.WriteEntry(e, env);
            Follows(w3, name, r.Some?, env, File(DriveBackend(env), w, name, h, e))
  {
    var (w3, r) := w.WriteEntry(e, env);
    FileSteps(w, name, h, e, env);
    MoveFollows(w3, name, if r.Some? then r.value else "", h, env);
  }

  lemma FollowsCleanup(w3: World, name: string, written: bool, env: Env, o: Outcome<World>, pdf: Bytes)
    requires Follows(w3, name, written, env, o)
    ensures Follows(w3, name, written, env, o.(state := o.state.Cleanup(pdf, env)))
  {
  }

  lemma ReachesFile(w: World, name: string, pdf: Bytes, h: Hash, env: Env)
    requires env.extract(w.tick).Some? && env.answer(w.tick).Some?
    requires SchemaValid(ClassifiedAs(env.answer(w.tick).value, name, h))
    ensures var e := Entry(pdf, env.extract(w.tick).value, Described(ClassifiedAs(env.answer(w.tick).value, name, h)));
            Extract(DriveBackend(env), w, name, pdf, h) == File(DriveBackend(env), w, name, h, e)
  {
  }

  /** A call that reaches WriteEntry does so from an unchanged state, and goes on to move the original if
      and only if the write succeeds. */
  lemma Writes(w: World, name: string, env: Env)
    requires WriteArgs(w, name, env).Some?
    ensures var (w2, e) := WriteArgs(w, name, env).value;
            var (w3, r) := w2.WriteEntry(e, env);
            Calm(w, w2) && Unindexed(w, name, env, e) && Follows(w3, name, r.Some?, env, Process(w, name, env))
  {
    var (w1, got) := w.ReadPDF(name, env);
    var (w2, dup) := w1.IsDuplicate(got.value.1, env);
    var e := WriteArgs(w, name, env).value.1;
    var o := CheckDuplicate(DriveBackend(env), w1, name, got.value.0, got.value.1);
    ReachesFile(w2, name, got.value.0, got.value.1, env);
    assert o == File(DriveBackend(env), w2, name, got.value.1, e);
    FileFollows(w2, name, got.value.1, e, env);
    var (w3, r) := w2.WriteEntry(e, env);
    FollowsCleanup(w3, name, r.Some?, env, o, got.value.0);
    assert Process(w, name, env) == o.(state := o.state.Cleanup(got.value.0, env));
  }

  // ----- the temporary file ---------------------------------------------------------------

  lemma WriteKeepsTemps(w: World, e: Entry<Bytes>, env: Env)
    ensures w.WriteEntry(e, env).0.temps == w.temps
  {
    var f := w.Draw(env);
    if f.Ok? {
      var (w1, ok1) := w.Step(f).CreateFolder(w.EntryName(e.meta, env), env);
      if ok1 {
        var (w2, ok2) := w1.UploadAll(e, env);
        assert w2.temps == w1.temps;
      }
    }
  }

  lemma FileKeepsTemps(w: World, name: string, pdf: Bytes, h: Hash, env: Env)
    ensures Extract(DriveBackend(env), w, name, pdf, h).state.temps == w.temps
  {
    var transcript, props := env.extract(w.tick), env.answer(w.tick);
    if transcript.Some? && props.Some? && SchemaValid(ClassifiedAs(props.value, name, h)) {
      var e := Entry(pdf, transcript.value, Described(ClassifiedAs(props.value, name, h)));
      ReachesFile(w, name, pdf, h, env);
      FileSteps(w, name, h, e, env);
      WriteKeepsTemps(w, e, env);
    }
  }

  /** A read that succeeds leaves a temporary file, which is there until the end of the run and is gone
      afterwards, on every exit, unless the process has died or the removal does not take place. */
  lemma TempRemoved(w: World, name: string, env: Env)
    ensures var (w1, got) := w.ReadPDF(name, env);
            var w' := Process(w, name, env).state;
            match got
            case None => w'.temps == w.temps
            case Some((pdf, h)) =>
              var last := CheckDuplicate(DriveBackend(env), w1, name, pdf, h).state;
              && last.temps == w1.temps == w.temps + multiset{pdf}
              && w'.temps == if last.alive && Took(env.fate(last.tick)) then w.temps else last.temps
  {
    hide Extract;
    var (w1, got) := w.ReadPDF(name, env);
    ProcessSteps(w, name, env);
    if got.Some? {
      var (w2, dup) := w1.IsDuplicate(got.value.1, env);
      FileKeepsTemps(w2, name, got.value.0, got.value.1, env);
      assert w.temps + multiset{got.value.0} - multiset{got.value.0} == w.temps;
    }
  }

  // ----- one write -----------------------------------------------------------------

  /** The metadata upload took place: everything before it succeeded. */
  predicate Uploaded(w: World, env: Env) {
    && w.alive
    && env.fate(w.tick).Ok? && env.fate(w.tick + 1).Ok? && env.fate(w.tick + 2).Ok? && env.fate(w.tick + 3).Ok?
    && Took(env.fate(w.tick + 4))
  }

  /** The index row was committed: the metadata upload was also reported, and the insert took place. */
  predicate Indexed(w: World, env: Env) {
    Uploaded(w, env) && env.fate(w.tick + 4).Ok? && Took(env.store(w.tick + 5))
  }

  function NewFolder(w: World, e: Entry<Bytes>, env: Env): DriveFolder {
    DriveFolder(w.EntryName(e.meta, env), Some(e.pdf), Some(e.transcript), Some(e.meta.(fileDescription := "")))
  }

  function NewRow(w: World, e: Entry<Bytes>, env: Env): DocumentRow {
    DocumentRow(w.EntryName(e.meta, env), if e.meta.sourceFilename in w.scan then w.scan[e.meta.sourceFilename].id else "",
                e.meta.sourceFilename)
  }

  lemma UploadEffect(w: World, e: Entry<Bytes>, env: Env)
    requires w.folders != [] && w.Last().pdf.None? && w.Last().transcript.None? && w.Last().meta.None?
    ensures var (w', ok) := w.UploadAll(e, env);
            var took := w.alive && env.fate(w.tick).Ok? && env.fate(w.tick + 1).Ok? && Took(env.fate(w.tick + 2));
            && w' == w.(folders := w'.folders, tick := w'.tick, alive := w'.alive)
            && |w'.folders| == |w.folders| && w'.folders[..|w.folders| - 1] == w.folders[..|w.folders| - 1]
            && ok == (took && env.fate(w.tick + 2).Ok?)
            && (ok ==> w'.alive && w'.tick == w.tick + 3)
            && w'.Last().name == w.Last().name
            && (if took then w'.Last() == DriveFolder(w.Last().name, Some(e.pdf), Some(e.transcript), Some(e.meta.(fileDescription := "")))
                else w'.Last().meta.None?)
  {
  }

  /** One further folder, which a library scan does not count. */
  predicate Partial(w: World, w': World, name: string) {
    && |w'.folders| == |w.folders| + 1 && w'.folders[..|w.folders|] == w.folders
    && w'.Last().name == name && w'.Last().meta.None?
  }

  /** WriteEntry up to the index row. */
  function Build(w: World, e: Entry<Bytes>, env: Env): (World, bool) {
    var f := w.Draw(env);
    if !f.Ok? then (w.Step(f), false) else
    var (w1, ok1) := w.Step(f).CreateFolder(w.EntryName(e.meta, env), env);
    if ok1 then w1.UploadAll(e, env) else (w1, false)
  }

  lemma BuildEffect(w: World, e: Entry<Bytes>, env: Env)
    ensures var (w', ok) := Build(w, e, env);
            && w'.scan == w.scan && w'.moved == w.moved && w'.tables == w.tables
            && (if Uploaded(w, env) then w'.folders == w.folders + [NewFolder(w, e, env)]
                else w'.folders == w.folders || Partial(w, w', w.EntryName(e.meta, env)))
            && ok == (Uploaded(w, env) && env.fate(w.tick + 4).Ok?)
            && (ok ==> w'.alive && w'.tick == w.tick + 5)
  {
    hide World.UploadAll;
    var f := w.Draw(env);
    if f.Ok? {
      var (w1, ok1) := w.Step(f).CreateFolder(w.EntryName(e.meta, env), env);
      if ok1 {
        UploadEffect(w1, e, env);
        var (w2, ok2) := w1.UploadAll(e, env);
        assert w2.folders == w2.folders[..|w.folders|] + [w2.Last()];
      }
    }
  }

  lemma WriteIsBuildAndRow(w: World, e: Entry<Bytes>, env: Env)
    ensures var (w1, ok) := Build(w, e, env);
            w.WriteEntry(e, env) ==
            if !ok then (w1, None)
            else var (w2, put) := w1.PutRow(e, w.EntryName(e.meta, env), env);
                 (w2, if put then Some(w.EntryName(e.meta, env)) else None)
  {
  }

  /** WriteEntry adds at most one folder, which shows its metadata if and only if the uploads got that far,
      and a row for it if and only if the insert did too; success is reported only with the row in place. */
  ghost predicate Written(w: World, e: Entry<Bytes>, env: Env, w': World, ok: bool) {
    && w'.scan == w.scan && w'.moved == w.moved && w'.tables.status == w.tables.status
    && (if Uploaded(w, env) then w'.folders == w.folders + [NewFolder(w, e, env)]
        else w'.folders == w.folders || Partial(w, w', w.EntryName(e.meta, env)))
    && w'.tables.documents == (if Indexed(w, env) then w.tables.documents[e.meta.contentHash := NewRow(w, e, env)]
                               else w.tables.documents)
    && (ok <==> Indexed(w, env) && env.store(w.tick + 5).Ok?)
  }

  lemma PutRowEffect(w: World, e: Entry<Bytes>, name: string, env: Env)
    requires w.alive && e.meta.contentHash !in w.tables.documents
    ensures var (w', ok) := w.PutRow(e, name, env);
            var id := if e.meta.sourceFilename in w.scan then w.scan[e.meta.sourceFilename].id else "";
            && w' == w.(tables := w'.tables, tick := w'.tick, alive := w'.alive)
            && w'.tables == w.tables.(documents := w'.tables.documents)
            && w'.tables.documents == (if Took(env.store(w.tick))
                                       then w.tables.documents[e.meta.contentHash := DocumentRow(name, id, e.meta.sourceFilename)]
                                       else w.tables.documents)
            && ok == env.store(w.tick).Ok?
  {
  }

  lemma WriteEffect(w: World, e: Entry<Bytes>, env: Env)
    requires e.meta.contentHash !in w.tables.documents
    ensures var (w', r) := w.WriteEntry(e, env); Written(w, e, env, w', r.Some?)
  {
    hide World.WriteEntry;
    WriteIsBuildAndRow(w, e, env);
    BuildEffect(w, e, env);
    var (w1, ok) := Build(w, e, env);
    if ok {
      PutRowEffect(w1, e, w.EntryName(e.meta, env), env);
    }
  }

  // ----- the index against the library -------------------------------------------------

  predicate HasHash(f: DriveFolder, h: string) {
    f.meta.Some? && f.meta.value.contentHash == h
  }

  /** What a full scan of the library would count for a hash. */
  function Copies(fs: seq<DriveFolder>, h: string): nat {
    if fs == [] then 0
    else Copies(fs[..|fs| - 1], h) + (if HasHash(fs[|fs| - 1], h) then 1 else 0)
  }

  function Rows(w: World, h: string): nat {
    if h in w.tables.documents then 1 else 0
  }

  /** An entry for h that this call completes but leaves out of the index: the metadata was uploaded, and
      either that upload was not reported or the insert did not take place. */
  function Orphans(w: World, name: string, env: Env, h: string): nat {
    match WriteArgs(w, name, env)
    case None => 0
    case Some((w2, e)) => if e.meta.contentHash == h && Uploaded(w2, env) && !Indexed(w2, env) then 1 else 0
  }

  lemma CopiesSnoc(fs: seq<DriveFolder>, f: DriveFolder, h: string)
    ensures Copies(fs + [f], h) == Copies(fs, h) + (if HasHash(f, h) then 1 else 0)
  {
    assert (fs + [f])[..|fs|] == fs;
  }

  lemma WrittenBalance(w: World, e: Entry<Bytes>, env: Env, w': World, ok: bool, h: string)
    requires Written(w, e, env, w', ok) && e.meta.contentHash !in w.tables.documents
    ensures Copies(w'.folders, h) + Rows(w, h)
            == Copies(w.folders, h) + Rows(w', h) + (if e.meta.contentHash == h && Uploaded(w, env) && !Indexed(w, env) then 1 else 0)
  {
    if w'.folders != w.folders {
      assert w'.folders == w'.folders[..|w.folders|] + [w'.Last()];
      CopiesSnoc(w.folders, w'.Last(), h);
    }
  }

  /** One call changes library copies and index rows of a hash in step, but for the orphan it may leave. */
  lemma ProcessBalance(w: World, name: string, env: Env, h: string)
    ensures var w' := Process(w, name, env).state;
            Copies(w'.folders, h) + Rows(w, h) == Copies(w.folders, h) + Rows(w', h) + Orphans(w, name, env, h)
  {
    hide Process, World.WriteEntry, Written, Copies, Indexed, Uploaded;
    if WriteArgs(w, name, env).None? {
      NoWrite(w, name, env);
    } else {
      var (w2, e) := WriteArgs(w, name, env).value;
      Writes(w, name, env);
      WriteEffect(w2, e, env);
      var (w3, r) := w2.WriteEntry(e, env);
      WrittenBalance(w2, e, env, w3, r.Some?, h);
    }
  }

  ghost function OrphansIn(w: World, names: seq<string>, env: Env, stop: nat, h: string): nat
    decreases |names|
  {
    if names == [] || stop == 0 then 0
    else Orphans(w, names[0], env, h) + OrphansIn(ProcessFile(w, names[0], env), names[1..], env, stop - 1, h)
  }

  lemma ProcessFileKeeps(w: World, name: string, env: Env)
    ensures var w1, w2 := Process(w, name, env).state, ProcessFile(w, name, env);
            w2.folders == w1.folders && w2.scan == w1.scan && w2.moved == w1.moved && w2.tables.documents == w1.tables.documents
  {
    hide Process;
  }

  lemma {:induction false} ScanBalance(w: World, names: seq<string>, env: Env, stop: nat, h: string)
    ensures var w' := ScanFiles(w, names, env, stop).0;
            Copies(w'.folders, h) + Rows(w, h) == Copies(w.folders, h) + Rows(w', h) + OrphansIn(w, names, env, stop, h)
    decreases |names|
  {
    hide Process;
    if names != [] && stop > 0 {
      ProcessBalance(w, names[0], env, h);
      ProcessFileKeeps(w, names[0], env);
      ScanBalance(ProcessFile(w, names[0], env), names[1..], env, stop - 1, h);
    }
  }

  /** Listing the inbox and the status statements touch neither library nor index nor moves. */
  lemma RunScanShape(w: World, env: Env, stop: nat)
    ensures var (w1, names) := w.ListInbox(env);
            var w' := RunScan(w, env, stop);
            var last := if names.None? then w1 else ScanFiles(w1, names.value, env, stop).0;
            && w1.folders == w.folders && w1.tables == w.tables && w1.moved == w.moved
            && w'.folders == last.folders && w'.tables.documents == last.tables.documents && w'.moved == last.moved
  {
  }

  /** Scans by successive runs of the daemon, each of which may stop anywhere. */
  datatype Scan = Scan(env: Env, stop: nat)

  ghost function AfterScans(w: World, scans: seq<Scan>): World
    decreases |scans|
  {
    if scans == [] then w
    else AfterScans(RunScan(w.(alive := true), scans[0].env, scans[0].stop), scans[1..])
  }

  ghost function OrphansOver(w: World, scans: seq<Scan>, h: string): nat
    decreases |scans|
  {
    if scans == [] then 0
    else
      var env := scans[0].env;
      var w0 := w.(alive := true);
      var (w1, names) := w0.ListInbox(env);
      (if names.None? then 0 else OrphansIn(w1, names.value, env, scans[0].stop, h))
      + OrphansOver(RunScan(w0, env, scans[0].stop), scans[1..], h)
  }

  /** Conservation: over any history of scans, faults and stops, the complete entries for a hash are its
      index row, if it has one, and exactly the orphans. */
  lemma {:induction false} IndexConservation(w: World, scans: seq<Scan>, h: string)
    ensures var w' := AfterScans(w, scans);
            Copies(w'.folders, h) + Rows(w, h) == Copies(w.folders, h) + Rows(w', h) + OrphansOver(w, scans, h)
    decreases |scans|
  {
    hide RunScan;
    if scans != [] {
      var env, stop := scans[0].env, scans[0].stop;
      var w0 := w.(alive := true);
      var (w1, names) := w0.ListInbox(env);
      RunScanShape(w0, env, stop);
      var w2 := RunScan(w0, env, stop);
      if names.Some? {
        ScanBalance(w1, names.value, env, stop, h);
      }
      IndexConservation(w2, scans[1..], h);
    }
  }

  /** From an empty library and index: at most one entry plus the orphans, and the index gives the answer of
      a full library scan exactly if the hash is indexed or was never orphaned. */
  lemma IndexAgrees(w: World, scans: seq<Scan>, h: string)
    requires w.folders == [] && w.tables.documents == map[]
    ensures var w' := AfterScans(w, scans);
            var orphans := OrphansOver(w, scans, h);
            && Copies(w'.folders, h) <= 1 + orphans
            && ((h in w'.tables.documents <==> Copies(w'.folders, h) > 0) <==> (h in w'.tables.documents || orphans == 0))
  {
    IndexConservation(w, scans, h);
  }

  /** If this call reaches WriteEntry and its metadata upload takes place, the upload is reported and the insert
      that follows takes place. */
  ghost predicate Accounted(w: World, name: string, env: Env) {
    var args := WriteArgs(w, name, env);
    args.Some? ==>
      var t := args.value.0.tick;
      Took(env.fate(t + 4)) ==> env.fate(t + 4).Ok? && Took(env.store(t + 5))
  }

  ghost predicate AccountedIn(w: World, names: seq<string>, env: Env, stop: nat)
    decreases |names|
  {
    names == [] || stop == 0 ||
    (Accounted(w, names[0], env) && AccountedIn(ProcessFile(w, names[0], env), names[1..], env, stop - 1))
  }

  /** The same for every call of a history. Nothing is asked of any other operation. */
  ghost predicate AccountedOver(w: World, scans: seq<Scan>)
    decreases |scans|
  {
    scans == [] ||
    var env, stop := scans[0].env, scans[0].stop;
    var w0 := w.(alive := true);
    var (w1, names) := w0.ListInbox(env);
    && (names.Some? ==> AccountedIn(w1, names.value, env, stop))
    && AccountedOver(RunScan(w0, env, stop), scans[1..])
  }

  lemma NoOrphan(w: World, name: string, env: Env, h: string)
    requires Accounted(w, name, env)
    ensures Orphans(w, name, env, h) == 0
  {
  }

  lemma {:induction false} NoOrphansIn(w: World, names: seq<string>, env: Env, stop: nat, h: string)
    requires AccountedIn(w, names, env, stop)
    ensures OrphansIn(w, names, env, stop, h) == 0
    decreases |names|
  {
    hide ProcessFile;
    if names != [] && stop > 0 {
      NoOrphan(w, names[0], env, h);
      NoOrphansIn(ProcessFile(w, names[0], env), names[1..], env, stop - 1, h);
    }
  }

  lemma {:induction false} NoOrphans(w: World, scans: seq<Scan>, h: string)
    requires AccountedOver(w, scans)
    ensures OrphansOver(w, scans, h) == 0
    decreases |scans|
  {
    hide RunScan;
    if scans != [] {
      var env, stop := scans[0].env, scans[0].stop;
      var w0 := w.(alive := true);
      var (w1, names) := w0.ListInbox(env);
      if names.Some? {
        NoOrphansIn(w1, names.value, env, stop, h);
      }
      NoOrphans(RunScan(w0, env, stop), scans[1..], h);
    }
  }

  /** The index refines the library scan: from an empty library and index, through any history in which each
      metadata upload that takes place is reported and the insert after it takes place, whatever other request
      or statement fails or stops, the index answers as a full scan of the library would, and the library holds
      at most one complete entry per hash. */
  lemma IndexRefinesScan(w: World, scans: seq<Scan>, h: string)
    requires w.folders == [] && w.tables.documents == map[]
    requires AccountedOver(w, scans)
    ensures var w' := AfterScans(w, scans);
            (h in w'.tables.documents <==> Copies(w'.folders, h) > 0) && Copies(w'.folders, h) <= 1
  {
    NoOrphans(w, scans, h);
    IndexAgrees(w, scans, h);
  }

  // ----- every row names its entry -------------------------------------------------------

  ghost predicate EntryOf(f: DriveFolder, h: string, row: DocumentRow, hash: Bytes -> Hash) {
    && f.name == row.entryName && HasHash(f, h)
    && f.pdf.Some? && hash(f.pdf.value) == h && f.transcript.Some?
    && SchemaValid(f.meta.value) && f.meta.value.sourceFilename == row.sourceFilename
  }

  ghost predicate RowsHaveEntries(fs: seq<DriveFolder>, rows: map<string, DocumentRow>, hash: Bytes -> Hash) {
    forall h :: h in rows ==> exists i :: 0 <= i < |fs| && EntryOf(fs[i], h, rows[h], hash)
  }

  lemma RowsExtend(fs: seq<DriveFolder>, f: DriveFolder, rows: map<string, DocumentRow>, hash: Bytes -> Hash)
    requires RowsHaveEntries(fs, rows, hash)
    ensures RowsHaveEntries(fs + [f], rows, hash)
  {
    forall h | h in rows ensures exists i :: 0 <= i < |fs + [f]| && EntryOf((fs + [f])[i], h, rows[h], hash) {
      var i :| 0 <= i < |fs| && EntryOf(fs[i], h, rows[h], hash);
      assert EntryOf((fs + [f])[i], h, rows[h], hash);
    }
  }

  lemma RowsInsert(fs: seq<DriveFolder>, f: DriveFolder, rows: map<string, DocumentRow>, h: string, row: DocumentRow, hash: Bytes -> Hash)
    requires RowsHaveEntries(fs + [f], rows, hash) && EntryOf(f, h, row, hash)
    ensures RowsHaveEntries(fs + [f], rows[h := row], hash)
  {
    assert EntryOf((fs + [f])[|fs|], h, row, hash);
  }

  lemma ProcessKeepsRows(w: World, name: string, env: Env)
    requires RowsHaveEntries(w.folders, w.tables.documents, env.hash)
    ensures var w' := Process(w, name, env).state; RowsHaveEntries(w'.folders, w'.tables.documents, env.hash)
  {
    hide Process;
    if WriteArgs(w, name, env).None? {
      NoWrite(w, name, env);
    } else {
      var (w2, e) := WriteArgs(w, name, env).value;
      Writes(w, name, env);
      WriteEffect(w2, e, env);
      var (w3, r) := w2.WriteEntry(e, env);
      WrittenKeepsRows(w2, name, e, env, w3, r.Some?);
    }
  }

  lemma WrittenKeepsRows(w: World, name: string, e: Entry<Bytes>, env: Env, w': World, ok: bool)
    requires RowsHaveEntries(w.folders, w.tables.documents, env.hash)
    requires Written(w, e, env, w', ok) && Unindexed(w, name, env, e)
    ensures RowsHaveEntries(w'.folders, w'.tables.documents, env.hash)
  {
    if w'.folders != w.folders {
      assert w'.folders == w'.folders[..|w.folders|] + [w'.Last()];
      RowsExtend(w.folders, w'.Last(), w.tables.documents, env.hash);
      if Indexed(w, env) {
        var f := NewFolder(w, e, env);
        assert EntryOf(f, e.meta.contentHash, NewRow(w, e, env), env.hash);
        RowsInsert(w.folders, f, w.tables.documents, e.meta.contentHash, NewRow(w, e, env), env.hash);
      }
    }
  }

  lemma {:induction false} ScanKeepsRows(w: World, names: seq<string>, env: Env, stop: nat)
    requires RowsHaveEntries(w.folders, w.tables.documents, env.hash)
    ensures var w' := ScanFiles(w, names, env, stop).0; RowsHaveEntries(w'.folders, w'.tables.documents, env.hash)
    decreases |names|
  {
    hide Process;
    if names != [] && stop > 0 {
      ProcessKeepsRows(w, names[0], env);
      ProcessFileKeeps(w, names[0], env);
      ScanKeepsRows(ProcessFile(w, names[0], env), names[1..], env, stop - 1);
    }
  }

  /** In every state any history of scans can reach, each index row names a complete entry with its hash. */
  lemma {:induction false} RowsNameEntries(w: World, scans: seq<Scan>, hash: Bytes -> Hash)
    requires RowsHaveEntries(w.folders, w.tables.documents, hash)
    requires forall i | 0 <= i < |scans| :: scans[i].env.hash == hash
    ensures var w' := AfterScans(w, scans); RowsHaveEntries(w'.folders, w'.tables.documents, hash)
    decreases |scans|
  {
    hide RunScan;
    if scans != [] {
      var env, stop := scans[0].env, scans[0].stop;
      var w0 := w.(alive := true);
      var (w1, names) := w0.ListInbox(env);
      RunScanShape(w0, env, stop);
      if names.Some? {
        ScanKeepsRows(w1, names.value, env, stop);
      }
      RowsNameEntries(RunScan(w0, env, stop), scans[1..], hash);
    }
  }

  // ----- entry names ---------------------------------------------------------------------

  ghost predicate NamesDistinct(fs: seq<DriveFolder>) {
    forall i, j | 0 <= i < j < |fs| :: fs[i].name != fs[j].name
  }

  lemma NewNameUnused(w: World, m: Metadata, env: Env, i: nat)
    requires i < |w.folders|
    ensures w.folders[i].name != w.EntryName(m, env)
  {
    assert w.folders[i].name in w.ChildNames(env);
  }

  lemma WrittenKeepsNames(w: World, e: Entry<Bytes>, env: Env, w': World, ok: bool)
    requires NamesDistinct(w.folders) && Written(w, e, env, w', ok)
    ensures NamesDistinct(w'.folders)
  {
    if w'.folders != w.folders {
      assert w'.folders == w.folders + [w'.Last()];
      forall i | 0 <= i < |w.folders| ensures w.folders[i].name != w'.Last().name {
        NewNameUnused(w, e.meta, env, i);
      }
    }
  }

  lemma ProcessKeepsNames(w: World, name: string, env: Env)
    requires NamesDistinct(w.folders)
    ensures NamesDistinct(Process(w, name, env).state.folders)
  {
    hide Process;
    if WriteArgs(w, name, env).None? {
      NoWrite(w, name, env);
    } else {
      var (w2, e) := WriteArgs(w, name, env).value;
      Writes(w, name, env);
      WriteEffect(w2, e, env);
      var (w3, r) := w2.WriteEntry(e, env);
      WrittenKeepsNames(w2, e, env, w3, r.Some?);
    }
  }

  lemma {:induction false} ScanKeepsNames(w: World, names: seq<string>, env: Env, stop: nat)
    requires NamesDistinct(w.folders)
    ensures NamesDistinct(ScanFiles(w, names, env, stop).0.folders)
    decreases |names|
  {
    hide Process;
    if names != [] && stop > 0 {
      ProcessKeepsNames(w, names[0], env);
      ProcessFileKeeps(w, names[0], env);
      ScanKeepsNames(ProcessFile(w, names[0], env), names[1..], env, stop - 1);
    }
  }

  /** Drive allows folders of one name, but no two entries ever share theirs, whatever fails: with
      RowsNameEntries, each index row names exactly one folder. */
  lemma {:induction false} EntryNamesDistinct(w: World, scans: seq<Scan>)
    requires NamesDistinct(w.folders)
    ensures NamesDistinct(AfterScans(w, scans).folders)
    decreases |scans|
  {
    hide RunScan;
    if scans != [] {
      var env, stop := scans[0].env, scans[0].stop;
      var w0 := w.(alive := true);
      var (w1, names) := w0.ListInbox(env);
      RunScanShape(w0, env, stop);
      if names.Some? {
        ScanKeepsNames(w1, names.value, env, stop);
      }
      EntryNamesDistinct(RunScan(w0, env, stop), scans[1..]);
    }
  }

  // ----- counters ------------------------------------------------------------------------

  /** No SQL statement fails, and the process is not killed. */
  ghost predicate StoreReliable(env: Env) {
    (forall t :: env.store(t) == Ok) && (forall t :: !env.fate(t).Crash?)
  }

  function Handled(s: DaemonStatus): nat {
    s.processed + s.skipped + s.quarantine
  }

  lemma WriteStepsSurvive(w: World, name: string, e: Entry<Bytes>, env: Env)
    requires w.alive && StoreReliable(env)
    ensures w.CreateFolder(name, env).0.alive
    ensures w.folders != [] ==> w.UploadAll(e, env).0.alive
    ensures w.PutRow(e, name, env).0.alive
  {
  }

  lemma WriteSurvives(w: World, e: Entry<Bytes>, env: Env)
    requires w.alive && StoreReliable(env)
    ensures w.WriteEntry(e, env).0.alive
  {
    var f := w.Draw(env);
    if f.Ok? {
      var name := w.EntryName(e.meta, env);
      WriteStepsSurvive(w.Step(f), name, e, env);
      var (w1, ok1) := w.Step(f).CreateFolder(name, env);
      if ok1 {
        WriteStepsSurvive(w1, name, e, env);
        WriteStepsSurvive(w1.UploadAll(e, env).0, name, e, env);
      }
    }
  }

  lemma FileSurvives(w: World, name: string, pdf: Bytes, h: Hash, env: Env)
    requires w.alive && StoreReliable(env)
    ensures var o := Extract(DriveBackend(env), w, name, pdf, h); o.state.alive && o.reply.Done?
  {
    var transcript, props := env.extract(w.tick), env.answer(w.tick);
    if transcript.Some? && props.Some? {
      var meta := ClassifiedAs(props.value, name, h);
      if SchemaValid(meta) {
        var e := Entry(pdf, transcript.value, Described(meta));
        WriteSurvives(w, e, env);
        var o := File(DriveBackend(env), w, name, h, e);
        assert o.state.alive;
        assert ClassifyText(DriveBackend(env), w, name, pdf, h, transcript.value).state == o.state;
      }
    }
  }

  lemma CheckAlive(w: World, name: string, pdf: Bytes, h: Hash, env: Env)
    requires w.alive && StoreReliable(env)
    ensures var o := CheckDuplicate(DriveBackend(env), w, name, pdf, h); o.state.alive && o.reply.Done?
  {
    var (w2, dup) := w.IsDuplicate(h, env);
    assert w2.alive && dup.Some?;
    if dup == Some(false) {
      FileSurvives(w2, name, pdf, h, env);
      assert CheckDuplicate(DriveBackend(env), w, name, pdf, h) == Extract(DriveBackend(env), w2, name, pdf, h);
    }
  }

  lemma ReadAlive(w: World, name: string, env: Env)
    requires w.alive && StoreReliable(env)
    ensures w.ReadPDF(name, env).0.alive
  {
  }

  lemma EndsAlive(w: World, name: string, pdf: Bytes, stage: Stage, env: Env)
    requires w.alive && StoreReliable(env)
    ensures w.Cleanup(pdf, env).alive && w.Quarantine(name, stage, env).alive
  {
  }

  lemma ProcessAlive(w: World, name: string, env: Env)
    requires w.alive && StoreReliable(env)
    ensures Process(w, name, env).state.alive && Process(w, name, env).reply.Done?
  {
    var (w1, got) := w.ReadPDF(name, env);
    ProcessSteps(w, name, env);
    ReadAlive(w, name, env);
    if got.Some? {
      CheckAlive(w1, name, got.value.0, got.value.1, env);
      EndsAlive(CheckDuplicate(DriveBackend(env), w1, name, got.value.0, got.value.1).state, name, got.value.0, LibraryWrite, env);
    } else {
      EndsAlive(w1, name, [], LibraryWrite, env);
    }
  }

  /** If no statement fails, each handled file bumps one counter, and the processed counter is bumped exactly
      when a row was inserted: INSERT OR IGNORE never ignores. */
  lemma FileCounted(w: World, name: string, env: Env)
    requires w.alive && StoreReliable(env)
    ensures var w' := ProcessFile(w, name, env);
            && w'.alive
            && Handled(w'.tables.status) == Handled(w.tables.status) + 1
            && |w'.tables.documents| - |w.tables.documents| == w'.tables.status.processed - w.tables.status.processed
  {
    hide Process, World.WriteEntry;
    ProcessAlive(w, name, env);
    ProcessFileKeeps(w, name, env);
    var o := Process(w, name, env);
    if WriteArgs(w, name, env).None? {
      NoWrite(w, name, env);
    } else {
      var (w2, e) := WriteArgs(w, name, env).value;
      Writes(w, name, env);
      WriteEffect(w2, e, env);
      var (w3, r) := w2.WriteEntry(e, env);
      assert o.state.tables == w3.tables;
    }
    assert o.state.tables.status == w.tables.status;
  }

  /** Over a scan in which no statement fails and the process is not killed, the processed counter grows by the
      number of rows added, and the three counters together by the number of files handled. */
  lemma {:induction false} ScanCounted(w: World, names: seq<string>, env: Env, stop: nat)
    requires w.alive && StoreReliable(env)
    ensures var w' := ScanFiles(w, names, env, stop).0;
            && w'.alive
            && w'.tables.status.processed - w.tables.status.processed == |w'.tables.documents| - |w.tables.documents|
            && Handled(w'.tables.status) - Handled(w.tables.status) == (if stop < |names| then stop else |names|)
    decreases |names|
  {
    hide ProcessFile;
    if names != [] && stop > 0 {
      FileCounted(w, names[0], env);
      ScanCounted(ProcessFile(w, names[0], env), names[1..], env, stop - 1);
    }
  }

  /** How many files one scan handles. */
  function HandledIn(w: World, env: Env, stop: nat): nat {
    var names := w.ListInbox(env).1;
    if names.None? then 0 else if stop < |names.value| then stop else |names.value|
  }

  function HandledOver(w: World, scans: seq<Scan>): nat
    decreases |scans|
  {
    if scans == [] then 0
    else
      var env, stop := scans[0].env, scans[0].stop;
      HandledIn(w.(alive := true), env, stop) + HandledOver(RunScan(w.(alive := true), env, stop), scans[1..])
  }

  lemma RunCounted(w: World, env: Env, stop: nat)
    requires w.alive && StoreReliable(env)
    ensures var w' := RunScan(w, env, stop);
            && w'.tables.status.processed - w.tables.status.processed == |w'.tables.documents| - |w.tables.documents|
            && Handled(w'.tables.status) == Handled(w.tables.status) + HandledIn(w, env, stop)
  {
    hide ScanFiles, ScanCache, StableNames;
    var (w1, names) := w.ListInbox(env);
    if names.Some? {
      ScanCounted(w1, names.value, env, stop);
    }
  }

  /** Over any history of scans in which no statement fails and the process is not killed, the processed
      counter grows by the rows added, and the three counters together by the files handled. */
  lemma {:induction false} HistoryCounted(w: World, scans: seq<Scan>)
    requires forall i | 0 <= i < |scans| :: StoreReliable(scans[i].env)
    ensures var w' := AfterScans(w, scans);
            && w'.tables.status.processed - w.tables.status.processed == |w'.tables.documents| - |w.tables.documents|
            && Handled(w'.tables.status) == Handled(w.tables.status) + HandledOver(w, scans)
    decreases |scans|
  {
    hide RunScan;
    if scans != [] {
      var env, stop := scans[0].env, scans[0].stop;
      RunCounted(w.(alive := true), env, stop);
      HistoryCounted(RunScan(w.(alive := true), env, stop), scans[1..]);
    }
  }

  // ----- the error text --------------------------------------------------------------------

  /** The one way a file leaves an error text: it was read, the statement of its duplicate check failed, and
      the statement that records this took place. */
  predicate LeavesError(w: World, name: string, env: Env) {
    var (w1, got) := w.ReadPDF(name, env);
    && got.Some? && env.store(w1.tick).Fail? && !env.fate(w1.tick + 1).Crash? && Took(env.store(w1.tick + 2))
  }

  lemma ProcessKeepsStatus(w: World, name: string, env: Env)
    ensures Process(w, name, env).state.tables.status == w.tables.status
  {
    if WriteArgs(w, name, env).None? {
      NoWrite(w, name, env);
    } else {
      var (w2, e) := WriteArgs(w, name, env).value;
      Writes(w, name, env);
      WriteEffect(w2, e, env);
    }
  }

  lemma ExtractDone(w: World, name: string, pdf: Bytes, h: Hash, env: Env)
    ensures Extract(DriveBackend(env), w, name, pdf, h).reply.Done?
  {
  }

  lemma AbortState(w: World, name: string, env: Env)
    ensures var (w1, got) := w.ReadPDF(name, env);
            var o := Process(w, name, env);
            && (o.reply.Abort? <==> got.Some? && !env.store(w1.tick).Ok?)
            && (o.reply.Abort? ==> o.state == w1.Step(env.store(w1.tick)).Cleanup(got.value.0, env))
  {
    var (w1, got) := w.ReadPDF(name, env);
    ProcessSteps(w, name, env);
    if got.Some? {
      var (w2, dup) := w1.IsDuplicate(got.value.1, env);
      ExtractDone(w2, name, got.value.0, got.value.1, env);
    }
  }

  lemma FileErrorText(w: World, name: string, env: Env)
    ensures ProcessFile(w, name, env).tables.status.lastError
            == if LeavesError(w, name, env) then "duplicate check failed" else w.tables.status.lastError
  {
    hide Process;
    ProcessKeepsStatus(w, name, env);
    AbortState(w, name, env);
  }

  /** Some file handled by the scan leaves an error text. */
  predicate SomeError(w: World, names: seq<string>, env: Env, stop: nat)
    decreases |names|
  {
    names != [] && stop > 0 &&
    (LeavesError(w, names[0], env) || SomeError(ProcessFile(w, names[0], env), names[1..], env, stop - 1))
  }

  lemma {:induction false} ScanErrorText(w: World, names: seq<string>, env: Env, stop: nat)
    ensures ScanFiles(w, names, env, stop).0.tables.status.lastError != ""
            <==> w.tables.status.lastError != "" || SomeError(w, names, env, stop)
    decreases |names|
  {
    hide ProcessFile;
    if names != [] && stop > 0 {
      FileErrorText(w, names[0], env);
      ScanErrorText(ProcessFile(w, names[0], env), names[1..], env, stop - 1);
    }
  }

  /** A scan that handles its whole listing and gets its final poll record in leaves no error text, whatever
      its files recorded, and whatever else failed. */
  lemma FinishedScanClearsError(w: World, env: Env, stop: nat)
    requires var (w1, names) := w.ListInbox(env);
             && names.Some? && |names.value| <= stop
             && var w2 := ScanFiles(w1, names.value, env, stop).0;
                w2.alive && Took(env.store(w2.tick))
    ensures RunScan(w, env, stop).tables.status.lastError == ""
  {
    var (w1, names) := w.ListInbox(env);
    ScanFinishes(w1, names.value, env, stop);
  }

  /** Exactly when an error text is left after a scan: its failed listing was recorded, or a text that was there
      before or that one of its files recorded was not cleared, because the scan was stopped short or the poll
      record did not take place. */
  lemma ErrorSurvivesIff(w: World, env: Env, stop: nat)
    ensures var (w1, names) := w.ListInbox(env);
            var left := RunScan(w, env, stop).tables.status.lastError != "";
            match names
            case None => left <==> w.tables.status.lastError != "" || (w1.alive && Took(env.store(w1.tick)))
            case Some(ns) =>
              var w2 := ScanFiles(w1, ns, env, stop).0;
              left <==>
              && (w.tables.status.lastError != "" || SomeError(w1, ns, env, stop))
              && !(|ns| <= stop && w2.alive && Took(env.store(w2.tick)))
  {
    var (w1, names) := w.ListInbox(env);
    if names.Some? {
      ScanErrorText(w1, names.value, env, stop);
      ScanFinishes(w1, names.value, env, stop);
    }
  }

  lemma {:induction false} ScanFinishes(w: World, names: seq<string>, env: Env, stop: nat)
    ensures ScanFiles(w, names, env, stop).1 <==> |names| <= stop
    decreases |names|
  {
    hide ProcessFile;
    if names != [] && stop > 0 {
      ScanFinishes(ProcessFile(w, names[0], env), names[1..], env, stop - 1);
    }
  }

  // ----- one file within one scan ------------------------------------------------------------

  /** A download that follows a verification serves the verified revision. */
  ghost predicate VerifiedServed(env: Env) {
    forall t, id :: id in env.remote(t) && id in env.served(t) ==>
      env.served(t)[id].size == env.remote(t)[id].size && env.served(t)[id].modified == env.remote(t)[id].modified
  }

  /** The hash of the revision that was listed. */
  function ListedHash(f: FileInfo, env: Env): Hash {
    env.hash(env.content(f.id, f.size, f.modified))
  }

  /** Re-verification means that what is filed is what was listed. */
  lemma FiledAsListed(w: World, name: string, env: Env)
    requires VerifiedServed(env) && WriteArgs(w, name, env).Some?
    ensures name in w.scan && WriteArgs(w, name, env).value.1.meta.contentHash == ListedHash(w.scan[name], env)
  {
  }

  function RowsFrom(w: World, id: string): set<string> {
    set h | h in w.tables.documents && w.tables.documents[h].driveFileId == id
  }

  /** The listed revision of this file is in the index. */
  ghost predicate Sealed(w: World, id: string, env: Env) {
    exists n :: n in w.scan && w.scan[n].id == id && ListedHash(w.scan[n], env) in w.tables.documents
  }

  ghost predicate FewerLeft(w: World, w': World, id: string, env: Env) {
    var left := if Sealed(w, id, env) then 0 else 1;
    var left' := if Sealed(w', id, env) then 0 else 1;
    && w'.scan == w.scan
    && multiset(w'.moved)[id] + left' <= multiset(w.moved)[id] + left
    && |RowsFrom(w', id)| + left' <= |RowsFrom(w, id)| + left
  }

  lemma FileOnce(w: World, name: string, env: Env, id: string)
    requires VerifiedServed(env) && IdsDistinct(w.scan)
    ensures FewerLeft(w, Process(w, name, env).state, id, env)
  {
    hide Process;
    if WriteArgs(w, name, env).None? {
      NoWrite(w, name, env);
      assert RowsFrom(Process(w, name, env).state, id) == RowsFrom(w, id);
    } else {
      var (w2, e) := WriteArgs(w, name, env).value;
      Writes(w, name, env);
      WriteEffect(w2, e, env);
      FiledAsListed(w, name, env);
      var (w3, r) := w2.WriteEntry(e, env);
      FollowsOnce(w, w2, w3, Process(w, name, env), name, e, r.Some?, env, id);
    }
  }

  lemma FollowsOnce(w: World, w2: World, w3: World, o: Outcome<World>, name: string, e: Entry<Bytes>, ok: bool, env: Env, id: string)
    requires IdsDistinct(w.scan) && Unindexed(w, name, env, e)
    requires e.meta.contentHash == ListedHash(w.scan[name], env)
    requires Calm(w, w2) && Written(w2, e, env, w3, ok) && Follows(w3, name, ok, env, o)
    ensures FewerLeft(w, o.state, id, env)
  {
    OnceWritten(w, w2, w3, o.state, name, e, ok, env, id);
  }

  lemma OnceWritten(w: World, w2: World, w3: World, w': World, name: string, e: Entry<Bytes>, ok: bool, env: Env, id: string)
    requires IdsDistinct(w.scan) && Unindexed(w, name, env, e)
    requires e.meta.contentHash == ListedHash(w.scan[name], env)
    requires Calm(w, w2) && Written(w2, e, env, w3, ok)
    requires w'.scan == w3.scan && w'.tables == w3.tables
    requires w'.moved == w3.moved || (ok && w'.moved == w3.moved + [w.scan[name].id])
    ensures FewerLeft(w, w', id, env)
  {
    var h := e.meta.contentHash;
    var indexed := Indexed(w2, env);
    assert w'.tables.documents == if indexed then w.tables.documents[h := NewRow(w2, e, env)] else w.tables.documents;
    if w.scan[name].id == id && indexed {
      assert Sealed(w', id, env);
      assert !Sealed(w, id, env);
      assert RowsFrom(w', id) == RowsFrom(w, id) + {h};
    } else {
      assert RowsFrom(w', id) == RowsFrom(w, id);
      SealedStays(w, w', id, env);
    }
  }

  lemma SealedStays(w: World, w': World, id: string, env: Env)
    requires w'.scan == w.scan && w.tables.documents.Keys <= w'.tables.documents.Keys
    ensures Sealed(w, id, env) ==> Sealed(w', id, env)
  {
    if Sealed(w, id, env) {
      var n :| n in w.scan && w.scan[n].id == id && ListedHash(w.scan[n], env) in w.tables.documents;
      assert n in w'.scan && w'.scan[n].id == id && ListedHash(w'.scan[n], env) in w'.tables.documents;
    }
  }

  lemma {:induction false} ScanOnce(w: World, names: seq<string>, env: Env, stop: nat, id: string)
    requires VerifiedServed(env) && IdsDistinct(w.scan)
    ensures FewerLeft(w, ScanFiles(w, names, env, stop).0, id, env)
    decreases |names|
  {
    hide Process;
    if names != [] && stop > 0 {
      var w1, w2 := Process(w, names[0], env).state, ProcessFile(w, names[0], env);
      FileOnce(w, names[0], env, id);
      ProcessFileKeeps(w, names[0], env);
      assert RowsFrom(w2, id) == RowsFrom(w1, id);
      ScanOnce(w2, names[1..], env, stop - 1, id);
    } else {
      assert RowsFrom(w, id) == RowsFrom(ScanFiles(w, names, env, stop).0, id);
    }
  }

  /** If every download serves the revision that was verified, then within one scan each Drive file is indexed at
      most once and moved at most once, even when inbox files share a name, the listing repeats it, and any
      request or statement fails. */
  lemma OncePerScan(w: World, env: Env, stop: nat, id: string)
    requires VerifiedServed(env) && DistinctIds(env.listing(w.tick))
    ensures var w' := RunScan(w, env, stop);
            multiset(w'.moved)[id] <= multiset(w.moved)[id] + 1 && |RowsFrom(w', id)| <= |RowsFrom(w, id)| + 1
  {
    hide ScanCache, StableNames;
    var (w1, names) := w.ListInbox(env);
    if names.Some? {
      CachedIdsDistinct(env.listing(w.tick), env.now(w.tick) - env.stableThreshold);
      ScanOnce(w1, names.value, env, stop, id);
      var (w2, finished) := ScanFiles(w1, names.value, env, stop);
      SameMovesAndRows(w, w1, id);
      SameMovesAndRows(w2, RunScan(w, env, stop), id);
    } else {
      SameMovesAndRows(w, RunScan(w, env, stop), id);
    }
  }

  lemma SameMovesAndRows(w: World, w': World, id: string)
    requires w'.moved == w.moved && w'.tables.documents == w.tables.documents
    ensures RowsFrom(w', id) == RowsFrom(w, id)
  {
  }

  /** Nothing fails, and the model's answers satisfy the schema. */
  ghost predicate Smooth(env: Env) {
    && (forall t :: env.fate(t) == Ok && env.store(t) == Ok)
    && (forall t :: env.extract(t).Some? && env.answer(t).Some?)
    && (forall t, n, h: Hash :: n != "" && env.answer(t).Some? ==> SchemaValid(ClassifiedAs(env.answer(t).value, n, h)))
  }

  /** The file passes re-verification at the next operation, and its download gets an answer. */
  predicate Verified(w: World, name: string, env: Env) {
    && name in w.scan && w.scan[name].id in env.remote(w.tick) && w.scan[name].id in env.served(w.tick)
    && Unchanged(w.scan[name], env.remote(w.tick)[w.scan[name].id])
  }

  function ServedHash(w: World, name: string, env: Env): Hash
    requires name in w.scan && w.scan[name].id in env.served(w.tick)
  {
    var rev := env.served(w.tick)[w.scan[name].id];
    env.hash(env.content(w.scan[name].id, rev.size, rev.modified))
  }

  lemma SmoothFile(w: World, name: string, env: Env)
    requires w.alive && name != "" && Smooth(env) && Verified(w, name, env)
    ensures var w' := ProcessFile(w, name, env);
            var h := ServedHash(w, name, env);
            && w'.alive && w'.scan == w.scan
            && (if h in w.tables.documents then w'.moved == w.moved && w'.tables.documents == w.tables.documents
                else w'.moved == w.moved + [w.scan[name].id] && w'.tables.documents.Keys == w.tables.documents.Keys + {h})
  {
    ProcessAlive(w, name, env);
    ProcessFileKeeps(w, name, env);
    var h := ServedHash(w, name, env);
    var w' := Process(w, name, env).state;
    var (w1, got) := w.ReadPDF(name, env);
    assert got.Some? && got.value.1 == h;
    var (w2, dup) := w1.IsDuplicate(h, env);
    assert dup == Some(h in w.tables.documents) && w2.alive;
    if h in w.tables.documents {
      NoWrite(w, name, env);
    } else {
      assert SchemaValid(ClassifiedAs(env.answer(w2.tick).value, name, h));
      SmoothWrite(w, name, env);
    }
  }

  lemma WrittenSmoothly(w: World, e: Entry<Bytes>, env: Env, w': World, ok: bool)
    requires w.alive && (forall t :: env.fate(t) == Ok && env.store(t) == Ok) && Written(w, e, env, w', ok)
    ensures ok && w'.scan == w.scan && w'.moved == w.moved
    ensures w'.tables.documents.Keys == w.tables.documents.Keys + {e.meta.contentHash}
  {
    assert Indexed(w, env);
  }

  lemma SmoothMove(w: World, name: string, env: Env)
    requires w.alive && (forall t :: env.fate(t) == Ok) && name in w.scan
    ensures w.MoveToProcessed(name, env).0 == w.(moved := w.moved + [w.scan[name].id], tick := w.tick + 1)
  {
  }

  lemma SmoothWrite(w: World, name: string, env: Env)
    requires w.alive && Smooth(env) && WriteArgs(w, name, env).Some? && WriteArgs(w, name, env).value.0.alive
    ensures var w' := Process(w, name, env).state;
            && w'.scan == w.scan && w'.moved == w.moved + [w.scan[name].id]
            && w'.tables.documents.Keys == w.tables.documents.Keys + {WriteArgs(w, name, env).value.1.meta.contentHash}
  {
    var (w2, e) := WriteArgs(w, name, env).value;
    Writes(w, name, env);
    WriteEffect(w2, e, env);
    WriteSurvives(w2, e, env);
    var (w3, r) := w2.WriteEntry(e, env);
    WrittenSmoothly(w2, e, env, w3, r.Some?);
    SmoothMove(w3, name, env);
  }

  /** Handling this file moves the Drive file `id`: it passes re-verification, and what its download serves is
      new to the index. */
  predicate NewServing(w: World, name: string, env: Env, id: string) {
    name != "" && Verified(w, name, env) && w.scan[name].id == id && ServedHash(w, name, env) !in w.tables.documents
  }

  lemma SmoothStep(w: World, name: string, env: Env, id: string)
    requires w.alive && Smooth(env)
    ensures var w' := ProcessFile(w, name, env);
            && w'.alive && w'.scan == w.scan
            && multiset(w'.moved)[id] == multiset(w.moved)[id] + (if NewServing(w, name, env, id) then 1 else 0)
  {
    if name != "" && Verified(w, name, env) {
      SmoothFile(w, name, env);
    } else {
      ProcessAlive(w, name, env);
      ProcessFileKeeps(w, name, env);
      NotFiled(w, name, env);
      NoWrite(w, name, env);
    }
  }

  lemma NotFiled(w: World, name: string, env: Env)
    requires w.alive && Smooth(env) && (name == "" || !Verified(w, name, env))
    ensures WriteArgs(w, name, env).None?
  {
  }

  /** How many of the files a scan handles move `id`. */
  function NewServings(w: World, names: seq<string>, env: Env, stop: nat, id: string): nat
    decreases |names|
  {
    if names == [] || stop == 0 then 0
    else (if NewServing(w, names[0], env, id) then 1 else 0)
         + NewServings(ProcessFile(w, names[0], env), names[1..], env, stop - 1, id)
  }

  lemma MovesHead(w: World, names: seq<string>, env: Env, stop: nat, id: string) returns (w1: World, k: nat)
    requires w.alive && Smooth(env) && names != [] && stop > 0
    ensures w1.alive && ScanFiles(w, names, env, stop) == ScanFiles(w1, names[1..], env, stop - 1)
    ensures multiset(w1.moved)[id] == multiset(w.moved)[id] + k
    ensures NewServings(w, names, env, stop, id) == k + NewServings(w1, names[1..], env, stop - 1, id)
  {
    w1 := ProcessFile(w, names[0], env);
    k := if NewServing(w, names[0], env, id) then 1 else 0;
    SmoothStep(w, names[0], env, id);
  }

  /** When nothing fails, a scan moves a Drive file exactly as often as a verified download of it serves content
      that is new to the index at that moment. */
  lemma {:induction false} MovesCounted(w: World, names: seq<string>, env: Env, stop: nat, id: string)
    requires w.alive && Smooth(env)
    ensures multiset(ScanFiles(w, names, env, stop).0.moved)[id] == multiset(w.moved)[id] + NewServings(w, names, env, stop, id)
    decreases |names|
  {
    hide ProcessFile;
    if names != [] && stop > 0 {
      var w1, k := MovesHead(w, names, env, stop, id);
      MovesCounted(w1, names[1..], env, stop - 1, id);
    }
  }

  /** The exact cost of an edit that slips in between verification and download, when nothing fails: a
      listing that repeats a name has the same Drive file filed and moved twice if and only if its two
      downloads serve two different contents, both new to the index. */
  lemma MovedTwiceIffRevised(w: World, name: string, env: Env)
    requires w.alive && name != "" && Smooth(env) && Verified(w, name, env)
    ensures var w1 := ProcessFile(w, name, env);
            var id := w.scan[name].id;
            Verified(w1, name, env) ==>
              var h, h1, known := ServedHash(w, name, env), ServedHash(w1, name, env), w.tables.documents;
              multiset(ScanFiles(w, [name, name], env, 2).0.moved)[id] == multiset(w.moved)[id] + 2
              <==> h !in known && h1 !in known && h != h1
  {
    hide ProcessFile;
    var w1, id := ProcessFile(w, name, env), w.scan[name].id;
    SmoothFile(w, name, env);
    MovesCounted(w, [name, name], env, 2, id);
    assert [name, name][1..] == [name] && [name][1..] == [];
    assert NewServings(w, [name, name], env, 2, id)
        == (if NewServing(w, name, env, id) then 1 else 0) + NewServings(w1, [name], env, 1, id);
  }

  // ----- an edit in the gap ----------------------------------------------------------------

  lemma WriteTicks(w: World, e: Entry<Bytes>, env: Env)
    ensures w.WriteEntry(e, env).0.tick >= w.tick
  {
    var f := w.Draw(env);
    if f.Ok? {
      var (w1, ok1) := w.Step(f).CreateFolder(w.EntryName(e.meta, env), env);
      if ok1 {
        var (w2, ok2) := w1.UploadAll(e, env);
        assert w2.tick >= w1.tick;
      }
    }
  }

  lemma FileTicks(w: World, name: string, pdf: Bytes, h: Hash, env: Env)
    ensures Extract(DriveBackend(env), w, name, pdf, h).state.tick >= w.tick
  {
    var transcript, props := env.extract(w.tick), env.answer(w.tick);
    if transcript.Some? && props.Some? && SchemaValid(ClassifiedAs(props.value, name, h)) {
      var e := Entry(pdf, transcript.value, Described(ClassifiedAs(props.value, name, h)));
      ReachesFile(w, name, pdf, h, env);
      FileSteps(w, name, h, e, env);
      WriteTicks(w, e, env);
    }
  }

  lemma ProcessFileTicks(w: World, name: string, env: Env)
    ensures ProcessFile(w, name, env).tick > w.tick
  {
    var (w1, got) := w.ReadPDF(name, env);
    ProcessSteps(w, name, env);
    if got.Some? {
      var (w2, dup) := w1.IsDuplicate(got.value.1, env);
      FileTicks(w2, name, got.value.0, got.value.1, env);
    }
    assert Process(w, name, env).state.tick >= w.tick;
  }

  const ZEROS: Hash := seq(64, _ => '0')
  const ONES: Hash := seq(64, _ => '1')

  const ANSWER := Props("other", "2026-01-31", "v", "s", "d", None, "", "")

  const ASCII: Lowering := (c: char) => if 'A' <= c <= 'Z' then (c as int + 32) as char else c

  /** Nothing fails. The inbox holds two files of one name, and the later listed one is edited after its second
      verification. */
  const GAP := Env(
    (b: Bytes) => if b == [] then ZEROS else ONES,
    ASCII,
    (id: string, size: nat, modified: int) => if modified == 0 then [] else [0],
    0,
    (t: nat) => Ok,
    (t: nat) => Ok,
    (t: nat) => 0,
    (t: nat) => [FileInfo("1", "a.pdf", 0, 0, "sum"), FileInfo("2", "a.pdf", 0, 0, "sum")],
    (t: nat) => map["2" := Revision(0, 0, "sum")],
    (t: nat) => map["2" := if t <= 1 then Revision(0, 0, "sum") else Revision(0, 1, "sum")],
    (t: nat) => {},
    (t: nat) => Some("text"),
    (t: nat) => Some(ANSWER))

  const FRESH := World([], map[], multiset{}, [], [], Tables(map[], NO_SYNC, DaemonStatus("", 0, 0, 0)), true, 0)

  lemma GapSmooth()
    ensures Smooth(GAP)
  {
    assert IsDate(ANSWER.documentDate);
    forall n, h: Hash | n != "" ensures SchemaValid(ClassifiedAs(ANSWER, n, h)) {
    }
  }

  const LATER := FileInfo("2", "a.pdf", 0, 0, "sum")

  const LISTED := FRESH.(scan := map["a.pdf" := LATER], tick := 1)

  lemma GapListing()
    ensures DistinctIds(GAP.listing(0)) && FRESH.ListInbox(GAP) == (LISTED, Some(["a.pdf", "a.pdf"]))
  {
    var files := GAP.listing(0);
    assert files[..1][..0] == [] && files[..1] == [files[0]];
    assert StableNames(files[..1], 0) == ["a.pdf"];
    assert ScanCache(files[..1], 0) == map["a.pdf" := files[0]];
    assert StableNames(files, 0) == ["a.pdf", "a.pdf"];
    assert ScanCache(files, 0) == map["a.pdf" := LATER];
  }

  lemma GapServes(w: World)
    requires w.scan == LISTED.scan
    ensures Verified(w, "a.pdf", GAP) && ServedHash(w, "a.pdf", GAP) == if w.tick <= 1 then ZEROS else ONES
  {
  }

  lemma GapMoves()
    ensures multiset(ScanFiles(LISTED, ["a.pdf", "a.pdf"], GAP, 2).0.moved)["2"] == 2
  {
    GapSmooth();
    GapServes(LISTED);
    SmoothFile(LISTED, "a.pdf", GAP);
    var w1 := ProcessFile(LISTED, "a.pdf", GAP);
    ProcessFileTicks(LISTED, "a.pdf", GAP);
    GapServes(w1);
    assert ZEROS[0] != ONES[0];
    MovedTwiceIffRevised(LISTED, "a.pdf", GAP);
  }

  /** Once per scan is more than the code achieves: although nothing fails, the file ids are distinct, and
      every verification sees the listed revision, this scan moves one file twice. */
  lemma EditInTheGap()
    ensures Smooth(GAP) && DistinctIds(GAP.listing(FRESH.tick))
    ensures multiset(RunScan(FRESH, GAP, 2).moved)["2"] == 2
  {
    GapSmooth();
    GapListing();
    GapMoves();
    RunScanShape(FRESH, GAP, 2);
  }
}
