/** What Drive entries, reads, moves and counters are, with names, fields and conditions written out. */
module DriveEntries {
  import opened Basics
  import opened Faults
  import opened Naming
  import opened Pipeline
  import opened Store
  import opened Drive
  import opened DriveTheorems

  // ----- the name of an entry ---------------------------------------------------------------------

  /** Of the candidates for the base, the first that is not taken. */
  ghost predicate FirstFree(name: string, base: string, taken: set<string>, k: nat) {
    k >= 1 && name == Candidate(base, k) && name !in taken && forall j | 1 <= j < k :: Candidate(base, j) in taken
  }

  /** The name that the metadata and a listing of the library folder call for. */
  ghost predicate NamedFor(name: string, w: World, m: Metadata, env: Env) {
    var base := FormatDirName(m.documentDate, m.vendor, m.fileDescription, env.lower);
    var taken := (set i | 0 <= i < |w.folders| :: w.folders[i].name) + env.others(w.tick);
    exists k :: FirstFree(name, base, taken, k)
  }

  lemma EntryNamed(w: World, m: Metadata, env: Env)
    ensures NamedFor(w.EntryName(m, env), w, m, env)
  {
    var base := FormatDirName(m.documentDate, m.vendor, m.fileDescription, env.lower);
    var taken := (set i | 0 <= i < |w.folders| :: w.folders[i].name) + env.others(w.tick);
    assert FirstFree(w.EntryName(m, env), base, taken, FreeIndex(base, taken));
  }

  /** Whatever fails, a folder that a write adds, partial or complete, the name a successful write reports, and
      the name in the row it inserts, are the first free candidate of the base made of date, vendor and
      description. */
  lemma WriteNames(w: World, e: Entry<Bytes>, env: Env)
    requires e.meta.contentHash !in w.tables.documents
    ensures var (w', r) := w.WriteEntry(e, env);
            && |w.folders| <= |w'.folders| <= |w.folders| + 1 && w'.folders[..|w.folders|] == w.folders
            && (|w'.folders| > |w.folders| ==> NamedFor(w'.folders[|w.folders|].name, w, e.meta, env))
            && (r.Some? ==> |w'.folders| > |w.folders| && r.value == w'.folders[|w.folders|].name)
            && (e.meta.contentHash in w'.tables.documents ==>
                  |w'.folders| > |w.folders|
                  && w'.tables.documents[e.meta.contentHash].entryName == w'.folders[|w.folders|].name)
  {
    hide World.WriteEntry, World.EntryName;
    WriteEffect(w, e, env);
    EntryNamed(w, e.meta, env);
    ReportedName(w, e, env);
    var (w', r) := w.WriteEntry(e, env);
    WrittenNames(w, e, env, w', r.Some?);
  }

  lemma ReportedName(w: World, e: Entry<Bytes>, env: Env)
    ensures w.WriteEntry(e, env).1.Some? ==> w.WriteEntry(e, env).1.value == w.EntryName(e.meta, env)
  {
  }

  lemma WrittenNames(w: World, e: Entry<Bytes>, env: Env, w': World, ok: bool)
    requires Written(w, e, env, w', ok) && e.meta.contentHash !in w.tables.documents
    ensures |w.folders| <= |w'.folders| <= |w.folders| + 1 && w'.folders[..|w.folders|] == w.folders
    ensures |w'.folders| > |w.folders| ==> w'.folders[|w.folders|].name == w.EntryName(e.meta, env)
    ensures ok || e.meta.contentHash in w'.tables.documents ==> |w'.folders| > |w.folders|
    ensures e.meta.contentHash in w'.tables.documents ==>
              w'.tables.documents[e.meta.contentHash].entryName == w.EntryName(e.meta, env)
  {
    hide World.EntryName;
  }

  /** When the base is free, the name splits at underscores into the date and the slugs of vendor, cut at 30,
      and description, cut at 40. */
  lemma FreeNameFields(name: string, w: World, m: Metadata, env: Env)
    requires IsDate(m.documentDate) && NamedFor(name, w, m, env)
    requires var base := FormatDirName(m.documentDate, m.vendor, m.fileDescription, env.lower);
             base !in env.others(w.tick) && forall i | 0 <= i < |w.folders| :: w.folders[i].name != base
    ensures Fields(name, '_') == [m.documentDate, TruncateSlug(Slug(m.vendor, env.lower), 30),
                                  TruncateSlug(Slug(m.fileDescription, env.lower), 40)]
  {
    var base := FormatDirName(m.documentDate, m.vendor, m.fileDescription, env.lower);
    var taken := (set i | 0 <= i < |w.folders| :: w.folders[i].name) + env.others(w.tick);
    assert base !in taken && Candidate(base, 1) == base;
    var k :| FirstFree(name, base, taken, k);
    assert k == 1;
    DirNameRoundTrip(m.documentDate, m.vendor, m.fileDescription, env.lower);
  }

  // ----- listing and reading -------------------------------------------------------------------------

  /** The names of the files at the positions `at`: in listing order, exactly those that have a checksum and were
      not modified after the cutoff. */
  ghost predicate PicksStable(files: seq<FileInfo>, cutoff: int, names: seq<string>, at: seq<nat>) {
    && |names| == |at|
    && (forall k, l | 0 <= k < l < |at| :: at[k] < at[l])
    && (forall k | 0 <= k < |at| :: at[k] < |files| && names[k] == files[at[k]].name)
    && (forall i | 0 <= i < |files| :: i in at <==> files[i].checksum != "" && files[i].modified <= cutoff)
  }

  lemma {:induction false} StableInOrder(files: seq<FileInfo>, cutoff: int) returns (at: seq<nat>)
    ensures PicksStable(files, cutoff, StableNames(files, cutoff), at)
    decreases |files|
  {
    at := [];
    if files != [] {
      var n := |files| - 1;
      at := StableInOrder(files[..n], cutoff);
      PicksOneMore(files, cutoff, StableNames(files[..n], cutoff), at);
      if Stable(files[n], cutoff) {
        at := at + [n];
      }
    }
  }

  lemma PicksOneMore(files: seq<FileInfo>, cutoff: int, names: seq<string>, at: seq<nat>)
    requires files != [] && PicksStable(files[..|files| - 1], cutoff, names, at)
    ensures var n := |files| - 1;
            if files[n].checksum != "" && files[n].modified <= cutoff
            then PicksStable(files, cutoff, names + [files[n].name], at + [n])
            else PicksStable(files, cutoff, names, at)
  {
    var n := |files| - 1;
    forall i | 0 <= i < |files|
      ensures i in at <==> i < n && files[i].checksum != "" && files[i].modified <= cutoff
    {
      if i < n {
        assert files[..n][i] == files[i];
      }
    }
  }

  /** A listing reports, in its order and with repetitions, exactly the names of the files that have a checksum and
      were not modified within the threshold, and caches each of these names with such a file. */
  lemma ListingSays(w: World, env: Env)
    ensures var (w', names) := w.ListInbox(env);
            var files, cutoff := env.listing(w.tick), env.now(w.tick) - env.stableThreshold;
            && (names.Some? <==> w.alive && env.fate(w.tick).Ok?)
            && (names.None? ==> w'.scan == w.scan)
            && (names.Some? ==>
                  && (exists at :: PicksStable(files, cutoff, names.value, at))
                  && (forall n :: n in names.value <==> NamesStable(n, files, cutoff))
                  && (forall n :: n in w'.scan <==> NamesStable(n, files, cutoff))
                  && (forall n :: n in w'.scan ==>
                        w'.scan[n] in files && w'.scan[n].name == n && w'.scan[n].checksum != "" && w'.scan[n].modified <= cutoff))
  {
    var files, cutoff := env.listing(w.tick), env.now(w.tick) - env.stableThreshold;
    StableNamesSay(files, cutoff);
    var at := StableInOrder(files, cutoff);
    ListingCaches(files, cutoff);
  }

  ghost predicate NamesStable(n: string, files: seq<FileInfo>, cutoff: int) {
    exists i :: 0 <= i < |files| && files[i].name == n && files[i].checksum != "" && files[i].modified <= cutoff
  }

  lemma {:induction false} StableNamesSay(files: seq<FileInfo>, cutoff: int)
    ensures forall n :: n in StableNames(files, cutoff) <==> NamesStable(n, files, cutoff)
  {
    if files != [] {
      var k := |files| - 1;
      var init := files[..k];
      StableNamesSay(init, cutoff);
      forall n ensures n in StableNames(files, cutoff) <==> NamesStable(n, files, cutoff) {
        if NamesStable(n, init, cutoff) {
          var i :| 0 <= i < |init| && init[i].name == n && init[i].checksum != "" && init[i].modified <= cutoff;
          assert files[i].name == n && files[i].checksum != "" && files[i].modified <= cutoff;
        }
        if NamesStable(n, files, cutoff) {
          var i :| 0 <= i < |files| && files[i].name == n && files[i].checksum != "" && files[i].modified <= cutoff;
          assert i < k ==> init[i].name == n && init[i].checksum != "" && init[i].modified <= cutoff;
        }
      }
    }
  }

  /** Exactly when a read succeeds: the name is cached, the file still has the cached size and modification time
      and a checksum, and both requests succeed. It then gives the content the download serves, with its hash. */
  lemma ReadSays(w: World, name: string, env: Env)
    ensures var got, t := w.ReadPDF(name, env).1, w.tick;
            (got.Some? <==>
              && w.alive && name in w.scan && env.fate(t).Ok? && env.fate(t + 1).Ok?
              && var c := w.scan[name];
                 && c.id in env.remote(t) && env.remote(t)[c.id].size == c.size && env.remote(t)[c.id].modified == c.modified
                 && env.remote(t)[c.id].checksum != "" && c.id in env.served(t))
    ensures var got, t := w.ReadPDF(name, env).1, w.tick;
            got.Some? ==>
              var id := w.scan[name].id;
              var pdf := env.content(id, env.served(t)[id].size, env.served(t)[id].modified);
              got.value.0 == pdf && got.value.1 == env.hash(pdf)
  {
  }

  // ----- the end of a call ----------------------------------------------------------------------------

  /** Where in a call the write starts, and how long it takes if it succeeds. */
  lemma CallTicks(w: World, name: string, env: Env)
    requires WriteArgs(w, name, env).Some?
    ensures var (w2, e) := WriteArgs(w, name, env).value;
            && w2.tick == w.tick + 3 && w2.alive && w.ReadPDF(name, env).1 == Some((e.pdf, env.hash(e.pdf)))
            && env.extract(w.tick + 3) == Some(e.transcript) && env.answer(w.tick + 3).Some?
            && Carries(e.meta.(fileDescription := ""), env.answer(w.tick + 3).value, name, env.hash(e.pdf))
  {
    var (w1, got) := w.ReadPDF(name, env);
    assert got.Some? && w1.tick == w.tick + 2 && w1.alive;
  }

  lemma WriteTakes(w: World, e: Entry<Bytes>, env: Env)
    requires w.WriteEntry(e, env).1.Some?
    ensures w.WriteEntry(e, env).0.alive && w.WriteEntry(e, env).0.tick == w.tick + 6
  {
    WriteIsBuildAndRow(w, e, env);
    BuildEffect(w, e, env);
  }

  /** What a processed result reports: the folder, the hash, and whether the original was moved. */
  lemma ProcessedReports(w: World, name: string, env: Env)
    requires WriteArgs(w, name, env).Some?
    ensures var (w2, e) := WriteArgs(w, name, env).value;
            var (w3, dir) := w2.WriteEntry(e, env);
            var o := Process(w, name, env);
            dir.Some? ==>
              && o.reply == Done(Result(Processed, Some(env.hash(e.pdf)), dir.value, None, w3.MoveToProcessed(name, env).1))
              && o.state.moved == w3.MoveToProcessed(name, env).0.moved
  {
    var (w1, got) := w.ReadPDF(name, env);
    var (w2, dup) := w1.IsDuplicate(got.value.1, env);
    var e := WriteArgs(w, name, env).value.1;
    ProcessSteps(w, name, env);
    ReachesFile(w2, name, got.value.0, got.value.1, env);
    FileSteps(w2, name, got.value.1, e, env);
    Writes(w, name, env);
    assert CheckDuplicate(DriveBackend(env), w1, name, got.value.0, got.value.1) == File(DriveBackend(env), w2, name, got.value.1, e);
  }

  /** Whatever else fails, a processed result names the new folder, which holds the bytes read, the extracted text
      and metadata that carries, field by field, the answer of the language model, the file's name and its hash;
      it says that the original was moved exactly if that request succeeded, and the file is moved exactly if the
      request took effect. */
  lemma ProcessedCarries(w: World, name: string, env: Env)
    ensures var o := Process(w, name, env);
            o.reply.Done? && o.reply.result.status.Processed? ==>
              Carried(w, name, env, o.state, o.reply.result)
  {
    hide Process, World.WriteEntry, WriteArgs, World.EntryName;
    if WriteArgs(w, name, env).None? {
      NoWrite(w, name, env);
    } else {
      var (w2, e) := WriteArgs(w, name, env).value;
      Writes(w, name, env);
      CallTicks(w, name, env);
      ReadSays(w, name, env);
      WriteEffect(w2, e, env);
      ReportedName(w2, e, env);
      var (w3, dir) := w2.WriteEntry(e, env);
      if dir.Some? {
        WriteTakes(w2, e, env);
        ProcessedReports(w, name, env);
        WrittenCarries(w2, w3, name, e, env, Process(w, name, env));
      }
    }
  }

  ghost predicate Carried(w: World, name: string, env: Env, w': World, r: Result) {
    var text, answer, move := env.extract(w.tick + 3), env.answer(w.tick + 3), env.fate(w.tick + 9);
    && name in w.scan && (r.moved <==> move.Ok?)
    && w'.moved == (if Took(move) then w.moved + [w.scan[name].id] else w.moved)
    && |w'.folders| == |w.folders| + 1 && w'.folders[..|w.folders|] == w.folders
    && var f := w'.folders[|w.folders|];
       && f.name == r.entryName && f.pdf.Some? && r.hash == Some(env.hash(f.pdf.value))
       && w.ReadPDF(name, env).1 == Some((f.pdf.value, env.hash(f.pdf.value)))
       && text.Some? && f.transcript == text
       && f.meta.Some? && answer.Some? && Carries(f.meta.value, answer.value, name, env.hash(f.pdf.value))
  }

  /** What a successful write and the move after it leave. */
  lemma WrittenCarries(w: World, w3: World, name: string, e: Entry<Bytes>, env: Env, o: Outcome<World>)
    requires Written(w, e, env, w3, true) && DriveTheorems.Follows(w3, name, true, env, o)
    requires w3.alive && name in w.scan
    ensures o.state.folders == w.folders + [NewFolder(w, e, env)]
    ensures o.state.moved == if Took(env.fate(w3.tick)) then w.moved + [w.scan[name].id] else w.moved
    ensures w3.MoveToProcessed(name, env).1 == env.fate(w3.tick).Ok?
  {
    hide World.EntryName;
    assert Indexed(w, env);
  }

  lemma StepsKeepNotes(w: World, name: string, e: Entry<Bytes>, env: Env)
    ensures var w' := w.CreateFolder(name, env).0; w'.quarantined == w.quarantined && (w.alive && Unbroken(env) ==> w'.alive)
    ensures w.folders != [] ==>
              var w' := w.UploadAll(e, env).0; w'.quarantined == w.quarantined && (w.alive && Unbroken(env) ==> w'.alive)
    ensures var w' := w.PutRow(e, name, env).0; w'.quarantined == w.quarantined && (w.alive && Unbroken(env) ==> w'.alive)
  {
  }

  lemma WriteKeepsNotes(w: World, e: Entry<Bytes>, env: Env)
    ensures w.WriteEntry(e, env).0.quarantined == w.quarantined
    ensures w.alive && Unbroken(env) ==> w.WriteEntry(e, env).0.alive
  {
    hide World.UploadAll, World.PutRow, World.EntryName;
    var f := w.Draw(env);
    if f.Ok? {
      var name := w.EntryName(e.meta, env);
      StepsKeepNotes(w.Step(f), name, e, env);
      var (w1, ok1) := w.Step(f).CreateFolder(name, env);
      if ok1 {
        StepsKeepNotes(w1, name, e, env);
        StepsKeepNotes(w1.UploadAll(e, env).0, name, e, env);
      }
    }
  }

  /** Every Drive request succeeds, and no statement kills the process. */
  ghost predicate Unbroken(env: Env) {
    (forall t :: env.fate(t) == Ok) && (forall t :: !env.store(t).Crash?)
  }

  lemma FileNotes(w: World, name: string, pdf: Bytes, h: Hash, env: Env)
    requires w.alive && Unbroken(env)
    ensures var o := Extract(DriveBackend(env), w, name, pdf, h);
            && o.reply.Done?
            && o.state.quarantined == w.quarantined + Note(name, o.reply.result)
  {
    hide World.WriteEntry;
    var transcript, answer := env.extract(w.tick), env.answer(w.tick);
    if transcript.Some? && answer.Some? && SchemaValid(ClassifiedAs(answer.value, name, h)) {
      var e := Entry(pdf, transcript.value, Described(ClassifiedAs(answer.value, name, h)));
      ReachesFile(w, name, pdf, h, env);
      FileSteps(w, name, h, e, env);
      WriteKeepsNotes(w, e, env);
    }
  }

  function Note(name: string, r: Result): seq<QuarantineNote> {
    if r.status.Quarantined? && r.stage.Some? then [QuarantineNote(name, r.stage.value)] else []
  }

  lemma CheckNotes(w: World, name: string, pdf: Bytes, h: Hash, env: Env)
    requires w.alive && Unbroken(env)
    ensures var o := CheckDuplicate(DriveBackend(env), w, name, pdf, h);
            o.state.quarantined == w.quarantined + (if o.reply.Done? then Note(name, o.reply.result) else [])
  {
    hide Extract;
    var (w2, dup) := w.IsDuplicate(h, env);
    if dup == Some(false) {
      FileNotes(w2, name, pdf, h, env);
    }
  }

  lemma EndsNote(w: World, name: string, pdf: Bytes, env: Env)
    ensures w.Cleanup(pdf, env).quarantined == w.quarantined
    ensures w.alive && Unbroken(env) ==>
              w.Quarantine(name, LibraryWrite, env).quarantined == w.quarantined + [QuarantineNote(name, LibraryWrite)]
    ensures var (w', got) := w.ReadPDF(name, env); w'.quarantined == w.quarantined && (w.alive && Unbroken(env) ==> w'.alive)
  {
  }

  /** A call whose Drive requests succeed leaves exactly one quarantine note, under the stage of its result, if it
      is quarantined, and none otherwise. */
  lemma QuarantineNoted(w: World, name: string, env: Env)
    requires w.alive && Unbroken(env)
    ensures var o := Process(w, name, env);
            && (o.reply.Abort? ==> o.state.quarantined == w.quarantined)
            && (o.reply.Done? ==>
                  && (o.reply.result.status.Quarantined? <==> o.reply.result.stage.Some?)
                  && o.state.quarantined == w.quarantined + Note(name, o.reply.result))
  {
    hide Process, CheckDuplicate, World.ReadPDF, World.Cleanup, World.Quarantine;
    var (w1, got) := w.ReadPDF(name, env);
    ProcessSteps(w, name, env);
    ResultOf(w, name, env);
    EndsNote(w, name, [], env);
    if got.Some? {
      CheckNotes(w1, name, got.value.0, got.value.1, env);
      EndsNote(CheckDuplicate(DriveBackend(env), w1, name, got.value.0, got.value.1).state, name, got.value.0, env);
    } else {
      EndsNote(w1, name, [], env);
    }
  }

  lemma ResultOf(w: World, name: string, env: Env)
    ensures var reply := Process(w, name, env).reply;
            reply.Done? ==> (reply.result.status.Quarantined? <==> reply.result.stage.Some?)
  {
    ResultSays(DriveBackend(env), w, name);
  }

  /** Which counter a file bumps, by the status of its result, if no statement fails and the process is not killed. */
  lemma CounterByStatus(w: World, name: string, env: Env)
    requires w.alive && StoreReliable(env)
    ensures var r, s, s' := Process(w, name, env).reply, w.tables.status, ProcessFile(w, name, env).tables.status;
            && r.Done? && s'.lastError == s.lastError
            && s'.processed == s.processed + (if r.result.status == Processed then 1 else 0)
            && s'.skipped == s.skipped + (if r.result.status == Skipped then 1 else 0)
            && s'.quarantine == s.quarantine + (if r.result.status == Quarantined then 1 else 0)
  {
    hide Process;
    ProcessAlive(w, name, env);
    ProcessKeepsStatus(w, name, env);
  }
}
