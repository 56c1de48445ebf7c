/** The mutable Drive storage and the scan worker over it. */
module DriveStorage {
  import opened Basics
  import opened Faults
  import opened Naming
  import opened Pipeline
  import opened Store
  import opened Drive

  class Storage {
    const env: Env
    const db: DB
    var folders: seq<DriveFolder>
    var scanFiles: map<string, FileInfo>
    var temps: multiset<Bytes>
    var moved: seq<string>
    var quarantined: seq<QuarantineNote>
    var alive: bool
    var tick: nat
    /** The storage calls made so far. */
    ghost var calls: seq<Call>

    ghost function W(): World
      reads this, db
    {
      World(folders, scanFiles, temps, moved, quarantined, db.T(), alive, tick)
    }

    constructor (env: Env, db: DB, folders: seq<DriveFolder>)
      ensures this.env == env && this.db == db
      ensures W() == World(folders, map[], multiset{}, [], [], db.T(), true, 0) && calls == []
    {
      this.env, this.db, this.folders := env, db, folders;
      scanFiles, temps, moved, quarantined, alive, tick, calls := map[], multiset{}, [], [], true, 0, [];
    }

    /** Meets the fate of the next Drive request. */
    method Operate() returns (f: Fate)
      modifies this`alive, this`tick
      ensures f == old(W()).Draw(env)
      ensures W() == old(W()).Step(f)
    {
      f := if alive then env.fate(tick) else Fail(Nothing);
      tick, alive := tick + 1, alive && !f.Crash?;
    }

    /** Meets the fate of the next SQL statement. */
    method OperateStore() returns (f: Fate)
      modifies this`alive, this`tick
      ensures f == old(W()).DrawStore(env)
      ensures W() == old(W()).Step(f)
    {
      f := if alive then env.store(tick) else Fail(Nothing);
      tick, alive := tick + 1, alive && !f.Crash?;
    }

    method ListInbox() returns (names: Option<seq<string>>)
      modifies this`scanFiles, this`alive, this`tick
      ensures (W(), names) == old(W()).ListInbox(env)
    {
      var files, cutoff := env.listing(tick), env.now(tick) - env.stableThreshold;
      var f := Operate();
      if !f.Ok? {
        return None;
      }
      scanFiles := map[];
      var stable: seq<string> := [];
      for i := 0 to |files|
        invariant scanFiles == ScanCache(files[..i], cutoff)
        invariant stable == StableNames(files[..i], cutoff)
        invariant W() == old(W()).Step(f).(scan := scanFiles)
      {
        assert files[..i + 1][..i] == files[..i];
        if files[i].checksum == "" {
          continue;
        }
        if files[i].modified > cutoff {
          continue;
        }
        scanFiles := scanFiles[files[i].name := files[i]];
        stable := stable + [files[i].name];
      }
      assert files[..|files|] == files;
      return Some(stable);
    }

    method ReadPDF(name: string) returns (got: Option<(Bytes, Hash)>)
      modifies this`temps, this`alive, this`tick, this`calls
      ensures (W(), got) == old(W()).ReadPDF(name, env)
      ensures calls == old(calls) + [Call.ReadPDF(got.Some?)]
    {
      got := Fetch(name);
      calls := calls + [Call.ReadPDF(got.Some?)];
    }

    method Fetch(name: string) returns (got: Option<(Bytes, Hash)>)
      modifies this`temps, this`alive, this`tick
      ensures (W(), got) == old(W()).ReadPDF(name, env)
    {
      if name !in scanFiles {
        return None;
      }
      var cached := scanFiles[name];
      var remote, served := env.remote(tick), env.served(tick);
      var f := Operate();
      if !f.Ok? || cached.id !in remote {
        return None;
      }
      var current := remote[cached.id];
      if current.size != cached.size || current.modified != cached.modified || current.checksum == "" {
        return None;
      }
      f := Operate();
      if !f.Ok? || cached.id !in served {
        return None;
      }
      var rev := served[cached.id];
      var pdf := env.content(cached.id, rev.size, rev.modified);
      temps := temps + multiset{pdf};
      return Some((pdf, env.hash(pdf)));
    }

    method Cleanup(pdf: Bytes)
      modifies this`temps, this`alive, this`tick, this`calls
      ensures W() == old(W()).Cleanup(pdf, env)
      ensures calls == old(calls) + [Call.Cleanup]
    {
      var f := Operate();
      if Took(f) {
        temps := temps - multiset{pdf};
      }
      calls := calls + [Call.Cleanup];
    }

    method IsDuplicate(h: Hash) returns (answer: Option<bool>)
      modifies this`alive, this`tick, this`calls
      ensures (W(), answer) == old(W()).IsDuplicate(h, env)
      ensures calls == old(calls) + [Call.IsDuplicate(answer)]
    {
      var f := OperateStore();
      answer := db.HasHash(h, f);
      calls := calls + [Call.IsDuplicate(answer)];
    }

    method CreateFolder(name: string) returns (ok: bool)
      modifies this`folders, this`alive, this`tick
      ensures (W(), ok) == old(W()).CreateFolder(name, env)
    {
      var f := Operate();
      if Took(f) {
        folders := folders + [DriveFolder(name, None, None, None)];
      }
      ok := f.Ok?;
    }

    method Upload(entry: DriveFolder) returns (ok: bool)
      requires folders != []
      modifies this`folders, this`alive, this`tick
      ensures (W(), ok) == old(W()).Upload(entry, env)
    {
      var f := Operate();
      if Took(f) {
        folders := folders[..|folders| - 1] + [entry];
      }
      ok := f.Ok?;
    }

    method UploadAll(e: Entry<Bytes>) returns (ok: bool)
      requires folders != []
      modifies this`folders, this`alive, this`tick
      ensures (W(), ok) == old(W()).UploadAll(e, env)
    {
      ok := Upload(folders[|folders| - 1].(pdf := Some(e.pdf)));
      if !ok {
        return;
      }
      ok := Upload(folders[|folders| - 1].(transcript := Some(e.transcript)));
      if !ok {
        return;
      }
      ok := Upload(folders[|folders| - 1].(meta := Some(e.meta.(fileDescription := ""))));
    }

    method PutRow(e: Entry<Bytes>, name: string) returns (ok: bool)
      modifies this`alive, this`tick, db`documents
      ensures (W(), ok) == old(W()).PutRow(e, name, env)
    {
      var f := OperateStore();
      var id := if e.meta.sourceFilename in scanFiles then scanFiles[e.meta.sourceFilename].id else "";
      ok := db.PutDocument(e.meta.contentHash, DocumentRow(name, id, e.meta.sourceFilename), f);
    }

    method WriteEntry(e: Entry<Bytes>) returns (entryName: Option<string>)
      modifies this`folders, this`alive, this`tick, this`calls, db`documents
      ensures (W(), entryName) == old(W()).WriteEntry(e, env)
      ensures calls == old(calls) + [Call.WriteEntry(entryName.Some?)]
    {
      entryName := BuildEntry(e);
      calls := calls + [Call.WriteEntry(entryName.Some?)];
    }

    method BuildEntry(e: Entry<Bytes>) returns (entryName: Option<string>)
      modifies this`folders, this`alive, this`tick, db`documents
      ensures (W(), entryName) == old(W()).WriteEntry(e, env)
    {
      var children := (set i | 0 <= i < |folders| :: folders[i].name) + env.others(tick);
      var f := Operate();
      if !f.Ok? {
        return None;
      }
      var name := UniqueDirName(FormatDirName(e.meta.documentDate, e.meta.vendor, e.meta.fileDescription, env.lower), children);
      var ok := CreateFolder(name);
      if !ok {
        return None;
      }
      ok := UploadAll(e);
      if !ok {
        return None;
      }
      ok := PutRow(e, name);
      return if ok then Some(name) else None;
    }

    method MoveToProcessed(name: string) returns (ok: bool)
      modifies this`moved, this`alive, this`tick, this`calls
      ensures (W(), ok) == old(W()).MoveToProcessed(name, env)
      ensures calls == old(calls) + [Call.MoveToProcessed(ok)]
    {
      var f := Operate();
      if name in scanFiles && Took(f) {
        moved := moved + [scanFiles[name].id];
      }
      ok := name in scanFiles && f.Ok?;
      calls := calls + [Call.MoveToProcessed(ok)];
    }

    method Quarantine(name: string, stage: Stage)
      modifies this`quarantined, this`alive, this`tick, this`calls
      ensures W() == old(W()).Quarantine(name, stage, env)
      ensures calls == old(calls) + [Call.Quarantine(stage)]
    {
      var f := Operate();
      if Took(f) {
        quarantined := quarantined + [QuarantineNote(name, stage)];
      }
      calls := calls + [Call.Quarantine(stage)];
    }

    method ProcessOne(name: string) returns (reply: Reply)
      modifies this, db`documents
      ensures W() == Process(old(W()), name, env).state
      ensures reply == Process(old(W()), name, env).reply
      ensures calls == old(calls) + Script(ExitOf(reply))
    {
      ProcessSteps(W(), name, env);
      var got := ReadPDF(name);
      if got.None? {
        Quarantine(name, LibraryWrite);
        UnreadScript(old(calls));
        return Fault(None, LibraryWrite);
      }
      reply := CheckAndFile(name, got.value.0, got.value.1);
      ScriptParts(old(calls), ExitOf(reply));
      Cleanup(got.value.0);
    }

    /** Everything the deferred clean-up waits for. */
    method CheckAndFile(name: string, pdf: Bytes, hash: Hash) returns (reply: Reply)
      modifies this, db`documents
      ensures var o := CheckDuplicate(DriveBackend(env), old(W()), name, pdf, hash); W() == o.state && reply == o.reply
      ensures !ExitOf(reply).Unread? && calls == old(calls) + Checking(ExitOf(reply))
    {
      var dup := IsDuplicate(hash);
      if dup.None? {
        return Abort;
      }
      if dup.value {
        return Done(Result(Skipped, Some(hash), "", None, true));
      }
      reply := FileNew(name, pdf, hash);
    }

    method FileNew(name: string, pdf: Bytes, hash: Hash) returns (reply: Reply)
      modifies this, db`documents
      ensures var o := Extract(DriveBackend(env), old(W()), name, pdf, hash); W() == o.state && reply == o.reply
      ensures Tried(ExitOf(reply)) && calls == old(calls) + Filing(ExitOf(reply))
    {
      var transcript := env.extract(tick);
      if transcript.None? {
        Quarantine(name, Ocr);
        return Fault(Some(hash), Ocr);
      }
      reply := FileText(name, pdf, hash, transcript.value);
    }

    method FileText(name: string, pdf: Bytes, hash: Hash, transcript: string) returns (reply: Reply)
      modifies this, db`documents
      ensures var o := ClassifyText(DriveBackend(env), old(W()), name, pdf, hash, transcript); W() == o.state && reply == o.reply
      ensures Tried(ExitOf(reply)) && calls == old(calls) + Filing(ExitOf(reply))
    {
      var props := env.answer(tick);
      if props.None? {
        Quarantine(name, Classify);
        return Fault(Some(hash), Classify);
      }
      var meta := ClassifiedAs(props.value, name, hash);
      if !SchemaValid(meta) {
        Quarantine(name, SchemaValidate);
        return Fault(Some(hash), SchemaValidate);
      }
      reply := FileEntry(name, hash, Entry(pdf, transcript, Described(meta)));
    }

    method FileEntry(name: string, hash: Hash, e: Entry<Bytes>) returns (reply: Reply)
      modifies this, db`documents
      ensures var o := File(DriveBackend(env), old(W()), name, hash, e); W() == o.state && reply == o.reply
      ensures Tried(ExitOf(reply)) && calls == old(calls) + Filing(ExitOf(reply))
    {
      FileSteps(W(), name, hash, e, env);
      var entryName := WriteEntry(e);
      if entryName.None? {
        Quarantine(name, LibraryWrite);
        FilingParts(old(calls), false);
        return Fault(Some(hash), LibraryWrite);
      }
      var moved := MoveToProcessed(name);
      FilingParts(old(calls), moved);
      return Done(Result(Processed, Some(hash), entryName.value, None, moved));
    }
  }

  class Worker {
    const storage: Storage
    /** The capacity-one channel of scan requests. */
    var requested: bool

    constructor (storage: Storage)
      ensures this.storage == storage && !requested
    {
      this.storage, requested := storage, false;
    }

    /** A request that finds one queued is dropped. */
    method Enqueue()
      modifies this`requested
      ensures requested
    {
      if !requested {
        requested := true;
      }
    }

    method ProcessFile(name: string)
      modifies storage, storage.db
      ensures storage.W() == Drive.ProcessFile(old(storage.W()), name, storage.env)
    {
      var reply := storage.ProcessOne(name);
      var f := storage.OperateStore();
      match reply {
        case Abort =>
          var _ := storage.db.RecordError("duplicate check failed", f);
        case Done(result) =>
          var _ := storage.db.BumpCounter(CounterOf(result.status), f);
      }
    }

    /** `stop` is the number of files after which a shutdown is seen. */
    method RunScan(stop: nat)
      modifies storage, storage.db
      ensures storage.W() == Drive.RunScan(old(storage.W()), storage.env, stop)
    {
      var listed := storage.ListInbox();
      if listed.None? {
        var f := storage.OperateStore();
        var _ := storage.db.RecordError("listing failed", f);
        return;
      }
      var names := listed.value;
      ghost var w1 := storage.W();
      for i := 0 to |names|
        invariant i <= stop
        invariant ScanFiles(w1, names, storage.env, stop) == ScanFiles(storage.W(), names[i..], storage.env, stop - i)
      {
        if i == stop {
          return;
        }
        ScanStep(storage.W(), names, i, storage.env, stop - i);
        ProcessFile(names[i]);
      }
      var f := storage.OperateStore();
      var _ := storage.db.RecordPoll(f);
    }
  }

  lemma ScanStep(w: World, names: seq<string>, i: nat, env: Env, left: nat)
    requires i < |names| && left > 0
    ensures ScanFiles(w, names[i..], env, left) == ScanFiles(Drive.ProcessFile(w, names[i], env), names[i + 1..], env, left - 1)
  {
    assert names[i..][0] == names[i] && names[i..][1..] == names[i + 1..];
  }
}
