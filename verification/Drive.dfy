/** The Google Drive backend with its SQLite index, and the scan that files an inbox through it. */
module Drive {
  import opened Basics
  import opened Faults
  import opened Naming
  import opened Pipeline
  import opened Store

  datatype FileInfo = FileInfo(id: string, name: string, size: nat, modified: int, checksum: string)

  /** What a fresh metadata request returns for a file id. */
  datatype Revision = Revision(size: nat, modified: int, checksum: string)

  datatype DriveFolder = DriveFolder(name: string, pdf: Option<Bytes>, transcript: Option<string>, meta: Option<Metadata>)

  /** Everything outside the daemon, indexed by the operation it meets. `fate` is for Drive requests and
      the removal of temporary files, `store` for SQL statements. The inbox belongs to its users, who may change it between any two
      operations: `listing` is a folder listing, `remote` the metadata of each file id at verification,
      `served` the revision a download started after that verification gets. A revision's size and
      modification time determine its content. */
  datatype Env = Env(
    hash: Bytes -> Hash,
    lower: Lowering,
    content: (string, nat, int) -> Bytes,
    stableThreshold: int,
    fate: nat -> Fate,
    store: nat -> Fate,
    now: nat -> int,
    listing: nat -> seq<FileInfo>,
    remote: nat -> map<string, Revision>,
    served: nat -> map<string, Revision>,
    others: nat -> set<string>,
    extract: nat -> Option<string>,
    answer: nat -> Option<Props>)

  /** Fully uploaded: old enough and with a checksum. */
  predicate Stable(f: FileInfo, cutoff: int) {
    f.checksum != "" && f.modified <= cutoff
  }

  function StableNames(files: seq<FileInfo>, cutoff: int): seq<string> {
    if files == [] then []
    else
      var last := files[|files| - 1];
      StableNames(files[..|files| - 1], cutoff) + (if Stable(last, cutoff) then [last.name] else [])
  }

  /** The scan cache is keyed by name, so of two stable files with one name the later listed is kept. */
  function ScanCache(files: seq<FileInfo>, cutoff: int): map<string, FileInfo> {
    if files == [] then map[]
    else
      var last := files[|files| - 1];
      var before := ScanCache(files[..|files| - 1], cutoff);
      if Stable(last, cutoff) then before[last.name := last] else before
  }

  predicate Unchanged(cached: FileInfo, current: Revision) {
    current.size == cached.size && current.modified == cached.modified && current.checksum != ""
  }

  datatype QuarantineNote = QuarantineNote(name: string, stage: Stage)

  /** `temps` are the downloads in temporary files, `moved` the file ids whose move to the processed folder
      was requested and took effect. */
  datatype World = World(
    folders: seq<DriveFolder>,
    scan: map<string, FileInfo>,
    temps: multiset<Bytes>,
    moved: seq<string>,
    quarantined: seq<QuarantineNote>,
    tables: Tables,
    alive: bool,
    tick: nat)
  {
    function Draw(env: Env): Fate {
      if alive then env.fate(tick) else Fail(Nothing)
    }

    function DrawStore(env: Env): Fate {
      if alive then env.store(tick) else Fail(Nothing)
    }

    function Step(f: Fate): World {
      this.(tick := tick + 1, alive := alive && !f.Crash?)
    }

    function ListInbox(env: Env): (World, Option<seq<string>>) {
      var f := Draw(env);
      if !f.Ok? then (Step(f), None)
      else
        var files, cutoff := env.listing(tick), env.now(tick) - env.stableThreshold;
        (Step(f).(scan := ScanCache(files, cutoff)), Some(StableNames(files, cutoff)))
    }

    function ReadPDF(name: string, env: Env): (World, Option<(Bytes, Hash)>) {
      if name !in scan then (this, None)
      else
        var cached := scan[name];
        var f := Draw(env);
        var w1 := Step(f);
        if !f.Ok? || cached.id !in env.remote(tick) || !Unchanged(cached, env.remote(tick)[cached.id]) then (w1, None)
        else
          var g := w1.Draw(env);
          if !g.Ok? || cached.id !in env.served(tick) then (w1.Step(g), None)
          else
            var rev := env.served(tick)[cached.id];
            var pdf := env.content(cached.id, rev.size, rev.modified);
            (w1.Step(g).(temps := temps + multiset{pdf}), Some((pdf, env.hash(pdf))))
    }

    /** Removes the temporary file; an error is ignored. */
    function Cleanup(pdf: Bytes, env: Env): World {
      var f := Draw(env);
      Step(f).(temps := if Took(f) then temps - multiset{pdf} else temps)
    }

    /** The index is asked, not the library. */
    function IsDuplicate(h: Hash, env: Env): (World, Option<bool>) {
      var f := DrawStore(env);
      (Step(f), if f.Ok? then Some(h in tables.documents) else None)
    }

    function ChildNames(env: Env): set<string> {
      (set i | 0 <= i < |folders| :: folders[i].name) + env.others(tick)
    }

    /** Resolved against the names in a listing of the library folder. */
    function EntryName(m: Metadata, env: Env): string {
      UniqueName(FormatDirName(m.documentDate, m.vendor, m.fileDescription, env.lower), ChildNames(env))
    }

    function CreateFolder(name: string, env: Env): (World, bool) {
      var f := Draw(env);
      (Step(f).(folders := if Took(f) then folders + [DriveFolder(name, None, None, None)] else folders), f.Ok?)
    }

    /** Uploads go to the folder created last; an upload takes place as a whole or not at all. */
    function Upload(entry: DriveFolder, env: Env): (World, bool)
      requires folders != []
    {
      var f := Draw(env);
      (Step(f).(folders := if Took(f) then folders[..|folders| - 1] + [entry] else folders), f.Ok?)
    }

    function Last(): DriveFolder
      requires folders != []
    {
      folders[|folders| - 1]
    }

    /** The index row is written only after all uploads. */
    function PutRow(e: Entry<Bytes>, name: string, env: Env): (World, bool) {
      var f := DrawStore(env);
      var id := if e.meta.sourceFilename in scan then scan[e.meta.sourceFilename].id else "";
      var row := DocumentRow(name, id, e.meta.sourceFilename);
      (Step(f).(tables := if Took(f) then tables.PutDocument(e.meta.contentHash, row) else tables), f.Ok?)
    }

    function UploadAll(e: Entry<Bytes>, env: Env): (World, bool)
      requires folders != []
    {
      var (w1, ok1) := Upload(Last().(pdf := Some(e.pdf)), env);
      if !ok1 then (w1, false) else
      var (w2, ok2) := w1.Upload(w1.Last().(transcript := Some(e.transcript)), env);
      if !ok2 then (w2, false) else
      w2.Upload(w2.Last().(meta := Some(e.meta.(fileDescription := ""))), env)
    }

    function WriteEntry(e: Entry<Bytes>, env: Env): (World, Option<string>) {
      var f := Draw(env);
      if !f.Ok? then (Step(f), None) else
      var name := EntryName(e.meta, env);
      var (w1, ok1) := Step(f).CreateFolder(name, env);
      if !ok1 then (w1, None) else
      var (w2, ok2) := w1.UploadAll(e, env);
      if !ok2 then (w2, None) else
      var (w3, ok3) := w2.PutRow(e, name, env);
      (w3, if ok3 then Some(name) else None)
    }

    function MoveToProcessed(name: string, env: Env): (World, bool) {
      var f := Draw(env);
      if name !in scan then (Step(f), false)
      else (Step(f).(moved := if Took(f) then moved + [scan[name].id] else moved), f.Ok?)
    }

    function Quarantine(name: string, stage: Stage, env: Env): World {
      var f := Draw(env);
      Step(f).(quarantined := if Took(f) then quarantined + [QuarantineNote(name, stage)] else quarantined)
    }

    /** A status statement: `change` is committed if the statement takes effect. */
    function Commit(change: Option<Tables>, env: Env): World {
      var f := DrawStore(env);
      Step(f).(tables := if Took(f) && change.Some? then change.value else tables)
    }
  }

  function DriveBackend(env: Env): Backend<World, Bytes> {
    Backend(
      (w: World, name: string) => w.ReadPDF(name, env),
      (w: World, pdf: Bytes) => w.Cleanup(pdf, env),
      (w: World, h: Hash) => w.IsDuplicate(h, env),
      (w: World) => env.extract(w.tick),
      (w: World) => env.answer(w.tick),
      (w: World, e: Entry<Bytes>) => w.WriteEntry(e, env),
      (w: World, name: string, h: Hash) => w.MoveToProcessed(name, env),
      (w: World, name: string, stage: Stage) => w.Quarantine(name, stage, env),
      (w: World, n: Notice) => w)
  }

  function Process(w: World, name: string, env: Env): Outcome<World> {
    ProcessOne(DriveBackend(env), w, name)
  }

  /** The pipeline's steps on this backend. */
  lemma FileSteps(w: World, name: string, hash: Hash, e: Entry<Bytes>, env: Env)
    ensures var (w1, dir) := w.WriteEntry(e, env);
            File(DriveBackend(env), w, name, hash, e) ==
            if dir.None? then Outcome(w1.Quarantine(name, LibraryWrite, env), Fault(Some(hash), LibraryWrite))
            else var (w2, moved) := w1.MoveToProcessed(name, env);
                 Outcome(w2, Done(Result(Processed, Some(hash), dir.value, None, moved)))
  {
  }

  lemma ProcessSteps(w: World, name: string, env: Env)
    ensures var (w1, got) := w.ReadPDF(name, env);
            Process(w, name, env) ==
            if got.None? then Outcome(w1.Quarantine(name, LibraryWrite, env), Fault(None, LibraryWrite))
            else var o := CheckDuplicate(DriveBackend(env), w1, name, got.value.0, got.value.1);
                 o.(state := o.state.Cleanup(got.value.0, env))
  {
  }

  function CounterOf(status: Status): string {
    match status
    case Processed => "processed"
    case Skipped => "skipped"
    case Quarantined => "quarantine"
  }

  /** The worker's handling of one file: the pipeline, then a counter or the error text. */
  function ProcessFile(w: World, name: string, env: Env): World {
    var o := Process(w, name, env);
    match o.reply
    case Abort => o.state.Commit(Some(o.state.tables.RecordError("duplicate check failed")), env)
    case Done(r) => o.state.Commit(o.state.tables.BumpCounter(CounterOf(r.status)), env)
  }

  /** Files are handled in order; a failed one does not stop the scan, a shutdown seen before the
      `stop`-th file does. The flag tells whether the listing was exhausted. */
  function ScanFiles(w: World, names: seq<string>, env: Env, stop: nat): (World, bool)
    decreases |names|
  {
    if names == [] then (w, true)
    else if stop == 0 then (w, false)
    else ScanFiles(ProcessFile(w, names[0], env), names[1..], env, stop - 1)
  }

  function RunScan(w: World, env: Env, stop: nat): World {
    var (w1, names) := w.ListInbox(env);
    if names.None? then w1.Commit(Some(w1.tables.RecordError("listing failed")), env)
    else
      var (w2, finished) := ScanFiles(w1, names.value, env, stop);
      if finished then w2.Commit(Some(w2.tables.RecordPoll()), env) else w2
  }
}
