/** The local-filesystem backend and the batch command, over files that can fail at any operation. */
module Local {
  import opened Basics
  import opened Faults
  import opened Naming
  import opened Pipeline

  /** A file after a write of `whole` (of which `part` is a torn copy) met its fate. */
  function Landed<T>(f: Fate, before: Option<T>, whole: T, part: T): Option<T> {
    if Took(f) then Some(whole) else if f.left.Torn? then Some(part) else before
  }

  function Cut<T>(whole: seq<T>, f: Fate): seq<T> {
    if !f.Ok? && f.left.Torn? && f.left.length < |whole| then whole[..f.left.length] else whole
  }

  /** Everything outside the program, indexed by the operation it meets: the fate of each file operation,
      which names an existence test or a metadata read fails on, and the answers of pdftotext and of the
      language model. The hash is uninterpreted. */
  datatype Env = Env(
    hash: Bytes -> Hash,
    lower: Lowering,
    fate: nat -> Fate,
    hidden: nat -> set<string>,
    unreadable: nat -> set<string>,
    extract: nat -> Option<string>,
    answer: nat -> Option<Props>)

  // ----- files -----------------------------------------------------------------

  /** A torn metadata.json does not parse. */
  datatype MetaFile = Parsed(m: Metadata) | Garbled

  datatype Folder = Folder(pdf: Option<Bytes>, transcript: Option<string>, meta: Option<MetaFile>)

  datatype QuarantineRecord = Recorded(stage: Stage) | TornRecord

  datatype QuarantineFolder = QuarantineFolder(pdf: Option<Bytes>, record: Option<QuarantineRecord>)

  /** A folder the duplicate check and the list command can see. */
  predicate Complete(f: Folder) {
    f.meta.Some? && f.meta.value.Parsed?
  }

  predicate HasHash(f: Folder, h: string) {
    Complete(f) && f.meta.value.m.contentHash == h
  }

  /** The name a processed file gets when its own is taken: stem, first eight hash digits, extension. */
  function ProcessedName(name: string, h: Hash): string {
    Stem(name) + "-" + h[..8] + Ext(name)
  }

  predicate IsPDF(name: string) {
    var e := Ext(name);
    && |e| == 4 && e[0] == '.'
    && (e[1] == 'p' || e[1] == 'P') && (e[2] == 'd' || e[2] == 'D') && (e[3] == 'f' || e[3] == 'F')
  }

  /** The four directory trees. `tick` counts file operations; after a crash (`alive` is false) the
      operations the program would have gone on to make have no effect. */
  datatype World = World(
    inbox: map<string, Bytes>,
    library: map<string, Folder>,
    processed: map<string, Bytes>,
    quarantine: map<string, QuarantineFolder>,
    alive: bool,
    tick: nat)
  {
    function Draw(env: Env): Fate {
      if alive then env.fate(tick) else Fail(Nothing)
    }

    function Step(f: Fate): World {
      this.(tick := tick + 1, alive := alive && !f.Crash?)
    }

    function ReadPDF(name: string, env: Env): (World, Option<(string, Hash)>) {
      var f := Draw(env);
      (Step(f), if f.Ok? && name in inbox then Some((name, env.hash(inbox[name]))) else None)
    }

    /** The answer does not depend on the order in which the library is read. */
    function IsDuplicate(h: Hash, env: Env): (World, Option<bool>) {
      var f := Draw(env);
      (Step(f), if f.Ok? then Some(exists d :: d in library && d !in env.unreadable(tick) && HasHash(library[d], h)) else None)
    }

    /** The directory WriteEntry builds its entry in: an existence test that fails counts as "absent". */
    function EntryDir(e: Entry<string>, env: Env): string {
      var m := Described(e.meta);
      UniqueName(FormatDirName(m.documentDate, m.vendor, m.fileDescription, env.lower), library.Keys - env.hidden(tick))
    }

    function MakeDir(dir: string, env: Env): (World, bool) {
      var f := Draw(env);
      (Step(f).(library := if Took(f) && dir !in library then library[dir := Folder(None, None, None)] else library), f.Ok?)
    }

    function PutPdf(dir: string, src: string, env: Env): (World, bool)
      requires dir in library
    {
      var f := Draw(env);
      if src !in inbox then (Step(f), false)
      else
        var pdf := inbox[src];
        (Step(f).(library := library[dir := library[dir].(pdf := Landed(f, library[dir].pdf, pdf, Cut(pdf, f)))]), f.Ok?)
    }

    function PutTranscript(dir: string, text: string, env: Env): (World, bool)
      requires dir in library
    {
      var f := Draw(env);
      (Step(f).(library := library[dir := library[dir].(transcript := Landed(f, library[dir].transcript, text, Cut(text, f)))]), f.Ok?)
    }

    function PutMeta(dir: string, m: Metadata, env: Env): (World, bool)
      requires dir in library
    {
      var f := Draw(env);
      var stored := m.(fileDescription := "");
      (Step(f).(library := library[dir := library[dir].(meta := Landed(f, library[dir].meta, Parsed(stored), Garbled))]), f.Ok?)
    }

    function WriteEntry(e: Entry<string>, env: Env): (World, Option<string>) {
      var dir := EntryDir(e, env);
      var (w1, ok1) := Step(Draw(env)).MakeDir(dir, env);
      if !ok1 then (w1, None) else
      var (w2, ok2) := w1.PutPdf(dir, e.pdf, env);
      if !ok2 then (w2, None) else
      var (w3, ok3) := w2.PutTranscript(dir, e.transcript, env);
      if !ok3 then (w3, None) else
      var (w4, ok4) := w3.PutMeta(dir, e.meta, env);
      (w4, if ok4 then Some(dir) else None)
    }

    function CopyOver(name: string, dst: string, env: Env): (World, bool) {
      var f := Draw(env);
      if name !in inbox then (Step(f), false)
      else
        var before := if dst in processed then Some(processed[dst]) else None;
        var after := Landed(f, before, inbox[name], Cut(inbox[name], f));
        (Step(f).(processed := if after.Some? then processed[dst := after.value] else processed), f.Ok?)
    }

    function Remove(name: string, env: Env): World {
      var f := Draw(env);
      Step(f).(inbox := if Took(f) then inbox - {name} else inbox)
    }

    function Rename(name: string, dst: string, env: Env): (World, bool) {
      var f := Draw(env);
      if name !in inbox then (Step(f), false)
      else
        (if Took(f) then Step(f).(inbox := inbox - {name}, processed := processed[dst := inbox[name]]) else Step(f), f.Ok?)
    }

    /** Rename, or copy and remove; a failure is only a warning, so the reported outcome is always success. */
    function MoveToProcessed(name: string, h: Hash, env: Env): (World, bool) {
      var f := Draw(env);
      var w1 := Step(f);
      if !f.Ok? then (w1, true) else
      var taken := name in processed && name !in env.hidden(w1.tick);
      var dst := if taken then ProcessedName(name, h) else name;
      var (w2, renamed) := w1.Step(w1.Draw(env)).Rename(name, dst, env);
      if renamed then (w2, true) else
      var (w3, copied) := w2.CopyOver(name, dst, env);
      (if copied then w3.Remove(name, env) else w3, true)
    }

    function Quarantine(name: string, stage: Stage, env: Env): World {
      var f := Draw(env);
      var w1 := Step(f).(quarantine :=
        if Took(f) && name !in quarantine then quarantine[name := QuarantineFolder(None, None)] else quarantine);
      if !f.Ok? then w1 else
      var g := w1.Draw(env);
      var q := w1.quarantine[name];
      var w2 := w1.Step(g).(quarantine :=
        if name in inbox then w1.quarantine[name := q.(pdf := Landed(g, q.pdf, inbox[name], Cut(inbox[name], g)))]
        else w1.quarantine);
      var k := w2.Draw(env);
      var r := w2.quarantine[name];
      w2.Step(k).(quarantine := w2.quarantine[name := r.(record := Landed(k, r.record, Recorded(stage), TornRecord))])
    }
  }

  /** Reading makes no copy, so the clean-up has nothing to do; nobody observes the stages. */
  function LocalBackend(env: Env): Backend<World, string> {
    Backend(
      (w: World, name: string) => w.ReadPDF(name, env),
      (w: World, path: string) => w,
      (w: World, h: Hash) => w.IsDuplicate(h, env),
      (w: World) => env.extract(w.tick),
      (w: World) => env.answer(w.tick),
      (w: World, e: Entry<string>) => w.WriteEntry(e, env),
      (w: World, name: string, h: Hash) => w.MoveToProcessed(name, h, env),
      (w: World, name: string, stage: Stage) => w.Quarantine(name, stage, env),
      (w: World, n: Notice) => w)
  }

  function Process(w: World, name: string, env: Env): Outcome<World> {
    ProcessOne(LocalBackend(env), w, name)
  }

  // ----- the batch -------------------------------------------------------------

  datatype Batch = Batch(world: World, results: seq<Result>, aborted: bool)

  /** One file after the other; an error of the duplicate check ends the batch. */
  function RunAll(w: World, names: seq<string>, env: Env): Batch
    decreases |names|
  {
    if names == [] then Batch(w, [], false)
    else
      var o := Process(w, names[0], env);
      if o.reply.Abort? then Batch(o.state, [], true)
      else
        var rest := RunAll(o.state, names[1..], env);
        rest.(results := [o.reply.result] + rest.results)
  }

  /** Creating the library directory, opening the log and listing the inbox, before the first file. */
  function Opened(w: World, env: Env): (World, bool) {
    var f := w.Draw(env);
    if !f.Ok? then (w.Step(f), false) else
    var w1 := w.Step(f);
    var g := w1.Draw(env);
    if !g.Ok? then (w1.Step(g), false) else
    var w2 := w1.Step(g);
    var k := w2.Draw(env);
    (w2.Step(k), k.Ok?)
  }

  /** A whole `process` command over the listing `names`. */
  function Command(w: World, names: seq<string>, env: Env): Batch {
    var (w1, ok) := Opened(w, env);
    if ok then RunAll(w1, names, env) else Batch(w1, [], true)
  }

  datatype Summary = Summary(processed: nat, skipped: nat, quarantined: nat)

  function CountStatus(results: seq<Result>, status: Status): nat {
    if results == [] then 0
    else (if results[|results| - 1].status == status then 1 else 0) + CountStatus(results[..|results| - 1], status)
  }

  function Summarise(results: seq<Result>): Summary {
    Summary(CountStatus(results, Processed), CountStatus(results, Skipped), CountStatus(results, Quarantined))
  }

  ghost predicate IsListing(names: seq<string>, inbox: map<string, Bytes>) {
    && (forall i, j | 0 <= i < j < |names| :: names[i] != names[j])
    && (forall n :: n in names <==> n in inbox && IsPDF(n))
  }
}
