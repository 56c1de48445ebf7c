/** What the local batch keeps, through every fault, crash and re-run. */
module LocalTheorems {
  import opened Basics
  import opened Faults
  import opened Naming
  import opened Pipeline
  import opened Local

  type Hashing = Bytes -> Hash

  /** No existence test reports an existing name as absent. */
  ghost predicate StatsReliable(env: Env) {
    forall t :: env.hidden(t) == {}
  }

  /** The directory holds a complete entry. */
  ghost predicate Filled(w: World, dir: string) {
    dir in w.library && Complete(w.library[dir])
  }

  /** The existence tests of a write made next see every complete entry; partial directories, and the tests
      of a later move, may still be misjudged. */
  ghost predicate SeesEntries(w: World, env: Env) {
    forall d :: Filled(w, d) ==> d !in env.hidden(w.tick)
  }

  /** The same for the write of a call that starts in w: reading and the duplicate check come before it. */
  ghost predicate EntriesSeen(w: World, env: Env) {
    forall d :: Filled(w, d) ==> d !in env.hidden(w.tick + 2)
  }

  /** The same for every call of a batch. */
  ghost predicate EntriesSeenIn(w: World, names: seq<string>, env: Env)
    decreases |names|
  {
    names == [] ||
    (EntriesSeen(w, env) &&
     var o := Process(w, names[0], env);
     o.reply.Done? ==> EntriesSeenIn(o.state, names[1..], env))
  }

  /** Every metadata file the duplicate check wants to read can be read. */
  ghost predicate ScansReliable(env: Env) {
    forall t :: env.unreadable(t) == {}
  }

  /** What a finished entry for a PDF looks like. */
  function FiledFolder(pdf: Bytes, e: Entry<string>): Folder {
    Folder(Some(pdf), Some(e.transcript), Some(Parsed(e.meta.(fileDescription := ""))))
  }

  ghost predicate IsFiled(f: Folder, pdf: Bytes, hash: Hashing) {
    HasHash(f, hash(pdf)) && f.pdf == Some(pdf)
  }

  /** The PDF is held byte for byte by a complete entry that carries its hash. */
  ghost predicate Held(w: World, pdf: Bytes, hash: Hashing) {
    exists d :: d in w.library && IsFiled(w.library[d], pdf, hash)
  }

  /** The bytes are in the inbox under n, or held by the library. */
  ghost predicate Safe(w: World, n: string, pdf: Bytes, hash: Hashing) {
    (n in w.inbox && w.inbox[n] == pdf) || Held(w, pdf, hash)
  }

  /** Nothing is lost from w to w': every PDF is still in the inbox under its name or held by the
      library, and every complete entry is untouched. */
  ghost predicate Keeps(w: World, w': World, hash: Hashing) {
    && (forall n :: n in w.inbox ==> Safe(w', n, w.inbox[n], hash))
    && EntriesKept(w, w')
  }

  ghost predicate EntriesKept(w: World, w': World) {
    forall d :: Filled(w, d) ==> d in w'.library && w'.library[d] == w.library[d]
  }

  lemma HeldStays(w: World, w': World, pdf: Bytes, hash: Hashing)
    requires Held(w, pdf, hash) && EntriesKept(w, w')
    ensures Held(w', pdf, hash)
  {
    var d :| d in w.library && IsFiled(w.library[d], pdf, hash);
    assert d in w'.library && IsFiled(w'.library[d], pdf, hash);
  }

  lemma KeepsTransitive(w0: World, w1: World, w2: World, hash: Hashing)
    requires Keeps(w0, w1, hash) && Keeps(w1, w2, hash)
    ensures Keeps(w0, w2, hash)
  {
    forall n | n in w0.inbox
      ensures Safe(w2, n, w0.inbox[n], hash)
    {
      if Held(w1, w0.inbox[n], hash) {
        HeldStays(w1, w2, w0.inbox[n], hash);
      }
    }
  }

  /** Every complete entry really is one: a PDF, a transcript, schema-valid metadata with its hash. */
  ghost predicate WellFiled(f: Folder, hash: Hashing) {
    Complete(f) ==>
      && f.pdf.Some? && f.transcript.Some?
      && SchemaValid(f.meta.value.m)
      && f.meta.value.m.contentHash == f.meta.value.m.id == hash(f.pdf.value)
  }

  ghost predicate Sound(w: World, hash: Hashing) {
    forall d :: d in w.library ==> WellFiled(w.library[d], hash)
  }

  /** The directories of the complete entries with a content hash. */
  function Copies(w: World, h: string): set<string> {
    set d | d in w.library && HasHash(w.library[d], h)
  }

  /** At most one complete entry per content hash. */
  ghost predicate Unique(w: World) {
    forall h :: |Copies(w, h)| <= 1
  }

  /** Every complete entry carries schema-valid metadata. */
  ghost predicate MetaValid(w: World) {
    forall d :: Filled(w, d) ==> SchemaValid(w.library[d].meta.value.m)
  }

  // ----- what each operation leaves alone ---------------------------------------

  /** Inbox, library and processed area are the same. */
  predicate Quiet(w: World, w': World) {
    w'.inbox == w.inbox && w'.library == w.library && w'.processed == w.processed
  }

  /** Nothing but the library folder `dir` differs. */
  ghost predicate OnlyDir(w: World, w': World, dir: string) {
    && w'.inbox == w.inbox && w'.processed == w.processed
    && (forall d | d != dir :: (d in w'.library <==> d in w.library) && (d in w.library ==> w'.library[d] == w.library[d]))
  }

  lemma PutPdfShape(w: World, dir: string, src: string, env: Env)
    requires dir in w.library && src in w.inbox
    ensures var (w', ok) := w.PutPdf(dir, src, env);
            && OnlyDir(w, w', dir) && dir in w'.library
            && w'.library[dir] == w.library[dir].(pdf := w'.library[dir].pdf)
            && (ok ==> w'.library[dir].pdf == Some(w.inbox[src]))
  {
  }

  lemma PutTranscriptShape(w: World, dir: string, text: string, env: Env)
    requires dir in w.library
    ensures var (w', ok) := w.PutTranscript(dir, text, env);
            && OnlyDir(w, w', dir) && dir in w'.library
            && w'.library[dir] == w.library[dir].(transcript := w'.library[dir].transcript)
            && (ok ==> w'.library[dir].transcript == Some(text))
  {
  }

  lemma PutMetaShape(w: World, dir: string, m: Metadata, env: Env)
    requires dir in w.library
    ensures var (w', ok) := w.PutMeta(dir, m, env);
            var stored := m.(fileDescription := "");
            && OnlyDir(w, w', dir) && dir in w'.library
            && w'.library[dir] == w.library[dir].(meta := w'.library[dir].meta)
            && (ok ==> w'.library[dir].meta == Some(Parsed(stored)))
            && (Complete(w'.library[dir]) ==>
                  w'.library[dir].meta == Some(Parsed(stored)) || w'.library[dir].meta == w.library[dir].meta)
  {
  }

  lemma OnlyDirTransitive(w0: World, w1: World, w2: World, dir: string)
    requires OnlyDir(w0, w1, dir) && OnlyDir(w1, w2, dir)
    ensures OnlyDir(w0, w2, dir)
  {
  }

  /** Metadata comes last: until it is written, the folder's own metadata is what it was. */
  ghost predicate Building(w: World, w': World, dir: string) {
    && OnlyDir(w, w', dir) && (dir in w.library ==> dir in w'.library)
    && (dir in w'.library ==> w'.library[dir].meta == if dir in w.library then w.library[dir].meta else None)
  }

  lemma MakeDirBuilds(w: World, dir: string, env: Env)
    ensures Building(w, w.MakeDir(dir, env).0, dir)
    ensures w.MakeDir(dir, env).1 ==> dir in w.MakeDir(dir, env).0.library
  {
  }

  lemma BuildingTransitive(w0: World, w1: World, w2: World, dir: string)
    requires Building(w0, w1, dir) && Building(w1, w2, dir) && dir in w1.library
    ensures Building(w0, w2, dir)
  {
  }

  /** Whatever fails and whatever was there, one write touches one directory. A directory it leaves complete
      is either whole, with this PDF, or was complete before, and then its metadata is the old or the new. */
  lemma WriteEntryShape(w: World, e: Entry<string>, env: Env)
    requires e.pdf in w.inbox
    ensures var (w', r) := w.WriteEntry(e, env);
            var dir, f := w.EntryDir(e, env), FiledFolder(w.inbox[e.pdf], e);
            && OnlyDir(w, w', dir) && (dir in w.library ==> dir in w'.library)
            && (r.Some? ==> r.value == dir && dir in w'.library && w'.library[dir] == f)
            && (Filled(w', dir) ==>
                  || w'.library[dir] == f
                  || (Filled(w, dir) && (w'.library[dir].meta == f.meta || w'.library[dir].meta == w.library[dir].meta)))
  {
    var dir := w.EntryDir(e, env);
    var w0 := w.Step(w.Draw(env));
    MakeDirBuilds(w0, dir, env);
    var (w1, ok1) := w0.MakeDir(dir, env);
    assert Building(w, w1, dir);
    if ok1 {
      PutPdfShape(w1, dir, e.pdf, env);
      var (w2, ok2) := w1.PutPdf(dir, e.pdf, env);
      BuildingTransitive(w, w1, w2, dir);
      if ok2 {
        PutTranscriptShape(w2, dir, e.transcript, env);
        var (w3, ok3) := w2.PutTranscript(dir, e.transcript, env);
        BuildingTransitive(w, w2, w3, dir);
        if ok3 {
          PutMetaShape(w3, dir, e.meta, env);
          var (w4, ok4) := w3.PutMeta(dir, e.meta, env);
          OnlyDirTransitive(w, w3, w4, dir);
          assert w.WriteEntry(e, env) == (w4, if ok4 then Some(dir) else None);
        }
      }
    }
  }

  /** The library is the same, and of the inbox at most `name` is gone. */
  ghost predicate Releases(w: World, w': World, name: string) {
    && w'.library == w.library
    && w'.inbox.Keys <= w.inbox.Keys
    && (forall n | n in w.inbox :: (n != name ==> n in w'.inbox) && (n in w'.inbox ==> w'.inbox[n] == w.inbox[n]))
  }

  lemma RenameShape(w: World, name: string, dst: string, env: Env)
    ensures Releases(w, w.Rename(name, dst, env).0, name)
    ensures Releases(w, w.CopyOver(name, dst, env).0, name)
    ensures Releases(w, w.Remove(name, env), name)
  {
  }

  lemma ReleasesTransitive(w0: World, w1: World, w2: World, name: string)
    requires Releases(w0, w1, name) && Releases(w1, w2, name)
    ensures Releases(w0, w2, name)
  {
  }

  lemma MoveShape(w: World, name: string, h: Hash, env: Env)
    ensures Releases(w, w.MoveToProcessed(name, h, env).0, name)
  {
    var f := w.Draw(env);
    var w1 := w.Step(f);
    if f.Ok? {
      var dst := if name in w.processed && name !in env.hidden(w1.tick) then ProcessedName(name, h) else name;
      var w1' := w1.Step(w1.Draw(env));
      var (w2, renamed) := w1'.Rename(name, dst, env);
      assert Releases(w, w2, name) by {
        RenameShape(w1', name, dst, env);
      }
      if renamed {
        assert w.MoveToProcessed(name, h, env).0 == w2;
      } else {
        var (w3, copied) := w2.CopyOver(name, dst, env);
        assert w.MoveToProcessed(name, h, env).0 == if copied then w3.Remove(name, env) else w3;
        RenameShape(w2, name, dst, env);
        ReleasesTransitive(w, w2, w3, name);
        RenameShape(w3, name, dst, env);
        if copied {
          ReleasesTransitive(w, w3, w3.Remove(name, env), name);
        }
      }
    }
  }

  /** Wherever the move fails or stops, a file that has left the inbox is in the processed area, under its own
      name or the suffixed one, and no third processed file has changed. */
  lemma MoveKeepsBytes(w: World, name: string, h: Hash, env: Env)
    requires name in w.inbox
    ensures var w' := w.MoveToProcessed(name, h, env).0;
            var dst := if name in w.processed && name !in env.hidden(w.tick + 1) then ProcessedName(name, h) else name;
            && (name !in w'.inbox ==> dst in w'.processed && w'.processed[dst] == w.inbox[name])
            && (forall n | n in w.processed && n != dst :: n in w'.processed && w'.processed[n] == w.processed[n])
  {
    var f := w.Draw(env);
    var w1 := w.Step(f);
    if f.Ok? {
      var dst := if name in w.processed && name !in env.hidden(w1.tick) then ProcessedName(name, h) else name;
      var (w2, renamed) := w1.Step(w1.Draw(env)).Rename(name, dst, env);
      var (w3, copied) := w2.CopyOver(name, dst, env);
      assert w.MoveToProcessed(name, h, env).0 == if renamed then w2 else if copied then w3.Remove(name, env) else w3;
    }
  }

  /** The exact condition under which a move that succeeds overwrites an earlier processed file: the
      destination, which is not checked again once it has been suffixed, holds other bytes. */
  lemma ProcessedOverwrittenIff(w: World, name: string, h: Hash, env: Env)
    requires w.alive && (forall t :: env.fate(t) == Ok) && name in w.inbox
    ensures var w' := w.MoveToProcessed(name, h, env).0;
            var dst := if name in w.processed && name !in env.hidden(w.tick + 1) then ProcessedName(name, h) else name;
            && name !in w'.inbox
            && ((exists n :: n in w.processed && (n !in w'.processed || w'.processed[n] != w.processed[n])) <==>
                dst in w.processed && w.processed[dst] != w.inbox[name])
  {
    var dst := if name in w.processed && name !in env.hidden(w.tick + 1) then ProcessedName(name, h) else name;
    assert w.MoveToProcessed(name, h, env).0.processed == w.processed[dst := w.inbox[name]];
  }

  /** The entry the pipeline hands to WriteEntry for a PDF. */
  ghost predicate EntryFor(e: Entry<string>, name: string, h: Hash) {
    e.pdf == name && SchemaValid(e.meta) && e.meta.contentHash == e.meta.id == h
  }

  /** What a run that reached WriteEntry in w2 did to the files. */
  ghost predicate Wrote(w2: World, name: string, h: Hash, e: Entry<string>, env: Env, o: Outcome<World>) {
    && EntryFor(e, name, h)
    && o.reply.Done?
    && var (w3, dir) := w2.WriteEntry(e, env);
       if dir.None? then o.reply.result.status.Quarantined? && Quiet(w3, o.state)
       else o.reply.result.status.Processed? && o.reply.result.entryName == dir.value
            && o.state == w3.MoveToProcessed(name, h, env).0
  }

  lemma QuarantineQuiet(w: World, name: string, stage: Stage, env: Env)
    ensures Quiet(w, w.Quarantine(name, stage, env))
  {
  }

  lemma FileShape(w: World, name: string, h: Hash, e: Entry<string>, env: Env)
    requires EntryFor(e, name, h)
    ensures Wrote(w, name, h, e, env, File(LocalBackend(env), w, name, h, e))
  {
    var (w3, dir) := w.WriteEntry(e, env);
    QuarantineQuiet(w3, name, LibraryWrite, env);
  }

  lemma StagesShape(w: World, name: string, h: Hash, env: Env) returns (wrote: bool, e: Entry<string>)
    ensures var o := Extract(LocalBackend(env), w, name, name, h);
            if wrote then Wrote(w, name, h, e, env, o)
            else Quiet(w, o.state) && o.reply.Done? && o.reply.result.status.Quarantined?
  {
    wrote, e := false, Entry(name, "", Metadata("", "", "", "", "", "", "", None, "", "", ""));
    var b := LocalBackend(env);
    var transcript, props := b.extract(w), b.classify(w);
    if transcript.None? {
      QuarantineQuiet(w, name, Ocr, env);
    } else if props.None? {
      QuarantineQuiet(w, name, Classify, env);
    } else {
      var meta := ClassifiedAs(props.value, name, h);
      if SchemaValid(meta) {
        wrote, e := true, Entry(name, transcript.value, Described(meta));
        var o := File(b, w, name, h, e);
        FileShape(w, name, h, e, env);
        var c := ClassifyText(b, w, name, name, h, transcript.value);
        assert c.state == o.state && c.reply == o.reply;
      } else {
        QuarantineQuiet(w, name, SchemaValidate, env);
      }
    }
  }

  /** One run of the pipeline either leaves inbox, library and processed area alone, or it found the hash
      absent, wrote one entry for the PDF, and moved the original only if the write succeeded. */
  ghost predicate Shaped(w: World, name: string, env: Env, o: Outcome<World>, wrote: bool, w2: World, e: Entry<string>) {
    if wrote then
      && name in w.inbox && Quiet(w, w2) && w2.tick == w.tick + 2 && Wrote(w2, name, env.hash(w.inbox[name]), e, env, o)
      && w.Step(w.Draw(env)).IsDuplicate(env.hash(w.inbox[name]), env).1 == Some(false)
    else Quiet(w, o.state) && (o.reply.Done? ==> !o.reply.result.status.Processed?)
  }

  lemma ProcessShape(w: World, name: string, env: Env) returns (wrote: bool, w2: World, e: Entry<string>)
    ensures Shaped(w, name, env, Process(w, name, env), wrote, w2, e)
  {
    var (w1, got) := w.ReadPDF(name, env);
    wrote, w2, e := false, w, Entry(name, "", Metadata("", "", "", "", "", "", "", None, "", "", ""));
    if got.Some? {
      var h := got.value.1;
      w2 := w1.IsDuplicate(h, env).0;
      if w1.IsDuplicate(h, env).1 == Some(false) {
        wrote, e := StagesShape(w2, name, h, env);
      }
    } else {
      QuarantineQuiet(w1, name, LibraryWrite, env);
    }
  }

  // ----- one call ----------------------------------------------------------------

  /** The exact condition under which WriteEntry starts a new folder: no candidate tried before the first
      free name is one whose existence test failed. */
  lemma EntryDirFresh(w: World, e: Entry<string>, env: Env)
    ensures var m := Described(e.meta);
            var base := FormatDirName(m.documentDate, m.vendor, m.fileDescription, env.lower);
            w.EntryDir(e, env) !in w.library <==>
            forall i | 1 <= i < FreeIndex(base, w.library.Keys) :: Candidate(base, i) !in env.hidden(w.tick)
  {
    var m := Described(e.meta);
    OverlookedCollides(FormatDirName(m.documentDate, m.vendor, m.fileDescription, env.lower), w.library.Keys, env.hidden(w.tick));
  }

  /** What such a failed test costs: the earlier entry is overwritten, and unless another entry holds its PDF,
      that is lost. */
  lemma HiddenEntryOverwritten(w: World, e: Entry<string>, env: Env)
    requires w.alive && (forall t :: env.fate(t) == Ok) && e.pdf in w.inbox
    requires var m := Described(e.meta);
             var base := FormatDirName(m.documentDate, m.vendor, m.fileDescription, env.lower);
             && base in w.library && base in env.hidden(w.tick)
             && w.library[base].pdf.Some? && IsFiled(w.library[base], w.library[base].pdf.value, env.hash)
             && w.library[base].pdf != Some(w.inbox[e.pdf])
    ensures var w' := w.WriteEntry(e, env).0;
            var dir := w.EntryDir(e, env);
            && w'.library == w.library[dir := FiledFolder(w.inbox[e.pdf], e)]
            && !Keeps(w, w', env.hash)
            && dir in w.library && w.library[dir].pdf.Some?
            && ((forall d | d in w.library && d != dir :: w.library[d].pdf != w.library[dir].pdf) ==>
                  !Held(w', w.library[dir].pdf.value, env.hash))
  {
    var m := Described(e.meta);
    var base := FormatDirName(m.documentDate, m.vendor, m.fileDescription, env.lower);
    assert Candidate(base, 1) == base;
    LeastIndexUnique(base, w.library.Keys - env.hidden(w.tick), 1);
    SmoothWrite(w, e, env);
    var w' := w.WriteEntry(e, env).0;
    assert Filled(w, base) && w'.library[base] != w.library[base];
  }

  /** The first operation of a write that both takes place and changes its file. The existence tests only
      matter here if the process dies in them. */
  predicate Alters(w: World, e: Entry<string>, env: Env)
    requires e.pdf in w.inbox && w.EntryDir(e, env) in w.library
  {
    var f, pdf := w.library[w.EntryDir(e, env)], w.inbox[e.pdf];
    var p, t, m := env.fate(w.tick + 2), env.fate(w.tick + 3), env.fate(w.tick + 4);
    && w.alive && !env.fate(w.tick).Crash? && env.fate(w.tick + 1).Ok?
    && (|| Landed(p, f.pdf, pdf, Cut(pdf, p)) != f.pdf
        || (p.Ok? && Landed(t, f.transcript, e.transcript, Cut(e.transcript, t)) != f.transcript)
        || (p.Ok? && t.Ok? && Landed(m, f.meta, Parsed(e.meta.(fileDescription := "")), Garbled) != f.meta))
  }

  /** Exactly when a write leaves every complete entry as it was, whatever faults it meets: unless it was led to
      one and an operation that took place, wholly or in part, changed one of its three files. */
  lemma EntriesKeptIff(w: World, e: Entry<string>, env: Env)
    requires e.pdf in w.inbox
    ensures var dir := w.EntryDir(e, env);
            EntriesKept(w, w.WriteEntry(e, env).0) <==> !(Filled(w, dir) && Alters(w, e, env))
  {
    var dir := w.EntryDir(e, env);
    WriteEntryShape(w, e, env);
    OneDirKept(w, w.WriteEntry(e, env).0, dir);
    if Filled(w, dir) {
      AltersIff(w, e, env);
    }
  }

  lemma OneDirKept(w: World, w': World, dir: string)
    requires OnlyDir(w, w', dir) && (dir in w.library ==> dir in w'.library)
    ensures EntriesKept(w, w') <==> (Filled(w, dir) ==> w'.library[dir] == w.library[dir])
  {
  }

  /** w' is w, a few operations later but still running, with the files of library folder `dir` as in f. */
  ghost predicate Reached(w: World, w': World, dir: string, f: Folder, ticks: nat) {
    w' == w.(library := w.library[dir := f], tick := w.tick + ticks)
  }

  lemma PutsLand(w: World, w1: World, dir: string, f: Folder, ticks: nat, env: Env, src: string, text: string, m: Metadata)
    requires w.alive && Reached(w, w1, dir, f, ticks) && src in w.inbox
    ensures var g, pdf := env.fate(w.tick + ticks), w.inbox[src];
            var (w2, ok) := w1.PutPdf(dir, src, env);
            var f2 := f.(pdf := Landed(g, f.pdf, pdf, Cut(pdf, g)));
            ok == g.Ok? && w2.library == w.library[dir := f2] && (ok ==> Reached(w, w2, dir, f2, ticks + 1))
    ensures var g := env.fate(w.tick + ticks);
            var (w2, ok) := w1.PutTranscript(dir, text, env);
            var f2 := f.(transcript := Landed(g, f.transcript, text, Cut(text, g)));
            ok == g.Ok? && w2.library == w.library[dir := f2] && (ok ==> Reached(w, w2, dir, f2, ticks + 1))
    ensures var g := env.fate(w.tick + ticks);
            var (w2, ok) := w1.PutMeta(dir, m, env);
            w2.library == w.library[dir := f.(meta := Landed(g, f.meta, Parsed(m.(fileDescription := "")), Garbled))]
  {
  }

  lemma AltersIff(w: World, e: Entry<string>, env: Env)
    requires e.pdf in w.inbox && w.EntryDir(e, env) in w.library
    ensures var dir, w' := w.EntryDir(e, env), w.WriteEntry(e, env).0;
            dir in w'.library && (w'.library[dir] != w.library[dir] <==> Alters(w, e, env))
  {
    var dir := w.EntryDir(e, env);
    var f := w.library[dir];
    var w0 := w.Step(w.Draw(env));
    var (w1, ok1) := w0.MakeDir(dir, env);
    assert w1.library == w.library;
    if ok1 {
      assert Reached(w, w1, dir, f, 2);
      PutsLand(w, w1, dir, f, 2, env, e.pdf, e.transcript, e.meta);
      var (w2, ok2) := w1.PutPdf(dir, e.pdf, env);
      if ok2 {
        var f2 := w2.library[dir];
        PutsLand(w, w2, dir, f2, 3, env, e.pdf, e.transcript, e.meta);
        var (w3, ok3) := w2.PutTranscript(dir, e.transcript, env);
        if ok3 {
          PutsLand(w, w3, dir, w3.library[dir], 4, env, e.pdf, e.transcript, e.meta);
        }
      }
    }
  }

  /** w' is w, a few operations later, with library folder `dir` set to f. */
  ghost predicate Set(w: World, w': World, dir: string, f: Folder) {
    w' == w.(library := w.library[dir := f], tick := w'.tick)
  }

  lemma SmoothPuts(w: World, w1: World, dir: string, f: Folder, env: Env, src: string, text: string, m: Metadata)
    requires w.alive && Set(w, w1, dir, f) && env.fate(w1.tick) == Ok && src in w.inbox
    ensures var (w2, ok) := w1.PutPdf(dir, src, env); ok && Set(w, w2, dir, f.(pdf := Some(w.inbox[src])))
    ensures var (w2, ok) := w1.PutTranscript(dir, text, env); ok && Set(w, w2, dir, f.(transcript := Some(text)))
    ensures var (w2, ok) := w1.PutMeta(dir, m, env);
            ok && Set(w, w2, dir, f.(meta := Some(Parsed(m.(fileDescription := "")))))
  {
  }

  lemma SmoothWrite(w: World, e: Entry<string>, env: Env)
    requires w.alive && (forall t :: env.fate(t) == Ok) && e.pdf in w.inbox
    ensures var (w', r) := w.WriteEntry(e, env);
            r == Some(w.EntryDir(e, env)) && Set(w, w', w.EntryDir(e, env), FiledFolder(w.inbox[e.pdf], e))
  {
    var dir := w.EntryDir(e, env);
    var (w1, ok1) := w.Step(w.Draw(env)).MakeDir(dir, env);
    var f := w1.library[dir];
    assert ok1 && Set(w, w1, dir, f);
    SmoothPuts(w, w1, dir, f, env, e.pdf, e.transcript, e.meta);
    var w2 := w1.PutPdf(dir, e.pdf, env).0;
    var g := f.(pdf := Some(w.inbox[e.pdf]));
    SmoothPuts(w, w2, dir, g, env, e.pdf, e.transcript, e.meta);
    var w3 := w2.PutTranscript(dir, e.transcript, env).0;
    SmoothPuts(w, w3, dir, g.(transcript := Some(e.transcript)), env, e.pdf, e.transcript, e.meta);
  }

  ghost predicate EntryMeta(m: Metadata, h: string) {
    SchemaValid(m) && m.contentHash == m.id == h
  }

  /** Where one call can change the library: one folder. If that is complete afterwards, it is an entry for
      this PDF, or it was complete before and carries its old metadata or that of this PDF. */
  ghost predicate Touches(w: World, w': World, dir: string, name: string, env: Env) {
    && name in w.inbox && (dir in w.library ==> dir in w'.library)
    && (forall d | d != dir :: (d in w'.library <==> d in w.library) && (d in w.library ==> w'.library[d] == w.library[d]))
    && (Filled(w', dir) ==>
          || (WellFiled(w'.library[dir], env.hash) && IsFiled(w'.library[dir], w.inbox[name], env.hash))
          || (Filled(w, dir) && (w'.library[dir].meta == w.library[dir].meta
                                 || EntryMeta(w'.library[dir].meta.value.m, env.hash(w.inbox[name])))))
  }

  /** The inbox loses at most `name`, and only to a processed result. */
  ghost predicate InboxAfter(w: World, o: Outcome<World>, name: string) {
    && o.state.inbox.Keys <= w.inbox.Keys
    && (forall n | n in w.inbox :: (n != name ==> n in o.state.inbox) && (n in o.state.inbox ==> o.state.inbox[n] == w.inbox[n]))
    && (name in w.inbox && name !in o.state.inbox ==> o.reply.Done? && o.reply.result.status.Processed?)
  }

  lemma WriteTouches(w: World, name: string, e: Entry<string>, env: Env)
    requires name in w.inbox && EntryFor(e, name, env.hash(w.inbox[name]))
    ensures var (w', r) := w.WriteEntry(e, env);
            var dir := w.EntryDir(e, env);
            && Touches(w, w', dir, name, env) && w'.inbox == w.inbox
            && (r.Some? ==> r.value == dir && dir in w'.library && IsFiled(w'.library[dir], w.inbox[name], env.hash))
  {
    WriteEntryShape(w, e, env);
    var f := FiledFolder(w.inbox[name], e);
    assert SchemaValid(f.meta.value.m);
    assert WellFiled(f, env.hash) && IsFiled(f, w.inbox[name], env.hash);
  }

  lemma WroteEffect(w: World, name: string, e: Entry<string>, env: Env, o: Outcome<World>)
    requires name in w.inbox && Wrote(w, name, env.hash(w.inbox[name]), e, env, o)
    ensures Effect(w, o, name, true, w.EntryDir(e, env), env)
  {
    WriteTouches(w, name, e, env);
    var (w3, r) := w.WriteEntry(e, env);
    if r.Some? {
      MoveShape(w3, name, env.hash(w.inbox[name]), env);
      MovedEffect(w, w3, name, w.EntryDir(e, env), env, o);
    } else {
      UnwrittenEffect(w, w3, name, w.EntryDir(e, env), env, o);
    }
  }

  lemma UnwrittenEffect(w: World, w3: World, name: string, dir: string, env: Env, o: Outcome<World>)
    requires w3.inbox == w.inbox && Touches(w, w3, dir, name, env)
    requires o.reply.Done? && o.reply.result.status.Quarantined? && Quiet(w3, o.state)
    ensures Effect(w, o, name, true, dir, env)
  {
  }

  lemma MovedEffect(w: World, w3: World, name: string, dir: string, env: Env, o: Outcome<World>)
    requires name in w.inbox && w3.inbox == w.inbox && Touches(w, w3, dir, name, env)
    requires dir in w3.library && IsFiled(w3.library[dir], w.inbox[name], env.hash)
    requires o.reply.Done? && o.reply.result.status.Processed? && o.reply.result.entryName == dir
    requires Releases(w3, o.state, name)
    ensures Effect(w, o, name, true, dir, env)
  {
  }

  /** A directory the write is led to is taken only if its existence test failed. */
  lemma SeenNotFilled(w: World, e: Entry<string>, env: Env)
    requires SeesEntries(w, env)
    ensures !Filled(w, w.EntryDir(e, env))
  {
    var m := Described(e.meta);
    var base := FormatDirName(m.documentDate, m.vendor, m.fileDescription, env.lower);
    assert UniqueName(base, w.library.Keys - env.hidden(w.tick)) !in w.library.Keys - env.hidden(w.tick);
  }

  /** A quarantined file, if nothing fails meanwhile, stays in the inbox, and its folder holds its bytes and
      the stage of the result. */
  lemma QuarantinedIsRecorded(w: World, name: string, env: Env)
    requires w.alive && (forall t :: env.fate(t) == Ok)
    ensures var o := Process(w, name, env);
            o.reply.Done? && o.reply.result.status.Quarantined? ==>
              && o.reply.result.stage.Some? && name in o.state.quarantine && Quiet(w, o.state)
              && o.state.quarantine[name].record == Some(Recorded(o.reply.result.stage.value))
              && (name in w.inbox ==> o.state.quarantine[name].pdf == Some(w.inbox[name]))
  {
    var (w1, got) := w.ReadPDF(name, env);
    if got.Some? {
      var (w2, dup) := w1.IsDuplicate(got.value.1, env);
      if dup == Some(false) {
        QuarantinedWhileFiling(w2, name, got.value.1, env);
        assert Process(w, name, env).state == Extract(LocalBackend(env), w2, name, name, got.value.1).state;
      }
    } else {
      QuarantineHolds(w1, name, LibraryWrite, env);
    }
  }

  lemma QuarantinedWhileFiling(w: World, name: string, h: Hash, env: Env)
    requires w.alive && (forall t :: env.fate(t) == Ok) && name in w.inbox
    ensures var o := Extract(LocalBackend(env), w, name, name, h);
            o.reply.Done? && o.reply.result.status.Quarantined? ==>
              && o.reply.result.stage.Some? && name in o.state.quarantine && Quiet(w, o.state)
              && o.state.quarantine[name] == QuarantineFolder(Some(w.inbox[name]), Some(Recorded(o.reply.result.stage.value)))
  {
    var transcript, props := env.extract(w.tick), env.answer(w.tick);
    QuarantineHolds(w, name, Ocr, env);
    QuarantineHolds(w, name, Classify, env);
    QuarantineHolds(w, name, SchemaValidate, env);
    if transcript.Some? && props.Some? {
      var meta := ClassifiedAs(props.value, name, h);
      if SchemaValid(meta) {
        var e := Entry(name, transcript.value, Described(meta));
        SmoothWrite(w, e, env);
        assert File(LocalBackend(env), w, name, h, e).reply.result.status.Processed?;
        assert ClassifyText(LocalBackend(env), w, name, name, h, transcript.value).reply.result.status.Processed?;
      }
    }
  }

  lemma QuarantineHolds(w: World, name: string, stage: Stage, env: Env)
    requires w.alive && (forall t :: env.fate(t) == Ok)
    ensures var w' := w.Quarantine(name, stage, env);
            && Quiet(w, w') && name in w'.quarantine && w'.quarantine[name].record == Some(Recorded(stage))
            && (name in w.inbox ==> w'.quarantine[name].pdf == Some(w.inbox[name]))
  {
  }

  /** A scan answers "absent" exactly when it ran and every entry with the hash was unreadable. */
  lemma ScanMisses(w: World, h: Hash, env: Env)
    ensures w.IsDuplicate(h, env).1 == Some(false) <==> w.Draw(env).Ok? && Copies(w, h) <= env.unreadable(w.tick)
  {
    if w.Draw(env).Ok? {
      assert (exists d :: d in w.library && d !in env.unreadable(w.tick) && HasHash(w.library[d], h))
        <==> (exists d :: d in Copies(w, h) && d !in env.unreadable(w.tick));
    }
  }

  /** What one call did: nothing but, if it wrote, touch one directory, and, if it processed the file, release
      it from the inbox, holding it in that directory. */
  ghost predicate Effect(w: World, o: Outcome<World>, name: string, wrote: bool, dir: string, env: Env) {
    && InboxAfter(w, o, name)
    && (if wrote then Touches(w, o.state, dir, name, env) else o.state.library == w.library)
    && (o.reply.Done? && o.reply.result.status.Processed? ==>
          && wrote && dir == o.reply.result.entryName
          && dir in o.state.library && IsFiled(o.state.library[dir], w.inbox[name], env.hash))
  }

  lemma EffectFromQuiet(w: World, w2: World, o: Outcome<World>, name: string, dir: string, env: Env)
    requires Quiet(w, w2) && Effect(w2, o, name, true, dir, env)
    ensures Effect(w, o, name, true, dir, env)
  {
  }

  lemma ShapedScan(w: World, name: string, env: Env)
    requires name in w.inbox
    requires w.Step(w.Draw(env)).IsDuplicate(env.hash(w.inbox[name]), env).1 == Some(false)
    ensures Copies(w, env.hash(w.inbox[name])) <= env.unreadable(w.tick + 1)
  {
    var w1 := w.Step(w.Draw(env));
    ScanMisses(w1, env.hash(w.inbox[name]), env);
    assert Copies(w1, env.hash(w.inbox[name])) == Copies(w, env.hash(w.inbox[name]));
  }

  lemma ShapedEffect(w: World, name: string, env: Env, o: Outcome<World>, w2: World, e: Entry<string>)
    requires Shaped(w, name, env, o, true, w2, e)
    ensures Effect(w, o, name, true, w2.EntryDir(e, env), env)
    ensures EntriesSeen(w, env) ==> !Filled(w, w2.EntryDir(e, env))
  {
    WroteEffect(w2, name, e, env, o);
    EffectFromQuiet(w, w2, o, name, w2.EntryDir(e, env), env);
    if EntriesSeen(w, env) {
      SeenLater(w, w2, e, env);
    }
  }

  lemma SeenLater(w: World, w2: World, e: Entry<string>, env: Env)
    requires Quiet(w, w2) && w2.tick == w.tick + 2 && EntriesSeen(w, env)
    ensures !Filled(w, w2.EntryDir(e, env))
  {
    forall d | Filled(w2, d) ensures d !in env.hidden(w2.tick) {
      assert Filled(w, d);
    }
    SeenNotFilled(w2, e, env);
  }

  lemma ProcessEffect(w: World, name: string, env: Env) returns (wrote: bool, dir: string)
    ensures Effect(w, Process(w, name, env), name, wrote, dir, env)
    ensures wrote ==> Copies(w, env.hash(w.inbox[name])) <= env.unreadable(w.tick + 1)
    ensures wrote && EntriesSeen(w, env) ==> !Filled(w, dir)
  {
    var w2, e;
    wrote, w2, e := ProcessShape(w, name, env);
    dir := "";
    if wrote {
      dir := w2.EntryDir(e, env);
      ShapedScan(w, name, env);
      ShapedEffect(w, name, env, Process(w, name, env), w2, e);
    }
  }

  lemma EffectKeeps(w: World, o: Outcome<World>, name: string, wrote: bool, dir: string, env: Env)
    requires Effect(w, o, name, wrote, dir, env) && (wrote ==> !Filled(w, dir))
    ensures Keeps(w, o.state, env.hash) && (Sound(w, env.hash) ==> Sound(o.state, env.hash))
  {
    if name in w.inbox && name !in o.state.inbox {
      assert Held(o.state, w.inbox[name], env.hash);
    }
  }

  /** One call never loses a PDF, never touches a complete entry, and keeps every entry well formed, as long
      as its existence tests see the complete entries. */
  lemma ProcessKeeps(w: World, name: string, env: Env)
    requires EntriesSeen(w, env)
    ensures var w' := Process(w, name, env).state;
            Keeps(w, w', env.hash) && (Sound(w, env.hash) ==> Sound(w', env.hash))
  {
    var wrote, dir := ProcessEffect(w, name, env);
    EffectKeeps(w, Process(w, name, env), name, wrote, dir, env);
  }

  /** Metadata of complete entries stays schema-valid, whatever fails. */
  lemma ProcessKeepsMeta(w: World, name: string, env: Env)
    requires MetaValid(w)
    ensures MetaValid(Process(w, name, env).state)
  {
    var wrote, dir := ProcessEffect(w, name, env);
  }

  /** The duplicate check misses a filed hash exactly when every entry that carries it is unreadable. */
  ghost predicate Masked(w: World, name: string, env: Env) {
    && name in w.inbox
    && Copies(w, env.hash(w.inbox[name])) != {}
    && Copies(w, env.hash(w.inbox[name])) <= env.unreadable(w.tick + 1)
  }

  lemma TouchesCopies(w: World, w': World, dir: string, name: string, env: Env, h: string)
    requires Touches(w, w', dir, name, env)
    ensures |Copies(w', h)| <= |Copies(w, h)| + 1
    ensures env.hash(w.inbox[name]) != h ==> |Copies(w', h)| <= |Copies(w, h)|
  {
    var more := if env.hash(w.inbox[name]) == h then {dir} else {};
    assert Copies(w', h) <= Copies(w, h) + more;
    SubsetSize(Copies(w', h), Copies(w, h) + more);
  }

  /** Whatever fails, one call adds at most one entry for a hash, the hash of its own file, and only if none
      was there or the duplicate check was masked. */
  lemma ProcessCopies(w: World, name: string, env: Env, h: string)
    ensures var w' := Process(w, name, env).state;
            && |Copies(w', h)| <= |Copies(w, h)| + 1
            && (|Copies(w', h)| > |Copies(w, h)| ==>
                  name in w.inbox && env.hash(w.inbox[name]) == h && (Copies(w, h) == {} || Masked(w, name, env)))
  {
    var w' := Process(w, name, env).state;
    var wrote, dir := ProcessEffect(w, name, env);
    if wrote {
      TouchesCopies(w, w', dir, name, env, h);
    } else {
      assert Copies(w', h) == Copies(w, h);
    }
  }

  lemma {:induction false} SubsetSize<T>(a: set<T>, b: set<T>)
    requires a <= b
    ensures |a| <= |b|
  {
    if a != {} {
      var x :| x in a;
      SubsetSize(a - {x}, b - {x});
    }
  }

  // ----- whole batches -------------------------------------------------------------

  lemma {:induction false} RunKeeps(w: World, names: seq<string>, env: Env)
    requires EntriesSeenIn(w, names, env)
    ensures var w' := RunAll(w, names, env).world;
            Keeps(w, w', env.hash) && (Sound(w, env.hash) ==> Sound(w', env.hash))
    decreases |names|
  {
    if names != [] {
      var o := Process(w, names[0], env);
      ProcessKeeps(w, names[0], env);
      if o.reply.Done? {
        RunKeeps(o.state, names[1..], env);
        KeepsTransitive(w, o.state, RunAll(o.state, names[1..], env).world, env.hash);
      }
    }
  }

  lemma {:induction false} RunKeepsMeta(w: World, names: seq<string>, env: Env)
    requires MetaValid(w)
    ensures MetaValid(RunAll(w, names, env).world)
    decreases |names|
  {
    if names != [] {
      var o := Process(w, names[0], env);
      ProcessKeepsMeta(w, names[0], env);
      if o.reply.Done? {
        RunKeepsMeta(o.state, names[1..], env);
      }
    }
  }

  /** How many calls of a batch found a filed hash absent. */
  ghost function MaskedScans(w: World, names: seq<string>, env: Env, h: string): nat
    decreases |names|
  {
    if names == [] then 0
    else
      var o := Process(w, names[0], env);
      (if Masked(w, names[0], env) && env.hash(w.inbox[names[0]]) == h then 1 else 0)
      + (if o.reply.Abort? then 0 else MaskedScans(o.state, names[1..], env, h))
  }

  /** The entries for a hash after any batch, whatever fails, number at most one, or as many as before, plus
      the masked scans. */
  lemma {:induction false} RunCopies(w: World, names: seq<string>, env: Env, h: string)
    ensures |Copies(RunAll(w, names, env).world, h)|
            <= (if Copies(w, h) == {} then 1 else |Copies(w, h)|) + MaskedScans(w, names, env, h)
    decreases |names|
  {
    if names != [] {
      var o := Process(w, names[0], env);
      ProcessCopies(w, names[0], env, h);
      if o.reply.Done? {
        RunCopies(o.state, names[1..], env, h);
      }
    }
  }

  lemma {:induction false} NoMaskedScans(w: World, names: seq<string>, env: Env, h: string)
    requires ScansReliable(env)
    ensures MaskedScans(w, names, env, h) == 0
    decreases |names|
  {
    if names != [] {
      var o := Process(w, names[0], env);
      assert !Masked(w, names[0], env);
      if o.reply.Done? {
        NoMaskedScans(o.state, names[1..], env, h);
      }
    }
  }

  lemma OpenedQuiet(w: World, env: Env)
    ensures Quiet(w, Opened(w, env).0)
  {
  }

  // ----- histories -------------------------------------------------------------------

  /** What can happen to the directories over time: a `process` command, which may stop anywhere, and the
      user putting a file into the inbox or taking one out. */
  datatype Happening = Command(names: seq<string>, env: Env) | Drop(name: string, pdf: Bytes) | Take(name: string)

  ghost function After(w: World, x: Happening): World {
    match x
    case Command(names, env) => Local.Command(w.(alive := true), names, env).world
    case Drop(name, pdf) => w.(inbox := w.inbox[name := pdf])
    case Take(name) => w.(inbox := w.inbox - {name})
  }

  ghost function AfterAll(w: World, xs: seq<Happening>): World
    decreases |xs|
  {
    if xs == [] then w else AfterAll(After(w, xs[0]), xs[1..])
  }

  /** The existence tests of this command's writes see every complete entry there is at the time. */
  ghost predicate CommandSees(w: World, names: seq<string>, env: Env) {
    var (w1, ok) := Opened(w.(alive := true), env);
    ok ==> EntriesSeenIn(w1, names, env)
  }

  /** So do those of every command of a history; any other operation may fail, and the process may stop, anywhere. */
  ghost predicate Fair(w: World, xs: seq<Happening>, hash: Hashing)
    decreases |xs|
  {
    xs == [] ||
    ((xs[0].Command? ==> CommandSees(w, xs[0].names, xs[0].env) && xs[0].env.hash == hash) && Fair(After(w, xs[0]), xs[1..], hash))
  }

  ghost predicate FairScans(xs: seq<Happening>) {
    forall i | 0 <= i < |xs| && xs[i].Command? :: ScansReliable(xs[i].env)
  }

  /** The user leaves this inbox name alone. */
  ghost predicate Untouched(xs: seq<Happening>, n: string) {
    forall i | 0 <= i < |xs| :: (xs[i].Drop? || xs[i].Take?) ==> xs[i].name != n
  }

  lemma CommandKeeps(w: World, names: seq<string>, env: Env)
    requires CommandSees(w, names, env)
    ensures var w' := After(w, Command(names, env));
            Keeps(w, w', env.hash) && (Sound(w, env.hash) ==> Sound(w', env.hash))
  {
    var w0 := w.(alive := true);
    OpenedQuiet(w0, env);
    var (w1, ok) := Opened(w0, env);
    if ok {
      RunKeeps(w1, names, env);
      KeepsTransitive(w, w1, RunAll(w1, names, env).world, env.hash);
    }
  }

  lemma HappeningKeeps(w: World, x: Happening, hash: Hashing)
    requires x.Command? ==> CommandSees(w, x.names, x.env) && x.env.hash == hash
    requires Sound(w, hash)
    ensures Sound(After(w, x), hash) && EntriesKept(w, After(w, x))
    ensures forall n | n in w.inbox && (x.Command? || x.name != n) :: Safe(After(w, x), n, w.inbox[n], hash)
  {
    if x.Command? {
      CommandKeeps(w, x.names, x.env);
    }
  }

  /** Whatever commands run, fail or stop in between, a PDF the user leaves in the inbox is at every later
      time still there or held byte for byte by a complete entry, complete entries never change, and every
      entry the library shows as complete is whole. */
  lemma {:induction false} NothingLost(w: World, xs: seq<Happening>, n: string, hash: Hashing)
    requires Fair(w, xs, hash) && Sound(w, hash)
    ensures var w' := AfterAll(w, xs);
            && Sound(w', hash) && EntriesKept(w, w')
            && (n in w.inbox && Untouched(xs, n) ==> Safe(w', n, w.inbox[n], hash))
    decreases |xs|
  {
    if xs != [] {
      var w1 := After(w, xs[0]);
      HappeningKeeps(w, xs[0], hash);
      NothingLost(w1, xs[1..], n, hash);
      if n in w.inbox && Untouched(xs, n) {
        assert Untouched(xs[1..], n);
        if Held(w1, w.inbox[n], hash) {
          HeldStays(w1, AfterAll(w, xs), w.inbox[n], hash);
        }
      }
    }
  }

  /** At most one complete entry per content hash, in every state any history can reach, whatever existence
      tests and writes fail, as long as the duplicate check can read its metadata. */
  lemma {:induction false} OneEntryPerHash(w: World, xs: seq<Happening>)
    requires FairScans(xs) && Unique(w)
    ensures Unique(AfterAll(w, xs))
    decreases |xs|
  {
    if xs != [] {
      HappeningUnique(w, xs[0]);
      OneEntryPerHash(After(w, xs[0]), xs[1..]);
    }
  }

  lemma HappeningUnique(w: World, x: Happening)
    requires Unique(w) && (x.Command? ==> ScansReliable(x.env))
    ensures Unique(After(w, x))
  {
    forall h ensures |Copies(After(w, x), h)| <= 1 {
      match x {
        case Command(names, env) =>
          OpenedQuiet(w.(alive := true), env);
          var w0 := Opened(w.(alive := true), env).0;
          assert Copies(w0, h) == Copies(w, h);
          RunCopies(w0, names, env, h);
          NoMaskedScans(w0, names, env, h);
        case _ =>
          assert Copies(After(w, x), h) == Copies(w, h);
      }
    }
  }

  /** Every complete entry carries schema-valid metadata, in every state any history can reach, whatever fails. */
  lemma {:induction false} MetadataStaysValid(w: World, xs: seq<Happening>)
    requires MetaValid(w)
    ensures MetaValid(AfterAll(w, xs))
    decreases |xs|
  {
    if xs != [] {
      if xs[0].Command? {
        OpenedQuiet(w.(alive := true), xs[0].env);
        RunKeepsMeta(Opened(w.(alive := true), xs[0].env).0, xs[0].names, xs[0].env);
      }
      MetadataStaysValid(After(w, xs[0]), xs[1..]);
    }
  }

  // ----- fault-free batches --------------------------------------------------------------

  /** Every operation succeeds, every PDF has text, and the model's answers satisfy the schema; only the
      metadata reads of the duplicate check may still fail. */
  ghost predicate Smooth(env: Env) {
    && StatsReliable(env)
    && (forall t :: env.fate(t) == Ok)
    && (forall t :: env.extract(t).Some? && env.answer(t).Some?)
    && (forall t, n, h: Hash :: n != "" && env.answer(t).Some? ==> SchemaValid(ClassifiedAs(env.answer(t).value, n, h)))
  }

  /** The content hashes of the complete entries. */
  function Hashes(w: World): set<string> {
    set d | d in w.library && Complete(w.library[d]) :: w.library[d].meta.value.m.contentHash
  }

  lemma SmoothMove(w: World, name: string, h: Hash, env: Env)
    requires w.alive && Smooth(env) && name in w.inbox
    ensures var w' := w.MoveToProcessed(name, h, env).0;
            w'.library == w.library && w'.inbox == w.inbox - {name} && w'.alive
  {
  }

  /** A fault-free call skips a filed hash and files any other. */
  lemma SmoothProcess(w: World, name: string, env: Env)
    requires w.alive && Smooth(env) && ScansReliable(env) && name in w.inbox && name != ""
    ensures var o := Process(w, name, env);
            var h := env.hash(w.inbox[name]);
            && o.state.alive && o.reply.Done?
            && Hashes(o.state) == Hashes(w) + {h}
            && (if h in Hashes(w) then o.reply.result.status.Skipped? && Quiet(w, o.state)
                else o.reply.result.status.Processed? && o.state.inbox == w.inbox - {name})
  {
    var h := env.hash(w.inbox[name]);
    var w1 := w.Step(w.Draw(env));
    var (w2, dup) := w1.IsDuplicate(h, env);
    assert dup == Some(h in Hashes(w));
    if h !in Hashes(w) {
      SmoothFile(w2, name, h, env);
      assert Process(w, name, env).state == Extract(LocalBackend(env), w2, name, name, h).state;
    }
  }

  /** The exact condition for a further copy, when nothing else fails: a file whose hash is already in the
      library is filed once more if and only if every entry that carries the hash is unreadable. */
  lemma DuplicatedIffMasked(w: World, name: string, env: Env)
    requires w.alive && Smooth(env) && name in w.inbox && name != ""
    ensures var h := env.hash(w.inbox[name]);
            var w' := Process(w, name, env).state;
            if Copies(w, h) == {} || Masked(w, name, env) then |Copies(w', h)| == |Copies(w, h)| + 1
            else Copies(w', h) == Copies(w, h)
  {
    var h := env.hash(w.inbox[name]);
    var w1 := w.Step(w.Draw(env));
    var (w2, dup) := w1.IsDuplicate(h, env);
    ScanMisses(w1, h, env);
    assert Copies(w1, h) == Copies(w, h) == Copies(w2, h);
    var o := Process(w, name, env);
    if dup == Some(false) {
      SmoothFile(w2, name, h, env);
      assert o.state == Extract(LocalBackend(env), w2, name, name, h).state;
    } else {
      assert Copies(o.state, h) == Copies(w, h);
    }
  }

  lemma HashesAdd(w: World, w': World, dir: string, pdf: Bytes, e: Entry<string>, h: string)
    requires dir !in w.library && w'.library == w.library[dir := FiledFolder(pdf, e)] && e.meta.contentHash == h
    ensures Hashes(w') == Hashes(w) + {h}
    ensures |Copies(w', h)| == |Copies(w, h)| + 1
  {
    assert HasHash(w'.library[dir], h);
    forall x | x in Hashes(w) ensures x in Hashes(w') {
      var d :| d in w.library && Complete(w.library[d]) && w.library[d].meta.value.m.contentHash == x;
      assert d in w'.library && w'.library[d] == w.library[d];
    }
    assert Copies(w', h) == Copies(w, h) + {dir};
  }

  lemma SmoothFile(w: World, name: string, h: Hash, env: Env)
    requires w.alive && Smooth(env) && name in w.inbox && name != ""
    ensures var o := Extract(LocalBackend(env), w, name, name, h);
            && o.state.alive && o.reply.Done? && o.reply.result.status.Processed?
            && Hashes(o.state) == Hashes(w) + {h} && o.state.inbox == w.inbox - {name}
            && |Copies(o.state, h)| == |Copies(w, h)| + 1
  {
    var b := LocalBackend(env);
    var meta := ClassifiedAs(env.answer(w.tick).value, name, h);
    assert SchemaValid(meta);
    var e := Entry(name, env.extract(w.tick).value, Described(meta));
    var o := File(b, w, name, h, e);
    assert Extract(b, w, name, name, h) == o;
    SmoothWrite(w, e, env);
    EntryDirFresh(w, e, env);
    var w3 := w.WriteEntry(e, env).0;
    HashesAdd(w, w3, w.EntryDir(e, env), w.inbox[name], e, h);
    SmoothMove(w3, name, h, env);
    assert Hashes(o.state) == Hashes(w3) && Copies(o.state, h) == Copies(w3, h);
  }

  lemma {:induction false} CountCons(r: Result, rs: seq<Result>, status: Status)
    ensures CountStatus([r] + rs, status) == (if r.status == status then 1 else 0) + CountStatus(rs, status)
    decreases |rs|
  {
    if rs != [] {
      var n := |rs| - 1;
      assert ([r] + rs)[..n + 1] == [r] + rs[..n];
      CountCons(r, rs[..n], status);
    } else {
      assert [r] + rs == [r] && [r][..0] == [];
    }
  }

  /** The hashes of the listed PDFs. */
  ghost function HashesOf(names: seq<string>, inbox: map<string, Bytes>, hash: Hashing): set<string>
    requires forall n | n in names :: n in inbox
  {
    set n | n in names :: hash(inbox[n])
  }

  ghost predicate Distinct(names: seq<string>, inbox: map<string, Bytes>) {
    && (forall i, j | 0 <= i < j < |names| :: names[i] != names[j])
    && (forall n | n in names :: n in inbox && n != "")
  }

  lemma TailListed(names: seq<string>, inbox: map<string, Bytes>, inbox': map<string, Bytes>, hash: Hashing)
    requires names != [] && Distinct(names, inbox)
    requires inbox' == inbox || inbox' == inbox - {names[0]}
    ensures Distinct(names[1..], inbox')
    ensures HashesOf(names, inbox, hash) == HashesOf(names[1..], inbox', hash) + {hash(inbox[names[0]])}
  {
    var tail := names[1..];
    forall m | m in tail ensures m in names && m != names[0] {
      var i :| 0 <= i < |tail| && tail[i] == m;
      assert names[i + 1] == m;
    }
    assert forall m | m in names :: m == names[0] || m in tail;
    var all, rest := HashesOf(names, inbox, hash), HashesOf(tail, inbox', hash);
    forall x | x in all ensures x in rest + {hash(inbox[names[0]])} {
      var m :| m in names && hash(inbox[m]) == x;
    }
  }

  /** A batch of n files over a library with the hashes `before` that listed the hashes `listed`: each new
      hash was processed once, every other file was skipped, none was quarantined. */
  ghost predicate Exact(before: set<string>, listed: set<string>, n: nat, b: Batch) {
    && !b.aborted && |b.results| == n
    && Hashes(b.world) == before + listed
    && CountStatus(b.results, Processed) == |listed - before|
    && CountStatus(b.results, Skipped) == n - |listed - before|
    && CountStatus(b.results, Quarantined) == 0
  }

  lemma NewHashes(before: set<string>, rest: set<string>, h: string)
    ensures before + {h} + rest == before + (rest + {h})
    ensures |rest + {h} - before| == |rest - (before + {h})| + (if h in before then 0 else 1)
  {
    var rem := rest - (before + {h});
    if h in before {
      assert rest + {h} - before == rem;
    } else {
      assert rest + {h} - before == rem + {h} && h !in rem;
    }
  }

  lemma ExactCons(before: set<string>, rest: set<string>, h: string, n: nat, r: Result, b: Batch)
    requires Exact(before + {h}, rest, n, b)
    requires r.status == if h in before then Skipped else Processed
    ensures Exact(before, rest + {h}, n + 1, b.(results := [r] + b.results))
  {
    CountCons(r, b.results, Processed);
    CountCons(r, b.results, Skipped);
    CountCons(r, b.results, Quarantined);
    NewHashes(before, rest, h);
  }

  lemma SmoothHead(w: World, names: seq<string>, env: Env) returns (w1: World, r: Result)
    requires w.alive && Smooth(env) && ScansReliable(env) && names != [] && Distinct(names, w.inbox)
    ensures var rest := RunAll(w1, names[1..], env);
            RunAll(w, names, env) == rest.(results := [r] + rest.results)
    ensures w1.alive && Distinct(names[1..], w1.inbox)
    ensures var h := env.hash(w.inbox[names[0]]);
            && Hashes(w1) == Hashes(w) + {h}
            && HashesOf(names, w.inbox, env.hash) == HashesOf(names[1..], w1.inbox, env.hash) + {h}
            && r.status == (if h in Hashes(w) then Skipped else Processed)
  {
    SmoothProcess(w, names[0], env);
    var o := Process(w, names[0], env);
    TailListed(names, w.inbox, o.state.inbox, env.hash);
    w1, r := o.state, o.reply.result;
  }

  lemma ExactFrom(w: World, w1: World, names: seq<string>, r: Result, env: Env, b: Batch, rest: Batch)
    requires names != [] && Distinct(names, w.inbox) && Distinct(names[1..], w1.inbox)
    requires Exact(Hashes(w1), HashesOf(names[1..], w1.inbox, env.hash), |names| - 1, rest)
    requires b == rest.(results := [r] + rest.results)
    requires var h := env.hash(w.inbox[names[0]]);
             && Hashes(w1) == Hashes(w) + {h}
             && HashesOf(names, w.inbox, env.hash) == HashesOf(names[1..], w1.inbox, env.hash) + {h}
             && r.status == (if h in Hashes(w) then Skipped else Processed)
    ensures Exact(Hashes(w), HashesOf(names, w.inbox, env.hash), |names|, b)
  {
    ExactCons(Hashes(w), HashesOf(names[1..], w1.inbox, env.hash), env.hash(w.inbox[names[0]]), |names| - 1, r, rest);
  }

  /** A fault-free batch, from any state at all: partial folders and quarantine records included. */
  lemma {:induction false} SmoothBatch(w: World, names: seq<string>, env: Env)
    requires w.alive && Smooth(env) && ScansReliable(env) && Distinct(names, w.inbox)
    ensures Exact(Hashes(w), HashesOf(names, w.inbox, env.hash), |names|, RunAll(w, names, env))
    decreases |names|
  {
    if names == [] {
      assert HashesOf(names, w.inbox, env.hash) == {};
    } else {
      var w1, r := SmoothHead(w, names, env);
      SmoothBatch(w1, names[1..], env);
      ExactFrom(w, w1, names, r, env, RunAll(w, names, env), RunAll(w1, names[1..], env));
    }
  }

  /** The hashes of the PDFs in an inbox. */
  ghost function InboxHashes(inbox: map<string, Bytes>, hash: Hashing): set<string> {
    set n | n in inbox && IsPDF(n) :: hash(inbox[n])
  }

  /** Whatever the order of the listing, a fault-free batch adds exactly the hashes of the inbox. */
  lemma ListedBatch(w: World, names: seq<string>, env: Env)
    requires w.alive && Smooth(env) && ScansReliable(env) && IsListing(names, w.inbox)
    ensures Exact(Hashes(w), InboxHashes(w.inbox, env.hash), |names|, RunAll(w, names, env))
  {
    assert Distinct(names, w.inbox);
    SmoothBatch(w, names, env);
    assert HashesOf(names, w.inbox, env.hash) == InboxHashes(w.inbox, env.hash);
  }

  /** The listing order is irrelevant to the hashes and to the summary. */
  lemma OrderIrrelevant(w: World, names: seq<string>, other: seq<string>, env: Env, env': Env)
    requires w.alive && Smooth(env) && Smooth(env') && ScansReliable(env) && ScansReliable(env') && env.hash == env'.hash
    requires IsListing(names, w.inbox) && IsListing(other, w.inbox)
    ensures var b, b' := RunAll(w, names, env), RunAll(w, other, env');
            Hashes(b.world) == Hashes(b'.world) && Summarise(b.results) == Summarise(b'.results)
  {
    ListedBatch(w, names, env);
    ListedBatch(w, other, env');
    SameLength(names, other);
    ExactSame(Hashes(w), InboxHashes(w.inbox, env.hash), |names|, RunAll(w, names, env), RunAll(w, other, env'));
  }

  lemma ExactSame(before: set<string>, listed: set<string>, n: nat, b: Batch, b': Batch)
    requires Exact(before, listed, n, b) && Exact(before, listed, n, b')
    ensures Hashes(b.world) == Hashes(b'.world) && Summarise(b.results) == Summarise(b'.results)
  {
  }

  lemma SameLength(names: seq<string>, other: seq<string>)
    requires forall i, j | 0 <= i < j < |names| :: names[i] != names[j]
    requires forall i, j | 0 <= i < j < |other| :: other[i] != other[j]
    requires forall n :: n in names <==> n in other
    ensures |names| == |other|
  {
    DistinctSize(names);
    DistinctSize(other);
    assert (set n | n in names) == (set n | n in other);
  }

  lemma {:induction false} DistinctSize(names: seq<string>)
    requires forall i, j | 0 <= i < j < |names| :: names[i] != names[j]
    ensures |set n | n in names| == |names|
  {
    if names != [] {
      DistinctSize(names[1..]);
      assert (set n | n in names) == (set n | n in names[1..]) + {names[0]};
    }
  }

  // ----- running again -----------------------------------------------------------------

  ghost predicate AllHandled(b: Batch) {
    !b.aborted && forall i | 0 <= i < |b.results| :: !b.results[i].status.Quarantined?
  }

  lemma HashesGrow(w: World, w': World, env: Env)
    requires Keeps(w, w', env.hash)
    ensures Hashes(w) <= Hashes(w')
  {
    forall x | x in Hashes(w) ensures x in Hashes(w') {
      var d :| d in w.library && Complete(w.library[d]) && w.library[d].meta.value.m.contentHash == x;
      assert d in w'.library && w'.library[d] == w.library[d];
    }
  }

  /** A file that was processed or skipped has its hash in the library. */
  lemma HandledIsFiled(w: World, name: string, env: Env)
    ensures var o := Process(w, name, env);
            o.reply.Done? && !o.reply.result.status.Quarantined? ==>
              name in w.inbox && env.hash(w.inbox[name]) in Hashes(o.state)
  {
    var o := Process(w, name, env);
    var wrote, dir := ProcessEffect(w, name, env);
    if o.reply.Done? && o.reply.result.status.Skipped? {
      SkippedIsFiled(w, name, env);
    }
  }

  lemma SkippedIsFiled(w: World, name: string, env: Env)
    ensures var o := Process(w, name, env);
            o.reply.Done? && o.reply.result.status.Skipped? ==>
              name in w.inbox && env.hash(w.inbox[name]) in Hashes(o.state)
  {
    var (w1, got) := w.ReadPDF(name, env);
    if got.Some? {
      var (w2, dup) := w1.IsDuplicate(got.value.1, env);
      if dup == Some(false) {
        var wrote, e := StagesShape(w2, name, got.value.1, env);
      } else if dup == Some(true) {
        var d :| d in w.library && HasHash(w.library[d], got.value.1);
        assert Process(w, name, env).state.library == w.library;
      }
    }
  }

  /** After a batch without quarantine or abort, whatever is left of the listed files is a filed duplicate. */
  lemma {:induction false} RemainderIsFiled(w: World, names: seq<string>, env: Env, n: string)
    requires EntriesSeenIn(w, names, env) && AllHandled(RunAll(w, names, env)) && n in names
    ensures var w' := RunAll(w, names, env).world;
            n in w'.inbox ==> env.hash(w'.inbox[n]) in Hashes(w')
    decreases |names|
  {
    var o := Process(w, names[0], env);
    var rest := RunAll(o.state, names[1..], env);
    var results := RunAll(w, names, env).results;
    assert results[0] == o.reply.result && results[1..] == rest.results;
    assert AllHandled(rest) by {
      assert forall i | 0 <= i < |rest.results| :: rest.results[i] == results[i + 1];
    }
    if n in names[1..] {
      RemainderIsFiled(o.state, names[1..], env, n);
    } else {
      HandledIsFiled(w, n, env);
      RunKeeps(o.state, names[1..], env);
      HashesGrow(o.state, rest.world, env);
      var wrote, dir := ProcessEffect(w, n, env);
      RunInbox(o.state, names[1..], env);
    }
  }

  lemma {:induction false} RunInbox(w: World, names: seq<string>, env: Env)
    ensures var w' := RunAll(w, names, env).world;
            forall n | n in w'.inbox :: n in w.inbox && w'.inbox[n] == w.inbox[n]
    decreases |names|
  {
    if names != [] {
      var o := Process(w, names[0], env);
      var wrote, dir := ProcessEffect(w, names[0], env);
      if o.reply.Done? {
        RunInbox(o.state, names[1..], env);
      }
    }
  }

  ghost predicate AllSkipped(b: Batch, n: nat) {
    && !b.aborted && |b.results| == n
    && forall i | 0 <= i < n :: b.results[i].status.Skipped?
  }

  lemma {:induction false} FiledInboxSkips(w: World, names: seq<string>, env: Env)
    requires w.alive && ScansReliable(env) && (forall t :: env.fate(t) == Ok)
    requires forall n | n in names :: n in w.inbox && env.hash(w.inbox[n]) in Hashes(w)
    ensures AllSkipped(RunAll(w, names, env), |names|) && Quiet(w, RunAll(w, names, env).world)
    decreases |names|
  {
    if names != [] {
      var n := names[0];
      var o := Process(w, n, env);
      var (w1, got) := w.ReadPDF(n, env);
      var (w2, dup) := w1.IsDuplicate(got.value.1, env);
      assert dup == Some(true);
      assert Hashes(o.state) == Hashes(w);
      FiledInboxSkips(o.state, names[1..], env);
    }
  }

  /** A file whose hash is filed is not filed again, and nothing moves, whatever fails. */
  lemma FiledFileQuiet(w: World, name: string, env: Env)
    requires ScansReliable(env) && (name in w.inbox ==> env.hash(w.inbox[name]) in Hashes(w))
    ensures var o := Process(w, name, env);
            Quiet(w, o.state) && (o.reply.Done? ==> !o.reply.result.status.Processed?)
  {
    if name in w.inbox {
      FiledHasCopy(w, env.hash(w.inbox[name]));
    }
    var wrote, w2, e := ProcessShape(w, name, env);
    if wrote {
      ShapedScan(w, name, env);
    }
  }

  lemma FiledHasCopy(w: World, h: string)
    requires h in Hashes(w)
    ensures Copies(w, h) != {}
  {
    var d :| d in w.library && Complete(w.library[d]) && w.library[d].meta.value.m.contentHash == h;
    assert d in Copies(w, h);
  }

  ghost predicate NoneProcessed(b: Batch) {
    forall i | 0 <= i < |b.results| :: !b.results[i].status.Processed?
  }

  lemma {:induction false} FiledInboxQuiet(w: World, names: seq<string>, env: Env)
    requires ScansReliable(env)
    requires forall n | n in names && n in w.inbox :: env.hash(w.inbox[n]) in Hashes(w)
    ensures Quiet(w, RunAll(w, names, env).world) && NoneProcessed(RunAll(w, names, env))
    decreases |names|
  {
    if names != [] {
      var o := Process(w, names[0], env);
      FiledFileQuiet(w, names[0], env);
      if o.reply.Done? {
        assert Hashes(o.state) == Hashes(w);
        FiledInboxQuiet(o.state, names[1..], env);
      }
    }
  }

  /** Idempotence: after a batch with no quarantine and no abort, in which writes and moves may still have
      failed, a second run over the remaining inbox processes nothing and changes neither inbox nor library nor
      processed area, whatever fails in it and wherever it stops; if nothing fails in it, it skips every file. */
  lemma SecondRunSkips(w: World, names: seq<string>, env: Env, names': seq<string>, env': Env)
    requires EntriesSeenIn(w, names, env) && IsListing(names, w.inbox) && AllHandled(RunAll(w, names, env))
    requires ScansReliable(env') && env'.hash == env.hash
    requires IsListing(names', RunAll(w, names, env).world.inbox)
    ensures var w1 := RunAll(w, names, env).world.(alive := true);
            var again := RunAll(w1, names', env');
            && Quiet(w1, again.world) && NoneProcessed(again)
            && ((forall t :: env'.fate(t) == Ok) ==> AllSkipped(again, |names'|))
  {
    var w1 := RunAll(w, names, env).world.(alive := true);
    forall n | n in names' ensures n in w1.inbox && env'.hash(w1.inbox[n]) in Hashes(w1) {
      RunInbox(w, names, env);
      assert n in names;
      RemainderIsFiled(w, names, env, n);
      assert Hashes(w1) == Hashes(RunAll(w, names, env).world);
    }
    FiledInboxQuiet(w1, names', env');
    if forall t :: env'.fate(t) == Ok {
      FiledInboxSkips(w1, names', env');
    }
  }
}
