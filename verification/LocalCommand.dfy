/** What the `process` command and its file operations do, with names, fields and counts written out. */
module LocalCommand {
  import opened Basics
  import opened Faults
  import opened Naming
  import opened Pipeline
  import opened Local
  import opened LocalTheorems

  // ----- the processed area --------------------------------------------------------------------

  /** The name a file gets when its own is taken: stem, hyphen, first eight hash digits, extension; never its own. */
  lemma ProcessedNameSpelled(stem: string, ext: string, h: Hash)
    requires SplitsAs(stem, ext)
    ensures ProcessedName(stem + ext, h) == stem + "-" + h[..8] + ext
    ensures ProcessedName(stem + ext, h) != stem + ext
  {
    StemAndExt(stem, ext);
    assert |stem + "-" + h[..8] + ext| == |stem + ext| + 9;
  }

  lemma FilesMove(w: World, name: string, h: Hash, env: Env)
    requires w.alive && (forall t :: env.fate(t) == Ok) && name in w.inbox
    ensures var w' := w.MoveToProcessed(name, h, env).0;
            var dst := if name in w.processed && name !in env.hidden(w.tick + 1) then ProcessedName(name, h) else name;
            w'.processed == w.processed[dst := w.inbox[name]] && w'.inbox == w.inbox - {name} && w'.library == w.library
  {
  }

  /** Where a move that meets no fault puts a file, written out: under its own name if that is unused, and
      otherwise under stem, hyphen, eight hash digits and extension, so that the file already there stays. */
  lemma MoveNamed(w: World, stem: string, ext: string, h: Hash, env: Env)
    requires w.alive && (forall t :: env.fate(t) == Ok) && env.hidden(w.tick + 1) == {}
    requires SplitsAs(stem, ext) && stem + ext in w.inbox
    ensures var name, bytes := stem + ext, w.inbox[stem + ext];
            var other := stem + "-" + h[..8] + ext;
            var w' := w.MoveToProcessed(name, h, env).0;
            && w'.inbox == w.inbox - {name}
            && (name !in w.processed ==> w'.processed == w.processed[name := bytes])
            && (name in w.processed ==> w'.processed == w.processed[other := bytes] && w'.processed[name] == w.processed[name])
            && (name in w.processed && other !in w.processed ==>
                  forall n | n in w.processed :: n in w'.processed && w'.processed[n] == w.processed[n])
  {
    ProcessedNameSpelled(stem, ext, h);
    FilesMove(w, stem + ext, h, env);
  }

  /** Exactly when a move takes the file out of the inbox, whatever fails: the directory is there, the process
      survives the existence test, and either the rename takes place, or it fails without effect and copy and
      removal then succeed. */
  lemma MoveLeavesIff(w: World, name: string, h: Hash, env: Env)
    requires w.alive && name in w.inbox
    ensures var t := w.tick;
            name !in w.MoveToProcessed(name, h, env).0.inbox <==>
            && env.fate(t).Ok? && !env.fate(t + 1).Crash?
            && (Took(env.fate(t + 2)) || (env.fate(t + 2).Fail? && env.fate(t + 3).Ok? && Took(env.fate(t + 4))))
  {
    var f := w.Draw(env);
    if f.Ok? {
      var w1 := w.Step(f);
      var dst := if name in w.processed && name !in env.hidden(w1.tick) then ProcessedName(name, h) else name;
      var w2 := w1.Step(w1.Draw(env));
      assert w.MoveToProcessed(name, h, env).0 == MoveFrom(w2, name, dst, env);
      MoveFromIff(w2, name, dst, env);
    }
  }

  /** The move once its destination is known. */
  function MoveFrom(w: World, name: string, dst: string, env: Env): World {
    var (w1, renamed) := w.Rename(name, dst, env);
    if renamed then w1 else
    var (w2, copied) := w1.CopyOver(name, dst, env);
    if copied then w2.Remove(name, env) else w2
  }

  lemma MoveFromIff(w: World, name: string, dst: string, env: Env)
    requires name in w.inbox
    ensures var t := w.tick;
            name !in MoveFrom(w, name, dst, env).inbox <==>
            w.alive && (Took(env.fate(t)) || (env.fate(t).Fail? && env.fate(t + 1).Ok? && Took(env.fate(t + 2))))
  {
    var (w1, renamed) := w.Rename(name, dst, env);
    if !renamed {
      var (w2, copied) := w1.CopyOver(name, dst, env);
      if copied {
        assert w2.Remove(name, env).inbox == if Took(w2.Draw(env)) then w2.inbox - {name} else w2.inbox;
      }
    }
  }

  // ----- quarantine -------------------------------------------------------------------------------

  /** A quarantine record is written even if the copy of the PDF fails, and the copy is made even if the record
      is not; only a missing directory, or the end of the process, prevents both. */
  lemma QuarantineParts(w: World, name: string, stage: Stage, env: Env)
    requires w.alive && env.fate(w.tick).Ok?
    ensures var w', t := w.Quarantine(name, stage, env), w.tick;
            && name in w'.quarantine
            && (!env.fate(t + 1).Crash? && Took(env.fate(t + 2)) ==> w'.quarantine[name].record == Some(Recorded(stage)))
            && (name in w.inbox && Took(env.fate(t + 1)) ==> w'.quarantine[name].pdf == Some(w.inbox[name]))
            && (forall n | n != name :: (n in w'.quarantine <==> n in w.quarantine)
                                        && (n in w.quarantine ==> w'.quarantine[n] == w.quarantine[n]))
  {
  }

  // ----- one file -----------------------------------------------------------------------------------

  /** A PDF by its name: four characters or more, the last of which are a dot and "pdf" in either case. */
  lemma IsPDFIff(name: string)
    ensures IsPDF(name) <==>
            var n := |name|;
            && n >= 4 && name[n - 4] == '.'
            && name[n - 3] in {'p', 'P'} && name[n - 2] in {'d', 'D'} && name[n - 1] in {'f', 'F'}
  {
    var n := |name|;
    if n >= 4 && name[n - 4] == '.' && name[n - 3] in {'p', 'P'} && name[n - 2] in {'d', 'D'} && name[n - 1] in {'f', 'F'} {
      assert name[..n - 4] + name[n - 4..] == name;
      StemAndExt(name[..n - 4], name[n - 4..]);
    }
  }

  /** Exactly when the duplicate check aborts a run: the file was read and the library could not be. */
  lemma AbortsIff(w: World, name: string, env: Env)
    ensures Process(w, name, env).reply.Abort? <==>
            w.alive && env.fate(w.tick).Ok? && name in w.inbox && !env.fate(w.tick + 1).Ok?
  {
    var (w1, got) := w.ReadPDF(name, env);
    if got.Some? && w1.IsDuplicate(got.value.1, env).1 == Some(false) {
      ExtractDone(w1.IsDuplicate(got.value.1, env).0, name, got.value.1, env);
    }
  }

  lemma ExtractDone(w: World, name: string, h: Hash, env: Env)
    ensures Extract(LocalBackend(env), w, name, name, h).reply.Done?
  {
  }

  /** How a run ends when no file operation fails, written out: a file that is not there is quarantined at the
      library stage; a filed hash is skipped; of the others, text extraction, classification and schema fail
      in this order, and if none does the file is processed. */
  ghost predicate EndsAs(w: World, name: string, env: Env, r: Result) {
    if name !in w.inbox then r.status == Quarantined && r.stage == Some(LibraryWrite) && r.hash == None
    else
      var h, answer := env.hash(w.inbox[name]), env.answer(w.tick + 2);
      && r.hash == Some(h)
      && (if h in Hashes(w) then r.status == Skipped
          else if env.extract(w.tick + 2).None? then r.status == Quarantined && r.stage == Some(Ocr)
          else if answer.None? then r.status == Quarantined && r.stage == Some(Classify)
          else if AnswerValid(answer.value) && name != "" then r.status == Processed
          else r.status == Quarantined && r.stage == Some(SchemaValidate))
  }

  lemma CallEnds(w: World, name: string, env: Env)
    requires w.alive && ScansReliable(env) && (forall t :: env.fate(t) == Ok)
    ensures var reply := Process(w, name, env).reply; reply.Done? && EndsAs(w, name, env, reply.result)
  {
    var (w1, got) := w.ReadPDF(name, env);
    if got.Some? {
      var h := got.value.1;
      var (w2, dup) := w1.IsDuplicate(h, env);
      assert dup == Some(h in Hashes(w));
      if dup == Some(false) {
        ExtractEnds(w2, name, h, env);
      }
    }
  }

  lemma ExtractEnds(w: World, name: string, h: Hash, env: Env)
    requires w.alive && (forall t :: env.fate(t) == Ok) && name in w.inbox
    ensures var reply, answer := Extract(LocalBackend(env), w, name, name, h).reply, env.answer(w.tick);
            && reply.Done? && reply.result.hash == Some(h)
            && var r := reply.result;
               if env.extract(w.tick).None? then r.status == Quarantined && r.stage == Some(Ocr)
               else if answer.None? then r.status == Quarantined && r.stage == Some(Classify)
               else if AnswerValid(answer.value) && name != "" then r.status == Processed
               else r.status == Quarantined && r.stage == Some(SchemaValidate)
  {
    var transcript, answer := env.extract(w.tick), env.answer(w.tick);
    if transcript.Some? && answer.Some? {
      AnswerValidIff(answer.value, name, h);
      var meta := ClassifiedAs(answer.value, name, h);
      if SchemaValid(meta) {
        var e := Entry(name, transcript.value, Described(meta));
        SmoothWrite(w, e, env);
        assert Extract(LocalBackend(env), w, name, name, h) == File(LocalBackend(env), w, name, h, e);
      }
    }
  }

  /** The folder that holds a processed file: its bytes, the extracted text, and metadata that carries, field by
      field, the answer of the language model, the file's name and its hash. */
  ghost predicate FiledWith(f: Folder, bytes: Bytes, text: Option<string>, answer: Option<Props>, name: string, h: Hash) {
    && f.pdf == Some(bytes) && text.Some? && f.transcript == text
    && Complete(f) && answer.Some? && Carries(f.meta.value.m, answer.value, name, h)
  }

  /** Whatever else fails, a processed result names the folder that holds the file with what was found out
      about it. */
  lemma ProcessedCarries(w: World, name: string, env: Env)
    ensures var o := Process(w, name, env);
            o.reply.Done? && o.reply.result.status.Processed? ==>
              && name in w.inbox && o.reply.result.hash == Some(env.hash(w.inbox[name]))
              && o.reply.result.entryName in o.state.library
              && FiledWith(o.state.library[o.reply.result.entryName], w.inbox[name], env.extract(w.tick + 2),
                           env.answer(w.tick + 2), name, env.hash(w.inbox[name]))
  {
    hide Extract, FiledWith;
    var (w1, got) := w.ReadPDF(name, env);
    if got.Some? {
      var h := got.value.1;
      var (w2, dup) := w1.IsDuplicate(h, env);
      if dup == Some(false) {
        ExtractCarries(w2, name, h, env);
        assert Process(w, name, env) == Extract(LocalBackend(env), w2, name, name, h);
      }
    }
  }

  lemma ExtractCarries(w: World, name: string, h: Hash, env: Env)
    requires name in w.inbox
    ensures var o := Extract(LocalBackend(env), w, name, name, h);
            o.reply.Done? && o.reply.result.status.Processed? ==>
              && o.reply.result.hash == Some(h) && o.reply.result.entryName in o.state.library
              && FiledWith(o.state.library[o.reply.result.entryName], w.inbox[name], env.extract(w.tick), env.answer(w.tick), name, h)
  {
    hide World.WriteEntry, World.MoveToProcessed, World.Quarantine;
    var transcript, answer := env.extract(w.tick), env.answer(w.tick);
    if transcript.Some? && answer.Some? {
      var meta := ClassifiedAs(answer.value, name, h);
      if SchemaValid(meta) {
        var e := Entry(name, transcript.value, Described(meta));
        assert Extract(LocalBackend(env), w, name, name, h) == File(LocalBackend(env), w, name, h, e);
        FileCarries(w, name, h, e, env);
      }
    }
  }

  lemma FileCarries(w: World, name: string, h: Hash, e: Entry<string>, env: Env)
    requires name in w.inbox && e.pdf == name
    ensures var o := File(LocalBackend(env), w, name, h, e);
            o.reply.Done? && o.reply.result.status.Processed? ==>
              && o.reply.result.hash == Some(h) && o.reply.result.entryName in o.state.library
              && o.state.library[o.reply.result.entryName] == FiledFolder(w.inbox[name], e)
  {
    WriteEntryShape(w, e, env);
    var (w1, dir) := w.WriteEntry(e, env);
    MoveShape(w1, name, h, env);
  }

  /** What an entry directory is called, written out: of the base made of date, vendor and description, the first
      candidate whose existence test reports it absent. */
  ghost predicate FirstFree(name: string, base: string, taken: set<string>, k: nat) {
    k >= 1 && name == Candidate(base, k) && name !in taken && forall j | 1 <= j < k :: Candidate(base, j) in taken
  }

  lemma EntryDirNamed(w: World, e: Entry<string>, env: Env)
    ensures var m := Described(e.meta);
            exists k :: FirstFree(w.EntryDir(e, env), FormatDirName(m.documentDate, m.vendor, m.fileDescription, env.lower),
                                  w.library.Keys - env.hidden(w.tick), k)
  {
    var m := Described(e.meta);
    var base := FormatDirName(m.documentDate, m.vendor, m.fileDescription, env.lower);
    var taken := w.library.Keys - env.hidden(w.tick);
    assert FirstFree(w.EntryDir(e, env), base, taken, FreeIndex(base, taken));
  }

  // ----- the batch -----------------------------------------------------------------------------------

  /** One result per file handled, in order: it carries the hash of that file, or no hash if it could not be read. */
  ghost predicate ResultsOf(names: seq<string>, inbox: map<string, Bytes>, env: Env, results: seq<Result>) {
    && |results| <= |names|
    && forall i | 0 <= i < |results| ::
         if results[i].hash.None? then results[i].status.Quarantined?
         else names[i] in inbox && results[i].hash == Some(env.hash(inbox[names[i]]))
  }

  ghost predicate NoRepeats(names: seq<string>) {
    forall i, j | 0 <= i < j < |names| :: names[i] != names[j]
  }

  lemma HeadResult(w: World, name: string, env: Env)
    ensures var o := Process(w, name, env);
            o.reply.Done? ==>
              if o.reply.result.hash.None? then o.reply.result.status.Quarantined?
              else name in w.inbox && o.reply.result.hash == Some(env.hash(w.inbox[name]))
  {
    ResultSays(LocalBackend(env), w, name);
  }

  /** Whatever fails, a batch that is not aborted has exactly one result per listed file, and each result, of an
      aborted batch too, is about the file at its position. */
  lemma {:induction false} RunHandlesAll(w: World, names: seq<string>, env: Env)
    requires NoRepeats(names)
    ensures var b := RunAll(w, names, env);
            ResultsOf(names, w.inbox, env, b.results) && (b.aborted <==> |b.results| < |names|)
    decreases |names|
  {
    if names != [] {
      var o := Process(w, names[0], env);
      HeadResult(w, names[0], env);
      var wrote, dir := ProcessEffect(w, names[0], env);
      if o.reply.Done? {
        var rest := RunAll(o.state, names[1..], env);
        RunHandlesAll(o.state, names[1..], env);
        ResultsCons(names, w.inbox, o.state.inbox, env, o.reply.result, rest.results);
      }
    }
  }

  lemma ResultsCons(names: seq<string>, inbox: map<string, Bytes>, inbox': map<string, Bytes>, env: Env, r: Result, rest: seq<Result>)
    requires names != [] && NoRepeats(names) && ResultsOf(names[1..], inbox', env, rest)
    requires forall n | n in inbox' :: n in inbox && inbox'[n] == inbox[n]
    requires if r.hash.None? then r.status.Quarantined? else names[0] in inbox && r.hash == Some(env.hash(inbox[names[0]]))
    ensures ResultsOf(names, inbox, env, [r] + rest)
  {
    var all := [r] + rest;
    forall i | 0 <= i < |all|
      ensures if all[i].hash.None? then all[i].status.Quarantined?
              else names[i] in inbox && all[i].hash == Some(env.hash(inbox[names[i]]))
    {
      if i > 0 {
        assert all[i] == rest[i - 1] && names[1..][i - 1] == names[i];
      }
    }
  }

  /** The positions at which a sequence of results has a status. */
  ghost function Positions(results: seq<Result>, status: Status): set<int> {
    set i | 0 <= i < |results| && results[i].status == status
  }

  lemma PositionsSnoc(init: seq<Result>, r: Result, status: Status)
    ensures Positions(init + [r], status) == Positions(init, status) + if r.status == status then {|init|} else {}
    ensures |init| !in Positions(init, status)
  {
    var results := init + [r];
    assert forall i | 0 <= i < |init| :: results[i] == init[i];
  }

  lemma {:induction false} CountIsSize(results: seq<Result>, status: Status)
    ensures CountStatus(results, status) == |Positions(results, status)|
    decreases |results|
  {
    hide Positions;
    if results != [] {
      var n := |results| - 1;
      CountIsSize(results[..n], status);
      PositionsSnoc(results[..n], results[n], status);
      assert results[..n] + [results[n]] == results;
    } else {
      NoPositions(status);
    }
  }

  lemma NoPositions(status: Status)
    ensures Positions([], status) == {}
  {
  }

  // ----- the command -----------------------------------------------------------------------------------

  /** Library directory, log and listing come first; if any of the three fails, the command ends there. */
  lemma OpensIff(w: World, env: Env)
    requires w.alive
    ensures var (w1, ok) := Opened(w, env);
            && Quiet(w, w1) && w1.quarantine == w.quarantine
            && (ok <==> env.fate(w.tick).Ok? && env.fate(w.tick + 1).Ok? && env.fate(w.tick + 2).Ok?)
            && (ok ==> w1 == w.(tick := w.tick + 3))
  {
  }

  /** Whatever fails: the command is a batch over its whole listing, or it ended before the first file, and
      without an abort there is exactly one result per listed file. */
  lemma CommandHandlesAll(w: World, names: seq<string>, env: Env)
    requires NoRepeats(names)
    ensures var b := Local.Command(w, names, env);
            && ResultsOf(names, w.inbox, env, b.results)
            && (!b.aborted ==> |b.results| == |names|)
            && (w.alive && b.aborted && |b.results| == |names| ==>
                  !(env.fate(w.tick).Ok? && env.fate(w.tick + 1).Ok? && env.fate(w.tick + 2).Ok?))
  {
    if w.alive {
      OpensIff(w, env);
    }
    var (w1, ok) := Opened(w, env);
    if ok {
      RunHandlesAll(w1, names, env);
    }
  }

  /** A command in which nothing fails, from any state, over a listing in any order: it files exactly the hashes
      of the inbox, processes each new one once, and skips the rest. */
  lemma SmoothCommand(w: World, names: seq<string>, env: Env)
    requires w.alive && Smooth(env) && ScansReliable(env) && IsListing(names, w.inbox)
    ensures Exact(Hashes(w), InboxHashes(w.inbox, env.hash), |names|, Local.Command(w, names, env))
  {
    OpensIff(w, env);
    var w1 := Opened(w, env).0;
    assert Hashes(w1) == Hashes(w);
    ListedBatch(w1, names, env);
  }
}
