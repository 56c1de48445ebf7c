/** The mutable local storage: every method is proved to do to the files what `World` says. */
module LocalStorage {
  import opened Basics
  import opened Faults
  import opened Naming
  import opened Pipeline
  import opened Local
  import LocalCommand
  import LocalTheorems

  datatype LogLine = LogLine(filename: string, status: Status, stage: Option<Stage>)

  class Storage {
    const env: Env
    var inbox: map<string, Bytes>
    var library: map<string, Folder>
    var processed: map<string, Bytes>
    var quarantine: map<string, QuarantineFolder>
    var alive: bool
    var tick: nat
    /** The storage calls made so far. */
    ghost var calls: seq<Call>

    ghost function W(): World
      reads this
    {
      World(inbox, library, processed, quarantine, alive, tick)
    }

    constructor (env: Env, inbox: map<string, Bytes>, library: map<string, Folder>, processed: map<string, Bytes>,
                 quarantine: map<string, QuarantineFolder>)
      ensures this.env == env
      ensures W() == World(inbox, library, processed, quarantine, true, 0) && calls == []
    {
      this.env, this.inbox, this.library := env, inbox, library;
      this.processed, this.quarantine, this.alive, this.tick := processed, quarantine, true, 0;
      calls := [];
    }

    /** Meets the fate of the next file operation. */
    method Operate() returns (f: Fate)
      modifies this`alive, this`tick
      ensures f == old(W()).Draw(env)
      ensures W() == old(W()).Step(f)
    {
      f := if alive then env.fate(tick) else Fail(Nothing);
      tick := tick + 1;
      alive := alive && !f.Crash?;
    }

    method ListInbox() returns (ok: bool, names: seq<string>)
      modifies this`alive, this`tick
      ensures W() == old(W()).Step(old(W()).Draw(env))
      ensures ok == old(W()).Draw(env).Ok?
      ensures if ok then IsListing(names, inbox) else names == []
    {
      names := [];
      var f := Operate();
      ok := f.Ok?;
      if !ok {
        return;
      }
      var todo := inbox.Keys;
      while todo != {}
        invariant todo <= inbox.Keys
        invariant forall i, j | 0 <= i < j < |names| :: names[i] != names[j]
        invariant forall n :: n in names <==> n in inbox.Keys - todo && IsPDF(n)
      {
        var n :| n in todo;
        todo := todo - {n};
        if IsPDF(n) {
          names := names + [n];
        }
      }
    }

    method ReadPDF(name: string) returns (got: Option<(string, Hash)>)
      modifies this`alive, this`tick, this`calls
      ensures (W(), got) == old(W()).ReadPDF(name, env)
      ensures calls == old(calls) + [Call.ReadPDF(got.Some?)]
    {
      var f := Operate();
      got := if f.Ok? && name in inbox then Some((name, env.hash(inbox[name]))) else None;
      calls := calls + [Call.ReadPDF(got.Some?)];
    }

    /** Reading made no copy. */
    method Cleanup(path: string)
      modifies this`calls
      ensures calls == old(calls) + [Call.Cleanup]
    {
      calls := calls + [Call.Cleanup];
    }

    /** The scan stops at the first readable metadata file with the hash, whatever the reading order. */
    method IsDuplicate(h: Hash) returns (answer: Option<bool>)
      modifies this`alive, this`tick, this`calls
      ensures (W(), answer) == old(W()).IsDuplicate(h, env)
      ensures calls == old(calls) + [Call.IsDuplicate(answer)]
    {
      var unreadable := env.unreadable(tick);
      var f := Operate();
      answer := if f.Ok? then Some(false) else None;
      if f.Ok? {
        var found := Scan(h, unreadable);
        answer := Some(found);
      }
      calls := calls + [Call.IsDuplicate(answer)];
    }

    method Scan(h: Hash, unreadable: set<string>) returns (found: bool)
      ensures found <==> exists d :: d in library && d !in unreadable && HasHash(library[d], h)
    {
      var todo := library.Keys;
      while todo != {}
        invariant todo <= library.Keys
        invariant forall d | d in library.Keys - todo :: d in unreadable || !HasHash(library[d], h)
      {
        var d :| d in todo;
        todo := todo - {d};
        if d in unreadable || !Complete(library[d]) {
          continue;
        }
        if library[d].meta.value.m.contentHash == h {
          return true;
        }
      }
      return false;
    }

    method MakeDir(dir: string) returns (ok: bool)
      modifies this`library, this`alive, this`tick
      ensures (W(), ok) == old(W()).MakeDir(dir, env)
    {
      var f := Operate();
      if Took(f) && dir !in library {
        library := library[dir := Folder(None, None, None)];
      }
      ok := f.Ok?;
    }

    method PutPdf(dir: string, src: string) returns (ok: bool)
      requires dir in library
      modifies this`library, this`alive, this`tick
      ensures (W(), ok) == old(W()).PutPdf(dir, src, env)
    {
      var f := Operate();
      if src !in inbox {
        return false;
      }
      var pdf := inbox[src];
      library := library[dir := library[dir].(pdf := Landed(f, library[dir].pdf, pdf, Cut(pdf, f)))];
      ok := f.Ok?;
    }

    method PutTranscript(dir: string, text: string) returns (ok: bool)
      requires dir in library
      modifies this`library, this`alive, this`tick
      ensures (W(), ok) == old(W()).PutTranscript(dir, text, env)
    {
      var f := Operate();
      library := library[dir := library[dir].(transcript := Landed(f, library[dir].transcript, text, Cut(text, f)))];
      ok := f.Ok?;
    }

    method PutMeta(dir: string, m: Metadata) returns (ok: bool)
      requires dir in library
      modifies this`library, this`alive, this`tick
      ensures (W(), ok) == old(W()).PutMeta(dir, m, env)
    {
      var f := Operate();
      var stored := m.(fileDescription := "");
      library := library[dir := library[dir].(meta := Landed(f, library[dir].meta, Parsed(stored), Garbled))];
      ok := f.Ok?;
    }

    method WriteEntry(e: Entry<string>) returns (entryName: Option<string>)
      modifies this`library, this`alive, this`tick, this`calls
      ensures (W(), entryName) == old(W()).WriteEntry(e, env)
      ensures calls == old(calls) + [Call.WriteEntry(entryName.Some?)]
    {
      entryName := BuildEntry(e);
      calls := calls + [Call.WriteEntry(entryName.Some?)];
    }

    method BuildEntry(e: Entry<string>) returns (entryName: Option<string>)
      modifies this`library, this`alive, this`tick
      ensures (W(), entryName) == old(W()).WriteEntry(e, env)
    {
      var m := Described(e.meta);
      var base := FormatDirName(m.documentDate, m.vendor, m.fileDescription, env.lower);
      var dir := UniqueDirName(base, library.Keys - env.hidden(tick));
      var _ := Operate();
      var ok := MakeDir(dir);
      if !ok {
        return None;
      }
      ok := PutPdf(dir, e.pdf);
      if !ok {
        return None;
      }
      ok := PutTranscript(dir, e.transcript);
      if !ok {
        return None;
      }
      ok := PutMeta(dir, e.meta);
      return if ok then Some(dir) else None;
    }

    method Rename(name: string, dst: string) returns (ok: bool)
      modifies this`inbox, this`processed, this`alive, this`tick
      ensures (W(), ok) == old(W()).Rename(name, dst, env)
    {
      var f := Operate();
      if name !in inbox {
        return false;
      }
      if Took(f) {
        processed := processed[dst := inbox[name]];
        inbox := inbox - {name};
      }
      ok := f.Ok?;
    }

    method CopyOver(name: string, dst: string) returns (ok: bool)
      modifies this`processed, this`alive, this`tick
      ensures (W(), ok) == old(W()).CopyOver(name, dst, env)
    {
      var f := Operate();
      if name !in inbox {
        return false;
      }
      var before := if dst in processed then Some(processed[dst]) else None;
      var after := Landed(f, before, inbox[name], Cut(inbox[name], f));
      if after.Some? {
        processed := processed[dst := after.value];
      }
      ok := f.Ok?;
    }

    method Remove(name: string)
      modifies this`inbox, this`alive, this`tick
      ensures W() == old(W()).Remove(name, env)
    {
      var f := Operate();
      if Took(f) {
        inbox := inbox - {name};
      }
    }

    /** Every failure is only a warning. */
    method MoveToProcessed(name: string, h: Hash) returns (ok: bool)
      modifies this`inbox, this`processed, this`alive, this`tick, this`calls
      ensures (W(), ok) == old(W()).MoveToProcessed(name, h, env)
      ensures calls == old(calls) + [Call.MoveToProcessed(ok)]
    {
      calls := calls + [Call.MoveToProcessed(true)];
      var f := Operate();
      if !f.Ok? {
        return true;
      }
      var dst := name;
      if name in processed && name !in env.hidden(tick) {
        dst := ProcessedName(name, h);
      }
      var _ := Operate();
      var renamed := Rename(name, dst);
      if !renamed {
        var copied := CopyOver(name, dst);
        if copied {
          Remove(name);
        }
      }
      return true;
    }

    method Quarantine(name: string, stage: Stage)
      modifies this`quarantine, this`alive, this`tick, this`calls
      ensures W() == old(W()).Quarantine(name, stage, env)
      ensures calls == old(calls) + [Call.Quarantine(stage)]
    {
      calls := calls + [Call.Quarantine(stage)];
      var f := Operate();
      if Took(f) && name !in quarantine {
        quarantine := quarantine[name := QuarantineFolder(None, None)];
      }
      if !f.Ok? {
        return;
      }
      f := Operate();
      if name in inbox {
        quarantine := quarantine[name := quarantine[name].(pdf :=
          Landed(f, quarantine[name].pdf, inbox[name], Cut(inbox[name], f)))];
      }
      f := Operate();
      quarantine := quarantine[name := quarantine[name].(record :=
        Landed(f, quarantine[name].record, Recorded(stage), TornRecord))];
    }

    method ProcessOne(name: string) returns (reply: Reply)
      modifies this
      ensures W() == Process(old(W()), name, env).state
      ensures reply == Process(old(W()), name, env).reply
      ensures calls == old(calls) + Script(ExitOf(reply))
    {
      var got := ReadPDF(name);
      if got.None? {
        Quarantine(name, LibraryWrite);
        UnreadScript(old(calls));
        return Fault(None, LibraryWrite);
      }
      reply := CheckAndFile(name, got.value.0, got.value.1);
      ScriptParts(old(calls), ExitOf(reply));
      Cleanup(got.value.0);
    }

    /** Everything the deferred clean-up waits for. */
    method CheckAndFile(name: string, path: string, hash: Hash) returns (reply: Reply)
      modifies this
      ensures var o := CheckDuplicate(LocalBackend(env), old(W()), name, path, hash); W() == o.state && reply == o.reply
      ensures !ExitOf(reply).Unread? && calls == old(calls) + Checking(ExitOf(reply))
    {
      var dup := IsDuplicate(hash);
      if dup.None? {
        return Abort;
      }
      if dup.value {
        return Done(Result(Skipped, Some(hash), "", None, true));
      }
      reply := FileNew(name, path, hash);
    }

    method FileNew(name: string, path: string, hash: Hash) returns (reply: Reply)
      modifies this
      ensures var o := Extract(LocalBackend(env), old(W()), name, path, hash); W() == o.state && reply == o.reply
      ensures Tried(ExitOf(reply)) && calls == old(calls) + Filing(ExitOf(reply))
    {
      var transcript := env.extract(tick);
      if transcript.None? {
        Quarantine(name, Ocr);
        return Fault(Some(hash), Ocr);
      }
      reply := FileText(name, path, hash, transcript.value);
    }

    method FileText(name: string, path: string, hash: Hash, transcript: string) returns (reply: Reply)
      modifies this
      ensures var o := ClassifyText(LocalBackend(env), old(W()), name, path, hash, transcript); W() == o.state && reply == o.reply
      ensures Tried(ExitOf(reply)) && calls == old(calls) + Filing(ExitOf(reply))
    {
      var props := env.answer(tick);
      if props.None? {
        Quarantine(name, Classify);
        return Fault(Some(hash), Classify);
      }
      var meta := ClassifiedAs(props.value, name, hash);
      if !SchemaValid(meta) {
        Quarantine(name, SchemaValidate);
        return Fault(Some(hash), SchemaValidate);
      }
      reply := FileEntry(name, hash, Entry(path, transcript, Described(meta)));
    }

    method FileEntry(name: string, hash: Hash, e: Entry<string>) returns (reply: Reply)
      modifies this
      ensures var o := File(LocalBackend(env), old(W()), name, hash, e); W() == o.state && reply == o.reply
      ensures Tried(ExitOf(reply)) && calls == old(calls) + Filing(ExitOf(reply))
    {
      FileSteps(W(), name, hash, e, env);
      var entryName := WriteEntry(e);
      if entryName.None? {
        Quarantine(name, LibraryWrite);
        FilingParts(old(calls), false);
        return Fault(Some(hash), LibraryWrite);
      }
      var moved := MoveToProcessed(name, hash);
      FilingParts(old(calls), moved);
      return Done(Result(Processed, Some(hash), entryName.value, None, moved));
    }

    /** The loop over the listing: one log line and one count per file, until the end or an abort. */
    method ProcessAll(listing: seq<string>) returns (summary: Option<Summary>, log: seq<LogLine>)
      modifies this
      ensures var batch := RunAll(old(W()), listing, env);
              && W() == batch.world
              && summary == (if batch.aborted then None else Some(Summarise(batch.results)))
              && Logged(log, listing, batch.results)
    {
      log := [];
      ghost var w0 := W();
      ghost var results: seq<Result> := [];
      var count := Summary(0, 0, 0);
      for i := 0 to |listing|
        invariant |results| == i && Reported(count, log, listing, results)
        invariant RunAll(w0, listing, env) == Resumed(results, RunAll(W(), listing[i..], env))
      {
        RunAllStep(W(), listing, i, results, env);
        var reply := ProcessOne(listing[i]);
        if reply.Abort? {
          return None, log;
        }
        ReportStep(count, log, listing, results, reply.result);
        log := log + [LogLine(listing[i], reply.result.status, reply.result.stage)];
        count := Counted(count, reply.result.status);
        results := results + [reply.result];
      }
      assert listing[|listing|..] == [];
      assert results + [] == results;
      return Some(count), log;
    }

    /** The `process` command. It gives a summary only after handling its whole listing of the inbox, with one
        log line per listed file, in order, and the summary counts those lines by status; lines of a command
        that failed are those of the files before. If nothing fails, each hash that is new to the library is
        processed once, every other file is skipped, and the library ends with the hashes of the inbox added. */
    method RunProcess() returns (summary: Option<Summary>, log: seq<LogLine>, ghost names: seq<string>)
      modifies this
      ensures IsListing(names, old(inbox)) || (names == [] && summary.None?)
      ensures var batch := Command(old(W()), names, env);
              && W() == batch.world
              && summary == (if batch.aborted then None else Some(Summarise(batch.results)))
              && Logged(log, names, batch.results)
      ensures |log| <= |names| && forall i | 0 <= i < |log| :: log[i].filename == names[i]
      ensures summary.Some? ==> IsListing(names, old(inbox)) && |log| == |names| && Tallies(summary.value, log)
      ensures old(alive) && LocalTheorems.Smooth(env) && LocalTheorems.ScansReliable(env) ==>
                IsListing(names, old(inbox)) && FilesAll(old(W()), W(), env, names, summary, log)
    {
      var f := Operate();
      if !f.Ok? {
        return None, [], [];
      }
      f := Operate();
      if !f.Ok? {
        return None, [], [];
      }
      var ok, listing := ListInbox();
      names := listing;
      if !ok {
        return None, [], names;
      }
      summary, log := ProcessAll(listing);
      CommandSays(old(W()), names, env, Command(old(W()), names, env), summary, log);
    }
  }

  lemma FileSteps(w: World, name: string, hash: Hash, e: Entry<string>, env: Env)
    ensures var (w1, dir) := w.WriteEntry(e, env);
            File(LocalBackend(env), w, name, hash, e) ==
            if dir.None? then Outcome(w1.Quarantine(name, LibraryWrite, env), Fault(Some(hash), LibraryWrite))
            else var (w2, moved) := w1.MoveToProcessed(name, hash, env);
                 Outcome(w2, Done(Result(Processed, Some(hash), dir.value, None, moved)))
  {
  }

  /** One line per handled file, in the order handled. */
  ghost predicate Logged(log: seq<LogLine>, names: seq<string>, results: seq<Result>) {
    && |log| == |results| <= |names|
    && forall i | 0 <= i < |log| :: log[i] == LogLine(names[i], results[i].status, results[i].stage)
  }

  /** The three counts of a summary are the numbers of log lines with each status. */
  ghost predicate Tallies(s: Summary, log: seq<LogLine>) {
    && s.processed == |set i | 0 <= i < |log| && log[i].status == Processed|
    && s.skipped == |set i | 0 <= i < |log| && log[i].status == Skipped|
    && s.quarantined == |set i | 0 <= i < |log| && log[i].status == Quarantined|
  }

  lemma LoggedTallies(log: seq<LogLine>, names: seq<string>, results: seq<Result>, status: Status)
    requires Logged(log, names, results)
    ensures CountStatus(results, status) == |set i | 0 <= i < |log| && log[i].status == status|
  {
    LocalCommand.CountIsSize(results, status);
    assert (set i | 0 <= i < |log| && log[i].status == status) == LocalCommand.Positions(results, status);
  }

  /** The hashes of the inbox were added to the library; each new one was processed once, every other file of
      the listing skipped. */
  ghost predicate FilesAll(w: World, w': World, env: Env, names: seq<string>, summary: Option<Summary>, log: seq<LogLine>) {
    var before, listed := LocalTheorems.Hashes(w), LocalTheorems.InboxHashes(w.inbox, env.hash);
    && |log| == |names| && summary.Some?
    && summary.value.processed == |listed - before|
    && summary.value.processed + summary.value.skipped == |names| && summary.value.quarantined == 0
    && LocalTheorems.Hashes(w') == before + listed
  }

  lemma CommandSays(w: World, names: seq<string>, env: Env, b: Batch, summary: Option<Summary>, log: seq<LogLine>)
    requires IsListing(names, w.inbox) && b == Command(w, names, env)
    requires summary == (if b.aborted then None else Some(Summarise(b.results))) && Logged(log, names, b.results)
    ensures summary.Some? ==> |log| == |names| && Tallies(summary.value, log)
    ensures w.alive && LocalTheorems.Smooth(env) && LocalTheorems.ScansReliable(env) ==> FilesAll(w, b.world, env, names, summary, log)
  {
    hide Command;
    LocalCommand.CommandHandlesAll(w, names, env);
    if w.alive && LocalTheorems.Smooth(env) && LocalTheorems.ScansReliable(env) {
      LocalCommand.SmoothCommand(w, names, env);
      ExactFilesAll(w, names, env, b, summary, log);
    }
    if summary.Some? {
      LoggedTallies(log, names, b.results, Processed);
      LoggedTallies(log, names, b.results, Skipped);
      LoggedTallies(log, names, b.results, Quarantined);
    }
  }

  lemma ExactFilesAll(w: World, names: seq<string>, env: Env, b: Batch, summary: Option<Summary>, log: seq<LogLine>)
    requires LocalTheorems.Exact(LocalTheorems.Hashes(w), LocalTheorems.InboxHashes(w.inbox, env.hash), |names|, b)
    requires summary == (if b.aborted then None else Some(Summarise(b.results))) && Logged(log, names, b.results)
    ensures FilesAll(w, b.world, env, names, summary, log)
  {
    hide LocalTheorems.Hashes, LocalTheorems.InboxHashes, CountStatus;
  }

  ghost predicate Reported(count: Summary, log: seq<LogLine>, names: seq<string>, results: seq<Result>) {
    count == Summarise(results) && Logged(log, names, results)
  }

  lemma ReportStep(count: Summary, log: seq<LogLine>, names: seq<string>, results: seq<Result>, r: Result)
    requires Reported(count, log, names, results) && |results| < |names|
    ensures Reported(Counted(count, r.status), log + [LogLine(names[|results|], r.status, r.stage)], names, results + [r])
  {
    assert (results + [r])[..|results|] == results;
  }

  function Counted(s: Summary, status: Status): Summary {
    match status
    case Processed => s.(processed := s.processed + 1)
    case Skipped => s.(skipped := s.skipped + 1)
    case Quarantined => s.(quarantined := s.quarantined + 1)
  }

  ghost function Resumed(done: seq<Result>, rest: Batch): Batch {
    rest.(results := done + rest.results)
  }

  lemma RunAllStep(w: World, listing: seq<string>, i: nat, done: seq<Result>, env: Env)
    requires i < |listing|
    ensures var o := Process(w, listing[i], env);
            Resumed(done, RunAll(w, listing[i..], env)) ==
            if o.reply.Abort? then Batch(o.state, done, true)
            else Resumed(done + [o.reply.result], RunAll(o.state, listing[i + 1..], env))
  {
    var o := Process(w, listing[i], env);
    assert listing[i..][0] == listing[i] && listing[i..][1..] == listing[i + 1..];
    if o.reply.Abort? {
      assert done + [] == done;
    } else {
      var rest := RunAll(o.state, listing[i + 1..], env).results;
      assert done + ([o.reply.result] + rest) == (done + [o.reply.result]) + rest;
    }
  }
}
