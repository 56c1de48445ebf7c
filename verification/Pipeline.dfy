/** The per-file pipeline over an arbitrary storage backend. */
module Pipeline {
  import opened Basics
  import opened Naming

  /** The fields of metadata.json that the schema constrains or the program reads back.
      `fileDescription` names the directory and is not stored. */
  datatype Metadata = Metadata(
    id: string,
    docType: string,
    documentDate: string,
    vendor: string,
    summary: string,
    sourceFilename: string,
    contentHash: string,
    amount: Option<real>,
    currency: string,
    dueDate: string,
    fileDescription: string)

  /** The fields the language model answers with. */
  datatype Props = Props(
    docType: string,
    documentDate: string,
    vendor: string,
    summary: string,
    fileDescription: string,
    amount: Option<real>,
    currency: string,
    dueDate: string)

  /** The classifier copies the hash it was given into both identity fields. */
  function ClassifiedAs(p: Props, sourceFilename: string, hash: Hash): Metadata {
    Metadata(hash, p.docType, p.documentDate, p.vendor, p.summary, sourceFilename, hash,
             p.amount, p.currency, p.dueDate, p.fileDescription)
  }

  const DOCUMENT_TYPES := {"invoice", "utility_bill", "bank_statement", "insurance_letter", "contract",
                           "government_letter", "other"}

  /** The JSON schema; an empty optional string is omitted from the JSON and so not checked. */
  predicate SchemaValid(m: Metadata) {
    && IsHash(m.id) && IsHash(m.contentHash)
    && m.docType in DOCUMENT_TYPES
    && IsDate(m.documentDate)
    && m.vendor != "" && m.summary != "" && m.sourceFilename != ""
    && (m.amount.Some? ==> m.amount.value >= 0.0)
    && (m.currency == "" || |m.currency| == 3)
    && (m.dueDate == "" || IsDate(m.dueDate))
  }

  /** A four, two and two digit date, character by character. */
  predicate DigitsAndHyphens(s: string) {
    && |s| == 10 && s[4] == s[7] == '-'
    && '0' <= s[0] <= '9' && '0' <= s[1] <= '9' && '0' <= s[2] <= '9' && '0' <= s[3] <= '9'
    && '0' <= s[5] <= '9' && '0' <= s[6] <= '9' && '0' <= s[8] <= '9' && '0' <= s[9] <= '9'
  }

  /** What the schema asks of an answer of the language model, written out. */
  predicate AnswerValid(p: Props) {
    && (|| p.docType == "invoice" || p.docType == "utility_bill" || p.docType == "bank_statement"
        || p.docType == "insurance_letter" || p.docType == "contract" || p.docType == "government_letter"
        || p.docType == "other")
    && DigitsAndHyphens(p.documentDate)
    && |p.vendor| > 0 && |p.summary| > 0
    && (p.amount == None || p.amount.value >= 0.0)
    && (p.currency == "" || |p.currency| == 3)
    && (p.dueDate == "" || DigitsAndHyphens(p.dueDate))
  }

  lemma AnswerValidIff(p: Props, name: string, h: Hash)
    ensures SchemaValid(ClassifiedAs(p, name, h)) <==> AnswerValid(p) && name != ""
  {
    DateSpelled(p.documentDate);
    DateSpelled(p.dueDate);
  }

  lemma DateSpelled(s: string)
    ensures IsDate(s) <==> DigitsAndHyphens(s)
  {
  }

  /** Metadata that carries an answer, a file name and a hash, field by field; descriptions are not stored. */
  predicate Carries(m: Metadata, p: Props, name: string, h: Hash) {
    && m.id == h && m.contentHash == h && m.sourceFilename == name
    && m.docType == p.docType && m.documentDate == p.documentDate && m.vendor == p.vendor && m.summary == p.summary
    && m.amount == p.amount && m.currency == p.currency && m.dueDate == p.dueDate && m.fileDescription == ""
  }

  /** The file name extension: everything from the last dot on, or nothing. */
  function Ext(name: string): string {
    var k := LastIndex(name, '.');
    if k < 0 then "" else name[k..]
  }

  function Stem(name: string): string {
    name[..|name| - |Ext(name)|]
  }

  function Described(m: Metadata): Metadata {
    if m.fileDescription == "" then m.(fileDescription := Stem(m.sourceFilename)) else m
  }

  /** The extension of a file name, read off its characters: nothing, or the last dot and what follows it. */
  predicate SplitsAs(stem: string, ext: string) {
    if ext == "" then '.' !in stem else ext[0] == '.' && '.' !in ext[1..]
  }

  lemma StemAndExt(stem: string, ext: string)
    requires SplitsAs(stem, ext)
    ensures Stem(stem + ext) == stem && Ext(stem + ext) == ext
  {
    var name := stem + ext;
    var k := LastIndex(name, '.');
    if ext == "" {
      assert name == stem;
      assert k < 0;
    } else {
      assert name[|stem|] == '.';
      assert forall i | |stem| < i < |name| :: name[i] == ext[1..][i - |stem| - 1];
      assert k == |stem|;
      assert name[k..] == ext;
    }
    assert name[..|stem|] == stem;
  }

  /** Without a description of its own a document is described by its file name without the extension. */
  lemma FallbackDescription(m: Metadata, stem: string, ext: string)
    requires SplitsAs(stem, ext) && m.sourceFilename == stem + ext
    ensures Described(m).fileDescription == if m.fileDescription == "" then stem else m.fileDescription
    ensures Described(m) == m.(fileDescription := Described(m).fileDescription)
  {
    StemAndExt(stem, ext);
  }

  /** `P` is how the backend refers to the readable copy of the PDF. */
  datatype Entry<P> = Entry(pdf: P, transcript: string, meta: Metadata)

  datatype Status = Processed | Skipped | Quarantined
  datatype Stage = Ocr | Classify | SchemaValidate | LibraryWrite

  datatype Result = Result(status: Status, hash: Option<Hash>, entryName: string, stage: Option<Stage>, moved: bool)

  /** `Abort` is the infrastructure error of the duplicate check. */
  datatype Reply = Done(result: Result) | Abort

  /** Storage calls made by one run of the pipeline. */
  datatype Call =
    | ReadPDF(ok: bool)
    | IsDuplicate(answer: Option<bool>)
    | WriteEntry(ok: bool)
    | MoveToProcessed(ok: bool)
    | Quarantine(stage: Stage)
    | Cleanup

  /** Notifications an attached observer receives. */
  datatype Notice = Started(stage: Stage) | Ended(stage: Stage, ok: bool)

  /** The operations of a storage backend with state S, with the extractor, the classifier and the observer
      it is run with. None stands for a returned error. */
  datatype Backend<!S(!new), !P(!new)> = Backend(
    read: (S, string) -> (S, Option<(P, Hash)>),
    cleanup: (S, P) -> S,
    isDuplicate: (S, Hash) -> (S, Option<bool>),
    extract: S -> Option<string>,
    classify: S -> Option<Props>,
    write: (S, Entry<P>) -> (S, Option<string>),
    move: (S, string, Hash) -> (S, bool),
    quarantine: (S, string, Stage) -> S,
    notify: (S, Notice) -> S)

  datatype Outcome<S> = Outcome(state: S, reply: Reply)

  function Fault(hash: Option<Hash>, stage: Stage): Reply {
    Done(Result(Quarantined, hash, "", Some(stage), true))
  }

  /** The clean-up of a read that succeeded is deferred to the end of the run. */
  function ProcessOne<S(!new), P(!new)>(b: Backend<S, P>, s: S, name: string): Outcome<S> {
    var (s1, got) := b.read(s, name);
    if got.None? then Outcome(b.quarantine(s1, name, LibraryWrite), Fault(None, LibraryWrite))
    else
      var o := CheckDuplicate(b, s1, name, got.value.0, got.value.1);
      o.(state := b.cleanup(o.state, got.value.0))
  }

  function CheckDuplicate<S(!new), P(!new)>(b: Backend<S, P>, s: S, name: string, pdf: P, hash: Hash): Outcome<S> {
    var (s1, dup) := b.isDuplicate(s, hash);
    if dup.None? then Outcome(s1, Abort)
    else if dup.value then Outcome(s1, Done(Result(Skipped, Some(hash), "", None, true)))
    else Extract(b, s1, name, pdf, hash)
  }

  function Extract<S(!new), P(!new)>(b: Backend<S, P>, s: S, name: string, pdf: P, hash: Hash): Outcome<S> {
    var s1 := b.notify(s, Started(Ocr));
    var transcript := b.extract(s1);
    if transcript.None? then
      Outcome(b.notify(b.quarantine(s1, name, Ocr), Ended(Ocr, false)), Fault(Some(hash), Ocr))
    else ClassifyText(b, b.notify(s1, Ended(Ocr, true)), name, pdf, hash, transcript.value)
  }

  function ClassifyText<S(!new), P(!new)>(b: Backend<S, P>, s: S, name: string, pdf: P, hash: Hash, transcript: string)
    : Outcome<S>
  {
    var s1 := b.notify(s, Started(Classify));
    var props := b.classify(s1);
    if props.None? then
      Outcome(b.notify(b.quarantine(s1, name, Classify), Ended(Classify, false)), Fault(Some(hash), Classify))
    else
      var s2 := b.notify(s1, Ended(Classify, true));
      var meta := ClassifiedAs(props.value, name, hash);
      if SchemaValid(meta) then File(b, s2, name, hash, Entry(pdf, transcript, Described(meta)))
      else Outcome(b.quarantine(s2, name, SchemaValidate), Fault(Some(hash), SchemaValidate))
  }

  function File<S(!new), P(!new)>(b: Backend<S, P>, s: S, name: string, hash: Hash, e: Entry<P>): Outcome<S> {
    var (s1, entryName) := b.write(b.notify(s, Started(LibraryWrite)), e);
    if entryName.None? then
      Outcome(b.notify(b.quarantine(s1, name, LibraryWrite), Ended(LibraryWrite, false)), Fault(Some(hash), LibraryWrite))
    else
      var (s2, moved) := b.move(b.notify(s1, Ended(LibraryWrite, true)), name, hash);
      Outcome(s2, Done(Result(Processed, Some(hash), entryName.value, None, moved)))
  }

  // ----- what a result says ---------------------------------------------------

  /** For every backend and every outcome of every stage: the result carries the hash that was read, or none
      if the read failed; a skipped one names neither entry nor stage, a quarantined one names a stage and no
      entry, a processed one the entry and whether the original was moved. */
  lemma ResultSays<S(!new), P(!new)>(b: Backend<S, P>, s: S, name: string)
    ensures var got, reply := b.read(s, name).1, ProcessOne(b, s, name).reply;
            reply.Done? ==>
              var r := reply.result;
              && r.hash == (match got case None => None case Some((_, h)) => Some(h))
              && (got.None? ==> r.status.Quarantined? && r.stage == Some(LibraryWrite))
              && (r.stage.Some? <==> r.status.Quarantined?) && (!r.status.Processed? ==> r.entryName == "")
  {
    var (s1, got) := b.read(s, name);
    if got.Some? {
      CheckSays(b, s1, name, got.value.0, got.value.1);
    }
  }

  lemma CheckSays<S(!new), P(!new)>(b: Backend<S, P>, s: S, name: string, pdf: P, hash: Hash)
    ensures var reply := CheckDuplicate(b, s, name, pdf, hash).reply;
            reply.Done? ==>
              var r := reply.result;
              r.hash == Some(hash) && (r.stage.Some? <==> r.status.Quarantined?) && (!r.status.Processed? ==> r.entryName == "")
  {
  }

  // ----- the grammar of calls -------------------------------------------------

  /** Where one run stopped. */
  datatype Exit = Unread | Aborted | Duplicate | Failed(stage: Stage) | Filed(moved: bool)

  function ExitOf(reply: Reply): Exit {
    match reply
    case Abort => Aborted
    case Done(Result(Processed, _, _, _, moved)) => Filed(moved)
    case Done(Result(Skipped, _, _, _, _)) => Duplicate
    case Done(Result(Quarantined, h, _, stage, _)) =>
      if h.None? || stage.None? then Unread else Failed(stage.value)
  }

  /** The storage calls of a run, as a table of exits. */
  function Script(x: Exit): seq<Call> {
    match x
    case Unread => [ReadPDF(false), Quarantine(LibraryWrite)]
    case Aborted => [ReadPDF(true), IsDuplicate(None), Cleanup]
    case Duplicate => [ReadPDF(true), IsDuplicate(Some(true)), Cleanup]
    case Failed(LibraryWrite) =>
      [ReadPDF(true), IsDuplicate(Some(false)), WriteEntry(false), Quarantine(LibraryWrite), Cleanup]
    case Failed(stage) => [ReadPDF(true), IsDuplicate(Some(false)), Quarantine(stage), Cleanup]
    case Filed(moved) => [ReadPDF(true), IsDuplicate(Some(false)), WriteEntry(true), MoveToProcessed(moved), Cleanup]
  }

  /** The calls of a run from its duplicate check on, up to the clean-up. */
  function Checking(x: Exit): seq<Call> {
    match x
    case Aborted => [IsDuplicate(None)]
    case Duplicate => [IsDuplicate(Some(true))]
    case _ => [IsDuplicate(Some(false))] + Filing(x)
  }

  /** The calls of a run once its file is known to be new. */
  function Filing(x: Exit): seq<Call> {
    match x
    case Failed(LibraryWrite) => [WriteEntry(false), Quarantine(LibraryWrite)]
    case Failed(stage) => [Quarantine(stage)]
    case Filed(moved) => [WriteEntry(true), MoveToProcessed(moved)]
    case _ => []
  }

  predicate Tried(x: Exit) {
    x.Failed? || x.Filed?
  }

  lemma ScriptParts(before: seq<Call>, x: Exit)
    requires !x.Unread?
    ensures before + [ReadPDF(true)] + Checking(x) + [Cleanup] == before + Script(x)
  {
    assert Script(x) == [ReadPDF(true)] + Checking(x) + [Cleanup];
  }

  lemma UnreadScript(before: seq<Call>)
    ensures before + [ReadPDF(false)] + [Quarantine(LibraryWrite)] == before + Script(Unread)
  {
  }

  lemma FilingParts(before: seq<Call>, moved: bool)
    ensures before + [WriteEntry(true)] + [MoveToProcessed(moved)] == before + Filing(Filed(moved))
    ensures before + [WriteEntry(false)] + [Quarantine(LibraryWrite)] == before + Filing(Failed(LibraryWrite))
  {
  }

  /** Everything an observer sees when all three observed stages succeed. */
  const ALL_STAGES := [Started(Ocr), Ended(Ocr, true), Started(Classify), Ended(Classify, true),
                       Started(LibraryWrite), Ended(LibraryWrite, true)]

  /** How many observed stages a run completed, and whether a further one failed. Schema validation is
      not observed. */
  function Completed(x: Exit): (nat, bool) {
    match x
    case Failed(Ocr) => (0, true)
    case Failed(Classify) => (1, true)
    case Failed(SchemaValidate) => (2, false)
    case Failed(LibraryWrite) => (2, true)
    case Filed(_) => (3, false)
    case _ => (0, false)
  }

  /** The stages in order: k of them complete, then at most one that was started and ended with an error. */
  function Notices(x: Exit): seq<Notice> {
    var (k, failed) := Completed(x);
    ALL_STAGES[..2 * k] + if failed then [ALL_STAGES[2 * k], Ended(ALL_STAGES[2 * k].stage, false)] else []
  }

  /** The stage under which an exit is quarantined. */
  function QuarantineStage(x: Exit): Option<Stage> {
    match x
    case Unread => Some(LibraryWrite)
    case Failed(stage) => Some(stage)
    case _ => None
  }

  /** A quarantined run calls Quarantine at exactly one position, under the stage of its result, and any
      other run never calls it; the original is moved only directly after a library write that
      succeeded; the clean-up is the last call, and only that, if and only if the read succeeded. */
  ghost predicate Grammatical(calls: seq<Call>, x: Exit) {
    && calls != [] && calls[0].ReadPDF?
    && (match QuarantineStage(x)
        case None => forall i | 0 <= i < |calls| :: !calls[i].Quarantine?
        case Some(stage) => exists i :: 0 <= i < |calls| && calls[i] == Quarantine(stage)
                                        && forall j | 0 <= j < |calls| && calls[j].Quarantine? :: j == i)
    && (forall i | 0 <= i < |calls| && calls[i].MoveToProcessed? :: i >= 1 && calls[i - 1] == WriteEntry(true))
    && (forall i | 0 <= i < |calls| :: calls[i] == Cleanup <==> (i == |calls| - 1 && calls[0] == ReadPDF(true)))
  }

  lemma ScriptGrammar(x: Exit)
    ensures Grammatical(Script(x), x)
  {
    var calls := Script(x);
    match x
    case Unread => assert calls[1] == Quarantine(LibraryWrite);
    case Failed(LibraryWrite) => assert calls[3] == Quarantine(LibraryWrite);
    case Failed(stage) => assert calls[2] == Quarantine(stage);
    case _ =>
  }

  // ----- recording a run ----------------------------------------------------------

  datatype Traced<S> = Traced(inner: S, calls: seq<Call>, seen: seq<Notice>) {
    function Called(s: S, call: Call): Traced<S> {
      Traced(s, calls + [call], seen)
    }
  }

  /** A backend around another one in which every operation, when invoked, writes itself down. */
  function Recording<S(!new), P(!new)>(b: Backend<S, P>): Backend<Traced<S>, P> {
    Backend(
      (r: Traced<S>, name: string) => var (s, got) := b.read(r.inner, name); (r.Called(s, ReadPDF(got.Some?)), got),
      (r: Traced<S>, pdf: P) => r.Called(b.cleanup(r.inner, pdf), Cleanup),
      (r: Traced<S>, h: Hash) => var (s, dup) := b.isDuplicate(r.inner, h); (r.Called(s, IsDuplicate(dup)), dup),
      (r: Traced<S>) => b.extract(r.inner),
      (r: Traced<S>) => b.classify(r.inner),
      (r: Traced<S>, e: Entry<P>) => var (s, dir) := b.write(r.inner, e); (r.Called(s, WriteEntry(dir.Some?)), dir),
      (r: Traced<S>, name: string, h: Hash) => var (s, ok) := b.move(r.inner, name, h); (r.Called(s, MoveToProcessed(ok)), ok),
      (r: Traced<S>, name: string, stage: Stage) => r.Called(b.quarantine(r.inner, name, stage), Quarantine(stage)),
      (r: Traced<S>, n: Notice) => Traced(b.notify(r.inner, n), r.calls, r.seen + [n]))
  }

  /** The recorded outcome is the plain one, and the record grew by what follows the first `calls` calls and
      `seen` notices of the run's script, up to its clean-up. */
  ghost predicate Follows<S>(o: Outcome<Traced<S>>, plain: Outcome<S>, r: Traced<S>, calls: nat, seen: nat) {
    var x := ExitOf(plain.reply);
    && o.reply == plain.reply && o.state.inner == plain.state
    && calls < |Script(x)| && o.state.calls == r.calls + Script(x)[calls..|Script(x)| - 1]
    && seen <= |Notices(x)| && o.state.seen == r.seen + Notices(x)[seen..]
  }

  lemma FileFollows<S(!new), P(!new)>(b: Backend<S, P>, r: Traced<S>, name: string, hash: Hash, e: Entry<P>)
    ensures Follows(File(Recording(b), r, name, hash, e), File(b, r.inner, name, hash, e), r, 2, 4)
  {
    var o := File(Recording(b), r, name, hash, e);
    var x := ExitOf(o.reply);
    assert Script(x)[2..|Script(x)| - 1] == [Script(x)[2], Script(x)[3]];
    assert Notices(x)[4..] == [Notices(x)[4], Notices(x)[5]];
  }

  lemma TakeTwo<T>(before: seq<T>, n: seq<T>, k: nat)
    requires k + 2 <= |n|
    ensures before + n[k..] == before + [n[k]] + [n[k + 1]] + n[k + 2..]
  {
    assert n[k..] == [n[k]] + [n[k + 1]] + n[k + 2..];
  }

  lemma TwoNotices<S>(o: Outcome<Traced<S>>, plain: Outcome<S>, r: Traced<S>, s: S, calls: nat, seen: nat, a: Notice, b: Notice)
    requires Follows(o, plain, Traced(s, r.calls, r.seen + [a] + [b]), calls, seen + 2)
    requires var n := Notices(ExitOf(plain.reply)); n[seen] == a && n[seen + 1] == b
    ensures Follows(o, plain, r, calls, seen)
  {
    TakeTwo(r.seen, Notices(ExitOf(plain.reply)), seen);
  }

  lemma StageFailed<S>(o: Outcome<Traced<S>>, plain: Outcome<S>, r: Traced<S>, stage: Stage, seen: nat)
    requires ExitOf(plain.reply) == Failed(stage) && o.reply == plain.reply && o.state.inner == plain.state
    requires stage == Ocr || stage == Classify
    requires seen == if stage == Ocr then 0 else 2
    requires o.state.calls == r.calls + [Quarantine(stage)]
    requires o.state.seen == r.seen + [Started(stage)] + [Ended(stage, false)]
    ensures Follows(o, plain, r, 2, seen)
  {
    var script, n := Script(Failed(stage)), Notices(Failed(stage));
    assert script[2..|script| - 1] == [Quarantine(stage)];
    assert n[seen..] == [Started(stage)] + [Ended(stage, false)];
  }

  lemma ClassifyFollows<S(!new), P(!new)>(b: Backend<S, P>, r: Traced<S>, name: string, pdf: P, hash: Hash, transcript: string)
    ensures Follows(ClassifyText(Recording(b), r, name, pdf, hash, transcript),
                    ClassifyText(b, r.inner, name, pdf, hash, transcript), r, 2, 2)
  {
    var s1 := b.notify(r.inner, Started(Classify));
    var props := b.classify(s1);
    var o, plain := ClassifyText(Recording(b), r, name, pdf, hash, transcript), ClassifyText(b, r.inner, name, pdf, hash, transcript);
    if props.None? {
      StageFailed(o, plain, r, Classify, 2);
    } else {
      var s2 := b.notify(s1, Ended(Classify, true));
      var r2 := Traced(s2, r.calls, r.seen + [Started(Classify)] + [Ended(Classify, true)]);
      var meta := ClassifiedAs(props.value, name, hash);
      if SchemaValid(meta) {
        FileFollows(b, r2, name, hash, Entry(pdf, transcript, Described(meta)));
      } else {
        var script, n := Script(Failed(SchemaValidate)), Notices(Failed(SchemaValidate));
        assert script[2..|script| - 1] == [Quarantine(SchemaValidate)] && n[4..] == [];
        assert Follows(o, plain, r2, 2, 4);
      }
      TwoNotices(o, plain, r, s2, 2, 2, Started(Classify), Ended(Classify, true));
    }
  }

  lemma ExtractFollows<S(!new), P(!new)>(b: Backend<S, P>, r: Traced<S>, name: string, pdf: P, hash: Hash)
    ensures Follows(Extract(Recording(b), r, name, pdf, hash), Extract(b, r.inner, name, pdf, hash), r, 2, 0)
  {
    var s1 := b.notify(r.inner, Started(Ocr));
    var transcript := b.extract(s1);
    var o, plain := Extract(Recording(b), r, name, pdf, hash), Extract(b, r.inner, name, pdf, hash);
    if transcript.None? {
      StageFailed(o, plain, r, Ocr, 0);
    } else {
      var s2 := b.notify(s1, Ended(Ocr, true));
      ClassifyFollows(b, Traced(s2, r.calls, r.seen + [Started(Ocr)] + [Ended(Ocr, true)]), name, pdf, hash, transcript.value);
      ClassifyExit(b, s2, name, pdf, hash, transcript.value);
      TwoNotices(o, plain, r, s2, 2, 0, Started(Ocr), Ended(Ocr, true));
    }
  }

  lemma ClassifyExit<S(!new), P(!new)>(b: Backend<S, P>, s: S, name: string, pdf: P, hash: Hash, transcript: string)
    ensures var n := Notices(ExitOf(ClassifyText(b, s, name, pdf, hash, transcript).reply));
            |n| >= 2 && n[0] == Started(Ocr) && n[1] == Ended(Ocr, true)
  {
  }

  lemma CheckFollows<S(!new), P(!new)>(b: Backend<S, P>, r: Traced<S>, name: string, pdf: P, hash: Hash)
    ensures Follows(CheckDuplicate(Recording(b), r, name, pdf, hash), CheckDuplicate(b, r.inner, name, pdf, hash), r, 1, 0)
  {
    var (s1, dup) := b.isDuplicate(r.inner, hash);
    var x := ExitOf(CheckDuplicate(b, r.inner, name, pdf, hash).reply);
    if dup == Some(false) {
      ExtractFollows(b, r.Called(s1, IsDuplicate(dup)), name, pdf, hash);
      assert Script(x)[1..|Script(x)| - 1] == [Script(x)[1]] + Script(x)[2..|Script(x)| - 1];
    } else {
      assert Script(x)[1..|Script(x)| - 1] == [Script(x)[1]];
    }
  }

  /** For every backend, every state and every outcome of every stage: recording a run does not change it,
      the calls made are those of the table and so follow the grammar, and the observer is told of the
      stages in order, each started and ended, the last one perhaps with an error. */
  lemma CallGrammar<S(!new), P(!new)>(b: Backend<S, P>, s: S, name: string)
    ensures var o, plain := ProcessOne(Recording(b), Traced(s, [], []), name), ProcessOne(b, s, name);
            var x := ExitOf(plain.reply);
            && o.reply == plain.reply && o.state.inner == plain.state
            && o.state.calls == Script(x) && Grammatical(o.state.calls, x)
            && o.state.seen == Notices(x)
  {
    var r := Traced(s, [], []);
    var (s1, got) := b.read(s, name);
    var x := ExitOf(ProcessOne(b, s, name).reply);
    if got.Some? {
      CheckFollows(b, r.Called(s1, ReadPDF(true)), name, got.value.0, got.value.1);
      assert Script(x) == [Script(x)[0]] + Script(x)[1..|Script(x)| - 1] + [Cleanup];
      assert Notices(x)[0..] == Notices(x);
    }
    ScriptGrammar(x);
  }
}
