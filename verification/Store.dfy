/** The daemon's SQLite tables. */
module Store {
  import opened Basics
  import opened Faults

  /** Instants and durations are in nanoseconds. */
  const SECOND := 1_000_000_000

  /** What is left of an instant after formatting and parsing it in RFC 3339 without fractions. */
  function WholeSecond(t: int): (s: int)
    ensures s <= t < s + SECOND && s % SECOND == 0
  {
    t - t % SECOND
  }

  datatype DocumentRow = DocumentRow(entryName: string, driveFileId: string, sourceFilename: string)

  /** A missing row and an empty expiry column both read as the zero state. */
  datatype SyncState = SyncState(
    startPageToken: string,
    channelId: string,
    channelToken: string,
    resourceId: string,
    expiresAt: Option<int>)

  const NO_SYNC := SyncState("", "", "", "", None)

  datatype DaemonStatus = DaemonStatus(lastError: string, processed: nat, skipped: nat, quarantine: nat)

  datatype Tables = Tables(documents: map<string, DocumentRow>, sync: SyncState, status: DaemonStatus) {
    /** INSERT OR IGNORE: an existing row for the hash wins. */
    function PutDocument(h: string, row: DocumentRow): Tables {
      if h in documents then this else this.(documents := documents[h := row])
    }

    function PutStartPageToken(token: string): Tables {
      this.(sync := sync.(startPageToken := token))
    }

    function PutChannel(id: string, token: string, resource: string, expiresAt: int): Tables {
      this.(sync := SyncState(sync.startPageToken, id, token, resource, Some(WholeSecond(expiresAt))))
    }

    function RecordPoll(): Tables {
      this.(status := status.(lastError := ""))
    }

    function RecordError(msg: string): Tables {
      this.(status := status.(lastError := msg))
    }

    /** None is the error for an unknown counter name. */
    function BumpCounter(counter: string): Option<Tables> {
      match counter
      case "processed" => Some(this.(status := status.(processed := status.processed + 1)))
      case "skipped" => Some(this.(status := status.(skipped := status.skipped + 1)))
      case "quarantine" => Some(this.(status := status.(quarantine := status.quarantine + 1)))
      case _ => None
    }
  }

  /** The first row for a hash stays, whatever is inserted for it later, and a row for one hash leaves those of
      all others alone. */
  lemma FirstRowStays(t: Tables, h: string, first: DocumentRow, later: DocumentRow, other: string)
    ensures h !in t.documents ==> t.PutDocument(h, first).PutDocument(h, later).documents == t.documents[h := first]
    ensures h in t.documents ==> t.PutDocument(h, later) == t
    ensures other != h ==>
              && (other in t.PutDocument(h, first).documents <==> other in t.documents)
              && (other in t.documents ==> t.PutDocument(h, first).documents[other] == t.documents[other])
    ensures t.PutDocument(h, first).sync == t.sync && t.PutDocument(h, first).status == t.status
  {
  }

  /** A registration and a page token that were stored are read back as they were, in whichever order they
      were stored, but for less than a second of the expiry. */
  lemma SyncRoundTrip(t: Tables, page: string, id: string, token: string, resource: string, expiresAt: int)
    ensures var s := t.PutStartPageToken(page).PutChannel(id, token, resource, expiresAt).sync;
            && s == t.PutChannel(id, token, resource, expiresAt).PutStartPageToken(page).sync
            && s == SyncState(page, id, token, resource, s.expiresAt)
            && s.expiresAt.Some? && expiresAt - SECOND < s.expiresAt.value <= expiresAt
  {
  }

  /** The statements, each of which meets a fate: a failed one may still have been committed. */
  class DB {
    var documents: map<string, DocumentRow>
    var sync: SyncState
    var status: DaemonStatus

    ghost function T(): Tables
      reads this
    {
      Tables(documents, sync, status)
    }

    constructor ()
      ensures T() == Tables(map[], NO_SYNC, DaemonStatus("", 0, 0, 0))
    {
      documents, sync, status := map[], NO_SYNC, DaemonStatus("", 0, 0, 0);
    }

    method HasHash(h: string, f: Fate) returns (found: Option<bool>)
      ensures found == if f.Ok? then Some(h in documents) else None
    {
      found := if f.Ok? then Some(h in documents) else None;
    }

    method PutDocument(h: string, row: DocumentRow, f: Fate) returns (ok: bool)
      modifies this`documents
      ensures ok == f.Ok?
      ensures T() == if Took(f) then old(T()).PutDocument(h, row) else old(T())
      ensures documents == if Took(f) && h !in old(documents) then old(documents)[h := row] else old(documents)
    {
      if Took(f) && h !in documents {
        documents := documents[h := row];
      }
      ok := f.Ok?;
    }

    method GetSyncState(f: Fate) returns (ok: bool, s: SyncState)
      ensures ok == f.Ok?
      ensures s == if f.Ok? then sync else NO_SYNC
    {
      ok, s := f.Ok?, if f.Ok? then sync else NO_SYNC;
    }

    method PutStartPageToken(token: string, f: Fate) returns (ok: bool)
      modifies this`sync
      ensures ok == f.Ok?
      ensures T() == if Took(f) then old(T()).PutStartPageToken(token) else old(T())
      ensures sync == if Took(f) then old(sync).(startPageToken := token) else old(sync)
    {
      if Took(f) {
        sync := sync.(startPageToken := token);
      }
      ok := f.Ok?;
    }

    method PutChannel(id: string, token: string, resource: string, expiresAt: int, f: Fate) returns (ok: bool)
      modifies this`sync
      ensures ok == f.Ok?
      ensures T() == if Took(f) then old(T()).PutChannel(id, token, resource, expiresAt) else old(T())
      ensures Took(f) ==>
                && sync.startPageToken == old(sync).startPageToken
                && sync.channelId == id && sync.channelToken == token && sync.resourceId == resource
                && sync.expiresAt.Some? && expiresAt - SECOND < sync.expiresAt.value <= expiresAt
                && sync.expiresAt.value % SECOND == 0
      ensures !Took(f) ==> sync == old(sync)
    {
      if Took(f) {
        sync := SyncState(sync.startPageToken, id, token, resource, Some(WholeSecond(expiresAt)));
      }
      ok := f.Ok?;
    }

    method RecordPoll(f: Fate) returns (ok: bool)
      modifies this`status
      ensures ok == f.Ok?
      ensures T() == if Took(f) then old(T()).RecordPoll() else old(T())
      ensures status == if Took(f) then old(status).(lastError := "") else old(status)
    {
      if Took(f) {
        status := status.(lastError := "");
      }
      ok := f.Ok?;
    }

    method RecordError(msg: string, f: Fate) returns (ok: bool)
      modifies this`status
      ensures ok == f.Ok?
      ensures T() == if Took(f) then old(T()).RecordError(msg) else old(T())
      ensures status == if Took(f) then old(status).(lastError := msg) else old(status)
    {
      if Took(f) {
        status := status.(lastError := msg);
      }
      ok := f.Ok?;
    }

    method BumpCounter(counter: string, f: Fate) returns (ok: bool)
      modifies this`status
      ensures ok == (f.Ok? && old(T()).BumpCounter(counter).Some?)
      ensures var after := old(T()).BumpCounter(counter);
              T() == if Took(f) && after.Some? then after.value else old(T())
      ensures var s := old(status);
              status == if !Took(f) then s
                        else if counter == "processed" then s.(processed := s.processed + 1)
                        else if counter == "skipped" then s.(skipped := s.skipped + 1)
                        else if counter == "quarantine" then s.(quarantine := s.quarantine + 1)
                        else s
      ensures ok <==> f.Ok? && (counter == "processed" || counter == "skipped" || counter == "quarantine")
    {
      if counter != "processed" && counter != "skipped" && counter != "quarantine" {
        return false;
      }
      if Took(f) {
        match counter {
          case "processed" => status := status.(processed := status.processed + 1);
          case "skipped" => status := status.(skipped := status.skipped + 1);
          case _ => status := status.(quarantine := status.quarantine + 1);
        }
      }
      ok := f.Ok?;
    }
  }
}
