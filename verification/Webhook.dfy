/** The push-notification endpoint. */
module Webhook {
  import opened Basics
  import opened Faults
  import opened Store
  import DriveStorage

  datatype Response = InternalError | Forbidden | Handshake | Accepted

  /** The credentials must be those of the stored channel; the registration handshake is only acknowledged. */
  function Respond(s: SyncState, id: string, token: string, resourceState: string): Response {
    if s.channelId == "" || id != s.channelId || token != s.channelToken then Forbidden
    else if resourceState == "sync" then Handshake
    else Accepted
  }

  class Handler {
    const db: DB
    const worker: DriveStorage.Worker

    constructor (db: DB, worker: DriveStorage.Worker)
      ensures this.db == db && this.worker == worker
    {
      this.db, this.worker := db, worker;
    }

    /** A scan is requested if and only if the stored state can be read, the credentials are those of the stored
        channel, and the notification is not the handshake. */
    method ServeHTTP(id: string, token: string, resourceState: string, f: Fate) returns (r: Response)
      modifies worker`requested
      ensures r == if f.Ok? then Respond(db.sync, id, token, resourceState) else InternalError
      ensures var s := db.sync;
              var known := f.Ok? && s.channelId != "" && id == s.channelId && token == s.channelToken;
              && worker.requested == (old(worker.requested) || (known && resourceState != "sync"))
              && (r == InternalError <==> !f.Ok?)
              && (r == Forbidden <==> f.Ok? && !known)
              && (r == Handshake <==> known && resourceState == "sync")
              && (r == Accepted <==> known && resourceState != "sync")
    {
      var ok, ss := db.GetSyncState(f);
      if !ok {
        return InternalError;
      }
      if ss.channelId == "" || id != ss.channelId || token != ss.channelToken {
        return Forbidden;
      }
      if resourceState == "sync" {
        return Handshake;
      }
      worker.Enqueue();
      return Accepted;
    }
  }
}
