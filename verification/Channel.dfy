/** The push-notification channel: registration, renewal before expiry, and what bounds both. */
module Channel {
  import opened Basics
  import opened Faults
  import opened Store

  const MINUTE := 60 * SECOND

  /** Drive's answer to a registration: it may grant any expiry. */
  datatype Watch = Refused | Granted(id: string, resource: string, grantedAt: int, expiresAt: int)

  /** What one call of EnsureChannel meets: the fates of its two statements, the clock at its freshness
      check, the random credentials it draws, and Drive's answer. */
  datatype Attempt = Attempt(read: Fate, checkedAt: int, token: string, watch: Watch, put: Fate)

  /** Start-up: the page token statement and request, then the first attempt. */
  datatype Boot = Boot(read: Fate, fetched: Option<string>, put: Fate, attempt: Attempt)

  /** One iteration of the renewal loop: the state is read, the timer fires, the channel is renewed. */
  datatype Turn = Turn(read: Fate, readAt: int, firedAt: int, attempt: Attempt)

  datatype Registration = Registration(id: string, token: string, checkedAt: int, grantedAt: int, expiresAt: int)

  /** `log` are the registrations Drive granted, `stopped` the channels it was asked to stop. */
  datatype Manager = Manager(tables: Tables, log: seq<Registration>, stopped: seq<string>)
  {
    function Read(f: Fate): SyncState {
      if f.Ok? then tables.sync else NO_SYNC
    }

    function EnsureStartPageToken(b: Boot): Manager {
      if !b.read.Ok? || tables.sync.startPageToken != "" || b.fetched.None? || !Took(b.put) then this
      else this.(tables := tables.PutStartPageToken(b.fetched.value))
    }

    function EnsureChannel(lead: int, a: Attempt): Manager {
      if !a.read.Ok? || Fresh(tables.sync, lead, a.checkedAt) || tables.sync.startPageToken == "" || a.watch.Refused? then this
      else
        var r := Registration(a.watch.id, a.token, a.checkedAt, a.watch.grantedAt, a.watch.expiresAt);
        Manager(if Took(a.put) then tables.PutChannel(r.id, r.token, a.watch.resource, r.expiresAt) else tables, log + [r], stopped)
    }

    function Renew(lead: int, t: Turn): Manager {
      var ss := Read(t.read);
      this.(stopped := if ss.channelId != "" then stopped + [ss.channelId] else stopped).EnsureChannel(lead, t.attempt)
    }

    function Start(lead: int, b: Boot): Manager {
      EnsureStartPageToken(b).EnsureChannel(lead, b.attempt)
    }

    /** The last act of a cancelled run: Drive is asked to stop the stored channel, whose row stays. */
    function Stop(last: Fate): Manager {
      var id := Read(last).channelId;
      this.(stopped := if id != "" then stopped + [id] else stopped)
    }
  }

  /** A channel is stored and the renewal window has not begun. */
  predicate Fresh(s: SyncState, lead: int, now: int) {
    s.channelId != "" && s.expiresAt.Some? && now < s.expiresAt.value - lead
  }

  /** How long the loop sleeps after reading s. */
  function Wait(s: SyncState, lead: int, now: int): int {
    var wait := if s.expiresAt.Some? then s.expiresAt.value - lead - now else MINUTE;
    if wait < 0 then 0 else wait
  }

  function Turns(m: Manager, lead: int, turns: seq<Turn>): Manager {
    if turns == [] then m
    else Turns(m, lead, turns[..|turns| - 1]).Renew(lead, turns[|turns| - 1])
  }

  function RunFor(m: Manager, lead: int, b: Boot, turns: seq<Turn>): Manager {
    Turns(m.Start(lead, b), lead, turns)
  }

  /** One run of the daemon, up to its stop; a final statement that fails leaves Drive unasked. */
  datatype Session = Session(boot: Boot, turns: seq<Turn>, last: Fate)

  function Sessions(m: Manager, lead: int, sessions: seq<Session>): Manager {
    if sessions == [] then m
    else
      var s := sessions[|sessions| - 1];
      RunFor(Sessions(m, lead, sessions[..|sessions| - 1]), lead, s.boot, s.turns).Stop(s.last)
  }

  /** The mutable manager. `Run` is given everything the environment does until the context is cancelled. */
  class ChannelManager {
    const db: DB
    const webhookURL: string
    const renewLeadTime: int
    var log: seq<Registration>
    var stopped: seq<string>

    ghost function M(): Manager
      reads this, db
    {
      Manager(db.T(), log, stopped)
    }

    constructor (db: DB, webhookURL: string, renewLeadTime: int)
      ensures this.db == db && this.webhookURL == webhookURL && this.renewLeadTime == renewLeadTime
      ensures M() == Manager(db.T(), [], [])
    {
      this.db, this.webhookURL, this.renewLeadTime := db, webhookURL, renewLeadTime;
      log, stopped := [], [];
    }

    method EnsureStartPageToken(b: Boot)
      modifies db`sync
      ensures M() == old(M()).EnsureStartPageToken(b)
    {
      var ok, ss := db.GetSyncState(b.read);
      if !ok {
        return;
      }
      if ss.startPageToken != "" {
        return;
      }
      if b.fetched.None? {
        return;
      }
      var _ := db.PutStartPageToken(b.fetched.value, b.put);
    }

    method EnsureChannel(a: Attempt)
      modifies this`log, db`sync
      ensures M() == old(M()).EnsureChannel(renewLeadTime, a)
    {
      var ok, ss := db.GetSyncState(a.read);
      if !ok {
        return;
      }
      if ss.channelId != "" && ss.expiresAt.Some? && a.checkedAt < ss.expiresAt.value - renewLeadTime {
        return;
      }
      if ss.startPageToken == "" {
        return;
      }
      if a.watch.Refused? {
        return;
      }
      log := log + [Registration(a.watch.id, a.token, a.checkedAt, a.watch.grantedAt, a.watch.expiresAt)];
      var _ := db.PutChannel(a.watch.id, a.token, a.watch.resource, a.watch.expiresAt, a.put);
    }

    /** `last` is the statement with which a cancelled run looks up the channel it stops. */
    method Run(b: Boot, turns: seq<Turn>, last: Fate)
      modifies this, db`sync
      ensures webhookURL == "" ==> M() == old(M())
      ensures webhookURL != "" ==> M() == RunFor(old(M()), renewLeadTime, b, turns).Stop(last)
    {
      if webhookURL == "" {
        return;
      }
      EnsureStartPageToken(b);
      EnsureChannel(b.attempt);
      ghost var started := M();
      for i := 0 to |turns|
        invariant M() == Turns(started, renewLeadTime, turns[..i])
      {
        assert turns[..i + 1][..i] == turns[..i];
        var t := turns[i];
        var _, ss := db.GetSyncState(t.read);
        if ss.channelId != "" {
          stopped := stopped + [ss.channelId];
        }
        EnsureChannel(t.attempt);
      }
      assert turns[..|turns|] == turns;
      var _, ss := db.GetSyncState(last);
      if ss.channelId != "" {
        stopped := stopped + [ss.channelId];
      }
    }
  }

  // ----- one attempt, written out ----------------------------------------------------------

  /** What start-up does to the page token: a stored one stays; otherwise, if the state can be read, one is
      fetched, and it is stored if that took place. */
  lemma StartStoresToken(m: Manager, lead: int, b: Boot)
    ensures var before, after := m.tables.sync.startPageToken, m.Start(lead, b).tables.sync.startPageToken;
            after == if before == "" && b.read.Ok? && b.fetched.Some? && Took(b.put) then b.fetched.value else before
  {
  }

  /** Exactly when an attempt registers a channel, with which credentials, and what it stores of it. */
  lemma AttemptRegistersIff(m: Manager, lead: int, a: Attempt)
    ensures var m', s := m.EnsureChannel(lead, a), m.tables.sync;
            var registers :=
              && a.read.Ok? && s.startPageToken != "" && a.watch.Granted?
              && (s.channelId == "" || s.expiresAt == None || a.checkedAt >= s.expiresAt.value - lead);
            && m'.stopped == m.stopped && m'.tables.documents == m.tables.documents && m'.tables.status == m.tables.status
            && (if registers then
                  && |m'.log| == |m.log| + 1 && m'.log[..|m.log|] == m.log
                  && m'.log[|m.log|] == Registration(a.watch.id, a.token, a.checkedAt, a.watch.grantedAt, a.watch.expiresAt)
                else m'.log == m.log)
            && (if registers && Took(a.put) then
                  && m'.tables.sync == SyncState(s.startPageToken, a.watch.id, a.token, a.watch.resource, m'.tables.sync.expiresAt)
                  && m'.tables.sync.expiresAt.Some?
                  && a.watch.expiresAt - 1_000_000_000 < m'.tables.sync.expiresAt.value <= a.watch.expiresAt
                else m'.tables.sync == s)
  {
  }

  /** Before the next attempt the loop sleeps until the lead time before the stored expiry, if that is still to
      come, and a minute if no expiry is stored. */
  lemma WaitExact(s: SyncState, lead: int, now: int)
    ensures var due := now + Wait(s, lead, now);
            match s.expiresAt
            case None => due == now + 60 * 1_000_000_000
            case Some(e) => due >= now && due >= e - lead && (due == now || due == e - lead)
  {
  }

  /** A first run, with nothing stored, that can fetch and store a page token and is granted a channel registers
      one at start-up. */
  lemma FirstRunRegisters(m: Manager, lead: int, b: Boot)
    requires m.tables.sync == NO_SYNC && b.read.Ok? && b.fetched.Some? && b.fetched.value != "" && Took(b.put)
    requires b.attempt.read.Ok? && b.attempt.watch.Granted? && Took(b.attempt.put)
    ensures var m', a := m.Start(lead, b), b.attempt;
            && m'.log == m.log + [Registration(a.watch.id, a.token, a.checkedAt, a.watch.grantedAt, a.watch.expiresAt)]
            && m'.tables.sync.startPageToken == b.fetched.value
            && m'.tables.sync.channelId == a.watch.id && m'.tables.sync.channelToken == a.token
  {
  }

  /** Start-up has a page token: it was stored, or it is fetched and stored. */
  predicate HasToken(m: Manager, b: Boot) {
    || m.tables.sync.startPageToken != ""
    || (b.read.Ok? && b.fetched.Some? && b.fetched.value != "" && Took(b.put))
  }

  // ----- spacing and orphans -----------------------------------------------------------

  /** The channel was granted under a non-empty id and its row was stored. */
  ghost predicate Stored(a: Attempt) {
    a.watch.Granted? ==> a.watch.id != "" && Took(a.put)
  }

  ghost predicate AllStored(b: Boot, turns: seq<Turn>) {
    Stored(b.attempt) && forall i | 0 <= i < |turns| :: Stored(turns[i].attempt)
  }

  /** No registration happens before the last one is within the lead time, and a second, of its end. */
  ghost predicate Spaced(log: seq<Registration>, lead: int) {
    forall i | 0 <= i < |log| - 1 :: log[i + 1].checkedAt > log[i].expiresAt - lead - SECOND
  }

  /** The stored channel is the last registered one. */
  ghost predicate Current(m: Manager) {
    m.log != [] ==>
      var r := m.log[|m.log| - 1];
      && m.tables.sync.channelId == r.id != ""
      && m.tables.sync.channelToken == r.token
      && m.tables.sync.expiresAt == Some(WholeSecond(r.expiresAt))
  }

  lemma EnsureSpaced(m: Manager, lead: int, a: Attempt)
    requires Stored(a) && Current(m) && Spaced(m.log, lead)
    ensures Current(m.EnsureChannel(lead, a)) && Spaced(m.EnsureChannel(lead, a).log, lead)
  {
    var log' := m.EnsureChannel(lead, a).log;
    if log' != m.log {
      forall i | 0 <= i < |log'| - 1 ensures log'[i + 1].checkedAt > log'[i].expiresAt - lead - SECOND {
        if i + 1 < |m.log| {
          assert m.log[i + 1].checkedAt > m.log[i].expiresAt - lead - SECOND;
        }
      }
    }
  }

  lemma {:induction false} RunSpaced(m: Manager, lead: int, b: Boot, turns: seq<Turn>)
    requires Current(m) && Spaced(m.log, lead) && AllStored(b, turns)
    ensures var m' := RunFor(m, lead, b, turns); Spaced(m'.log, lead) && Current(m')
    decreases |turns|
  {
    EnsureSpaced(m.EnsureStartPageToken(b), lead, b.attempt);
    if turns != [] {
      var init, t := turns[..|turns| - 1], turns[|turns| - 1];
      RunSpaced(m, lead, b, init);
      var before := RunFor(m, lead, b, init);
      var id := before.Read(t.read).channelId;
      var stopping := before.(stopped := if id != "" then before.stopped + [id] else before.stopped);
      EnsureSpaced(stopping, lead, t.attempt);
    }
  }

  ghost predicate SessionsStored(sessions: seq<Session>) {
    forall i | 0 <= i < |sessions| :: AllStored(sessions[i].boot, sessions[i].turns)
  }

  /** In every sequence of runs that store their channels, however often Drive refuses and whatever else fails,
      successive registrations are spaced by the life Drive granted, less the lead time and the second lost to
      the stored precision; so a replaced channel, one inherited from an earlier run included, had less than
      that left to live when it was replaced, even if it could not be stopped. */
  lemma {:induction false} RegistrationsSpaced(m: Manager, lead: int, sessions: seq<Session>)
    requires Current(m) && Spaced(m.log, lead) && SessionsStored(sessions)
    ensures var m' := Sessions(m, lead, sessions); Spaced(m'.log, lead) && Current(m')
    decreases |sessions|
  {
    if sessions != [] {
      var init, s := sessions[..|sessions| - 1], sessions[|sessions| - 1];
      RegistrationsSpaced(m, lead, init);
      RunSpaced(Sessions(m, lead, init), lead, s.boot, s.turns);
    }
  }

  ghost predicate ReplacedStopped(m: Manager) {
    forall i | 0 <= i < |m.log| - 1 :: m.log[i].id in m.stopped
  }

  /** If the loop can read the state before each renewal, every channel it replaced was asked to stop first. */
  lemma {:induction false} ReplacedWereStopped(m: Manager, lead: int, b: Boot, turns: seq<Turn>)
    requires m.log == [] && AllStored(b, turns)
    requires forall i | 0 <= i < |turns| :: turns[i].read.Ok?
    ensures ReplacedStopped(RunFor(m, lead, b, turns))
    decreases |turns|
  {
    if turns != [] {
      var init, t := turns[..|turns| - 1], turns[|turns| - 1];
      ReplacedWereStopped(m, lead, b, init);
      RunSpaced(m, lead, b, init);
      var before, after := RunFor(m, lead, b, init), RunFor(m, lead, b, turns);
      forall i | 0 <= i < |after.log| - 1 ensures after.log[i].id in after.stopped {
        assert after.log[i] == before.log[i];
        if i < |before.log| - 1 {
          assert before.log[i].id in before.stopped;
        }
      }
    }
  }

  lemma {:induction false} SpacedBounded(log: seq<Registration>, lead: int, life: int, i: nat, j: nat)
    requires Spaced(log, lead) && i < j < |log|
    requires forall k | 0 <= k < |log| :: log[k].expiresAt - log[k].checkedAt >= life
    ensures (j - i) * (life - lead - SECOND) < log[j].checkedAt - log[i].checkedAt
    decreases j - i
  {
    assert log[j].checkedAt > log[j - 1].expiresAt - lead - SECOND;
    if i + 1 < j {
      SpacedBounded(log, lead, life, i, j - 1);
      assert (j - i) * (life - lead - SECOND) == (j - 1 - i) * (life - lead - SECOND) + (life - lead - SECOND);
    }
  }

  /** Registrations in any stretch of any sequence of runs that store their channels are linearly bounded: if
      every granted life is at least `life` beyond the check that led to it, n + 1 of them take more than
      n * (life - lead - 1s), however often Drive refuses in between and the daemon is restarted. */
  lemma RegistrationsBounded(m: Manager, lead: int, sessions: seq<Session>, life: int, i: nat, j: nat)
    requires Current(m) && Spaced(m.log, lead) && SessionsStored(sessions)
    requires var log := Sessions(m, lead, sessions).log;
             i < j < |log| && forall k | 0 <= k < |log| :: log[k].expiresAt - log[k].checkedAt >= life
    ensures var log := Sessions(m, lead, sessions).log;
            (j - i) * (life - lead - SECOND) < log[j].checkedAt - log[i].checkedAt
  {
    RegistrationsSpaced(m, lead, sessions);
    SpacedBounded(Sessions(m, lead, sessions).log, lead, life, i, j);
  }

  /** The exact condition for an immediate re-registration: once a channel was granted, the next attempt that
      can read the state and that Drive grants registers again if and only if the channel was not stored, or
      its stored expiry is within the lead time. */
  lemma RegistersAgainIff(m: Manager, lead: int, a: Attempt, a': Attempt)
    requires |m.EnsureChannel(lead, a).log| > |m.log| && a.watch.id != "" && a.checkedAt <= a'.checkedAt
    requires a'.read.Ok? && a'.watch.Granted?
    ensures var m1 := m.EnsureChannel(lead, a);
            |m1.EnsureChannel(lead, a').log| > |m1.log| <==>
            !Took(a.put) || a'.checkedAt >= WholeSecond(a.watch.expiresAt) - lead
  {
    var m1 := m.EnsureChannel(lead, a);
    assert m1.log == m.log + [m1.log[|m.log|]];
  }

  // ----- timing --------------------------------------------------------------------------

  /** The attempt reads the state, finds no fresh channel, and has a page token: it asks Drive for one. */
  predicate Asks(m: Manager, lead: int, a: Attempt) {
    a.read.Ok? && !Fresh(m.tables.sync, lead, a.checkedAt) && m.tables.sync.startPageToken != ""
  }

  /** The last instant an attempt made in m is known to have reached. */
  function EndOf(m: Manager, lead: int, a: Attempt): int {
    if Asks(m, lead, a) && a.watch.Granted? then a.watch.grantedAt else a.checkedAt
  }

  /** The same for a run. */
  function EndOfRun(m: Manager, lead: int, b: Boot, turns: seq<Turn>): int {
    if turns == [] then EndOf(m.EnsureStartPageToken(b), lead, b.attempt)
    else EndOf(RunFor(m, lead, b, turns[..|turns| - 1]), lead, turns[|turns| - 1].attempt)
  }

  /** The clock does not go back, and timers do not fire early. */
  ghost predicate Timely(m: Manager, lead: int, b: Boot, turns: seq<Turn>)
    decreases |turns|
  {
    if turns == [] then b.attempt.checkedAt <= EndOfRun(m, lead, b, turns)
    else
      var init, t := turns[..|turns| - 1], turns[|turns| - 1];
      && Timely(m, lead, b, init)
      && EndOfRun(m, lead, b, init) <= t.readAt
      && t.readAt + Wait(RunFor(m, lead, b, init).Read(t.read), lead, t.readAt) <= t.firedAt <= t.attempt.checkedAt
      && t.attempt.checkedAt <= EndOfRun(m, lead, b, turns)
  }

  /** Statements and registrations succeed, each grant outlives `latency` by a second, and from one grant
      (or skipped start-up attempt) to the next the loop loses less than `latency` besides sleeping. */
  ghost predicate Prompt(m: Manager, lead: int, latency: int, b: Boot, turns: seq<Turn>)
    decreases |turns|
  {
    if turns == [] then b.read.Ok? && Succeeds(m.EnsureStartPageToken(b), lead, b.attempt, latency)
    else
      var init, t := turns[..|turns| - 1], turns[|turns| - 1];
      var before := RunFor(m, lead, b, init);
      && Prompt(m, lead, latency, b, init)
      && t.read.Ok? && Succeeds(before, lead, t.attempt, latency)
      && Lost(before, lead, EndOfRun(m, lead, b, init), t) < latency
  }

  ghost predicate Succeeds(m: Manager, lead: int, a: Attempt, latency: int) {
    && a.read.Ok?
    && (Asks(m, lead, a) ==>
          && a.put.Ok? && a.watch.Granted? && a.watch.id != ""
          && a.watch.expiresAt - a.watch.grantedAt >= latency + SECOND)
  }

  /** The time a turn takes from `since`, when the attempt before it ended, besides sleeping. */
  function Lost(m: Manager, lead: int, since: int, t: Turn): int {
    (t.readAt - since) + (EndOf(m, lead, t.attempt) - t.readAt - Wait(m.tables.sync, lead, t.readAt))
  }

  /** Each new channel is granted before the stored expiry of the last. */
  ghost predicate Covered(log: seq<Registration>) {
    forall i | 0 <= i < |log| - 1 :: log[i + 1].grantedAt < WholeSecond(log[i].expiresAt)
  }

  /** The stored channel has more than `latency` to live after the instant `now`. */
  ghost predicate Live(m: Manager, now: int, latency: int) {
    var s := m.tables.sync;
    s.channelId != "" && s.startPageToken != "" && s.expiresAt.Some? && s.expiresAt.value > now + latency
  }

  /** A turn that starts from a live channel, whoever registered it, replaces it before it expires. */
  lemma TurnCovers(m: Manager, lead: int, latency: int, since: int, t: Turn)
    requires latency <= lead && Live(m, since, latency)
    requires t.read.Ok? && Succeeds(m, lead, t.attempt, latency)
    requires since <= t.readAt && t.readAt + Wait(m.tables.sync, lead, t.readAt) <= t.firedAt <= t.attempt.checkedAt
    requires t.attempt.checkedAt <= EndOf(m, lead, t.attempt) && Lost(m, lead, since, t) < latency
    ensures var m' := m.Renew(lead, t);
            && Live(m', EndOf(m, lead, t.attempt), latency) && Current(m')
            && |m'.log| == |m.log| + 1 && m'.log[..|m.log|] == m.log
            && m'.log[|m.log|].grantedAt < m.tables.sync.expiresAt.value
  {
    assert !Fresh(m.tables.sync, lead, t.attempt.checkedAt);
  }

  /** The channel an earlier run left is still fresh at start-up. */
  ghost predicate Inherits(m: Manager, lead: int, b: Boot) {
    b.attempt.read.Ok? && Fresh(m.tables.sync, lead, b.attempt.checkedAt)
  }

  lemma StartLive(m: Manager, lead: int, latency: int, b: Boot)
    requires latency <= lead && Timely(m, lead, b, []) && Prompt(m, lead, latency, b, [])
    requires m.log == [] && HasToken(m, b)
    ensures var m' := m.Start(lead, b);
            && Live(m', EndOfRun(m, lead, b, []), latency) && Current(m')
            && (if Inherits(m, lead, b) then m'.log == [] && m'.tables.sync.expiresAt == m.tables.sync.expiresAt else |m'.log| == 1)
  {
  }

  lemma CoveredSnoc(log: seq<Registration>, log': seq<Registration>)
    requires Covered(log) && |log'| == |log| + 1 && log'[..|log|] == log
    requires log != [] ==> log'[|log|].grantedAt < WholeSecond(log[|log| - 1].expiresAt)
    ensures Covered(log')
  {
    forall i | 0 <= i < |log'| - 1 ensures log'[i + 1].grantedAt < WholeSecond(log'[i].expiresAt) {
      assert log'[i] == log[i];
      if i + 1 < |log| {
        assert log'[i + 1] == log[i + 1];
      }
    }
  }

  /** If start-up has a page token, statements and registrations succeed, and the loop's own delays stay within
      the lead time, the stored channel never expires before it is replaced: at the end of every turn it is
      live, each registration is granted before the stored expiry of the one before, and the first one before
      the expiry of the channel an earlier run left, if that was still fresh. Every turn registers once. */
  lemma {:induction false} NeverExpires(m: Manager, lead: int, latency: int, b: Boot, turns: seq<Turn>)
    requires m.log == [] && latency <= lead && Timely(m, lead, b, turns) && Prompt(m, lead, latency, b, turns)
    requires HasToken(m, b)
    ensures var m' := RunFor(m, lead, b, turns);
            && Live(m', EndOfRun(m, lead, b, turns), latency) && Current(m') && Covered(m'.log)
            && |m'.log| == |turns| + (if Inherits(m, lead, b) then 0 else 1)
            && (Inherits(m, lead, b) ==>
                  if turns == [] then m'.tables.sync.expiresAt == m.tables.sync.expiresAt
                  else m'.log[0].grantedAt < m.tables.sync.expiresAt.value)
    decreases |turns|
  {
    if turns == [] {
      StartLive(m, lead, latency, b);
    } else {
      var init, t := turns[..|turns| - 1], turns[|turns| - 1];
      NeverExpires(m, lead, latency, b, init);
      var m1 := RunFor(m, lead, b, init);
      TurnCovers(m1, lead, latency, EndOfRun(m, lead, b, init), t);
      var m' := m1.Renew(lead, t);
      CoveredSnoc(m1.log, m'.log);
      if |m1.log| > 0 {
        assert m'.log[0] == m1.log[0];
      }
    }
  }

  // ----- restarts -----------------------------------------------------------------------------

  /** Every attempt of the run can read the state and would be granted a channel. */
  ghost predicate Willing(b: Boot, turns: seq<Turn>) {
    && b.attempt.read.Ok? && b.attempt.watch.Granted?
    && forall i | 0 <= i < |turns| :: turns[i].attempt.read.Ok? && turns[i].attempt.watch.Granted?
  }

  ghost predicate AllBefore(b: Boot, turns: seq<Turn>, due: int) {
    b.attempt.checkedAt < due && forall i | 0 <= i < |turns| :: turns[i].attempt.checkedAt < due
  }

  lemma {:induction false} RegistersOnceDue(m: Manager, lead: int, b: Boot, turns: seq<Turn>)
    requires Willing(b, turns)
    requires m.tables.sync.channelId != "" && m.tables.sync.expiresAt.Some? && m.tables.sync.startPageToken != ""
    ensures var m' := RunFor(m, lead, b, turns);
            if AllBefore(b, turns, m.tables.sync.expiresAt.value - lead) then m'.log == m.log && m'.tables == m.tables
            else |m'.log| > |m.log|
    decreases |turns|
  {
    if turns != [] {
      RegistersOnceDue(m, lead, b, turns[..|turns| - 1]);
    }
  }

  /** A graceful stop leaves the row of the channel it had Drive stop. After any sequence of runs of which the
      last one stopped gracefully, the next run takes that channel for fresh: it registers another one if and
      only if one of its attempts comes no earlier than the lead time before the stored expiry, and until then
      the channel it relies on is one that Drive was asked to stop. */
  lemma RestartDeafIff(m: Manager, lead: int, sessions: seq<Session>, b: Boot, turns: seq<Turn>)
    requires sessions != [] && sessions[|sessions| - 1].last.Ok? && Willing(b, turns)
    requires var s := Sessions(m, lead, sessions).tables.sync; s.channelId != "" && s.expiresAt.Some? && s.startPageToken != ""
    ensures var m0 := Sessions(m, lead, sessions);
            var m1 := RunFor(m0, lead, b, turns);
            var quiet := AllBefore(b, turns, m0.tables.sync.expiresAt.value - lead);
            && m0.tables.sync.channelId in m0.stopped
            && (m1.log == m0.log <==> quiet)
            && (quiet ==> m1.tables.sync.channelId == m0.tables.sync.channelId)
  {
    RegistersOnceDue(Sessions(m, lead, sessions), lead, b, turns);
  }

  // ----- start-up and failure ----------------------------------------------------------------

  /** A run registers a channel only if it has a page token once start-up is over: the loop never fetches one
      later, and without one it never changes the stored state. */
  lemma {:induction false} NoTokenNoChannel(m: Manager, lead: int, b: Boot, turns: seq<Turn>)
    requires !HasToken(m, b)
    ensures var m' := RunFor(m, lead, b, turns); m'.log == m.log && m'.tables == m.tables
    decreases |turns|
  {
    if turns != [] {
      NoTokenNoChannel(m, lead, b, turns[..|turns| - 1]);
    }
  }

  /** In a timely run in which every statement and registration succeeds and the timer has fired once, having
      the page token at start-up is also enough. */
  lemma {:induction false} RegistersIffToken(m: Manager, lead: int, latency: int, b: Boot, turns: seq<Turn>)
    requires m.log == [] && turns != [] && Timely(m, lead, b, turns) && Prompt(m, lead, latency, b, turns)
    ensures RunFor(m, lead, b, turns).log != [] <==> HasToken(m, b)
    decreases |turns|
  {
    if !HasToken(m, b) {
      NoTokenNoChannel(m, lead, b, turns);
    } else if |turns| > 1 {
      RegistersIffToken(m, lead, latency, b, turns[..|turns| - 1]);
    } else {
      assert turns[..0] == [];
      assert RunFor(m, lead, b, []) == m.Start(lead, b);
      StartStoresToken(m, lead, b);
    }
  }

  lemma {:induction false} RefusedStops(m: Manager, lead: int, turns: seq<Turn>)
    requires m.tables.sync.channelId != ""
    requires forall i | 0 <= i < |turns| :: turns[i].read.Ok? && turns[i].attempt.watch.Refused?
    ensures var m' := Turns(m, lead, turns);
            && m'.tables == m.tables && m'.stopped == m.stopped + seq(|turns|, i => m.tables.sync.channelId)
    decreases |turns|
  {
    if turns != [] {
      RefusedStops(m, lead, turns[..|turns| - 1]);
    }
  }

  /** Refused renewals do not back off: however many there were, the old row stays, so how long the loop sleeps
      next depends only on that row. It does not sleep at all if and only if the stored channel is due, and
      without a stored expiry it always sleeps a minute. If it can read the row, it stops the same channel
      every time. */
  lemma {:induction false} RefusalsDoNotBackOff(m: Manager, lead: int, turns: seq<Turn>, now: int)
    requires forall i | 0 <= i < |turns| :: turns[i].attempt.watch.Refused?
    ensures var m' := Turns(m, lead, turns);
            var s := m'.tables.sync;
            && m'.tables == m.tables && m'.log == m.log
            && (if s.expiresAt.Some? then Wait(s, lead, now) == 0 <==> now >= s.expiresAt.value - lead
                else Wait(s, lead, now) == MINUTE)
            && (s.channelId != "" && (forall i | 0 <= i < |turns| :: turns[i].read.Ok?) ==>
                  m'.stopped == m.stopped + seq(|turns|, i => s.channelId))
    decreases |turns|
  {
    if turns != [] {
      RefusalsDoNotBackOff(m, lead, turns[..|turns| - 1], now);
      if m.tables.sync.channelId != "" && forall i | 0 <= i < |turns| :: turns[i].read.Ok? {
        RefusedStops(m, lead, turns);
      }
    }
  }
}
