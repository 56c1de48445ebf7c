/** The daemon's goroutines as interleaved steps: producers and webhook handlers enqueue scan requests on a
    channel of capacity one, the worker takes them, and shutdown may come at any time. */
module Wakeup {
  import opened Basics
  import opened Store
  import opened Webhook

  /** Where the worker is: in its select, between taking a request and listing the inbox, scanning with some
      files left, or returned. */
  datatype Pc = Idle | Taken | Scanning(left: nat) | Stopped

  /** `cleared` are the requests whose handler has passed the credential check and is about to enqueue;
      `delivered` are all requests ever checked. */
  datatype State = State(
    sync: SyncState,
    delivered: set<nat>,
    cleared: set<nat>,
    pending: bool,
    pc: Pc,
    cancelled: bool)

  datatype Step =
    | Register(id: string, token: string, resource: string, expiresAt: int)
    | Deliver(request: nat, id: string, token: string, resourceState: string)
    | Fire(request: nat)
    | Poll
    | Cancel
    | Take
    | List(files: nat)
    | ListFails
    | HandleFile
    | EndScan
    | Quit
    | Halt

  /** Producers' and handlers' sends. */
  predicate IsEnqueue(x: Step) {
    x.Poll? || x.Fire?
  }

  /** A call of ListInbox begins. */
  predicate IsListing(x: Step) {
    x.List? || x.ListFails?
  }

  predicate IsWorker(x: Step) {
    x.Take? || x.List? || x.ListFails? || x.HandleFile? || x.EndScan? || x.Quit? || x.Halt?
  }

  predicate Enabled(s: State, x: Step) {
    match x
    case Deliver(r, _, _, _) => r !in s.delivered
    case Fire(r) => r in s.cleared
    case Take => s.pc.Idle? && s.pending
    case Halt => s.pc.Idle? && s.cancelled
    case List(_) => s.pc.Taken?
    case ListFails => s.pc.Taken?
    case HandleFile => s.pc.Scanning? && s.pc.left > 0
    case Quit => s.pc.Scanning? && s.pc.left > 0 && s.cancelled
    case EndScan => s.pc == Scanning(0)
    case _ => true
  }

  /** When both are ready, the select may pick the request or the cancellation. */
  function Next(s: State, x: Step): State
    requires Enabled(s, x)
  {
    match x
    case Register(id, token, resource, expiresAt) =>
      s.(sync := SyncState(s.sync.startPageToken, id, token, resource, Some(WholeSecond(expiresAt))))
    case Deliver(r, id, token, state) =>
      s.(delivered := s.delivered + {r},
         cleared := if Respond(s.sync, id, token, state) == Accepted then s.cleared + {r} else s.cleared)
    case Fire(r) => s.(cleared := s.cleared - {r}, pending := true)
    case Poll => s.(pending := true)
    case Cancel => s.(cancelled := true)
    case Take => s.(pending := false, pc := Taken)
    case List(n) => s.(pc := Scanning(n))
    case ListFails => s.(pc := Idle)
    case HandleFile => s.(pc := Scanning(s.pc.left - 1))
    case EndScan => s.(pc := Idle)
    case Quit => s.(pc := Idle)
    case Halt => s.(pc := Stopped)
  }

  const INIT := State(NO_SYNC, {}, {}, false, Idle, false)

  /** The state after a sequence of steps, if each was possible. */
  function Run(trace: seq<Step>): Option<State> {
    if trace == [] then Some(INIT)
    else
      var before := Run(trace[..|trace| - 1]);
      var x := trace[|trace| - 1];
      if before.Some? && Enabled(before.value, x) then Some(Next(before.value, x)) else None
  }

  ghost predicate Possible(trace: seq<Step>) {
    Run(trace).Some?
  }

  lemma {:induction false} PrefixPossible(trace: seq<Step>, n: nat)
    requires Possible(trace) && n <= |trace|
    ensures Possible(trace[..n])
    decreases |trace|
  {
    if n < |trace| {
      PrefixPossible(trace[..|trace| - 1], n);
      assert trace[..|trace| - 1][..n] == trace[..n];
    } else {
      assert trace[..n] == trace;
    }
  }

  // ----- no wake-up is lost --------------------------------------------------------------

  ghost predicate ListedAfter(trace: seq<Step>, i: nat) {
    exists j :: i < j < |trace| && IsListing(trace[j])
  }

  /** At every later moment, an enqueue is covered: a token is pending, the worker has taken one and is about
      to list, a listing began after the enqueue, or the worker has returned. */
  lemma {:induction false} NoLostWakeup(trace: seq<Step>, i: nat)
    requires Possible(trace) && i < |trace| && IsEnqueue(trace[i])
    ensures var s := Run(trace).value;
            s.pending || s.pc.Taken? || s.pc.Stopped? || ListedAfter(trace, i)
    decreases |trace|
  {
    var n := |trace| - 1;
    if i < n {
      NoLostWakeup(trace[..n], i);
      if ListedAfter(trace[..n], i) {
        var j :| i < j < n && IsListing(trace[..n][j]);
        assert trace[j] == trace[..n][j];
      } else if IsListing(trace[n]) {
        assert ListedAfter(trace, i);
      }
    }
  }

  function CountTakes(trace: seq<Step>): nat {
    if trace == [] then 0
    else CountTakes(trace[..|trace| - 1]) + (if trace[|trace| - 1].Take? then 1 else 0)
  }

  /** Enqueues that found the channel empty. */
  ghost function CountSends(trace: seq<Step>): nat {
    if trace == [] then 0
    else
      var init := trace[..|trace| - 1];
      CountSends(init)
      + (if IsEnqueue(trace[|trace| - 1]) && Possible(init) && !Run(init).value.pending then 1 else 0)
  }

  /** Tokens are conserved: each send that was not dropped has been taken or is pending. */
  lemma {:induction false} TokensConserved(trace: seq<Step>)
    requires Possible(trace)
    ensures CountTakes(trace) + (if Run(trace).value.pending then 1 else 0) == CountSends(trace)
    decreases |trace|
  {
    if trace != [] {
      TokensConserved(trace[..|trace| - 1]);
    }
  }

  /** After the last enqueue at most one token is received, so any burst costs at most one further scan. */
  lemma {:induction false} AtMostOneTakeAfter(trace: seq<Step>, i: nat)
    requires Possible(trace) && i <= |trace|
    requires forall j | i <= j < |trace| :: !IsEnqueue(trace[j])
    ensures CountTakes(trace) + (if Run(trace).value.pending then 1 else 0) <= CountTakes(trace[..i]) + 1
    decreases |trace|
  {
    if i < |trace| {
      var init := trace[..|trace| - 1];
      AtMostOneTakeAfter(init, i);
      assert init[..i] == trace[..i];
    } else {
      assert trace[..i] == trace;
    }
  }

  /** Where the worker can be after the listing at i, and what it must have done to get there. */
  ghost predicate SinceListing(trace: seq<Step>, i: nat, pc: Pc) {
    match pc
    case Scanning(_) => true
    case Taken => exists k, l :: i < k < l < |trace| && (trace[k].EndScan? || trace[k].Quit?) && trace[l].Take?
    case _ => exists k :: i < k < |trace| && (trace[k].EndScan? || trace[k].Quit?)
  }

  lemma {:induction false} ScanMustEnd(trace: seq<Step>, i: nat)
    requires Possible(trace) && i < |trace| && trace[i].List?
    requires forall j | i < j < |trace| :: !IsListing(trace[j])
    ensures SinceListing(trace, i, Run(trace).value.pc)
    decreases |trace|
  {
    var n := |trace| - 1;
    if i < n {
      var init, x := trace[..n], trace[n];
      ScanMustEnd(init, i);
      var pc := Run(init).value.pc;
      assert forall j | 0 <= j < n :: init[j] == trace[j];
      if pc.Taken? {
        var k, l :| i < k < l < n && (init[k].EndScan? || init[k].Quit?) && init[l].Take?;
        assert trace[k] == init[k] && trace[l] == init[l];
      } else if !pc.Scanning? {
        var k :| i < k < n && (init[k].EndScan? || init[k].Quit?);
        assert trace[k] == init[k];
        if x.Take? {
          assert trace[n].Take?;
        }
      }
    }
  }

  /** Scans never overlap: before the next listing begins, the scan that an earlier listing opened has ended
      and a further token has been taken. */
  lemma ScansDisjoint(trace: seq<Step>, i: nat, j: nat)
    requires Possible(trace) && i < j < |trace| && trace[i].List? && IsListing(trace[j])
    requires forall k | i < k < j :: !IsListing(trace[k])
    ensures exists k, l :: i < k < l < j && (trace[k].EndScan? || trace[k].Quit?) && trace[l].Take?
  {
    PrefixPossible(trace, j + 1);
    var before := trace[..j];
    assert trace[..j + 1][..j] == before && trace[..j + 1][j] == trace[j];
    ScanMustEnd(before, i);
    assert Run(before).value.pc.Taken?;
    var k, l :| i < k < l < |before| && (before[k].EndScan? || before[k].Quit?) && before[l].Take?;
    assert trace[k] == before[k] && trace[l] == before[l];
  }

  /** Worker steps still to come before the next listing, when a token is pending or taken. */
  function Todo(s: State): nat {
    match s.pc
    case Taken => 0
    case Idle => 1
    case Scanning(n) => n + 2
    case Stopped => 0
  }

  function WorkerSteps(trace: seq<Step>): nat {
    if trace == [] then 0
    else WorkerSteps(trace[..|trace| - 1]) + (if IsWorker(trace[|trace| - 1]) then 1 else 0)
  }

  lemma StepServes(s: State, x: Step)
    requires Enabled(s, x) && (s.pending || s.pc.Taken?) && !s.pc.Stopped?
    requires !IsListing(x) && !Next(s, x).pc.Stopped?
    ensures (if IsWorker(x) then 1 else 0) + Todo(Next(s, x)) <= Todo(s)
  {
  }

  lemma LastStep(trace: seq<Step>)
    requires Possible(trace) && trace != []
    ensures var init, x := trace[..|trace| - 1], trace[|trace| - 1];
            && Possible(init) && Enabled(Run(init).value, x) && Run(trace).value == Next(Run(init).value, x)
            && WorkerSteps(trace) == WorkerSteps(init) + (if IsWorker(x) then 1 else 0)
  {
  }

  lemma StoppedStays(s: State, x: Step)
    requires Enabled(s, x) && s.pc.Stopped?
    ensures Next(s, x).pc.Stopped?
  {
  }

  /** A wake-up is served after a bounded amount of work: until the next listing begins, or the worker returns,
      the worker makes no more steps than it has files left to handle, plus two. */
  lemma {:induction false} WakeupServedSoon(trace: seq<Step>, i: nat)
    requires Possible(trace) && i < |trace| && IsEnqueue(trace[i])
    requires !ListedAfter(trace, i) && !Run(trace).value.pc.Stopped?
    ensures Possible(trace[..i + 1])
    ensures WorkerSteps(trace) + Todo(Run(trace).value) <= WorkerSteps(trace[..i + 1]) + Todo(Run(trace[..i + 1]).value)
    decreases |trace|
  {
    hide Next, Enabled, Todo, IsWorker, WorkerSteps;
    var n := |trace| - 1;
    if i < n {
      var init := trace[..n];
      LastStep(trace);
      assert init[..i + 1] == trace[..i + 1];
      forall j | i < j < n ensures !IsListing(init[j]) {
        assert init[j] == trace[j];
      }
      assert !IsListing(trace[n]);
      if Run(init).value.pc.Stopped? {
        StoppedStays(Run(init).value, trace[n]);
      }
      WakeupServedSoon(init, i);
      NoLostWakeup(init, i);
      StepServes(Run(init).value, trace[n]);
    } else {
      assert trace[..i + 1] == trace;
    }
  }

  /** And until then the worker is never stuck. */
  lemma WorkerNotStuck(s: State)
    requires (s.pending || s.pc.Taken?) && !s.pc.Stopped?
    ensures exists x :: IsWorker(x) && !x.Halt? && !x.Quit? && Enabled(s, x)
  {
    match s.pc
    case Idle => assert Enabled(s, Take);
    case Taken => assert Enabled(s, ListFails);
    case Scanning(n) => if n > 0 { assert Enabled(s, HandleFile); } else { assert Enabled(s, EndScan); }
  }

  // ----- from the webhook to the worker ---------------------------------------------------

  /** The stored channel is the last registered one. */
  ghost predicate LastRegistered(trace: seq<Step>, k: nat, id: string, token: string) {
    && k < |trace| && trace[k].Register? && trace[k].id == id && trace[k].token == token
    && forall l | k < l < |trace| :: !trace[l].Register?
  }

  lemma {:induction false} StoredIsLastRegistered(trace: seq<Step>) returns (k: nat)
    requires Possible(trace) && Run(trace).value.sync.channelId != ""
    ensures LastRegistered(trace, k, Run(trace).value.sync.channelId, Run(trace).value.sync.channelToken)
    decreases |trace|
  {
    var n := |trace| - 1;
    if trace[n].Register? {
      k := n;
    } else {
      k := StoredIsLastRegistered(trace[..n]);
    }
  }

  /** Request r was checked at position j, with the credentials of the channel then stored, and is no handshake. */
  ghost predicate PassedAt(trace: seq<Step>, j: nat, r: nat) {
    && j < |trace| && trace[j].Deliver? && trace[j].request == r
    && trace[j].resourceState != "sync"
    && Possible(trace[..j])
    && var stored := Run(trace[..j]).value.sync;
       stored.channelId != "" && trace[j].id == stored.channelId && trace[j].token == stored.channelToken
  }

  lemma PassedLater(trace: seq<Step>, n: nat, j: nat, r: nat)
    requires n <= |trace| && PassedAt(trace[..n], j, r)
    ensures PassedAt(trace, j, r)
  {
    assert trace[..n][..j] == trace[..j];
  }

  lemma {:induction false} ClearedPassed(trace: seq<Step>, r: nat) returns (j: nat)
    requires Possible(trace) && r in Run(trace).value.cleared
    ensures PassedAt(trace, j, r)
    decreases |trace|
  {
    var n := |trace| - 1;
    if trace[n].Deliver? && trace[n].request == r && r !in Run(trace[..n]).value.cleared {
      j := n;
    } else {
      j := ClearedPassed(trace[..n], r);
      PassedLater(trace, n, j, r);
    }
  }

  lemma {:induction false} DeliveredOnce(trace: seq<Step>, r: nat, j: nat)
    requires Possible(trace) && j < |trace| && trace[j].Deliver? && trace[j].request == r
    ensures r in Run(trace).value.delivered
    ensures forall k | 0 <= k < |trace| && trace[k].Deliver? && trace[k].request == r :: k == j
    decreases |trace|
  {
    hide Respond;
    var n := |trace| - 1;
    if j < n {
      DeliveredOnce(trace[..n], r, j);
      assert forall k | 0 <= k < n :: trace[..n][k] == trace[k];
    } else if exists k :: 0 <= k < n && trace[k].Deliver? && trace[k].request == r {
      var k :| 0 <= k < n && trace[k].Deliver? && trace[k].request == r;
      assert trace[..n][k] == trace[k];
      DeliveredOnce(trace[..n], r, k);
    }
  }

  /** Random credentials never repeat. */
  ghost predicate FreshCredentials(trace: seq<Step>) {
    forall k, l | 0 <= k < l < |trace| && trace[k].Register? && trace[l].Register? ::
      trace[k].id != trace[l].id || trace[k].token != trace[l].token
  }

  lemma FiredPassed(trace: seq<Step>, j: nat, i: nat)
    requires Possible(trace) && j < |trace| && trace[j].Deliver?
    requires i < |trace| && trace[i] == Fire(trace[j].request)
    ensures PassedAt(trace, j, trace[j].request)
  {
    var r := trace[j].request;
    PrefixPossible(trace, i + 1);
    assert trace[..i + 1][..i] == trace[..i] && trace[..i + 1][i] == trace[i];
    var p := ClearedPassed(trace[..i], r);
    PassedLater(trace, i, p, r);
    DeliveredOnce(trace, r, j);
    assert p == j;
  }

  lemma PassedIsCurrent(trace: seq<Step>, j: nat) returns (m: nat)
    requires j < |trace| && trace[j].Deliver? && PassedAt(trace, j, trace[j].request)
    ensures m < j && trace[m].Register? && trace[m].id == trace[j].id && trace[m].token == trace[j].token
    ensures forall l | m < l < j :: !trace[l].Register?
  {
    m := StoredIsLastRegistered(trace[..j]);
    assert forall l | 0 <= l < j :: trace[..j][l] == trace[l];
  }

  /** A notification checked after its channel was superseded never enqueues. */
  lemma StaleNeverEnqueues(trace: seq<Step>, k: nat, l: nat, j: nat, i: nat)
    requires Possible(trace) && FreshCredentials(trace)
    requires k < l < j < |trace| && trace[k].Register? && trace[l].Register?
    requires trace[j].Deliver? && trace[j].id == trace[k].id && trace[j].token == trace[k].token
    requires i < |trace|
    ensures trace[i] != Fire(trace[j].request)
  {
    if trace[i] == Fire(trace[j].request) {
      FiredPassed(trace, j, i);
      var m := PassedIsCurrent(trace, j);
    }
  }

  /** End to end: a notification that passed the check is about to enqueue, or its enqueue is pending, about to
      be listed, followed by a listing, or lost only to a worker that has returned. */
  lemma {:induction false} AcceptedIsServed(trace: seq<Step>, j: nat)
    requires Possible(trace) && j < |trace| && trace[j].Deliver? && PassedAt(trace, j, trace[j].request)
    ensures var s := Run(trace).value;
            || trace[j].request in s.cleared
            || exists i :: j < i < |trace| && trace[i] == Fire(trace[j].request)
                           && (s.pending || s.pc.Taken? || s.pc.Stopped? || ListedAfter(trace, i))
  {
    var r := trace[j].request;
    if r !in Run(trace).value.cleared {
      var i := ClearedOrFired(trace, j);
      NoLostWakeup(trace, i);
    }
  }

  lemma {:induction false} ClearedOrFired(trace: seq<Step>, j: nat) returns (i: nat)
    requires Possible(trace) && j < |trace| && trace[j].Deliver? && PassedAt(trace, j, trace[j].request)
    ensures trace[j].request in Run(trace).value.cleared || (j < i < |trace| && trace[i] == Fire(trace[j].request))
    decreases |trace|
  {
    var n := |trace| - 1;
    i := n;
    if j < n {
      assert trace[..n][..j] == trace[..j] && trace[..n][j] == trace[j];
      i := ClearedOrFired(trace[..n], j);
      if trace[j].request in Run(trace[..n]).value.cleared {
        i := n;
      } else {
        assert trace[i] == trace[..n][i];
      }
    }
  }

  lemma {:induction false} LastStored(trace: seq<Step>, k: nat)
    requires Possible(trace) && k < |trace| && trace[k].Register?
    requires forall l | k < l < |trace| :: !trace[l].Register?
    ensures var stored := Run(trace).value.sync; stored.channelId == trace[k].id && stored.channelToken == trace[k].token
    decreases |trace|
  {
    var n := |trace| - 1;
    if k < n {
      LastStored(trace[..n], k);
    }
  }

  /** A change notification that carries the credentials of the last registered channel is accepted, and so
      about to enqueue, pending, about to be listed, followed by a listing, or lost only to a worker that has
      returned. */
  lemma CurrentIsServed(trace: seq<Step>, k: nat, j: nat)
    requires Possible(trace) && k < j < |trace|
    requires trace[k].Register? && trace[k].id != "" && forall l | k < l < j :: !trace[l].Register?
    requires trace[j].Deliver? && trace[j].id == trace[k].id && trace[j].token == trace[k].token
    requires trace[j].resourceState != "sync"
    ensures PassedAt(trace, j, trace[j].request)
    ensures var s := Run(trace).value;
            || trace[j].request in s.cleared
            || exists i :: j < i < |trace| && trace[i] == Fire(trace[j].request)
                           && (s.pending || s.pc.Taken? || s.pc.Stopped? || ListedAfter(trace, i))
  {
    PrefixPossible(trace, j);
    assert forall l | 0 <= l < j :: trace[..j][l] == trace[l];
    LastStored(trace[..j], k);
    AcceptedIsServed(trace, j);
  }

  /** A handshake, and a notification that does not carry the stored credentials, never enqueue. */
  lemma OthersNeverEnqueue(trace: seq<Step>, j: nat, i: nat)
    requires Possible(trace) && j < |trace| && trace[j].Deliver? && i < |trace|
    requires var stored := if Possible(trace[..j]) then Run(trace[..j]).value.sync else NO_SYNC;
             || trace[j].resourceState == "sync" || stored.channelId == ""
             || trace[j].id != stored.channelId || trace[j].token != stored.channelToken
    ensures trace[i] != Fire(trace[j].request)
  {
    if trace[i] == Fire(trace[j].request) {
      FiredPassed(trace, j, i);
    }
  }
}
