/** Concurrent status updates of one BackupDB object: updateStatus of
    internal/controller/backupdb_controller.go, run by any number of goroutines against an API
    server that keeps one version number per object and refuses a status update made from an
    older version. A read may be served by a cache and return any earlier version. */
module StatusUpdates {
  import opened Wrappers
  import opened Text

  const COMPLETED := "Completed"
  const MAX_RETRIES := 5

  datatype PodsStatus = PodsStatus(status: string, message: string, lastUpdated: nat)

  type StatusMap = map<string, PodsStatus>

  datatype BackupDB = BackupDB(names: seq<string>, status: StatusMap, overall: string)

  // ---------------------------------------------------------------- the new status

  function Completed(m: StatusMap): set<string> { set p | p in m && m[p].status == COMPLETED }

  function Overall(complete: nat, total: nat): string { Itoa(complete) + "/" + Itoa(total) }

  /** strings.TrimSuffix(message, "\n"): one line break is taken off the end, if there is one. */
  function TrimNewline(message: string): (r: string)
    ensures message == r + "\n" || (message == r && (r == "" || r[|r| - 1] != '\n'))
  {
    if message != "" && message[|message| - 1] == '\n' then message[..|message| - 1] else message
  }

  function Updated(db: BackupDB, pod: string, entry: PodsStatus): BackupDB {
    var m := db.status[pod := entry];
    BackupDB(db.names, m, Overall(|Completed(m)|, |db.names|))
  }

  method CountCompleted(m: StatusMap) returns (completeCount: nat)
    ensures completeCount == |Completed(m)| == |CompletedPods(m)|
  {
    completeCount := 0;
    var pods := m.Keys;
    ghost var counted: set<string> := {};
    while pods != {}
      invariant pods <= m.Keys && completeCount == |counted|
      invariant forall p :: p in counted <==> p in m && p !in pods && m[p].status == COMPLETED
      decreases pods
    {
      var p :| p in pods;
      pods := pods - {p};
      if m[p].status == COMPLETED {
        completeCount := completeCount + 1;
        counted := counted + {p};
      }
    }
    assert counted == Completed(m) == CompletedPods(m);
  }

  /** The body of one attempt: the entry and the recomputed overall status. */
  method WithEntry(db: BackupDB, pod: string, entry: PodsStatus) returns (updated: BackupDB)
    ensures updated == Updated(db, pod, entry) && Stored(updated, pod, entry) && updated.names == db.names
    ensures forall p | p != pod :: Lookup(updated.status, p) == Lookup(db.status, p)
  {
    var m := db.status[pod := entry];
    var completeCount := CountCompleted(m);
    updated := BackupDB(db.names, m, Overall(completeCount, |db.names|));
    UpdatedIsStored(db, pod, entry);
  }

  // ---------------------------------------------------------------- the protocol

  datatype Phase = Ready | Holding(version: nat) | Done(ok: bool)

  /** A running call of updateStatus; `attempts` counts its conflicts. */
  datatype Call = Call(pod: string, status: string, message: string, attempts: nat, phase: Phase)

  /** A successful write and the version that it was made from. */
  datatype Write = Write(pod: string, entry: PodsStatus, read: nat)

  /** Every version of the object, the calls by goroutine, and the successful writes in order. */
  datatype State = State(versions: seq<BackupDB>, calls: map<nat, Call>, log: seq<Write>)

  /** Edit is any other change of the object: it makes a new version and leaves the status alone. */
  datatype Event =
    | Begin(id: nat, pod: string, status: string, message: string)
    | Get(id: nat, version: nat)
    | Update(id: nat, time: nat)
    | Abort(id: nat)
    | Edit(names: seq<string>)

  function Latest(s: State): BackupDB
    requires s.versions != []
  {
    s.versions[|s.versions| - 1]
  }

  predicate Fits(s: State) {
    && s.versions != []
    && forall id <- s.calls :: s.calls[id].phase.Holding? ==> s.calls[id].phase.version < |s.versions|
  }

  function Step(s: State, e: Event): (next: State)
    requires Fits(s)
    ensures Fits(next)
  {
    match e
    case Begin(id, pod, status, message) =>
      if id in s.calls then s else s.(calls := s.calls[id := Call(pod, status, message, 0, Ready)])
    case Get(id, version) =>
      if id in s.calls && s.calls[id].phase.Ready? && version < |s.versions|
      then s.(calls := s.calls[id := s.calls[id].(phase := Holding(version))]) else s
    case Update(id, time) =>
      if id !in s.calls || !s.calls[id].phase.Holding? then s
      else
        var call := s.calls[id];
        var entry := PodsStatus(call.status, TrimNewline(call.message), time);
        if call.phase.version == |s.versions| - 1 then
          State(s.versions + [Updated(s.versions[call.phase.version], call.pod, entry)],
                s.calls[id := call.(phase := Done(true))], s.log + [Write(call.pod, entry, call.phase.version)])
        else
          s.(calls := s.calls[id := call.(attempts := call.attempts + 1,
                                          phase := if call.attempts + 1 < MAX_RETRIES then Ready else Done(false))])
    case Abort(id) =>
      if id in s.calls && !s.calls[id].phase.Done?
      then s.(calls := s.calls[id := s.calls[id].(phase := Done(false))]) else s
    case Edit(names) => s.(versions := s.versions + [Latest(s).(names := names)])
  }

  function Run(s: State, events: seq<Event>): (last: State)
    requires Fits(s)
    ensures Fits(last)
    decreases |events|
  {
    if events == [] then s else Run(Step(s, events[0]), events[1..])
  }

  // ---------------------------------------------------------------- no lost updates

  /** The entry of a pod's last successful call, or its entry before the run. */
  ghost function LastEntry(before: StatusMap, log: seq<Write>, pod: string): Option<PodsStatus> {
    if log == [] then if pod in before then Some(before[pod]) else None
    else if log[|log| - 1].pod == pod then Some(log[|log| - 1].entry)
    else LastEntry(before, log[..|log| - 1], pod)
  }

  ghost function Lookup(m: StatusMap, pod: string): Option<PodsStatus> {
    if pod in m then Some(m[pod]) else None
  }

  /** The text has two parts around a slash, two decimal numbers: this one and then that one. */
  predicate Fraction(text: string, complete: nat, total: nat) {
    var parts := Split(text, '/');
    && |parts| == 2 && parts[0] != "" && parts[1] != "" && AllDigits(parts[0]) && AllDigits(parts[1])
    && Value(parts[0]) == complete && Value(parts[1]) == total
  }

  /** The pods whose entry is Completed. */
  ghost function CompletedPods(m: StatusMap): set<string> { set p | p in m && m[p].status == "Completed" }

  lemma OverallIsFraction(complete: nat, total: nat)
    ensures Fraction(Overall(complete, total), complete, total)
  {
    var a, b := Itoa(complete), Itoa(total);
    assert '/' !in a && '/' !in b;
    SplitFree(a, '/');
    SplitFree(b, '/');
    assert Overall(complete, total) == a + ['/'] + b;
    SplitConcat(a, b, '/');
    ValueItoa(complete);
    ValueItoa(total);
  }

  /** The object holds the pod's entry, and its overall status is the number of Completed entries over
      the number of names. */
  ghost predicate Stored(db: BackupDB, pod: string, entry: PodsStatus) {
    && Lookup(db.status, pod) == Some(entry)
    && Fraction(db.overall, |CompletedPods(db.status)|, |db.names|)
  }

  lemma UpdatedIsStored(db: BackupDB, pod: string, entry: PodsStatus)
    ensures Stored(Updated(db, pod, entry), pod, entry) && Updated(db, pod, entry).names == db.names
  {
    var now := Updated(db, pod, entry);
    assert Completed(now.status) == CompletedPods(now.status);
    OverallIsFraction(|Completed(now.status)|, |now.names|);
  }

  /** The overall status is the number of completed pods over the number of names in the version that
      the last write was made from. */
  ghost predicate CountsAll(s: State)
    requires s.versions != [] && s.log != []
  {
    var read := s.log[|s.log| - 1].read;
    read < |s.versions| && Fraction(Latest(s).overall, |CompletedPods(Latest(s).status)|, |s.versions[read].names|)
  }

  /** The stored status is what the successful calls wrote, and the overall status counts it. */
  ghost predicate Faithful(s: State, before: StatusMap) {
    && s.versions != []
    && (forall pod :: Lookup(Latest(s).status, pod) == LastEntry(before, s.log, pod))
    && (s.log != [] ==> CountsAll(s))
  }

  lemma WriteIsFaithful(s: State, next: State, pod: string, entry: PodsStatus, before: StatusMap)
    requires Faithful(s, before) && s.versions != []
    requires next.versions == s.versions + [Updated(Latest(s), pod, entry)]
    requires next.log == s.log + [Write(pod, entry, |s.versions| - 1)]
    ensures Faithful(next, before)
  {
    var now := Latest(next);
    assert next.log[..|s.log|] == s.log;
    assert now == Updated(Latest(s), pod, entry);
    UpdatedIsStored(Latest(s), pod, entry);
    forall p ensures Lookup(now.status, p) == LastEntry(before, next.log, p) {
      assert Lookup(Latest(s).status, p) == LastEntry(before, s.log, p);
    }
  }

  lemma QuietIsFaithful(s: State, next: State, before: StatusMap)
    requires Faithful(s, before) && next.log == s.log && s.versions <= next.versions
    requires Latest(next).status == Latest(s).status && Latest(next).overall == Latest(s).overall
    ensures Faithful(next, before)
  {}

  lemma StepIsFaithful(s: State, e: Event, before: StatusMap)
    requires Fits(s) && Faithful(s, before)
    ensures Faithful(Step(s, e), before)
  {
    var next := Step(s, e);
    if e.Update? && next.log != s.log {
      UpdateIsWrite(s, e);
      var w := next.log[|s.log|];
      WriteIsFaithful(s, next, w.pod, w.entry, before);
    } else {
      OthersAreQuiet(s, e);
      QuietIsFaithful(s, next, before);
    }
  }

  lemma UpdateIsWrite(s: State, e: Event)
    requires Fits(s) && e.Update? && Step(s, e).log != s.log
    ensures var next := Step(s, e);
            && |next.log| == |s.log| + 1
            && var w := next.log[|s.log|];
               && next.log == s.log + [Write(w.pod, w.entry, |s.versions| - 1)]
               && next.versions == s.versions + [Updated(Latest(s), w.pod, w.entry)]
  {}

  lemma OthersAreQuiet(s: State, e: Event)
    requires Fits(s) && (e.Update? ==> Step(s, e).log == s.log)
    ensures var next := Step(s, e);
            && next.log == s.log && s.versions <= next.versions
            && Latest(next).status == Latest(s).status && Latest(next).overall == Latest(s).overall
  {}

  /** No status update is lost: under any interleaving of calls with stale reads, conflicts, aborts
      and other edits, each pod's stored entry is that of its last successful call, and after the
      first write the overall status is the number of completed pods over the number of names that
      the last write read. */
  lemma {:induction false} RunsAreFaithful(s: State, events: seq<Event>, before: StatusMap)
    requires Fits(s) && Faithful(s, before)
    ensures Faithful(Run(s, events), before)
    decreases |events|
  {
    if events != [] {
      StepIsFaithful(s, events[0], before);
      RunsAreFaithful(Step(s, events[0]), events[1..], before);
    }
  }

  lemma NoLostUpdates(db: BackupDB, events: seq<Event>, pod: string)
    ensures var s := Run(State([db], map[], []), events);
            && s.versions != []
            && Lookup(Latest(s).status, pod) == LastEntry(db.status, s.log, pod)
            && (s.log != [] ==> CountsAll(s))
  {
    assert Faithful(State([db], map[], []), db.status);
    RunsAreFaithful(State([db], map[], []), events, db.status);
  }

  /** The overall status determines its numerator. */
  lemma OverallIsReadable(complete: nat, total: nat, complete': nat, total': nat)
    requires Overall(complete, total) == Overall(complete', total')
    ensures complete == complete' && total == total'
  {
    OverallIsFraction(complete, total);
    OverallIsFraction(complete', total');
  }

  /** Only an edit changes the names: no call of updateStatus does. */
  lemma NamesStay(s: State, e: Event)
    requires Fits(s) && !e.Edit?
    ensures Latest(Step(s, e)).names == Latest(s).names
  {}

  // ---------------------------------------------------------------- bounded retry

  /** A call makes at most five attempts, and is still running only below five. */
  ghost predicate Bounded(s: State) {
    forall id <- s.calls ::
      && s.calls[id].attempts <= 5
      && (!s.calls[id].phase.Done? ==> s.calls[id].attempts < 5)
  }

  lemma {:induction false} RunsAreBounded(s: State, events: seq<Event>)
    requires Fits(s) && Bounded(s)
    ensures Bounded(Run(s, events))
    decreases |events|
  {
    if events != [] {
      RunsAreBounded(Step(s, events[0]), events[1..]);
    }
  }

  /** Only a conflict costs an attempt: reading the latest version and updating before anyone else
      ends the call, successfully. */
  lemma FreshAttemptSucceeds(s: State, id: nat, time: nat)
    requires Fits(s) && id in s.calls && s.calls[id].phase.Ready?
    ensures var next := Run(s, [Get(id, |s.versions| - 1), Update(id, time)]);
            && id in next.calls && next.calls[id].phase == Done(true)
            && Stored(Latest(next), s.calls[id].pod,
                      PodsStatus(s.calls[id].status, TrimNewline(s.calls[id].message), time))
  {
    var held := Step(s, Get(id, |s.versions| - 1));
    var written := Step(held, Update(id, time));
    UpdatedIsStored(Latest(s), s.calls[id].pod, PodsStatus(s.calls[id].status, TrimNewline(s.calls[id].message), time));
    var events := [Get(id, |s.versions| - 1), Update(id, time)];
    assert events[1..] == [Update(id, time)];
    assert Run(held, events[1..]) == Run(written, []) by { assert events[1..][1..] == []; }
  }

  // ---------------------------------------------------------------- one call as a program

  /** What surrounds an attempt: the version its read returns, what the other goroutines do between
      the read and the update, and the clock. */
  datatype Attempt = Attempt(version: nat, between: seq<Event>, time: nat, failure: Failure)

  /** An API error other than a conflict, of the read or of the update. */
  datatype Failure = NoFailure | ReadFails | UpdateFails

  datatype Outcome = Success | Conflict | Failed

  predicate Concerns(e: Event, id: nat) { !e.Edit? && e.id == id }

  lemma {:induction false} RunOfOthers(s: State, events: seq<Event>, id: nat)
    requires Fits(s) && id in s.calls && forall e <- events :: !Concerns(e, id)
    ensures var last := Run(s, events);
            && id in last.calls && last.calls[id] == s.calls[id]
            && s.versions <= last.versions
    decreases |events|
  {
    if events != [] {
      assert events[0] in events;
      RunOfOthers(Step(s, events[0]), events[1..], id);
    }
  }

  lemma {:induction false} RunConcat(s: State, a: seq<Event>, b: seq<Event>)
    requires Fits(s)
    ensures Run(s, a + b) == Run(Run(s, a), b)
    decreases |a|
  {
    if a == [] {
      assert a + b == b;
    } else {
      assert (a + b)[1..] == a[1..] + b;
      RunConcat(Step(s, a[0]), a[1..], b);
    }
  }

  function AttemptEvents(id: nat, version: nat, between: seq<Event>, time: nat): seq<Event> {
    [Get(id, version)] + between + [Update(id, time)]
  }

  /** One attempt, in terms of the protocol. */
  lemma RunAttempt(s: State, id: nat, version: nat, between: seq<Event>, time: nat)
    requires Fits(s) && id in s.calls && s.calls[id].phase.Ready? && version < |s.versions|
    requires forall e <- between :: !Concerns(e, id)
    ensures var held := Run(Step(s, Get(id, version)), between);
            && Run(s, AttemptEvents(id, version, between, time)) == Step(held, Update(id, time))
            && id in held.calls && held.calls[id] == s.calls[id].(phase := Holding(version))
            && s.versions <= held.versions
  {
    var got := Step(s, Get(id, version));
    var events := AttemptEvents(id, version, between, time);
    assert events[1..] == between + [Update(id, time)];
    RunConcat(got, between, [Update(id, time)]);
    RunOfOthers(got, between, id);
    var held := Run(got, between);
    assert [Update(id, time)][1..] == [];
    assert Run(held, [Update(id, time)]) == Run(Step(held, Update(id, time)), []);
  }

  /** The state after an update from a version that the call read. */
  function AfterUpdate(held: State, id: nat, call: Call, read: BackupDB, version: nat, time: nat): State {
    var entry := PodsStatus(call.status, TrimNewline(call.message), time);
    if version == |held.versions| - 1 then
      State(held.versions + [Updated(read, call.pod, entry)],
            held.calls[id := call.(phase := Done(true))], held.log + [Write(call.pod, entry, version)])
    else
      held.(calls := held.calls[id := call.(attempts := call.attempts + 1,
        phase := if call.attempts + 1 < MAX_RETRIES then Ready else Done(false))])
  }

  lemma UpdateIsAfterUpdate(held: State, id: nat, call: Call, version: nat, time: nat)
    requires Fits(held) && id in held.calls && held.calls[id] == call.(phase := Holding(version))
    requires version < |held.versions|
    ensures Step(held, Update(id, time)) == AfterUpdate(held, id, call, held.versions[version], version, time)
  {}

  lemma AfterUpdateFacts(held: State, id: nat, call: Call, read: BackupDB, version: nat, time: nat)
    requires Fits(held) && id in held.calls
    ensures var next := AfterUpdate(held, id, call, read, version, time);
            && id in next.calls && next.versions != []
            && if version == |held.versions| - 1 then
                 && next.calls[id].phase == Done(true)
                 && Stored(Latest(next), call.pod, PodsStatus(call.status, TrimNewline(call.message), time))
               else
                 next.calls[id] == call.(attempts := call.attempts + 1,
                   phase := if call.attempts + 1 < MAX_RETRIES then Ready else Done(false))
  {
    UpdatedIsStored(read, call.pod, PodsStatus(call.status, TrimNewline(call.message), time));
  }

  /** Some interleaving of the protocol leads from one state to the other. */
  ghost predicate Reaches(start: State, s: State) {
    Fits(start) && exists events :: Run(start, events) == s
  }

  lemma ReachesFits(start: State, s: State)
    requires Reaches(start, s)
    ensures Fits(s)
  {}

  /** An attempt ends with the entry stored when nothing intervened, and with a conflict counted
      otherwise. */
  lemma AttemptOutcome(start: State, s: State, id: nat, version: nat, between: seq<Event>, time: nat)
    requires Reaches(start, s)
    requires id in s.calls && s.calls[id].phase.Ready? && version < |s.versions|
    requires forall e <- between :: !Concerns(e, id)
    ensures Fits(s) && id in Run(Step(s, Get(id, version)), between).calls
    ensures Reaches(start, AfterUpdate(Run(Step(s, Get(id, version)), between), id, s.calls[id], s.versions[version],
                                       version, time))
  {
    var trace :| Run(start, trace) == s;
    RunAttempt(s, id, version, between, time);
    RunConcat(start, trace, AttemptEvents(id, version, between, time));
    var held := Run(Step(s, Get(id, version)), between);
    UpdateIsAfterUpdate(held, id, s.calls[id], version, time);
    assert s.versions[version] == held.versions[version];
  }

  lemma ReachesThrough(start: State, s: State, events: seq<Event>)
    requires Reaches(start, s)
    ensures Fits(s) && Reaches(start, Run(s, events))
  {
    var trace :| Run(start, trace) == s;
    RunConcat(start, trace, events);
  }

  /** The state when the read of an attempt fails, and when its update does: a call ends without a
      write at any API error that is not a conflict. */
  lemma FailureOutcome(start: State, s: State, id: nat, version: nat, between: seq<Event>)
    requires Reaches(start, s)
    requires id in s.calls && s.calls[id].phase.Ready? && version < |s.versions|
    requires forall e <- between :: !Concerns(e, id)
    ensures Fits(s) && Reaches(start, Step(s, Abort(id))) && Step(s, Abort(id)).log == s.log
    ensures var held := Run(Step(s, Get(id, version)), between);
            && Reaches(start, Step(held, Abort(id))) && Step(held, Abort(id)).log == held.log
            && id in held.calls && held.calls[id] == s.calls[id].(phase := Holding(version))
  {
    var got := Step(s, Get(id, version));
    RunOfOthers(got, between, id);
    ReachesOne(start, s, Get(id, version));
    ReachesThrough(start, got, between);
    ReachesOne(start, s, Abort(id));
    ReachesOne(start, Run(got, between), Abort(id));
  }

  lemma AbortEnds(s: State, id: nat)
    requires Fits(s) && id in s.calls && !s.calls[id].phase.Done?
    ensures var next := Step(s, Abort(id));
            && id in next.calls && next.calls[id] == s.calls[id].(phase := Done(false)) && next.versions == s.versions
  {}

  lemma ReachesOne(start: State, s: State, e: Event)
    requires Reaches(start, s)
    ensures Fits(s) && Reaches(start, Step(s, e))
  {
    assert [e][1..] == [];
    assert Run(s, [e]) == Run(Step(s, e), []);
    ReachesThrough(start, s, [e]);
  }

  lemma BeginReaches(s: State, id: nat, pod: string, status: string, message: string)
    requires Fits(s) && id !in s.calls
    ensures Reaches(s, s.(calls := s.calls[id := Call(pod, status, message, 0, Ready)]))
  {
    var e := Begin(id, pod, status, message);
    assert [e][1..] == [];
    assert Run(s, [e]) == Run(Step(s, e), []);
  }

  class Controller {
    var state: State

    /** One round of the loop of updateStatus: read, then update unless the version has moved. An API
        error other than a conflict ends the call and writes nothing. */
    method Try(id: nat, attempt: Attempt, ghost start: State) returns (outcome: Outcome)
      requires Reaches(start, state)
      requires id in state.calls && state.calls[id].phase.Ready?
      requires forall e <- attempt.between :: !Concerns(e, id)
      modifies this
      ensures Reaches(start, state) && id in state.calls && state.versions != []
      ensures outcome.Failed? <==> !attempt.failure.NoFailure?
      ensures var call := old(state).calls[id];
              match outcome
              case Success => state.calls[id].phase == Done(true) && state.calls[id].attempts == call.attempts
                              && Stored(Latest(state), call.pod,
                                        PodsStatus(call.status, TrimNewline(call.message), attempt.time))
              case Conflict => state.calls[id] == call.(attempts := call.attempts + 1,
                                 phase := if call.attempts + 1 < MAX_RETRIES then Ready else Done(false))
              case Failed => state.calls[id] == call.(phase := Done(false))
    {
      ReachesFits(start, state);
      var call := state.calls[id];
      var version := if attempt.version < |state.versions| then attempt.version else |state.versions| - 1;
      var entry := PodsStatus(call.status, TrimNewline(call.message), attempt.time);
      var read := state.versions[version];
      if attempt.failure.ReadFails? {
        FailureOutcome(start, state, id, version, attempt.between);
        AbortEnds(state, id);
        state := Step(state, Abort(id));
        return Failed;
      }
      var updated := WithEntry(read, call.pod, entry);
      state := Run(Step(state, Get(id, version)), attempt.between);
      if attempt.failure.UpdateFails? {
        FailureOutcome(start, old(state), id, version, attempt.between);
        AbortEnds(state, id);
        state := Step(state, Abort(id));
        return Failed;
      }
      AttemptOutcome(start, old(state), id, version, attempt.between, attempt.time);
      AfterUpdateFacts(state, id, call, read, version, attempt.time);
      var stored := Put(id, call, read, version, updated, attempt.time);
      outcome := if stored then Success else Conflict;
    }

    /** The update of an attempt: refused when the version has moved since the read. */
    method Put(id: nat, call: Call, read: BackupDB, version: nat, updated: BackupDB, time: nat) returns (stored: bool)
      requires updated == Updated(read, call.pod, PodsStatus(call.status, TrimNewline(call.message), time))
      modifies this
      ensures state == AfterUpdate(old(state), id, call, read, version, time)
      ensures stored <==> version == |old(state).versions| - 1
    {
      stored := version == |state.versions| - 1;
      if stored {
        state := State(state.versions + [updated], state.calls[id := call.(phase := Done(true))],
                       state.log + [Write(call.pod, PodsStatus(call.status, TrimNewline(call.message), time), version)]);
      } else {
        var phase := if call.attempts + 1 < MAX_RETRIES then Ready else Done(false);
        state := state.(calls := state.calls[id := call.(attempts := call.attempts + 1, phase := phase)]);
      }
    }

    /** updateStatus: at most five attempts, each on a fresh read; it succeeds with its entry stored,
        gives up after five conflicts, or ends at the first other API error. */
    method UpdateStatus(id: nat, pod: string, status: string, message: string, attempts: seq<Attempt>)
      returns (ok: bool)
      requires Fits(state) && id !in state.calls && |attempts| >= MAX_RETRIES
      requires forall a <- attempts, e <- a.between :: !Concerns(e, id)
      modifies this
      ensures Reaches(old(state), state)
      ensures id in state.calls && state.calls[id].phase == Done(ok) && state.calls[id].attempts <= MAX_RETRIES
      ensures ok ==> state.versions != [] && exists time ::
                Stored(Latest(state), pod, PodsStatus(status, TrimNewline(message), time))
      ensures var conflicts := state.calls[id].attempts;
              ok <==> conflicts < MAX_RETRIES && attempts[conflicts].failure.NoFailure?
    {
      BeginReaches(state, id, pod, status, message);
      state := state.(calls := state.calls[id := Call(pod, status, message, 0, Ready)]);
      for i := 0 to MAX_RETRIES
        invariant Reaches(old(state), state)
        invariant id in state.calls
        invariant state.calls[id] == Call(pod, status, message, i, if i < MAX_RETRIES then Ready else Done(false))
      {
        assert attempts[i] in attempts;
        var outcome := Try(id, attempts[i], old(state));
        if !outcome.Conflict? {
          return outcome.Success?;
        }
      }
      ok := false;
    }
  }
}
