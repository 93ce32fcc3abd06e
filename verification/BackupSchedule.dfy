/** The schedule index of the BackupDB controller and the cron scheduler it must agree with
    (internal/controller/backupdb_controller.go). */
module BackupSchedule {
  import opened Wrappers
  import Cron

  datatype ScheduledTask = ScheduledTask(entryID: nat, schedule: string)

  /** A live entry of the scheduler: the BackupDB it fires for and its expression. */
  datatype Entry = Entry(key: string, expr: string)

  datatype State = State(index: map<string, ScheduledTask>, entries: map<nat, Entry>, nextID: nat)

  /** Live entries and the index are in bijection, with equal expressions. */
  ghost predicate Agrees(s: State) {
    && (forall k <- s.index ::
          && s.index[k].entryID in s.entries
          && s.entries[s.index[k].entryID] == Entry(k, s.index[k].schedule))
    && (forall id <- s.entries ::
          && id < s.nextID
          && s.entries[id].key in s.index
          && s.index[s.entries[id].key].entryID == id)
  }

  /** Reconcile carries what AddFunc answers when it is called: cron may refuse the expression. */
  datatype Event = Reconcile(key: string, expr: string, addOk: bool) | Deletion(key: string)

  function Without(s: State, key: string): State {
    if key in s.index then s.(index := s.index - {key}, entries := s.entries - {s.index[key].entryID}) else s
  }

  function Step(s: State, e: Event): State {
    match e
    case Deletion(key) => Without(s, key)
    case Reconcile(key, expr, addOk) =>
      if !Cron.IsValidCronExpression(expr) then s
      else if key in s.index && s.index[key].schedule == expr then s
      else
        var t := Without(s, key);
        if !addOk then t
        else State(t.index[key := ScheduledTask(t.nextID, expr)], t.entries[t.nextID := Entry(key, expr)], t.nextID + 1)
  }

  function Run(s: State, events: seq<Event>): State
    decreases |events|
  {
    if events == [] then s else Run(Step(s, events[0]), events[1..])
  }

  class BackupDBReconciler {
    var backupSchedule: map<string, ScheduledTask>
    var entries: map<nat, Entry>
    var nextID: nat

    function Now(): State
      reads this
    {
      State(backupSchedule, entries, nextID)
    }

    constructor ()
      ensures Agrees(Now()) && Now() == State(map[], map[], 0)
    {
      backupSchedule, entries, nextID := map[], map[], 0;
    }

    /** cron.AddFunc */
    method AddFunc(key: string, expr: string, addOk: bool) returns (entryID: Option<nat>)
      modifies this`entries, this`nextID
      ensures !addOk ==> entryID.None? && entries == old(entries) && nextID == old(nextID)
      ensures addOk ==> entryID == Some(old(nextID)) && nextID == old(nextID) + 1
                        && entries == old(entries)[old(nextID) := Entry(key, expr)]
    {
      if !addOk {
        return None;
      }
      entries := entries[nextID := Entry(key, expr)];
      entryID := Some(nextID);
      nextID := nextID + 1;
    }

    method UpdateBackupSchedule(key: string, newSchedule: string, addOk: bool) returns (ok: bool)
      modifies this
      ensures Now() == Step(old(Now()), Reconcile(key, newSchedule, addOk))
      ensures old(Agrees(Now())) ==> Agrees(Now())
      ensures ok ==> key in backupSchedule && backupSchedule[key].schedule == newSchedule
      ensures !Cron.IsValidCronExpression(newSchedule) || (key in old(backupSchedule) && old(backupSchedule)[key].schedule == newSchedule)
              ==> Now() == old(Now())
      ensures ok <==> Cron.IsValidCronExpression(newSchedule)
                      && (addOk || (key in old(backupSchedule) && old(backupSchedule)[key].schedule == newSchedule))
    {
      ghost var was := Now();
      if Agrees(was) {
        StepAgrees(was, Reconcile(key, newSchedule, addOk));
      }
      if !Cron.IsValidCronExpression(newSchedule) {
        return false;
      }
      if key in backupSchedule {
        if backupSchedule[key].schedule == newSchedule {
          return true;
        }
        entries := entries - {backupSchedule[key].entryID};
        backupSchedule := backupSchedule - {key};
      }
      var entryID := AddFunc(key, newSchedule, addOk);
      if entryID.None? {
        return false;
      }
      backupSchedule := backupSchedule[key := ScheduledTask(entryID.value, newSchedule)];
      return true;
    }

    /** removeBackupSchedule, as the deletion of a BackupDB calls it. */
    method RemoveBackupSchedule(key: string)
      modifies this
      ensures Now() == Step(old(Now()), Deletion(key))
      ensures old(Agrees(Now())) ==> Agrees(Now()) && key !in backupSchedule && forall id <- entries :: entries[id].key != key
    {
      ghost var was := Now();
      if Agrees(was) {
        StepAgrees(was, Deletion(key));
      }
      if key in backupSchedule {
        entries := entries - {backupSchedule[key].entryID};
        backupSchedule := backupSchedule - {key};
      }
    }
  }

  lemma WithoutAgrees(s: State, key: string)
    requires Agrees(s)
    ensures Agrees(Without(s, key)) && key !in Without(s, key).index
  {}

  lemma StepAgrees(s: State, e: Event)
    requires Agrees(s)
    ensures Agrees(Step(s, e))
  {
    WithoutAgrees(s, e.key);
  }

  // ---------------------------------------------------------------- what is live

  /** The expressions that the scheduler runs for a BackupDB. */
  ghost predicate Fires(s: State, key: string, expr: string) {
    exists id :: id in s.entries && s.entries[id] == Entry(key, expr)
  }

  /** The schedules that ought to be live: each BackupDB's last accepted expression. */
  function WantedNext(m: map<string, string>, e: Event): map<string, string> {
    match e
    case Deletion(key) => m - {key}
    case Reconcile(key, expr, addOk) =>
      if !Cron.IsValidCronExpression(expr) then m
      else if key in m && m[key] == expr then m
      else if addOk then m[key := expr]
      else m - {key}
  }

  function Wanted(m: map<string, string>, events: seq<Event>): map<string, string>
    decreases |events|
  {
    if events == [] then m else Wanted(WantedNext(m, events[0]), events[1..])
  }

  ghost predicate Live(s: State, m: map<string, string>) {
    && Agrees(s)
    && s.index.Keys == m.Keys
    && forall k <- m :: s.index[k].schedule == m[k]
  }

  lemma StepIsLive(s: State, m: map<string, string>, e: Event)
    requires Live(s, m)
    ensures Live(Step(s, e), WantedNext(m, e))
  {
    StepAgrees(s, e);
    assert s.index.Keys == m.Keys;
    assert e.key in s.index <==> e.key in m;
    assert Step(s, e).index.Keys == WantedNext(m, e).Keys;
  }

  lemma {:induction false} RunIsLive(s: State, m: map<string, string>, events: seq<Event>)
    requires Live(s, m)
    ensures Live(Run(s, events), Wanted(m, events))
    decreases |events|
  {
    if events != [] {
      StepIsLive(s, m, events[0]);
      RunIsLive(Step(s, events[0]), WantedNext(m, events[0]), events[1..]);
    }
  }

  /** Over every run of creates, changes, rejected expressions, refusals by cron and deletions, the
      index and the scheduler agree, and what fires for a BackupDB is exactly its last accepted
      schedule; after a deletion nothing fires until the next accepted one. */
  lemma ScheduleAgreesOverRuns(events: seq<Event>, key: string, expr: string)
    ensures var s := Run(State(map[], map[], 0), events);
            && Agrees(s)
            && (Fires(s, key, expr) <==> key in Wanted(map[], events) && Wanted(map[], events)[key] == expr)
  {
    RunIsLive(State(map[], map[], 0), map[], events);
    var s := Run(State(map[], map[], 0), events);
    var m := Wanted(map[], events);
    if key in m && m[key] == expr {
      assert s.entries[s.index[key].entryID] == Entry(key, expr);
    }
  }
}
