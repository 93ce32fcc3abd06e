/** Runs of backupdb.sh: each takes a backup, which may fail, and then deletes what the period does not
    keep. The disk between runs is every backup taken, the date directories, and those without a
    _bkvinf file. */
module BackupRuns {
  import opened Wrappers
  import opened BackupRetention
  import opened BackupPass

  // ---------------------------------------------------------------- runs of the script

  /** Every backup taken, the dates that have a directory on disk, and those without a _bkvinf. */
  datatype Disk = Disk(history: seq<Backup>, kept: set<nat>, bare: set<nat>)

  /** How `cubrid backupdb` and the copy of _bkvinf end: a failed backup ends the run and leaves its
      directory behind, a failed copy only leaves the file out. */
  datatype Outcome = Done | BackupFails | CopyFails

  /** One run of `backupdb.sh start`: the deletion date is None when PERIOD is 0. It is computed after
      the backup and can be any date. */
  datatype Run = Run(date: nat, level: Level, deleteDate: Option<nat>, outcome: Outcome)

  /** There is no backup of today yet; there may be the directory of a failed one. */
  ghost predicate Possible(disk: Disk, run: Run) {
    (forall b <- disk.history :: b.date < run.date) && forall d <- disk.kept :: d <= run.date
  }

  /** The disk after the backup of a run. */
  ghost function Taken(disk: Disk, run: Run): Disk {
    Disk(if run.outcome.BackupFails? then disk.history else disk.history + [Backup(run.date, run.level)],
         disk.kept + {run.date},
         if run.outcome.Done? then disk.bare - {run.date} else disk.bare + {run.date})
  }

  lemma TakenHasToday(disk: Disk, run: Run)
    requires !run.outcome.BackupFails?
    ensures var taken := Taken(disk, run);
            taken.history != [] && taken.history[|taken.history| - 1].date == run.date && run.date in taken.kept
  {}

  /** The disk after the deletion. */
  ghost function Deleted(disk: Disk, deleteDate: nat): Disk {
    var left := Retained(disk.history, disk.kept, disk.bare, deleteDate);
    Disk(disk.history, left, disk.bare * left)
  }

  ghost function After(disk: Disk, run: Run): Disk {
    if run.outcome.BackupFails? || run.deleteDate.None? then Taken(disk, run)
    else Deleted(Taken(disk, run), run.deleteDate.value)
  }

  /** The deletion of the run, if there is one, is safe. */
  ghost predicate SafeRun(disk: Disk, run: Run) {
    var taken := Taken(disk, run);
    run.outcome.BackupFails? || run.deleteDate.None? || Safe(taken.history, taken.kept, taken.bare, run.deleteDate.value)
  }

  /** Every backup on disk can be restored, and the newest backup is there. */
  ghost predicate Sound(disk: Disk) {
    && Ascending(disk.history)
    && Recoverable(disk.history, disk.kept)
    && disk.bare <= disk.kept <= Dates(disk.history) + disk.bare
    && (disk.history != [] ==> disk.history[|disk.history| - 1].date in disk.kept)
  }

  /** A new increment builds on the newest backup's own chain. */
  lemma PredecessorIsInNewestChain(h: seq<Backup>, b: Backup, i: int)
    requires Predecessor(h + [b], i, |h|)
    ensures Visible(h, i, |h| - 1)
  {
    var g := h + [b];
    forall k | i < k <= |h| - 1 ensures h[k].level > h[i].level {
      assert g[k].level >= g[|h|].level > g[i].level;
    }
  }

  lemma NewBackupIsRecoverable(h: seq<Backup>, kept: set<nat>, b: Backup)
    requires Ascending(h + [b]) && Recoverable(h, kept)
    requires h != [] ==> h[|h| - 1].date in kept
    ensures Recoverable(h + [b], kept + {b.date})
  {
    var g := h + [b];
    forall i, j | Predecessor(g, i, j) && g[j].date in kept + {b.date}
      ensures g[i].date in kept + {b.date}
    {
      if j < |h| {
        assert g[j].date < g[|h|].date;
        forall k | i < k < j ensures h[k].level >= h[j].level {
          assert g[k].level >= g[j].level;
        }
        assert Predecessor(h, i, j);
      } else {
        PredecessorIsInNewestChain(h, b, i);
        RecoverableHasChain(h, kept, i, |h| - 1);
      }
    }
  }

  lemma DatesOfMore(h: seq<Backup>, b: Backup)
    ensures Dates(h + [b]) == Dates(h) + {b.date}
  {
    assert forall x :: x in h + [b] <==> x in h || x == b;
  }

  lemma OtherDateIsRecoverable(h: seq<Backup>, kept: set<nat>, d: nat)
    requires Recoverable(h, kept) && forall b <- h :: b.date != d
    ensures Recoverable(h, kept + {d})
  {
    forall i, j | Predecessor(h, i, j) && h[j].date in kept + {d} ensures h[i].date in kept + {d} {
      assert h[j] in h;
    }
  }

  lemma AscendingMore(h: seq<Backup>, b: Backup)
    requires Ascending(h) && forall x <- h :: x.date < b.date
    ensures Ascending(h + [b])
  {}

  lemma NewBackupIsSound(h: seq<Backup>, kept: set<nat>, bare: set<nat>, b: Backup, after: set<nat>)
    requires Sound(Disk(h, kept, bare)) && forall x <- h :: x.date < b.date
    requires bare - {b.date} <= after <= bare + {b.date}
    ensures Sound(Disk(h + [b], kept + {b.date}, after))
  {
    AscendingMore(h, b);
    NewBackupIsRecoverable(h, kept, b);
    DatesOfMore(h, b);
  }

  lemma FailedBackupIsSound(disk: Disk, d: nat)
    requires Sound(disk) && forall b <- disk.history :: b.date < d
    ensures Sound(Disk(disk.history, disk.kept + {d}, disk.bare + {d}))
  {
    OtherDateIsRecoverable(disk.history, disk.kept, d);
  }

  lemma TakenIsSound(disk: Disk, run: Run)
    requires Sound(disk) && Possible(disk, run)
    ensures Sound(Taken(disk, run))
  {
    if run.outcome.BackupFails? {
      FailedBackupIsSound(disk, run.date);
    } else {
      NewBackupIsSound(disk.history, disk.kept, disk.bare, Backup(run.date, run.level), Taken(disk, run).bare);
    }
  }

  lemma NewestStays(disk: Disk, deleteDate: nat)
    requires Sound(disk) && disk.history != []
    requires forall d <- disk.kept :: d <= disk.history[|disk.history| - 1].date
    ensures disk.history[|disk.history| - 1].date in Retained(disk.history, disk.kept, disk.bare, deleteDate)
  {
    var h, t := disk.history, |disk.history| - 1;
    if h[t].date <= deleteDate {
      assert IsAnchor(disk.kept, deleteDate, h[t].date);
      assert Visible(h, t, t);
      assert Reached(h, disk.kept, disk.bare, t, t);
      assert Spared(h, disk.kept, disk.bare, t, h[t].date);
      assert SparedFrom(h, disk.kept, disk.bare, deleteDate, h[t].date, h[t].date);
    }
  }

  lemma DeletedIsSound(disk: Disk, deleteDate: nat)
    requires Sound(disk) && disk.history != []
    requires forall d <- disk.kept :: d <= disk.history[|disk.history| - 1].date
    ensures Sound(Deleted(disk, deleteDate)) <==> Safe(disk.history, disk.kept, disk.bare, deleteDate)
    ensures disk.history[|disk.history| - 1].date in Deleted(disk, deleteDate).kept
  {
    RetainedIsRecoverable(disk.history, disk.kept, disk.bare, deleteDate);
    NewestStays(disk, deleteDate);
  }

  /** A run keeps every backup on disk recoverable exactly when its deletion is safe, and always
      leaves the directory of today. */
  lemma AfterIsSound(disk: Disk, run: Run)
    requires Sound(disk) && Possible(disk, run)
    ensures Sound(After(disk, run)) <==> SafeRun(disk, run)
    ensures run.date in After(disk, run).kept
  {
    TakenIsSound(disk, run);
    if !run.outcome.BackupFails? && run.deleteDate.Some? {
      DeletedIsSound(Taken(disk, run), run.deleteDate.value);
    }
  }

  ghost function AfterAll(runs: seq<Run>): Disk {
    if runs == [] then Disk([], {}, {}) else After(AfterAll(runs[..|runs| - 1]), runs[|runs| - 1])
  }

  ghost predicate AllPossible(runs: seq<Run>) {
    forall i | 0 <= i < |runs| :: Possible(AfterAll(runs[..i]), runs[i])
  }

  ghost predicate AllSafe(runs: seq<Run>) {
    forall i | 0 <= i < |runs| :: SafeRun(AfterAll(runs[..i]), runs[i])
  }

  lemma AllOfEarlier(runs: seq<Run>)
    requires runs != []
    ensures AllPossible(runs) ==> AllPossible(runs[..|runs| - 1]) && Possible(AfterAll(runs[..|runs| - 1]), runs[|runs| - 1])
    ensures AllSafe(runs) ==> AllSafe(runs[..|runs| - 1]) && SafeRun(AfterAll(runs[..|runs| - 1]), runs[|runs| - 1])
  {
    var earlier := runs[..|runs| - 1];
    assert forall k | 0 <= k < |earlier| :: earlier[..k] == runs[..k];
  }

  /** Over any sequence of runs, with any levels, periods and failures, in which every deletion is safe,
      every backup on disk keeps its whole recovery chain, down to a backup that needs no other. */
  lemma {:induction false} EveryRunKeepsChains(runs: seq<Run>, i: int, j: int)
    requires AllPossible(runs) && AllSafe(runs)
    ensures Sound(AfterAll(runs))
    ensures var disk := AfterAll(runs);
            Needs(disk.history, j, i) && disk.history[j].date in disk.kept ==> disk.history[i].date in disk.kept
  {
    if runs != [] {
      AllOfEarlier(runs);
      EveryRunKeepsChains(runs[..|runs| - 1], i, j);
      AfterIsSound(AfterAll(runs[..|runs| - 1]), runs[|runs| - 1]);
    }
    var disk := AfterAll(runs);
    NeedsIsVisible(disk.history, j, i);
    if Visible(disk.history, i, j) && disk.history[j].date in disk.kept {
      RecoverableHasChain(disk.history, disk.kept, i, j);
    }
  }

  /** Without failures every deletion is safe. */
  lemma {:induction false} CleanRunsAreSafe(runs: seq<Run>)
    requires forall r <- runs :: r.outcome.Done?
    ensures AllSafe(runs) && AfterAll(runs).bare == {}
  {
    if runs != [] {
      var earlier, last := runs[..|runs| - 1], runs[|runs| - 1];
      assert last in runs && forall r <- earlier :: r in runs;
      CleanRunsAreSafe(earlier);
      CleanRunIsSafe(AfterAll(earlier), last);
      forall k | 0 <= k < |runs| ensures SafeRun(AfterAll(runs[..k]), runs[k]) {
        if k < |earlier| {
          assert earlier[..k] == runs[..k] && earlier[k] == runs[k];
        } else {
          assert runs[..k] == earlier;
        }
      }
    }
  }

  lemma CleanRunIsSafe(disk: Disk, run: Run)
    requires disk.bare == {} && run.outcome.Done?
    ensures SafeRun(disk, run) && After(disk, run).bare == {}
  {
    assert Taken(disk, run).bare == {};
  }

  /** Outside the period a backup, inside it the directory of a failed one and then an increment. */
  lemma EmptyDirectoryBreaksChain(a: Backup, b: nat, c: Backup, deleteDate: nat)
    requires a.date <= deleteDate < b < c.date && a.level < c.level
    ensures !Safe([a, c], {a.date, b, c.date}, {b}, deleteDate)
  {
    var h, kept := [a, c], {a.date, b, c.date};
    assert IsAnchor(kept, deleteDate, b);
    assert OldestInside(h, kept, deleteDate, 1);
    assert Predecessor(h, 0, 1);
  }

  lemma AfterOne(run: Run)
    ensures AfterAll([run]) == After(Disk([], {}, {}), run)
  {
    assert [run][..0] == [];
  }

  lemma AfterMore(runs: seq<Run>, run: Run)
    ensures AfterAll(runs + [run]) == After(AfterAll(runs), run)
  {
    assert (runs + [run])[..|runs|] == runs;
  }

  /** A backup, a failed run, and an increment whose deletion date falls between the first two: the
      deletion keeps the empty directory and deletes what the increment needs. */
  lemma FailedRunBreaksChain(a: Run, b: Run, c: Run)
    requires a.date < b.date < c.date && a.level < c.level && a.deleteDate.None? && a.outcome.Done? && c.outcome.Done?
    requires b.outcome.BackupFails? && c.deleteDate.Some? && a.date <= c.deleteDate.value < b.date
    ensures Possible(Disk([], {}, {}), a) && Possible(AfterAll([a]), b) && Possible(AfterAll([a] + [b]), c)
    ensures !Sound(AfterAll([a] + [b] + [c]))
  {
    AfterTwo(a, b);
    AfterMore([a] + [b], c);
    IncrementBreaksChain(Backup(a.date, a.level), b.date, c);
  }

  lemma IncrementBreaksChain(x: Backup, d: nat, c: Run)
    requires x.date < d < c.date && x.level < c.level && c.outcome.Done?
    requires c.deleteDate.Some? && x.date <= c.deleteDate.value < d
    ensures var disk := Disk([x], {x.date, d}, {d}); Possible(disk, c) && !Sound(After(disk, c))
  {
    var disk, y := Disk([x], {x.date, d}, {d}), Backup(c.date, c.level);
    OneIsSound(x, d);
    EmptyDirectoryBreaksChain(x, d, y, c.deleteDate.value);
    assert Taken(disk, c) == Disk([x, y], {x.date, d, c.date}, {d}) by {
      assert [x] + [y] == [x, y];
      assert {x.date, d} + {c.date} == {x.date, d, c.date};
      assert {d} - {c.date} == {d};
    }
    AfterIsSound(disk, c);
  }

  lemma AfterTwo(a: Run, b: Run)
    requires a.date < b.date && a.deleteDate.None? && a.outcome.Done? && b.outcome.BackupFails?
    ensures AfterAll([a]) == Disk([Backup(a.date, a.level)], {a.date}, {})
    ensures AfterAll([a] + [b]) == Disk([Backup(a.date, a.level)], {a.date, b.date}, {b.date})
  {
    AfterOne(a);
    AfterMore([a], b);
  }

  lemma OneIsSound(x: Backup, d: nat)
    ensures Sound(Disk([x], {x.date, d}, {d}))
  {
    assert x in [x];
  }

  // ---------------------------------------------------------------- the script

  lemma {:induction false} Newest(dates: set<nat>) returns (m: nat)
    requires dates != {}
    ensures m in dates && forall d <- dates :: d <= m
  {
    m :| m in dates;
    if dates != {m} {
      var n := Newest(dates - {m});
      assert forall d <- dates :: d == m || d in dates - {m};
      m := if m < n then n else m;
    }
  }

  /** ls -dlr: the date directories, newest first. */
  method NewestFirst(dates: set<nat>) returns (listing: seq<nat>)
    ensures Descending(listing)
    ensures forall d :: d in listing <==> d in dates
  {
    listing := [];
    var rest := dates;
    while rest != {}
      invariant rest <= dates && Descending(listing)
      invariant forall d :: d in listing <==> d in dates && d !in rest
      invariant forall i, e | 0 <= i < |listing| && e in rest :: listing[i] > e
      decreases rest
    {
      ghost var newest := Newest(rest);
      var m :| m in rest && forall d <- rest :: d <= m;
      assert forall i | 0 <= i < |listing| :: listing[i] > m;
      listing := listing + [m];
      rest := rest - {m};
    }
  }

  /** The backup directory of one database: each date directory with its copy of _bkvinf, empty when
      there is none, and the current _bkvinf in the log directory. */
  class BackupDirectory {
    var bkvinf: seq<Backup>
    var dirs: map<nat, seq<Backup>>
    ghost var history: seq<Backup>

    ghost function Contents(): Disk
      reads this
    {
      Disk(history, dirs.Keys, Bare(dirs))
    }

    ghost predicate Valid()
      reads this
    {
      Ascending(history) && Files(history, dirs) && bkvinf == BkvInf(history)
    }

    constructor ()
      ensures Valid() && Contents() == Disk([], {}, {})
    {
      bkvinf, dirs, history := [], map[], [];
    }

    /** ft_init_info_variable: today's directory, anew. */
    method MakeDirectory(date: nat)
      requires Valid()
      modifies this`dirs
      ensures Valid() && dirs == old(dirs)[date := []]
    {
      FilesWithBare(history, dirs, date);
      dirs := dirs[date := []];
    }

    /** ft_backup_database: takes the backup and copies _bkvinf. */
    method BackupDatabase(run: Run) returns (ok: bool)
      requires Valid() && (forall b <- history :: b.date < run.date) && run.date in dirs && dirs[run.date] == []
      modifies this
      ensures Valid() && history == NewHistory(old(history), run)
      ensures dirs == if run.outcome.Done? then old(dirs)[run.date := bkvinf] else old(dirs)
      ensures ok <==> !run.outcome.BackupFails?
    {
      if run.outcome.BackupFails? {
        return false;
      }
      ghost var b := Backup(run.date, run.level);
      AscendingMore(history, b);
      BkvInfOfMore(history, b);
      if run.outcome.Done? {
        FilesWithFile(history, dirs, b, BkvInf(history + [b]));
      } else {
        FilesWithoutCopy(history, dirs, b);
      }
      bkvinf := Below(bkvinf, run.level) + [Backup(run.date, run.level)];
      history := history + [Backup(run.date, run.level)];
      if run.outcome.Done? {
        dirs := dirs[run.date := bkvinf];
      }
      return true;
    }

    /** What a run does before it deletes. */
    method TakeBackup(run: Run) returns (ok: bool)
      requires Valid() && Possible(Contents(), run)
      modifies this
      ensures Valid() && Contents() == Taken(old(Contents()), run)
      ensures ok <==> !run.outcome.BackupFails?
    {
      MakeDirectory(run.date);
      ok := BackupDatabase(run);
      DirsAfterTaking(old(dirs), dirs, run.date, bkvinf, run.outcome.Done?);
    }

    /** The loop of ft_delete_old_backup over every date directory. */
    method DeleteUnneeded(allBackupDate: seq<nat>, backupDate: nat, deleteDate: nat)
      requires Descending(allBackupDate) && forall d :: d in allBackupDate <==> d in dirs
      modifies this`dirs
      ensures forall d :: d in dirs <==> d in Pass(old(dirs), allBackupDate, deleteDate, Some(backupDate), false, true)
      ensures forall d <- dirs :: d in old(dirs) && dirs[d] == old(dirs)[d]
    {
      var allDelete := false;
      var needPrevBackupDate: Option<nat> := Some(backupDate);
      var i: nat := 0;
      ghost var goal := Pass(dirs, allBackupDate, deleteDate, needPrevBackupDate, allDelete, true);
      ghost var left: set<nat> := {};
      ghost var state := Decision(false, needPrevBackupDate, allDelete);
      assert allBackupDate[0..] == allBackupDate;
      while i < |allBackupDate|
        invariant i <= |allBackupDate|
        invariant Underway(old(dirs), allBackupDate, deleteDate, goal, dirs, i, left, state)
        invariant needPrevBackupDate == state.need && allDelete == state.allDelete
      {
        var date := allBackupDate[i];
        state := Round(old(dirs), allBackupDate, deleteDate, goal, dirs, i, left, state);
        i := i + 1;
        if allDelete {
          dirs := dirs - {date};
          continue;
        }
        if date > deleteDate {
          needPrevBackupDate := NeededDate(dirs[date]);
          if needPrevBackupDate.None? {
            needPrevBackupDate := Some(date);
          }
          left := left + {date};
          continue;
        }
        if needPrevBackupDate.Some? && date != needPrevBackupDate.value {
          dirs := dirs - {date};
          continue;
        }
        left := left + {date};
        if needPrevBackupDate == Some(date) {
          needPrevBackupDate := NeededDate(dirs[date]);
          if needPrevBackupDate == Some(date) {
            allDelete := true;
          }
        }
      }
    }

    /** ft_delete_old_backup. */
    method DeleteOldBackup(backupDate: nat, deleteDate: nat)
      requires Valid() && history != [] && history[|history| - 1].date == backupDate
      requires backupDate in dirs && forall d <- dirs :: d <= backupDate
      modifies this`dirs
      ensures Valid() && Contents() == Deleted(old(Contents()), deleteDate)
      ensures forall d <- dirs :: d in old(dirs) && dirs[d] == old(dirs)[d]
    {
      var allBackupDate := NewestFirst(dirs.Keys);
      DeleteUnneeded(allBackupDate, backupDate, deleteDate);
      AfterDeleting(history, old(dirs), allBackupDate, backupDate, deleteDate, dirs);
    }

    /** The `start` command for one database; it exits with an error when the backup fails. */
    method Start(run: Run) returns (ok: bool)
      requires Valid() && Possible(Contents(), run)
      modifies this
      ensures Valid() && Contents() == After(old(Contents()), run)
      ensures ok <==> !run.outcome.BackupFails?
    {
      ok := TakeBackup(run);
      if ok && run.deleteDate.Some? {
        TakenHasToday(old(Contents()), run);
        DeleteOldBackup(run.date, run.deleteDate.value);
      }
    }
  }

  lemma FilesWithBare(h: seq<Backup>, infos: map<nat, seq<Backup>>, d: nat)
    requires Files(h, infos)
    ensures Files(h, infos[d := []])
  {
    forall j | 0 <= j < |h| && h[j].date in infos[d := []] ensures FileOf(h, infos[d := []], j) {
      assert h[j].date != d ==> FileOf(h, infos, j);
    }
  }

  lemma FilesWithFile(h: seq<Backup>, infos: map<nat, seq<Backup>>, b: Backup, info: seq<Backup>)
    requires Files(h, infos) && (forall x <- h :: x.date < b.date) && (info == [] || info == BkvInf(h + [b]))
    ensures Files(h + [b], infos[b.date := info])
  {
    var g, files := h + [b], infos[b.date := info];
    DatesOfMore(h, b);
    forall j | 0 <= j < |g| && g[j].date in files ensures FileOf(g, files, j) {
      if j < |h| {
        assert g[j] == h[j] && h[j] in h;
        assert h[j].date in infos && FileOf(h, infos, j);
        assert h[..j + 1] == g[..j + 1];
      } else {
        assert g[..j + 1] == g;
      }
    }
  }

  lemma BkvInfOfMore(h: seq<Backup>, b: Backup)
    ensures BkvInf(h + [b]) == Below(BkvInf(h), b.level) + [b]
  {
    assert (h + [b])[..|h|] == h;
  }

  lemma BareWithFile(infos: map<nat, seq<Backup>>, d: nat, info: seq<Backup>)
    requires info != []
    ensures Bare(infos[d := info]) == Bare(infos) - {d}
  {}

  /** The files after the backup of a run. */

  lemma BareWithout(infos: map<nat, seq<Backup>>, d: nat)
    ensures Bare(infos[d := []]) == Bare(infos) + {d}
  {}


  lemma DirsAfterTaking(before: map<nat, seq<Backup>>, dirs: map<nat, seq<Backup>>, date: nat, info: seq<Backup>, done: bool)
    requires dirs == if done then before[date := []][date := info] else before[date := []]
    requires done ==> info != []
    ensures dirs.Keys == before.Keys + {date}
    ensures Bare(dirs) == if done then Bare(before) - {date} else Bare(before) + {date}
  {
    if done {
      assert before[date := []][date := info] == before[date := info];
      BareWithFile(before, date, info);
    } else {
      BareWithout(before, date);
    }
  }

  /** The history after the backup of a run. */
  ghost function NewHistory(h: seq<Backup>, run: Run): seq<Backup> {
    if run.outcome.BackupFails? then h else h + [Backup(run.date, run.level)]
  }

  lemma FilesWithoutCopy(h: seq<Backup>, infos: map<nat, seq<Backup>>, b: Backup)
    requires Files(h, infos) && (forall x <- h :: x.date < b.date) && b.date in infos && infos[b.date] == []
    ensures Files(h + [b], infos)
  {
    FilesWithFile(h, infos, b, []);
    assert infos[b.date := []] == infos;
  }


  lemma AfterDeleting(h: seq<Backup>, infos: map<nat, seq<Backup>>, listing: seq<nat>, today: nat, deleteDate: nat,
                      left: map<nat, seq<Backup>>)
    requires Ascending(h) && Files(h, infos) && today in infos && today in Dates(h) && forall x <- infos :: x <= today
    requires Descending(listing) && forall d :: d in listing <==> d in infos
    requires forall d :: d in left <==> d in Pass(infos, listing, deleteDate, Some(today), false, true)
    requires forall d <- left :: d in infos && left[d] == infos[d]
    ensures Files(h, left)
    ensures left.Keys == Retained(h, infos.Keys, Bare(infos), deleteDate) && Bare(left) == Bare(infos) * left.Keys
  {
    forall j | 0 <= j < |h| && h[j].date in left ensures FileOf(h, left, j) {
      assert FileOf(h, infos, j);
    }
    forall d ensures d in left.Keys <==> d in Retained(h, infos.Keys, Bare(infos), deleteDate) {
      PassIsRetained(h, infos, listing, deleteDate, today, d);
    }
  }
}
