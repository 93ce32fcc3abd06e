/** The loop of ft_delete_old_backup in backupdb.sh: one pass over the date directories, newest first,
    that remembers a single needed date and leaves exactly what stays. */
module BackupPass {
  import opened Wrappers
  import opened BackupRetention

  // ---------------------------------------------------------------- the deletion pass

  ghost predicate Descending(listing: seq<nat>) {
    forall i, j | 0 <= i < j < |listing| :: listing[i] > listing[j]
  }

  /** What one round of the loop decides: whether the directory stays, and the next values of
      NEED_PREV_BACKUP_DATE and ALL_DELETE_YN. `shortcut` is whether ALL_DELETE_YN is ever set. */
  datatype Decision = Decision(keep: bool, need: Option<nat>, allDelete: bool)

  function Decide(info: seq<Backup>, date: nat, deleteDate: nat, need: Option<nat>, allDelete: bool,
                  shortcut: bool): Decision
  {
    var own := NeededDate(info);
    if allDelete then Decision(false, need, true)
    else if date > deleteDate then Decision(true, if own.None? then Some(date) else own, false)
    else if need.None? then Decision(true, need, false)
    else if date != need.value then Decision(false, need, false)
    else Decision(true, own, shortcut && own == Some(date))
  }

  /** The loop of ft_delete_old_backup over the date directories, newest first: the dates it
      leaves in place. */
  function Pass(infos: map<nat, seq<Backup>>, listing: seq<nat>, deleteDate: nat, need: Option<nat>,
                allDelete: bool, shortcut: bool): (kept: set<nat>)
    requires forall d <- listing :: d in infos
    ensures forall d <- kept :: d in listing
  {
    if listing == [] then {}
    else
      var round := Decide(infos[listing[0]], listing[0], deleteDate, need, allDelete, shortcut);
      var later := Pass(infos, listing[1..], deleteDate, round.need, round.allDelete, shortcut);
      if round.keep then {listing[0]} + later else later
  }

  /** Before round i: the rounds so far and the rounds to come leave the goal together, and the
      directories on disk are those left so far and those still ahead. */
  ghost predicate Underway(infos: map<nat, seq<Backup>>, listing: seq<nat>, deleteDate: nat, goal: set<nat>,
                           dirs: map<nat, seq<Backup>>, i: nat, left: set<nat>, state: Decision)
    requires forall d <- listing :: d in infos
  {
    && i <= |listing|
    && goal == left + Pass(infos, listing[i..], deleteDate, state.need, state.allDelete, true)
    && (forall d :: d in dirs <==> d in left || d in listing[i..])
    && (forall d <- left :: d !in listing[i..])
    && (forall d <- dirs :: d in infos && dirs[d] == infos[d])
  }

  lemma SplitListing(listing: seq<nat>, i: nat)
    requires Descending(listing) && i < |listing|
    ensures listing[i..] == [listing[i]] + listing[i + 1..] && listing[i..][1..] == listing[i + 1..]
    ensures forall d :: d in listing[i..] <==> d == listing[i] || d in listing[i + 1..]
    ensures listing[i] !in listing[i + 1..]
  {}

  lemma PassRound(infos: map<nat, seq<Backup>>, listing: seq<nat>, deleteDate: nat, i: nat, state: Decision)
    requires Descending(listing) && (forall d <- listing :: d in infos) && i < |listing|
    ensures var next := Decide(infos[listing[i]], listing[i], deleteDate, state.need, state.allDelete, true);
            Pass(infos, listing[i..], deleteDate, state.need, state.allDelete, true)
            == (if next.keep then {listing[i]} else {})
               + Pass(infos, listing[i + 1..], deleteDate, next.need, next.allDelete, true)
  {
    SplitListing(listing, i);
  }

  lemma Round(infos: map<nat, seq<Backup>>, listing: seq<nat>, deleteDate: nat, goal: set<nat>,
              dirs: map<nat, seq<Backup>>, i: nat, left: set<nat>, state: Decision) returns (next: Decision)
    requires Descending(listing) && (forall d <- listing :: d in infos) && i < |listing|
    requires Underway(infos, listing, deleteDate, goal, dirs, i, left, state)
    ensures listing[i] in dirs
    ensures next == Decide(dirs[listing[i]], listing[i], deleteDate, state.need, state.allDelete, true)
    ensures next.keep ==> Underway(infos, listing, deleteDate, goal, dirs, i + 1, left + {listing[i]}, next)
    ensures !next.keep ==> Underway(infos, listing, deleteDate, goal, dirs - {listing[i]}, i + 1, left, next)
  {
    SplitListing(listing, i);
    PassRound(infos, listing, deleteDate, i, state);
    next := Decide(infos[listing[i]], listing[i], deleteDate, state.need, state.allDelete, true);
  }

  lemma {:induction false} AllDeleteKeepsNothing(infos: map<nat, seq<Backup>>, listing: seq<nat>, deleteDate: nat,
                                                 need: Option<nat>, shortcut: bool)
    requires forall d <- listing :: d in infos
    ensures Pass(infos, listing, deleteDate, need, true, shortcut) == {}
  {
    if listing != [] {
      assert forall d <- listing[1..] :: d in listing;
      AllDeleteKeepsNothing(infos, listing[1..], deleteDate, need, shortcut);
    }
  }

  lemma {:induction false} UnmatchedKeepsNothing(infos: map<nat, seq<Backup>>, listing: seq<nat>, deleteDate: nat,
                                                 need: nat, shortcut: bool)
    requires forall d <- listing :: d in infos && d <= deleteDate && d < need
    ensures Pass(infos, listing, deleteDate, Some(need), false, shortcut) == {}
  {
    if listing != [] {
      assert listing[0] in listing && forall d <- listing[1..] :: d in listing;
      UnmatchedKeepsNothing(infos, listing[1..], deleteDate, need, shortcut);
    }
  }

  lemma DescendingTail(listing: seq<nat>)
    requires Descending(listing) && listing != []
    ensures Descending(listing[1..])
    ensures forall d <- listing[1..] :: d in listing && d < listing[0]
  {
    forall d | d in listing[1..] ensures d in listing && d < listing[0] {
      var i :| 0 <= i < |listing[1..]| && listing[1..][i] == d;
      assert listing[i + 1] == d;
    }
  }

  /** ALL_DELETE_YN only saves time: whatever the files contain, the pass leaves the same dates
      with it and without it. */
  lemma {:induction false} ShortcutChangesNothing(infos: map<nat, seq<Backup>>, listing: seq<nat>, deleteDate: nat,
                                                  need: Option<nat>)
    requires Descending(listing) && forall d <- listing :: d in infos
    ensures Pass(infos, listing, deleteDate, need, false, true) == Pass(infos, listing, deleteDate, need, false, false)
  {
    if listing != [] {
      var date, rest := listing[0], listing[1..];
      DescendingTail(listing);
      var round := Decide(infos[date], date, deleteDate, need, false, true);
      if round.allDelete {
        AllDeleteKeepsNothing(infos, rest, deleteDate, round.need, true);
        UnmatchedKeepsNothing(infos, rest, deleteDate, date, false);
      } else {
        ShortcutChangesNothing(infos, rest, deleteDate, round.need);
      }
    }
  }

  // ---------------------------------------------------------------- the pass leaves what stays

  ghost predicate FileOf(h: seq<Backup>, infos: map<nat, seq<Backup>>, j: int)
    requires 0 <= j < |h| && h[j].date in infos
  {
    infos[h[j].date] == [] || infos[h[j].date] == BkvInf(h[..j + 1])
  }

  /** Every file in a date directory is the _bkvinf of the backup of that date. A directory holds none
      when its backup failed, or the copy of the file did. */
  ghost predicate Files(h: seq<Backup>, infos: map<nat, seq<Backup>>) {
    && (forall j {:trigger FileOf(h, infos, j)} | 0 <= j < |h| && h[j].date in infos :: FileOf(h, infos, j))
    && forall d <- infos :: d in Dates(h) || infos[d] == []
  }

  /** The directories without a file. */
  ghost function Bare(infos: map<nat, seq<Backup>>): set<nat> { set d | d in infos && infos[d] == [] }

  /** `rest` lists the date directories below a date, newest first. */
  ghost predicate Lists(infos: map<nat, seq<Backup>>, rest: seq<nat>, below: nat) {
    Descending(rest) && forall d :: d in rest <==> d in infos && d < below
  }

  lemma ListsRest(infos: map<nat, seq<Backup>>, rest: seq<nat>, below: nat)
    requires Lists(infos, rest, below) && rest != []
    ensures rest[0] in infos && rest[0] < below
    ensures Lists(infos, rest[1..], rest[0]) && forall d <- rest[1..] :: d in rest && d < rest[0]
  {
    assert rest[0] in rest;
    DescendingTail(rest);
    forall d | d in infos && d < rest[0] ensures d in rest[1..] {
      assert d in rest;
    }
  }

  lemma {:induction false} NoneKeepsAll(infos: map<nat, seq<Backup>>, listing: seq<nat>, deleteDate: nat)
    requires forall d <- listing :: d in infos && d <= deleteDate
    ensures forall d :: d in Pass(infos, listing, deleteDate, None, false, true) <==> d in listing
  {
    if listing != [] {
      assert listing[0] in listing && forall d <- listing[1..] :: d in listing;
      NoneKeepsAll(infos, listing[1..], deleteDate);
    }
  }

  /** The chain from o down to p is on disk with all its files. */
  ghost predicate Held(h: seq<Backup>, infos: map<nat, seq<Backup>>, o: int, p: int) {
    && Visible(h, p, o)
    && forall m | p <= m <= o && Visible(h, m, o) :: h[m].date in infos && infos[h[m].date] != []
  }

  lemma HeldAbove(h: seq<Backup>, infos: map<nat, seq<Backup>>, o: int, p: int, j: int)
    requires Ascending(h) && Held(h, infos, o, p) && Visible(h, j, o)
    ensures p <= j ==> h[p].date <= h[j].date && h[j].date !in Bare(infos)
  {}

  /** Below p, only what p's predecessor reaches is spared. */
  lemma SparedNeedsPredecessor(h: seq<Backup>, infos: map<nat, seq<Backup>>, o: int, p: int, d: nat) returns (q: int)
    requires Ascending(h) && Held(h, infos, o, p) && d < h[p].date && Spared(h, infos.Keys, Bare(infos), o, d)
    ensures Predecessor(h, q, p) && h[q].date in infos && d <= h[q].date
  {
    var kept, bare := infos.Keys, Bare(infos);
    var j := SparedReaches(h, kept, bare, o, d);
    HeldAbove(h, infos, o, p, j);
    assert Visible(h, j, p);
    q := PredecessorExists(h, j, p);
    VisibleOfPredecessor(h, q, p, o);
    assert h[q].date in kept && h[j].date <= h[q].date;
  }

  /** The chain reaches the predecessor of p. */
  lemma ReachedStep(h: seq<Backup>, infos: map<nat, seq<Backup>>, o: int, p: int, q: int)
    requires Held(h, infos, o, p) && Predecessor(h, q, p) && h[q].date in infos
    ensures Reached(h, infos.Keys, Bare(infos), o, q)
    ensures infos[h[q].date] != [] ==> Held(h, infos, o, q)
  {
    VisibleOfPredecessor(h, q, p, o);
    assert forall m | q < m < p :: h[m].level >= h[p].level;
  }

  /** Below the period: p is the last backup looked up, it is on the chain of o, and every directory
      that p needs is still ahead if it is on disk. */
  ghost predicate Pending(h: seq<Backup>, infos: map<nat, seq<Backup>>, rest: seq<nat>, deleteDate: nat,
                          below: nat, p: int, o: int) {
    && Ascending(h) && Files(h, infos) && Lists(infos, rest, below)
    && (forall d <- rest :: d <= deleteDate)
    && Held(h, infos, o, p) && below <= h[p].date
    && forall q | Predecessor(h, q, p) && h[q].date in infos :: h[q].date < below
  }

  lemma PendingFile(h: seq<Backup>, infos: map<nat, seq<Backup>>, rest: seq<nat>, deleteDate: nat,
                    below: nat, p: int, o: int)
    requires Pending(h, infos, rest, deleteDate, below, p, o)
    ensures h[p].date in infos
    ensures forall q | Predecessor(h, q, p) :: NeededDate(infos[h[p].date]) == Some(h[q].date)
    ensures (forall q :: !Predecessor(h, q, p)) ==> NeededDate(infos[h[p].date]) == Some(h[p].date)
  {
    assert Visible(h, p, o);
    assert FileOf(h, infos, p);
    NeededDateIsPredecessor(h, p);
  }

  lemma PendingHead(h: seq<Backup>, infos: map<nat, seq<Backup>>, rest: seq<nat>, deleteDate: nat,
                    below: nat, p: int, o: int)
    requires Pending(h, infos, rest, deleteDate, below, p, o) && rest != []
    ensures rest[0] in infos && rest[0] <= deleteDate && rest[0] < below
    ensures Lists(infos, rest[1..], rest[0])
    ensures forall d <- rest[1..] :: d in rest && d in infos && d <= deleteDate && d < rest[0]
  {
    assert rest[0] in rest;
    ListsRest(infos, rest, below);
  }

  /** p needs nothing: nothing below it stays. */
  lemma PassWithoutPredecessor(h: seq<Backup>, infos: map<nat, seq<Backup>>, rest: seq<nat>, deleteDate: nat,
                               below: nat, p: int, o: int, d: nat)
    requires Pending(h, infos, rest, deleteDate, below, p, o) && d in rest
    requires forall q :: !Predecessor(h, q, p)
    ensures Pass(infos, rest, deleteDate, NeededDate(infos[h[p].date]), false, true) == {}
    ensures !Spared(h, infos.Keys, Bare(infos), o, d)
  {
    PendingFile(h, infos, rest, deleteDate, below, p, o);
    UnmatchedKeepsNothing(infos, rest, deleteDate, h[p].date, true);
    if Spared(h, infos.Keys, Bare(infos), o, d) {
      var q := SparedNeedsPredecessor(h, infos, o, p, d);
    }
  }

  /** The first directory is the one p remembers, and holds no file: everything stays. */
  lemma PassAtGap(h: seq<Backup>, infos: map<nat, seq<Backup>>, rest: seq<nat>, deleteDate: nat,
                  below: nat, p: int, o: int, q: int, d: nat)
    requires Pending(h, infos, rest, deleteDate, below, p, o) && d in rest
    requires Predecessor(h, q, p) && h[q].date == rest[0] && infos[rest[0]] == []
    ensures d in Pass(infos, rest, deleteDate, NeededDate(infos[h[p].date]), false, true)
    ensures Spared(h, infos.Keys, Bare(infos), o, d)
  {
    PendingFile(h, infos, rest, deleteDate, below, p, o);
    PendingHead(h, infos, rest, deleteDate, below, p, o);
    ReachedStep(h, infos, o, p, q);
    NoneKeepsAll(infos, rest[1..], deleteDate);
  }

  /** The first directory is the one p remembers; p's predecessor takes over. */
  lemma PassAtMatch(h: seq<Backup>, infos: map<nat, seq<Backup>>, rest: seq<nat>, deleteDate: nat,
                    below: nat, p: int, o: int, q: int)
    requires Pending(h, infos, rest, deleteDate, below, p, o) && rest != []
    requires Predecessor(h, q, p) && h[q].date == rest[0] && rest[0] in infos && infos[rest[0]] != []
    ensures forall d <- rest[1..] :: d in infos
    ensures Pass(infos, rest, deleteDate, NeededDate(infos[h[p].date]), false, true)
            == {rest[0]} + Pass(infos, rest[1..], deleteDate, NeededDate(infos[rest[0]]), false, true)
  {
    PendingFile(h, infos, rest, deleteDate, below, p, o);
    PendingHead(h, infos, rest, deleteDate, below, p, o);
    var own := NeededDate(infos[rest[0]]);
    if own == Some(rest[0]) {
      AllDeleteKeepsNothing(infos, rest[1..], deleteDate, own, true);
      UnmatchedKeepsNothing(infos, rest[1..], deleteDate, rest[0], true);
    }
  }

  lemma PendingAfterMatch(h: seq<Backup>, infos: map<nat, seq<Backup>>, rest: seq<nat>, deleteDate: nat,
                          below: nat, p: int, o: int, q: int)
    requires Pending(h, infos, rest, deleteDate, below, p, o) && rest != []
    requires Predecessor(h, q, p) && h[q].date == rest[0] && rest[0] in infos && infos[rest[0]] != []
    ensures Pending(h, infos, rest[1..], deleteDate, rest[0], q, o)
    ensures Spared(h, infos.Keys, Bare(infos), o, rest[0])
  {
    PendingHead(h, infos, rest, deleteDate, below, p, o);
    ReachedStep(h, infos, o, p, q);
  }

  /** The first directory is not the one p remembers; it goes. */
  lemma PassPastUnneeded(h: seq<Backup>, infos: map<nat, seq<Backup>>, rest: seq<nat>, deleteDate: nat,
                         below: nat, p: int, o: int, q: int)
    requires Pending(h, infos, rest, deleteDate, below, p, o) && rest != []
    requires Predecessor(h, q, p) && h[q].date != rest[0]
    ensures forall d <- rest[1..] :: d in infos
    ensures Pass(infos, rest, deleteDate, NeededDate(infos[h[p].date]), false, true)
            == Pass(infos, rest[1..], deleteDate, NeededDate(infos[h[p].date]), false, true)
  {
    PendingFile(h, infos, rest, deleteDate, below, p, o);
    PendingHead(h, infos, rest, deleteDate, below, p, o);
  }

  lemma PredecessorIsOne(h: seq<Backup>, q: int, r: int, p: int)
    requires Predecessor(h, q, p) && Predecessor(h, r, p)
    ensures q == r
  {
    assert !(q < r) && !(r < q);
  }

  lemma PendingPastUnneeded(h: seq<Backup>, infos: map<nat, seq<Backup>>, rest: seq<nat>, deleteDate: nat,
                            below: nat, p: int, o: int, q: int)
    requires Pending(h, infos, rest, deleteDate, below, p, o) && rest != []
    requires Predecessor(h, q, p) && h[q].date != rest[0]
    ensures Pending(h, infos, rest[1..], deleteDate, rest[0], p, o)
    ensures rest[0] !in rest[1..] && !Spared(h, infos.Keys, Bare(infos), o, rest[0])
  {
    PendingHead(h, infos, rest, deleteDate, below, p, o);
    forall r | Predecessor(h, r, p) && h[r].date in infos ensures h[r].date < rest[0] {
      PredecessorIsOne(h, q, r, p);
      assert h[r].date in rest;
      assert h[r].date in rest[1..];
    }
    if Spared(h, infos.Keys, Bare(infos), o, rest[0]) {
      var r := SparedNeedsPredecessor(h, infos, o, p, rest[0]);
    }
  }

  lemma {:induction false} PassBelowPeriod(h: seq<Backup>, infos: map<nat, seq<Backup>>, rest: seq<nat>,
                                           deleteDate: nat, below: nat, p: int, o: int, d: nat)
    requires Pending(h, infos, rest, deleteDate, below, p, o) && d in rest
    ensures h[p].date in infos && forall x <- rest :: x in infos
    ensures d in Pass(infos, rest, deleteDate, NeededDate(infos[h[p].date]), false, true)
            <==> Spared(h, infos.Keys, Bare(infos), o, d)
    decreases |rest|
  {
    PendingFile(h, infos, rest, deleteDate, below, p, o);
    PendingHead(h, infos, rest, deleteDate, below, p, o);
    if q :| Predecessor(h, q, p) {
      if h[q].date != rest[0] {
        PassPastUnneeded(h, infos, rest, deleteDate, below, p, o, q);
        PendingPastUnneeded(h, infos, rest, deleteDate, below, p, o, q);
        if d != rest[0] {
          PassBelowPeriod(h, infos, rest[1..], deleteDate, rest[0], p, o, d);
        }
      } else if infos[rest[0]] == [] {
        PassAtGap(h, infos, rest, deleteDate, below, p, o, q, d);
      } else {
        PassAtMatch(h, infos, rest, deleteDate, below, p, o, q);
        PendingAfterMatch(h, infos, rest, deleteDate, below, p, o, q);
        if d != rest[0] {
          PassBelowPeriod(h, infos, rest[1..], deleteDate, rest[0], q, o, d);
        }
      }
    } else {
      PassWithoutPredecessor(h, infos, rest, deleteDate, below, p, o, d);
    }
  }

  /** What the pass remembers after a directory inside the period. */
  function NeedInside(info: seq<Backup>, date: nat): Option<nat> {
    var own := NeededDate(info);
    if own.None? then Some(date) else own
  }

  lemma FileOfAnchor(h: seq<Backup>, infos: map<nat, seq<Backup>>, a: nat) returns (o: int)
    requires Ascending(h) && Files(h, infos) && a in infos && infos[a] != []
    ensures 0 <= o < |h| && h[o].date == a && Held(h, infos, o, o)
    ensures NeedInside(infos[a], a) == NeededDate(infos[a])
  {
    o := IndexOf(h, a);
    assert FileOf(h, infos, o);
    NeededDateIsPredecessor(h, o);
    assert Visible(h, o, o);
  }

  /** From the anchor on, when it is inside the period. */
  lemma PassFromAnchor(h: seq<Backup>, infos: map<nat, seq<Backup>>, rest: seq<nat>, deleteDate: nat, a: nat, d: nat)
    requires Ascending(h) && Files(h, infos) && Lists(infos, rest, a) && d in rest
    requires a in infos && a > deleteDate && forall x <- rest :: x <= deleteDate
    ensures d in Pass(infos, rest, deleteDate, NeedInside(infos[a], a), false, true)
            <==> SparedFrom(h, infos.Keys, Bare(infos), deleteDate, a, d)
  {
    if infos[a] == [] {
      UnmatchedKeepsNothing(infos, rest, deleteDate, a, true);
    } else {
      var o := FileOfAnchor(h, infos, a);
      assert Pending(h, infos, rest, deleteDate, a, o, o);
      PassBelowPeriod(h, infos, rest, deleteDate, a, o, o, d);
      SparedFromOne(h, infos.Keys, Bare(infos), deleteDate, o, d);
    }
  }

  lemma {:induction false} PassFromPeriod(h: seq<Backup>, infos: map<nat, seq<Backup>>, rest: seq<nat>,
                                          deleteDate: nat, below: nat, need: Option<nat>, a: nat, d: nat)
    requires Ascending(h) && Files(h, infos) && Lists(infos, rest, below) && d in rest
    requires IsAnchor(infos.Keys, deleteDate, a) && a > deleteDate
    requires a < below || (a == below && need == NeedInside(infos[a], a))
    ensures d in Pass(infos, rest, deleteDate, need, false, true)
            <==> d > deleteDate || SparedFrom(h, infos.Keys, Bare(infos), deleteDate, a, d)
    decreases |rest|
  {
    if a == below {
      PassFromAnchor(h, infos, rest, deleteDate, a, d);
    } else {
      ListsRest(infos, rest, below);
      assert a in rest;
      if d != rest[0] {
        PassFromPeriod(h, infos, rest[1..], deleteDate, rest[0], NeedInside(infos[rest[0]], rest[0]), a, d);
      }
    }
  }

  /** With nothing inside the period the first directory, today's, is the remembered one. */
  lemma PassFromToday(h: seq<Backup>, infos: map<nat, seq<Backup>>, rest: seq<nat>, deleteDate: nat, t: int, d: nat)
    requires Ascending(h) && Files(h, infos) && 0 <= t < |h| && h[t].date in infos && h[t].date <= deleteDate
    requires Lists(infos, rest, h[t].date) && (d == h[t].date || d in rest)
    ensures forall x <- [h[t].date] + rest :: x in infos
    ensures d in Pass(infos, [h[t].date] + rest, deleteDate, Some(h[t].date), false, true)
            <==> Spared(h, infos.Keys, Bare(infos), t, d)
  {
    var today := h[t].date;
    var own := NeededDate(infos[today]);
    assert Visible(h, t, t);
    assert Reached(h, infos.Keys, Bare(infos), t, t);
    assert ([today] + rest)[1..] == rest;
    if infos[today] == [] {
      NoneKeepsAll(infos, rest, deleteDate);
    } else {
      var o := FileOfAnchor(h, infos, today);
      SameIndex(h, o, t);
      if own == Some(today) {
        AllDeleteKeepsNothing(infos, rest, deleteDate, own, true);
        UnmatchedKeepsNothing(infos, rest, deleteDate, today, true);
      }
      if d != today {
        assert Pending(h, infos, rest, deleteDate, today, t, t);
        PassBelowPeriod(h, infos, rest, deleteDate, today, t, t, d);
      }
    }
  }

  lemma StaysByAnchor(h: seq<Backup>, kept: set<nat>, bare: set<nat>, deleteDate: nat, a: nat, d: nat)
    requires IsAnchor(kept, deleteDate, a)
    ensures Stays(h, kept, bare, deleteDate, d) <==> d > deleteDate || SparedFrom(h, kept, bare, deleteDate, a, d)
  {
    forall b | IsAnchor(kept, deleteDate, b) ensures b == a {
      AnchorIsOne(kept, deleteDate, a, b);
    }
  }

  /** The pass leaves exactly what stays, whatever directories and files are missing, and whatever the
      deletion date: a long run may compute one that is not before the date of its own backup. */
  lemma PassIsRetained(h: seq<Backup>, infos: map<nat, seq<Backup>>, listing: seq<nat>, deleteDate: nat,
                       today: nat, d: nat)
    requires Ascending(h) && Files(h, infos) && Lists(infos, listing, today + 1)
    requires today in infos && today in Dates(h) && forall x <- infos :: x <= today
    ensures d in Pass(infos, listing, deleteDate, Some(today), false, true)
            <==> d in Retained(h, infos.Keys, Bare(infos), deleteDate)
  {
    if d in infos {
      if today > deleteDate {
        var a := AnchorInside(infos.Keys, deleteDate, today);
        StaysByAnchor(h, infos.Keys, Bare(infos), deleteDate, a, d);
        PassFromPeriod(h, infos, listing, deleteDate, today + 1, Some(today), a, d);
      } else {
        PassOutside(h, infos, listing, deleteDate, today, d);
      }
    }
  }

  lemma PassOutside(h: seq<Backup>, infos: map<nat, seq<Backup>>, listing: seq<nat>, deleteDate: nat,
                    today: nat, d: nat)
    requires Ascending(h) && Files(h, infos) && Lists(infos, listing, today + 1) && d in infos
    requires today in infos && today in Dates(h) && today <= deleteDate && forall x <- infos :: x <= today
    ensures d in Pass(infos, listing, deleteDate, Some(today), false, true)
            <==> Stays(h, infos.Keys, Bare(infos), deleteDate, d)
  {
    var t := IndexOf(h, today);
    StaysByAnchor(h, infos.Keys, Bare(infos), deleteDate, today, d);
    ListsToday(infos, listing, today);
    PassFromToday(h, infos, listing[1..], deleteDate, t, d);
    SparedFromOne(h, infos.Keys, Bare(infos), deleteDate, t, d);
  }

  lemma ListsToday(infos: map<nat, seq<Backup>>, listing: seq<nat>, today: nat)
    requires Lists(infos, listing, today + 1) && today in infos
    ensures listing != [] && listing == [today] + listing[1..] && Lists(infos, listing[1..], today)
  {
    assert today in listing;
    var k :| 0 <= k < |listing| && listing[k] == today;
    assert listing[0] >= listing[k];
    ListsRest(infos, listing, today + 1);
  }

  /** The anchor is one backup. */
  lemma SparedFromOne(h: seq<Backup>, kept: set<nat>, bare: set<nat>, deleteDate: nat, o: int, d: nat)
    requires Ascending(h) && 0 <= o < |h| && (h[o].date in bare ==> h[o].date <= deleteDate)
    ensures SparedFrom(h, kept, bare, deleteDate, h[o].date, d) <==> Spared(h, kept, bare, o, d)
  {
    forall x | 0 <= x < |h| && h[x].date == h[o].date ensures x == o {
      SameIndex(h, x, o);
    }
  }
}
