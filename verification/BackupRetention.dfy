/** Backup retention: what recovery needs, what the _bkvinf files say about it, and which date
    directories stay when backupdb.sh deletes those older than the storage period.

    A history is every backup ever taken, oldest first. The backups a database backup needs
    for its recovery are defined on the history alone; the script never sees the history, only
    the copy of the _bkvinf file that lies in each date directory. */
module BackupRetention {
  import opened Wrappers

  type Level = n: nat | n <= 2

  /** A backup taken on a date, and likewise one line of a _bkvinf file. */
  datatype Backup = Backup(date: nat, level: Level)

  ghost predicate Ascending(h: seq<Backup>) {
    forall i, j | 0 <= i < j < |h| :: h[i].date < h[j].date
  }

  // ---------------------------------------------------------------- what recovery needs

  /** Backup i is what backup j is an increment of: the nearest earlier backup of a strictly
      lower level. */
  ghost predicate Predecessor(h: seq<Backup>, i: int, j: int) {
    && 0 <= i < j < |h|
    && h[i].level < h[j].level
    && forall k | i < k < j :: h[k].level >= h[j].level
  }

  /** Restoring backup j needs backup i: i is j, or is needed by j's predecessor. */
  ghost predicate Needs(h: seq<Backup>, j: int, i: int)
    decreases j
  {
    && 0 <= i <= j < |h|
    && (i == j || exists p :: Predecessor(h, p, j) && Needs(h, p, i))
  }

  /** A set of dates from which every member can be restored. */
  ghost predicate Recoverable(h: seq<Backup>, kept: set<nat>) {
    forall i, j | Predecessor(h, i, j) && h[j].date in kept :: h[i].date in kept
  }

  /** The one-line form of Needs: every later backup up to j has a strictly higher level. */
  ghost predicate Visible(h: seq<Backup>, i: int, j: int) {
    && 0 <= i <= j < |h|
    && forall k | i < k <= j :: h[k].level > h[i].level
  }

  lemma {:induction false} PredecessorExists(h: seq<Backup>, i: int, j: int) returns (p: int)
    requires Visible(h, i, j) && i < j
    ensures Predecessor(h, p, j) && i <= p && Visible(h, i, p)
  {
    p := j - 1;
    while h[p].level >= h[j].level
      invariant i <= p < j
      invariant forall k | p < k < j :: h[k].level >= h[j].level
      decreases p
    {
      p := p - 1;
    }
  }

  /** Needs is the laminar relation Visible. */
  lemma {:induction false} NeedsIsVisible(h: seq<Backup>, j: int, i: int)
    ensures Needs(h, j, i) <==> Visible(h, i, j)
    decreases j
  {
    if Visible(h, i, j) && i < j {
      var p := PredecessorExists(h, i, j);
      NeedsIsVisible(h, p, i);
    }
    if Needs(h, j, i) && i != j {
      var p :| Predecessor(h, p, j) && Needs(h, p, i);
      NeedsIsVisible(h, p, i);
    }
  }

  /** Why one remembered date is enough: what a backup needs from before m is also needed by
      m, for every m in between. */
  lemma NeedsIsLaminar(h: seq<Backup>, i: int, m: int, j: int)
    requires Needs(h, j, i) && i <= m <= j
    ensures Needs(h, m, i)
  {
    NeedsIsVisible(h, j, i);
    NeedsIsVisible(h, m, i);
  }

  lemma {:induction false} RecoverableHasChain(h: seq<Backup>, kept: set<nat>, i: int, j: int)
    requires Recoverable(h, kept) && Visible(h, i, j) && h[j].date in kept
    ensures h[i].date in kept
    decreases j
  {
    if i < j {
      var p := PredecessorExists(h, i, j);
      RecoverableHasChain(h, kept, i, p);
    }
  }

  // ---------------------------------------------------------------- the _bkvinf file

  /** Drops the entries at or above a level from the top of the stack. */
  function Below(stack: seq<Backup>, level: Level): seq<Backup> {
    if stack == [] || stack[|stack| - 1].level < level then stack
    else Below(stack[..|stack| - 1], level)
  }

  /** The content of _bkvinf after the last backup of a history. */
  function BkvInf(h: seq<Backup>): seq<Backup> {
    if h == [] then []
    else
      var b := h[|h| - 1];
      Below(BkvInf(h[..|h| - 1]), b.level) + [b]
  }

  ghost predicate RisingLevels(s: seq<Backup>) {
    forall i, j | 0 <= i < j < |s| :: s[i].level < s[j].level
  }

  lemma {:induction false} BelowIsPrefix(stack: seq<Backup>, level: Level)
    requires RisingLevels(stack)
    ensures Below(stack, level) <= stack
    ensures forall x :: x in Below(stack, level) <==> x in stack && x.level < level
  {
    if stack != [] && stack[|stack| - 1].level >= level {
      BelowIsPrefix(stack[..|stack| - 1], level);
      assert stack == stack[..|stack| - 1] + [stack[|stack| - 1]];
    }
  }

  lemma {:induction false} BkvInfRises(h: seq<Backup>)
    ensures RisingLevels(BkvInf(h))
  {
    if h != [] {
      BkvInfRises(h[..|h| - 1]);
      BelowIsPrefix(BkvInf(h[..|h| - 1]), h[|h| - 1].level);
    }
  }

  ghost predicate OnChain(h: seq<Backup>, j: int, x: Backup) {
    exists i :: 0 <= i < |h| && h[i] == x && Visible(h, i, j)
  }

  /** Taking backup j drops the part of the chain at or above its level. */
  lemma ChainStep(h: seq<Backup>, j: int, x: Backup)
    requires 0 < j < |h|
    ensures OnChain(h, j, x) <==> x == h[j] || (OnChain(h, j - 1, x) && x.level < h[j].level)
  {
    assert Visible(h, j, j);
    if i :| 0 <= i < |h| && h[i] == x && Visible(h, i, j) {
      if i < j {
        assert Visible(h, i, j - 1);
      }
    }
    if i :| 0 <= i < |h| && h[i] == x && Visible(h, i, j - 1) {
      if x.level < h[j].level {
        assert Visible(h, i, j);
      }
    }
  }

  /** The stack is the recovery chain: its lines are exactly the backups that the last one
      needs. */
  lemma {:induction false} BkvInfIsChain(h: seq<Backup>, j: int, x: Backup)
    requires 0 <= j < |h|
    ensures x in BkvInf(h[..j + 1]) <==> OnChain(h, j, x)
  {
    var earlier := BkvInf(h[..j]);
    assert h[..j + 1][..j] == h[..j];
    assert BkvInf(h[..j + 1]) == Below(earlier, h[j].level) + [h[j]];
    if j == 0 {
      assert Visible(h, 0, 0);
    } else {
      BkvInfRises(h[..j]);
      BelowIsPrefix(earlier, h[j].level);
      BkvInfIsChain(h, j - 1, x);
      ChainStep(h, j, x);
    }
  }

  /** sort -r: the lines by descending level. */
  function InsertDescending(b: Backup, lines: seq<Backup>): seq<Backup> {
    if lines == [] || b.level >= lines[0].level then [b] + lines
    else [lines[0]] + InsertDescending(b, lines[1..])
  }

  function SortReverse(lines: seq<Backup>): seq<Backup> {
    if lines == [] then [] else InsertDescending(lines[0], SortReverse(lines[1..]))
  }

  /** The date column of `sort -r | head -2 | tail -1`; nothing when the file is empty. */
  function NeededDate(info: seq<Backup>): Option<nat> {
    var sorted := SortReverse(info);
    var head := if |sorted| > 2 then sorted[..2] else sorted;
    if head == [] then None else Some(head[|head| - 1].date)
  }

  lemma {:induction false} InsertLast(b: Backup, lines: seq<Backup>)
    requires forall x <- lines :: b.level < x.level
    ensures InsertDescending(b, lines) == lines + [b]
  {
    if lines != [] {
      assert lines[0] in lines;
      InsertLast(b, lines[1..]);
      assert lines == [lines[0]] + lines[1..];
    }
  }

  lemma {:induction false} SortReverseOfRising(s: seq<Backup>)
    requires RisingLevels(s)
    ensures |SortReverse(s)| == |s|
    ensures forall k | 0 <= k < |s| :: SortReverse(s)[k] == s[|s| - 1 - k]
    ensures forall x <- SortReverse(s) :: x in s
  {
    if s != [] {
      SortReverseOfRising(s[1..]);
      InsertLast(s[0], SortReverse(s[1..]));
    }
  }

  lemma NeededDateIsSecondLine(s: seq<Backup>)
    requires RisingLevels(s) && s != []
    ensures NeededDate(s) == Some(s[if |s| >= 2 then |s| - 2 else 0].date)
  {
    SortReverseOfRising(s);
  }

  /** The line below the top of backup j's file is its predecessor. */
  lemma SecondLineIsPredecessor(h: seq<Backup>, j: int) returns (q: int)
    requires 0 <= j < |h|
    ensures var s := BkvInf(h[..j + 1]);
            && s != [] && s[|s| - 1] == h[j]
            && (|s| >= 2 ==> Predecessor(h, q, j) && h[q] == s[|s| - 2])
            && (|s| == 1 ==> forall p :: !Predecessor(h, p, j))
  {
    var s := BkvInf(h[..j + 1]);
    BkvInfRises(h[..j + 1]);
    q := j;
    if |s| == 1 {
      forall p | Predecessor(h, p, j) ensures false {
        PredecessorInFile(h, p, j);
      }
    } else {
      var x := s[|s| - 2];
      BkvInfIsChain(h, j, x);
      var i :| 0 <= i < |h| && h[i] == x && Visible(h, i, j);
      assert s[|s| - 2].level < s[|s| - 1].level;
      q := PredecessorExists(h, i, j);
      PredecessorInFile(h, q, j);
      var k :| 0 <= k < |s| && s[k] == h[q];
      assert k <= |s| - 2;
      assert h[q].level <= x.level;
    }
  }

  lemma PredecessorInFile(h: seq<Backup>, p: int, j: int)
    requires Predecessor(h, p, j)
    ensures h[p] in BkvInf(h[..j + 1]) && h[p].level < h[j].level
  {
    VisibleOfPredecessor(h, p, j, j);
    BkvInfIsChain(h, j, h[p]);
  }

  /** What the pipeline reads from backup j's own file: the date of the predecessor, or j's own
      date when there is none. */
  lemma NeededDateIsPredecessor(h: seq<Backup>, j: int)
    requires 0 <= j < |h|
    ensures forall p | Predecessor(h, p, j) :: NeededDate(BkvInf(h[..j + 1])) == Some(h[p].date)
    ensures (forall p :: !Predecessor(h, p, j)) ==> NeededDate(BkvInf(h[..j + 1])) == Some(h[j].date)
  {
    var s := BkvInf(h[..j + 1]);
    BkvInfRises(h[..j + 1]);
    var q := SecondLineIsPredecessor(h, j);
    NeededDateIsSecondLine(s);
    forall p | Predecessor(h, p, j) ensures p == q {
      assert Predecessor(h, q, j);
      assert !(p < q < j) && !(q < p < j);
    }
  }

  lemma VisibleOfPredecessor(h: seq<Backup>, i: int, j: int, o: int)
    requires Predecessor(h, i, j) && Visible(h, j, o)
    ensures Visible(h, i, o)
  {
    forall k | i < k <= o ensures h[k].level > h[i].level {
      if k < j {
        assert h[k].level >= h[j].level;
      }
    }
  }

  // ---------------------------------------------------------------- what stays

  /** The oldest date directory inside the storage period, or the newest one when none is inside. */
  ghost predicate IsAnchor(kept: set<nat>, deleteDate: nat, a: nat) {
    && a in kept
    && if a > deleteDate then forall d <- kept :: d > deleteDate ==> a <= d else forall d <- kept :: d <= a
  }

  /** Backup j is on the recovery chain of backup o, the chain from o down to j is on disk, and every
      directory of it above j holds a file. The bare directories are those without a file. */
  ghost predicate Reached(h: seq<Backup>, kept: set<nat>, bare: set<nat>, o: int, j: int) {
    && Visible(h, j, o)
    && forall m | j <= m <= o && Visible(h, m, o) :: h[m].date in kept && (m > j ==> h[m].date !in bare)
  }

  /** The chain of o reaches the date, or reaches a directory without a file that is younger: where no
      file tells what else is needed, everything older is left. */
  ghost predicate Spared(h: seq<Backup>, kept: set<nat>, bare: set<nat>, o: int, d: nat) {
    exists j :: Reached(h, kept, bare, o, j) && (d == h[j].date || (h[j].date in bare && d < h[j].date))
  }

  lemma SparedReaches(h: seq<Backup>, kept: set<nat>, bare: set<nat>, o: int, d: nat) returns (j: int)
    requires Spared(h, kept, bare, o, d)
    ensures Reached(h, kept, bare, o, j) && (d == h[j].date || (h[j].date in bare && d < h[j].date))
  {
    j :| Reached(h, kept, bare, o, j) && (d == h[j].date || (h[j].date in bare && d < h[j].date));
  }

  /** An anchor without a file inside the period spares nothing outside it. */
  ghost predicate SparedFrom(h: seq<Backup>, kept: set<nat>, bare: set<nat>, deleteDate: nat, a: nat, d: nat) {
    && (a in bare ==> a <= deleteDate)
    && exists o :: 0 <= o < |h| && h[o].date == a && Spared(h, kept, bare, o, d)
  }

  ghost predicate Stays(h: seq<Backup>, kept: set<nat>, bare: set<nat>, deleteDate: nat, d: nat) {
    d > deleteDate || exists a :: IsAnchor(kept, deleteDate, a) && SparedFrom(h, kept, bare, deleteDate, a, d)
  }

  /** The dates inside the period, and what the anchor spares: its recovery chain when no file is
      missing. */
  ghost function Retained(h: seq<Backup>, kept: set<nat>, bare: set<nat>, deleteDate: nat): set<nat> {
    set d | d in kept && Stays(h, kept, bare, deleteDate, d)
  }

  ghost function Dates(h: seq<Backup>): set<nat> { set b | b in h :: b.date }

  lemma IndexOf(h: seq<Backup>, d: nat) returns (j: int)
    requires d in Dates(h)
    ensures 0 <= j < |h| && h[j].date == d
  {
    var b :| b in h && b.date == d;
    j :| 0 <= j < |h| && h[j] == b;
  }

  lemma SameIndex(h: seq<Backup>, i: int, j: int)
    requires Ascending(h) && 0 <= i < |h| && 0 <= j < |h| && h[i].date == h[j].date
    ensures i == j
  {
    assert !(i < j) && !(j < i);
  }

  lemma AnchorIsOne(kept: set<nat>, deleteDate: nat, a: nat, b: nat)
    requires IsAnchor(kept, deleteDate, a) && IsAnchor(kept, deleteDate, b)
    ensures a == b
  {}

  lemma {:induction false} AnchorInside(kept: set<nat>, deleteDate: nat, d: nat) returns (a: nat)
    requires d in kept && d > deleteDate
    ensures IsAnchor(kept, deleteDate, a) && deleteDate < a <= d
    decreases d
  {
    if e :| e in kept && deleteDate < e < d {
      a := AnchorInside(kept, deleteDate, e);
    } else {
      a := d;
    }
  }

  // ---------------------------------------------------------------- when retention is safe

  /** Backup o is the oldest backup inside the period. */
  ghost predicate OldestInside(h: seq<Backup>, kept: set<nat>, deleteDate: nat, o: int) {
    && 0 <= o < |h| && h[o].date in kept && h[o].date > deleteDate
    && forall k | 0 <= k < o && h[k].date in kept :: h[k].date <= deleteDate
  }

  /** The oldest date directory inside the period holds a file, or the oldest backup inside it is an
      increment of nothing. */
  ghost predicate Safe(h: seq<Backup>, kept: set<nat>, bare: set<nat>, deleteDate: nat) {
    forall a, o, i | a > deleteDate && IsAnchor(kept, deleteDate, a) && a in bare && OldestInside(h, kept, deleteDate, o) ::
      !Predecessor(h, i, o)
  }

  lemma OldestUpTo(h: seq<Backup>, kept: set<nat>, deleteDate: nat, j: int) returns (o: int)
    requires 0 <= j < |h| && h[j].date in kept && h[j].date > deleteDate
    ensures OldestInside(h, kept, deleteDate, o) && o <= j
  {
    if k :| 0 <= k < j && h[k].date in kept && h[k].date > deleteDate {
      o := OldestUpTo(h, kept, deleteDate, k);
    } else {
      o := j;
    }
  }

  /** The first missing file on the way from o down to i. */
  lemma {:induction false} TopGap(h: seq<Backup>, kept: set<nat>, bare: set<nat>, o: int, m: int) returns (j: int)
    requires Visible(h, m, o) && h[m].date in bare && forall k | m <= k <= o && Visible(h, k, o) :: h[k].date in kept
    ensures Reached(h, kept, bare, o, j) && h[j].date in bare && m <= j
    decreases o - m
  {
    if k :| m < k <= o && Visible(h, k, o) && h[k].date in bare {
      j := TopGap(h, kept, bare, o, k);
    } else {
      j := m;
    }
  }

  /** On a recoverable disk the anchor spares its whole chain. */
  lemma ChainIsSpared(h: seq<Backup>, kept: set<nat>, bare: set<nat>, o: int, i: int)
    requires Ascending(h) && Recoverable(h, kept) && Visible(h, i, o) && h[o].date in kept
    ensures Spared(h, kept, bare, o, h[i].date)
  {
    forall m | i <= m <= o && Visible(h, m, o) ensures h[m].date in kept {
      RecoverableHasChain(h, kept, m, o);
    }
    if m :| i < m <= o && Visible(h, m, o) && h[m].date in bare {
      var j := TopGap(h, kept, bare, o, m);
      assert i < j;
    } else {
      assert Reached(h, kept, bare, o, i);
    }
  }

  /** What an increment inside the period needs from outside is needed by the anchor too. */
  lemma NeedOfInside(h: seq<Backup>, kept: set<nat>, bare: set<nat>, deleteDate: nat, i: int, j: int)
    requires Ascending(h) && Recoverable(h, kept) && kept <= Dates(h) + bare && Safe(h, kept, bare, deleteDate)
    requires Predecessor(h, i, j) && h[j].date in kept && h[i].date <= deleteDate < h[j].date
    ensures Stays(h, kept, bare, deleteDate, h[i].date)
  {
    var a := AnchorInside(kept, deleteDate, h[j].date);
    if a in bare {
      var o := OldestUpTo(h, kept, deleteDate, j);
      assert !(o < i) && o != i;
      VisibleOfPredecessor(h, i, j, j);
      var p := PredecessorExists(h, i, o);
    } else {
      var o := IndexOf(h, a);
      assert !(o > j) && !(o <= i);
      VisibleOfPredecessor(h, i, j, j);
      assert Visible(h, i, o);
      ChainIsSpared(h, kept, bare, o, i);
      assert SparedFrom(h, kept, bare, deleteDate, a, h[i].date);
    }
  }

  /** What a spared backup needs is spared. */
  lemma NeedOfSpared(h: seq<Backup>, kept: set<nat>, bare: set<nat>, deleteDate: nat, i: int, j: int)
    requires Ascending(h) && Recoverable(h, kept) && Predecessor(h, i, j) && h[j].date in kept
    requires Stays(h, kept, bare, deleteDate, h[j].date) && h[j].date <= deleteDate
    ensures Stays(h, kept, bare, deleteDate, h[i].date)
  {
    var a :| IsAnchor(kept, deleteDate, a) && SparedFrom(h, kept, bare, deleteDate, a, h[j].date);
    var o :| 0 <= o < |h| && h[o].date == a && Spared(h, kept, bare, o, h[j].date);
    var k :| Reached(h, kept, bare, o, k) && (h[j].date == h[k].date || (h[k].date in bare && h[j].date < h[k].date));
    if h[j].date == h[k].date {
      SameIndex(h, j, k);
      VisibleOfPredecessor(h, i, j, o);
      ChainIsSpared(h, kept, bare, o, i);
    } else {
      assert h[i].date < h[j].date;
    }
    assert SparedFrom(h, kept, bare, deleteDate, a, h[i].date);
  }

  /** Nothing outside the period stays when the anchor is inside and has no file. */
  lemma BareAnchorSparesNothing(h: seq<Backup>, kept: set<nat>, bare: set<nat>, deleteDate: nat, a: nat, d: nat)
    requires IsAnchor(kept, deleteDate, a) && a > deleteDate && a in bare && d <= deleteDate
    ensures !Stays(h, kept, bare, deleteDate, d)
  {
    forall b | IsAnchor(kept, deleteDate, b) ensures b == a {
      AnchorIsOne(kept, deleteDate, a, b);
    }
  }

  /** Retention is safe, that is, the backups that stay can all be restored, exactly when the oldest
      directory inside the period holds a file or the oldest backup inside it needs no other. */
  lemma RetainedIsRecoverable(h: seq<Backup>, kept: set<nat>, bare: set<nat>, deleteDate: nat)
    requires Ascending(h) && Recoverable(h, kept) && kept <= Dates(h) + bare
    ensures Recoverable(h, Retained(h, kept, bare, deleteDate)) <==> Safe(h, kept, bare, deleteDate)
  {
    var left := Retained(h, kept, bare, deleteDate);
    if Safe(h, kept, bare, deleteDate) {
      forall i, j | Predecessor(h, i, j) && h[j].date in left ensures h[i].date in left {
        if h[i].date <= deleteDate < h[j].date {
          NeedOfInside(h, kept, bare, deleteDate, i, j);
        } else if h[i].date <= deleteDate {
          NeedOfSpared(h, kept, bare, deleteDate, i, j);
        }
      }
    } else {
      var a, o, i :| a > deleteDate && IsAnchor(kept, deleteDate, a) && a in bare
                     && OldestInside(h, kept, deleteDate, o) && Predecessor(h, i, o);
      assert h[i].date in kept;
      BareAnchorSparesNothing(h, kept, bare, deleteDate, a, h[i].date);
      assert h[o].date in left && h[i].date !in left;
    }
  }

  // ---------------------------------------------------------------- when retention is exact

  /** No file is missing on the chain of the anchor. */
  ghost predicate NoGap(h: seq<Backup>, kept: set<nat>, bare: set<nat>, deleteDate: nat) {
    forall o, m | Visible(h, m, o) && IsAnchor(kept, deleteDate, h[o].date) :: h[m].date !in bare
  }

  /** Retention is exact: when no file is missing on the chain, any other recoverable choice that keeps
      the directories inside the period, and the newest one, keeps all of it. */
  lemma RetainedIsLeast(h: seq<Backup>, kept: set<nat>, bare: set<nat>, deleteDate: nat, other: set<nat>)
    requires NoGap(h, kept, bare, deleteDate) && Recoverable(h, other)
    requires forall d | d in kept && (d > deleteDate || forall e <- kept :: e <= d) :: d in other
    ensures Retained(h, kept, bare, deleteDate) <= other
  {
    forall d | d in Retained(h, kept, bare, deleteDate) && d <= deleteDate ensures d in other {
      var a :| IsAnchor(kept, deleteDate, a) && SparedFrom(h, kept, bare, deleteDate, a, d);
      var o :| 0 <= o < |h| && h[o].date == a && Spared(h, kept, bare, o, d);
      var j := SparedReaches(h, kept, bare, o, d);
      RecoverableHasChain(h, other, j, o);
    }
  }

  /** A missing file outside the period keeps everything older: the chain stops there, and so does
      the deletion. */
  lemma GapKeepsOlder(h: seq<Backup>, kept: set<nat>, bare: set<nat>, deleteDate: nat, o: int, j: int, d: nat)
    requires 0 <= o < |h| && IsAnchor(kept, deleteDate, h[o].date) && (h[o].date in bare ==> h[o].date <= deleteDate)
    requires Reached(h, kept, bare, o, j) && h[j].date in bare && d in kept && d <= h[j].date
    ensures d in Retained(h, kept, bare, deleteDate)
  {
    assert Spared(h, kept, bare, o, d);
    assert SparedFrom(h, kept, bare, deleteDate, h[o].date, d);
  }
}
