/** The two-way replica synchronisation of pkg/manager/statefulset_manager.go: StatefulSet
    replicas, CubridDB replicas, and the last-replicas annotation that tells which side moved.
    Either side can be edited at any time, and a reconcile can stop after any of its API writes. */
module ReplicaSync {
  import opened Wrappers
  import opened Text

  const INT32_MIN := -0x8000_0000
  const INT32_MAX := 0x7FFF_FFFF

  type int32 = n: int | INT32_MIN <= n <= INT32_MAX

  /** The annotation is the empty string when it is missing. */
  datatype State = State(sts: int32, cr: int32, annotation: string)

  datatype Write = SetCR(n: int32) | SetSts(n: int32) | SetAnnotation(n: int32)

  /** validateReplicasChange */
  predicate ValidReplicas(ha: bool, n: int32) { if ha then n > 0 else n == 1 }

  /** The remembered count: the current one when the annotation is missing or unreadable. */
  function LastReplicas(annotation: string, current: int32): int32 {
    var val := if annotation == "" then None else ParseInt(annotation, INT32_MIN, INT32_MAX);
    if val.Some? then val.value else current
  }

  /** The CR as ReconcileStatefulSet has loaded it: IsHAEnabled fills in a missing count. */
  function Desired(s: State): int32 { if s.cr <= 0 then 1 else s.cr }

  /** The API writes of syncReplicas, in order, or None when it refuses the change. */
  function Plan(ha: bool, s: State): Option<seq<Write>> {
    if s.sts == Desired(s) then Some([SetAnnotation(s.sts)])
    else if LastReplicas(s.annotation, s.sts) == Desired(s) then
      if ValidReplicas(ha, s.sts) then Some([SetCR(s.sts), SetAnnotation(s.sts)]) else None
    else
      if ValidReplicas(ha, Desired(s)) then Some([SetSts(Desired(s)), SetAnnotation(s.sts)]) else None
  }

  function Do(s: State, w: Write): State {
    match w
    case SetCR(n) => s.(cr := n)
    case SetSts(n) => s.(sts := n)
    case SetAnnotation(n) => s.(annotation := FormatInt(n))
  }

  function DoAll(s: State, ws: seq<Write>): State
    decreases |ws|
  {
    if ws == [] then s else DoAll(Do(s, ws[0]), ws[1..])
  }

  /** A reconcile that gets through at most `budget` of its writes. */
  function Sync(ha: bool, s: State, budget: nat): State {
    var plan := Plan(ha, s);
    if plan.None? then s
    else DoAll(s, if budget < |plan.value| then plan.value[..budget] else plan.value)
  }

  const ALL: nat := 2

  class StatefulSetManager {
    const ha: bool
    var sts: int32
    var cr: int32
    var annotation: string

    function Now(): State
      reads this
    {
      State(sts, cr, annotation)
    }

    constructor (ha: bool, sts: int32, cr: int32, annotation: string)
      ensures this.ha == ha && Now() == State(sts, cr, annotation)
    {
      this.ha, this.sts, this.cr, this.annotation := ha, sts, cr, annotation;
    }

    /** syncReplicas; `budget` is the number of API writes that succeed before a crash. */
    method SyncReplicas(budget: nat) returns (ok: bool)
      modifies this
      ensures Now() == Sync(ha, old(Now()), budget)
      ensures ok <==> Plan(ha, old(Now())).Some? && budget >= |Plan(ha, old(Now())).value|
    {
      var currentReplicas := sts;
      var desiredReplicas := if cr <= 0 then 1 else cr;
      var lastReplicas := currentReplicas;
      if annotation != "" {
        var val := ParseInt(annotation, INT32_MIN, INT32_MAX);
        if val.Some? {
          lastReplicas := val.value;
        }
      }
      var left := budget;
      ghost var was := Now();
      if currentReplicas != desiredReplicas {
        if lastReplicas == desiredReplicas {
          if !ValidReplicas(ha, currentReplicas) {
            return false;
          }
          if left == 0 {
            return false;
          }
          cr := currentReplicas;
        } else {
          if !ValidReplicas(ha, desiredReplicas) {
            return false;
          }
          if left == 0 {
            return false;
          }
          sts := desiredReplicas;
        }
        left := left - 1;
        PlanOfTwo(was, Plan(ha, was).value);
      } else {
        OneWrite(ha, was);
      }
      if left == 0 {
        return false;
      }
      annotation := FormatInt(currentReplicas);
      return true;
    }
  }

  lemma PlanOfTwo(s: State, ws: seq<Write>)
    requires |ws| == 2
    ensures DoAll(s, ws) == Do(Do(s, ws[0]), ws[1])
    ensures DoAll(s, ws[..1]) == Do(s, ws[0])
    ensures DoAll(s, ws[..0]) == s
  {
    assert ws[1..] == [ws[1]];
    assert ws[..1] == [ws[0]];
    assert DoAll(Do(s, ws[0]), [ws[1]]) == Do(Do(s, ws[0]), ws[1]);
  }

  // ---------------------------------------------------------------- self-stabilisation

  /** The count that a state is bound for. */
  function Target(s: State): int32 {
    if s.sts == Desired(s) then s.sts
    else if LastReplicas(s.annotation, s.sts) == Desired(s) then s.sts
    else Desired(s)
  }

  predicate Settled(s: State, n: int32) { s == State(n, n, FormatInt(n)) }

  /** A reconcile in HA mode, complete or cut short, does not change where the state is bound. */
  lemma SyncKeepsTarget(s: State, budget: nat)
    requires s.sts >= 1 && s.cr >= 1
    ensures var next := Sync(true, s, budget);
            next.sts >= 1 && next.cr >= 1 && Target(next) == Target(s)
    ensures var next := Sync(true, s, budget);
            budget >= ALL ==> next.sts == next.cr && (s.sts == s.cr ==> Settled(next, s.sts))
  {
    var plan := Plan(true, s).value;
    if |plan| == 2 {
      PlanOfTwo(s, plan);
    } else {
      assert plan[1..] == [] && plan[..0] == [];
      assert DoAll(s, plan) == Do(s, plan[0]);
    }
  }

  function Retry(s: State, budgets: seq<nat>): State
    decreases |budgets|
  {
    if budgets == [] then s else Retry(Sync(true, s, budgets[0]), budgets[1..])
  }

  /** Self-stabilising and crash-safe: from any annotation, after any number of reconciles cut short
      at any point, two complete ones leave the StatefulSet, the CR and the annotation at the same
      count, and it is the count that the first state was bound for: the StatefulSet's when the
      remembered count is the CR's, else the CR's. */
  lemma {:induction false} StabilisesAfterCrashes(s: State, crashes: seq<nat>)
    requires s.sts >= 1 && s.cr >= 1
    ensures var v := if s.sts == s.cr || LastReplicas(s.annotation, s.sts) == s.cr then s.sts else s.cr;
            Settled(Sync(true, Sync(true, Retry(s, crashes), ALL), ALL), v)
    decreases |crashes|
  {
    if crashes == [] {
      SyncKeepsTarget(s, ALL);
      SyncKeepsTarget(Sync(true, s, ALL), ALL);
    } else {
      var next := Sync(true, s, crashes[0]);
      SyncKeepsTarget(s, crashes[0]);
      StabilisesAfterCrashes(next, crashes[1..]);
    }
  }

  // ---------------------------------------------------------------- attribution

  lemma ReadsOwnAnnotation(n: int32, current: int32)
    ensures LastReplicas(FormatInt(n), current) == n
  {
    ParseFormat(n, INT32_MIN, INT32_MAX);
  }

  /** From a settled state a valid edit of one side is adopted by the other within one reconcile and
      settled within two. */
  lemma EditsGoToTheRightSide(ha: bool, n: int32, x: int32)
    requires n >= 1 && x >= 1 && ValidReplicas(ha, x)
    ensures var scaled := State(x, n, FormatInt(n));
            Settled(Sync(ha, scaled, ALL), x)
    ensures var edited := State(n, x, FormatInt(n));
            Sync(ha, edited, ALL).sts == x && Sync(ha, edited, ALL).cr == x
            && Settled(Sync(ha, Sync(ha, edited, ALL), ALL), x)
  {
    var scaled, edited := State(x, n, FormatInt(n)), State(n, x, FormatInt(n));
    ReadsOwnAnnotation(n, x);
    ReadsOwnAnnotation(n, n);
    if x == n {
      OneWrite(ha, scaled);
      OneWrite(ha, Sync(ha, edited, ALL));
    } else {
      PlanOfTwo(scaled, Plan(ha, scaled).value);
      PlanOfTwo(edited, Plan(ha, edited).value);
      OneWrite(ha, Sync(ha, edited, ALL));
    }
  }

  lemma OneWrite(ha: bool, s: State)
    requires s.sts == Desired(s)
    ensures Sync(ha, s, ALL) == s.(annotation := FormatInt(s.sts))
  {
    var plan := [SetAnnotation(s.sts)];
    assert plan[1..] == [];
    assert DoAll(s, plan) == Do(s, plan[0]);
  }

  /** A complete reconcile, on either branch of a difference, in either mode. */
  lemma SyncOfDifference(ha: bool, s: State)
    requires s.sts != Desired(s)
    ensures var toSts, next := LastReplicas(s.annotation, s.sts) == Desired(s), Sync(ha, s, ALL);
            if !ValidReplicas(ha, if toSts then s.sts else Desired(s)) then next == s
            else if toSts then next == State(s.sts, s.sts, FormatInt(s.sts))
            else next == State(Desired(s), s.cr, FormatInt(s.sts))
  {
    if Plan(ha, s).Some? {
      PlanOfTwo(s, Plan(ha, s).value);
    }
  }

  /** In HA mode, with both counts equal and any annotation, one reconcile makes the counts equal
      again after an edit of the CR, and adopts the edit exactly when it does not go back to the
      remembered count. */
  lemma CREditIsAdopted(n: int32, x: int32, annotation: string)
    requires n >= 1 && x >= 1 && x != n
    ensures var next := Sync(true, State(n, x, annotation), ALL);
            next.sts == next.cr && (next.cr == x <==> LastReplicas(annotation, n) != x)
  {
    SyncOfDifference(true, State(n, x, annotation));
  }

  /** Likewise after an edit of the StatefulSet, which is adopted exactly when the remembered count
      is the one that the CR still has. */
  lemma StsEditIsAdopted(n: int32, x: int32, annotation: string)
    requires n >= 1 && x >= 1 && x != n
    ensures var next := Sync(true, State(x, n, annotation), ALL);
            next.sts == next.cr && (next.sts == x <==> LastReplicas(annotation, x) == n)
  {
    SyncOfDifference(true, State(x, n, annotation));
  }

  /** The text is an optional sign and decimal digits of an int32. */
  ghost predicate Remembers(annotation: string, k: int) {
    -2147483648 <= k <= 2147483647 && Decimal(annotation, k)
  }

  lemma RememberedIsLast(annotation: string, k: int, current: int32)
    requires Remembers(annotation, k)
    ensures LastReplicas(annotation, current) == k
  {
    ParseIntIsDecimal(annotation, INT32_MIN, INT32_MAX, k);
  }

  lemma NothingRemembered(annotation: string, current: int32)
    requires forall k: int :: !Remembers(annotation, k)
    ensures LastReplicas(annotation, current) == current
  {
    var val := ParseInt(annotation, INT32_MIN, INT32_MAX);
    if val.Some? {
      ParseIntIsDecimal(annotation, INT32_MIN, INT32_MAX, val.value);
      assert Remembers(annotation, val.value);
    }
  }

  /** Without a readable annotation the CR wins: in HA mode one reconcile brings the StatefulSet to its
      count, and the next one settles. */
  lemma UnreadableMeansCR(s: State)
    requires s.sts >= 1 && s.cr >= 1 && s.sts != s.cr && forall k: int :: !Remembers(s.annotation, k)
    ensures var next := Sync(true, s, ALL);
            next.sts == next.cr == s.cr && Settled(Sync(true, next, ALL), s.cr)
  {
    NothingRemembered(s.annotation, s.sts);
    SyncOfDifference(true, s);
    OneWrite(true, Sync(true, s, ALL));
  }

  /** With a readable one, the StatefulSet wins exactly when it names the count of the CR. */
  lemma RememberedDecides(s: State, k: int)
    requires s.sts >= 1 && s.cr >= 1 && s.sts != s.cr && Remembers(s.annotation, k)
    ensures var next, winner := Sync(true, s, ALL), if k == s.cr then s.sts else s.cr;
            next.sts == next.cr == winner && Settled(Sync(true, next, ALL), winner)
  {
    RememberedIsLast(s.annotation, k, s.sts);
    SyncOfDifference(true, s);
    OneWrite(true, Sync(true, s, ALL));
  }

  /** What a reconcile writes into the annotation is the count that the StatefulSet had before it, in
      readable form. */
  lemma AnnotationIsRemembered(ha: bool, s: State)
    requires Plan(ha, s).Some?
    ensures Remembers(Sync(ha, s, ALL).annotation, s.sts)
  {
    FormatIsDecimal(s.sts);
    if s.sts == Desired(s) {
      OneWrite(ha, s);
    } else {
      SyncOfDifference(ha, s);
    }
  }

  /** A CR count that is missing or not positive is read as 1. */
  lemma MissingCountIsOne(s: State)
    requires s.sts > 1 && s.cr <= 0 && forall k: int :: !Remembers(s.annotation, k)
    ensures Sync(true, s, ALL).sts == 1
  {
    NothingRemembered(s.annotation, s.sts);
    SyncOfDifference(true, s);
  }

  /** In single mode a difference is only resolved towards 1: when the side that is taken to have
      moved, the StatefulSet exactly when the remembered count is that of the CR, is at 1. Any other
      change is refused and nothing is written, at this reconcile and at every later one. */
  lemma SingleModeAdoptsOnlyOne(s: State)
    requires s.sts != Desired(s)
    ensures var next := Sync(false, s, ALL);
            && (next.sts == Desired(next) <==>
                  if LastReplicas(s.annotation, s.sts) == Desired(s) then s.sts == 1 else Desired(s) == 1)
            && (next.sts == Desired(next) ==> next.sts == 1 && Sync(false, next, ALL) == State(1, next.cr, FormatInt(1)))
            && (next.sts != Desired(next) ==> next == s && forall budget :: Sync(false, s, budget) == s)
  {
    SyncOfDifference(false, s);
    var next := Sync(false, s, ALL);
    if next.sts == Desired(next) {
      OneWrite(false, next);
    }
  }

  /** In HA mode, a second edit of the CR that comes after the reconcile that adopts the first one,
      and before the next, is adopted exactly when it does not undo the first; an undone edit stays. */
  lemma SecondCREditIsAdopted(n: int32, x: int32, y: int32, annotation: string)
    requires n >= 1 && x >= 1 && y >= 1 && x != n && y != x && LastReplicas(annotation, n) != x
    ensures var adopted := Sync(true, State(n, x, annotation), ALL);
            var next := Sync(true, adopted.(cr := y), ALL);
            && adopted.sts == adopted.cr == x
            && next.sts == next.cr && (next.cr == y <==> y != n) && (y == n ==> Settled(next, x))
  {
    SyncOfDifference(true, State(n, x, annotation));
    ReadsOwnAnnotation(n, x);
    SyncOfDifference(true, State(x, y, FormatInt(n)));
  }

  /** A StatefulSet scaled between those two reconciles is always scaled back. */
  lemma ScaleAfterCREditIsLost(n: int32, x: int32, y: int32, annotation: string)
    requires n >= 1 && x >= 1 && y >= 1 && x != n && y != x && LastReplicas(annotation, n) != x
    ensures var adopted := Sync(true, State(n, x, annotation), ALL);
            var next := Sync(true, adopted.(sts := y), ALL);
            next.sts == next.cr == x
  {
    SyncOfDifference(true, State(n, x, annotation));
    ReadsOwnAnnotation(n, y);
    SyncOfDifference(true, State(y, x, FormatInt(n)));
  }

  /** After the reconcile that adopts an edit of the StatefulSet there is no such gap: every later
      edit of either side is adopted by the next reconcile. */
  lemma NoGapAfterStsEdit(n: int32, x: int32, y: int32, annotation: string)
    requires n >= 1 && x >= 1 && y >= 1 && x != n && y != x && LastReplicas(annotation, x) == n
    ensures var adopted := Sync(true, State(x, n, annotation), ALL);
            && Settled(adopted, x)
            && Sync(true, adopted.(cr := y), ALL).sts == y && Sync(true, adopted.(cr := y), ALL).cr == y
            && Settled(Sync(true, adopted.(sts := y), ALL), y)
  {
    SyncOfDifference(true, State(x, n, annotation));
    EditsGoToTheRightSide(true, x, y);
  }

  // ---------------------------------------------------------------- runs

  datatype Event = EditCR(n: int32) | EditSts(n: int32) | EditAnnotation(a: string) | Reconcile(budget: nat)

  /** The state and every count that the reconciler wrote to the CR. */
  datatype Run = Run(now: State, written: seq<int32>)

  function WrittenToCR(ws: seq<Write>): seq<int32> {
    if ws == [] then []
    else (if ws[0].SetCR? then [ws[0].n] else []) + WrittenToCR(ws[1..])
  }

  function After(ha: bool, r: Run, e: Event): Run {
    match e
    case EditCR(n) => r.(now := r.now.(cr := n))
    case EditSts(n) => r.(now := r.now.(sts := n))
    case EditAnnotation(a) => r.(now := r.now.(annotation := a))
    case Reconcile(budget) =>
      var plan := Plan(ha, r.now);
      if plan.None? then r
      else
        var done := if budget < |plan.value| then plan.value[..budget] else plan.value;
        Run(DoAll(r.now, done), r.written + WrittenToCR(done))
  }

  function AfterAll(ha: bool, r: Run, events: seq<Event>): Run
    decreases |events|
  {
    if events == [] then r else AfterAll(ha, After(ha, r, events[0]), events[1..])
  }

  /** Whatever happens to the StatefulSet, the annotation and the CR, the reconciler never writes a
      count to the CR other than exactly 1 in single mode and at least 1 in HA mode. */
  lemma {:induction false} CRWritesAreValid(ha: bool, r: Run, events: seq<Event>)
    requires forall n <- r.written :: if ha then n >= 1 else n == 1
    ensures forall n <- AfterAll(ha, r, events).written :: if ha then n >= 1 else n == 1
    decreases |events|
  {
    if events != [] {
      var e := events[0];
      if e.Reconcile? {
        WrittenIsPlanned(ha, r.now, e.budget);
      }
      CRWritesAreValid(ha, After(ha, r, e), events[1..]);
    }
  }

  lemma {:induction false} WrittenAreWrites(ws: seq<Write>, n: int32)
    requires n in WrittenToCR(ws)
    ensures SetCR(n) in ws
  {
    if !(ws[0].SetCR? && ws[0].n == n) {
      WrittenAreWrites(ws[1..], n);
    }
  }

  lemma WrittenIsPlanned(ha: bool, s: State, budget: nat)
    ensures var plan := Plan(ha, s);
            plan.Some? ==>
              var done := if budget < |plan.value| then plan.value[..budget] else plan.value;
              forall n <- WrittenToCR(done) :: if ha then n >= 1 else n == 1
  {
    var plan := Plan(ha, s);
    if plan.Some? {
      var done := if budget < |plan.value| then plan.value[..budget] else plan.value;
      forall n <- WrittenToCR(done) ensures if ha then n >= 1 else n == 1 {
        WrittenAreWrites(done, n);
        assert SetCR(n) in plan.value;
      }
    }
  }
}
