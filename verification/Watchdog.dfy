/**
 The child runner's watchdog: a main thread that waits for a child and a timer thread that kills it when time is up,
 sharing a lock, two flags and the child, as interleaved steps.
 */
module Watchdog {

  /** Where the main thread is. It holds the lock in `Killing`, `KillSent`, `Clearing` and `Cleared`. */
  datatype Main =
    | Waiting | Caught | Killing | KillSent | Reaping
    | Finishing | Clearing | Cleared | Cancelling | Joining | Done

  /** Where the timer thread is. It holds the lock in `Checking`, `Marked` and `Leaving`. */
  datatype Timer = Sleeping | AtLock | Checking | Marked | Leaving | Ended

  datatype Child = Alive | Doomed | Exited | Reaped

  datatype Owner = Nobody | MainThread | TimerThread

  datatype World = World(
    main: Main,
    timer: Timer,
    child: Child,
    lock: Owner,
    running: bool,
    timedOut: bool,
    cancelled: bool,
    raised: bool,
    watchdogSignals: nat)

  const INITIAL: World := World(Waiting, Sleeping, Alive, Nobody, true, false, false, false, 0)

  function Signalled(c: Child): Child { if c == Alive then Doomed else c }

  datatype Actor = ByMain | ByTimer | ByChild

  /** One step of the main thread; an exception may end either wait, before or after the child was reaped. */
  ghost predicate MainStep(w: World, w': World) {
    match w.main
    case Waiting =>
      || (w.child == Exited && w' == w.(main := Finishing, child := Reaped))
      || (w' == w.(main := Caught, raised := true))
      || (w.child == Exited && w' == w.(main := Caught, child := Reaped, raised := true))
    case Caught => w.lock == Nobody && w' == w.(main := Killing, lock := MainThread)
    case Killing => w' == w.(main := KillSent, child := Signalled(w.child))
    case KillSent => w' == w.(main := Reaping, lock := Nobody)
    case Reaping =>
      || (w.child == Exited && w' == w.(main := Finishing, child := Reaped))
      || w' == w.(main := Finishing)
    case Finishing => w.lock == Nobody && w' == w.(main := Clearing, lock := MainThread)
    case Clearing => w' == w.(main := Cleared, running := false)
    case Cleared => w' == w.(main := Cancelling, lock := Nobody)
    case Cancelling => w' == w.(main := Joining, cancelled := true)
    case Joining => w.timer == Ended && w' == w.(main := Done)
    case Done => false
  }

  /** One step of the timer thread: it sleeps until its time or its cancellation. */
  ghost predicate TimerStep(w: World, w': World) {
    match w.timer
    case Sleeping => w' == w.(timer := if w.cancelled then Ended else AtLock)
    case AtLock => w.lock == Nobody && w' == w.(timer := Checking, lock := TimerThread)
    case Checking => w' == if w.running then w.(timer := Marked, timedOut := true) else w.(timer := Leaving)
    case Marked => w' == w.(timer := Leaving, child := Signalled(w.child), watchdogSignals := w.watchdogSignals + 1)
    case Leaving => w' == w.(timer := Ended, lock := Nobody)
    case Ended => false
  }

  ghost predicate ChildStep(w: World, w': World) {
    w.child in {Alive, Doomed} && w' == w.(child := Exited)
  }

  ghost predicate Next(w: World, actor: Actor, w': World) {
    match actor
    case ByMain => MainStep(w, w')
    case ByTimer => TimerStep(w, w')
    case ByChild => ChildStep(w, w')
  }

  ghost predicate Run(ws: seq<World>, actors: seq<Actor>) {
    && |ws| == |actors| + 1 && ws[0] == INITIAL
    && forall i :: 0 <= i < |actors| ==> Next(ws[i], actors[i], ws[i + 1])
  }

  ghost predicate MainHolds(m: Main) { m in {Killing, KillSent, Clearing, Cleared} }

  ghost predicate TimerHolds(t: Timer) { t in {Checking, Marked, Leaving} }

  /** The main thread has cleared the running flag. */
  ghost predicate PastClearing(m: Main) { m in {Cleared, Cancelling, Joining, Done} }

  ghost predicate Inv(w: World) {
    && (w.lock == MainThread <==> MainHolds(w.main))
    && (w.lock == TimerThread <==> TimerHolds(w.timer))
    && (w.running <==> !PastClearing(w.main))
    && (w.cancelled <==> w.main in {Joining, Done})
    && (w.timer == Marked ==> w.running && w.timedOut && w.watchdogSignals == 0)
    && (w.timer in {Sleeping, AtLock, Checking} ==> !w.timedOut && w.watchdogSignals == 0)
    && (w.timer in {Leaving, Ended} ==> w.watchdogSignals == if w.timedOut then 1 else 0)
    && (w.watchdogSignals > 0 || w.main in {KillSent, Reaping} ==> w.child != Alive)
    && (w.running && w.timer in {Leaving, Ended} ==> w.timedOut)
    && (w.main == Done ==> w.timer == Ended)
    && (w.main in {Caught, Killing, KillSent, Reaping} ==> w.raised) && (w.main == Waiting ==> !w.raised)
    && (w.child == Reaped ==> w.main != Waiting)
    && (w.main !in {Waiting, Caught, Killing, KillSent, Reaping} && !w.raised ==> w.child == Reaped)
  }

  lemma MainKeeps(w: World, w': World)
    requires Inv(w) && MainStep(w, w')
    ensures Inv(w')
  {
  }

  lemma TimerKeeps(w: World, w': World)
    requires Inv(w) && TimerStep(w, w')
    ensures Inv(w')
  {
  }

  lemma NextKeeps(w: World, actor: Actor, w': World)
    requires Inv(w) && Next(w, actor, w')
    ensures Inv(w')
  {
    match actor
    case ByMain => MainKeeps(w, w');
    case ByTimer => TimerKeeps(w, w');
    case ByChild =>
  }

  lemma {:induction false} RunKeeps(ws: seq<World>, actors: seq<Actor>)
    requires Run(ws, actors)
    ensures Inv(ws[|actors|])
  {
    if actors != [] {
      var n := |actors| - 1;
      RunKeeps(ws[..n + 1], actors[..n]);
      NextKeeps(ws[n], actors[n], ws[n + 1]);
    }
  }

  /** The watchdog signals only while it holds the lock, with the running flag up and the timeout already on record. */
  lemma SignalsUnderLock(ws: seq<World>, actors: seq<Actor>, i: nat)
    requires Run(ws, actors) && i < |actors| && ws[i + 1].watchdogSignals != ws[i].watchdogSignals
    ensures ws[i].lock == TimerThread && ws[i].running && ws[i].timedOut && actors[i] == ByTimer
    ensures ws[i].main in {Waiting, Caught, Reaping, Finishing}
  {
    assert Run(ws[..i + 1], actors[..i]);
    RunKeeps(ws[..i + 1], actors[..i]);
    assert Next(ws[i], actors[i], ws[i + 1]);
  }

  /**
   When the runner returns or raises, the timer thread has ended, the timeout on record is exactly whether the watchdog
   signalled, nobody holds the lock, and without an exception the child has been reaped.
   */
  lemma DoneIsHonest(ws: seq<World>, actors: seq<Actor>)
    requires Run(ws, actors) && ws[|actors|].main == Done
    ensures var w := ws[|actors|];
      && w.timer == Ended && w.lock == Nobody && !w.running
      && (w.timedOut <==> w.watchdogSignals == 1) && w.watchdogSignals <= 1
      && (!w.raised ==> w.child == Reaped)
  {
    RunKeeps(ws, actors);
  }

  /** The record read after the join cannot change any more. */
  lemma RecordIsFinal(w: World, actor: Actor, w': World)
    requires Inv(w) && w.main == Done && Next(w, actor, w')
    ensures actor == ByChild && w' == w.(child := Exited) && w.raised
  {
  }

  /** The join is never waited for while the main thread holds the lock. */
  lemma JoinHoldsNothing(ws: seq<World>, actors: seq<Actor>)
    requires Run(ws, actors) && ws[|actors|].main == Joining
    ensures ws[|actors|].lock != MainThread && ws[|actors|].cancelled && !ws[|actors|].running
  {
    RunKeeps(ws, actors);
  }

  // -- progress --

  ghost predicate CanMove(w: World, actor: Actor) {
    exists w' :: Next(w, actor, w')
  }

  lemma Moves(w: World, actor: Actor, w': World)
    requires Next(w, actor, w')
    ensures CanMove(w, actor)
  {
  }

  /** The step a thread that is not waiting takes. */
  lemma TimerMoves(w: World)
    requires Inv(w) && w.timer != Ended && w.lock != MainThread
    ensures CanMove(w, ByTimer)
  {
    match w.timer
    case Sleeping => Moves(w, ByTimer, w.(timer := if w.cancelled then Ended else AtLock));
    case AtLock => Moves(w, ByTimer, w.(timer := Checking, lock := TimerThread));
    case Checking =>
      Moves(w, ByTimer, if w.running then w.(timer := Marked, timedOut := true) else w.(timer := Leaving));
    case Marked =>
      Moves(w, ByTimer, w.(timer := Leaving, child := Signalled(w.child), watchdogSignals := w.watchdogSignals + 1));
    case Leaving => Moves(w, ByTimer, w.(timer := Ended, lock := Nobody));
  }

  lemma MainMoves(w: World)
    requires Inv(w) && w.main !in {Waiting, Done} && w.lock != TimerThread && (w.main == Joining ==> w.timer == Ended)
    ensures CanMove(w, ByMain)
  {
    match w.main
    case Caught => Moves(w, ByMain, w.(main := Killing, lock := MainThread));
    case Killing => Moves(w, ByMain, w.(main := KillSent, child := Signalled(w.child)));
    case KillSent => Moves(w, ByMain, w.(main := Reaping, lock := Nobody));
    case Reaping => Moves(w, ByMain, w.(main := Finishing));
    case Finishing => Moves(w, ByMain, w.(main := Clearing, lock := MainThread));
    case Clearing => Moves(w, ByMain, w.(main := Cleared, running := false));
    case Cleared => Moves(w, ByMain, w.(main := Cancelling, lock := Nobody));
    case Cancelling => Moves(w, ByMain, w.(main := Joining, cancelled := true));
    case Joining => Moves(w, ByMain, w.(main := Done));
  }

  /** The main thread goes on without the help of an exception from outside. */
  ghost predicate MainProceeds(w: World) {
    match w.main
    case Waiting => w.child == Exited
    case Reaping => w.child in {Exited, Reaped}
    case _ => CanMove(w, ByMain)
  }

  ghost predicate Stuck(w: World) {
    !MainProceeds(w) && !CanMove(w, ByTimer) && !CanMove(w, ByChild)
  }

  /** No deadlock: a run that can take no further step by itself has finished. */
  lemma NeverStuck(ws: seq<World>, actors: seq<Actor>)
    requires Run(ws, actors) && Stuck(ws[|actors|])
    ensures ws[|actors|].main == Done
  {
    RunKeeps(ws, actors);
    var w := ws[|actors|];
    if w.child in {Alive, Doomed} {
      Moves(w, ByChild, w.(child := Exited));
    }
    if w.main !in {Waiting, Done} {
      if w.timer != Ended && w.lock != MainThread {
        TimerMoves(w);
      } else {
        MainMoves(w);
      }
    }
  }

  /**
   A child that outlives its welcome is always still under watch: as long as the main thread waits, the kill is to come.
   */
  lemma StillWatched(ws: seq<World>, actors: seq<Actor>)
    requires Run(ws, actors) && ws[|actors|].main == Waiting && ws[|actors|].child == Alive
    ensures ws[|actors|].timer in {Sleeping, AtLock, Checking, Marked} && !ws[|actors|].cancelled
    ensures ws[|actors|].running
    ensures CanMove(ws[|actors|], ByTimer)
  {
    RunKeeps(ws, actors);
    TimerMoves(ws[|actors|]);
  }

  function MainRank(m: Main): nat {
    match m
    case Waiting => 10 case Caught => 9 case Killing => 8 case KillSent => 7 case Reaping => 6
    case Finishing => 5 case Clearing => 4 case Cleared => 3 case Cancelling => 2 case Joining => 1 case Done => 0
  }

  function TimerRank(t: Timer): nat {
    match t
    case Sleeping => 5 case AtLock => 4 case Checking => 3 case Marked => 2 case Leaving => 1 case Ended => 0
  }

  /** What is left to do; a signal does not count as the child's step. */
  function Left(w: World): nat {
    MainRank(w.main) + TimerRank(w.timer) + if w.child in {Alive, Doomed} then 1 else 0
  }

  lemma LeftFalls(w: World, actor: Actor, w': World)
    requires Next(w, actor, w')
    ensures Left(w') < Left(w)
  {
    match actor
    case ByMain => MainFalls(w, w');
    case ByTimer => assert TimerRank(w'.timer) < TimerRank(w.timer) && w'.main == w.main;
    case ByChild =>
  }

  lemma MainFalls(w: World, w': World)
    requires MainStep(w, w')
    ensures Left(w') < Left(w)
  {
    assert MainRank(w'.main) < MainRank(w.main) && w'.timer == w.timer;
  }

  /** Every run ends: it has at most sixteen steps. */
  lemma {:induction false} RunsEnd(ws: seq<World>, actors: seq<Actor>)
    requires Run(ws, actors)
    ensures |actors| + Left(ws[|actors|]) <= 16
  {
    if actors != [] {
      var n := |actors| - 1;
      RunsEnd(ws[..n + 1], actors[..n]);
      LeftFalls(ws[n], actors[n], ws[n + 1]);
    }
  }
}
