/** A barrier that a coordinator opens once the declared number of participants has arrived. */
module Barrier {
  import opened Wrappers

  /** What the mutex guards, with the declared number. */
  datatype Shared = Shared(expected: nat, arrived: nat, released: bool)

  class DeterministicBarrier {
    const expected: nat
    var arrived: nat
    var released: bool

    function Contents(): Shared
      reads this
    {
      Shared(expected, arrived, released)
    }

    constructor (expected: nat)
      requires expected > 0
      ensures Contents() == Shared(expected, 0, false)
    {
      this.expected := expected;
      arrived, released := 0, false;
    }

    /** One arrival, up to the wait: `ok` unless an assertion fails, `open` if there is nothing to wait for. */
    method Arrive() returns (ok: bool, open: bool)
      modifies this
      ensures Contents() == if Countable(old(Contents())) then AfterArrival(old(Contents())) else old(Contents())
      ensures ok == Welcome(old(Contents())) && open == old(released)
    {
      if arrived >= USIZE_MAX {
        return false, released;
      }
      arrived := arrived + 1;
      ok := arrived <= expected;
      open := released;
    }

    /** The test of a participant's loop, under the lock. */
    method MayPass() returns (open: bool)
      ensures open == released
    {
      return released;
    }

    /** The test of the coordinator's loop, under the lock. */
    method AllArrived() returns (all: bool)
      ensures all == Complete(Contents())
    {
      return !(arrived != expected);
    }

    method Release() returns (ok: bool)
      modifies this
      ensures ok == Complete(old(Contents()))
      ensures Contents() == if ok then old(Contents()).(released := true) else old(Contents())
    {
      ok := arrived == expected;
      if ok {
        released := true;
      }
    }
  }

  predicate Countable(sh: Shared) {
    sh.arrived < USIZE_MAX
  }

  function AfterArrival(sh: Shared): Shared {
    sh.(arrived := sh.arrived + 1)
  }

  /** Neither of the assertions of an arrival fails. */
  predicate Welcome(sh: Shared) {
    Countable(sh) && sh.arrived + 1 <= sh.expected
  }

  predicate Complete(sh: Shared) {
    sh.arrived == sh.expected
  }

  // ---------- participants and the coordinator ----------

  datatype Seat = Outside | Asleep | Woken | Passed | Panicked

  datatype Coordinator = Starting | Dozing | Roused | Releasing | Finished | Broken

  /** `spurious` bounds how often a waiter may still wake for no reason. */
  datatype System = System(sh: Shared, seats: seq<Seat>, coordinator: Coordinator, spurious: nat)

  datatype Step =
    | Arrive(seat: nat)
    | Retest(seat: nat)
    | AwaitAll
    | Release
    | WakeSeat(seat: nat)
    | WakeCoordinator

  function Initial(expected: nat, participants: nat, spurious: nat): System {
    System(Shared(expected, 0, false), seq(participants, _ => Outside), Starting, spurious)
  }

  predicate Enabled(s: System, step: Step) {
    match step
    case Arrive(i) => i < |s.seats| && s.seats[i] == Outside
    case Retest(i) => i < |s.seats| && s.seats[i] == Woken
    case AwaitAll => s.coordinator == Starting || s.coordinator == Roused
    case Release => s.coordinator == Releasing
    case WakeSeat(i) => s.spurious > 0 && i < |s.seats| && s.seats[i] == Asleep
    case WakeCoordinator => s.spurious > 0 && s.coordinator == Dozing
  }

  function Wake(seat: Seat): Seat {
    if seat == Asleep then Woken else seat
  }

  function WakeAll(seats: seq<Seat>): (woken: seq<Seat>)
    ensures |woken| == |seats| && forall i :: 0 <= i < |seats| ==> woken[i] == Wake(seats[i])
  {
    if seats == [] then [] else [Wake(seats[0])] + WakeAll(seats[1..])
  }

  /** `notify_all` on the one condition variable everyone waits on. */
  function NotifyAll(s: System): System {
    s.(seats := WakeAll(s.seats), coordinator := if s.coordinator == Dozing then Roused else s.coordinator)
  }

  function SeatAt(s: System, i: nat, seat: Seat): System
    requires i < |s.seats|
  {
    s.(seats := s.seats[i := seat])
  }

  /** A wait gives the lock up, so each step is one stretch under the lock. */
  function Next(s: System, step: Step): System
    requires Enabled(s, step)
  {
    match step
    case Arrive(i) =>
      if !Countable(s.sh) then SeatAt(s, i, Panicked)
      else
        var counted := s.(sh := AfterArrival(s.sh));
        if !Welcome(s.sh) then SeatAt(counted, i, Panicked)
        else SeatAt(NotifyAll(counted), i, if s.sh.released then Passed else Asleep)
    case Retest(i) => SeatAt(s, i, if s.sh.released then Passed else Asleep)
    case AwaitAll => s.(coordinator := if Complete(s.sh) then Releasing else Dozing)
    case Release =>
      if Complete(s.sh) then NotifyAll(s.(sh := s.sh.(released := true), coordinator := Finished))
      else s.(coordinator := Broken)
    case WakeSeat(i) => SeatAt(s, i, Woken).(spurious := s.spurious - 1)
    case WakeCoordinator => s.(coordinator := Roused, spurious := s.spurious - 1)
  }

  predicate Possible(s: System, steps: seq<Step>)
    decreases |steps|
  {
    steps == [] || (Enabled(s, steps[0]) && Possible(Next(s, steps[0]), steps[1..]))
  }

  function After(s: System, steps: seq<Step>): System
    requires Possible(s, steps)
    decreases |steps|
  {
    if steps == [] then s else After(Next(s, steps[0]), steps[1..])
  }

  // ---------- what every step keeps ----------

  function Count(seats: seq<Seat>, kind: Seat): nat {
    if seats == [] then 0 else (if seats[0] == kind then 1 else 0) + Count(seats[1..], kind)
  }

  function Arrivals(s: System): int {
    |s.seats| - Count(s.seats, Outside)
  }

  ghost predicate Inv(s: System) {
    && 0 < s.sh.expected
    && |s.seats| <= USIZE_MAX
    && s.sh.arrived == Arrivals(s)
    && (s.sh.released <==> s.coordinator == Finished)
    && (s.sh.released ==> s.sh.arrived >= s.sh.expected)
    && (s.coordinator == Releasing ==> s.sh.arrived >= s.sh.expected)
    && (s.coordinator == Dozing ==> !Complete(s.sh))
    && (s.coordinator == Broken ==> s.sh.arrived > s.sh.expected)
    && (s.sh.arrived > s.sh.expected ==> Panicked in s.seats)
    && forall i :: 0 <= i < |s.seats| ==> SeatOk(s.sh, s.seats[i])
  }

  predicate SeatOk(sh: Shared, seat: Seat) {
    && (seat == Passed ==> sh.released)
    && (seat == Asleep ==> !sh.released)
    && (seat == Panicked ==> sh.arrived > sh.expected)
  }

  lemma {:induction false} CountUpdate(seats: seq<Seat>, i: nat, seat: Seat, kind: Seat)
    requires i < |seats|
    ensures Count(seats[i := seat], kind)
         == Count(seats, kind) - (if seats[i] == kind then 1 else 0) + (if seat == kind then 1 else 0)
  {
    if i > 0 {
      assert seats[i := seat][1..] == seats[1..][i - 1 := seat];
      CountUpdate(seats[1..], i - 1, seat, kind);
    } else {
      assert seats[i := seat][1..] == seats[1..];
    }
  }

  lemma {:induction false} CountWakeAll(seats: seq<Seat>)
    ensures Count(WakeAll(seats), Outside) == Count(seats, Outside)
    ensures Count(WakeAll(seats), Woken) == Count(seats, Woken) + Count(seats, Asleep)
  {
    if seats != [] {
      CountWakeAll(seats[1..]);
      assert WakeAll(seats)[1..] == WakeAll(seats[1..]);
    }
  }

  lemma {:induction false} CountsFit(seats: seq<Seat>)
    ensures Count(seats, Outside) + Count(seats, Woken) + Count(seats, Asleep) <= |seats|
    ensures Count(seats, Outside) == 0 <==> forall i :: 0 <= i < |seats| ==> seats[i] != Outside
  {
    if seats != [] {
      CountsFit(seats[1..]);
      assert forall i :: 1 <= i < |seats| ==> seats[i] == seats[1..][i - 1];
      assert forall i :: 0 <= i < |seats[1..]| ==> seats[1..][i] == seats[i + 1];
    }
  }

  lemma {:induction false} AllOutside(n: nat)
    ensures Count(seq(n, _ => Outside), Outside) == n
  {
    if n > 0 {
      assert seq(n, _ => Outside)[1..] == seq(n - 1, _ => Outside);
      AllOutside(n - 1);
    }
  }

  lemma InitialInv(expected: nat, participants: nat, spurious: nat)
    requires 0 < expected && participants <= USIZE_MAX
    ensures Inv(Initial(expected, participants, spurious))
  {
    AllOutside(participants);
  }

  /** The seat of an arrival is no longer outside, and nobody else's coming or going is affected. */
  lemma ArriveCounts(s: System, i: nat)
    requires Enabled(s, Arrive(i))
    ensures var t := Next(s, Arrive(i));
      && |t.seats| == |s.seats|
      && Count(t.seats, Outside) == Count(s.seats, Outside) - 1
      && Count(t.seats, Woken) <= Count(s.seats, Woken) + Count(s.seats, Asleep)
  {
    hide Count, WakeAll;
    CountsFit(s.seats);
    CountWakeAll(s.seats);
    CountUpdate(s.seats, i, Panicked, Outside);
    CountUpdate(s.seats, i, Panicked, Woken);
    var seat := if s.sh.released then Passed else Asleep;
    CountUpdate(WakeAll(s.seats), i, seat, Outside);
    CountUpdate(WakeAll(s.seats), i, seat, Woken);
  }

  lemma PanicsStay(seats: seq<Seat>, i: nat, seat: Seat)
    requires i < |seats| && Panicked in seats && seats[i] != Panicked
    ensures Panicked in WakeAll(seats) && Panicked in seats[i := seat] && Panicked in WakeAll(seats)[i := seat]
  {
    var j :| 0 <= j < |seats| && seats[j] == Panicked;
    assert WakeAll(seats)[j] == Panicked && seats[i := seat][j] == Panicked && WakeAll(seats)[i := seat][j] == Panicked;
  }

  /** Someone outside means the count of arrivals has room. */
  lemma RoomToCount(s: System, i: nat)
    requires Inv(s) && Enabled(s, Arrive(i))
    ensures Countable(s.sh)
  {
    hide SeatOk;
    CountsFit(s.seats);
  }

  lemma UnwelcomeArrival(s: System, i: nat)
    requires Inv(s) && Enabled(s, Arrive(i)) && !Welcome(s.sh)
    ensures Inv(Next(s, Arrive(i)))
  {
    hide Count, WakeAll;
    RoomToCount(s, i);
    ArriveCounts(s, i);
    assert Next(s, Arrive(i)).seats[i] == Panicked;
  }

  lemma WelcomeArrival(s: System, i: nat)
    requires Inv(s) && Enabled(s, Arrive(i)) && Welcome(s.sh)
    ensures Inv(Next(s, Arrive(i)))
  {
    hide Count, WakeAll;
    ArriveCounts(s, i);
  }

  lemma StepKeepsInv(s: System, step: Step)
    requires Inv(s) && Enabled(s, step)
    ensures Inv(Next(s, step))
  {
    hide Count, WakeAll;
    match step {
      case Arrive(i) =>
        if Welcome(s.sh) { WelcomeArrival(s, i); } else { UnwelcomeArrival(s, i); }
      case Retest(i) =>
        CountUpdate(s.seats, i, if s.sh.released then Passed else Asleep, Outside);
        if Panicked in s.seats { PanicsStay(s.seats, i, if s.sh.released then Passed else Asleep); }
      case AwaitAll =>
      case Release => CountWakeAll(s.seats);
      case WakeSeat(i) =>
        CountUpdate(s.seats, i, Woken, Outside);
        if Panicked in s.seats { PanicsStay(s.seats, i, Woken); }
      case WakeCoordinator =>
    }
  }

  lemma {:induction false} RunKeepsInv(s: System, steps: seq<Step>)
    requires Inv(s) && Possible(s, steps)
    ensures Inv(After(s, steps)) && |After(s, steps).seats| == |s.seats|
    ensures After(s, steps).sh.expected == s.sh.expected
    decreases |steps|
  {
    hide Inv;
    if steps != [] {
      StepKeepsInv(s, steps[0]);
      hide Count;
      RunKeepsInv(Next(s, steps[0]), steps[1..]);
    }
  }

  // ---------- what a run promises ----------

  /** No participant passes before the declared number has arrived, however many take part. */
  lemma NobodyPassesEarly(expected: nat, participants: nat, spurious: nat, steps: seq<Step>, i: nat)
    requires 0 < expected && participants <= USIZE_MAX && i < participants
    requires Possible(Initial(expected, participants, spurious), steps)
    ensures var s := After(Initial(expected, participants, spurious), steps);
      && i < |s.seats|
      && (s.seats[i] == Passed ==> Arrivals(s) >= expected && s.coordinator == Finished)
  {
    hide Count, Arrivals, After, Possible;
    InitialInv(expected, participants, spurious);
    RunKeepsInv(Initial(expected, participants, spurious), steps);
  }

  /** Nobody sleeps on a condition that already holds. */
  lemma NoLostWakeup(expected: nat, participants: nat, spurious: nat, steps: seq<Step>)
    requires 0 < expected && participants <= USIZE_MAX
    requires Possible(Initial(expected, participants, spurious), steps)
    ensures var s := After(Initial(expected, participants, spurious), steps);
      && (s.coordinator == Dozing ==> s.sh.arrived != expected)
      && forall i :: 0 <= i < |s.seats| && s.seats[i] == Asleep ==> !s.sh.released
  {
    hide Count, Arrivals, After, Possible;
    InitialInv(expected, participants, spurious);
    RunKeepsInv(Initial(expected, participants, spurious), steps);
  }

  predicate AssertionFailed(s: System) {
    s.coordinator == Broken || Panicked in s.seats
  }

  /** With no more participants than declared, no assertion ever fails. */
  lemma NoAssertionFails(expected: nat, participants: nat, spurious: nat, steps: seq<Step>)
    requires 0 < expected && participants <= USIZE_MAX && participants <= expected
    requires Possible(Initial(expected, participants, spurious), steps)
    ensures !AssertionFailed(After(Initial(expected, participants, spurious), steps))
  {
    hide Count, After, Possible;
    InitialInv(expected, participants, spurious);
    RunKeepsInv(Initial(expected, participants, spurious), steps);
  }

  // ---------- every run ends, and how ----------

  function Alert(c: Coordinator): nat {
    if c == Starting || c == Roused then 1 else 0
  }

  function Undecided(c: Coordinator): nat {
    if c == Finished || c == Broken then 0 else 1
  }

  /** Everything that may still wake everyone up, then the retests already due. */
  function Measure(s: System): nat {
    (|s.seats| + 2) * (Count(s.seats, Outside) + Undecided(s.coordinator) + s.spurious)
    + Count(s.seats, Woken) + Alert(s.coordinator)
  }

  lemma Weigh(w: nat, one: nat, two: nat)
    requires two < one
    ensures w * two + w <= w * one
  {
    assert w * two + w == w * (two + 1);
    assert two + 1 <= one;
  }

  lemma ArriveDecreases(s: System, i: nat)
    requires Enabled(s, Arrive(i))
    ensures Measure(Next(s, Arrive(i))) < Measure(s)
  {
    ArriveCounts(s, i);
    CountsFit(s.seats);
    hide Count, WakeAll;
    var n := Count(s.seats, Outside) + Undecided(s.coordinator) + s.spurious;
    Weigh(|s.seats| + 2, n, n - 1);
  }

  lemma StepDecreases(s: System, step: Step)
    requires Enabled(s, step)
    ensures Measure(Next(s, step)) < Measure(s)
  {
    hide Count, WakeAll;
    CountsFit(s.seats);
    var n := Count(s.seats, Outside) + Undecided(s.coordinator) + s.spurious;
    match step {
      case Arrive(i) => ArriveDecreases(s, i);
      case Retest(i) =>
        CountUpdate(s.seats, i, if s.sh.released then Passed else Asleep, Outside);
        CountUpdate(s.seats, i, if s.sh.released then Passed else Asleep, Woken);
      case AwaitAll =>
      case Release =>
        CountWakeAll(s.seats);
        Weigh(|s.seats| + 2, n, n - 1);
      case WakeSeat(i) =>
        CountUpdate(s.seats, i, Woken, Outside);
        CountUpdate(s.seats, i, Woken, Woken);
        Weigh(|s.seats| + 2, n, n - 1);
      case WakeCoordinator =>
        Weigh(|s.seats| + 2, n, n - 1);
    }
  }

  /** So no run is longer than the measure of its start. */
  lemma {:induction false} RunsAreShort(s: System, steps: seq<Step>)
    requires Possible(s, steps)
    ensures |steps| + Measure(After(s, steps)) <= Measure(s)
    decreases |steps|
  {
    hide Measure;
    if steps != [] {
      StepDecreases(s, steps[0]);
      RunsAreShort(Next(s, steps[0]), steps[1..]);
    }
  }

  ghost predicate Stuck(s: System) {
    forall step :: Enabled(s, step) ==> step.WakeSeat? || step.WakeCoordinator?
  }

  predicate Done(s: System) {
    s.coordinator == Finished && forall i :: 0 <= i < |s.seats| ==> s.seats[i] == Passed
  }

  lemma StuckArrivals(s: System)
    requires Inv(s) && Stuck(s)
    ensures s.sh.arrived == |s.seats|
    ensures s.coordinator == Dozing || s.coordinator == Finished || s.coordinator == Broken
    ensures forall i :: 0 <= i < |s.seats| ==> s.seats[i] != Outside && s.seats[i] != Woken
  {
    assert !Enabled(s, AwaitAll) && !Enabled(s, Release);
    forall i | 0 <= i < |s.seats|
      ensures s.seats[i] != Outside && s.seats[i] != Woken
    {
      assert !Enabled(s, Arrive(i)) && !Enabled(s, Retest(i));
    }
    CountsFit(s.seats);
  }

  /**
   A run with nothing left to do has let everyone through exactly when as many took part as were declared:
   with fewer, the coordinator and everyone else sleep on; with more, an assertion has failed.
   */
  lemma MaximalRunsFinishIffExact(expected: nat, participants: nat, spurious: nat, steps: seq<Step>)
    requires 0 < expected && participants <= USIZE_MAX
    requires Possible(Initial(expected, participants, spurious), steps)
    requires Stuck(After(Initial(expected, participants, spurious), steps))
    ensures var s := After(Initial(expected, participants, spurious), steps);
      && (Done(s) <==> participants == expected)
      && (AssertionFailed(s) <==> participants > expected)
      && (participants < expected ==>
            s.coordinator == Dozing && forall i :: 0 <= i < |s.seats| ==> s.seats[i] == Asleep)
  {
    hide Count, Arrivals, After, Possible, Stuck;
    InitialInv(expected, participants, spurious);
    RunKeepsInv(Initial(expected, participants, spurious), steps);
    var s := After(Initial(expected, participants, spurious), steps);
    StuckArrivals(s);
  }
}
