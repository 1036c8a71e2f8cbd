/** Queue 0 of the scheduler as a machine over timer ticks, arrivals and deaths, and how long a job waits in it. */
module Turns {

  const TIMESLOT := 2
  const ALLOTMENT := 50
  const BOOST := 1000
  /** The most ticks that a turn lasts. */
  const TURN := 52

  /** The jobs in line, whether the first of them runs, the time it has used, and the time since the last boost. */
  datatype State = State(line: seq<nat>, running: bool, time: nat, boost: nat)

  predicate Valid(s: State) {
    && (s.running ==> s.line != []) && s.time <= ALLOTMENT && s.time % TIMESLOT == 0 && (!s.running ==> s.time == 0)
    && s.boost <= BOOST && s.boost % TIMESLOT == 0
    && forall i, j :: 0 <= i < j < |s.line| ==> s.line[i] != s.line[j]
  }

  predicate Boosted(s: State) {
    s.boost + TIMESLOT > BOOST
  }

  /** The timer has ticked: time passes, and at the end of its turn the first job goes to the back of the line. */
  function Ticked(s: State): State
    requires Valid(s)
  {
    var boost := if Boosted(s) then 0 else s.boost + TIMESLOT;
    var time := if Boosted(s) then 0 else s.time + TIMESLOT;
    if !s.running then State(s.line, s.line != [], 0, boost)
    else if time > ALLOTMENT then State(s.line[1..] + [s.line[0]], true, 0, boost)
    else State(s.line, true, time, boost)
  }

  /** The running job has died. */
  function Ended(s: State): State
    requires Valid(s) && s.running
  {
    State(s.line[1..], |s.line| > 1, 0, s.boost)
  }

  /** A job has come. */
  function Joined(s: State, job: nat): State {
    s.(line := s.line + [job])
  }

  datatype Event = Tick | Death | Arrival(job: nat)

  predicate Possible(s: State, e: Event) {
    match e
    case Tick => true
    case Death => s.running
    case Arrival(job) => job !in s.line
  }

  function After(s: State, e: Event): State
    requires Valid(s) && Possible(s, e)
  {
    match e
    case Tick => Ticked(s)
    case Death => Ended(s)
    case Arrival(job) => Joined(s, job)
  }

  lemma AfterValid(s: State, e: Event)
    requires Valid(s) && Possible(s, e)
    ensures Valid(After(s, e))
  {
    if e.Tick? && s.running {
      var rest := s.line[1..];
      forall i, j | 0 <= i < j < |s.line| ensures (rest + [s.line[0]])[i] != (rest + [s.line[0]])[j] {
      }
    }
  }

  /** The ticks left of the running job's turn: up to its allotment, or up to a boost that comes first and the whole
      allotment again. */
  function Left(s: State): nat
    requires Valid(s)
  {
    if BOOST - s.boost <= ALLOTMENT - s.time then (BOOST - s.boost) / TIMESLOT + 1 + ALLOTMENT / TIMESLOT + 1
    else (ALLOTMENT - s.time) / TIMESLOT + 1
  }

  /** A turn lasts at least one tick more and never more than 52, and it ends with the tick that Left says. */
  lemma TurnLasts(s: State)
    requires Valid(s) && s.running
    ensures 1 <= Left(s) <= TURN
    ensures Left(s) > 1 ==> Ticked(s).line == s.line && Ticked(s).running && Left(Ticked(s)) == Left(s) - 1
    ensures Left(s) == 1 ==> Ticked(s).line == s.line[1..] + [s.line[0]] && Ticked(s).running && Ticked(s).time == 0
  {
  }

  /** The ticks that a job may have to wait before it runs, from its place in the line. */
  function Wait(s: State, k: nat): nat
    requires Valid(s) && k < |s.line|
  {
    if !s.running then 1 + TURN * k
    else if k == 0 then 0
    else Left(s) + TURN * (k - 1)
  }

  /** With a job running, no more than a turn for each job ahead. */
  lemma WaitBound(s: State, k: nat)
    requires Valid(s) && k < |s.line|
    ensures s.running ==> Wait(s, k) <= TURN * k
    ensures !s.running ==> Wait(s, k) == TURN * k + 1
  {
    if s.running {
      TurnLasts(s);
    }
  }

  /** A job that does not run keeps its place or moves up, and each tick shortens its wait. */
  lemma WaitShrinks(s: State, e: Event, k: nat)
    requires Valid(s) && Possible(s, e) && k < |s.line| && Wait(s, k) > 0
    ensures var t := After(s, e);
            && Valid(t)
            && exists k': nat ::
                 && k' <= k && k' < |t.line| && t.line[k'] == s.line[k]
                 && Wait(t, k') + (if e.Tick? then 1 else 0) <= Wait(s, k)
  {
    AfterValid(s, e);
    var t := After(s, e);
    match e {
      case Tick =>
        WaitTick(s, k);
      case Death =>
        TurnLasts(s);
        assert t.line[k - 1] == s.line[k];
        WaitBound(t, k - 1);
      case Arrival(job) =>
        assert t.line[k] == s.line[k];
    }
  }

  lemma WaitTick(s: State, k: nat)
    requires Valid(s) && k < |s.line| && Wait(s, k) > 0
    ensures var t := Ticked(s);
            && Valid(t)
            && exists k': nat :: k' <= k && k' < |t.line| && t.line[k'] == s.line[k] && Wait(t, k') + 1 <= Wait(s, k)
  {
    AfterValid(s, Tick);
    var t := Ticked(s);
    if !s.running {
      assert t.line[k] == s.line[k];
      WaitBound(t, k);
    } else {
      TurnLasts(s);
      if Left(s) > 1 {
        assert t.line[k] == s.line[k];
      } else {
        assert t.line[k - 1] == s.line[k];
        WaitBound(t, k - 1);
      }
    }
  }

  predicate Run(s: State, es: seq<Event>)
    requires Valid(s)
    decreases |es|
  {
    es != [] ==> Possible(s, es[0]) && Valid(After(s, es[0])) && Run(After(s, es[0]), es[1..])
  }

  function Ticks(es: seq<Event>): nat {
    if es == [] then 0 else (if es[0].Tick? then 1 else 0) + Ticks(es[1..])
  }

  predicate Runs(s: State, job: nat) {
    s.running && s.line != [] && s.line[0] == job
  }

  /** Whether a job has the processor somewhere along a run. */
  predicate HasRun(s: State, es: seq<Event>, job: nat)
    requires Valid(s) && Run(s, es)
    decreases |es|
  {
    Runs(s, job) || (es != [] && HasRun(After(s, es[0]), es[1..], job))
  }

  /** Bounded waiting: whatever comes and goes, a job runs before its wait is over. */
  lemma {:induction false} NoStarvation(s: State, es: seq<Event>, k: nat)
    requires Valid(s) && Run(s, es) && k < |s.line| && Wait(s, k) <= Ticks(es)
    ensures HasRun(s, es, s.line[k])
    decreases |es|
  {
    if Wait(s, k) == 0 {
      assert Runs(s, s.line[k]);
    } else {
      var e := es[0];
      WaitShrinks(s, e, k);
      var t := After(s, e);
      var k': nat :|
        k' <= k && k' < |t.line| && t.line[k'] == s.line[k] && Wait(t, k') + (if e.Tick? then 1 else 0) <= Wait(s, k);
      NoStarvation(t, es[1..], k');
    }
  }

  /** A job with k jobs ahead of it runs within 52 k ticks, when the processor is busy. */
  lemma RunsWithin(s: State, es: seq<Event>, k: nat)
    requires Valid(s) && s.running && Run(s, es) && k < |s.line| && TURN * k <= Ticks(es)
    ensures HasRun(s, es, s.line[k])
  {
    WaitBound(s, k);
    NoStarvation(s, es, k);
  }

  /** An idle processor with jobs in line needs one tick more: the bound of 52 k ticks alone does not hold there. */
  lemma IdleWaits(s: State)
    requires Valid(s) && !s.running && s.line != []
    ensures !HasRun(s, [], s.line[0]) && Run(s, [Tick]) && HasRun(s, [Tick], s.line[0])
  {
    AfterValid(s, Tick);
    assert [Tick][1..] == [];
    assert Runs(Ticked(s), s.line[0]);
  }
}
