/** Queue 0 of the scheduler, a doubly linked list of jobs, with kernel threads that do not wait. */
module Scheduler {
  import opened Turns

  datatype Status = Running | Ready | Dead

  /** A job: the time it has used in its priority and its neighbours in the queue. */
  datatype Job = Job(time: nat, prev: nat, next: nat)

  function At(q: seq<nat>, i: int): nat {
    if 0 <= i < |q| then q[i] else 0
  }

  predicate Distinct(q: seq<nat>) {
    DistinctAfter(q, |q|)
  }

  predicate DistinctOpen(q: seq<nat>) {
    (forall i :: 0 <= i < |q| ==> q[i] != 0) && forall i, j :: 0 <= i < j < |q| ==> q[i] != q[j]
  }

  predicate DistinctAfter(q: seq<nat>, countdown: nat) {
    if countdown > 0 then DistinctAfter(q, countdown - 1) else DistinctOpen(q)
  }

  lemma {:induction false} DistinctAfterIs(q: seq<nat>, countdown: nat)
    ensures DistinctAfter(q, countdown) <==> DistinctOpen(q)
  {
    if countdown > 0 {
      DistinctAfterIs(q, countdown - 1);
    }
  }

  lemma DistinctIs(q: seq<nat>)
    ensures Distinct(q) <==> DistinctOpen(q)
  {
    DistinctAfterIs(q, |q|);
  }

  predicate Linked(jobs: map<nat, Job>, q: seq<nat>) {
    LinkedAfter(jobs, q, |q|)
  }

  predicate LinkedOpen(jobs: map<nat, Job>, q: seq<nat>) {
    forall i {:trigger q[i]} ::
      0 <= i < |q| ==> q[i] in jobs && jobs[q[i]].prev == At(q, i - 1) && jobs[q[i]].next == At(q, i + 1)
  }

  predicate LinkedAfter(jobs: map<nat, Job>, q: seq<nat>, countdown: nat) {
    if countdown > 0 then LinkedAfter(jobs, q, countdown - 1) else LinkedOpen(jobs, q)
  }

  lemma {:induction false} LinkedAfterIs(jobs: map<nat, Job>, q: seq<nat>, countdown: nat)
    ensures LinkedAfter(jobs, q, countdown) <==> LinkedOpen(jobs, q)
  {
    if countdown > 0 {
      LinkedAfterIs(jobs, q, countdown - 1);
    }
  }

  lemma LinkedIs(jobs: map<nat, Job>, q: seq<nat>)
    ensures Linked(jobs, q) <==> LinkedOpen(jobs, q)
  {
    LinkedAfterIs(jobs, q, |q|);
  }

  lemma LinkedAt(jobs: map<nat, Job>, q: seq<nat>, i: nat)
    requires Linked(jobs, q) && Distinct(q) && i < |q|
    ensures q[i] != 0 && q[i] in jobs && jobs[q[i]].prev == At(q, i - 1) && jobs[q[i]].next == At(q, i + 1)
    ensures (At(q, i - 1) == 0 <==> i == 0) && (At(q, i + 1) == 0 <==> i + 1 == |q|)
    ensures i > 0 ==> At(q, i - 1) in jobs && At(q, i - 1) != q[i]
    ensures i + 1 < |q| ==> At(q, i + 1) in jobs && At(q, i + 1) != q[i]
    ensures 0 < i < |q| - 1 ==> At(q, i - 1) != At(q, i + 1)
  {
    LinkedIs(jobs, q);
    DistinctIs(q);
    assert i > 0 ==> q[i - 1] in jobs;
    assert i + 1 < |q| ==> q[i + 1] in jobs;
  }

  predicate SameTimes(a: map<nat, Job>, b: map<nat, Job>) {
    a.Keys == b.Keys && forall x :: x in a ==> a[x].time == b[x].time
  }

  function Without(q: seq<nat>, i: nat): seq<nat>
    requires i < |q|
  {
    q[..i] + q[i + 1..]
  }

  /** The jobs after one has been taken out of the queue, with its neighbours linked to each other. */
  function Unlinked(jobs: map<nat, Job>, prev: nat, next: nat): map<nat, Job>
    requires (prev != 0 ==> prev in jobs) && (next != 0 ==> next in jobs)
  {
    var jobs' := if prev != 0 then jobs[prev := jobs[prev].(next := next)] else jobs;
    if next != 0 then jobs'[next := jobs'[next].(prev := prev)] else jobs'
  }

  lemma UnlinkedIs(jobs: map<nat, Job>, q: seq<nat>, i: nat)
    requires Linked(jobs, q) && Distinct(q) && i < |q|
    ensures var p, n := At(q, i - 1), At(q, i + 1);
            && (p != 0 ==> p in jobs) && (n != 0 ==> n in jobs)
            && Linked(Unlinked(jobs, p, n), Without(q, i)) && SameTimes(jobs, Unlinked(jobs, p, n))
  {
    LinkedAt(jobs, q, i);
    var t, p, n := Without(q, i), At(q, i - 1), At(q, i + 1);
    var jobs' := Unlinked(jobs, p, n);
    forall k {:trigger t[k]} | 0 <= k < |t|
      ensures t[k] in jobs' && jobs'[t[k]].prev == At(t, k - 1) && jobs'[t[k]].next == At(t, k + 1)
    {
      UnlinkedAt(jobs, q, i, k);
    }
    LinkedIs(jobs', t);
  }

  lemma UnlinkedAt(jobs: map<nat, Job>, q: seq<nat>, i: nat, k: nat)
    requires Linked(jobs, q) && Distinct(q) && i < |q| && k < |q| - 1
    ensures var t, p, n := Without(q, i), At(q, i - 1), At(q, i + 1);
            && (p != 0 ==> p in jobs) && (n != 0 ==> n in jobs)
            && t[k] in Unlinked(jobs, p, n) && Unlinked(jobs, p, n)[t[k]].prev == At(t, k - 1)
            && Unlinked(jobs, p, n)[t[k]].next == At(t, k + 1)
  {
    var t := Without(q, i);
    LinkedAt(jobs, q, i);
    DistinctIs(q);
    if k < i {
      assert t[k] == q[k] && At(t, k - 1) == At(q, k - 1);
      LinkedAt(jobs, q, k);
      assert At(t, k + 1) == if k + 1 == i then At(q, k + 2) else At(q, k + 1);
      assert k + 1 < i ==> q[k] != At(q, i - 1);
      assert i + 1 < |q| ==> q[k] != q[i + 1];
    } else {
      assert t[k] == q[k + 1] && At(t, k + 1) == At(q, k + 2);
      LinkedAt(jobs, q, k + 1);
      assert At(t, k - 1) == if k == i then At(q, k - 1) else At(q, k);
      assert i > 0 ==> q[k + 1] != q[i - 1];
      assert k > i ==> q[k + 1] != q[i + 1];
    }
  }

  lemma WithoutDistinct(q: seq<nat>, i: nat)
    requires Distinct(q) && i < |q|
    ensures Distinct(Without(q, i)) && q[i] !in Without(q, i)
  {
    DistinctIs(q);
    DistinctIs(Without(q, i));
  }

  /** The jobs after one has been put behind another. */
  function Appended(jobs: map<nat, Job>, last: nat, job: nat): map<nat, Job>
    requires job in jobs && (last != 0 ==> last in jobs)
  {
    var jobs' := jobs[job := jobs[job].(prev := last, next := 0)];
    if last == 0 then jobs' else jobs'[last := jobs'[last].(next := job)]
  }

  lemma AppendedIs(jobs: map<nat, Job>, q: seq<nat>, job: nat)
    requires Linked(jobs, q) && Distinct(q) && job in jobs && job !in q && job != 0
    ensures var last := At(q, |q| - 1);
            && (last != 0 ==> last in jobs) && Linked(Appended(jobs, last, job), q + [job]) && Distinct(q + [job])
            && SameTimes(jobs, Appended(jobs, last, job))
  {
    var t, last := q + [job], At(q, |q| - 1);
    LinkedIs(jobs, q);
    DistinctIs(q);
    DistinctIs(t);
    assert q != [] ==> q[|q| - 1] in jobs;
    var jobs' := Appended(jobs, last, job);
    forall k {:trigger t[k]} | 0 <= k < |t|
      ensures t[k] in jobs' && jobs'[t[k]].prev == At(t, k - 1) && jobs'[t[k]].next == At(t, k + 1)
    {
      if k < |q| {
        assert t[k] == q[k];
      }
    }
    LinkedIs(jobs', t);
  }

  /** Everyone in line but the running job is ready and has used no time. */
  predicate Idle(line: seq<nat>, status: map<nat, Status>, jobs: map<nat, Job>, running: nat) {
    forall i {:trigger line[i]} :: 0 <= i < |line| ==>
      && line[i] in status && line[i] in jobs
      && (line[i] != running ==> status[line[i]] == Ready && jobs[line[i]].time == 0)
  }

  /** A ready job that has used no time joins them. */
  lemma IdleJoined(line: seq<nat>, status: map<nat, Status>, jobs: map<nat, Job>, running: nat, job: nat,
      jobs': map<nat, Job>)
    requires Idle(line, status, jobs, running) && job !in jobs && SameTimes(jobs[job := Job(0, 0, 0)], jobs')
    ensures Idle(line + [job], status[job := Ready], jobs', running)
    ensures forall x :: x in jobs ==> x in jobs' && x != job && jobs'[x].time == jobs[x].time
  {
    var line', status' := line + [job], status[job := Ready];
    forall i {:trigger line'[i]} | 0 <= i < |line'| ensures
      line'[i] in status' && line'[i] in jobs'
      && (line'[i] != running ==> status'[line'[i]] == Ready && jobs'[line'[i]].time == 0)
    {
      if i < |line| {
        assert line'[i] == line[i];
      }
    }
  }

  /** The time a job has used, 0 if there is none. */
  function TimeOf(jobs: map<nat, Job>, job: nat): nat {
    if job in jobs && job != 0 then jobs[job].time else 0
  }

  class Queue {
    var jobs: map<nat, Job>
    var status: map<nat, Status>
    var head: nat
    var tail: nat
    var isEmpty: bool
    var runningJob: nat
    var boostTime: nat
    var current: nat
    ghost var line: seq<nat>

    /** The links are those of the line. */
    ghost predicate Threaded()
      reads this
    {
      && Distinct(line) && Linked(jobs, line) && head == At(line, 0) && tail == At(line, |line| - 1)
      && (isEmpty <==> line == [])
    }

    ghost function State(): State
      reads this
    {
      Turns.State(line, runningJob != 0, TimeOf(jobs, runningJob), boostTime)
    }

    /** Everyone in line but the running job is ready and has used no time. */
    ghost predicate Fresh()
      reads this
    {
      Idle(line, status, jobs, runningJob)
    }

    ghost predicate Valid()
      reads this
    {
      && Threaded() && Turns.Valid(State()) && Fresh()
      && (runningJob != 0 ==> line != [] && runningJob == line[0] == current && status[runningJob] == Running)
    }

    constructor ()
      ensures Valid() && State() == Turns.State([], false, 0, 0)
    {
      jobs, status, head, tail, isEmpty, runningJob, boostTime, current := map[], map[], 0, 0, true, 0, 0, 0;
      line := [];
    }

    lemma LineEnds()
      requires Threaded()
      ensures (head == 0 <==> line == []) && (tail == 0 <==> line == [])
    {
      DistinctIs(line);
    }

    method RemoveJob(job: nat, ghost i: nat)
      requires Threaded() && i < |line| && line[i] == job
      modifies `jobs, `head, `tail, `isEmpty, `line
      ensures Threaded() && job !in line && line == Without(old(line), i) && SameTimes(old(jobs), jobs)
    {
      LinkedAt(jobs, line, i);
      UnlinkedIs(jobs, line, i);
      WithoutDistinct(line, i);
      var prev, next := jobs[job].prev, jobs[job].next;
      if prev != 0 {
        jobs := jobs[prev := jobs[prev].(next := next)];
      } else {
        head := next;
      }
      if next != 0 {
        jobs := jobs[next := jobs[next].(prev := prev)];
      } else {
        tail := prev;
      }
      if head == 0 {
        isEmpty := true;
      }
      line := Without(line, i);
      DistinctIs(line);
    }

    method AddJob(job: nat)
      requires Threaded() && job in jobs && job !in line && job != 0
      modifies `jobs, `head, `tail, `isEmpty, `line
      ensures Threaded() && line == old(line) + [job] && SameTimes(old(jobs), jobs)
    {
      AppendedIs(jobs, line, job);
      LineEnds();
      jobs := jobs[job := jobs[job].(prev := tail, next := 0)];
      if tail != 0 {
        jobs := jobs[tail := jobs[tail].(next := job)];
      }
      if head == 0 {
        head := job;
      }
      tail, isEmpty := job, false;
      line := line + [job];
    }

    /** Every job in the queue starts its time again. */
    method PriorityBoost()
      requires Threaded()
      modifies `jobs
      ensures Threaded() && jobs.Keys == old(jobs).Keys
      ensures forall i {:trigger line[i]} :: 0 <= i < |line| ==> line[i] in jobs && jobs[line[i]].time == 0
    {
      var job := head;
      ghost var n: nat := 0;
      LineEnds();
      while job != 0
        invariant && Threaded() && jobs.Keys == old(jobs).Keys && n <= |line| && job == At(line, n)
                  && (job == 0 <==> n == |line|)
        invariant forall i {:trigger line[i]} :: 0 <= i < n ==> line[i] in jobs && jobs[line[i]].time == 0
        decreases |line| - n
      {
        LinkedAt(jobs, line, n);
        ghost var before := jobs;
        jobs := jobs[job := jobs[job].(time := 0)];
        Retimed(before, line, n, 0);
        LinkedAt(jobs, line, n);
        job := jobs[job].next;
        n := n + 1;
      }
    }

    /** The timer has ticked: time passes for the running job, and now and then all start again. */
    method Time()
      requires Valid()
      modifies `jobs, `boostTime
      ensures Threaded() && Fresh() && jobs.Keys == old(jobs).Keys
      ensures boostTime == (if Boosted(old(State())) then 0 else old(boostTime) + TIMESLOT)
      ensures runningJob != 0 ==>
                jobs[runningJob].time == (if Boosted(old(State())) then 0 else old(State()).time + TIMESLOT)
    {
      if runningJob != 0 {
        LinkedAt(jobs, line, 0);
        Retimed(jobs, line, 0, jobs[runningJob].time + TIMESLOT);
        jobs := jobs[runningJob := jobs[runningJob].(time := jobs[runningJob].time + TIMESLOT)];
      }
      boostTime := boostTime + TIMESLOT;
      if boostTime > BOOST {
        PriorityBoost();
        boostTime := 0;
      }
    }

    /** Between the timer or a death and the choice of the next job. */
    ghost predicate Choosing()
      reads this
    {
      && Threaded() && Fresh()
      && (runningJob != 0 ==>
            line != [] && runningJob == line[0] && (status[runningJob] == Running || status[runningJob] == Dead))
    }

    /** Whether the running job goes on. */
    predicate GoesOn()
      reads this
    {
      && runningJob != 0 && runningJob in status && runningJob in jobs
      && status[runningJob] != Dead && jobs[runningJob].time <= ALLOTMENT
    }

    /** The job that has used up its time goes to the back of the line, ready and with no time used. */
    method Requeue()
      requires Choosing() && runningJob != 0 && status[runningJob] == Running
      modifies `jobs, `head, `tail, `isEmpty, `line, `status
      ensures Threaded() && line == old(line)[1..] + [old(line)[0]]
      ensures forall i {:trigger line[i]} ::
                0 <= i < |line| ==>
                  line[i] in status && line[i] in jobs && status[line[i]] == Ready && jobs[line[i]].time == 0
      ensures status == old(status)[runningJob := Ready]
    {
      LinkedAt(jobs, line, 0);
      ghost var rest := line[1..];
      assert Without(line, 0) == rest;
      RemoveJob(runningJob, 0);
      status := status[runningJob := Ready];
      AddJob(runningJob);
      assert line[|rest|] == runningJob;
      Retimed(jobs, line, |rest|, 0);
      jobs := jobs[runningJob := jobs[runningJob].(time := 0)];
      forall i {:trigger line[i]} | 0 <= i < |line|
        ensures line[i] in status && line[i] in jobs && status[line[i]] == Ready && jobs[line[i]].time == 0
      {
        if i < |rest| {
          assert line[i] == old(line)[i + 1];
        }
      }
    }

    /** A dead job leaves the line. */
    method Bury()
      requires Choosing() && runningJob != 0
      modifies `jobs, `head, `tail, `isEmpty, `line, `runningJob
      ensures Threaded() && line == old(line)[1..] && runningJob == 0
      ensures forall i {:trigger line[i]} ::
                0 <= i < |line| ==>
                  line[i] in status && line[i] in jobs && status[line[i]] == Ready && jobs[line[i]].time == 0
    {
      assert Without(line, 0) == line[1..];
      RemoveJob(runningJob, 0);
      runningJob := 0;
      DistinctIs(old(line));
      forall i {:trigger line[i]} | 0 <= i < |line|
        ensures line[i] in status && line[i] in jobs && status[line[i]] == Ready && jobs[line[i]].time == 0
      {
        assert line[i] == old(line)[i + 1];
      }
    }

    /** The next job to run: the running one while its turn lasts, and then the first in line. */
    method Schedule() returns (thread: nat)
      requires Choosing()
      modifies `jobs, `head, `tail, `isEmpty, `line, `status, `runningJob
      ensures Threaded() && thread == runningJob == At(line, 0)
      ensures old(GoesOn()) ==>
                line == old(line) && jobs == old(jobs) && status == old(status) && runningJob == old(runningJob)
      ensures (!old(GoesOn()) ==>
        forall i {:trigger line[i]} :: 0 <= i < |line| ==>
          line[i] in status && line[i] in jobs && status[line[i]] == Ready && jobs[line[i]].time == 0)
      ensures old(runningJob) == 0 ==> line == old(line) && status == old(status)
      ensures old(runningJob) != 0 && old(status)[old(runningJob)] == Dead ==>
                line == old(line)[1..] && status == old(status)
      ensures (old(runningJob) != 0 && old(status)[old(runningJob)] != Dead && !old(GoesOn()) ==>
        line == old(line)[1..] + [old(line)[0]] && status == old(status)[old(runningJob) := Ready])
    {
      if runningJob == 0 || status[runningJob] == Dead || jobs[runningJob].time > ALLOTMENT {
        if runningJob != 0 {
          if status[runningJob] == Dead {
            Bury();
          } else {
            Requeue();
          }
        } else {
          NoneRuns();
        }
        LineEnds();
        if !isEmpty {
          // The first job in line is always ready, so that none is ever skipped.
          assert status[line[0]] == Ready;
          runningJob := head;
        }
      }
      thread := runningJob;
    }

    lemma NoneRuns()
      requires Threaded() && Fresh() && runningJob == 0
      ensures forall i {:trigger line[i]} ::
                0 <= i < |line| ==>
                  line[i] in status && line[i] in jobs && status[line[i]] == Ready && jobs[line[i]].time == 0
    {
      DistinctIs(line);
    }

    /** The processor goes to the job chosen. */
    method Switch()
      requires Choosing()
      modifies `jobs, `head, `tail, `isEmpty, `line, `status, `runningJob, `current
      ensures Threaded() && Fresh() && runningJob == At(line, 0) && (runningJob == 0 <==> line == [])
      ensures runningJob != 0 ==> line != [] && current == runningJob && status[runningJob] == Running
      ensures old(GoesOn()) ==> line == old(line) && jobs == old(jobs) && runningJob == old(runningJob)
      ensures !old(GoesOn()) && runningJob != 0 ==> jobs[runningJob].time == 0
      ensures old(runningJob) == 0 ==> line == old(line)
      ensures old(runningJob) != 0 && old(status)[old(runningJob)] == Dead ==> line == old(line)[1..]
      ensures (old(runningJob) != 0 && old(status)[old(runningJob)] != Dead && !old(GoesOn()) ==>
        line == old(line)[1..] + [old(line)[0]])
    {
      var previous := current;
      var thread := Schedule();
      LineEnds();
      if thread != 0 {
        current := thread;
        status := status[thread := Running];
        if previous != 0 && previous != thread && previous in status && status[previous] == Running {
          status := status[previous := Ready];
        }
      }
    }

    /** One tick of the timer. */
    method Tick()
      requires Valid()
      modifies this
      ensures Valid() && State() == Ticked(old(State()))
    {
      AfterValid(State(), Turns.Tick);
      LineEnds();
      Time();
      Switch();
      assert State() == Ticked(old(State()));
    }

    /** The running thread ends. */
    method Exit()
      requires Valid() && runningJob != 0
      modifies this
      ensures Valid() && State() == Ended(old(State()))
    {
      AfterValid(State(), Death);
      status := status[runningJob := Dead];
      Switch();
      assert State() == Ended(old(State()));
    }

    /** A new thread gets in line. */
    method NewJob(job: nat)
      requires Valid() && job != 0 && job !in jobs
      modifies this
      ensures Valid() && State() == Joined(old(State()), job)
    {
      Retained(jobs, line, job);
      AfterValid(State(), Arrival(job));
      status := status[job := Ready];
      jobs := jobs[job := Job(0, 0, 0)];
      AddJob(job);
      IdleJoined(old(line), old(status), old(jobs), runningJob, job, jobs);
      JoinedState(job, old(jobs), old(line), State(), Turns.State(old(line), runningJob != 0, TimeOf(old(jobs),
          runningJob), boostTime));
    }

    lemma JoinedState(job: nat, was: map<nat, Job>, ahead: seq<nat>, s: State, before: State)
      requires s == State() && before == Turns.State(ahead, runningJob != 0, TimeOf(was, runningJob), boostTime)
      requires line == ahead + [job] && (runningJob != 0 ==> runningJob in was) && runningJob != job
      requires forall x :: x in was ==> x in jobs && jobs[x].time == was[x].time
      ensures s == Joined(before, job)
    {
    }
  }

  /** One more job in memory leaves the links as they are. */
  lemma Retained(jobs: map<nat, Job>, q: seq<nat>, job: nat)
    requires Linked(jobs, q) && job !in jobs
    ensures Linked(jobs[job := Job(0, 0, 0)], q) && job !in q
  {
    LinkedIs(jobs, q);
    LinkedIs(jobs[job := Job(0, 0, 0)], q);
  }

  /** Another time for a job leaves the links as they are. */
  lemma Retimed(jobs: map<nat, Job>, q: seq<nat>, i: nat, time: nat)
    requires Linked(jobs, q) && i < |q|
    ensures q[i] in jobs && Linked(jobs[q[i] := jobs[q[i]].(time := time)], q)
  {
    LinkedIs(jobs, q);
    LinkedIs(jobs[q[i] := jobs[q[i]].(time := time)], q);
  }
}
