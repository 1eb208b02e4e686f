/** lock and unlock of util.c, run by any number of threads one atomic access at a time. */
module SpinLock {

  /** Where a thread stands: not in lock, about to test-and-set, in the inner reading loop, or
      between lock and unlock. */
  datatype Place = Outside | Setting | Spinning | Holding

  datatype State = State(word: int, threads: seq<Place>)

  predicate Init(s: State) {
    s.word == 0 && forall t :: 0 <= t < |s.threads| ==> s.threads[t].Outside?
  }

  datatype Action = Enter | TestAndSet | SpinRead | Release

  /** One access by thread t. */
  function Act(s: State, t: nat, a: Action): (r: State)
    requires t < |s.threads|
    ensures |r.threads| == |s.threads|
  {
    match (a, s.threads[t])
    case (Enter, Outside) => s.(threads := s.threads[t := Setting])
    case (TestAndSet, Setting) => State(1, s.threads[t := if s.word != 0 then Spinning else Holding])
    case (SpinRead, Spinning) => if s.word != 0 then s else s.(threads := s.threads[t := Setting])
    case (Release, Holding) => State(0, s.threads[t := Outside])
    case _ => s
  }

  datatype Event = Event(thread: nat, action: Action)

  /** The state after a schedule, an arbitrary interleaving of accesses. */
  function Run(s: State, schedule: seq<Event>): (r: State)
    ensures |r.threads| == |s.threads|
    decreases |schedule|
  {
    if schedule == [] then s
    else
      var e := schedule[|schedule| - 1];
      var p := Run(s, schedule[..|schedule| - 1]);
      if e.thread < |p.threads| then Act(p, e.thread, e.action) else p
  }

  ghost predicate Exclusive(s: State) {
    && (s.word == 0 || s.word == 1)
    && (forall t :: 0 <= t < |s.threads| && s.threads[t].Holding? ==> s.word == 1)
    && (s.word == 1 ==> exists t :: 0 <= t < |s.threads| && s.threads[t].Holding?)
    && forall t, u :: 0 <= t < u < |s.threads| && s.threads[t].Holding? ==> !s.threads[u].Holding?
  }

  lemma ActKeepsExclusive(s: State, t: nat, a: Action)
    requires t < |s.threads| && Exclusive(s)
    ensures Exclusive(Act(s, t, a))
  {
    var s' := Act(s, t, a);
    assert forall u :: 0 <= u < |s.threads| && u != t ==> s'.threads[u] == s.threads[u];
    if s'.word == 1 {
      if s.word == 1 {
        var h :| 0 <= h < |s.threads| && s.threads[h].Holding?;
        assert s'.threads[h].Holding?;
      } else {
        assert s'.threads[t].Holding?;
      }
    }
  }

  /** Mutual exclusion: in every state of every schedule at most one thread is between lock and
      unlock, and the word is 1 exactly when one is. */
  lemma MutualExclusion(s: State, schedule: seq<Event>)
    requires Init(s)
    ensures var r := Run(s, schedule);
            && (forall t, u :: 0 <= t < u < |r.threads| ==> !(r.threads[t].Holding? && r.threads[u].Holding?))
            && (r.word == 1 <==> exists t :: 0 <= t < |r.threads| && r.threads[t].Holding?)
            && (r.word == 0 || r.word == 1)
  {
    StaysExclusive(s, schedule);
  }

  lemma {:induction false} StaysExclusive(s: State, schedule: seq<Event>)
    requires Exclusive(s) || Init(s)
    ensures Exclusive(Run(s, schedule))
    decreases |schedule|
  {
    if schedule != [] {
      var n := |schedule| - 1;
      StaysExclusive(s, schedule[..n]);
      var p, e := Run(s, schedule[..n]), schedule[n];
      if e.thread < |p.threads| {
        ActKeepsExclusive(p, e.thread, e.action);
      }
    }
  }

  lemma {:induction false} RunCons(s: State, e: Event, more: seq<Event>)
    requires e.thread < |s.threads|
    ensures Run(s, [e] + more) == Run(Act(s, e.thread, e.action), more)
    decreases |more|
  {
    if more == [] {
      assert [e] + more == [e] && [e][..0] == [];
    } else {
      var n := |more| - 1;
      RunCons(s, e, more[..n]);
      assert ([e] + more)[..n + 1] == [e] + more[..n];
    }
  }

  /** A waiting thread left to run alone takes the free word. */
  lemma FreeWordIsTaken(s: State, t: nat) returns (more: seq<Event>)
    requires t < |s.threads| && s.word == 0
    requires s.threads[t].Setting? || s.threads[t].Spinning?
    ensures |more| <= 2 && Run(s, more).threads[t].Holding?
  {
    var take := Event(t, TestAndSet);
    more := [take] + [];
    if s.threads[t].Spinning? {
      RunCons(Act(s, t, SpinRead), take, []);
      RunCons(s, Event(t, SpinRead), more);
      more := [Event(t, SpinRead)] + more;
    } else {
      RunCons(s, take, []);
    }
  }

  /** No deadlock: in every state of every schedule, each thread that waits for the lock is at
      most three accesses from holding it, the first being the holder's release. */
  lemma NoDeadlock(s: State, schedule: seq<Event>, t: nat, r: State)
    requires Init(s) && r == Run(s, schedule) && t < |r.threads|
    requires r.threads[t].Setting? || r.threads[t].Spinning?
    ensures exists more :: |more| <= 3 && Run(r, more).threads[t].Holding?
  {
    StaysExclusive(s, schedule);
    if r.word == 0 {
      var more := FreeWordIsTaken(r, t);
    } else {
      var h :| 0 <= h < |r.threads| && r.threads[h].Holding?;
      var more := FreeWordIsTaken(Act(r, h, Release), t);
      RunCons(r, Event(h, Release), more);
    }
  }

  /** And a thread outside can call lock and have it just as soon: within three steps, the first
      being the holder's release if there is a holder. */
  lemma EachCanEnter(s: State, schedule: seq<Event>, t: nat, r: State)
    requires Init(s) && r == Run(s, schedule) && t < |r.threads| && r.threads[t].Outside?
    ensures exists more :: |more| <= 3 && Run(r, more).threads[t].Holding? && Run(r, more).word == 1
    ensures r.word == 0 ==> Run(r, [Event(t, Enter), Event(t, TestAndSet)]).threads[t].Holding?
  {
    StaysExclusive(s, schedule);
    if r.word == 0 {
      EnterFree(r, t);
    } else {
      var h :| 0 <= h < |r.threads| && r.threads[h].Holding?;
      var more := [Event(t, Enter), Event(t, TestAndSet)];
      EnterFree(Act(r, h, Release), t);
      RunCons(r, Event(h, Release), more);
      assert |[Event(h, Release)] + more| == 3;
    }
  }

  lemma EnterFree(s: State, t: nat)
    requires t < |s.threads| && s.word == 0 && s.threads[t].Outside?
    ensures Run(s, [Event(t, Enter), Event(t, TestAndSet)]) == State(1, s.threads[t := Holding])
  {
    var take := [Event(t, TestAndSet)];
    RunCons(s, Event(t, Enter), take);
    assert [Event(t, Enter)] + take == [Event(t, Enter), Event(t, TestAndSet)] && take + [] == take;
    RunCons(Act(s, t, Enter), Event(t, TestAndSet), []);
    assert s.threads[t := Setting][t := Holding] == s.threads[t := Holding];
  }

  /** unlock: the word is 0 again, the holder is outside, and nobody else has moved. */
  lemma ReleaseFrees(s: State, t: nat)
    requires t < |s.threads| && s.threads[t].Holding?
    ensures Act(s, t, Release) == State(0, s.threads[t := Outside])
  {
  }

  /** Only a free word is taken, and only its holder frees it; nobody moves another thread. */
  lemma WordChangesHands(s: State, t: nat, a: Action)
    requires t < |s.threads|
    ensures forall u :: 0 <= u < |s.threads| && u != t ==> Act(s, t, a).threads[u] == s.threads[u]
    ensures !s.threads[t].Holding? && Act(s, t, a).threads[t].Holding? <==>
              a == TestAndSet && s.threads[t].Setting? && s.word == 0
    ensures s.threads[t].Holding? && !Act(s, t, a).threads[t].Holding? <==> a == Release && s.threads[t].Holding?
    ensures a == TestAndSet && s.threads[t].Setting? ==> Act(s, t, a).word == 1
    ensures a == TestAndSet && s.threads[t].Setting? && s.word != 0 ==> Act(s, t, a).threads[t].Spinning?
  {
  }

  /** A thread whose test-and-set has failed leaves the inner loop only by reading 0: until then no
      access of its own, or of any other thread, brings it back to test and set again. */
  lemma {:induction false} NoRetryBeforeZero(s: State, more: seq<Event>, t: nat)
    requires t < |s.threads| && s.threads[t].Spinning? && !Run(s, more).threads[t].Spinning?
    ensures exists i {:trigger more[i]} :: 0 <= i < |more| && more[i] == Event(t, SpinRead)
              && Run(s, more[..i]).word == 0 && Run(s, more[..i]).threads[t].Spinning?
    decreases |more|
  {
    var n := |more| - 1;
    var q := Run(s, more[..n]);
    if q.threads[t].Spinning? {
      assert more[n] == Event(t, SpinRead) && q.word == 0;
    } else {
      NoRetryBeforeZero(s, more[..n], t);
      var i :| 0 <= i < n && more[..n][i] == Event(t, SpinRead)
               && Run(s, more[..n][..i]).word == 0 && Run(s, more[..n][..i]).threads[t].Spinning?;
      assert more[..n][..i] == more[..i] && more[i] == Event(t, SpinRead);
    }
  }
}
