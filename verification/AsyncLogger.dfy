/** The asynchronous logger: producers append to a queue, and one thread writes the entries to the
    file. The steps are those between which the threads can be interleaved. */
module AsyncLogger {

  /** Where the log thread is. It holds the mutex in Check, Sleeping, Loop and Popped. */
  datatype Pc =
    | Test        // the test of the outer loop, without the mutex
    | Acquire     // taking the mutex in front of the wait
    | Check       // evaluating the condition of the wait
    | Sleeping    // the condition was false: about to release the mutex and wait
    | Waiting
    | Loop        // the test of the inner loop
    | Popped      // an entry was taken from the queue
    | Writing     // the mutex is released, and the entry is being written
    | Relock      // taking the mutex after the write
    | Flush
    | Returned

  datatype Holder = Free | LogThread | Producer(entry: string, pushed: bool)

  /** `enqueued` is the history of the queue, and `atStop` what it was when the logger was first
      stopped. */
  datatype State = State(
    pc: Pc, holder: Holder, running: bool, stopNotified: bool, signalled: bool,
    queue: seq<string>, inHand: seq<string>, written: seq<string>,
    enqueued: seq<string>, atStop: seq<string>)

  datatype Step =
    | Lock(entry: string)   // a producer takes the mutex
    | PushEntry             // and appends its entry
    | NotifyAndUnlock
    | StopStore             // any thread clears the running flag
    | StopNotify
    | Advance               // the log thread goes on
    | SpuriousWake

  function Initial(): State
  {
    State(Test, Free, true, false, false, [], [], [], [], [])
  }

  predicate Enabled(s: State, step: Step)
  {
    match step
    case Lock(_) => s.holder.Free?
    case PushEntry => s.holder.Producer? && !s.holder.pushed
    case NotifyAndUnlock => s.holder.Producer? && s.holder.pushed
    case StopStore => true
    case StopNotify => !s.running
    case SpuriousWake => s.pc.Waiting?
    case Advance =>
      match s.pc
      case Acquire => s.holder.Free?
      case Relock => s.holder.Free?
      case Waiting => s.signalled
      case Returned => false
      case _ => true
  }

  /** The log thread's own step. */
  function Advanced(s: State): State
    requires Enabled(s, Advance)
  {
    match s.pc
    case Test =>
      if s.running || s.queue != [] then s.(pc := Acquire) else s.(pc := Flush)
    case Acquire => s.(pc := Check, holder := LogThread)
    case Check => if s.queue != [] || !s.running then s.(pc := Loop) else s.(pc := Sleeping)
    case Sleeping => s.(pc := Waiting, holder := Free, signalled := false)
    case Waiting => s.(pc := Acquire, signalled := false)
    case Loop =>
      if s.queue != [] then s.(pc := Popped, inHand := [s.queue[0]], queue := s.queue[1..])
      else s.(pc := Test, holder := Free)
    case Popped => s.(pc := Writing, holder := Free)
    case Writing => s.(pc := Relock, written := s.written + s.inHand, inHand := [])
    case Relock => s.(pc := Loop, holder := LogThread)
    case Flush => s.(pc := Returned)
    case Returned => s
  }

  function Next(s: State, step: Step): State
    requires Enabled(s, step)
  {
    match step
    case Lock(entry) => s.(holder := Producer(entry, false))
    case PushEntry =>
      s.(holder := s.holder.(pushed := true), queue := s.queue + [s.holder.entry], enqueued := s.enqueued + [s.holder.entry])
    case NotifyAndUnlock => s.(holder := Free, signalled := s.signalled || s.pc.Waiting?)
    case StopStore => s.(running := false, atStop := if s.running then s.enqueued else s.atStop)
    case StopNotify => s.(stopNotified := true, signalled := s.signalled || s.pc.Waiting?)
    case SpuriousWake => s.(pc := Acquire, signalled := false)
    case Advance => Advanced(s)
  }

  // --- The invariant --------------------------------------------------------------------

  predicate HoldsMutex(pc: Pc) { pc.Check? || pc.Sleeping? || pc.Loop? || pc.Popped? }

  predicate Invariant(s: State)
  {
    // what was enqueued is written, in hand, or queued, in order
    && s.enqueued == s.written + s.inHand + s.queue
    && (s.inHand == [] <==> !s.pc.Popped? && !s.pc.Writing?)
    && |s.inHand| <= 1
    && (HoldsMutex(s.pc) <==> s.holder.LogThread?)
    // the log thread does not sleep while there are entries, unless it has been woken
    && (s.pc.Sleeping? ==> s.queue == [])
    && (s.pc.Waiting? && !s.signalled && s.queue != [] ==> s.holder.Producer? && s.holder.pushed)
    && (s.signalled ==> s.pc.Waiting?)
    // the history
    && (s.stopNotified ==> !s.running)
    && (!s.running ==> s.atStop <= s.enqueued)
    && (s.pc.Flush? || s.pc.Returned? ==> !s.running && s.atStop <= s.written)
  }

  lemma InitialIsOk()
    ensures Invariant(Initial())
  {}

  lemma {:induction false} KeepsInvariant(s: State, step: Step)
    requires Invariant(s) && Enabled(s, step)
    ensures Invariant(Next(s, step))
  {
    if step.PushEntry? {
      assert s.written + s.inHand + (s.queue + [s.holder.entry]) == s.enqueued + [s.holder.entry];
    } else if step.Advance? {
      if s.pc.Writing? {
        assert s.written + s.inHand + [] == s.written + s.inHand;
      } else if s.pc.Loop? && s.queue != [] {
        assert [s.queue[0]] + s.queue[1..] == s.queue;
        assert s.written + [s.queue[0]] + s.queue[1..] == s.written + [] + s.queue;
      } else if s.pc.Test? && s.queue == [] {
        assert s.written + [] + [] == s.written;
      }
    }
  }

  // --- Whole runs -----------------------------------------------------------------------

  predicate Possible(s: State, run: seq<Step>)
    decreases |run|
  {
    run == [] || (Enabled(s, run[0]) && Possible(Next(s, run[0]), run[1..]))
  }

  function Run(s: State, run: seq<Step>): State
    requires Possible(s, run)
    decreases |run|
  {
    if run == [] then s else Run(Next(s, run[0]), run[1..])
  }

  /** The file and the history only grow, and a stop is final. */
  lemma {:induction false} StepGrows(s: State, step: Step)
    requires Enabled(s, step)
    ensures var t := Next(s, step);
            && s.written <= t.written && s.enqueued <= t.enqueued
            && (!s.running ==> !t.running && t.atStop == s.atStop)
  {}

  lemma {:induction false} RunKeepsInvariant(s: State, run: seq<Step>)
    requires Invariant(s) && Possible(s, run)
    ensures Invariant(Run(s, run)) && s.written <= Run(s, run).written && s.enqueued <= Run(s, run).enqueued
    ensures !s.running ==> !Run(s, run).running && Run(s, run).atStop == s.atStop
    decreases |run|
  {
    if run != [] {
      hide Invariant, Next, Enabled;
      KeepsInvariant(s, run[0]);
      StepGrows(s, run[0]);
      RunKeepsInvariant(Next(s, run[0]), run[1..]);
    }
  }

  /** The entries that producers append during a run, in order: each was given when its producer took
      the mutex. `entry` is that of the producer that has the mutex at the beginning. */
  function Appended(run: seq<Step>, entry: string): seq<string>
  {
    if run == [] then []
    else
      match run[0]
      case Lock(e) => Appended(run[1..], e)
      case PushEntry => [entry] + Appended(run[1..], entry)
      case _ => Appended(run[1..], entry)
  }

  lemma {:induction false} RunAppends(s: State, run: seq<Step>, entry: string)
    requires Possible(s, run) && (s.holder.Producer? ==> s.holder.entry == entry)
    ensures Run(s, run).enqueued == s.enqueued + Appended(run, entry)
    ensures Run(s, run).running <==> s.running && StopStore !in run
    decreases |run|
  {
    if run != [] {
      var more := if run[0].Lock? then run[0].entry else entry;
      RunAppends(Next(s, run[0]), run[1..], more);
      assert s.enqueued + ([entry] + Appended(run[1..], entry)) == s.enqueued + [entry] + Appended(run[1..], entry);
      assert StopStore in run <==> run[0] == StopStore || StopStore in run[1..];
    }
  }

  /** The history of the queue is what the producers appended, and the logger runs until it is stopped. */
  lemma {:induction false} EnqueuedIs(run: seq<Step>)
    requires Possible(Initial(), run)
    ensures Run(Initial(), run).enqueued == Appended(run, "")
    ensures Run(Initial(), run).running <==> StopStore !in run
  {
    RunAppends(Initial(), run, "");
    assert [] + Appended(run, "") == Appended(run, "");
  }

  /** In every interleaving the file holds the entries in the order in which they were enqueued,
      each once, and the entry in hand and the queue are exactly what is missing. */
  lemma {:induction false} WrittenInOrder(run: seq<Step>)
    requires Possible(Initial(), run)
    ensures var t := Run(Initial(), run);
            t.written + t.inHand + t.queue == t.enqueued == Appended(run, "") && |t.inHand| <= 1
  {
    InitialIsOk();
    RunKeepsInvariant(Initial(), run);
    EnqueuedIs(run);
  }

  /** The state before step `i` of a run. */
  function StateAt(s: State, run: seq<Step>, i: nat): State
    requires Possible(s, run) && i <= |run|
    decreases i
  {
    if i == 0 then s else StateAt(Next(s, run[0]), run[1..], i - 1)
  }

  lemma {:induction false} StatesAt(s: State, run: seq<Step>, i: nat)
    requires Possible(s, run) && i <= |run| && run != []
    ensures i > 0 ==> StateAt(s, run, i) == StateAt(Next(s, run[0]), run[1..], i - 1)
    ensures i < |run| && i > 0 ==> run[i] == run[1..][i - 1]
  {}

  /** The step with which the outer loop ends: its test fails for good. */
  predicate LeavesLoop(s: State, step: Step)
  {
    step.Advance? && s.pc.Test? && !s.running && s.queue == []
  }

  predicate PastLoop(s: State) { s.pc.Flush? || s.pc.Returned? }

  /** The outer loop ends once, and what is enqueued afterwards is never written. */
  lemma {:induction false} LastTest(s: State, run: seq<Step>) returns (i: nat)
    requires Invariant(s) && Possible(s, run) && !PastLoop(s) && PastLoop(Run(s, run))
    ensures i < |run| && LeavesLoop(StateAt(s, run, i), run[i])
    ensures forall j :: 0 <= j < |run| && j != i ==> !LeavesLoop(StateAt(s, run, j), run[j])
    ensures Run(s, run).written == StateAt(s, run, i).enqueued
    ensures Run(s, run).enqueued == StateAt(s, run, i).enqueued <==> forall j :: i < j < |run| ==> !run[j].PushEntry?
    decreases |run|
  {
    hide Invariant;
    KeepsInvariant(s, run[0]);
    var t, rest := Next(s, run[0]), run[1..];
    if PastLoop(t) {
      i := 0;
      EntersLoopEnd(s, run[0]);
      AfterLoop(t, rest);
      assert StateAt(s, run, 0) == s;
    } else {
      i := LastTest(t, rest);
      i := i + 1;
      StatesAt(s, run, i);
      StaysInLoop(s, run[0]);
    }
    forall j | 0 <= j < |run| && j > 0
      ensures StateAt(s, run, j) == StateAt(t, rest, j - 1) && run[j] == rest[j - 1]
    {
      StatesAt(s, run, j);
    }
  }

  lemma {:induction false} EntersLoopEnd(s: State, step: Step)
    requires Invariant(s) && Enabled(s, step) && !PastLoop(s) && PastLoop(Next(s, step))
    ensures LeavesLoop(s, step) && Next(s, step).enqueued == s.enqueued && Next(s, step).written == s.enqueued
  {
    assert s.written + [] + [] == s.written;
  }

  lemma {:induction false} StaysInLoop(s: State, step: Step)
    requires Enabled(s, step) && !PastLoop(Next(s, step))
    ensures !LeavesLoop(s, step)
  {}

  lemma {:induction false} AfterLoop(s: State, run: seq<Step>)
    requires Invariant(s) && Possible(s, run) && PastLoop(s)
    ensures Run(s, run).written == s.written
    ensures forall j :: 0 <= j < |run| ==> !LeavesLoop(StateAt(s, run, j), run[j])
    ensures |Run(s, run).enqueued| >= |s.enqueued|
    ensures Run(s, run).enqueued == s.enqueued <==> forall j :: 0 <= j < |run| ==> !run[j].PushEntry?
    decreases |run|
  {
    if run != [] {
      var t, rest := Next(s, run[0]), run[1..];
      KeepsInvariant(s, run[0]);
      AfterLoop(t, rest);
      assert PastLoop(t) && t.written == s.written;
      assert |t.enqueued| == |s.enqueued| + if run[0].PushEntry? then 1 else 0;
      hide Next, Invariant, Enabled;
      forall j | 0 < j < |run|
        ensures StateAt(s, run, j) == StateAt(t, rest, j - 1) && run[j] == rest[j - 1]
      {
        StatesAt(s, run, j);
      }
      assert StateAt(s, run, 0) == s;
    }
  }

  /** When the log thread has returned, there is exactly one step with which it left its loop. The
      file holds exactly what was enqueued before that step, which includes everything from before
      the stop. That is everything there is if and only if no producer appended anything later. */
  lemma {:induction false} ReturnedHasWritten(run: seq<Step>) returns (i: nat)
    requires Possible(Initial(), run) && Run(Initial(), run).pc.Returned?
    ensures i < |run| && LeavesLoop(StateAt(Initial(), run, i), run[i])
    ensures forall j :: 0 <= j < |run| && j != i ==> !LeavesLoop(StateAt(Initial(), run, j), run[j])
    ensures Run(Initial(), run).written == StateAt(Initial(), run, i).enqueued
    ensures Run(Initial(), run).written == Run(Initial(), run).enqueued <==> forall j :: i < j < |run| ==> !run[j].PushEntry?
    ensures Run(Initial(), run).atStop <= Run(Initial(), run).written
  {
    InitialIsOk();
    RunKeepsInvariant(Initial(), run);
    i := LastTest(Initial(), run);
  }

  /** What `atStop` records: the entries at the moment the running flag is first cleared. */
  lemma {:induction false} StopIsRecorded(before: seq<Step>, after: seq<Step>)
    requires Possible(Initial(), before) && Run(Initial(), before).running
    requires Possible(Next(Run(Initial(), before), StopStore), after)
    requires Run(Next(Run(Initial(), before), StopStore), after).pc.Returned?
    ensures var s := Run(Initial(), before);
            s.enqueued <= Run(Next(s, StopStore), after).written
  {
    InitialIsOk();
    RunKeepsInvariant(Initial(), before);
    var s := Run(Initial(), before);
    KeepsInvariant(s, StopStore);
    RunKeepsInvariant(Next(s, StopStore), after);
  }

  /** An entry that is enqueued after the last test is lost. */
  lemma {:induction false} LateEntryIsLost()
    ensures var run := [StopStore, Advance, Lock("late"), PushEntry, NotifyAndUnlock, Advance];
            && Possible(Initial(), run)
            && Run(Initial(), run).pc.Returned? && Run(Initial(), run).written == [] && Run(Initial(), run).enqueued == ["late"]
  {
    var s0 := Initial();
    var s1 := Next(s0, StopStore);
    var s2 := Next(s1, Advance);
    var s3 := Next(s2, Lock("late"));
    var s4 := Next(s3, PushEntry);
    var s5 := Next(s4, NotifyAndUnlock);
    var s6 := Next(s5, Advance);
    assert Possible(s6, []) && Run(s6, []) == s6;
    assert Possible(s5, [Advance]) && Run(s5, [Advance]) == s6;
    assert Possible(s4, [NotifyAndUnlock, Advance]);
    assert Possible(s3, [PushEntry, NotifyAndUnlock, Advance]);
  }

  // --- Waking up ------------------------------------------------------------------------

  /** The log thread sleeps although it has been told to stop, and nothing has woken it. */
  predicate Overslept(s: State)
  {
    !s.running && s.stopNotified && !s.signalled && (s.pc.Sleeping? || s.pc.Waiting?)
  }

  /** What wakes a waiting log thread. */
  predicate Wakes(s: State, step: Step)
  {
    s.pc.Waiting? && (step.NotifyAndUnlock? || step.StopNotify? || step.SpuriousWake?)
  }

  lemma {:induction false} OversleptStep(s: State, step: Step)
    requires Invariant(s) && Enabled(s, step)
    ensures Overslept(Next(s, step)) <==>
            (step.StopNotify? && s.pc.Sleeping?) || (Overslept(s) && !Wakes(s, step))
  {}

  /** No step from step `i` of the run on wakes the log thread. */
  ghost predicate NobodyWakes(s: State, run: seq<Step>, i: nat)
    requires Possible(s, run)
  {
    forall j :: i <= j < |run| ==> !Wakes(StateAt(s, run, j), run[j])
  }

  /** Step `i` notifies of a stop while the log thread is about to wait, and nobody wakes it later. */
  ghost predicate MissedAt(s: State, run: seq<Step>, i: nat)
    requires Possible(s, run)
  {
    i < |run| && run[i].StopNotify? && StateAt(s, run, i).pc.Sleeping? && NobodyWakes(s, run, i + 1)
  }

  lemma {:induction false} OversleptRun(s: State, run: seq<Step>)
    requires Invariant(s) && Possible(s, run)
    ensures Overslept(Run(s, run)) <==> (exists i :: MissedAt(s, run, i)) || (Overslept(s) && NobodyWakes(s, run, 0))
    decreases |run|
  {
    if run != [] {
      var t, rest := Next(s, run[0]), run[1..];
      KeepsInvariant(s, run[0]);
      OversleptStep(s, run[0]);
      OversleptRun(t, rest);
      hide Next, Invariant, Enabled, Wakes, Overslept;
      assert StateAt(s, run, 0) == s;
      forall j | 0 < j < |run|
        ensures StateAt(s, run, j) == StateAt(t, rest, j - 1) && run[j] == rest[j - 1]
      {
        StatesAt(s, run, j);
      }
      forall i | 0 < i <= |run|
        ensures NobodyWakes(s, run, i) <==> NobodyWakes(t, rest, i - 1)
      {
        LaterWakes(s, run, t, rest, i);
      }
      forall i | 0 < i
        ensures MissedAt(s, run, i) <==> MissedAt(t, rest, i - 1)
      {}
      assert MissedAt(s, run, 0) <==> run[0].StopNotify? && s.pc.Sleeping? && NobodyWakes(t, rest, 0);
      assert NobodyWakes(s, run, 0) <==> !Wakes(s, run[0]) && NobodyWakes(s, run, 1);
      assert forall i: nat :: MissedAt(t, rest, i) ==> MissedAt(s, run, i + 1);
    }
  }

  lemma {:induction false} LaterWakes(s: State, run: seq<Step>, t: State, rest: seq<Step>, i: nat)
    requires Possible(s, run) && Possible(t, rest) && |run| == |rest| + 1 && 0 < i <= |run|
    requires forall j :: 0 < j < |run| ==> StateAt(s, run, j) == StateAt(t, rest, j - 1) && run[j] == rest[j - 1]
    ensures NobodyWakes(s, run, i) <==> NobodyWakes(t, rest, i - 1)
  {
    hide StateAt, Wakes, Possible;
    if NobodyWakes(s, run, i) {
      forall j | i - 1 <= j < |rest|
        ensures !Wakes(StateAt(t, rest, j), rest[j])
      {
        assert !Wakes(StateAt(s, run, j + 1), run[j + 1]);
      }
    }
  }

  /** After a run the log thread sleeps through a stop if and only if some notification of a stop came
      between the evaluation of the wait's condition and the wait, and nothing has woken it since. */
  lemma {:induction false} OversleptIff(run: seq<Step>)
    requires Possible(Initial(), run)
    ensures Overslept(Run(Initial(), run)) <==> exists i :: MissedAt(Initial(), run, i)
  {
    InitialIsOk();
    OversleptRun(Initial(), run);
  }

  /** Without a notification or a spurious wake, a stop that is slept through is slept through for
      ever: the log thread never returns. */
  lemma {:induction false} NeverReturns(s: State, run: seq<Step>)
    requires Invariant(s) && Overslept(s) && Possible(s, run)
    requires forall i :: 0 <= i < |run| ==> !run[i].NotifyAndUnlock? && !run[i].StopNotify? && !run[i].SpuriousWake?
    ensures Overslept(Run(s, run)) && !Run(s, run).pc.Returned?
    decreases |run|
  {
    if run != [] {
      KeepsInvariant(s, run[0]);
      OversleptStep(s, run[0]);
      NeverReturns(Next(s, run[0]), run[1..]);
    }
  }

  /** A run in which it happens. */
  lemma {:induction false} StopIsSleptThrough()
    ensures var run := [Advance, Advance, Advance, StopStore, StopNotify, Advance];
            && Possible(Initial(), run) && Run(Initial(), run).pc.Waiting? && Overslept(Run(Initial(), run))
  {
    var s1 := Next(Initial(), Advance);
    var s2 := Next(s1, Advance);
    var s3 := Next(s2, Advance);
    var s4 := Next(s3, StopStore);
    var s5 := Next(s4, StopNotify);
    var s6 := Next(s5, Advance);
    assert Possible(s6, []) && Run(s6, []) == s6;
    assert Possible(s5, [Advance]) && Run(s5, [Advance]) == s6;
    assert Possible(s4, [StopNotify, Advance]) && Run(s4, [StopNotify, Advance]) == s6;
    assert Possible(s3, [StopStore, StopNotify, Advance]) && Run(s3, [StopStore, StopNotify, Advance]) == s6;
    assert Possible(s2, [Advance, StopStore, StopNotify, Advance]) && Run(s2, [Advance, StopStore, StopNotify, Advance]) == s6;
  }

  /** Entries are not slept through: a waiting log thread has nothing to write or has been woken, as
      soon as no producer is in the middle of its write. */
  lemma {:induction false} NoEntryIsSleptThrough(run: seq<Step>)
    requires Possible(Initial(), run)
    ensures var t := Run(Initial(), run);
            t.pc.Waiting? && !t.holder.Producer? ==> t.queue == [] || t.signalled
  {
    InitialIsOk();
    RunKeepsInvariant(Initial(), run);
  }
}
