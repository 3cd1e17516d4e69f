/** The channel over whole runs: a notification wakes the validator once, a woken validator goes on until there is
    nothing it can do, and only a notification or a restart makes it go on from there.
 */
module WakeUp {
  import opened Types
  import opened ChainState
  import opened Storage
  import opened StateIndex
  import opened Soundness
  import opened Validate
  import opened Relayer
  import opened Validator
  import opened ValidationStream

  /** A run with the steps it took. */
  ghost predicate IsTrace(env: Env, run: seq<Node>, steps: seq<Step>) {
    && |run| == |steps| + 1 && Init(run[0])
    && forall i :: 0 <= i < |steps| ==> Next(env, run[i], steps[i], run[i + 1])
  }

  lemma TraceIsRun(env: Env, run: seq<Node>, steps: seq<Step>)
    requires IsTrace(env, run, steps)
    ensures IsRun(env, run)
  {
    hide Next, Init;
    forall i | 0 <= i < |run| - 1 ensures Steps(env, run[i], run[i + 1]) {
      assert Next(env, run[i], steps[i], run[i + 1]);
    }
  }

  /** What a step may change: the chain only a commit, what is announced only a notification, what the receiver has
      seen only a wake-up or a restart, progress only the step that moves it, the record only the step that writes it.
   */
  lemma StepFrame(env: Env, s: Node, step: Step, t: Node)
    requires Shape(s) && Next(env, s, step, t)
    ensures !step.Commit? ==> t.chain == s.chain && t.top == s.top && t.log == s.log
    ensures step != Notify ==> t.announced == s.announced && t.version == s.version
    ensures step == Notify ==> t.announced == s.top - 1 && t.version > s.version
    ensures step != Wake && step != Reboot ==> t.seen == s.seen
    ensures step == Wake || step == Reboot ==> t.seen == s.version && t.pc == Poll
    ensures step != MoveProgress ==> t.progress == s.progress
    ensures step != RecordFailure ==> t.failures == s.failures
    ensures step.Commit? || step == Notify ==> t.pc == s.pc
    ensures s.pc == Parked ==> t.pc == Parked || step == Wake || step == Reboot || step == Stop
    ensures s.pc == Stopped ==> t.pc == Stopped || step == Reboot
    ensures step == Stop ==> t.pc == Stopped
    ensures step == Interrupt ==> t.pc == Poll
  {
    hide ReadOver, CheckSet, ReadsBack, Covers;
  }

  // ---------------------------------------------------------------- a notification wakes once

  function Wakes(steps: seq<Step>): nat {
    if steps == [] then 0 else Wakes(steps[..|steps| - 1]) + if steps[|steps| - 1].Wake? then 1 else 0
  }

  function Notifies(steps: seq<Step>): nat {
    if steps == [] then 0 else Notifies(steps[..|steps| - 1]) + if steps[|steps| - 1].Notify? then 1 else 0
  }

  /** The validator wakes no more often than it is notified, counting what it had not seen when the run began. */
  lemma {:induction false} WakesAreNotified(env: Env, run: seq<Node>, steps: seq<Step>, i: nat)
    requires IsTrace(env, run, steps) && i <= |steps|
    ensures run[i].seen <= run[i].version == run[0].version + Notifies(steps[..i])
    ensures Wakes(steps[..i]) + (run[i].version - run[i].seen) <= Notifies(steps[..i]) + (run[0].version - run[0].seen)
  {
    hide Next, Shape;
    TraceIsRun(env, run, steps);
    ShapeAlways(env, run, i);
    SeenIsOld(run[i]);
    if i > 0 {
      WakesAreNotified(env, run, steps, i - 1);
      ShapeAlways(env, run, i - 1);
      assert Next(env, run[i - 1], steps[i - 1], run[i - 1 + 1]);
      assert steps[..i][..i - 1] == steps[..i - 1];
      VersionStep(env, run[i - 1], steps[i - 1], run[i]);
    }
  }

  lemma VersionStep(env: Env, s: Node, step: Step, t: Node)
    requires Next(env, s, step, t)
    ensures t.version == s.version + if step == Notify then 1 else 0
    ensures step == Wake ==> s.seen != s.version
    ensures t.seen == s.seen || t.seen == t.version
    ensures step == Wake ==> t.seen == t.version
  {
    hide ReadOver, CheckSet, IsStored;
  }

  /** Between two wake-ups there is a notification. */
  lemma NotifiedBetweenWakes(env: Env, run: seq<Node>, steps: seq<Step>, i: nat, j: nat)
    requires IsTrace(env, run, steps) && i < j < |steps| && steps[i] == Wake && steps[j] == Wake
    ensures exists k :: i < k < j && steps[k] == Notify
  {
    hide Next;
    SeenSince(env, run, steps, i, j);
    assert Next(env, run[j], steps[j], run[j + 1]);
    VersionStep(env, run[j], Wake, run[j + 1]);
  }

  lemma {:induction false} SeenSince(env: Env, run: seq<Node>, steps: seq<Step>, i: nat, m: nat)
    requires IsTrace(env, run, steps) && i < m < |run| && steps[i] == Wake
    ensures run[m].seen == run[m].version || exists k :: i < k < m && steps[k] == Notify
    decreases m
  {
    hide Next;
    assert Next(env, run[m - 1], steps[m - 1], run[m - 1 + 1]);
    VersionStep(env, run[m - 1], steps[m - 1], run[m]);
    if m > i + 1 {
      SeenSince(env, run, steps, i, m - 1);
    }
  }

  /** Once stopped, the validator does nothing more until the node is restarted. */
  lemma {:induction false} StoppedStays(env: Env, run: seq<Node>, steps: seq<Step>, i: nat, j: nat)
    requires IsTrace(env, run, steps) && i <= j < |run| && run[i].pc == Stopped
    requires forall k :: i <= k < j ==> steps[k] != Reboot
    ensures run[j].pc == Stopped && run[j].progress == run[i].progress && run[j].failures == run[i].failures
    decreases j
  {
    hide Next, Shape;
    if i < j {
      StoppedStays(env, run, steps, i, j - 1);
      TraceIsRun(env, run, steps);
      ShapeAlways(env, run, j - 1);
      assert Next(env, run[j - 1], steps[j - 1], run[j - 1 + 1]);
      StepFrame(env, run[j - 1], steps[j - 1], run[j]);
      NotWhileStopped(env, run[j - 1], steps[j - 1], run[j]);
    }
  }

  lemma NotWhileStopped(env: Env, s: Node, step: Step, t: Node)
    requires Next(env, s, step, t) && s.pc == Stopped
    ensures step != MoveProgress && step != RecordFailure
  {
    hide ReadOver, CheckSet;
  }

  // ---------------------------------------------------------------- what the validator does by itself

  /** Where nothing up to the block after progress is ambiguous, the validator has one way to go on at most. */
  lemma OneWayOn(env: Env, s: Node, a: Step, t: Node, b: Step, u: Node)
    requires Shape(s) && Clear(s) && OwnStep(env, s, a, t) && OwnStep(env, s, b, u)
    ensures t == u
  {
    hide Shape, ReadOver, ClearTo, CheckSet, StateAt;
    if s.pc.Checking? {
      InHandNumber(s);
      var n, i := s.pc.block.header.number, s.pc.next;
      ClearWhole(s.chain, n, i);
      ClearWhole(s.chain, n, i + 1);
      ReadOverIsStateAt(s.chain, n, i, a.pre);
      ReadOverIsStateAt(s.chain, n, i + 1, a.post);
      ReadOverIsStateAt(s.chain, n, i, b.pre);
      ReadOverIsStateAt(s.chain, n, i + 1, b.post);
    }
  }

  /** Its own steps leave the chain and the channel alone, and keep the invariant. */
  lemma {:induction false} OwnStepsKeep(env: Env, s: Node, t: Node, n: nat)
    requires Leads(env, s, t, n)
    ensures t.chain == s.chain && t.top == s.top && t.log == s.log
    ensures t.announced == s.announced && t.version == s.version && t.seen == s.seen
    ensures Inv(env, s) ==> Inv(env, t)
    decreases n
  {
    hide Inv, Next;
    if n > 0 {
      var step, u :| OwnStep(env, s, step, u) && Leads(env, u, t, n - 1);
      OwnStepFrame(env, s, step, u);
      if Inv(env, s) {
        StepKeeps(env, s, step, u);
      }
      OwnStepsKeep(env, u, t, n - 1);
    }
  }

  lemma OwnStepFrame(env: Env, s: Node, step: Step, t: Node)
    requires OwnStep(env, s, step, t)
    ensures t.chain == s.chain && t.top == s.top && t.log == s.log
    ensures t.announced == s.announced && t.version == s.version && t.seen == s.seen
  {
    hide ReadOver, CheckSet, IsStored;
  }

  lemma {:induction false} LeadsThen(env: Env, s: Node, t: Node, n: nat, u: Node, m: nat)
    requires Leads(env, s, t, n) && Leads(env, t, u, m)
    ensures Leads(env, s, u, n + m)
    decreases n
  {
    hide OwnStep;
    if n > 0 {
      var step, x :| OwnStep(env, s, step, x) && Leads(env, x, t, n - 1);
      LeadsThen(env, x, t, n - 1, u, m);
    }
  }

  /** The validator has got as far as it can by itself. It is parked at the newest block, or below one that fails as it
      reads back, which is on record if it reads back as itself; or it has stopped below a block without sets; or it
      will read one block over and over that passes as it reads back but does not read back as itself.
   */
  ghost predicate AtRest(env: Env, s: Node) {
    var n := s.progress + 1;
    if n !in s.chain then s.pc == Parked
    else if s.chain[n].sets == [] then s.pc == Stopped
    else if PassesThere(env, s.chain, ReadBackOf(s.log, s.chain[n])) then s.pc == Poll && !ReadsBack(s.log, s.chain[n])
    else s.pc == Parked && (ReadsBack(s.log, s.chain[n]) ==> OnRecord(s.chain[n], s.failures))
  }

  /** One judgement ends at rest, or moves progress by one and goes on. */
  lemma JudgedOrOn(env: Env, s: Node, t: Node, r: Result<bool, InternalError>)
    requires Shape(s) && Shape(t) && t.chain == s.chain && t.top == s.top && t.log == s.log && s.progress in s.chain
    requires Judges(env, s.chain, s.log, s.chain[s.progress], MarksAt(s), MarksAt(t), r) && t.pc == PcAfter(r)
    ensures AtRest(env, t) || (t.pc == Poll && t.progress == s.progress + 1)
  {
    hide ReadBackOf, PassesThere, Newest, FailsAt;
    NumberAt(s);
    NumberAt(t);
    NextNumber(s);
    UpToProgress(s);
    NewestOfInterval(s.chain, s.top);
    var n := s.progress + 1;
    if n in s.chain && !PassesThere(env, s.chain, ReadBackOf(s.log, s.chain[n])) && ReadsBack(s.log, s.chain[n]) {
      var i :| RecordsSet(env, s.chain, n, i, s.failures, t.failures);
      FailsInChain(env, s.chain);
      Recorded(s.chain[n], s.chain[n].sets[i], s.failures, t.failures);
    }
  }

  /** From wherever it polls, the validator comes to rest by its own steps, unless it meets a block up to which a set
      is ambiguous.
   */
  lemma {:induction false} RunsToRest(env: Env, s: Node) returns (t: Node, n: nat)
    requires Inv(env, s) && s.pc == Poll
    ensures Leads(env, s, t, n) && Inv(env, t)
    ensures AtRest(env, t) || (t.pc == Poll && !Clear(t))
    decreases s.top - s.progress
  {
    hide Inv, ClearTo, Judges, Leads, AtRest, Shape;
    t, n := s, 0;
    LeadsNowhere(env, s);
    ShapeOf(env, s);
    if Clear(s) {
      var r;
      t, n, r := LeftAloneItJudges(env, s);
      OwnStepsKeep(env, s, t, n);
      ShapeOf(env, t);
      JudgedOrOn(env, s, t, r);
      if !AtRest(env, t) {
        var m, u;
        u, m := RunsToRest(env, t);
        LeadsThen(env, s, t, n, u, m);
        t, n := u, n + m;
      }
    }
  }

  lemma ShapeOf(env: Env, s: Node)
    requires Inv(env, s)
    ensures Shape(s) && 0 <= s.progress < s.top
  {
    hide Verdicts, ProgressOk, PcOk, WakeOk, Covers;
  }

  /** A notification is never in vain. From any parked state of a run with one unseen, waking is possible, and leads on
      to rest, unless to a block up to which a set is ambiguous; nothing is then unseen. If the validator is parked
      again, it has passed all that is finalized, or is held by the next block, which fails as it reads back and is on
      record if it reads back as itself.
   */
  lemma NotifiedIsServed(env: Env, run: seq<Node>, j: nat) returns (u: Node, t: Node, n: nat)
    requires IsRun(env, run) && j < |run| && run[j].pc == Parked && run[j].seen < run[j].version
    ensures Next(env, run[j], Wake, u) && Leads(env, u, t, n)
    ensures t.chain == run[j].chain && t.top == run[j].top && t.version == run[j].version && t.seen == t.version
    ensures AtRest(env, t) || (t.pc == Poll && !Clear(t))
    ensures t.pc == Parked || t.pc == Stopped || t.pc == Poll
    ensures t.pc == Parked ==> t.progress == t.top - 1 || (t.progress + 1 in t.chain && Held(t))
    ensures t.pc == Stopped ==> t.progress + 1 in t.chain && t.chain[t.progress + 1].sets == []
    ensures t.pc == Poll && Clear(t) ==> t.progress + 1 in t.chain && !ReadsBack(t.log, t.chain[t.progress + 1])
  {
    hide IsRun, Inv, AtRest, Leads, ClearTo, ReadsBack;
    InvAlways(env, run, j);
    u := run[j].(seen := run[j].version, pc := Poll);
    StepKeeps(env, run[j], Wake, u);
    t, n := RunsToRest(env, u);
    OwnStepsKeep(env, u, t, n);
    ParkedHeld(env, t);
  }

  lemma ParkedHeld(env: Env, t: Node)
    requires Inv(env, t)
    ensures AtRest(env, t) ==> t.pc == Parked || t.pc == Stopped || t.pc == Poll
    ensures AtRest(env, t) && t.pc == Stopped ==> t.progress + 1 in t.chain && t.chain[t.progress + 1].sets == []
    ensures AtRest(env, t) && t.pc == Poll ==> t.progress + 1 in t.chain && !ReadsBack(t.log, t.chain[t.progress + 1])
    ensures AtRest(env, t) && t.pc == Parked ==> t.progress == t.top - 1 || (t.progress + 1 in t.chain && Held(t))
  {
    hide Inv, ReadsBack, OnRecord, PassesThere;
    ShapeOf(env, t);
    UpToProgress(t);
  }
}
