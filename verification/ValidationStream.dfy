/** The validation stream as a step system: the relayer commits blocks and notifies, the validator wakes,
    reads, checks, records and parks, and the steps interleave freely.

    Every step of the validator is one access to the database or to the channel, so the relayer may commit
    between any two of them, in the middle of a block's check as well. A recoverable error may interrupt the
    validator at any step; so may a restart of the node; and a read that the machine makes may fail, which the
    code takes for a set that does not pass. Nothing is assumed of the blocks that are committed:
    a block may be empty, repeat sets that are stored already, or give a slot two values, and the steps do
    what the code then does. The theorems say what they need.
 */
module ValidationStream {
  import opened Types
  import opened ChainState
  import opened Storage
  import opened StateIndex
  import opened Soundness
  import opened Validate
  import opened Relayer
  import opened Validator

  /** Where the validator stands. The block in hand is the one that was read back. */
  datatype Pc =
    | Poll                                           // about to read the progress
    | ReadAt(number: int)                            // progress read; about to look for the next block
    | Checking(block: Block, next: nat, gas: Gas)    // the first `next` sets have passed, with this much gas
    | Passed(block: Block)                           // about to move progress
    | Failed(block: Block, index: nat, sure: bool)   // about to record the failure; `sure` if no read failed
    | Advanced(block: Block)                         // about to ask whether the chain goes on
    | Parked                                         // waiting on the channel
    | Stopped

  /** The database as the validator sees it, the channel, and the validator.

      Blocks 0 to `top - 1` are finalized, and `log` counts how often each set has been stored. `announced` is
      the greatest number whose commit was followed by a notification, `version` counts notifications, and
      `seen` is the version the validator's receiver has marked as seen. `clean` says that no read of the
      machine has failed yet; it stands for the history, not for anything the node stores.
   */
  datatype Node = Node(chain: Chain, top: nat, log: Log, announced: int, version: nat, seen: nat,
                       progress: int, failures: FailureRows, pc: Pc, clean: bool)

  datatype Step =
    | Commit(block: Block) | Notify
    | ReadProgress | ReadNext | CheckNext(pre: State, post: State) | ReadError | MoveProgress | ReadLatest | RecordFailure
    | Wake | Interrupt | Reboot | Stop

  // ---------------------------------------------------------------- the steps

  /** A state put together from single reads at `k` sets into block `n`. Each read returns some newest write
      up to there, as the index does (`MayReturnIsNewest`), and each may have been made at another time, when
      the chain was shorter but block `n` was there.
   */
  ghost predicate ReadOver(chain: Chain, n: int, k: nat, view: State) {
    forall slot: Slot :: exists m :: n < m && IsNewest(Prefix(Before(chain, m), UpTo(n, k)), slot, Lookup(view, slot))
  }

  /** One set of the block being checked, by what the readers before and after it returned. */
  ghost function Check(env: Env, pc: Pc, pre: State, post: State): Pc
    requires pc.Checking?
  {
    var Checking(b, i, gas) := pc;
    if i >= |b.sets| then Passed(b)
    else
      match CheckSet(env, pre, post, b.sets[i])
      case None => Failed(b, i, true)
      case Some(g) => if gas + g > GAS_MAX then Failed(b, i, true) else Checking(b, i + 1, gas + g)
  }

  /** Reading the block numbered `n`: none, or one that cannot be read, or what it reads back as. */
  ghost function Fetch(s: Node, n: int): Pc {
    if n !in s.chain then Parked
    else if s.chain[n].sets == [] then Stopped
    else Checking(ReadBackOf(s.log, s.chain[n]), 0, 0)
  }

  /** The address of this block names one that is stored. */
  ghost predicate IsStored(s: Node, b: Block) {
    b.header.number in s.chain && s.chain[b.header.number] == b
  }

  ghost predicate Next(env: Env, s: Node, step: Step, t: Node) {
    match step
    case Commit(b) =>
      b.header.number == s.top && t == s.(chain := s.chain[s.top := b], top := s.top + 1, log := s.log + multiset(b.sets))
    case Notify =>
      t == s.(announced := s.top - 1, version := s.version + 1)
    case ReadProgress =>
      s.pc == Poll && t == s.(pc := ReadAt(s.progress))
    case ReadNext =>
      s.pc.ReadAt? && t == s.(pc := Fetch(s, s.pc.number + 1))
    case CheckNext(pre, post) =>
      && s.pc.Checking?
      && ReadOver(s.chain, s.pc.block.header.number, s.pc.next, pre)
      && ReadOver(s.chain, s.pc.block.header.number, s.pc.next + 1, post)
      && t == s.(pc := Check(env, s.pc, pre, post))
    case ReadError =>
      && s.pc.Checking? && s.pc.next < |s.pc.block.sets|
      && t == s.(pc := Failed(s.pc.block, s.pc.next, false), clean := false)
    case MoveProgress =>
      && s.pc.Passed?
      && t == if IsStored(s, s.pc.block) then s.(progress := s.pc.block.header.number, pc := Advanced(s.pc.block))
              else s.(pc := Poll)
    case ReadLatest =>
      s.pc.Advanced? && t == s.(pc := if s.top - 1 > s.pc.block.header.number then Poll else Parked)
    case RecordFailure =>
      s.pc.Failed? && s.pc.index < |s.pc.block.sets| && t == s.(failures := WithFailure(s), pc := Parked)
    case Wake =>
      s.pc == Parked && s.seen != s.version && t == s.(seen := s.version, pc := Poll)
    case Interrupt =>
      s.pc != Parked && s.pc != Stopped && t == s.(pc := Poll)
    case Reboot =>
      t == s.(seen := s.version, pc := Poll)
    case Stop =>
      t == s.(pc := Stopped)
  }

  ghost function WithFailure(s: Node): FailureRows
    requires s.pc.Failed? && s.pc.index < |s.pc.block.sets|
  {
    if IsStored(s, s.pc.block) then WithRow(s.failures, s.pc.block, s.pc.block.sets[s.pc.index]) else s.failures
  }

  /** A node that has just been given its first block. */
  ghost predicate Init(s: Node) {
    && s.top == 1 && Interval(s.chain, 1) && 0 in s.chain && s.log == multiset(s.chain[0].sets)
    && s.announced <= 0 && s.seen <= s.version && s.progress == 0 && s.failures == [] && s.pc == Poll && s.clean
  }

  ghost predicate Steps(env: Env, s: Node, t: Node) {
    exists step :: Next(env, s, step, t)
  }

  ghost predicate IsRun(env: Env, run: seq<Node>) {
    && run != [] && Init(run[0])
    && forall i :: 0 <= i < |run| - 1 ==> Steps(env, run[i], run[i + 1])
  }

  // ---------------------------------------------------------------- what every step keeps

  ghost predicate TablesOk(s: Node) {
    && Interval(s.chain, s.top) && 0 <= s.progress < s.top && Covers(s.log, s.chain)
    && s.announced < s.top && s.seen <= s.version
  }

  /** The block in hand was read from the one after progress: it is that block, unless that block no longer
      reads back as itself.
   */
  ghost predicate InHand(s: Node, read: Block) {
    var n := s.progress + 1;
    && n in s.chain && read.header == s.chain[n].header && read.header.number == n
    && (read != s.chain[n] ==> !ReadsBack(s.log, s.chain[n]))
  }

  ghost predicate PcOk(s: Node) {
    match s.pc
    case ReadAt(n) => n == s.progress
    case Checking(read, i, _) => InHand(s, read) && i <= |read.sets|
    case Passed(read) => InHand(s, read)
    case Failed(read, i, sure) => InHand(s, read) && i < |read.sets| && (s.clean ==> sure)
    case Advanced(read) => read.header.number == s.progress
    case _ => true
  }

  /** The block after progress is on record, or does not read back as itself. */
  ghost predicate Held(s: Node) {
    var n := s.progress + 1;
    n in s.chain && (OnRecord(s.chain[n], s.failures) || !ReadsBack(s.log, s.chain[n]))
  }

  /** A parked validator with nothing unseen has nothing announced to do, or is held. */
  ghost predicate WakeOk(s: Node) {
    s.pc == Parked ==> s.seen < s.version || s.announced <= s.progress || Held(s)
  }

  ghost predicate Shape(s: Node) {
    TablesOk(s) && PcOk(s) && WakeOk(s)
  }

  /** No set up to the block after progress is ambiguous. Blocks above it do not matter. */
  ghost predicate Clear(s: Node) {
    ClearTo(s.chain, AtBlock(s.progress + 1))
  }

  /** Every block passed is valid, unless a set up to it is ambiguous. */
  ghost predicate ProgressOk(env: Env, s: Node) {
    forall n :: 1 <= n <= s.progress && ClearTo(s.chain, AtBlock(n)) ==> ValidAt(env, s.chain, n)
  }

  /** As long as no read has failed, nothing is on record, or just the block after progress is, with one row. */
  ghost predicate FailuresOk(env: Env, s: Node) {
    !s.clean || s.failures == [] || exists i :: FailedFor(env, s, i)
  }

  ghost predicate FailedFor(env: Env, s: Node, i: int) {
    i >= 0 && FailsAt(env, s.chain, s.progress + 1, i) && s.failures == [(s.chain[s.progress + 1], s.chain[s.progress + 1].sets[i])]
  }

  /** The part of a verdict that has been worked out is right. */
  ghost predicate CheckOk(env: Env, s: Node) {
    match s.pc
    case Checking(read, i, gas) =>
      var all := PositionGas(env, s.chain, read);
      i <= |read.sets| && Passes(all, i) && gas == GasSum(all, i)
    case Passed(read) => PassesThere(env, s.chain, read)
    case Failed(read, i, sure) => sure ==> FailsThere(env, s.chain, read, i)
    case _ => true
  }

  ghost predicate Verdicts(env: Env, s: Node) {
    FailuresOk(env, s) && CheckOk(env, s)
  }

  ghost predicate Inv(env: Env, s: Node) {
    Shape(s) && ProgressOk(env, s) && (Clear(s) ==> Verdicts(env, s))
  }

  // ---------------------------------------------------------------- reads at different times

  /** However a check's reads interleave with commits, they are reads of the chain as it is now. */
  lemma ReadOverIsNow(chain: Chain, n: int, k: nat, view: State, slot: Slot)
    requires ReadOver(chain, n, k, view)
    ensures IsNewest(Prefix(chain, UpTo(n, k)), slot, Lookup(view, slot))
  {
    hide IsNewest;
    var m :| n < m && IsNewest(Prefix(Before(chain, m), UpTo(n, k)), slot, Lookup(view, slot));
    assert Prefix(Before(chain, m), UpTo(n, k)) == Prefix(chain, UpTo(n, k));
  }

  /** If no set up to there is ambiguous, they amount to the one state that replay holds. */
  lemma ReadOverIsStateAt(chain: Chain, n: int, k: nat, view: State)
    requires ClearTo(chain, UpTo(n, k)) && ReadOver(chain, n, k, view)
    ensures view == StateAt(chain, n, k)
  {
    hide StateAt, Prefix, Replay, ReadOver, IsNewest, ConsistentChain, ClearTo;
    var p := Prefix(chain, UpTo(n, k));
    ClearPrefix(chain, UpTo(n, k));
    ReplayUpTo(chain, n, k);
    forall contract, key ensures Lookup(view, (contract, key)) == Lookup(StateAt(chain, n, k), (contract, key)) {
      var slot: Slot := (contract, key);
      ReadOverIsNow(chain, n, k, view, slot);
      NewestIsReplay(p, slot, Lookup(view, slot));
    }
    SameState(view, StateAt(chain, n, k));
  }

  lemma ReadNow(chain: Chain, n: int, k: nat)
    ensures ReadOver(chain, n, k, StateAt(chain, n, k))
  {
    hide StateAt, Replay, IsNewest;
    var p := Prefix(chain, UpTo(n, k));
    ReplayUpTo(chain, n, k);
    assert Prefix(Before(chain, n + 1), UpTo(n, k)) == p;
    forall slot: Slot
      ensures exists m :: n < m && IsNewest(Prefix(Before(chain, m), UpTo(n, k)), slot, Lookup(StateAt(chain, n, k), slot))
    {
      ReplayIsNewest(p, slot);
      assert n < n + 1 && IsNewest(Prefix(Before(chain, n + 1), UpTo(n, k)), slot, Lookup(StateAt(chain, n, k), slot));
    }
  }

  // ---------------------------------------------------------------- each step keeps the shape

  lemma CommitKeepsShape(env: Env, s: Node, b: Block, t: Node)
    requires Shape(s) && Next(env, s, Commit(b), t)
    ensures Shape(t)
  {
    CommitKeepsTables(env, s, b, t);
    CommitKeepsUnread(env, s, b, t);
    hide ReadsBack, OnRecord, TablesOk;
    assert Shape(t);
  }

  lemma CommitKeepsTables(env: Env, s: Node, b: Block, t: Node)
    requires TablesOk(s) && Next(env, s, Commit(b), t)
    ensures TablesOk(t)
    ensures forall n :: n in s.chain ==> n in t.chain && t.chain[n] == s.chain[n]
  {
    assert forall x :: x in b.sets ==> x in multiset(b.sets);
  }

  /** What does not read back never does again. */
  lemma CommitKeepsUnread(env: Env, s: Node, b: Block, t: Node)
    requires TablesOk(s) && Next(env, s, Commit(b), t)
    ensures forall n :: n in s.chain && !ReadsBack(s.log, s.chain[n]) ==> n in t.chain && !ReadsBack(t.log, t.chain[n])
  {
    hide ReadsBack, Interval;
    forall n | n in s.chain && !ReadsBack(s.log, s.chain[n]) ensures !ReadsBack(t.log, t.chain[n]) {
      if ReadsBack(t.log, s.chain[n]) {
        ReadsBackEarlier(s.log, t.log, s.chain[n]);
      }
      assert n != s.top by { NotYet(s); }
    }
  }

  lemma NotYet(s: Node)
    requires TablesOk(s)
    ensures s.top !in s.chain
  {
  }

  lemma OtherKeepsShape(env: Env, s: Node, step: Step, t: Node)
    requires Shape(s) && Next(env, s, step, t) && !step.Commit?
    ensures Shape(t)
  {
    hide ReadsBack, OnRecord, ReadOver, CheckSet, Covers;
    if step == RecordFailure {
      RecordHolds(env, s, t);
    } else if step == ReadNext {
      FetchInHand(s);
    }
    assert Shape(t);
  }

  /** Recording a failure puts the block after progress on record, unless it does not read back. */
  lemma RecordHolds(env: Env, s: Node, t: Node)
    requires Shape(s) && Next(env, s, RecordFailure, t)
    ensures Held(t)
  {
    hide ReadsBack;
    if IsStored(s, s.pc.block) {
      Recorded(s.pc.block, s.pc.block.sets[s.pc.index], s.failures, t.failures);
    }
  }

  lemma FetchInHand(s: Node)
    requires Shape(s) && s.pc.ReadAt?
    ensures
      var pc := Fetch(s, s.progress + 1);
      && (pc.Checking? ==> InHand(s, pc.block))
      && (pc == Parked ==> s.progress == s.top - 1)
  {
    hide Covers;
  }

  // ---------------------------------------------------------------- each step keeps the verdicts

  lemma AppendKeepsPositions(env: Env, chain: Chain, top: int, b: Block, read: Block)
    requires read.header.number < top
    ensures PositionGas(env, chain[top := b], read) == PositionGas(env, chain, read)
  {
    hide CheckSet, Replay, Prefix, ApplySets;
    PrefixIgnoresLater(chain, AtBlock(read.header.number - 1), top, b);
  }

  lemma AppendKeepsVerdicts(env: Env, chain: Chain, top: nat, b: Block)
    requires Interval(chain, top)
    ensures
      var more := chain[top := b];
      && (forall n :: n in chain ==> n in more && more[n] == chain[n])
      && (forall n :: n in chain ==> ValidAt(env, more, n) == ValidAt(env, chain, n))
      && (forall n, i: nat :: n in chain ==> FailsAt(env, more, n, i) == FailsAt(env, chain, n, i))
  {
    hide RunGas, Prefix, Replay;
    var more := chain[top := b];
    forall n | n in chain ensures BlockGas(env, more, n) == BlockGas(env, chain, n) {
      PrefixIgnoresLater(chain, AtBlock(n - 1), top, b);
    }
    hide Passes;
  }

  lemma EarlierClear(chain: Chain, more: Chain, bound: Bound)
    requires ClearTo(more, bound) && forall n :: n in chain ==> n in more && more[n] == chain[n]
    ensures ClearTo(chain, bound)
  {
    hide Consistent;
  }

  lemma CommitKeepsProgress(env: Env, s: Node, b: Block, t: Node)
    requires Shape(s) && ProgressOk(env, s) && Next(env, s, Commit(b), t)
    ensures ProgressOk(env, t)
  {
    hide ValidAt, FailsAt, Shape, ClearTo;
    UpToProgress(s);
    AppendKeepsVerdicts(env, s.chain, s.top, b);
    forall n | 1 <= n <= t.progress && ClearTo(t.chain, AtBlock(n)) ensures ValidAt(env, t.chain, n) {
      EarlierClear(s.chain, t.chain, AtBlock(n));
      assert ValidAt(env, s.chain, n);
    }
  }

  lemma CommitKeepsVerdicts(env: Env, s: Node, b: Block, t: Node)
    requires Shape(s) && Verdicts(env, s) && Next(env, s, Commit(b), t)
    ensures Verdicts(env, t)
  {
    hide ValidAt, FailsAt, CheckOk, Shape, FailuresOk;
    UpToProgress(s);
    AppendKeepsVerdicts(env, s.chain, s.top, b);
    CommitKeepsCheck(env, s, b, t);
    CommitKeepsFailures(env, s, t);
  }

  lemma CommitKeepsFailures(env: Env, s: Node, t: Node)
    requires t.progress == s.progress && t.failures == s.failures && t.clean == s.clean && FailuresOk(env, s)
    requires forall n :: n in s.chain ==> n in t.chain && t.chain[n] == s.chain[n]
    requires forall n, i: nat :: n in s.chain ==> FailsAt(env, t.chain, n, i) == FailsAt(env, s.chain, n, i)
    ensures FailuresOk(env, t)
  {
    hide FailsAt;
    FailsInChain(env, s.chain);
    if s.clean && s.failures != [] {
      var i :| FailedFor(env, s, i);
      assert FailedFor(env, t, i);
    }
  }

  lemma UpToProgress(s: Node)
    requires Shape(s)
    ensures Interval(s.chain, s.top) && 0 <= s.progress < s.top && forall n :: 0 <= n <= s.progress ==> n in s.chain
  {
  }

  lemma CommitKeepsCheck(env: Env, s: Node, b: Block, t: Node)
    requires Shape(s) && CheckOk(env, s) && Next(env, s, Commit(b), t)
    ensures CheckOk(env, t)
  {
    NextIsBelow(s);
    hide PositionGas, Passes, GasSum, Covers, ReadsBack;
    if s.pc.Checking? || s.pc.Passed? || s.pc.Failed? {
      AppendKeepsPositions(env, s.chain, s.top, b, s.pc.block);
    }
  }

  lemma NextIsBelow(s: Node)
    requires Shape(s)
    ensures s.pc.Checking? || s.pc.Passed? || s.pc.Failed? ==> s.pc.block.header.number < s.top
  {
  }

  lemma CheckKeepsVerdicts(env: Env, s: Node, pre: State, post: State, t: Node)
    requires Shape(s) && CheckOk(env, s) && Clear(s) && Next(env, s, CheckNext(pre, post), t)
    ensures CheckOk(env, t)
  {
    hide CheckSet, StateAt, ReadOver, Passes, GasSum, ClearTo, Shape;
    var Checking(read, i, gas) := s.pc;
    var n, all := read.header.number, PositionGas(env, s.chain, read);
    InHandNumber(s);
    ClearWhole(s.chain, n, i);
    ClearWhole(s.chain, n, i + 1);
    ReadOverIsStateAt(s.chain, n, i, pre);
    ReadOverIsStateAt(s.chain, n, i + 1, post);
    if i < |read.sets| {
      PassOne(all, i);
      assert all[i] == CheckSet(env, pre, post, read.sets[i]);
    }
  }

  lemma InHandNumber(s: Node)
    requires Shape(s)
    ensures HasBlock(s.pc) ==> s.pc.block.header.number == s.progress + 1
  {
    hide Covers, ReadsBack;
  }

  lemma SameRecord(env: Env, s: Node, t: Node)
    requires t.chain == s.chain && t.progress == s.progress && t.failures == s.failures && FailuresOk(env, s)
    requires t.clean ==> s.clean
    ensures FailuresOk(env, t)
  {
    hide FailsAt;
    if s.clean && s.failures != [] {
      var i :| FailedFor(env, s, i);
      assert FailedFor(env, t, i);
    }
  }

  /** A block that is on record as failed does not pass, so progress cannot move to it. */
  lemma NoFailureYet(env: Env, s: Node)
    requires Shape(s) && Verdicts(env, s) && s.pc.Passed? && IsStored(s, s.pc.block)
    ensures (s.clean ==> s.failures == []) && ValidAt(env, s.chain, s.progress + 1)
  {
    hide ValidAt, FailsAt, PassesThere, Covers, ReadsBack;
    ThereIsAt(env, s.chain, s.progress + 1);
    if s.clean && s.failures != [] {
      var i :| FailedFor(env, s, i);
      OneJudgement(env, s.chain, s.progress + 1, i);
    }
  }

  lemma MoveKeepsVerdicts(env: Env, s: Node, t: Node)
    requires Shape(s) && Verdicts(env, s) && Next(env, s, MoveProgress, t)
    ensures Verdicts(env, t)
  {
    hide ValidAt, FailsAt, PassesThere, FailuresOk, Shape;
    if IsStored(s, s.pc.block) {
      NoFailureYet(env, s);
      NothingFailed(env, t);
    } else {
      SameRecord(env, s, t);
    }
  }

  lemma MoveKeepsProgress(env: Env, s: Node, t: Node)
    requires Inv(env, s) && Next(env, s, MoveProgress, t)
    ensures ProgressOk(env, t)
  {
    hide ValidAt, Verdicts, Shape, ClearTo;
    if IsStored(s, s.pc.block) {
      StoredIsNext(s);
      if Clear(s) {
        NoFailureYet(env, s);
      }
    }
  }

  /** If the block in hand is stored, it is the one after progress. */
  lemma StoredIsNext(s: Node)
    requires Shape(s) && (s.pc.Passed? || s.pc.Failed?) && IsStored(s, s.pc.block)
    ensures s.progress + 1 in s.chain && s.pc.block == s.chain[s.progress + 1] && s.pc.block.header.number == s.progress + 1
    ensures s.pc.Failed? ==> s.pc.index < |s.pc.block.sets|
  {
    hide Covers, ReadsBack;
  }

  lemma NothingFailed(env: Env, s: Node)
    ensures (s.clean ==> s.failures == []) ==> FailuresOk(env, s)
  {
  }

  lemma RecordKeepsVerdicts(env: Env, s: Node, t: Node)
    requires Shape(s) && Verdicts(env, s) && Next(env, s, RecordFailure, t)
    ensures Verdicts(env, t)
  {
    hide ValidAt, FailsAt, FailsThere, Covers, ReadsBack, FailuresOk;
    RecordKeepsFailures(env, s, t);
    assert Verdicts(env, t);
  }

  lemma RecordKeepsFailures(env: Env, s: Node, t: Node)
    requires Shape(s) && Verdicts(env, s) && Next(env, s, RecordFailure, t)
    ensures FailuresOk(env, t)
  {
    hide ValidAt, FailsAt, CheckOk, Shape;
    if !s.clean {
    } else if IsStored(s, s.pc.block) {
      StoredIsNext(s);
      SureWhenClean(s);
      FailsInPlace(env, s);
      RecordedOnce(env, s, s.pc.index);
      assert FailedFor(env, t, s.pc.index);
    } else {
      SameRecord(env, s, t);
    }
  }

  /** A failing block in hand that is stored fails where it stands in the chain. */
  lemma FailsInPlace(env: Env, s: Node)
    requires Shape(s) && CheckOk(env, s) && s.pc.Failed? && s.pc.sure && IsStored(s, s.pc.block)
    ensures FailsAt(env, s.chain, s.progress + 1, s.pc.index)
  {
    hide FailsAt, FailsThere, Shape;
    StoredIsNext(s);
    ThereIsAt(env, s.chain, s.progress + 1);
  }

  lemma SureWhenClean(s: Node)
    requires Shape(s)
    ensures s.clean && s.pc.Failed? ==> s.pc.sure
  {
    hide Covers, ReadsBack;
  }

  lemma RecordedOnce(env: Env, s: Node, k: nat)
    requires FailuresOk(env, s) && FailsAt(env, s.chain, s.progress + 1, k)
    ensures s.progress + 1 in s.chain && k < |s.chain[s.progress + 1].sets|
    ensures s.clean ==> s.failures == [] || s.failures == [(s.chain[s.progress + 1], s.chain[s.progress + 1].sets[k])]
  {
    hide FailsAt, ValidAt;
    FailsInChain(env, s.chain);
    OneJudgement(env, s.chain, s.progress + 1, k);
  }

  lemma OtherKeepsVerdicts(env: Env, s: Node, step: Step, t: Node)
    requires Shape(s) && Verdicts(env, s) && Next(env, s, step, t)
    requires !step.Commit? && !step.CheckNext? && !step.MoveProgress? && !step.RecordFailure?
    ensures Verdicts(env, t)
  {
    hide ValidAt, FailsAt, FailsThere, PassesThere, Covers, ReadsBack, FailuresOk;
    SameRecord(env, s, t);
    if t.pc.Checking? && step == ReadNext {
      assert GasSum(PositionGas(env, t.chain, t.pc.block), 0) == 0;
    }
    assert Verdicts(env, t);
  }

  /** Every step of relayer and validator keeps the invariant, whatever is committed. */
  lemma StepKeeps(env: Env, s: Node, step: Step, t: Node)
    requires Inv(env, s) && Next(env, s, step, t)
    ensures Inv(env, t)
  {
    hide Shape, Next, Verdicts, ProgressOk, ClearTo;
    StepKeepsShape(env, s, step, t);
    StepKeepsProgress(env, s, step, t);
    if Clear(t) {
      StepKeepsVerdicts(env, s, step, t);
    }
  }

  lemma StepKeepsProgress(env: Env, s: Node, step: Step, t: Node)
    requires Inv(env, s) && Next(env, s, step, t)
    ensures ProgressOk(env, t)
  {
    hide Shape, Verdicts, ClearTo, ValidAt;
    if step.Commit? {
      CommitKeepsProgress(env, s, step.block, t);
    } else if step == MoveProgress {
      MoveKeepsProgress(env, s, t);
    }
  }

  lemma StepKeepsShape(env: Env, s: Node, step: Step, t: Node)
    requires Shape(s) && Next(env, s, step, t)
    ensures Shape(t)
  {
    hide Shape, Next;
    if step.Commit? {
      CommitKeepsShape(env, s, step.block, t);
    } else {
      OtherKeepsShape(env, s, step, t);
    }
  }

  lemma StepKeepsVerdicts(env: Env, s: Node, step: Step, t: Node)
    requires Inv(env, s) && Next(env, s, step, t) && Clear(t)
    ensures Clear(s) && Verdicts(env, t)
  {
    hide Shape, Verdicts, ClearTo;
    ClearBefore(env, s, step, t);
    hide Next;
    match step
    case Commit(b) => CommitKeepsVerdicts(env, s, b, t);
    case CheckNext(pre, post) => CheckedKeepsVerdicts(env, s, pre, post, t);
    case RecordFailure => RecordKeepsVerdicts(env, s, t);
    case MoveProgress => MoveKeepsVerdicts(env, s, t);
    case _ => OtherKeepsVerdicts(env, s, step, t);
  }

  lemma ClearBefore(env: Env, s: Node, step: Step, t: Node)
    requires Shape(s) && Next(env, s, step, t) && Clear(t)
    ensures Clear(s)
  {
    hide Shape, ClearTo;
    ChainStep(env, s, step, t);
    OneStep(env, s, step, t);
    EarlierClear(s.chain, t.chain, AtBlock(t.progress + 1));
    ClearLower(s.chain, s.progress + 1, t.progress + 1);
  }

  lemma CheckedKeepsVerdicts(env: Env, s: Node, pre: State, post: State, t: Node)
    requires Shape(s) && Verdicts(env, s) && Clear(s) && Next(env, s, CheckNext(pre, post), t)
    ensures Verdicts(env, t)
  {
    CheckKeepsVerdicts(env, s, pre, post, t);
    SameRecord(env, s, t);
    hide ValidAt, FailuresOk, CheckOk, ReadOver;
    assert Verdicts(env, t);
  }

  lemma ChainStep(env: Env, s: Node, step: Step, t: Node)
    requires Shape(s) && Next(env, s, step, t)
    ensures
      || (t.chain == s.chain && t.top == s.top && t.log == s.log)
      || (&& t.top == s.top + 1 && s.top in t.chain && t.chain == s.chain[s.top := t.chain[s.top]]
          && t.log == s.log + multiset(t.chain[s.top].sets) && s.top !in s.chain && t.chain[s.top].header.number == s.top)
    ensures forall n :: n in s.chain ==> n in t.chain && t.chain[n] == s.chain[n]
  {
    hide Covers, PcOk, WakeOk;
  }

  lemma {:induction false} InvAlways(env: Env, run: seq<Node>, i: nat)
    requires IsRun(env, run) && i < |run|
    ensures Inv(env, run[i])
  {
    hide Inv, Next, Init;
    if i == 0 {
      FirstInv(env, run[0]);
    } else {
      InvAlways(env, run, i - 1);
      assert Steps(env, run[i - 1], run[i - 1 + 1]);
      var step :| Next(env, run[i - 1], step, run[i]);
      StepKeeps(env, run[i - 1], step, run[i]);
    }
  }

  lemma FirstInv(env: Env, s: Node)
    requires Init(s)
    ensures Inv(env, s)
  {
    hide ValidAt;
  }

  lemma StepOf(env: Env, run: seq<Node>, i: nat) returns (step: Step)
    requires IsRun(env, run) && i + 1 < |run|
    ensures Inv(env, run[i]) && Shape(run[i]) && Next(env, run[i], step, run[i + 1])
  {
    hide Next, Verdicts, Shape;
    InvAlways(env, run, i);
    assert Steps(env, run[i], run[i + 1]);
    step :| Next(env, run[i], step, run[i + 1]);
  }

  lemma ShapeAlways(env: Env, run: seq<Node>, i: nat)
    requires IsRun(env, run) && i < |run|
    ensures Shape(run[i]) && ProgressOk(env, run[i]) && (Clear(run[i]) ==> Verdicts(env, run[i]))
  {
    hide Verdicts, Shape, IsRun, ProgressOk, ClearTo;
    InvAlways(env, run, i);
  }

  // ---------------------------------------------------------------- the chain

  /** The chain only grows: what it was is what now lies below the number it had reached. */
  lemma {:induction false} ChainOnlyGrows(env: Env, run: seq<Node>, i: nat, j: nat)
    requires IsRun(env, run) && i <= j < |run|
    ensures run[i].top <= run[j].top && run[i].chain == Before(run[j].chain, run[i].top) && run[i].log <= run[j].log
    ensures forall n :: n in run[i].chain ==> n in run[j].chain && run[j].chain[n] == run[i].chain[n]
    decreases j
  {
    hide Next, IsRun, Shape, Prefix;
    if i < j {
      ChainOnlyGrows(env, run, i, j - 1);
      var s, t := run[j - 1], run[j];
      var step := StepOf(env, run, j - 1);
      ChainStep(env, s, step, t);
      if t.chain != s.chain {
        PrefixIgnoresLater(s.chain, AtBlock(run[i].top - 1), s.top, t.chain[s.top]);
      }
    } else {
      ShapeAlways(env, run, j);
      WholeIsBefore(run[j]);
    }
  }

  lemma WholeIsBefore(s: Node)
    requires Shape(s)
    ensures s.chain == Before(s.chain, s.top)
  {
  }

  /** What is clear stays clear for as long as progress stays, whatever is committed above. */
  lemma ClearStays(env: Env, run: seq<Node>, i: nat, j: nat)
    requires IsRun(env, run) && i <= j < |run| && Clear(run[i])
    requires run[i].progress + 1 in run[i].chain && run[j].progress == run[i].progress
    ensures Clear(run[j]) && Shape(run[j]) && Verdicts(env, run[j])
  {
    hide IsRun, Shape, Verdicts, ProgressOk, Consistent;
    ChainOnlyGrows(env, run, i, j);
    ShapeAlways(env, run, i);
    UpToProgress(run[i]);
    ShapeAlways(env, run, j);
  }

  lemma {:induction false} CleanBefore(env: Env, run: seq<Node>, i: nat, j: nat)
    requires IsRun(env, run) && i <= j < |run| && run[j].clean
    ensures run[i].clean
    decreases j
  {
    hide IsRun, Shape, Next;
    if i < j {
      var step := StepOf(env, run, j - 1);
      CleanStep(env, run[j - 1], step, run[j]);
      CleanBefore(env, run, i, j - 1);
    }
  }

  lemma CleanStep(env: Env, s: Node, step: Step, t: Node)
    requires Next(env, s, step, t)
    ensures t.clean <==> s.clean && step != ReadError
  {
  }

  /** The chain of a run is sound exactly when every block fitted when it was committed. */
  lemma {:induction false} SoundIffAllFit(env: Env, run: seq<Node>, j: nat)
    requires IsRun(env, run) && j < |run| && Sound(run[0].chain, run[0].log)
    ensures Sound(run[j].chain, run[j].log) <==>
      forall i :: 0 <= i < j && run[i].top in run[i + 1].chain ==> Fits(run[i].log, run[i + 1].chain[run[i].top])
    decreases j
  {
    hide Next, IsRun, Shape, Sound, Fits, Covers;
    if j > 0 {
      SoundIffAllFit(env, run, j - 1);
      var s, t := run[j - 1], run[j];
      var step := StepOf(env, run, j - 1);
      ChainStep(env, s, step, t);
      CoversOf(s);
      ShapeAlways(env, run, j);
      CoversOf(t);
      if t.top == s.top + 1 {
        if Sound(s.chain, s.log) {
          AppendIsSoundIff(s.chain, s.log, t.chain[s.top]);
        } else if Sound(t.chain, t.log) {
          SoundEarlier(s.chain, s.log, t.chain, t.log);
        }
      }
    }
  }

  lemma CoversOf(s: Node)
    requires Shape(s)
    ensures Covers(s.log, s.chain) && s.top !in s.chain
  {
  }

  // ---------------------------------------------------------------- progress

  /** A step moves progress by one or not at all. */
  lemma ProgressStep(env: Env, run: seq<Node>, i: nat)
    requires IsRun(env, run) && i + 1 < |run|
    ensures run[i + 1].progress == run[i].progress || run[i + 1].progress == run[i].progress + 1
  {
    hide IsRun, Next, Shape;
    var step := StepOf(env, run, i);
    OneStep(env, run[i], step, run[i + 1]);
  }

  lemma OneStep(env: Env, s: Node, step: Step, t: Node)
    requires Shape(s) && Next(env, s, step, t)
    ensures t.progress == s.progress || (step == MoveProgress && t.progress == s.progress + 1 && IsStored(s, s.pc.block))
  {
    hide ReadOver, Covers, ReadsBack;
  }

  /** Progress names a finalized block, and every block from 1 up to it is valid when run on the replay of the
      blocks below it, unless a set up to that very block is ambiguous. Reads that fail make no difference. As
      long as none has, progress moves only while nothing is on record.
   */
  lemma ProgressSafety(env: Env, run: seq<Node>, i: nat)
    requires IsRun(env, run) && i < |run|
    ensures run[i].progress in run[i].chain
    ensures forall n :: 1 <= n <= run[i].progress && ClearTo(run[i].chain, AtBlock(n)) ==> ValidAt(env, run[i].chain, n)
    ensures i + 1 < |run| && run[i + 1].progress != run[i].progress && Clear(run[i]) && run[i].clean ==> run[i].failures == []
  {
    hide Next, IsRun, ValidAt, Shape, ClearTo;
    ShapeAlways(env, run, i);
    UpToProgress(run[i]);
    if i + 1 < |run| && run[i + 1].progress != run[i].progress && Clear(run[i]) {
      var step := StepOf(env, run, i);
      OneStep(env, run[i], step, run[i + 1]);
      PassedOf(env, run[i], run[i + 1]);
      NoFailureYet(env, run[i]);
    }
  }

  lemma PassedOf(env: Env, s: Node, t: Node)
    requires Next(env, s, MoveProgress, t)
    ensures s.pc.Passed?
  {
  }

  // ---------------------------------------------------------------- a block that does not read back

  predicate HasBlock(pc: Pc) {
    pc.Checking? || pc.Passed? || pc.Failed?
  }

  /** The block after progress does not read back as itself, and the validator does not hold it from before. */
  ghost predicate Lost(s: Node) {
    var n := s.progress + 1;
    && n in s.chain && !ReadsBack(s.log, s.chain[n])
    && (HasBlock(s.pc) ==> s.pc.block != s.chain[n])
  }

  lemma LostStep(env: Env, s: Node, step: Step, t: Node)
    requires Shape(s) && Lost(s) && Next(env, s, step, t)
    ensures Lost(t) && t.progress == s.progress && t.failures == s.failures
    ensures t.chain[t.progress + 1] == s.chain[t.progress + 1]
  {
    hide ReadOver, CheckSet, Shape, ReadsBack, ReadBackOf;
    if step.Commit? {
      CommitKeepsLost(env, s, step.block, t);
    } else {
      LostIsNotStored(s);
      ReadingNext(s);
    }
  }

  lemma CommitKeepsLost(env: Env, s: Node, b: Block, t: Node)
    requires Shape(s) && Lost(s) && Next(env, s, Commit(b), t)
    ensures Lost(t) && t.chain[s.progress + 1] == s.chain[s.progress + 1]
  {
    CommitKeepsTables(env, s, b, t);
    CommitKeepsUnread(env, s, b, t);
    hide ReadsBack, Shape, TablesOk;
  }

  lemma ReadingNext(s: Node)
    requires Shape(s)
    ensures s.pc.ReadAt? ==> s.pc.number == s.progress
  {
    hide Covers, ReadsBack;
  }

  lemma LostIsNotStored(s: Node)
    requires Shape(s) && Lost(s)
    ensures HasBlock(s.pc) ==> !IsStored(s, s.pc.block)
    ensures s.pc.ReadAt? ==> var pc := Fetch(s, s.progress + 1); HasBlock(pc) ==> pc.block != s.chain[s.progress + 1]
  {
    hide Covers;
  }

  lemma {:induction false} LostStays(env: Env, run: seq<Node>, i: nat, j: nat)
    requires IsRun(env, run) && i <= j < |run| && Lost(run[i])
    ensures Lost(run[j]) && run[j].progress == run[i].progress && run[j].failures == run[i].failures
    ensures run[j].progress + 1 in run[i].chain && run[j].progress + 1 in run[j].chain
    ensures run[j].chain[run[j].progress + 1] == run[i].chain[run[j].progress + 1]
    decreases j
  {
    hide Next, IsRun, Shape, ReadsBack;
    if i < j {
      LostStays(env, run, i, j - 1);
      var step := StepOf(env, run, j - 1);
      LostStep(env, run[j - 1], step, run[j]);
    }
  }

  /** When the validator turns to a block that does not read back as itself, it never gets past it and never
      records it, whatever is committed, interrupted or started again.
   */
  lemma UnreadIsNeverSettled(env: Env, run: seq<Node>, i: nat, j: nat)
    requires IsRun(env, run) && i <= j < |run| && !HasBlock(run[i].pc)
    requires run[i].progress + 1 in run[i].chain && !ReadsBack(run[i].log, run[i].chain[run[i].progress + 1])
    ensures run[j].progress == run[i].progress && run[j].failures == run[i].failures
  {
    hide IsRun, ReadsBack;
    LostStays(env, run, i, j);
  }

  // ---------------------------------------------------------------- an invalid block

  /** Once the stored next block fails at a set, no step moves progress or changes that verdict. */
  lemma FailureStep(env: Env, s: Node, step: Step, t: Node, k: nat)
    requires Shape(s) && Verdicts(env, s) && Next(env, s, step, t) && FailsAt(env, s.chain, s.progress + 1, k)
    ensures t.progress == s.progress && FailsAt(env, t.chain, t.progress + 1, k)
    ensures t.progress + 1 in s.chain && t.progress + 1 in t.chain && t.chain[t.progress + 1] == s.chain[t.progress + 1]
    ensures s.failures != [] ==> t.failures != []
  {
    hide FailsAt, ValidAt, Shape, FailuresOk, CheckOk;
    OneJudgement(env, s.chain, s.progress + 1, k);
    FailsInChain(env, s.chain);
    UpToProgress(s);
    OneStep(env, s, step, t);
    if step == MoveProgress && IsStored(s, s.pc.block) {
      NoFailureYet(env, s);
    }
    ChainStep(env, s, step, t);
    if t.chain != s.chain {
      AppendKeepsVerdicts(env, s.chain, s.top, t.chain[s.top]);
    }
    FailuresGrow(env, s, step, t);
  }

  lemma FailuresGrow(env: Env, s: Node, step: Step, t: Node)
    requires Next(env, s, step, t)
    ensures s.failures != [] ==> t.failures != []
  {
  }

  lemma FailedState(env: Env, s: Node, k: nat)
    requires Shape(s) && Verdicts(env, s) && FailsAt(env, s.chain, s.progress + 1, k)
    ensures s.progress + 1 in s.chain && k < |s.chain[s.progress + 1].sets|
    ensures s.pc.Passed? ==> s.pc.block != s.chain[s.progress + 1]
    ensures s.pc.Failed? && s.pc.sure && s.pc.block == s.chain[s.progress + 1] ==> s.pc.index == k
    ensures s.clean ==> s.failures == [] || s.failures == [(s.chain[s.progress + 1], s.chain[s.progress + 1].sets[k])]
  {
    hide FailsAt, ValidAt, Shape;
    RecordedOnce(env, s, k);
    OneJudgement(env, s.chain, s.progress + 1, k);
    NextNumber(s);
    if s.pc.Passed? && IsStored(s, s.pc.block) {
      NoFailureYet(env, s);
      StoredIsNext(s);
    } else if s.pc.Failed? && s.pc.sure && IsStored(s, s.pc.block) {
      FailsInPlace(env, s);
    }
  }

  lemma NextNumber(s: Node)
    requires Shape(s)
    ensures s.progress + 1 in s.chain ==> s.chain[s.progress + 1].header.number == s.progress + 1
  {
  }

  /** A block that does not pass is never passed: if no set up to it is ambiguous, progress stays below it in any
      continuation, whatever is committed above it, and whether or not reads fail.
   */
  lemma {:induction false} InvalidNeverPasses(env: Env, run: seq<Node>, i: nat, j: nat, k: nat)
    requires IsRun(env, run) && i <= j < |run| && Clear(run[i])
    requires FailsAt(env, run[i].chain, run[i].progress + 1, k)
    ensures run[j].progress == run[i].progress && FailsAt(env, run[j].chain, run[j].progress + 1, k)
    ensures run[j].progress + 1 in run[i].chain && run[j].progress + 1 in run[j].chain
    ensures run[j].chain[run[j].progress + 1] == run[i].chain[run[j].progress + 1]
    ensures run[i].failures != [] ==> run[j].failures != []
    decreases j
  {
    hide Next, IsRun, FailsAt, Shape, Verdicts, ClearTo;
    FailsInChain(env, run[i].chain);
    if i < j {
      InvalidNeverPasses(env, run, i, j - 1, k);
      ClearStays(env, run, i, j - 1);
      var step := StepOf(env, run, j - 1);
      FailureStep(env, run[j - 1], step, run[j], k);
    }
  }

  /** A verdict on a block as read depends on nothing that happens later. */
  lemma {:induction false} PositionsStay(env: Env, run: seq<Node>, i: nat, j: nat, read: Block)
    requires IsRun(env, run) && i <= j < |run| && read.header.number < run[i].top
    ensures PositionGas(env, run[j].chain, read) == PositionGas(env, run[i].chain, read)
    decreases j
  {
    hide Next, IsRun, Shape, PositionGas;
    if i < j {
      PositionsStay(env, run, i, j - 1, read);
      ChainOnlyGrows(env, run, i, j - 1);
      var step := StepOf(env, run, j - 1);
      ChainStep(env, run[j - 1], step, run[j]);
      if run[j].chain != run[j - 1].chain {
        AppendKeepsPositions(env, run[j - 1].chain, run[j - 1].top, run[j].chain[run[j - 1].top], read);
      }
    }
  }

  lemma SameVerdict(env: Env, run: seq<Node>, i: nat, j: nat)
    requires IsRun(env, run) && i <= j < |run| && run[i].pc.Failed? && Clear(run[i]) && run[j].clean
    requires run[i].progress + 1 in run[i].chain && run[j].progress == run[i].progress
    ensures (run[j].pc.Passed? || run[j].pc.Failed?) && run[j].pc.block == run[i].pc.block ==> run[j].pc == run[i].pc
  {
    hide IsRun, Shape, PositionGas, Passes, ClearTo, FailuresOk, ValidAt;
    ClearStays(env, run, i, i);
    ClearStays(env, run, i, j);
    CleanBefore(env, run, i, j);
    SureWhenClean(run[i]);
    SureWhenClean(run[j]);
    NextIsBelow(run[i]);
    PositionsStay(env, run, i, j, run[i].pc.block);
    OneJudgementThere(env, run[i].chain, run[i].pc.block, run[i].pc.index);
    var read := run[i].pc.block;
    assert PassesThere(env, run[j].chain, read) == PassesThere(env, run[i].chain, read);
    assert forall k: nat :: FailsThere(env, run[j].chain, read, k) == FailsThere(env, run[i].chain, read, k);
  }

  /** A block judged invalid stays so, if no set up to it is ambiguous and no read of the machine has failed,
      after whatever commits, errors, restarts and wake-ups. Progress never moves again. The failures on record
      stay as they were, or become the one row for this block and set, and that only if what was judged is the
      block itself. Judging the same block again gives the same set; and as long as the block reads back as
      itself, it is the same block that is judged.
   */
  lemma InvalidIsFinal(env: Env, run: seq<Node>, i: nat, j: nat)
    requires IsRun(env, run) && i <= j < |run| && run[i].pc.Failed? && Clear(run[i]) && run[j].clean
    ensures run[j].progress == run[i].progress && run[j].progress + 1 in run[j].chain
    ensures
      var (Failed(read, k, _), b) := (run[i].pc, run[j].chain[run[j].progress + 1]);
      && k < |read.sets|
      && (run[j].failures == run[i].failures || (read == b && run[j].failures == [(b, b.sets[k])]))
      && ((run[j].pc.Passed? || run[j].pc.Failed?) && run[j].pc.block == read ==> run[j].pc == run[i].pc)
      && (ReadsBack(run[j].log, b) ==> read == b && (HasBlock(run[j].pc) ==> run[j].pc.block == read))
  {
    hide IsRun, Shape, Verdicts, FailsAt, ReadsBack, ClearTo;
    CleanBefore(env, run, i, j);
    ShapeAlways(env, run, i);
    ShapeAlways(env, run, j);
    FailedShape(run[i]);
    SureWhenClean(run[i]);
    HeldShape(run[j]);
    var s, n := run[i], run[i].progress + 1;
    if s.pc.block == s.chain[n] {
      FailsNext(env, s);
      InvalidNeverPasses(env, run, i, j, s.pc.index);
      ClearStays(env, run, i, j);
      FailedState(env, s, s.pc.index);
      FailedState(env, run[j], s.pc.index);
    } else {
      LostStays(env, run, i, j);
    }
    SameVerdict(env, run, i, j);
  }

  lemma FailedShape(s: Node)
    requires Shape(s) && s.pc.Failed?
    ensures s.progress + 1 in s.chain && s.pc.index < |s.pc.block.sets| && s.chain[s.progress + 1].header.number == s.progress + 1
    ensures s.pc.block == s.chain[s.progress + 1] ==> IsStored(s, s.pc.block)
    ensures s.pc.block != s.chain[s.progress + 1] ==> Lost(s)
  {
    hide Covers, ReadsBack;
  }

  lemma HeldShape(s: Node)
    requires Shape(s)
    ensures HasBlock(s.pc) ==>
      s.progress + 1 in s.chain && (ReadsBack(s.log, s.chain[s.progress + 1]) ==> s.pc.block == s.chain[s.progress + 1])
  {
    hide Covers, ReadsBack;
  }

  lemma FailsNext(env: Env, s: Node)
    requires Shape(s) && Verdicts(env, s) && s.pc.Failed? && s.pc.sure && IsStored(s, s.pc.block)
    ensures FailsAt(env, s.chain, s.progress + 1, s.pc.index)
  {
    hide Shape, FailsAt;
    FailsInPlace(env, s);
  }

  /** Once a failure is on record the record holds exactly that row for good, for the block after progress, if no
      set up to that block is ambiguous and no read of the machine has failed.
   */
  lemma RecordIsFinal(env: Env, run: seq<Node>, i: nat, j: nat)
    requires IsRun(env, run) && i <= j < |run| && run[i].failures != [] && Clear(run[i]) && run[j].clean
    ensures run[j].failures == run[i].failures && |run[j].failures| == 1
    ensures run[j].progress == run[i].progress && run[j].failures[0].0.header.number == run[j].progress + 1
  {
    hide IsRun, FailsAt, Shape, Verdicts, ClearTo;
    CleanBefore(env, run, i, j);
    ShapeAlways(env, run, i);
    var k := RecordedAt(env, run[i]);
    InvalidNeverPasses(env, run, i, j, k);
    ClearStays(env, run, i, j);
    NextNumber(run[j]);
    FailedState(env, run[i], k);
    FailedState(env, run[j], k);
  }

  lemma RecordedAt(env: Env, s: Node) returns (k: nat)
    requires Verdicts(env, s) && s.failures != [] && s.clean
    ensures FailsAt(env, s.chain, s.progress + 1, k)
  {
    hide FailsAt;
    k :| FailedFor(env, s, k);
  }

  // ---------------------------------------------------------------- no lost wake-up

  lemma {:induction false} AnnouncedStays(env: Env, run: seq<Node>, i: nat, j: nat)
    requires IsRun(env, run) && i <= j < |run|
    ensures run[i].announced <= run[j].announced
    decreases j
  {
    hide IsRun, Shape, Next;
    if i < j {
      AnnouncedStays(env, run, i, j - 1);
      var step := StepOf(env, run, j - 1);
      AnnouncedStep(env, run[j - 1], step, run[j]);
    }
  }

  lemma AnnouncedStep(env: Env, s: Node, step: Step, t: Node)
    requires Shape(s) && Next(env, s, step, t)
    ensures s.announced <= t.announced
  {
    hide PcOk, WakeOk, Covers;
  }

  /** Whatever is committed: if a block was committed and then notified of, a validator that is parked with
      nothing unseen has either validated it, or is held at or below its number by a block that is on record
      as failed or does not read back as itself.
   */
  lemma NoLostWakeUp(env: Env, run: seq<Node>, c: nat, b: Block, m: nat, j: nat)
    requires IsRun(env, run) && c < m < j < |run|
    requires Next(env, run[c], Commit(b), run[c + 1]) && Next(env, run[m], Notify, run[m + 1])
    requires run[j].pc == Parked && run[j].seen == run[j].version
    ensures b.header.number <= run[j].progress || (run[j].progress < b.header.number && Held(run[j]))
  {
    hide IsRun, ReadsBack, OnRecord, PcOk, Covers;
    ChainOnlyGrows(env, run, c + 1, m);
    AnnouncedStays(env, run, m + 1, j);
    ShapeAlways(env, run, j);
    assert b.header.number <= run[j].announced;
  }

  /** If the block after progress reads back as itself, no set up to it is ambiguous and no read has failed,
      nothing but a recorded failure holds it: the block is valid, or a block at or below its number is invalid
      and is the one row on record.
   */
  lemma NoLostWakeUpUnlessInvalid(env: Env, run: seq<Node>, c: nat, b: Block, m: nat, j: nat)
    requires IsRun(env, run) && c < m < j < |run|
    requires Next(env, run[c], Commit(b), run[c + 1]) && Next(env, run[m], Notify, run[m + 1])
    requires run[j].pc == Parked && run[j].seen == run[j].version
    requires Clear(run[j]) && run[j].clean
    requires run[j].progress + 1 in run[j].chain ==> ReadsBack(run[j].log, run[j].chain[run[j].progress + 1])
    ensures
      || (b.header.number <= run[j].progress && ValidAt(env, run[j].chain, b.header.number))
      || (|run[j].failures| == 1 && run[j].failures[0].0.header.number <= b.header.number)
  {
    hide IsRun, ReadsBack, ValidAt, ClearTo, Next;
    NoLostWakeUp(env, run, c, b, m, j);
    CommittedNumber(env, run, c, b);
    if b.header.number <= run[j].progress {
      ClearLower(run[j].chain, b.header.number, run[j].progress + 1);
      ProgressSafety(env, run, j);
    } else {
      RecordIsFinal(env, run, j, j);
    }
  }

  lemma CommittedNumber(env: Env, run: seq<Node>, c: nat, b: Block)
    requires IsRun(env, run) && c + 1 < |run| && Next(env, run[c], Commit(b), run[c + 1])
    ensures b.header.number >= 1
  {
    hide IsRun;
    ShapeAlways(env, run, c);
  }

  // ---------------------------------------------------------------- the sequential code is among the runs

  /** `n` steps of the validator alone lead from `s` to `t`. */
  ghost predicate Leads(env: Env, s: Node, t: Node, n: nat)
    decreases n
  {
    if n == 0 then s == t else exists step, u :: OwnStep(env, s, step, u) && Leads(env, u, t, n - 1)
  }

  ghost predicate OwnStep(env: Env, s: Node, step: Step, t: Node) {
    && (step.ReadProgress? || step.ReadNext? || step.CheckNext? || step.MoveProgress? || step.ReadLatest? || step.RecordFailure?)
    && Next(env, s, step, t)
  }

  ghost function MarksAt(s: Node): Marks {
    Marks(if s.progress in s.chain then Some(s.chain[s.progress]) else None, s.failures)
  }

  /** Where the stream goes on after `validate_next_block` has answered. */
  function PcAfter(r: Result<bool, InternalError>): Pc {
    match r
    case Ok(more) => if more then Poll else Parked
    case Err(Retry) => Poll
    case Err(Critical(_)) => Stopped
  }

  /** Left alone, the validator does to progress and to the failures just what `validate_next_block` does as
      one call, on whatever has been committed above the next block or reads back differently, and goes on as the
      stream does with the call's answer.
   */
  lemma LeftAloneItJudges(env: Env, s: Node) returns (t: Node, n: nat, r: Result<bool, InternalError>)
    requires Inv(env, s) && Clear(s) && s.pc == Poll
    ensures Leads(env, s, t, n) && t.chain == s.chain && s.progress in s.chain
    ensures Judges(env, s.chain, s.log, s.chain[s.progress], MarksAt(s), MarksAt(t), r) && t.pc == PcAfter(r)
  {
    hide Verdicts, ClearTo, Judges, Leads, Shape, ProgressOk;
    UpToProgress(s);
    NumberAt(s);
    t, n, r := ItJudges(env, s);
  }

  lemma NumberAt(s: Node)
    requires Shape(s)
    ensures s.progress in s.chain && s.chain[s.progress].header.number == s.progress
  {
  }

  /** The validator is on its way to a verdict, and what it has in hand is what would be read now. */
  ghost predicate Judging(s: Node) {
    || s.pc == Poll || s.pc.ReadAt?
    || (HasBlock(s.pc) && s.progress + 1 in s.chain && s.chain[s.progress + 1].sets != []
        && s.pc.block == ReadBackOf(s.log, s.chain[s.progress + 1]) && (s.pc.Failed? ==> s.pc.sure))
  }

  ghost function Rank(s: Node): nat {
    if s.pc == Poll then 3 else if s.pc.ReadAt? then 2 else if s.pc.Checking? then 1 else 0
  }

  ghost function SetsLeft(s: Node): int {
    if s.pc.Checking? then |s.pc.block.sets| - s.pc.next else 0
  }

  lemma {:induction false} ItJudges(env: Env, s: Node) returns (t: Node, n: nat, r: Result<bool, InternalError>)
    requires Inv(env, s) && Clear(s) && Judging(s)
    ensures Leads(env, s, t, n) && t.chain == s.chain && s.progress in s.chain
    ensures Judges(env, s.chain, s.log, s.chain[s.progress], MarksAt(s), MarksAt(t), r) && t.pc == PcAfter(r)
    decreases Rank(s), SetsLeft(s)
  {
    hide Verdicts, ClearTo, Judges, Leads, Shape, Next, Judging, CheckOk, ProgressOk;
    NumberAt(s);
    CheckOf(env, s);
    if s.pc.Passed? {
      t, n, r := PassedJudges(env, s);
    } else if s.pc.Failed? {
      t, r := FailedJudges(env, s);
      n := 1;
      LeadsNowhere(env, t);
      LeadsOn(env, s, RecordFailure, t, t, 0);
    } else if s.pc.ReadAt? && !HasBlock(Fetch(s, s.progress + 1)) {
      t, r := NothingJudges(env, s);
      n := 1;
      LeadsNowhere(env, t);
      LeadsOn(env, s, ReadNext, t, t, 0);
    } else {
      var step, u := GoOn(env, s);
      StepKeeps(env, s, step, u);
      var m;
      t, m, r := ItJudges(env, u);
      n := m + 1;
      LeadsOn(env, s, step, u, t, m);
    }
  }

  lemma CheckOf(env: Env, s: Node)
    requires Verdicts(env, s)
    ensures CheckOk(env, s)
  {
  }

  lemma LeadsNowhere(env: Env, s: Node)
    ensures Leads(env, s, s, 0)
  {
  }

  lemma {:induction false} LeadsOn(env: Env, s: Node, step: Step, u: Node, t: Node, n: nat)
    requires OwnStep(env, s, step, u) && Leads(env, u, t, n)
    ensures Leads(env, s, t, n + 1)
  {
  }

  /** A step towards the verdict. */
  lemma GoOn(env: Env, s: Node) returns (step: Step, u: Node)
    requires Shape(s) && Judging(s) && !s.pc.Passed? && !s.pc.Failed?
    requires s.pc.ReadAt? ==> HasBlock(Fetch(s, s.progress + 1))
    ensures OwnStep(env, s, step, u) && Judging(u) && u == s.(pc := u.pc)
    ensures Rank(u) < Rank(s) || (Rank(u) == Rank(s) && 0 <= SetsLeft(u) < SetsLeft(s))
  {
    if s.pc == Poll {
      step, u := ReadProgress, s.(pc := ReadAt(s.progress));
    } else if s.pc.ReadAt? {
      FetchInHand(s);
      step, u := ReadNext, s.(pc := Fetch(s, s.progress + 1));
    } else {
      step, u := CheckOn(env, s);
    }
  }

  lemma CheckOn(env: Env, s: Node) returns (step: Step, u: Node)
    requires s.pc.Checking? && Judging(s)
    ensures OwnStep(env, s, step, u) && Judging(u) && u == s.(pc := u.pc)
    ensures Rank(u) < Rank(s) || (Rank(u) == Rank(s) && 0 <= SetsLeft(u) < SetsLeft(s))
  {
    hide StateAt, ReadOver, CheckSet, ReadBackOf;
    var Checking(b, i, _) := s.pc;
    var pre, post := StateAt(s.chain, b.header.number, i), StateAt(s.chain, b.header.number, i + 1);
    ReadNow(s.chain, b.header.number, i);
    ReadNow(s.chain, b.header.number, i + 1);
    step, u := CheckNext(pre, post), s.(pc := Check(env, s.pc, pre, post));
  }

  lemma NothingJudges(env: Env, s: Node) returns (t: Node, r: Result<bool, InternalError>)
    requires Shape(s) && s.pc.ReadAt? && !HasBlock(Fetch(s, s.progress + 1))
    ensures OwnStep(env, s, ReadNext, t) && t.chain == s.chain && s.progress in s.chain
    ensures Judges(env, s.chain, s.log, s.chain[s.progress], MarksAt(s), MarksAt(t), r) && t.pc == PcAfter(r)
  {
    NumberAt(s);
    FetchInHand(s);
    hide PassesThere, ReadBackOf, Records;
    t := s.(pc := Fetch(s, s.progress + 1));
    r := if s.progress + 1 in s.chain then Err(Critical(Query(NullColumn))) else Ok(false);
  }

  lemma PassedJudges(env: Env, s: Node) returns (t: Node, n: nat, r: Result<bool, InternalError>)
    requires Shape(s) && CheckOk(env, s) && s.pc.Passed? && Judging(s)
    ensures Leads(env, s, t, n) && t.chain == s.chain && s.progress in s.chain
    ensures Judges(env, s.chain, s.log, s.chain[s.progress], MarksAt(s), MarksAt(t), r) && t.pc == PcAfter(r)
  {
    hide PassesThere, ReadBackOf, Records, Shape, Leads;
    NumberAt(s);
    NextNumber(s);
    UpToProgress(s);
    NewestOfInterval(s.chain, s.top);
    var n1 := s.progress + 1;
    if IsStored(s, s.pc.block) {
      var u := s.(progress := n1, pc := Advanced(s.pc.block));
      t := u.(pc := if u.top - 1 > n1 then Poll else Parked);
      r, n := Ok(s.top - 1 > n1), 2;
      LeadsNowhere(env, t);
      LeadsOn(env, u, ReadLatest, t, t, 0);
      LeadsOn(env, s, MoveProgress, u, t, 1);
    } else {
      t := s.(pc := Poll);
      r, n := Err(Retry), 1;
      LeadsNowhere(env, t);
      LeadsOn(env, s, MoveProgress, t, t, 0);
    }
  }

  lemma FailedJudges(env: Env, s: Node) returns (t: Node, r: Result<bool, InternalError>)
    requires Shape(s) && CheckOk(env, s) && s.pc.Failed? && Judging(s)
    ensures OwnStep(env, s, RecordFailure, t) && t.chain == s.chain && s.progress in s.chain
    ensures Judges(env, s.chain, s.log, s.chain[s.progress], MarksAt(s), MarksAt(t), r) && t.pc == PcAfter(r)
  {
    hide PassesThere, FailsThere, FailsAt, ReadBackOf, Shape;
    NumberAt(s);
    NextNumber(s);
    FailedShape(s);
    OneJudgementThere(env, s.chain, s.pc.block, s.pc.index);
    t := s.(failures := WithFailure(s), pc := Parked);
    r := Ok(false);
    if IsStored(s, s.pc.block) {
      FailsInPlace(env, s);
      assert RecordsSet(env, s.chain, s.progress + 1, s.pc.index, s.failures, t.failures);
    }
  }

  // ---------------------------------------------------------------- a read that fails

  /** `n` steps of any kind lead from `s` to `t`. */
  ghost predicate Reaches(env: Env, s: Node, t: Node, n: nat)
    decreases n
  {
    if n == 0 then s == t else exists step, u :: Next(env, s, step, u) && Reaches(env, u, t, n - 1)
  }

  lemma {:induction false} LeadsReaches(env: Env, s: Node, t: Node, n: nat)
    requires Leads(env, s, t, n)
    ensures Reaches(env, s, t, n)
    decreases n
  {
    hide Next;
    if n > 0 {
      var step, u :| OwnStep(env, s, step, u) && Leads(env, u, t, n - 1);
      LeadsReaches(env, u, t, n - 1);
    }
  }

  lemma {:induction false} ReachesOn(env: Env, s: Node, step: Step, u: Node, t: Node, n: nat)
    requires Next(env, s, step, u) && Reaches(env, u, t, n)
    ensures Reaches(env, s, t, n + 1)
  {
    hide Next;
  }

  /** Why the theorems on the record suppose that no read has failed: while a valid block is being checked, one
      failing read puts the block on record as failed, and the next notification makes the validator judge it
      again and move past it. The record then holds a block that was passed.
   */
  lemma ReadErrorRecordsValid(env: Env, s: Node) returns (t: Node, n: nat)
    requires Inv(env, s) && Clear(s) && s.pc.Checking? && s.pc.next < |s.pc.block.sets|
    requires s.progress + 1 in s.chain && ReadsBack(s.log, s.chain[s.progress + 1]) && ValidAt(env, s.chain, s.progress + 1)
    ensures Reaches(env, s, t, n) && t.chain == s.chain
    ensures t.progress == s.progress + 1 && OnRecord(s.chain[s.progress + 1], t.failures)
  {
    hide Shape, Verdicts, ProgressOk, ClearTo, Judges, Leads, Reaches, ValidAt, ReadsBack;
    HeldShape(s);
    NextNumber(s);
    var b := s.chain[s.progress + 1];
    var u1 := s.(pc := Failed(s.pc.block, s.pc.next, false), clean := false);
    var u2 := u1.(failures := WithFailure(u1), pc := Parked);
    var u3 := u2.(announced := s.top - 1, version := s.version + 1);
    var u4 := u3.(seen := u3.version, pc := Poll);
    SeenIsOld(s);
    Recorded(b, b.sets[s.pc.next], s.failures, u2.failures);
    StepKeeps(env, s, ReadError, u1);
    StepKeeps(env, u1, RecordFailure, u2);
    StepKeeps(env, u2, Notify, u3);
    StepKeeps(env, u3, Wake, u4);
    var m, r;
    t, m, r := LeftAloneItJudges(env, u4);
    JudgedValid(env, u4, t, r);
    LeadsReaches(env, u4, t, m);
    ReachesOn(env, u3, Wake, u4, t, m);
    ReachesOn(env, u2, Notify, u3, t, m + 1);
    ReachesOn(env, u1, RecordFailure, u2, t, m + 2);
    ReachesOn(env, s, ReadError, u1, t, m + 3);
    n := m + 4;
  }

  lemma SeenIsOld(s: Node)
    requires Shape(s)
    ensures s.seen <= s.version
  {
  }

  lemma JudgedValid(env: Env, s: Node, t: Node, r: Result<bool, InternalError>)
    requires Shape(s) && t.chain == s.chain && s.progress + 1 in s.chain && s.progress in s.chain
    requires ReadsBack(s.log, s.chain[s.progress + 1]) && ValidAt(env, s.chain, s.progress + 1)
    requires Judges(env, s.chain, s.log, s.chain[s.progress], MarksAt(s), MarksAt(t), r)
    ensures t.progress == s.progress + 1 && t.failures == s.failures
  {
    hide ReadBackOf, PassesThere, Records, ValidAt, Newest;
    NumberAt(s);
    NextNumber(s);
    ThereIsAt(env, s.chain, s.progress + 1);
    UpToProgress(s);
  }
}
