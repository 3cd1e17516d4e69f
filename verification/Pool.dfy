/** The connection pool: a bounded queue of idle connections, and in front of it a semaphore whose permits
    promise that a connection is there.
 */
module Pool {
  import opened Types

  /** A connection, by identity. */
  type Conn = nat

  // ---------------------------------------------------------------- the synchronous pool

  class ConnectionPool {
    const capacity: nat
    var queue: seq<Conn>

    ghost predicate Valid()
      reads this
    {
      0 < capacity && |queue| <= capacity
    }

    constructor (capacity: nat)
      requires 0 < capacity
      ensures Valid() && this.capacity == capacity && queue == []
    {
      this.capacity := capacity;
      queue := [];
    }

    /** `ArrayQueue::push`, which fails when the queue is full. */
    method Push(conn: Conn) returns (ok: bool)
      requires Valid()
      modifies this`queue
      ensures Valid()
      ensures ok <==> |old(queue)| < capacity
      ensures queue == if ok then old(queue) + [conn] else old(queue)
    {
      ok := |queue| < capacity;
      if ok {
        queue := queue + [conn];
      }
    }

    /** `pop`: the connection that has been idle longest. */
    method Pop() returns (conn: Option<Conn>)
      requires Valid()
      modifies this`queue
      ensures Valid()
      ensures conn.None? <==> old(queue) == []
      ensures old(queue) == (if conn.Some? then [conn.value] else []) + queue
    {
      if queue == [] {
        return None;
      }
      conn := Some(queue[0]);
      queue := queue[1..];
    }

    /** `close`: empty the queue, closing each connection in turn. */
    method Close() returns (closed: seq<Conn>)
      requires Valid()
      modifies this`queue
      ensures Valid()
      ensures queue == [] && closed == old(queue)
    {
      closed := [];
      var conn := Pop();
      while conn.Some?
        invariant Valid()
        invariant old(queue) == closed + (if conn.Some? then [conn.value] else []) + queue
        invariant conn.None? ==> queue == []
        decreases |queue|, if conn.Some? then 1 else 0
      {
        closed := closed + [conn.value];
        conn := Pop();
      }
    }
  }

  /** `ConnectionPool::new`: open every connection; if one fails to open, those before it are dropped. */
  method NewPool(capacity: nat, open: nat -> Option<Conn>) returns (pool: Option<ConnectionPool>)
    requires 0 < capacity
    ensures pool.Some? <==> forall i :: 0 <= i < capacity ==> open(i).Some?
    ensures pool.Some? ==> fresh(pool.value) && pool.value.Valid() && pool.value.capacity == capacity
    ensures pool.Some? ==>
      |pool.value.queue| == capacity && forall i :: 0 <= i < capacity ==> open(i) == Some(pool.value.queue[i])
  {
    var p := new ConnectionPool(capacity);
    for i := 0 to capacity
      invariant p.Valid() && p.capacity == capacity && |p.queue| == i
      invariant forall j :: 0 <= j < i ==> open(j) == Some(p.queue[j])
    {
      match open(i)
      case None => return None;
      case Some(conn) =>
        var ok := p.Push(conn);
    }
    return Some(p);
  }

  // ---------------------------------------------------------------- the asynchronous pool

  /** The order in which a handle's two parts are dropped: as declared, or the other way round. */
  datatype DropOrder = ConnectionFirst | PermitFirst

  /** `idle` is the queue. `acquiring` counts tasks that hold a permit and have yet to pop; `held` are the
      connections of live handles; a handle half dropped has returned its connection but not its permit
      (`owing` counts those), or its permit but not its connection (`returning` holds those). `closing`
      counts tasks inside `close` and `closed` are the connections they have closed. `panicked` is set by
      a pop that found no connection, or a push that found no room.
   */
  datatype AsyncPool = AsyncPool(
    capacity: nat, idle: seq<Conn>, permits: nat, acquiring: nat, held: multiset<Conn>,
    owing: nat, returning: multiset<Conn>, shut: bool, closing: nat, closed: multiset<Conn>, panicked: bool)

  datatype Step =
    | TakePermit             // acquire or try_acquire, past the semaphore
    | PopConn                // and then the pop
    | DropHandle(conn: Conn) // the first half of a drop
    | FinishDrop(conn: Conn) // the second half
    | Shut                   // close: the semaphore, then the loop over the queue
    | ClosePop | CloseEnd

  ghost predicate Next(order: DropOrder, s: AsyncPool, step: Step, t: AsyncPool) {
    && !s.panicked
    && match step
       case TakePermit =>
         s.permits > 0 && !s.shut && t == s.(permits := s.permits - 1, acquiring := s.acquiring + 1)
       case PopConn =>
         && s.acquiring > 0
         && t == if s.idle == [] then s.(panicked := true)
                 else s.(acquiring := s.acquiring - 1, idle := s.idle[1..], held := s.held + multiset{s.idle[0]})
       case DropHandle(c) =>
         && c in s.held
         && t == if order == ConnectionFirst then Push(s.(held := s.held - multiset{c}, owing := s.owing + 1), c)
                 else s.(held := s.held - multiset{c}, returning := s.returning + multiset{c}, permits := s.permits + 1)
       case FinishDrop(c) =>
         if order == ConnectionFirst then s.owing > 0 && t == s.(owing := s.owing - 1, permits := s.permits + 1)
         else c in s.returning && t == Push(s.(returning := s.returning - multiset{c}), c)
       case Shut =>
         t == s.(shut := true, closing := s.closing + 1)
       case ClosePop =>
         s.closing > 0 && s.idle != [] && t == s.(idle := s.idle[1..], closed := s.closed + multiset{s.idle[0]})
       case CloseEnd =>
         s.closing > 0 && s.idle == [] && t == s.(closing := s.closing - 1)
  }

  function Push(s: AsyncPool, c: Conn): AsyncPool {
    if |s.idle| < s.capacity then s.(idle := s.idle + [c]) else s.(panicked := true)
  }

  /** A push fails just when the queue is full. */
  lemma PushIs(s: AsyncPool, c: Conn)
    requires !s.panicked
    ensures Push(s, c).panicked <==> |s.idle| >= s.capacity
    ensures !Push(s, c).panicked ==> Push(s, c).idle == s.idle + [c] && |Push(s, c).idle| <= s.capacity
  {
  }

  function Returned(s: AsyncPool, conn: Conn): AsyncPool {
    Push(s.(held := s.held - multiset{conn}, owing := s.owing + 1), conn)
  }

  function Fresh(conns: seq<Conn>): AsyncPool {
    AsyncPool(|conns|, conns, |conns|, 0, multiset{}, 0, multiset{}, false, 0, multiset{}, false)
  }

  ghost predicate IsRun(order: DropOrder, start: AsyncPool, run: seq<AsyncPool>, steps: seq<Step>) {
    && |run| == |steps| + 1 && run[0] == start
    && forall i :: 0 <= i < |steps| ==> Next(order, run[i], steps[i], run[i + 1])
  }

  /** A step in front of a run. */
  lemma StepThenRun(order: DropOrder, s: AsyncPool, step: Step, t: AsyncPool, run: seq<AsyncPool>, steps: seq<Step>)
    requires Next(order, s, step, t) && IsRun(order, t, run, steps)
    ensures IsRun(order, s, [s] + run, [step] + steps) && ([s] + run)[|steps| + 1] == run[|steps|]
  {
    hide Next;
    forall i | 0 <= i < |steps| + 1 ensures Next(order, ([s] + run)[i], ([step] + steps)[i], ([s] + run)[i + 1]) {
      if i > 0 {
        assert Next(order, run[i - 1], steps[i - 1], run[i - 1 + 1]);
      }
    }
  }

  // ---------------------------------------------------------------- what every step keeps

  /** Every connection is in exactly one place. */
  ghost predicate Conserved(conns: seq<Conn>, s: AsyncPool) {
    && s.capacity == |conns|
    && multiset(s.idle) + s.held + s.returning + s.closed == multiset(conns)
  }

  /** Every permit is free, or stands for an acquirer, a live handle or one half dropped. */
  ghost predicate PermitsAccounted(s: AsyncPool) {
    s.permits + s.acquiring + |s.held| + s.owing == s.capacity
  }

  ghost predicate Inv(order: DropOrder, conns: seq<Conn>, s: AsyncPool) {
    && Conserved(conns, s) && PermitsAccounted(s)
    && (order == ConnectionFirst ==> s.returning == multiset{})
    && (order == PermitFirst ==> s.owing == 0)
    && (!s.shut ==> s.closing == 0) && (s.closing == 0 && !s.shut ==> s.closed == multiset{})
  }

  lemma FirstIdle(s: AsyncPool)
    requires s.idle != []
    ensures multiset(s.idle) == multiset{s.idle[0]} + multiset(s.idle[1..])
  {
    assert s.idle == [s.idle[0]] + s.idle[1..];
  }

  /** A connection on its way back always finds room, since it is not in the queue itself. */
  lemma RoomToReturn(conns: seq<Conn>, s: AsyncPool, c: Conn)
    requires Conserved(conns, s) && (c in s.held || c in s.returning)
    ensures |s.idle| < s.capacity
  {
    Counts(conns, s);
  }

  lemma PushKeeps(conns: seq<Conn>, s: AsyncPool, c: Conn)
    requires s.capacity == |conns| && |s.idle| < s.capacity
    requires multiset(s.idle) + multiset{c} + s.held + s.returning + s.closed == multiset(conns)
    ensures Conserved(conns, Push(s, c))
  {
    assert multiset(s.idle + [c]) == multiset(s.idle) + multiset{c};
  }

  lemma PopKeeps(order: DropOrder, conns: seq<Conn>, s: AsyncPool, t: AsyncPool)
    requires Inv(order, conns, s) && Next(order, s, PopConn, t) && s.idle != []
    ensures Inv(order, conns, t)
  {
    FirstIdle(s);
  }

  lemma DropKeeps(order: DropOrder, conns: seq<Conn>, s: AsyncPool, c: Conn, t: AsyncPool)
    requires Inv(order, conns, s) && Next(order, s, DropHandle(c), t)
    ensures Inv(order, conns, t) && !t.panicked
  {
    hide Conserved;
    if order == ConnectionFirst {
      ReturnKeeps(conns, s, c);
    } else {
      HandOver(conns, s, c);
    }
  }

  lemma ReturnKeeps(conns: seq<Conn>, s: AsyncPool, c: Conn)
    requires Conserved(conns, s) && c in s.held
    ensures
      var t := Returned(s, c);
      |s.idle| < s.capacity && Conserved(conns, t) && |t.held| + 1 == |s.held|
  {
    RoomToReturn(conns, s, c);
    assert s.held == s.held - multiset{c} + multiset{c};
    PushKeeps(conns, s.(held := s.held - multiset{c}, owing := s.owing + 1), c);
  }

  lemma HandOver(conns: seq<Conn>, s: AsyncPool, c: Conn)
    requires Conserved(conns, s) && c in s.held
    ensures
      var t := s.(held := s.held - multiset{c}, returning := s.returning + multiset{c}, permits := s.permits + 1);
      Conserved(conns, t) && |t.held| + 1 == |s.held|
  {
    assert s.held == s.held - multiset{c} + multiset{c};
  }

  lemma FinishKeeps(order: DropOrder, conns: seq<Conn>, s: AsyncPool, c: Conn, t: AsyncPool)
    requires Inv(order, conns, s) && Next(order, s, FinishDrop(c), t)
    ensures Inv(order, conns, t) && !t.panicked
  {
    if order == PermitFirst {
      RoomToReturn(conns, s, c);
      assert s.returning == s.returning - multiset{c} + multiset{c};
      PushKeeps(conns, s.(returning := s.returning - multiset{c}), c);
    }
  }

  lemma CloseKeeps(order: DropOrder, conns: seq<Conn>, s: AsyncPool, t: AsyncPool)
    requires Inv(order, conns, s) && Next(order, s, ClosePop, t)
    ensures Inv(order, conns, t)
  {
    FirstIdle(s);
  }

  /** Every step conserves the connections and the permits. The only thing that can go wrong is a pop that
      finds no connection; a push always finds room, after a close as well.
   */
  lemma StepKeeps(order: DropOrder, conns: seq<Conn>, s: AsyncPool, step: Step, t: AsyncPool)
    requires Inv(order, conns, s) && Next(order, s, step, t)
    ensures if t.panicked then step == PopConn && s.idle == [] else Inv(order, conns, t)
  {
    match step
    case PopConn => if s.idle != [] { PopKeeps(order, conns, s, t); }
    case DropHandle(c) => DropKeeps(order, conns, s, c, t);
    case FinishDrop(c) => FinishKeeps(order, conns, s, c, t);
    case ClosePop => CloseKeeps(order, conns, s, t);
    case _ =>
  }

  lemma Counts(conns: seq<Conn>, s: AsyncPool)
    requires Conserved(conns, s)
    ensures |s.idle| + |s.held| + |s.returning| + |s.closed| == s.capacity
  {
    assert |multiset(s.idle) + s.held + s.returning + s.closed| == |multiset(s.idle)| + |s.held| + |s.returning| + |s.closed|;
    assert |multiset(conns)| == |conns|;
  }

  lemma {:induction false} InvAlways(order: DropOrder, conns: seq<Conn>, start: AsyncPool, run: seq<AsyncPool>, steps: seq<Step>, i: nat)
    requires Inv(order, conns, start) && IsRun(order, start, run, steps) && i <= |steps| && !run[i].panicked
    ensures Inv(order, conns, run[i])
  {
    if i > 0 {
      assert Next(order, run[i - 1], steps[i - 1], run[i - 1 + 1]);
      InvAlways(order, conns, start, run, steps, i - 1);
      StepKeeps(order, conns, run[i - 1], steps[i - 1], run[i]);
    }
  }

  lemma FreshInv(order: DropOrder, conns: seq<Conn>)
    ensures Inv(order, conns, Fresh(conns))
  {
  }

  /** In every state of every run, closes included: idle, handed out, on the way back and closed
      connections are together the ones the pool was created with.
   */
  lemma Conservation(order: DropOrder, conns: seq<Conn>, run: seq<AsyncPool>, steps: seq<Step>, i: nat)
    requires IsRun(order, Fresh(conns), run, steps) && i <= |steps| && !run[i].panicked
    ensures multiset(run[i].idle) + run[i].held + run[i].returning + run[i].closed == multiset(conns)
  {
    FreshInv(order, conns);
    InvAlways(order, conns, Fresh(conns), run, steps, i);
  }

  /** When a close ends, no connection is idle: each one is closed, handed out or on its way back. */
  lemma CloseEmpties(order: DropOrder, conns: seq<Conn>, run: seq<AsyncPool>, steps: seq<Step>, i: nat)
    requires IsRun(order, Fresh(conns), run, steps) && i < |steps| && steps[i] == CloseEnd
    ensures run[i].held + run[i].returning + run[i].closed == multiset(conns)
  {
    assert Next(order, run[i], steps[i], run[i + 1]);
    Conservation(order, conns, run, steps, i);
  }

  // ---------------------------------------------------------------- the permit guarantees availability

  /** With the declared drop order a connection is back before its permit is, so the permits that can still
      be turned into a pop are covered by idle connections, except for those a close has taken away.
   */
  lemma PermitsAreCovered(conns: seq<Conn>, s: AsyncPool)
    requires Inv(ConnectionFirst, conns, s)
    ensures s.permits + s.acquiring + s.owing == |s.idle| + |s.closed|
    ensures !s.shut ==> s.permits + s.acquiring <= |s.idle|
  {
    Counts(conns, s);
  }

  predicate NoClose(steps: seq<Step>) {
    forall i :: 0 <= i < |steps| ==> !steps[i].Shut?
  }

  /** As long as nobody calls `close`, the pop after a permit succeeds. */
  lemma {:induction false} PopSucceeds(conns: seq<Conn>, run: seq<AsyncPool>, steps: seq<Step>, i: nat)
    requires IsRun(ConnectionFirst, Fresh(conns), run, steps) && NoClose(steps) && i <= |steps|
    ensures !run[i].panicked && !run[i].shut && run[i].permits + run[i].acquiring <= |run[i].idle|
  {
    FreshInv(ConnectionFirst, conns);
    if i > 0 {
      PopSucceeds(conns, run, steps, i - 1);
      assert Next(ConnectionFirst, run[i - 1], steps[i - 1], run[i - 1 + 1]);
      InvAlways(ConnectionFirst, conns, Fresh(conns), run, steps, i - 1);
      StepKeeps(ConnectionFirst, conns, run[i - 1], steps[i - 1], run[i]);
      assert !run[i].shut;
    }
    PermitsAreCovered(conns, run[i]);
  }

  /** The permit's guarantee rests on the drop order, and on nothing less. */
  lemma GuaranteeIffConnectionFirst(order: DropOrder)
    ensures
      (forall conns, run: seq<AsyncPool>, steps ::
         IsRun(order, Fresh(conns), run, steps) && NoClose(steps) ==> !run[|steps|].panicked)
      <==> order == ConnectionFirst
  {
    if order == ConnectionFirst {
      forall conns, run: seq<AsyncPool>, steps | IsRun(order, Fresh(conns), run, steps) && NoClose(steps)
        ensures !run[|steps|].panicked
      {
        PopSucceeds(conns, run, steps, |steps|);
      }
    } else {
      var run, steps := PermitFirstPanics();
    }
  }

  /** One connection: a second task gets the permit of a handle whose connection is not back yet. */
  lemma PermitFirstPanics() returns (run: seq<AsyncPool>, steps: seq<Step>)
    ensures IsRun(PermitFirst, Fresh([0]), run, steps) && NoClose(steps) && |steps| == 5 && run[5].panicked
  {
    var s0 := Fresh([0]);
    var s1 := s0.(permits := 0, acquiring := 1);
    var s2 := s1.(acquiring := 0, idle := [], held := multiset{0});
    var s3 := s2.(held := multiset{}, returning := multiset{0}, permits := 1);
    var s4 := s3.(permits := 0, acquiring := 1);
    var s5 := s4.(panicked := true);
    run, steps := [s0, s1, s2, s3, s4, s5], [TakePermit, PopConn, DropHandle(0), TakePermit, PopConn];
    assert s2.held - multiset{0} == multiset{};
    assert Next(PermitFirst, s2, DropHandle(0), s3);
  }

  // ---------------------------------------------------------------- close

  function ClosePops(steps: seq<Step>): nat {
    if steps == [] then 0 else ClosePops(steps[..|steps| - 1]) + if steps[|steps| - 1].ClosePop? then 1 else 0
  }

  /** The loops of all calls of `close` together take no more turns than there are connections, in runs that end
      in a panic as well.
   */
  lemma CloseTerminates(order: DropOrder, conns: seq<Conn>, run: seq<AsyncPool>, steps: seq<Step>)
    requires IsRun(order, Fresh(conns), run, steps)
    ensures ClosePops(steps) <= |conns|
  {
    var n := |steps|;
    ClosePopsAreClosed(order, conns, run, steps, n);
    FreshInv(order, conns);
    assert steps[..n] == steps;
    if !run[n].panicked {
      InvAlways(order, conns, Fresh(conns), run, steps, n);
      Counts(conns, run[n]);
    } else {
      assert Next(order, run[n - 1], steps[n - 1], run[n - 1 + 1]);
      InvAlways(order, conns, Fresh(conns), run, steps, n - 1);
      Counts(conns, run[n - 1]);
    }
  }

  lemma {:induction false} ClosePopsAreClosed(order: DropOrder, conns: seq<Conn>, run: seq<AsyncPool>, steps: seq<Step>, i: nat)
    requires IsRun(order, Fresh(conns), run, steps) && i <= |steps|
    ensures ClosePops(steps[..i]) == |run[i].closed|
  {
    if i > 0 {
      ClosePopsAreClosed(order, conns, run, steps, i - 1);
      assert Next(order, run[i - 1], steps[i - 1], run[i - 1 + 1]);
      assert steps[..i][..i - 1] == steps[..i - 1];
    }
  }

  /** Closing while a task holds a permit it has not used yet may make that task panic, and closing at any
      other time cannot make any task panic.
   */
  lemma CloseIsSafeIffNoneAcquiring(conns: seq<Conn>, s: AsyncPool)
    requires Inv(ConnectionFirst, conns, s) && !s.shut && !s.panicked
    ensures
      (forall run: seq<AsyncPool>, steps ::
         IsRun(ConnectionFirst, s, run, steps) && steps != [] && steps[0] == Shut ==> !run[|steps|].panicked)
      <==> s.acquiring == 0
  {
    if s.acquiring == 0 {
      forall run: seq<AsyncPool>, steps | IsRun(ConnectionFirst, s, run, steps) && steps != [] && steps[0] == Shut
        ensures !run[|steps|].panicked
      {
        NoneHandedOut(conns, s, run, steps, |steps|);
      }
    } else {
      PermitsAreCovered(conns, s);
      var t := s.(shut := true, closing := s.closing + 1);
      var run, steps := DrainThenPanic(t);
      var run', steps' := [s] + run, [Shut] + steps;
      StepThenRun(ConnectionFirst, s, Shut, t, run, steps);
      assert IsRun(ConnectionFirst, s, run', steps') && run'[|steps'|].panicked;
    }
  }

  /** Once the semaphore is closed and nobody is between permit and pop, no connection is handed out. */
  lemma {:induction false} NoneHandedOut(conns: seq<Conn>, s: AsyncPool, run: seq<AsyncPool>, steps: seq<Step>, i: nat)
    requires Inv(ConnectionFirst, conns, s) && !s.panicked && s.acquiring == 0
    requires IsRun(ConnectionFirst, s, run, steps) && steps != [] && steps[0] == Shut && i <= |steps|
    ensures !run[i].panicked && run[i].acquiring == 0 && (i > 0 ==> run[i].shut)
    ensures i > 0 ==> run[i].held <= run[i - 1].held
  {
    if i > 0 {
      NoneHandedOut(conns, s, run, steps, i - 1);
      assert Next(ConnectionFirst, run[i - 1], steps[i - 1], run[i - 1 + 1]);
      InvAlways(ConnectionFirst, conns, s, run, steps, i - 1);
      StepKeeps(ConnectionFirst, conns, run[i - 1], steps[i - 1], run[i]);
    }
  }

  lemma {:induction false} DrainThenPanic(s: AsyncPool) returns (run: seq<AsyncPool>, steps: seq<Step>)
    requires !s.panicked && s.closing > 0 && s.acquiring > 0
    ensures IsRun(ConnectionFirst, s, run, steps) && run[|steps|].panicked
    decreases |s.idle|
  {
    if s.idle == [] {
      run, steps := [s, s.(panicked := true)], [PopConn];
    } else {
      var t := s.(idle := s.idle[1..], closed := s.closed + multiset{s.idle[0]});
      var rest, more := DrainThenPanic(t);
      run, steps := [s] + rest, [ClosePop] + more;
      StepThenRun(ConnectionFirst, s, ClosePop, t, rest, more);
    }
  }

  // ---------------------------------------------------------------- the code takes these steps

  /** The semaphore in front of the pool. Each method that is one access to shared state is one step of the
      step system above; the methods of the source are made of them.
   */
  class AsyncConnectionPool {
    const pool: ConnectionPool
    var permits: nat
    var shut: bool

    // The tasks and handles, and the connections the pool was created with.
    ghost const conns: seq<Conn>
    ghost var acquiring: nat
    ghost var held: multiset<Conn>
    ghost var owing: nat
    ghost var closing: nat
    ghost var closed: multiset<Conn>

    ghost function View(): AsyncPool
      reads this, pool
    {
      AsyncPool(pool.capacity, pool.queue, permits, acquiring, held, owing, multiset{}, shut, closing, closed, false)
    }

    ghost predicate Valid()
      reads this, pool
    {
      pool.Valid() && Inv(ConnectionFirst, conns, View())
    }

    /** As many permits as connections, all of them idle. */
    constructor (pool: ConnectionPool)
      requires pool.Valid() && |pool.queue| == pool.capacity
      ensures Valid() && this.pool == pool && conns == pool.queue && View() == Fresh(pool.queue)
    {
      this.pool := pool;
      permits, shut := pool.capacity, false;
      conns, acquiring, held, owing, closing, closed := pool.queue, 0, multiset{}, 0, 0, multiset{};
    }

    /** Take a permit, if there is one and the semaphore is open. */
    method TryPermit() returns (ok: bool)
      requires Valid()
      modifies this`permits, this`acquiring
      ensures Valid() && (ok <==> old(permits) > 0 && !old(shut))
      ensures if ok then Next(ConnectionFirst, old(View()), TakePermit, View()) else View() == old(View())
    {
      ok := permits > 0 && !shut;
      if ok {
        permits, acquiring := permits - 1, acquiring + 1;
      }
    }

    /** The pop after a permit. It finds a connection unless a close has come in between. */
    method PopGranted() returns (conn: Option<Conn>)
      requires Valid() && acquiring > 0
      modifies this`acquiring, this`held, pool`queue
      ensures Valid() && (!shut ==> conn.Some?)
      ensures conn.Some? ==> Next(ConnectionFirst, old(View()), PopConn, View()) && old(pool.queue) == [conn.value] + pool.queue
      ensures conn.None? ==> View() == old(View()) && pool.queue == [] && closed != multiset{}
    {
      ghost var before := View();
      PermitsAreCovered(conns, before);
      conn := pool.Pop();
      if conn.Some? {
        acquiring, held := acquiring - 1, held + multiset{conn.value};
        PopKeeps(ConnectionFirst, conns, before, View());
      }
    }

    /** `try_acquire`, undisturbed: a connection if and only if there is a permit and the pool is not closed.
        It is one that was idle, and it is nobody else's.
     */
    method TryAcquire() returns (conn: Option<Conn>)
      requires Valid()
      modifies this`permits, this`acquiring, this`held, pool`queue
      ensures Valid() && (conn.Some? <==> old(permits) > 0 && !old(shut))
      ensures conn.None? ==> View() == old(View())
      ensures conn.Some? ==>
        && old(pool.queue) == [conn.value] + pool.queue
        && View() == old(View()).(idle := pool.queue, permits := permits, held := old(held) + multiset{conn.value})
        && permits == old(permits) - 1
    {
      hide Inv;
      ghost var before := View();
      var ok := TryPermit();
      if !ok {
        return None;
      }
      ghost var mid := View();
      assert mid == before.(permits := permits, acquiring := acquiring);
      conn := PopGranted();
    }

    /** The first half of dropping a handle: the connection goes back, and always finds room. */
    method ReturnConnection(conn: Conn)
      requires Valid() && conn in held
      modifies this`held, this`owing, pool`queue
      ensures Valid() && Next(ConnectionFirst, old(View()), DropHandle(conn), View())
      ensures pool.queue == old(pool.queue) + [conn]
    {
      hide Conserved;
      ghost var before := View();
      ReturnKeeps(conns, before, conn);
      var ok := pool.Push(conn);
      held, owing := held - multiset{conn}, owing + 1;
      assert View() == Returned(before, conn);
    }

    /** The second half: the permit goes back. */
    method ReturnPermit(ghost conn: Conn)
      requires Valid() && owing > 0
      modifies this`permits, this`owing
      ensures Valid() && Next(ConnectionFirst, old(View()), FinishDrop(conn), View())
    {
      permits, owing := permits + 1, owing - 1;
    }

    /** Dropping a handle, undisturbed: exactly what acquiring its connection took comes back, after a close as
        well.
     */
    method Drop(conn: Conn)
      requires Valid() && conn in held
      modifies this`permits, this`held, this`owing, pool`queue
      ensures Valid()
      ensures View() == old(View()).(idle := old(pool.queue) + [conn], permits := old(permits) + 1, held := old(held) - multiset{conn})
    {
      ReturnConnection(conn);
      ReturnPermit(conn);
    }

    /** `close`: shut the semaphore, then close every idle connection. Those handed out are not touched. Undisturbed,
        this is a run that begins with `Shut`, ends with `CloseEnd` and closes one connection at each step between.
     */
    method Close() returns (results: seq<Conn>, ghost run: seq<AsyncPool>, ghost steps: seq<Step>)
      requires Valid()
      modifies this`shut, this`closed, pool`queue
      ensures Valid() && results == old(pool.queue)
      ensures View() == old(View()).(shut := true, idle := [], closed := old(closed) + multiset(results))
      ensures IsRun(ConnectionFirst, old(View()), run, steps) && run[|steps|] == View()
      ensures |steps| == |results| + 2 && steps[0] == Shut && steps[|steps| - 1] == CloseEnd && ClosePops(steps) == |results|
    {
      ghost var before := View();
      run, steps := CloseRun(before);
      shut := true;
      results := pool.Close();
      closed := closed + multiset(results);
    }
  }

  /** The steps of a close that nothing disturbs. */
  lemma CloseRun(s: AsyncPool) returns (run: seq<AsyncPool>, steps: seq<Step>)
    requires !s.panicked
    ensures IsRun(ConnectionFirst, s, run, steps)
    ensures run[|steps|] == s.(shut := true, idle := [], closed := s.closed + multiset(s.idle))
    ensures |steps| == |s.idle| + 2 && steps[0] == Shut && steps[|steps| - 1] == CloseEnd && ClosePops(steps) == |s.idle|
  {
    hide IsRun, ClosePops;
    var t := s.(shut := true, closing := s.closing + 1);
    var rest, more := Drain(t);
    run, steps := [s] + rest, [Shut] + more;
    StepThenRun(ConnectionFirst, s, Shut, t, rest, more);
    ClosePopsFirst(Shut, more);
  }

  lemma {:induction false} Drain(s: AsyncPool) returns (run: seq<AsyncPool>, steps: seq<Step>)
    requires !s.panicked && s.closing > 0
    ensures IsRun(ConnectionFirst, s, run, steps)
    ensures run[|steps|] == s.(closing := s.closing - 1, idle := [], closed := s.closed + multiset(s.idle))
    ensures |steps| == |s.idle| + 1 && steps[|steps| - 1] == CloseEnd && ClosePops(steps) == |s.idle|
    decreases |s.idle|, 1
  {
    if s.idle == [] {
      run, steps := [s, s.(closing := s.closing - 1)], [CloseEnd];
      assert s.closed + multiset(s.idle) == s.closed && [CloseEnd][..0] == [];
      assert Next(ConnectionFirst, run[0], steps[0], run[1]);
    } else {
      run, steps := DrainOne(s);
    }
  }

  lemma {:induction false} DrainOne(s: AsyncPool) returns (run: seq<AsyncPool>, steps: seq<Step>)
    requires !s.panicked && s.closing > 0 && s.idle != []
    ensures IsRun(ConnectionFirst, s, run, steps)
    ensures run[|steps|] == s.(closing := s.closing - 1, idle := [], closed := s.closed + multiset(s.idle))
    ensures |steps| == |s.idle| + 1 && steps[|steps| - 1] == CloseEnd && ClosePops(steps) == |s.idle|
    decreases |s.idle|, 0
  {
    hide IsRun, ClosePops;
    var t := s.(idle := s.idle[1..], closed := s.closed + multiset{s.idle[0]});
    var rest, more := Drain(t);
    run, steps := [s] + rest, [ClosePop] + more;
    StepThenRun(ConnectionFirst, s, ClosePop, t, rest, more);
    FirstIdle(s);
    assert t.closed + multiset(t.idle) == s.closed + multiset(s.idle);
    ClosePopsFirst(ClosePop, more);
  }

  lemma {:induction false} ClosePopsFirst(step: Step, steps: seq<Step>)
    ensures ClosePops([step] + steps) == ClosePops(steps) + if step == ClosePop then 1 else 0
  {
    if steps == [] {
      assert [step] + steps == [step] && [step][..0] == [];
    } else {
      var k := |steps| - 1;
      ClosePopsFirst(step, steps[..k]);
      assert ([step] + steps)[..|[step] + steps| - 1] == [step] + steps[..k];
    }
  }
}
