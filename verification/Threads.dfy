/**
 The hand-off of new connections between threads in lmserver/thread.c, as steps of a
 dispatcher and of workers that may interleave in any order.  A step is what happens under
 one lock, or one read or write of a notification pipe.  Thread 0 is the main thread: it
 dispatches and is also the worker of the first queue.
 */
module Threads {
  import opened Division

  /** A socket. */
  type Conn = nat

  /** The address of a queue item. */
  type Item = nat

  const ITEMS_PER_ALLOC := 64

  datatype Dispatcher =
    | Idle
    | Allocated(conn: Conn, first: Item)   // holds ITEMS_PER_ALLOC fresh items
    | HasItem(conn: Conn, item: Item)
    | Pushed(thread: nat)                  // queue extended, pipe not yet written

  datatype Worker =
    | Waiting
    | Notified                             // has read a byte from its pipe
    | Holding(item: Item)                  // taken from the queue
    | Served(item: Item)                   // connection set up, item not yet freed

  datatype Thread = Thread(queue: seq<Item>, pipe: nat, worker: Worker, handled: seq<Conn>)

  datatype State = State(
    dispatcher: Dispatcher,
    free: seq<Item>,
    made: nat,
    mem: map<Item, Conn>,
    threads: seq<Thread>,
    lastThread: int,
    dispatched: seq<Conn>)

  datatype Event =
    | Accept(conn: Conn) | Link | Push | Notify
    | Wake(w: nat) | Peek(w: nat) | Serve(w: nat) | Release(w: nat)

  function Init(n: nat): State {
    State(Idle, [], 0, map[], seq(n, _ => Thread([], 0, Waiting, [])), -1, [])
  }

  // ---------------------------------------------------------------- steps

  /** Thread 0 works on its queue only while it is not dispatching. */
  predicate Free(s: State, w: nat) {
    w < |s.threads| && (w == 0 ==> s.dispatcher.Idle?)
  }

  predicate Enabled(s: State, e: Event) {
    match e
    case Accept(_) => s.dispatcher.Idle? && |s.threads| > 0 && s.threads[0].worker.Waiting?
    case Link => s.dispatcher.Allocated?
    case Push => s.dispatcher.HasItem? && |s.threads| > 0
    case Notify => s.dispatcher.Pushed? && s.dispatcher.thread < |s.threads|
    case Wake(w) => Free(s, w) && s.threads[w].worker.Waiting? && s.threads[w].pipe > 0
    case Peek(w) => Free(s, w) && s.threads[w].worker.Notified?
    case Serve(w) => Free(s, w) && s.threads[w].worker.Holding? && s.threads[w].worker.item in s.mem
    case Release(w) => Free(s, w) && s.threads[w].worker.Served?
  }

  function Range(from: nat, n: nat): (r: seq<Item>)
    ensures |r| == n && forall k {:trigger r[k]} :: 0 <= k < n ==> r[k] == from + k
  {
    seq(n, k requires k >= 0 => from + k)
  }

  /** cqi_new, first half: the head of the free list, or a fresh batch. */
  function AcceptStep(s: State, conn: Conn): State {
    if s.free != [] then s.(dispatcher := HasItem(conn, s.free[0]), free := s.free[1..])
    else s.(dispatcher := Allocated(conn, s.made), made := s.made + ITEMS_PER_ALLOC)
  }

  /** cqi_new, second half: all of the batch but its first item joins the free list. */
  function LinkStep(s: State): State
    requires s.dispatcher.Allocated?
  {
    var first := s.dispatcher.first;
    s.(dispatcher := HasItem(s.dispatcher.conn, first), free := Range(first + 1, ITEMS_PER_ALLOC - 1) + s.free)
  }

  /** Fills the item in and puts it at the end of the next thread's queue. */
  function PushStep(s: State): State
    requires s.dispatcher.HasItem? && |s.threads| > 0
  {
    var conn, item := s.dispatcher.conn, s.dispatcher.item;
    var thread := (s.lastThread + 1) % |s.threads|;
    var t := s.threads[thread];
    s.(dispatcher := Pushed(thread), lastThread := thread, mem := s.mem[item := conn],
       threads := s.threads[thread := t.(queue := t.queue + [item])], dispatched := s.dispatched + [conn])
  }

  function Step(s: State, e: Event): State
    requires Enabled(s, e)
  {
    match e
    case Accept(conn) => AcceptStep(s, conn)
    case Link => LinkStep(s)
    case Push => PushStep(s)
    case Notify =>
      var t := s.threads[s.dispatcher.thread];
      s.(dispatcher := Idle, threads := s.threads[s.dispatcher.thread := t.(pipe := t.pipe + 1)])
    case Wake(w) => s.(threads := s.threads[w := s.threads[w].(pipe := s.threads[w].pipe - 1, worker := Notified)])
    case Peek(w) => s.(threads := s.threads[w := PeekThread(s.threads[w])])
    case Serve(w) =>
      var t := s.threads[w];
      s.(threads := s.threads[w := t.(worker := Served(t.worker.item), handled := t.handled + [s.mem[t.worker.item]])])
    case Release(w) =>
      var t := s.threads[w];
      s.(threads := s.threads[w := t.(worker := Waiting)], free := [t.worker.item] + s.free)
  }

  function PeekThread(t: Thread): Thread {
    if t.queue == [] then t.(worker := Waiting)
    else t.(worker := Holding(t.queue[0]), queue := t.queue[1..])
  }

  // ---------------------------------------------------------------- what is kept

  /** Which dispatched connections go to thread `w` of `n`: every n-th. */
  function Assigned(dispatched: seq<Conn>, n: nat, w: nat): seq<Conn>
    requires w < n
  {
    if dispatched == [] then []
    else
      var k := |dispatched| - 1;
      Assigned(dispatched[..k], n, w) + if k % n == w then [dispatched[k]] else []
  }

  function Contents(queue: seq<Item>, mem: map<Item, Conn>): seq<Conn>
    requires forall k {:trigger queue[k]} :: 0 <= k < |queue| ==> queue[k] in mem
  {
    if queue == [] then [] else [mem[queue[0]]] + Contents(queue[1..], mem)
  }

  ghost predicate InMem(t: Thread, mem: map<Item, Conn>) {
    && (forall k {:trigger t.queue[k]} :: 0 <= k < |t.queue| ==> t.queue[k] in mem)
    && (t.worker.Holding? ==> t.worker.item in mem)
  }

  /** What the thread has set up, is setting up, and still will, in that order. */
  function Line(t: Thread, mem: map<Item, Conn>): seq<Conn>
    requires InMem(t, mem)
  {
    t.handled + (if t.worker.Holding? then [mem[t.worker.item]] else []) + Contents(t.queue, mem)
  }

  /** Every queued item has its byte: in the pipe, just read, or about to be written. */
  predicate Bytes(s: State, w: nat)
    requires w < |s.threads|
  {
    var t := s.threads[w];
    |t.queue| == t.pipe + (if t.worker.Notified? then 1 else 0) + (if s.dispatcher == Pushed(w) then 1 else 0)
  }

  ghost predicate InOrder(s: State, w: nat)
    requires w < |s.threads|
  {
    InMem(s.threads[w], s.mem) && Line(s.threads[w], s.mem) == Assigned(s.dispatched, |s.threads|, w)
  }

  function HeldBy(t: Thread, x: Item): nat {
    multiset(t.queue)[x] + if (t.worker.Holding? || t.worker.Served?) && t.worker.item == x then 1 else 0
  }

  function HeldByAll(threads: seq<Thread>, x: Item): nat {
    if threads == [] then 0
    else HeldByAll(threads[..|threads| - 1], x) + HeldBy(threads[|threads| - 1], x)
  }

  function HeldByDispatcher(d: Dispatcher, x: Item): nat {
    match d
    case Allocated(_, first) => if first <= x < first + ITEMS_PER_ALLOC then 1 else 0
    case HasItem(_, item) => if item == x then 1 else 0
    case _ => 0
  }

  /** In how many lists, hands and batches is the item? */
  function Places(s: State, x: Item): nat {
    multiset(s.free)[x] + HeldByDispatcher(s.dispatcher, x) + HeldByAll(s.threads, x)
  }

  predicate OnePlace(s: State, x: Item) {
    Places(s, x) == if x < s.made then 1 else 0
  }

  ghost predicate Inv(s: State) {
    && |s.threads| > 0
    && s.lastThread == (if s.dispatched == [] then -1 else (|s.dispatched| - 1) % |s.threads|)
    && (s.dispatcher.Pushed? ==> s.dispatcher.thread < |s.threads|)
    && (s.dispatcher.Allocated? || s.dispatcher.HasItem? ==> s.threads[0].worker.Waiting?)
    && (forall w: nat {:trigger Bytes(s, w)} :: w < |s.threads| ==> Bytes(s, w))
    && (forall w: nat {:trigger InOrder(s, w)} :: w < |s.threads| ==> InOrder(s, w))
    && (forall x: Item {:trigger OnePlace(s, x)} :: OnePlace(s, x))
  }

  lemma {:induction false} HeldUpdate(threads: seq<Thread>, w: nat, t: Thread, x: Item)
    requires w < |threads|
    ensures HeldByAll(threads[w := t], x) == HeldByAll(threads, x) - HeldBy(threads[w], x) + HeldBy(t, x)
    ensures HeldBy(threads[w], x) <= HeldByAll(threads, x)
    decreases |threads|
  {
    var k := |threads| - 1;
    if w < k {
      HeldUpdate(threads[..k], w, t, x);
      assert threads[w := t][..k] == threads[..k][w := t];
    } else {
      assert threads[w := t][..k] == threads[..k];
    }
  }

  lemma {:induction false} ContentsAppend(queue: seq<Item>, item: Item, mem: map<Item, Conn>)
    requires item in mem && forall k {:trigger queue[k]} :: 0 <= k < |queue| ==> queue[k] in mem
    ensures Contents(queue + [item], mem) == Contents(queue, mem) + [mem[item]]
    decreases |queue|
  {
    if queue != [] {
      assert (queue + [item])[1..] == queue[1..] + [item];
      ContentsAppend(queue[1..], item, mem);
    }
  }

  /** Filling in an item that is not queued changes no queue's contents. */
  lemma {:induction false} ContentsSame(queue: seq<Item>, mem: map<Item, Conn>, item: Item, conn: Conn)
    requires forall k {:trigger queue[k]} :: 0 <= k < |queue| ==> queue[k] in mem && queue[k] != item
    ensures Contents(queue, mem[item := conn]) == Contents(queue, mem)
    decreases |queue|
  {
    if queue != [] {
      ContentsSame(queue[1..], mem, item, conn);
    }
  }

  // ---------------------------------------------------------------- every step keeps it

  lemma {:induction false} AcceptKeeps(s: State, conn: Conn)
    requires Inv(s) && Enabled(s, Accept(conn))
    ensures Inv(Step(s, Accept(conn)))
  {
    var s' := Step(s, Accept(conn));
    forall w: nat | w < |s.threads|
      ensures Bytes(s', w) && InOrder(s', w)
    {
      assert Bytes(s, w) && InOrder(s, w);
    }
    forall x: Item
      ensures OnePlace(s', x)
    {
      assert OnePlace(s, x);
      if s.free != [] {
        assert s.free == [s.free[0]] + s.free[1..];
      }
    }
  }

  lemma {:induction false} RangeCount(from: nat, n: nat, x: Item)
    ensures multiset(Range(from, n))[x] == if from <= x < from + n then 1 else 0
    decreases n
  {
    if n > 0 {
      RangeCount(from, n - 1, x);
      assert Range(from, n) == Range(from, n - 1) + [from + (n - 1)];
    }
  }

  lemma {:induction false} LinkKeeps(s: State)
    requires Inv(s) && Enabled(s, Link)
    ensures Inv(Step(s, Link))
  {
    var s' := Step(s, Link);
    forall w: nat | w < |s.threads|
      ensures Bytes(s', w) && InOrder(s', w)
    {
      assert Bytes(s, w) && InOrder(s, w);
    }
    forall x: Item
      ensures OnePlace(s', x)
    {
      assert OnePlace(s, x);
      RangeCount(s.dispatcher.first + 1, ITEMS_PER_ALLOC - 1, x);
    }
  }

  lemma {:induction false} LineSame(t: Thread, mem: map<Item, Conn>, item: Item, conn: Conn)
    requires InMem(t, mem) && HeldBy(t, item) == 0
    ensures InMem(t, mem[item := conn]) && Line(t, mem[item := conn]) == Line(t, mem)
  {
    forall k | 0 <= k < |t.queue|
      ensures t.queue[k] != item
    {
      assert t.queue[k] in multiset(t.queue);
    }
    ContentsSame(t.queue, mem, item, conn);
  }

  lemma {:induction false} LineAppend(t: Thread, mem: map<Item, Conn>, item: Item)
    requires InMem(t, mem) && item in mem
    ensures InMem(t.(queue := t.queue + [item]), mem)
    ensures Line(t.(queue := t.queue + [item]), mem) == Line(t, mem) + [mem[item]]
  {
    ContentsAppend(t.queue, item, mem);
  }

  /** What the dispatcher holds is in no thread's hands. */
  lemma {:induction false} NotHeld(s: State, w: nat)
    requires Inv(s) && s.dispatcher.HasItem? && w < |s.threads|
    ensures HeldBy(s.threads[w], s.dispatcher.item) == 0
  {
    assert OnePlace(s, s.dispatcher.item);
    HeldUpdate(s.threads, w, s.threads[w], s.dispatcher.item);
  }

  lemma {:induction false} PushKeepsOrder(s: State, w: nat)
    requires Inv(s) && Enabled(s, Push) && w < |s.threads|
    ensures InOrder(Step(s, Push), w)
  {
    var s', conn, item := PushStep(s), s.dispatcher.conn, s.dispatcher.item;
    var t := s.threads[w];
    assert InOrder(s, w);
    NotHeld(s, w);
    LineSame(t, s.mem, item, conn);
    LineAppend(t, s'.mem, item);
    assert s'.dispatched[..|s.dispatched|] == s.dispatched;
    NextThread(s.dispatched, s.lastThread, |s.threads|);
  }

  lemma {:induction false} NextThread(dispatched: seq<Conn>, lastThread: int, n: nat)
    requires n > 0 && lastThread == if dispatched == [] then -1 else (|dispatched| - 1) % n
    ensures (lastThread + 1) % n == |dispatched| % n
  {
    if dispatched != [] {
      Quotient(lastThread, n, 0, lastThread);
      ModPlus(|dispatched| - 1, n, 1);
      ModPlus(lastThread, n, 1);
    }
  }

  lemma {:induction false} PushKeeps(s: State)
    requires Inv(s) && Enabled(s, Push)
    ensures Inv(Step(s, Push))
  {
    var s' := Step(s, Push);
    NextThread(s.dispatched, s.lastThread, |s.threads|);
    forall w: nat | w < |s.threads|
      ensures Bytes(s', w) && InOrder(s', w)
    {
      assert Bytes(s, w);
      PushKeepsOrder(s, w);
    }
    PushKeepsPlaces(s);
  }

  lemma {:induction false} PushKeepsPlaces(s: State)
    requires Inv(s) && Enabled(s, Push)
    ensures forall x: Item {:trigger OnePlace(PushStep(s), x)} :: OnePlace(PushStep(s), x)
  {
    forall x: Item
      ensures OnePlace(PushStep(s), x)
    {
      assert OnePlace(s, x);
      QueuedInOnePlace(s, PushStep(s), (s.lastThread + 1) % |s.threads|, x);
    }
  }

  /** The dispatcher hands its item over to the end of one queue. */
  lemma {:induction false} QueuedInOnePlace(s: State, s': State, w: nat, x: Item)
    requires s.dispatcher.HasItem? && s'.dispatcher.Pushed? && w < |s.threads| && OnePlace(s, x)
    requires s'.free == s.free && s'.made == s.made
    requires s'.threads == s.threads[w := s.threads[w].(queue := s.threads[w].queue + [s.dispatcher.item])]
    ensures OnePlace(s', x)
  {
    HeldUpdate(s.threads, w, s'.threads[w], x);
  }

  /** Steps that change one thread, and perhaps free its item. */
  lemma {:induction false} ThreadStepKeeps(s: State, s': State, w: nat)
    requires Inv(s) && w < |s.threads| == |s'.threads| && s'.threads == s.threads[w := s'.threads[w]]
    requires s' == s.(threads := s'.threads, free := s'.free, dispatcher := s'.dispatcher)
    requires s'.dispatcher == s.dispatcher || (s.dispatcher == Pushed(w) && s'.dispatcher == Idle)
    requires s.dispatcher.Allocated? || s.dispatcher.HasItem? ==> w != 0
    requires Bytes(s', w) && InOrder(s', w)
    requires forall x {:trigger HeldBy(s.threads[w], x)} ::
               multiset(s'.free)[x] + HeldBy(s'.threads[w], x) == multiset(s.free)[x] + HeldBy(s.threads[w], x)
    ensures Inv(s')
  {
    forall v: nat | v < |s.threads| && v != w
      ensures Bytes(s', v) && InOrder(s', v)
    {
      assert Bytes(s, v) && InOrder(s, v);
    }
    forall x: Item
      ensures OnePlace(s', x)
    {
      assert OnePlace(s, x);
      HeldUpdate(s.threads, w, s'.threads[w], x);
    }
  }

  lemma {:induction false} PeekKeeps(s: State, w: nat)
    requires Inv(s) && Enabled(s, Peek(w))
    ensures Inv(Step(s, Peek(w)))
  {
    var s', t := Step(s, Peek(w)), s.threads[w];
    assert Bytes(s, w) && InOrder(s, w);
    assert t.queue == [t.queue[0]] + t.queue[1..];
    assert t.handled + [] + Contents(t.queue, s.mem) == t.handled + [s.mem[t.queue[0]]] + Contents(t.queue[1..], s.mem);
    ThreadStepKeeps(s, s', w);
  }

  lemma {:induction false} ServeKeeps(s: State, w: nat)
    requires Inv(s) && Enabled(s, Serve(w))
    ensures Inv(Step(s, Serve(w)))
  {
    assert Bytes(s, w) && InOrder(s, w);
    ThreadStepKeeps(s, Step(s, Serve(w)), w);
  }

  lemma {:induction false} WorkerKeeps(s: State, w: nat, e: Event)
    requires Inv(s) && Enabled(s, e) && ((e == Notify && w == s.dispatcher.thread) || e in [Wake(w), Release(w)])
    ensures Inv(Step(s, e))
  {
    assert Bytes(s, w) && InOrder(s, w);
    ThreadStepKeeps(s, Step(s, e), w);
  }

  lemma {:induction false} StepKeeps(s: State, e: Event)
    requires Inv(s) && Enabled(s, e)
    ensures Inv(Step(s, e)) && |Step(s, e).threads| == |s.threads|
  {
    match e
    case Accept(conn) => AcceptKeeps(s, conn);
    case Link => LinkKeeps(s);
    case Push => PushKeeps(s);
    case Notify => WorkerKeeps(s, s.dispatcher.thread, e);
    case Wake(w) => WorkerKeeps(s, w, e);
    case Peek(w) => PeekKeeps(s, w);
    case Serve(w) => ServeKeeps(s, w);
    case Release(w) => WorkerKeeps(s, w, e);
  }

  // ---------------------------------------------------------------- every run

  predicate Runs(s: State, es: seq<Event>)
    decreases |es|
  {
    es == [] || (Enabled(s, es[0]) && Runs(Step(s, es[0]), es[1..]))
  }

  function Run(s: State, es: seq<Event>): State
    requires Runs(s, es)
    decreases |es|
  {
    if es == [] then s else Run(Step(s, es[0]), es[1..])
  }

  function Accepted(es: seq<Event>): seq<Conn> {
    if es == [] then [] else (if es[0].Accept? then [es[0].conn] else []) + Accepted(es[1..])
  }

  /** The connection the dispatcher is working on. */
  function Pending(d: Dispatcher): seq<Conn> {
    match d
    case Allocated(conn, _) => [conn]
    case HasItem(conn, _) => [conn]
    case _ => []
  }

  /** The connections taken over so far. */
  function Seen(s: State): seq<Conn> {
    s.dispatched + Pending(s.dispatcher)
  }

  lemma {:induction false} InitInv(n: nat)
    requires n > 0
    ensures Inv(Init(n))
  {
    var s := Init(n);
    forall x: Item
      ensures OnePlace(s, x)
    {
      NothingHeld(s.threads, x);
    }
  }

  lemma {:induction false} NothingHeld(threads: seq<Thread>, x: Item)
    requires forall w {:trigger threads[w]} :: 0 <= w < |threads| ==>
               threads[w].queue == [] && threads[w].worker.Waiting?
    ensures HeldByAll(threads, x) == 0
    decreases |threads|
  {
    if threads != [] {
      NothingHeld(threads[..|threads| - 1], x);
    }
  }

  lemma {:induction false} RunKeeps(s: State, es: seq<Event>)
    requires Inv(s) && Runs(s, es)
    ensures Inv(Run(s, es)) && |Run(s, es).threads| == |s.threads|
    ensures Seen(s) + Accepted(es) == Seen(Run(s, es))
    decreases |es|
  {
    if es != [] {
      StepKeeps(s, es[0]);
      StepSees(s, es[0]);
      RunKeeps(Step(s, es[0]), es[1..]);
    }
  }

  lemma {:induction false} StepSees(s: State, e: Event)
    requires Enabled(s, e)
    ensures Seen(Step(s, e)) == Seen(s) + if e.Accept? then [e.conn] else []
  {
  }

  predicate Quiet(s: State) {
    s.dispatcher.Idle? && forall w {:trigger s.threads[w]} :: 0 <= w < |s.threads| ==>
        s.threads[w].queue == [] && s.threads[w].worker.Waiting?
  }

  ghost predicate OwnInOrder(s: State, w: nat)
    requires w < |s.threads|
  {
    s.threads[w].handled <= Assigned(s.dispatched, |s.threads|, w)
  }

  ghost predicate Safe(s: State, n: nat) {
    && |s.threads| == n
    && (forall w: nat {:trigger OwnInOrder(s, w)} :: w < n ==> OwnInOrder(s, w))
    && (forall w: nat {:trigger s.threads[w]} :: w < n && s.threads[w].worker.Notified? ==> s.threads[w].queue != [])
    && (forall x: Item {:trigger Places(s, x)} :: Places(s, x) <= 1)
    && (Quiet(s) ==> forall w: nat {:trigger s.threads[w]} :: w < n ==>
         s.threads[w].handled == Assigned(s.dispatched, n, w))
  }

  lemma {:induction false} InvIsSafe(s: State)
    requires Inv(s)
    ensures Safe(s, |s.threads|)
  {
    forall w: nat | w < |s.threads|
      ensures OwnInOrder(s, w) && (s.threads[w].worker.Notified? ==> s.threads[w].queue != [])
      ensures Quiet(s) ==> s.threads[w].handled == Assigned(s.dispatched, |s.threads|, w)
    {
      assert Bytes(s, w) && InOrder(s, w);
    }
    forall x: Item
      ensures Places(s, x) <= 1
    {
      assert OnePlace(s, x);
    }
  }

  /**
   In every interleaving: each thread sets up the connections assigned to it in the order of
   their arrival, none twice, and all of them once things are quiet; a notified worker finds
   something in its queue; and no item is in two places.
   */
  lemma {:induction false} EveryRun(n: nat, es: seq<Event>)
    requires n > 0 && Runs(Init(n), es)
    ensures Safe(Run(Init(n), es), n)
    ensures Seen(Run(Init(n), es)) == Accepted(es)
  {
    InitInv(n);
    RunKeeps(Init(n), es);
    InvIsSafe(Run(Init(n), es));
    assert Seen(Init(n)) + Accepted(es) == Accepted(es);
  }

  /** So an item is in one list at one index at most. */
  lemma {:induction false} QueuesAreDisjoint(s: State, v: nat, i: nat, w: nat, j: nat)
    requires Inv(s) && v < |s.threads| && w < |s.threads| && i < |s.threads[v].queue| && j < |s.threads[w].queue|
    requires s.threads[v].queue[i] == s.threads[w].queue[j]
    ensures v == w && i == j && s.threads[v].queue[i] !in s.free
  {
    var x, q := s.threads[v].queue[i], s.threads[v].queue;
    assert OnePlace(s, x) && x in multiset(q) && x in multiset(s.threads[w].queue);
    HeldUpdate(s.threads, v, Thread([], 0, Waiting, []), x);
    if v != w {
      HeldUpdate(s.threads[v := Thread([], 0, Waiting, [])], w, s.threads[w], x);
    } else if i != j {
      TwiceIsTwo(q, i, j);
    }
    assert x in s.free ==> x in multiset(s.free);
  }

  lemma {:induction false} TwiceIsTwo(q: seq<Item>, i: nat, j: nat)
    requires i < |q| && j < |q| && i != j && q[i] == q[j]
    ensures multiset(q)[q[i]] >= 2
  {
    var a, b := if i < j then i else j, if i < j then j else i;
    assert q == q[..a] + [q[a]] + q[a + 1..b] + [q[b]] + q[b + 1..];
  }

  /** Any `n` consecutive dispatches give each thread one connection. */
  lemma {:induction false} RoundRobin(dispatched: seq<Conn>, n: nat, k: nat, w: nat)
    requires w < n && k + n <= |dispatched|
    ensures exists i: nat {:trigger dispatched[i]} ::
              && k <= i < k + n && i % n == w
              && Assigned(dispatched[..k + n], n, w) == Assigned(dispatched[..k], n, w) + [dispatched[i]]
  {
    var i := k + if k % n <= w then w - k % n else n - k % n + w;
    forall j {:trigger j % n} | k <= j < k + n
      ensures j % n == w <==> j == i
    {
      ModPlus(k, n, j - k);
    }
    NoneAssigned(dispatched, n, w, k, i);
    assert dispatched[..i + 1][..i] == dispatched[..i];
    NoneAssigned(dispatched, n, w, i + 1, k + n);
    assert dispatched[i] == dispatched[i];
  }

  lemma {:induction false} NoneAssigned(dispatched: seq<Conn>, n: nat, w: nat, k: nat, i: nat)
    requires w < n && k <= i <= |dispatched| && forall j {:trigger j % n} :: k <= j < i ==> j % n != w
    ensures Assigned(dispatched[..i], n, w) == Assigned(dispatched[..k], n, w)
    decreases i - k
  {
    if k < i {
      assert dispatched[..i][..i - 1] == dispatched[..i - 1];
      assert (i - 1) % n != w;
      NoneAssigned(dispatched, n, w, k, i - 1);
    }
  }

  // ---------------------------------------------------------------- nothing gets stuck

  /** How many steps are still needed. */
  function Rank(s: State): nat {
    AllWork(s.threads) + match s.dispatcher
                         case Idle => 0
                         case Allocated(_, _) => 7
                         case HasItem(_, _) => 6
                         case Pushed(_) => 2
  }

  function Work(t: Thread): nat {
    3 * |t.queue| + t.pipe + match t.worker
                             case Holding(_) => 2
                             case Served(_) => 1
                             case _ => 0
  }

  function AllWork(threads: seq<Thread>): nat {
    if threads == [] then 0 else AllWork(threads[..|threads| - 1]) + Work(threads[|threads| - 1])
  }

  lemma {:induction false} WorkUpdate(threads: seq<Thread>, w: nat, t: Thread)
    requires w < |threads|
    ensures AllWork(threads[w := t]) == AllWork(threads) - Work(threads[w]) + Work(t)
    ensures Work(threads[w]) <= AllWork(threads)
    decreases |threads|
  {
    var k := |threads| - 1;
    if w < k {
      WorkUpdate(threads[..k], w, t);
      assert threads[w := t][..k] == threads[..k][w := t];
    } else {
      assert threads[w := t][..k] == threads[..k];
    }
  }

  lemma {:induction false} StepRank(s: State, e: Event)
    requires Inv(s) && Enabled(s, e)
    ensures e.Accept? ==> Rank(Step(s, e)) <= Rank(s) + 7
    ensures !e.Accept? ==> Rank(Step(s, e)) + 1 == Rank(s)
  {
    match e
    case Accept(_) =>
    case Link =>
    case Push =>
      var thread := PushStep(s).lastThread;
      WorkUpdate(s.threads, thread, PushStep(s).threads[thread]);
    case Notify => WorkUpdate(s.threads, s.dispatcher.thread, Step(s, e).threads[s.dispatcher.thread]);
    case Wake(w) => WorkerRank(s, e, w);
    case Peek(w) => WorkerRank(s, e, w);
    case Serve(w) => WorkerRank(s, e, w);
    case Release(w) => WorkerRank(s, e, w);
  }

  lemma {:induction false} WorkerRank(s: State, e: Event, w: nat)
    requires Inv(s) && Enabled(s, e) && (e == Wake(w) || e == Peek(w) || e == Serve(w) || e == Release(w))
    ensures Rank(Step(s, e)) + 1 == Rank(s)
  {
    assert Bytes(s, w);
    WorkUpdate(s.threads, w, Step(s, e).threads[w]);
  }

  /** A run has at most eight steps for each connection it accepts. */
  lemma {:induction false} RunsAreShort(s: State, es: seq<Event>)
    requires Inv(s) && Runs(s, es)
    ensures |es| + Rank(Run(s, es)) <= Rank(s) + 8 * |Accepted(es)|
    decreases |es|
  {
    if es != [] {
      StepRank(s, es[0]);
      StepKeeps(s, es[0]);
      RunsAreShort(Step(s, es[0]), es[1..]);
    }
  }

  /** As long as anything is left to do, someone can do it; otherwise the next connection can be accepted. */
  lemma {:induction false} NeverStuck(s: State, conn: Conn) returns (e: Event)
    requires Inv(s) && s.threads != []
    ensures Enabled(s, e) && if Quiet(s) then e == Accept(conn) else !e.Accept?
  {
    if Quiet(s) {
      return Accept(conn);
    }
    match s.dispatcher
    case Allocated(_, _) => e := Link;
    case HasItem(_, _) => e := Push;
    case Pushed(_) => e := Notify;
    case Idle =>
      var w :| 0 <= w < |s.threads| && !(s.threads[w].queue == [] && s.threads[w].worker.Waiting?);
      assert Bytes(s, w) && InOrder(s, w);
      match s.threads[w].worker
      case Waiting => e := Wake(w);
      case Notified => e := Peek(w);
      case Holding(_) => e := Serve(w);
      case Served(_) => e := Release(w);
  }
}
