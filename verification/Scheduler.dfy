/** Per-core run queues.  The thread at the front runs; behind it the queue is sorted by priority, while the
    front itself may be out of order until it acts on a pending yield. */
module Schedulers {

  type ThreadId = nat

  const CoreCount: nat := 4

  /** Numerically lower priorities are scheduled first. */
  datatype Thread = Thread(priority: int, coreId: nat, pendingYield: bool, forceYield: bool, yieldPending: bool)

  type Threads = map<ThreadId, Thread>

  ghost predicate Known(q: seq<ThreadId>, m: Threads) {
    forall i :: 0 <= i < |q| ==> q[i] in m
  }

  ghost predicate Distinct(q: seq<ThreadId>) {
    forall i, j :: 0 <= i < j < |q| ==> q[i] != q[j]
  }

  /** Sorted from position from on. */
  ghost predicate SortedFrom(q: seq<ThreadId>, m: Threads, from: nat)
    requires Known(q, m)
  {
    forall i, j :: from <= i < j < |q| ==> m[q[i]].priority <= m[q[j]].priority
  }

  /** The front may be beaten by its successor only while a yield is pending for it. */
  ghost predicate FrontYields(q: seq<ThreadId>, m: Threads)
    requires Known(q, m)
  {
    |q| >= 2 && m[q[1]].priority < m[q[0]].priority ==> m[q[0]].pendingYield
  }

  ghost predicate Good(q: seq<ThreadId>, m: Threads, core: nat) {
    && Known(q, m) && Distinct(q) && SortedFrom(q, m, 1) && FrontYields(q, m)
    && forall i :: 0 <= i < |q| ==> m[q[i]].coreId == core
  }

  /** A thread of this priority belongs at position r: behind the front it follows every thread of its own or
      a better priority and precedes every worse one. */
  ghost predicate Fits(q: seq<ThreadId>, m: Threads, priority: int, r: nat)
    requires Known(q, m)
  {
    && r <= |q|
    && (forall i :: 1 <= i < r ==> m[q[i]].priority <= priority)
    && (forall i :: 1 <= i < |q| && r <= i ==> priority < m[q[i]].priority)
    && (r == 0 && q != [] ==> priority < m[q[0]].priority)
    && (r == 1 ==> m[q[0]].priority <= priority)
  }

  /** The thread would run ahead of everything in the queue. */
  ghost predicate Beats(q: seq<ThreadId>, m: Threads, priority: int)
    requires Known(q, m)
  {
    && (q != [] ==> priority < m[q[0]].priority)
    && (|q| >= 2 ==> priority < m[q[1]].priority)
  }

  /** std::upper_bound over a queue whose front may be out of order.  Whenever there is a second thread, the
      search looks at it before it looks at the first. */
  method UpperBound(q: seq<ThreadId>, m: Threads, priority: int, ghost core: nat) returns (r: nat)
    requires Good(q, m, core)
    ensures Fits(q, m, priority, r)
    ensures r == 0 <==> Beats(q, m, priority)
  {
    r := 0;
    var len := |q|;
    while len > 0
      invariant 0 <= len && r + len <= |q|
      invariant r > 0 ==> m[q[r - 1]].priority <= priority
      invariant r + len < |q| ==> priority < m[q[r + len]].priority
      invariant r == 0 && len <= 1 && |q| >= 2 ==> priority < m[q[1]].priority
    {
      var half := len / 2;
      if priority < m[q[r + half]].priority {
        len := half;
      } else {
        r, len := r + half + 1, len - half - 1;
      }
    }
  }

  function InsertAt(q: seq<ThreadId>, r: nat, t: ThreadId): seq<ThreadId>
    requires r <= |q|
  {
    q[..r] + [t] + q[r..]
  }

  function EraseAt(q: seq<ThreadId>, r: nat): seq<ThreadId>
    requires r < |q|
  {
    q[..r] + q[r + 1..]
  }

  /** Splicing the front of the list before position r. */
  function MoveFront(q: seq<ThreadId>, r: nat): seq<ThreadId>
    requires 0 < r <= |q|
  {
    q[1..r] + [q[0]] + q[r..]
  }

  lemma InsertAtIndex(q: seq<ThreadId>, r: nat, t: ThreadId, i: nat)
    requires r <= |q| && i <= |q|
    ensures |InsertAt(q, r, t)| == |q| + 1
    ensures InsertAt(q, r, t)[i] == if i < r then q[i] else if i == r then t else q[i - 1]
  {
  }

  /** Inserting behind the front where the thread fits keeps the queue good. */
  lemma InsertBehindGood(q: seq<ThreadId>, m: Threads, core: nat, t: ThreadId, r: nat)
    requires Good(q, m, core) && t in m && t !in q && m[t].coreId == core
    requires 0 < r && Fits(q, m, m[t].priority, r)
    ensures Good(InsertAt(q, r, t), m, core)
  {
    var n := InsertAt(q, r, t);
    forall i | 0 <= i < |n| ensures n[i] in m && m[n[i]].coreId == core {
      InsertAtIndex(q, r, t, i);
    }
    forall i, j | 0 <= i < j < |n| ensures n[i] != n[j] {
      InsertAtIndex(q, r, t, i);
      InsertAtIndex(q, r, t, j);
    }
    forall i, j | 1 <= i < j < |n| ensures m[n[i]].priority <= m[n[j]].priority {
      InsertAtIndex(q, r, t, i);
      InsertAtIndex(q, r, t, j);
    }
    InsertAtIndex(q, r, t, 0);
    InsertAtIndex(q, r, t, 1);
  }

  lemma MoveFrontIndex(q: seq<ThreadId>, r: nat, i: nat)
    requires 0 < r <= |q| && i < |q|
    ensures |MoveFront(q, r)| == |q|
    ensures MoveFront(q, r)[i] == if i < r - 1 then q[i + 1] else if i == r - 1 then q[0] else q[i]
  {
  }

  lemma MoveFrontMembers(q: seq<ThreadId>, r: nat)
    requires 0 < r <= |q|
    ensures forall t :: t in MoveFront(q, r) <==> t in q
  {
    assert q == [q[0]] + q[1..r] + q[r..];
  }

  /** Moving the front where it fits sorts the whole queue. */
  lemma MoveFrontSorts(q: seq<ThreadId>, m: Threads, core: nat, r: nat)
    requires Good(q, m, core) && q != [] && Fits(q, m, m[q[0]].priority, r)
    ensures 0 < r && Good(MoveFront(q, r), m, core) && SortedFrom(MoveFront(q, r), m, 0)
    ensures forall t :: t in MoveFront(q, r) <==> t in q
  {
    MoveFrontMembers(q, r);
    var n := MoveFront(q, r);
    forall i | 0 <= i < |n| ensures n[i] in m && m[n[i]].coreId == core {
      MoveFrontIndex(q, r, i);
    }
    forall i, j | 0 <= i < j < |n| ensures n[i] != n[j] && m[n[i]].priority <= m[n[j]].priority {
      MoveFrontIndex(q, r, i);
      MoveFrontIndex(q, r, j);
    }
  }

  /** Putting a thread that beats the whole queue in front. */
  lemma PushFrontGood(q: seq<ThreadId>, m: Threads, core: nat, t: ThreadId)
    requires Good(q, m, core) && SortedFrom(q, m, 0) && t in m && t !in q && m[t].coreId == core
    requires q != [] ==> m[t].priority < m[q[0]].priority
    ensures Good([t] + q, m, core)
  {
  }

  lemma EraseAtIndex(q: seq<ThreadId>, r: nat, i: nat)
    requires r < |q| && i < |q| - 1
    ensures |EraseAt(q, r)| == |q| - 1
    ensures EraseAt(q, r)[i] == if i < r then q[i] else q[i + 1]
  {
  }

  lemma EraseMembers(q: seq<ThreadId>, r: nat)
    requires r < |q| && Distinct(q)
    ensures forall t :: t in EraseAt(q, r) <==> t in q && t != q[r]
  {
    assert q == q[..r] + [q[r]] + q[r + 1..];
  }

  lemma EraseGood(q: seq<ThreadId>, m: Threads, core: nat, r: nat)
    requires Good(q, m, core) && r < |q|
    ensures Good(EraseAt(q, r), m, core)
    ensures forall t :: t in EraseAt(q, r) <==> t in q && t != q[r]
    ensures r == 0 ==> SortedFrom(EraseAt(q, r), m, 0)
  {
    EraseMembers(q, r);
    var n := EraseAt(q, r);
    forall i | 0 <= i < |n| ensures n[i] in m && m[n[i]].coreId == core {
      EraseAtIndex(q, r, i);
    }
    forall i, j | 0 <= i < j < |n|
      ensures n[i] != n[j] && (1 <= i || r == 0 ==> m[n[i]].priority <= m[n[j]].priority)
    {
      EraseAtIndex(q, r, i);
      EraseAtIndex(q, r, j);
    }
    if |n| >= 2 {
      EraseAtIndex(q, r, 0);
      EraseAtIndex(q, r, 1);
    }
  }

  /** Changes to flags keep a queue good as long as the front does not lose its pending yield. */
  lemma FlagsKeepGood(q: seq<ThreadId>, m: Threads, m': Threads, core: nat)
    requires Good(q, m, core)
    requires forall t :: t in q ==> t in m' && m'[t].priority == m[t].priority && m'[t].coreId == m[t].coreId
    requires q != [] && m[q[0]].pendingYield ==> m'[q[0]].pendingYield
    ensures Good(q, m', core)
  {
  }

  ghost predicate AllGood(cores: seq<seq<ThreadId>>, m: Threads) {
    |cores| == CoreCount && forall c :: 0 <= c < |cores| ==> Good(cores[c], m, c)
  }

  /** A displaced thread has been told so, by signal or by the flag of the calling thread. */
  ghost predicate AllTold(m: Threads) {
    forall t :: t in m && m[t].forceYield ==> m[t].pendingYield || m[t].yieldPending
  }

  /** The thread is queued and may give up its core: it runs, or has been displaced since it ran. */
  ghost predicate MayYield(cores: seq<seq<ThreadId>>, m: Threads, t: ThreadId) {
    && t in m && m[t].coreId < |cores| && t in cores[m[t].coreId]
    && (cores[m[t].coreId][0] == t || m[t].forceYield)
  }

  /** Whoever might give up its core still may. */
  ghost predicate YieldsKept(cores: seq<seq<ThreadId>>, m: Threads, cores': seq<seq<ThreadId>>, m': Threads,
                             but: set<ThreadId>) {
    forall t :: MayYield(cores, m, t) && t !in but ==> MayYield(cores', m', t)
  }

  /** One queue has changed; its front is still there, or has been displaced, or is the exception. */
  lemma YieldsKeptIn(cores: seq<seq<ThreadId>>, m: Threads, m': Threads, c: nat, q: seq<ThreadId>, but: set<ThreadId>)
    requires c < |cores| && AllGood(cores, m)
    requires forall t :: t in cores[c] && t !in but ==> t in q
    requires forall t :: t in m && t !in but ==> t in m' && m'[t].coreId == m[t].coreId
    requires forall t :: t in m && t !in but && m[t].forceYield ==> t in m' && m'[t].forceYield
    requires cores[c] != [] && cores[c][0] !in but ==>
      cores[c][0] in m' && (m'[cores[c][0]].forceYield || (q != [] && q[0] == cores[c][0]))
    ensures YieldsKept(cores, m, cores[c := q], m', but)
  {
  }

  lemma YieldsStillKept(cores: seq<seq<ThreadId>>, m: Threads, cores': seq<seq<ThreadId>>, m': Threads,
                        cores'': seq<seq<ThreadId>>, m'': Threads, but: set<ThreadId>)
    requires YieldsKept(cores, m, cores', m', but) && YieldsKept(cores', m', cores'', m'', {})
    ensures YieldsKept(cores, m, cores'', m'', but)
  {
  }

  /** Changing one queue, and threads of that core only, leaves the other queues good. */
  lemma OneCoreChanges(cores: seq<seq<ThreadId>>, m: Threads, m': Threads, c: nat, q: seq<ThreadId>)
    requires AllGood(cores, m) && c < CoreCount && Good(q, m', c)
    requires forall t :: t in m && m[t].coreId != c ==> t in m' && m'[t] == m[t]
    ensures AllGood(cores[c := q], m')
  {
    var changed := cores[c := q];
    forall d | 0 <= d < |changed| ensures Good(changed[d], m', d) {
      if d != c {
        assert Good(cores[d], m, d);
        forall t | t in cores[d] ensures t in m && m[t].coreId == d {
          var i :| 0 <= i < |cores[d]| && cores[d][i] == t;
        }
        FlagsKeepGood(cores[d], m, m', d);
      }
    }
  }

  /** The thread takes its place behind the running one. */
  ghost predicate Queued(q: seq<ThreadId>, q': seq<ThreadId>, m: Threads, t: ThreadId)
    requires Known(q, m) && t in m
  {
    exists r :: 0 < r && Fits(q, m, m[t].priority, r) && q' == InsertAt(q, r, t)
  }

  /** The front has moved behind every thread of its own or a better priority. */
  ghost predicate Rotated(q: seq<ThreadId>, q': seq<ThreadId>, m: Threads)
    requires Known(q, m)
  {
    if q == [] then q' == [] else exists r :: 0 < r && Fits(q, m, m[q[0]].priority, r) && q' == MoveFront(q, r)
  }

  function Index(q: seq<ThreadId>, t: ThreadId): (r: nat)
    ensures r <= |q| && (r < |q| ==> q[r] == t) && (r == |q| <==> t !in q)
  {
    if q == [] then 0 else if q[0] == t then 0 else 1 + Index(q[1..], t)
  }

  class Scheduler {
    var cores: seq<seq<ThreadId>>
    var threads: Threads

    ghost predicate Valid()
      reads this
    {
      AllGood(cores, threads) && AllTold(threads)
    }

    constructor ()
      ensures Valid() && threads == map[] && forall c :: 0 <= c < CoreCount ==> cores[c] == []
    {
      cores, threads := [[], [], [], []], map[];
    }

    /** A new thread, resident on a core but not queued yet. */
    method CreateThread(t: ThreadId, priority: int, core: nat)
      requires Valid() && t !in threads && core < CoreCount
      modifies this
      ensures Valid() && cores == old(cores) && t !in cores[core]
      ensures YieldsKept(old(cores), old(threads), cores, threads, {})
      ensures threads == old(threads)[t := Thread(priority, core, false, false, false)]
    {
      var was := threads;
      threads := threads[t := Thread(priority, core, false, false, false)];
      assert Good(cores[core], was, core);
      FlagsKeepGood(cores[core], was, threads, core);
      OneCoreChanges(cores, was, threads, core, cores[core]);
      YieldsKeptIn(cores, was, threads, core, cores[core], {});
      assert cores[core := cores[core]] == cores;
    }

    /** A thread that is not queued joins the queue of its core.  It displaces the running thread exactly when
        it beats both the running thread and the one behind it. */
    method InsertThread(caller: ThreadId, t: ThreadId)
      requires Valid() && t in threads && threads[t].coreId < CoreCount && t !in cores[threads[t].coreId]
      modifies this
      ensures Valid() && InsertedInto(old(cores), old(threads), old(threads)[t].coreId, caller, t)
      ensures YieldsKept(old(cores), old(threads), cores, threads, {})
      ensures var q := old(cores)[old(threads)[t].coreId];
        q != [] && cores[old(threads)[t].coreId][..1] == [t] ==> FrontToldBy(q[0], caller)
    {
      hide Good, Fits, Beats;
      var c := threads[t].coreId;
      var q := cores[c];
      GoodIsKnown(q, threads, c);
      var next := UpperBound(q, threads, threads[t].priority, c);
      if next == 0 {
        if q != [] {
          Preempt(caller, t);
        } else {
          PushFrontGood(q, threads, c, t);
          assert [t] + q == [t] && [t][1..] == q;
          OneCoreChanges(cores, threads, threads, c, [t]);
          cores := cores[c := [t]];
        }
      } else {
        InsertBehindGood(q, threads, c, t, next);
        OneCoreChanges(cores, threads, threads, c, InsertAt(q, next, t));
        cores := cores[c := InsertAt(q, next, t)];
      }
    }

    /** The inserted thread takes over from the front, which is told to yield and queued by its priority. */
    method Preempt(caller: ThreadId, t: ThreadId)
      requires Valid() && t in threads && threads[t].coreId < CoreCount
      requires var q := cores[threads[t].coreId];
        t !in q && q != [] && Known(q, threads) && Beats(q, threads, threads[t].priority)
      modifies this
      ensures Valid() && InsertedInto(old(cores), old(threads), old(threads)[t].coreId, caller, t)
      ensures YieldsKept(old(cores), old(threads), cores, threads, {})
      ensures FrontToldBy(old(cores)[old(threads)[t].coreId][0], caller)
    {
      hide Good, Fits, Beats, AllGood, AllTold, YieldsKept;
      var c := threads[t].coreId;
      CoreGood(cores, threads, c);
      var q := cores[c];
      FrontOnCore(q, threads, c);
      var front := q[0];
      var target := UpperBound(q, threads, threads[front].priority, c);
      TakeOverGood(q, threads, c, t, target);
      var was := threads;
      threads := threads[front := threads[front].(forceYield := true)];
      if caller != front {
        if !threads[front].pendingYield {
          threads := threads[front := threads[front].(pendingYield := true)];
        }
      } else {
        threads := threads[front := threads[front].(yieldPending := true)];
      }
      var queue := [t] + MoveFront(q, target);
      assert threads == Displaced(q, was, caller);
      DisplacedGood(queue, q, was, c, caller);
      DisplacedMayYield(cores, was, c, queue, caller);
      OneCoreChanges(cores, was, threads, c, queue);
      cores := cores[c := queue];
      assert queue[1..] == MoveFront(q, target);
    }

    /** A displaced thread knows that it has to yield: from its own flag if it is the caller, else from a signal. */
    ghost predicate FrontToldBy(front: ThreadId, caller: ThreadId)
      reads this
    {
      front in threads && threads[front].forceYield &&
      if front == caller then threads[front].yieldPending else threads[front].pendingYield
    }

    /** A thread that beats the queue is inserted, and the thread that it displaces acts on its yield: it may, and finds
        its place taken and its own place in the queue as the insertion left them. */
    method Displace(caller: ThreadId, t: ThreadId) returns (ok: bool)
      requires Valid() && t in threads && threads[t].coreId < CoreCount && t !in cores[threads[t].coreId]
      requires var q := cores[threads[t].coreId]; q != [] && Known(q, threads) && Beats(q, threads, threads[t].priority)
      modifies this
      ensures Valid() && ok && |cores| == CoreCount
      ensures var c := old(threads)[t].coreId;
        && cores == old(cores)[c := cores[c]] && cores[c] != [] && cores[c][0] == t
        && Rotated(old(cores)[c], cores[c][1..], old(threads))
      ensures var front := old(cores)[old(threads)[t].coreId][0];
        front in threads && !threads[front].forceYield && !threads[front].pendingYield
    {
      hide AllGood, AllTold, Good, Rotated, Beats, YieldsKept;
      var c := threads[t].coreId;
      CoreGood(cores, threads, c);
      var front := cores[c][0];
      FrontOnCore(cores[c], threads, c);
      InsertThread(caller, t);
      ok := Rotate(front);
    }

    /** Only the queue of core c has changed: the thread runs if it beats the queue, and waits in its place if not. */
    ghost predicate InsertedInto(was: seq<seq<ThreadId>>, m: Threads, c: nat, caller: ThreadId, t: ThreadId)
      reads this
      requires c < |was| && Known(was[c], m) && t in m
    {
      && |cores| == |was| && cores == was[c := cores[c]]
      && if Beats(was[c], m, m[t].priority)
         then cores[c] != [] && cores[c][0] == t && Rotated(was[c], cores[c][1..], m) &&
           threads == Displaced(was[c], m, caller)
         else Queued(was[c], cores[c], m, t) && threads == m
    }

    /** The calling thread gives up the core.  At the front it moves behind its equals and the whole queue is
        sorted again; elsewhere it must have been displaced before, otherwise an exception is thrown. */
    method Rotate(t: ThreadId) returns (ok: bool)
      requires Valid() && t in threads && threads[t].coreId < CoreCount && cores[threads[t].coreId] != []
      modifies this
      ensures Valid()
      ensures ok <==> old(cores)[old(threads)[t].coreId][0] == t || old(threads)[t].forceYield
      ensures !ok ==> threads == old(threads)
      ensures ok ==> threads == old(threads)[t := old(threads)[t].(pendingYield := false, forceYield := false)]
      ensures YieldsKept(old(cores), old(threads), cores, threads, {t})
      ensures old(MayYield(cores, threads, t)) ==> ok
      ensures var c := old(threads)[t].coreId; var q := old(cores)[c];
        if q[0] == t
        then |cores| == CoreCount && cores == old(cores)[c := cores[c]] && Rotated(q, cores[c], old(threads)) &&
          SortedFrom(cores[c], old(threads), 0)
        else cores == old(cores)
    {
      hide Good, Fits;
      var c := threads[t].coreId;
      var q := cores[c];
      GoodIsKnown(q, threads, c);
      var was := threads;
      if q[0] == t {
        var target := UpperBound(q, threads, threads[t].priority, c);
        MoveFrontSorts(q, threads, c, target);
        q := MoveFront(q, target);
      } else if !threads[t].forceYield {
        return false;
      }
      threads := threads[t := threads[t].(pendingYield := false, forceYield := false)];
      ClearingKeepsGood(q, was, threads, c, t);
      OneCoreChanges(cores, was, threads, c, q);
      YieldsKeptIn(cores, was, threads, c, q, {t});
      cores := cores[c := q];
      return true;
    }

    /** Round robin: where the first k threads share a priority that no later one has, k rotations by the successive
        fronts let each of the k run exactly once, in order, and restore the queue; no other queue and no other thread
        is touched. */
    method RoundRobin(c: nat, k: nat) returns (fronts: seq<ThreadId>)
      requires Valid() && c < CoreCount && |cores| == CoreCount && 0 < k <= |cores[c]| && Equals(cores[c], threads, k)
      modifies this
      ensures Valid() && cores == old(cores) && fronts == old(cores)[c][..k]
      ensures YieldsCleared(old(threads), threads, fronts)
    {
      hide AllGood, Equals, Turned, YieldsCleared;
      fronts := [];
      ghost var q := cores[c];
      TurnedEnds(q, k);
      NoneCleared(threads);
      for j := 0 to k
        invariant Valid() && |cores| == CoreCount && cores == old(cores)[c := Turned(q, k, j)] && Equals(q, threads, k)
        invariant fronts == q[..j] && YieldsCleared(old(threads), threads, fronts)
      {
        ghost var m := threads;
        var front := TakeTurn(c, k, q, j);
        ClearedMore(old(threads), m, threads, fronts, front);
        fronts := fronts + [front];
      }
    }

    /** One rotation among equals is one turn. */
    method TakeTurn(c: nat, k: nat, ghost q: seq<ThreadId>, ghost j: nat) returns (front: ThreadId)
      requires Valid() && c < CoreCount && |cores| == CoreCount && j < k <= |q| && cores[c] == Turned(q, k, j)
      requires Equals(q, threads, k)
      modifies this
      ensures Valid() && |cores| == CoreCount && cores == old(cores)[c := Turned(q, k, j + 1)] && front == q[j]
      ensures Equals(q, threads, k)
      ensures front in old(threads)
      ensures threads == old(threads)[front := old(threads)[front].(pendingYield := false, forceYield := false)]
    {
      hide AllGood, Good, Rotated, Turned, SortedFrom;
      CoreGood(cores, threads, c);
      GoodIsKnown(cores[c], threads, c);
      TurnedIndex(q, k, j, 0);
      FrontOnCore(cores[c], threads, c);
      front := cores[c][0];
      ghost var m := threads;
      var _ := Rotate(front);
      RotationTurns(q, cores[c], m, k, j);
    }

    /** Takes the calling thread out of its queue and drops whatever yield was pending for it. */
    method RemoveThread(t: ThreadId)
      requires Valid() && t in threads && threads[t].coreId < CoreCount
      modifies this
      ensures Valid() && |cores| == CoreCount
      ensures threads == old(threads)[t := old(threads)[t].(pendingYield := false, forceYield := false,
        yieldPending := false)]
      ensures var c := old(threads)[t].coreId;
        && cores == old(cores)[c := cores[c]] && cores[c] == Without(old(cores)[c], t) && t !in cores[c]
      ensures YieldsKept(old(cores), old(threads), cores, threads, {t})
    {
      hide Good;
      var c := threads[t].coreId;
      var q := Erase(cores[c], t, c);
      var was := threads;
      threads := threads[t := threads[t].(pendingYield := false, forceYield := false, yieldPending := false)];
      RehomedKeepsGood(q, was, threads, c, t);
      WithoutMembers(cores[c], t);
      if cores[c] != [] {
        FrontOnCore(cores[c], was, c);
      }
      YieldsKeptIn(cores, was, threads, c, q, {t});
      OneCoreChanges(cores, was, threads, c, q);
      cores := cores[c := q];
    }

    /** Gives a thread a new priority and moves it accordingly.  A running thread keeps running and is told to
        yield if it is now beaten; a waiting thread goes where its priority belongs, but never ahead of the
        running one, which is told to yield instead. */
    method UpdatePriority(t: ThreadId, priority: int)
      requires Valid() && t in threads && threads[t].coreId < CoreCount
      modifies this
      ensures Valid() && |cores| == CoreCount
      ensures cores == old(cores)[old(threads)[t].coreId := cores[old(threads)[t].coreId]]
      ensures var c := old(threads)[t].coreId;
        Reprioritized(old(cores)[c], cores[c], old(threads)[t := old(threads)[t].(priority := priority)], threads, t)
      ensures YieldsKept(old(cores), old(threads), cores, threads, {})
    {
      hide Good, Fits, Beats, Queued, AllGood, AllTold, YieldsKept;
      var c := threads[t].coreId;
      CoreGood(cores, threads, c);
      var q := cores[c];
      GoodIsKnown(q, threads, c);
      var was := threads;
      threads := threads[t := threads[t].(priority := priority)];
      var current := Index(q, t);
      if current == |q| {
        RehomedKeepsGood(q, was, threads, c, t);
      } else if current == 0 {
        if 1 < |q| && threads[q[1]].priority < threads[t].priority {
          if !threads[t].pendingYield {
            threads := threads[t := threads[t].(pendingYield := true)];
          }
        }
        FrontReprioritized(q, was, threads, c);
      } else if threads[t].priority < threads[q[current - 1]].priority ||
                (current + 1 < |q| && threads[t].priority > threads[q[current + 1]].priority) {
        FrontOnCore(q, was, c);
        q := Reinsert(q, current, c, was);
      } else {
        PlaceKept(q, was, threads, c, current);
      }
      OneCoreChanges(cores, was, threads, c, q);
      ReprioritizedMayYield(cores, was, c, t, priority, q, threads);
      cores := cores[c := q];
    }

    /** Removes a waiting thread whose place is no longer right and inserts it anew. */
    method Reinsert(q: seq<ThreadId>, current: nat, c: nat, ghost was: Threads) returns (r: seq<ThreadId>)
      requires 0 < current < |q| && Good(q, was, c) && q[current] in threads
      requires threads == was[q[current] := was[q[current]].(priority := threads[q[current]].priority)]
      modifies this`threads
      ensures Good(r, threads, c) && q[0] in old(threads) && q[0] in threads
      ensures Known(EraseAt(q, current), old(threads))
      ensures var m := old(threads);
        var rest := EraseAt(q, current);
        if Beats(rest, m, m[q[current]].priority)
        then r == InsertAt(rest, 1, q[current]) && threads == m[q[0] := m[q[0]].(pendingYield := true)]
        else Queued(rest, r, m, q[current]) && threads == m
    {
      hide Good, Fits, Queued;
      var t := q[current];
      var rest := EraseAt(q, current);
      ErasedForUpdate(q, was, threads, c, current);
      GoodIsKnown(rest, threads, c);
      var target := UpperBound(rest, threads, threads[t].priority, c);
      if target == 0 && target != |rest| {
        r := InsertAt(rest, 1, t);
        var m := threads;
        if !threads[rest[0]].pendingYield {
          threads := threads[rest[0] := threads[rest[0]].(pendingYield := true)];
        }
        FrontTold(rest, m, threads, c, t);
      } else {
        r := InsertAt(rest, target, t);
        assert rest[0] == q[0];
        InsertBehindGood(rest, threads, c, t, target);
        IsQueued(rest, threads, t, target);
      }
    }

    /** std::find followed by erase, if the thread is there. */
    method Erase(q: seq<ThreadId>, t: ThreadId, ghost c: nat) returns (r: seq<ThreadId>)
      requires Good(q, threads, c)
      ensures Good(r, threads, c) && r == Without(q, t) && t !in r
    {
      var it := Index(q, t);
      if it == |q| {
        return q;
      }
      EraseGood(q, threads, c, it);
      return EraseAt(q, it);
    }

    /** Moves a thread to another core, where it is queued if it was queued before. */
    method MigrateToCore(caller: ThreadId, t: ThreadId, target: nat)
      requires Valid() && t in threads && threads[t].coreId < CoreCount && target < CoreCount
      modifies this
      ensures Valid() && |cores| == CoreCount && t in threads && threads[t].coreId == target
      ensures t in cores[target] <==> old(t in cores[threads[t].coreId])
      ensures var c := old(threads)[t].coreId; var left := old(cores)[c := Without(old(cores)[c], t)];
        var m := old(threads)[t := old(threads)[t].(coreId := target)];
        && (forall d :: 0 <= d < CoreCount ==> Known(left[d], m))
        && if old(t in cores[threads[t].coreId]) then InsertedInto(left, m, target, caller, t)
          else cores == left && threads == m
      ensures YieldsKept(old(cores), old(threads), cores, threads, {t})
    {
      hide Good, Fits, Beats, Rotated, Queued, YieldsKept;
      var c := threads[t].coreId;
      var wasInserted := t in cores[c];
      var q := Erase(cores[c], t, c);
      var was := threads;
      threads := threads[t := threads[t].(coreId := target)];
      RehomedKeepsGood(q, was, threads, c, t);
      RehomedElsewhere(cores, was, t, target);
      OneCoreChanges(cores, was, threads, c, q);
      WithoutMembers(cores[c], t);
      if cores[c] != [] {
        FrontOnCore(cores[c], was, c);
      }
      YieldsKeptIn(cores, was, threads, c, q, {t});
      cores := cores[c := q];
      forall d | 0 <= d < CoreCount ensures Known(cores[d], threads) {
        GoodIsKnown(cores[d], threads, d);
      }
      if wasInserted {
        label L:
        InsertThread(caller, t);
        InsertedIsThere(old@L(cores), old@L(threads), target, caller, t);
        YieldsStillKept(old(cores), old(threads), old@L(cores), old@L(threads), cores, threads, {t});
      }
    }

    lemma InsertedIsThere(was: seq<seq<ThreadId>>, m: Threads, c: nat, caller: ThreadId, t: ThreadId)
      requires c < |was| && Known(was[c], m) && t in m && t !in was[c]
      requires InsertedInto(was, m, c, caller, t)
      ensures t in cores[c] && t in threads && threads[t].coreId == m[t].coreId
    {
      if !Beats(was[c], m, m[t].priority) {
        var r :| 0 < r && Fits(was[c], m, m[t].priority, r) && cores[c] == InsertAt(was[c], r, t);
        InsertAtIndex(was[c], r, t, r);
      }
    }
  }

  /** The queue with the thread taken out, if it was there. */
  function Without(q: seq<ThreadId>, t: ThreadId): seq<ThreadId> {
    var it := Index(q, t);
    if it == |q| then q else EraseAt(q, it)
  }

  lemma WithoutMembers(q: seq<ThreadId>, t: ThreadId)
    ensures forall x :: x in q && x != t ==> x in Without(q, t)
    ensures q != [] && q[0] != t ==> Without(q, t) != [] && Without(q, t)[0] == q[0]
  {
    var it := Index(q, t);
    if it < |q| {
      assert q == q[..it] + [t] + q[it + 1..];
    }
  }

  /** A thread may drop its pending yield when it is not at the front, or when the queue is sorted. */
  lemma ClearingKeepsGood(q: seq<ThreadId>, m: Threads, m': Threads, core: nat, t: ThreadId)
    requires Good(q, m, core) && t in m && m' == m[t := m[t].(pendingYield := false, forceYield := false)]
    requires Known(q, m) && (q != [] && q[0] == t ==> SortedFrom(q, m, 0))
    ensures Good(q, m', core)
  {
  }

  lemma RehomedKeepsGood(q: seq<ThreadId>, m: Threads, m': Threads, core: nat, t: ThreadId)
    requires Good(q, m, core) && t in m && t !in q && forall x :: x in m && x != t ==> x in m' && m'[x] == m[x]
    ensures Good(q, m', core)
  {
  }

  /** A thread can only be in the queue of its own core. */
  lemma RehomedElsewhere(cores: seq<seq<ThreadId>>, m: Threads, t: ThreadId, d: nat)
    requires AllGood(cores, m) && t in m && d < CoreCount
    ensures m[t].coreId != d ==> t !in cores[d]
  {
    assert Good(cores[d], m, d);
  }

  /** The outcome of a priority change: m already holds the new priority, m' also the flags set in response. */
  ghost predicate Reprioritized(q: seq<ThreadId>, q': seq<ThreadId>, m: Threads, m': Threads, t: ThreadId) {
    && Known(q, m) && t in m
    && if t !in q then q' == q && m' == m
       else if q[0] == t then
         && q' == q
         && m' == if |q| >= 2 && m[q[1]].priority < m[t].priority then m[t := m[t].(pendingYield := true)] else m
       else if InOrder(q, m, Index(q, t)) then q' == q && m' == m
       else var rest := Without(q, t);
         Known(rest, m) && q[0] in m &&
         if Beats(rest, m, m[t].priority)
         then q' == InsertAt(rest, 1, t) && m' == m[q[0] := m[q[0]].(pendingYield := true)]
         else Queued(rest, q', m, t) && m' == m
  }

  /** A change of priority displaces nobody. */
  lemma ReprioritizedMayYield(cores: seq<seq<ThreadId>>, m: Threads, c: nat, t: ThreadId, priority: int,
                              q: seq<ThreadId>, m': Threads)
    requires AllGood(cores, m) && AllTold(m) && c < CoreCount && t in m
    requires Reprioritized(cores[c], q, m[t := m[t].(priority := priority)], m', t)
    ensures YieldsKept(cores, m, cores[c := q], m', {}) && AllTold(m')
  {
    hide Good, Queued, Beats, InsertAt, YieldsKept;
    var was := cores[c];
    if t in was && was[0] != t && !InOrder(was, m[t := m[t].(priority := priority)], Index(was, t)) {
      ReinsertedMembers(was, q, m[t := m[t].(priority := priority)], m', t);
    }
    YieldsKeptIn(cores, m, m', c, q, {});
  }

  lemma ReinsertedMembers(q: seq<ThreadId>, q': seq<ThreadId>, m: Threads, m': Threads, t: ThreadId)
    requires t in q && q[0] != t && Known(q, m) && t in m && Known(Without(q, t), m)
    requires q' == InsertAt(Without(q, t), 1, t) || Queued(Without(q, t), q', m, t)
    ensures q' != [] && q'[0] == q[0] && forall x :: x in q ==> x in q'
  {
    hide Without;
    WithoutMembers(q, t);
    var rest, r := Without(q, t), 1;
    if q' != InsertAt(rest, 1, t) {
      r :| 0 < r && Fits(rest, m, m[t].priority, r) && q' == InsertAt(rest, r, t);
    }
    assert rest == rest[..r] + rest[r..];
  }

  /** Neither neighbour of position i is on the wrong side of it. */
  ghost predicate InOrder(q: seq<ThreadId>, m: Threads, i: nat)
    requires Known(q, m) && 0 < i < |q|
  {
    && m[q[i - 1]].priority <= m[q[i]].priority
    && (i + 1 < |q| ==> m[q[i]].priority <= m[q[i + 1]].priority)
  }

  lemma IsQueued(q: seq<ThreadId>, m: Threads, t: ThreadId, r: nat)
    requires Known(q, m) && t in m && 0 < r && Fits(q, m, m[t].priority, r)
    ensures Queued(q, InsertAt(q, r, t), m, t)
  {
  }

  lemma FrontReprioritized(q: seq<ThreadId>, m: Threads, m': Threads, core: nat)
    requires Good(q, m, core) && q != [] && q[0] in m' && m' == m[q[0] := m'[q[0]]] && m'[q[0]].coreId == core
    requires Known(q, m') && FrontYields(q, m')
    ensures Good(q, m', core)
  {
  }

  lemma PlaceKept(q: seq<ThreadId>, m: Threads, m': Threads, core: nat, i: nat)
    requires Good(q, m, core) && 0 < i < |q| && q[i] in m' && m' == m[q[i] := m'[q[i]]] && m'[q[i]].coreId == core
    requires Known(q, m') && InOrder(q, m', i)
    ensures Good(q, m', core)
  {
    forall j, k | 1 <= j < k < |q| ensures m'[q[j]].priority <= m'[q[k]].priority {
      if j == i {
        assert m[q[i + 1]].priority <= m[q[k]].priority || k == i + 1;
      } else if k == i {
        assert m[q[j]].priority <= m[q[i - 1]].priority || j == i - 1;
      }
    }
  }

  lemma ErasedForUpdate(q: seq<ThreadId>, m: Threads, m': Threads, core: nat, i: nat)
    requires Good(q, m, core) && 0 < i < |q| && q[i] in m' && m' == m[q[i] := m'[q[i]]]
    ensures Good(EraseAt(q, i), m', core) && q[i] !in EraseAt(q, i) && EraseAt(q, i) != [] && EraseAt(q, i)[0] == q[0]
    ensures m[q[i]].coreId == core
  {
    EraseGood(q, m, core, i);
    RehomedKeepsGood(EraseAt(q, i), m, m', core, q[i]);
  }

  /** A thread that beats the whole queue waits right behind the front, which is told to yield. */
  lemma FrontTold(q: seq<ThreadId>, m: Threads, m': Threads, core: nat, t: ThreadId)
    requires Good(q, m, core) && q != [] && t in m && t !in q && m[t].coreId == core && Beats(q, m, m[t].priority)
    requires m' == m[q[0] := m[q[0]].(pendingYield := true)]
    ensures Good(InsertAt(q, 1, t), m', core)
  {
    var n := InsertAt(q, 1, t);
    forall i | 0 <= i < |n| ensures n[i] in m' && m'[n[i]].coreId == core {
      InsertAtIndex(q, 1, t, i);
    }
    forall i, j | 0 <= i < j < |n| ensures n[i] != n[j] {
      InsertAtIndex(q, 1, t, i);
      InsertAtIndex(q, 1, t, j);
    }
    forall i, j | 1 <= i < j < |n| ensures m'[n[i]].priority <= m'[n[j]].priority {
      InsertAtIndex(q, 1, t, i);
      InsertAtIndex(q, 1, t, j);
    }
    InsertAtIndex(q, 1, t, 0);
  }

  /** The displaced front knows that it has to yield, by signal or by the flag of the calling thread. */
  ghost function Displaced(q: seq<ThreadId>, m: Threads, caller: ThreadId): Threads
    requires Known(q, m)
  {
    if q == [] then m
    else var front := m[q[0]];
      m[q[0] := front.(
        forceYield := true,
        pendingYield := front.pendingYield || caller != q[0],
        yieldPending := front.yieldPending || caller == q[0])]
  }

  lemma CoreGood(cores: seq<seq<ThreadId>>, m: Threads, c: nat)
    requires AllGood(cores, m) && c < CoreCount
    ensures |cores| == CoreCount && Good(cores[c], m, c)
  {
  }

  /** A thread that beats the queue may go in front of it once the old front is moved to its place. */
  lemma TakeOverGood(q: seq<ThreadId>, m: Threads, core: nat, t: ThreadId, target: nat)
    requires Good(q, m, core) && q != [] && t in m && t !in q && m[t].coreId == core && Beats(q, m, m[t].priority)
    requires Fits(q, m, m[q[0]].priority, target)
    ensures 0 < target && Good([t] + MoveFront(q, target), m, core)
  {
    MoveFrontSorts(q, m, core, target);
    MoveFrontIndex(q, target, 0);
    PushFrontGood(MoveFront(q, target), m, core, t);
  }

  /** Telling the old front to yield keeps the other queues and a queue with another front good. */
  lemma DisplacedGood(queue: seq<ThreadId>, q: seq<ThreadId>, m: Threads, core: nat, caller: ThreadId)
    requires Good(queue, m, core) && Known(q, m) && q != [] && m[q[0]].coreId == core
    ensures Good(queue, Displaced(q, m, caller), core)
    ensures forall x :: x in m && m[x].coreId != core ==>
      x in Displaced(q, m, caller) && Displaced(q, m, caller)[x] == m[x]
  {
    FlagsKeepGood(queue, m, Displaced(q, m, caller), core);
  }

  /** Nobody who might give up the core is stopped by being displaced, the old front least of all. */
  lemma DisplacedMayYield(cores: seq<seq<ThreadId>>, m: Threads, core: nat, queue: seq<ThreadId>, caller: ThreadId)
    requires AllGood(cores, m) && AllTold(m) && core < CoreCount && cores[core] != [] && Known(cores[core], m)
    requires forall t :: t in cores[core] ==> t in queue
    ensures AllTold(Displaced(cores[core], m, caller))
    ensures YieldsKept(cores, m, cores[core := queue], Displaced(cores[core], m, caller), {})
  {
    YieldsKeptIn(cores, m, Displaced(cores[core], m, caller), core, queue, {});
  }

  lemma GoodIsKnown(q: seq<ThreadId>, m: Threads, core: nat)
    requires Good(q, m, core)
    ensures Known(q, m)
  {
  }

  lemma FrontOnCore(q: seq<ThreadId>, m: Threads, core: nat)
    requires Good(q, m, core) && q != []
    ensures q[0] in m && m[q[0]].coreId == core
  {
  }

  /** Nothing has changed but that these threads have no yield pending. */
  ghost predicate YieldsCleared(m: Threads, m': Threads, done: seq<ThreadId>) {
    && m'.Keys == m.Keys
    && forall x :: x in m ==> m'[x] == if x in done then m[x].(pendingYield := false, forceYield := false) else m[x]
  }

  lemma NoneCleared(m: Threads)
    ensures YieldsCleared(m, m, [])
  {
  }

  lemma ClearedMore(m: Threads, m': Threads, m'': Threads, done: seq<ThreadId>, t: ThreadId)
    requires YieldsCleared(m, m', done) && t in m' && m'' == m'[t := m'[t].(pendingYield := false, forceYield := false)]
    ensures YieldsCleared(m, m'', done + [t])
  {
  }

  /** The first k threads share a priority that no later one has. */
  ghost predicate Equals(q: seq<ThreadId>, m: Threads, k: nat) {
    && Known(q, m) && k <= |q|
    && (forall i :: 0 <= i < k ==> m[q[i]].priority == m[q[0]].priority)
    && (forall i :: k <= i < |q| ==> m[q[0]].priority < m[q[i]].priority)
  }

  lemma TurnedEnds(q: seq<ThreadId>, k: nat)
    requires k <= |q|
    ensures Turned(q, k, 0) == q && Turned(q, k, k) == q
  {
  }

  /** The queue after the first j of k equals at its front have taken their turn. */
  function Turned(q: seq<ThreadId>, k: nat, j: nat): seq<ThreadId>
    requires j <= k <= |q|
  {
    q[j..k] + q[..j] + q[k..]
  }

  lemma TurnedIndex(q: seq<ThreadId>, k: nat, j: nat, i: nat)
    requires j <= k <= |q| && i < |q|
    ensures |Turned(q, k, j)| == |q|
    ensures Turned(q, k, j)[i] == if i < k - j then q[i + j] else if i < k then q[i - (k - j)] else q[i]
  {
  }

  lemma TurnOnce(q: seq<ThreadId>, k: nat, j: nat)
    requires j < k <= |q|
    ensures MoveFront(Turned(q, k, j), k) == Turned(q, k, j + 1)
  {
    var turned := Turned(q, k, j);
    forall i | 0 <= i < |q| ensures MoveFront(turned, k)[i] == Turned(q, k, j + 1)[i] {
      MoveFrontIndex(turned, k, i);
      TurnedIndex(q, k, j + 1, i);
      TurnedIndex(q, k, j, 0);
      TurnedIndex(q, k, j, i);
      if i + 1 < |q| {
        TurnedIndex(q, k, j, i + 1);
      }
    }
  }

  /** On a sorted queue whose first k threads share a priority that no later one has, one rotation is one turn. */
  lemma RotationTurns(q: seq<ThreadId>, q': seq<ThreadId>, m: Threads, k: nat, j: nat)
    requires j < k && Equals(q, m, k)
    requires Known(Turned(q, k, j), m) && Rotated(Turned(q, k, j), q', m)
    ensures q' == Turned(q, k, j + 1)
  {
    var turned := Turned(q, k, j);
    TurnedIndex(q, k, j, 0);
    var r :| 0 < r && Fits(turned, m, m[turned[0]].priority, r) && q' == MoveFront(turned, r);
    TurnedIndex(q, k, j, r - 1);
    if r < |q| {
      TurnedIndex(q, k, j, r);
    }
    assert r == k;
    TurnOnce(q, k, j);
  }
}
