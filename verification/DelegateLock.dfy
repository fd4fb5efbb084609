/** Locking a buffer through a delegate while merges may point the delegate at another buffer: the steps of lock,
    try_lock and unlock, interleaved in any way with merges and with other users of the buffer mutexes. */
module DelegateLock {
  import opened Common

  type ThreadId = nat
  type DelegateId = nat
  type BufferId = nat

  /** Where a thread is. */
  datatype Position =
    | Idle
    | Locking(delegate: DelegateId, buffer: BufferId) // has loaded the pointer, waits for that mutex
    | Checking(delegate: DelegateId, buffer: BufferId) // has the mutex, loads the pointer again
    | Releasing(delegate: DelegateId, buffer: BufferId, latest: BufferId) // has an outdated mutex
    | Holding(delegate: DelegateId, buffer: BufferId) // lock has returned, or try_lock with success
    | Trying(delegate: DelegateId, buffer: BufferId)
    | TryChecking(delegate: DelegateId, buffer: BufferId, success: bool)
    | TryReleasing(delegate: DelegateId, buffer: BufferId, latest: BufferId)
    | Merging(buffer: BufferId, target: BufferId) // holds an overlap while its delegates are repointed
    | Owning(buffer: BufferId) // has locked a buffer directly, as trap callbacks do
  {
    /** The mutex that a thread at this position has locked. */
    function Mutex(): Option<BufferId> {
      match this
      case Checking(_, b) => Some(b)
      case Releasing(_, b, _) => Some(b)
      case Holding(_, b) => Some(b)
      case TryChecking(_, b, success) => if success then Some(b) else None
      case TryReleasing(_, b, _) => Some(b)
      case Merging(b, _) => Some(b)
      case Owning(b) => Some(b)
      case _ => None
    }
  }

  /** Mutexes that are not in the map are free. */
  datatype State = State(
    owner: map<BufferId, ThreadId>, pointer: map<DelegateId, BufferId>, at: map<ThreadId, Position>)

  datatype Action =
    | StartLock(delegate: DelegateId)
    | Acquire
    | Check
    | Release
    | Unlock
    | StartTry(delegate: DelegateId)
    | TryAcquire
    | TryCheck
    | TryRelease
    | BeginMerge(overlap: BufferId, target: BufferId)
    | Repoint(delegate: DelegateId)
    | EndMerge
    | BeginDirect(buffer: BufferId)
    | EndDirect

  ghost predicate Enabled(s: State, t: ThreadId, a: Action) {
    t in s.at &&
    match a
    case StartLock(d) => s.at[t].Idle? && d in s.pointer
    case StartTry(d) => s.at[t].Idle? && d in s.pointer
    case Acquire => s.at[t].Locking? && s.at[t].buffer !in s.owner
    case Check => s.at[t].Checking? && s.at[t].delegate in s.pointer
    case Release => s.at[t].Releasing?
    case Unlock => s.at[t].Holding? && s.at[t].delegate in s.pointer
    case TryAcquire => s.at[t].Trying?
    case TryCheck => s.at[t].TryChecking? && s.at[t].delegate in s.pointer
    case TryRelease => s.at[t].TryReleasing?
    case BeginMerge(o, _) => s.at[t].Idle? && o !in s.owner
    case Repoint(d) => s.at[t].Merging? && d in s.pointer && s.pointer[d] == s.at[t].buffer
    case EndMerge => s.at[t].Merging? && forall d :: d in s.pointer ==> s.pointer[d] != s.at[t].buffer
    case BeginDirect(b) => s.at[t].Idle? && b !in s.owner
    case EndDirect => s.at[t].Owning?
  }

  /** One step of thread t. */
  function Next(s: State, t: ThreadId, a: Action): State
    requires Enabled(s, t, a)
  {
    var here := s.at[t];
    match a
    case StartLock(d) => Goto(s, t, Locking(d, s.pointer[d]))
    case Acquire => Take(s, t, here.buffer, Checking(here.delegate, here.buffer))
    case Check =>
      var latest := s.pointer[here.delegate];
      Goto(s, t, if here.buffer == latest then Holding(here.delegate, here.buffer)
        else Releasing(here.delegate, here.buffer, latest))
    case Release => Free(s, t, here.buffer, Locking(here.delegate, here.latest))
    case Unlock => Free(s, t, s.pointer[here.delegate], Idle) // whatever buffer the delegate has now
    case StartTry(d) => Goto(s, t, Trying(d, s.pointer[d]))
    case TryAcquire =>
      if here.buffer !in s.owner
      then Take(s, t, here.buffer, TryChecking(here.delegate, here.buffer, true))
      else Goto(s, t, TryChecking(here.delegate, here.buffer, false))
    case TryCheck =>
      var latest := s.pointer[here.delegate];
      Goto(s, t,
           if here.buffer == latest then (if here.success then Holding(here.delegate, here.buffer) else Idle)
           else if here.success then TryReleasing(here.delegate, here.buffer, latest)
           else Trying(here.delegate, latest))
    case TryRelease => Free(s, t, here.buffer, Trying(here.delegate, here.latest))
    case BeginMerge(o, n) => Take(s, t, o, Merging(o, n))
    case Repoint(d) => s.(pointer := s.pointer[d := here.target])
    case EndMerge => Free(s, t, here.buffer, Idle)
    case BeginDirect(b) => Take(s, t, b, Owning(b))
    case EndDirect => Free(s, t, here.buffer, Idle)
  }

  function Goto(s: State, t: ThreadId, p: Position): State { s.(at := s.at[t := p]) }

  function Take(s: State, t: ThreadId, b: BufferId, p: Position): State {
    s.(owner := s.owner[b := t], at := s.at[t := p])
  }

  function Free(s: State, t: ThreadId, b: BufferId, p: Position): State {
    s.(owner := s.owner - {b}, at := s.at[t := p])
  }

  /** Mutexes are owned by exactly the threads that are at a position holding them, and whoever has locked through
      a delegate has the mutex of the buffer that the delegate points at. */
  ghost predicate Safe(s: State) {
    && (forall t :: t in s.at && s.at[t].Mutex().Some? ==>
          s.at[t].Mutex().value in s.owner && s.owner[s.at[t].Mutex().value] == t)
    && (forall b :: b in s.owner ==> s.owner[b] in s.at && s.at[s.owner[b]].Mutex() == Some(b))
    && (forall t :: t in s.at && s.at[t].Holding? ==>
          s.at[t].delegate in s.pointer && s.pointer[s.at[t].delegate] == s.at[t].buffer)
  }

  ghost predicate Initial(s: State) {
    s.owner == map[] && forall t :: t in s.at ==> s.at[t].Idle?
  }

  lemma GotoSafe(s: State, t: ThreadId, p: Position)
    requires Safe(s) && t in s.at && p.Mutex() == s.at[t].Mutex()
    requires p.Holding? ==> p.delegate in s.pointer && s.pointer[p.delegate] == p.buffer
    ensures Safe(Goto(s, t, p))
  {
  }

  lemma TakeSafe(s: State, t: ThreadId, b: BufferId, p: Position)
    requires Safe(s) && t in s.at && b !in s.owner && s.at[t].Mutex() == None && p.Mutex() == Some(b) && !p.Holding?
    ensures Safe(Take(s, t, b, p))
  {
  }

  lemma FreeSafe(s: State, t: ThreadId, b: BufferId, p: Position)
    requires Safe(s) && t in s.at && s.at[t].Mutex() == Some(b) && p.Mutex() == None
    ensures Safe(Free(s, t, b, p))
  {
  }

  /** No delegate that somebody has locked can be repointed: that takes the mutex which the holder has. */
  lemma RepointSafe(s: State, t: ThreadId, d: DelegateId)
    requires Safe(s) && Enabled(s, t, Repoint(d))
    ensures Safe(Next(s, t, Repoint(d)))
    ensures forall u :: u in s.at && s.at[u].Holding? ==> s.at[u].delegate != d
  {
    forall u | u in s.at && s.at[u].Holding? ensures s.at[u].delegate != d {
      assert s.at[u].Mutex() == Some(s.at[u].buffer);
      assert s.at[t].Mutex() == Some(s.at[t].buffer);
    }
  }

  /** Every step keeps the state safe. */
  lemma StepSafe(s: State, t: ThreadId, a: Action)
    requires Safe(s) && Enabled(s, t, a)
    ensures Safe(Next(s, t, a))
  {
    hide Safe;
    var here := s.at[t];
    match a
    case Acquire => TakeSafe(s, t, here.buffer, Checking(here.delegate, here.buffer));
    case TryAcquire =>
      if here.buffer !in s.owner {
        TakeSafe(s, t, here.buffer, TryChecking(here.delegate, here.buffer, true));
      } else {
        GotoSafe(s, t, TryChecking(here.delegate, here.buffer, false));
      }
    case BeginMerge(o, n) => TakeSafe(s, t, o, Merging(o, n));
    case BeginDirect(b) => TakeSafe(s, t, b, Owning(b));
    case Release => FreeSafe(s, t, here.buffer, Locking(here.delegate, here.latest));
    case TryRelease => FreeSafe(s, t, here.buffer, Trying(here.delegate, here.latest));
    case EndMerge => FreeSafe(s, t, here.buffer, Idle);
    case EndDirect => FreeSafe(s, t, here.buffer, Idle);
    case Unlock =>
      HolderIsLatest(s, t);
      FreeSafe(s, t, here.buffer, Idle);
    case Repoint(d) => RepointSafe(s, t, d);
    case StartLock(d) => GotoSafe(s, t, Locking(d, s.pointer[d]));
    case StartTry(d) => GotoSafe(s, t, Trying(d, s.pointer[d]));
    case Check => GotoSafe(s, t, Next(s, t, a).at[t]);
    case TryCheck => GotoSafe(s, t, Next(s, t, a).at[t]);
  }

  /** When lock or a successful try_lock has returned, the mutex held is that of the delegate's current buffer. */
  lemma HolderIsLatest(s: State, t: ThreadId)
    requires Safe(s) && t in s.at && s.at[t].Holding?
    ensures s.at[t].delegate in s.pointer && s.pointer[s.at[t].delegate] == s.at[t].buffer
    ensures s.at[t].buffer in s.owner && s.owner[s.at[t].buffer] == t
  {
    assert s.at[t].Mutex() == Some(s.at[t].buffer);
  }

  /** A run: states and the steps between them. */
  ghost predicate IsRun(states: seq<State>, threads: seq<ThreadId>, actions: seq<Action>) {
    && |states| == |actions| + 1 == |threads| + 1
    && forall i :: 0 <= i < |actions| ==>
      Enabled(states[i], threads[i], actions[i]) && states[i + 1] == Next(states[i], threads[i], actions[i])
  }

  /** Every state of every run is safe. */
  lemma {:induction false} RunSafe(states: seq<State>, threads: seq<ThreadId>, actions: seq<Action>, n: nat)
    requires IsRun(states, threads, actions) && Initial(states[0]) && n < |states|
    ensures Safe(states[n])
  {
    if n > 0 {
      RunSafe(states, threads, actions, n - 1);
      StepSafe(states[n - 1], threads[n - 1], actions[n - 1]);
      assert states[n - 1 + 1] == Next(states[n - 1], threads[n - 1], actions[n - 1]);
    }
  }

  /** No other step moves a thread, and a holder stays one until it unlocks. */
  lemma HolderStays(s: State, t: ThreadId, u: ThreadId, a: Action)
    requires Safe(s) && Enabled(s, u, a) && t in s.at && s.at[t].Holding? && !(u == t && a == Unlock)
    ensures t in Next(s, u, a).at && Next(s, u, a).at[t] == s.at[t]
  {
  }

  /** In every run, whatever merges and other lockers do: from the moment a thread has locked through a delegate until
      it unlocks, the delegate points at the same buffer and that buffer's mutex is the thread's. */
  lemma {:induction false} LockedUntilUnlock(states: seq<State>, threads: seq<ThreadId>, actions: seq<Action>,
                                             t: ThreadId, m: nat, n: nat)
    requires IsRun(states, threads, actions) && Initial(states[0]) && m <= n < |states|
    requires t in states[m].at && states[m].at[t].Holding?
    requires forall i :: m <= i < n ==> !(threads[i] == t && actions[i] == Unlock)
    ensures t in states[n].at && states[n].at[t] == states[m].at[t]
    ensures var d, b := states[m].at[t].delegate, states[m].at[t].buffer;
      && d in states[n].pointer && states[n].pointer[d] == b
      && b in states[n].owner && states[n].owner[b] == t
  {
    if n > m {
      LockedUntilUnlock(states, threads, actions, t, m, n - 1);
      RunSafe(states, threads, actions, n - 1);
      HolderStays(states[n - 1], t, threads[n - 1], actions[n - 1]);
      assert states[n - 1 + 1] == Next(states[n - 1], threads[n - 1], actions[n - 1]);
    }
    RunSafe(states, threads, actions, n);
    HolderIsLatest(states[n], t);
  }

  /** No two threads hold delegates of one buffer. */
  lemma MutualExclusion(s: State, t: ThreadId, u: ThreadId)
    requires Safe(s) && t in s.at && u in s.at && t != u && s.at[t].Holding? && s.at[u].Holding?
    ensures s.at[t].buffer != s.at[u].buffer && s.at[t].delegate != s.at[u].delegate
  {
    HolderIsLatest(s, t);
    HolderIsLatest(s, u);
  }

  // ---- that locking gets on

  /** From idle, with the mutex free, the three steps of lock can be taken in turn and end with the mutex held. */
  lemma LockReturns(s: State, t: ThreadId, d: DelegateId)
    requires t in s.at && s.at[t].Idle? && d in s.pointer && s.pointer[d] !in s.owner
    ensures Enabled(s, t, StartLock(d))
    ensures var s1 := Next(s, t, StartLock(d));
      && Enabled(s1, t, Acquire)
      && var s2 := Next(s1, t, Acquire);
      && Enabled(s2, t, Check) && Next(s2, t, Check) == Take(s, t, s.pointer[d], Holding(d, s.pointer[d]))
  {
    var s1 := Next(s, t, StartLock(d));
    var s2 := Next(s1, t, Acquire);
    assert Next(s2, t, Check).at == s.at[t := Holding(d, s.pointer[d])];
  }

  /** From idle, with no step of others in between, try_lock succeeds exactly if the mutex is free. */
  lemma TryLockReturns(s: State, t: ThreadId, d: DelegateId)
    requires t in s.at && s.at[t].Idle? && d in s.pointer
    ensures Enabled(s, t, StartTry(d))
    ensures var s1 := Next(s, t, StartTry(d));
      && Enabled(s1, t, TryAcquire)
      && var s2 := Next(s1, t, TryAcquire);
      && Enabled(s2, t, TryCheck)
      && Next(s2, t, TryCheck) ==
         if s.pointer[d] in s.owner then s else Take(s, t, s.pointer[d], Holding(d, s.pointer[d]))
  {
    var s1 := Next(s, t, StartTry(d));
    var s2 := Next(s1, t, TryAcquire);
    assert Next(s2, t, TryCheck).at ==
      if s.pointer[d] in s.owner then s.at else s.at[t := Holding(d, s.pointer[d])];
  }

  /** How many steps of its own a thread is away from the end of lock or try_lock if nobody disturbs it. */
  function StepsLeft(p: Position): nat {
    match p
    case Releasing(_, _, _) => 3
    case Locking(_, _) => 2
    case Checking(_, _) => 1
    case TryReleasing(_, _, _) => 3
    case Trying(_, _) => 2
    case TryChecking(_, _, _) => 1
    case _ => 0
  }

  /** The thread is locking through the delegate, and the buffer that it has loaded last is the delegate's. */
  ghost predicate UpToDate(s: State, t: ThreadId, d: DelegateId) {
    && t in s.at && d in s.pointer && StepsLeft(s.at[t]) > 0 && s.at[t].delegate == d
    && s.pointer[d] == if StepsLeft(s.at[t]) == 3 then s.at[t].latest else s.at[t].buffer
  }

  predicate IsTry(p: Position) { p.TryReleasing? || p.Trying? || p.TryChecking? }

  /** Each load of the pointer makes a thread up to date, unless it is the last. */
  lemma LoadsAreUpToDate(s: State, t: ThreadId, a: Action)
    requires Enabled(s, t, a) && (a.StartLock? || a.StartTry? || a == Check || a == TryCheck)
    ensures var here := Next(s, t, a).at[t];
      var d := if a.StartLock? || a.StartTry? then a.delegate else s.at[t].delegate;
      UpToDate(Next(s, t, a), t, d) || (here == Idle && a == TryCheck) || here == Holding(d, s.pointer[d])
  {
  }

  /** A step that does not repoint the delegate leaves a thread up to date; only its own brings it on, by one, to the
      end at last: with the mutex held, or with try_lock having found it taken. */
  lemma UpToDateStep(s: State, t: ThreadId, d: DelegateId, u: ThreadId, a: Action)
    requires UpToDate(s, t, d) && Enabled(s, u, a) && a != Repoint(d)
    ensures var s' := Next(s, u, a);
      && t in s'.at && d in s'.pointer && s'.pointer[d] == s.pointer[d]
      && (u != t ==> s'.at[t] == s.at[t])
      && (u == t ==> StepsLeft(s'.at[t]) == StepsLeft(s.at[t]) - 1)
      && (StepsLeft(s'.at[t]) > 0 ==> UpToDate(s', t, d) && IsTry(s'.at[t]) == IsTry(s.at[t]))
      && (StepsLeft(s'.at[t]) == 0 ==>
            s'.at[t] == if s.at[t].TryChecking? && !s.at[t].success then Idle else Holding(d, s.pointer[d]))
      && (s'.at[t].TryChecking? && u == t ==> (s'.at[t].success <==> s.pointer[d] !in s.owner))
  {
  }

  /** The steps of one thread in part of a run. */
  function OwnSteps(threads: seq<ThreadId>, t: ThreadId, m: nat, n: nat): nat
    requires m <= n <= |threads|
  {
    if n == m then 0 else OwnSteps(threads, t, m, n - 1) + if threads[n - 1] == t then 1 else 0
  }

  /** In every run: while its delegate is not repointed, a locking thread comes nearer to its end with each step that it
      takes itself, whatever others do, and never goes back. */
  lemma {:induction false} GetsOn(states: seq<State>, threads: seq<ThreadId>, actions: seq<Action>, t: ThreadId,
                                  d: DelegateId, m: nat, n: nat)
    requires IsRun(states, threads, actions) && m <= n < |states| && UpToDate(states[m], t, d)
    requires forall i :: m <= i < n ==> actions[i] != Repoint(d)
    requires OwnSteps(threads, t, m, n) < StepsLeft(states[m].at[t])
    ensures UpToDate(states[n], t, d) && IsTry(states[n].at[t]) == IsTry(states[m].at[t])
    ensures states[n].pointer[d] == states[m].pointer[d]
    ensures StepsLeft(states[n].at[t]) == StepsLeft(states[m].at[t]) - OwnSteps(threads, t, m, n)
  {
    hide UpToDate, Enabled, Next, StepsLeft, IsTry;
    if n > m {
      GetsOn(states, threads, actions, t, d, m, n - 1);
      assert states[n - 1 + 1] == Next(states[n - 1], threads[n - 1], actions[n - 1]);
      UpToDateStep(states[n - 1], t, d, threads[n - 1], actions[n - 1]);
    }
  }

  /** In every run: a lock whose delegate is not repointed returns with its last step, holding the delegate's buffer. */
  lemma UndisturbedLock(states: seq<State>, threads: seq<ThreadId>, actions: seq<Action>, t: ThreadId, d: DelegateId,
                        m: nat, n: nat)
    requires IsRun(states, threads, actions) && m <= n < |actions| && UpToDate(states[m], t, d)
    requires !IsTry(states[m].at[t]) && forall i :: m <= i <= n ==> actions[i] != Repoint(d)
    requires threads[n] == t && OwnSteps(threads, t, m, n) == StepsLeft(states[m].at[t]) - 1
    ensures t in states[n + 1].at && states[n + 1].at[t] == Holding(d, states[m].pointer[d])
  {
    GetsOn(states, threads, actions, t, d, m, n);
    UpToDateStep(states[n], t, d, t, actions[n]);
  }

  /** In every run: a try_lock whose delegate is not repointed takes the mutex exactly if that is free when it tries. */
  lemma UndisturbedTry(states: seq<State>, threads: seq<ThreadId>, actions: seq<Action>, t: ThreadId, d: DelegateId,
                       m: nat, n: nat)
    requires IsRun(states, threads, actions) && m < n < |actions| && UpToDate(states[m], t, d)
    requires threads[m] == t && actions[m] == TryAcquire && threads[n] == t && OwnSteps(threads, t, m + 1, n) == 0
    requires forall i :: m <= i <= n ==> actions[i] != Repoint(d)
    ensures var b := states[m].pointer[d];
      t in states[n + 1].at && states[n + 1].at[t] == if b in states[m].owner then Idle else Holding(d, b)
  {
    assert states[m + 1] == Next(states[m], t, TryAcquire);
    UpToDateStep(states[m], t, d, t, TryAcquire);
    StandsStill(states, threads, actions, t, d, m + 1, n);
    UpToDateStep(states[n], t, d, t, actions[n]);
  }

  /** Without steps of its own and repointing, nothing changes for a locking thread. */
  lemma {:induction false} StandsStill(states: seq<State>, threads: seq<ThreadId>, actions: seq<Action>, t: ThreadId,
                                       d: DelegateId, m: nat, n: nat)
    requires IsRun(states, threads, actions) && m <= n < |states| && UpToDate(states[m], t, d)
    requires OwnSteps(threads, t, m, n) == 0 && forall i :: m <= i < n ==> actions[i] != Repoint(d)
    ensures UpToDate(states[n], t, d) && states[n].at[t] == states[m].at[t]
    ensures states[n].pointer[d] == states[m].pointer[d]
  {
    hide Enabled, Next, StepsLeft, IsTry;
    if n > m {
      StandsStill(states, threads, actions, t, d, m, n - 1);
      assert states[n - 1 + 1] == Next(states[n - 1], threads[n - 1], actions[n - 1]);
      UpToDateStep(states[n - 1], t, d, threads[n - 1], actions[n - 1]);
    }
  }

  /** In every run: a thread that finds its buffer outdated does so because its delegate was repointed since it loaded
      the pointer. */
  lemma OutdatedByRepointing(states: seq<State>, threads: seq<ThreadId>, actions: seq<Action>, t: ThreadId,
                             d: DelegateId, m: nat, n: nat) returns (i: nat)
    requires IsRun(states, threads, actions) && m <= n < |actions| && UpToDate(states[m], t, d)
    requires OwnSteps(threads, t, m, n) < StepsLeft(states[m].at[t])
    requires threads[n] == t && t in states[n + 1].at
    requires states[n + 1].at[t].Releasing? || states[n + 1].at[t].TryReleasing? ||
      (actions[n] == TryCheck && states[n + 1].at[t].Trying?)
    ensures m <= i < n && actions[i] == Repoint(d)
  {
    if forall i :: m <= i < n ==> actions[i] != Repoint(d) {
      GetsOn(states, threads, actions, t, d, m, n);
      UpToDateStep(states[n], t, d, t, actions[n]);
      assert false;
    }
    i :| m <= i < n && actions[i] == Repoint(d);
  }

  /** In every run: a delegate that has left the buffer being merged was pointed at the target by the merge. */
  lemma {:induction false} MergeRepoints(states: seq<State>, threads: seq<ThreadId>, actions: seq<Action>, t: ThreadId,
                                         d: DelegateId, m: nat, n: nat) returns (i: nat)
    requires IsRun(states, threads, actions) && Initial(states[0]) && m <= n < |states|
    requires t in states[m].at && states[m].at[t].Merging? && d in states[m].pointer
    requires states[m].pointer[d] == states[m].at[t].buffer
    requires forall j :: m <= j <= n ==> t in states[j].at && states[j].at[t] == states[m].at[t]
    requires d in states[n].pointer && states[n].pointer[d] != states[m].at[t].buffer
    ensures m <= i < n && threads[i] == t && actions[i] == Repoint(d)
    ensures d in states[i + 1].pointer && states[i + 1].pointer[d] == states[m].at[t].target
  {
    hide Next, Enabled, Safe;
    assert states[n - 1 + 1] == Next(states[n - 1], threads[n - 1], actions[n - 1]);
    RunSafe(states, threads, actions, n - 1);
    RepointedBy(states[n - 1], t, d, threads[n - 1], actions[n - 1]);
    i := n - 1;
    if states[i].pointer[d] != states[m].at[t].buffer {
      i := MergeRepoints(states, threads, actions, t, d, m, n - 1);
    }
  }

  /** A delegate of the buffer being merged is repointed by the merge alone. */
  lemma RepointedBy(s: State, t: ThreadId, d: DelegateId, u: ThreadId, a: Action)
    requires Safe(s) && Enabled(s, u, a) && t in s.at && s.at[t].Merging? && d in Next(s, u, a).pointer
    ensures d in s.pointer
    ensures s.pointer[d] == s.at[t].buffer && Next(s, u, a).pointer[d] != s.pointer[d] ==>
      u == t && a == Repoint(d) && Next(s, u, a).pointer[d] == s.at[t].target
  {
    assert s.at[t].Mutex() == Some(s.at[t].buffer);
    if a.Repoint? {
      assert s.at[u].Mutex() == Some(s.at[u].buffer);
    }
  }
}
