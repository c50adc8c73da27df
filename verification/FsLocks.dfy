/**
  The cross-process lock protocol (src/core/fs_coordination.rs) as a state machine.

  Any number of processes take sorted, de-duplicated lists of lock files one by one. The
  in-process mutex is dropped as soon as it is taken, so exclusion rests on the lock files
  alone and the machine leaves it out. A lock file remembers the process that created it;
  the program never reads that, only whether the file exists and how old it is.
 */
module FsLocks {
  type Key = nat

  const STALE_LOCK_AGE: nat := 30_000

  datatype RawProc =
    | Idle
      // Has created keys[..held] and is about to try keys[held].
    | Acquiring(keys: seq<Key>, held: nat)
      // As before, between finding the file of keys[held] stale and removing it.
    | Reclaiming(keys: seq<Key>, held: nat)
    | Holding(keys: seq<Key>)
      // Drops its guards in forward order; keys[..dropped] are gone.
    | Releasing(keys: seq<Key>, dropped: nat)
    | Crashed

  predicate Ascending(keys: seq<Key>) {
    forall i, j :: 0 <= i < j < |keys| ==> keys[i] < keys[j]
  }

  type Proc = proc: RawProc |
    match proc
    case Idle => true
    case Acquiring(keys, held) => Ascending(keys) && held < |keys|
    case Reclaiming(keys, held) => Ascending(keys) && held < |keys|
    case Holding(keys) => Ascending(keys)
    case Releasing(keys, dropped) => Ascending(keys) && dropped <= |keys|
    case Crashed => true
    witness Idle

  datatype LockFile = LockFile(owner: nat, created: nat)

  datatype State = State(procs: seq<Proc>, files: map<Key, LockFile>, now: nat)

  datatype Action =
    | Create | Timeout | CheckStale | RemoveStale | StartRelease | DropNext | Finish | Crash

  datatype Step = Tick(elapsed: nat) | Begin(p: nat, keys: seq<Key>) | Act(p: nat, action: Action)

  predicate Waiting(proc: Proc) { proc.Acquiring? || proc.Reclaiming? }

  /** The lock file a waiting process tries next. */
  function Wanted(proc: Proc): Key
    requires Waiting(proc)
  {
    proc.keys[proc.held]
  }

  /** The lock files a process believes it holds. */
  function Held(proc: Proc): seq<Key> {
    match proc
    case Acquiring(keys, held) => keys[..held]
    case Reclaiming(keys, held) => keys[..held]
    case Holding(keys) => keys
    case Releasing(keys, dropped) => keys[dropped..]
    case _ => []
  }

  predicate IsStale(s: State, k: Key) {
    k in s.files && s.now - s.files[k].created > STALE_LOCK_AGE
  }

  predicate CanAct(s: State, proc: Proc, action: Action) {
    match action
    case Create => proc.Acquiring? && Wanted(proc) !in s.files
    case Timeout => proc.Acquiring?
    case CheckStale => proc.Acquiring? && IsStale(s, Wanted(proc))
    case RemoveStale => proc.Reclaiming?
    case StartRelease => proc.Holding?
    case DropNext => proc.Releasing? && proc.dropped < |proc.keys|
    case Finish => proc.Releasing? && proc.dropped == |proc.keys|
    case Crash => !proc.Idle? && !proc.Crashed?
  }

  function ProcAfter(s: State, proc: Proc, action: Action): Proc
    requires CanAct(s, proc, action)
  {
    match action
    case Create =>
      if proc.held + 1 == |proc.keys| then Holding(proc.keys) else Acquiring(proc.keys, proc.held + 1)
    case Timeout => Releasing(proc.keys[..proc.held], 0)
    case CheckStale => Reclaiming(proc.keys, proc.held)
    case RemoveStale => Acquiring(proc.keys, proc.held)
    case StartRelease => Releasing(proc.keys, 0)
    case DropNext => Releasing(proc.keys, proc.dropped + 1)
    case Finish => Idle
    case Crash => Crashed
  }

  function FilesAfter(s: State, p: nat, proc: Proc, action: Action): map<Key, LockFile>
    requires CanAct(s, proc, action)
  {
    match action
    case Create => s.files[Wanted(proc) := LockFile(p, s.now)]
    case RemoveStale => s.files - {Wanted(proc)}
    case DropNext => s.files - {proc.keys[proc.dropped]}
    case _ => s.files
  }

  predicate Enabled(s: State, step: Step) {
    match step
    case Tick(_) => true
    case Begin(p, keys) => p < |s.procs| && s.procs[p].Idle? && Ascending(keys) && keys != []
    case Act(p, action) => p < |s.procs| && CanAct(s, s.procs[p], action)
  }

  function Next(s: State, step: Step): State
    requires Enabled(s, step)
  {
    match step
    case Tick(elapsed) => s.(now := s.now + elapsed)
    case Begin(p, keys) => s.(procs := s.procs[p := Acquiring(keys, 0)])
    case Act(p, action) =>
      State(s.procs[p := ProcAfter(s, s.procs[p], action)], FilesAfter(s, p, s.procs[p], action), s.now)
  }

  // ---------------------------------------------------------------- exclusion

  predicate HeldFilesAreOwn(s: State, p: nat)
    requires p < |s.procs|
  {
    forall k :: k in Held(s.procs[p]) ==> k in s.files && s.files[k].owner == p
  }

  predicate FileIsHeld(s: State, k: Key)
    requires k in s.files
  {
    s.files[k].owner < |s.procs| &&
    (s.procs[s.files[k].owner].Crashed? || k in Held(s.procs[s.files[k].owner]))
  }

  /** A live process holds exactly the files it created; the other files are abandoned. */
  predicate Exclusive(s: State) {
    && (forall p :: 0 <= p < |s.procs| ==> HeldFilesAreOwn(s, p))
    && (forall k :: k in s.files ==> FileIsHeld(s, k))
  }

  predicate NobodyCrashed(s: State) { forall p :: 0 <= p < |s.procs| ==> !s.procs[p].Crashed? }

  /** Exclusion proper: no lock is held twice. */
  lemma HeldOnce(s: State, p: nat, q: nat, k: Key)
    requires Exclusive(s) && p < |s.procs| && q < |s.procs|
    requires k in Held(s.procs[p]) && k in Held(s.procs[q])
    ensures p == q
  {
    assert HeldFilesAreOwn(s, p) && HeldFilesAreOwn(s, q);
  }

  /** With no process crashed the lock files are the union of what the processes hold. */
  lemma FilesAreTheUnion(s: State, k: Key)
    requires Exclusive(s) && NobodyCrashed(s)
    ensures k in s.files <==> exists p :: 0 <= p < |s.procs| && k in Held(s.procs[p])
  {
    if k in s.files { assert FileIsHeld(s, k); }
    if p :| 0 <= p < |s.procs| && k in Held(s.procs[p]) { assert HeldFilesAreOwn(s, p); }
  }

  /** The one step that can break exclusion: removing a lock file that had been found stale
      but belongs to a live process by the time it is removed. */
  predicate RemovesLiveLock(s: State, step: Step)
    requires Enabled(s, step)
  {
    step.Act? && step.action.RemoveStale? &&
    var k := Wanted(s.procs[step.p]);
    k in s.files && s.files[k].owner < |s.procs| && !s.procs[s.files[k].owner].Crashed?
  }

  /** How an action changes what the acting process holds. */
  lemma HeldChange(s: State, proc: Proc, action: Action, k: Key)
    requires CanAct(s, proc, action)
    ensures k in Held(ProcAfter(s, proc, action)) <==>
            match action
            case Create => k in Held(proc) || k == Wanted(proc)
            case DropNext => k in Held(proc) && k != proc.keys[proc.dropped]
            case Crash => false
            case _ => k in Held(proc)
  {
    match action
    case Create =>
      assert proc.keys[..proc.held + 1] == proc.keys[..proc.held] + [proc.keys[proc.held]];
      assert proc.keys[..|proc.keys|] == proc.keys;
    case DropNext =>
      assert proc.keys[proc.dropped..] == [proc.keys[proc.dropped]] + proc.keys[proc.dropped + 1..];
    case _ =>
  }

  lemma HeldStaysOwn(s: State, step: Step, q: nat)
    requires Exclusive(s) && Enabled(s, step) && !RemovesLiveLock(s, step) && q < |s.procs|
    ensures HeldFilesAreOwn(Next(s, step), q)
  {
    var next := Next(s, step);
    assert HeldFilesAreOwn(s, q);
    forall k | k in Held(next.procs[q]) ensures k in next.files && next.files[k].owner == q {
      if step.Act? {
        HeldChange(s, s.procs[step.p], step.action, k);
        if step.action.DropNext? && k in s.files {
          assert HeldFilesAreOwn(s, step.p);
        }
      }
    }
  }

  lemma FileStaysHeld(s: State, step: Step, k: Key)
    requires Exclusive(s) && Enabled(s, step) && k in Next(s, step).files
    ensures FileIsHeld(Next(s, step), k)
  {
    if k in s.files { assert FileIsHeld(s, k); }
    if step.Act? { HeldChange(s, s.procs[step.p], step.action, k); }
  }

  /** Exclusion survives a step exactly when the step does not remove a live lock. */
  lemma ExclusionStepIff(s: State, step: Step)
    requires Exclusive(s) && Enabled(s, step)
    ensures Exclusive(Next(s, step)) <==> !RemovesLiveLock(s, step)
  {
    var next := Next(s, step);
    if RemovesLiveLock(s, step) {
      var k := Wanted(s.procs[step.p]);
      var q := s.files[k].owner;
      assert FileIsHeld(s, k);
      HeldChange(s, s.procs[step.p], step.action, k);
      assert k in Held(next.procs[q]) && k !in next.files;
      assert !HeldFilesAreOwn(next, q);
    } else {
      forall q | 0 <= q < |next.procs| ensures HeldFilesAreOwn(next, q) {
        HeldStaysOwn(s, step, q);
      }
      forall k | k in next.files ensures FileIsHeld(next, k) {
        FileStaysHeld(s, step, k);
      }
    }
  }

  // ---------------------------------------------------------------- runs

  predicate CanRun(s: State, steps: seq<Step>)
    decreases |steps|
  {
    steps != [] ==> Enabled(s, steps[0]) && CanRun(Next(s, steps[0]), steps[1..])
  }

  function Run(s: State, steps: seq<Step>): State
    requires CanRun(s, steps)
    decreases |steps|
  {
    if steps == [] then s else Run(Next(s, steps[0]), steps[1..])
  }

  /** A run in which no live lock is removed; crashes and reclaims may happen. */
  predicate SafeRun(s: State, steps: seq<Step>)
    decreases |steps|
  {
    steps != [] ==>
      Enabled(s, steps[0]) && !RemovesLiveLock(s, steps[0]) && SafeRun(Next(s, steps[0]), steps[1..])
  }

  predicate ExclusiveThroughout(s: State, steps: seq<Step>)
    requires CanRun(s, steps)
    decreases |steps|
  {
    Exclusive(s) && (steps != [] ==> ExclusiveThroughout(Next(s, steps[0]), steps[1..]))
  }

  /** Exclusion holds all through a run, crashes and reclaims included, exactly when no step
      of it removes a live lock. */
  lemma {:induction false} ExclusiveRunIff(s: State, steps: seq<Step>)
    requires CanRun(s, steps) && Exclusive(s)
    ensures ExclusiveThroughout(s, steps) <==> SafeRun(s, steps)
    decreases |steps|
  {
    if steps != [] {
      ExclusionStepIff(s, steps[0]);
      if !RemovesLiveLock(s, steps[0]) { ExclusiveRunIff(Next(s, steps[0]), steps[1..]); }
    }
  }

  lemma {:induction false} SafeRunsAreExclusive(s: State, steps: seq<Step>)
    requires SafeRun(s, steps) && Exclusive(s)
    ensures CanRun(s, steps) && Exclusive(Run(s, steps))
    decreases |steps|
  {
    if steps != [] {
      ExclusionStepIff(s, steps[0]);
      SafeRunsAreExclusive(Next(s, steps[0]), steps[1..]);
    }
  }

  /** No lock file has outlived the stale age: every holder released in time. */
  predicate Timely(s: State) { forall k :: k in s.files ==> !IsStale(s, k) }

  predicate NobodyReclaims(s: State) { forall p :: 0 <= p < |s.procs| ==> !s.procs[p].Reclaiming? }

  /** The steps can be taken one after the other, through timely states only. */
  predicate TimelyRun(s: State, steps: seq<Step>)
    decreases |steps|
  {
    Timely(s) &&
    (steps != [] ==> Enabled(s, steps[0]) && TimelyRun(Next(s, steps[0]), steps[1..]))
  }

  /** Where nothing gets stale nothing is reclaimed. */
  lemma {:induction false} TimelyRunsAreSafe(s: State, steps: seq<Step>)
    requires TimelyRun(s, steps) && NobodyReclaims(s)
    ensures SafeRun(s, steps) && CanRun(s, steps) && NobodyReclaims(Run(s, steps))
    decreases |steps|
  {
    if steps != [] { TimelyRunsAreSafe(Next(s, steps[0]), steps[1..]); }
  }

  function Initial(n: nat): State { State(seq(n, i => Idle), map[], 0) }

  /** In every run in which no lock outlives the stale age, exclusion holds throughout. */
  lemma TimelyRunsAreExclusive(s: State, steps: seq<Step>)
    requires TimelyRun(s, steps) && Exclusive(s) && NobodyReclaims(s)
    ensures CanRun(s, steps)
    ensures Exclusive(Run(s, steps)) && NobodyReclaims(Run(s, steps))
    ensures ExclusiveThroughout(s, steps)
  {
    TimelyRunsAreSafe(s, steps);
    SafeRunsAreExclusive(s, steps);
    ExclusiveRunIff(s, steps);
  }

  lemma InitialIsExclusive(n: nat, steps: seq<Step>)
    requires TimelyRun(Initial(n), steps) || SafeRun(Initial(n), steps)
    ensures CanRun(Initial(n), steps) && Exclusive(Run(Initial(n), steps))
  {
    if TimelyRun(Initial(n), steps) { TimelyRunsAreSafe(Initial(n), steps); }
    SafeRunsAreExclusive(Initial(n), steps);
  }

  // ---------------------------------------------------------------- all or nothing

  /** The lock files a process created and has not removed. */
  function Owned(s: State, p: nat): set<Key> { set k | k in s.files && s.files[k].owner == p }

  function KeySet(keys: seq<Key>): set<Key> { set k | k in keys }

  lemma OwnedIsHeld(s: State, p: nat)
    requires Exclusive(s) && p < |s.procs| && !s.procs[p].Crashed?
    ensures Owned(s, p) == KeySet(Held(s.procs[p]))
  {
    assert HeldFilesAreOwn(s, p);
    forall k | k in Owned(s, p) ensures k in Held(s.procs[p]) { assert FileIsHeld(s, k); }
  }

  /** The keys of the last request a process began, or what it was after before. */
  function Requested(before: seq<Key>, steps: seq<Step>, p: nat): seq<Key>
    decreases |steps|
  {
    if steps == [] then before
    else
      Requested(if steps[0].Begin? && steps[0].p == p then steps[0].keys else before, steps[1..], p)
  }

  /** What a process is at belongs to this request. */
  predicate Pursues(proc: Proc, request: seq<Key>) {
    match proc
    case Acquiring(keys, _) => keys == request
    case Reclaiming(keys, _) => keys == request
    case Holding(keys) => keys == request
    case Releasing(keys, _) => keys <= request
    case _ => true
  }

  lemma {:induction false} RunsPursueRequests(s: State, p: nat, steps: seq<Step>, before: seq<Key>)
    requires CanRun(s, steps) && p < |s.procs| && Pursues(s.procs[p], before)
    ensures |Run(s, steps).procs| == |s.procs|
    ensures Pursues(Run(s, steps).procs[p], Requested(before, steps, p))
    decreases |steps|
  {
    if steps != [] {
      var now := if steps[0].Begin? && steps[0].p == p then steps[0].keys else before;
      RunsPursueRequests(Next(s, steps[0]), p, steps[1..], now);
    }
  }

  /** All or nothing, whatever the other processes do in between and whoever crashes: after
      any run that removes no live lock, a process that is idle has no lock file in the
      directory, and one that holds has exactly the files of its last request. */
  lemma AllOrNothing(s: State, p: nat, steps: seq<Step>)
    requires SafeRun(s, steps) && Exclusive(s)
    requires p < |s.procs| && s.procs[p].Idle?
    ensures CanRun(s, steps)
    ensures var end, request := Run(s, steps), Requested([], steps, p);
            && |end.procs| == |s.procs|
            && (end.procs[p].Idle? ==> Owned(end, p) == {})
            && (end.procs[p].Holding? ==> end.procs[p].keys == request && Owned(end, p) == KeySet(request))
  {
    SafeRunsAreExclusive(s, steps);
    RunsPursueRequests(s, p, steps, []);
    if !Run(s, steps).procs[p].Crashed? { OwnedIsHeld(Run(s, steps), p); }
  }

  predicate LeavesOthersAlone(step: Step, p: nat) { step.Tick? || step.p == p }

  /** The lock files of every other process that is alive. */
  function LiveFilesOfOthers(s: State, p: nat): map<Key, LockFile> {
    map k | k in s.files && IsLiveAndOther(s, p, k) :: s.files[k]
  }

  predicate IsLiveAndOther(s: State, p: nat, k: Key)
    requires k in s.files
  {
    var owner := s.files[k].owner;
    owner != p && owner < |s.procs| && !s.procs[owner].Crashed?
  }

  lemma OwnStepKeepsLiveFile(s: State, p: nat, step: Step, k: Key)
    requires Exclusive(s) && Enabled(s, step) && LeavesOthersAlone(step, p) && p < |s.procs|
    requires !RemovesLiveLock(s, step)
    ensures var next := Next(s, step);
            && (k in next.files && IsLiveAndOther(next, p, k) <==> k in s.files && IsLiveAndOther(s, p, k))
            && (k in s.files && IsLiveAndOther(s, p, k) ==> next.files[k] == s.files[k])
  {
    assert HeldFilesAreOwn(s, p);
    if step.Act? && step.action.DropNext? {
      var gone := s.procs[p].keys[s.procs[p].dropped];
      assert gone in Held(s.procs[p]) && s.files[gone].owner == p;
    }
  }

  lemma OwnStepsKeepLiveFiles(s: State, p: nat, step: Step)
    requires Exclusive(s) && Enabled(s, step) && LeavesOthersAlone(step, p) && p < |s.procs|
    requires !RemovesLiveLock(s, step)
    ensures LiveFilesOfOthers(Next(s, step), p) == LiveFilesOfOthers(s, p)
  {
    forall k
      ensures var next := Next(s, step);
              && (k in next.files && IsLiveAndOther(next, p, k) <==> k in s.files && IsLiveAndOther(s, p, k))
              && (k in s.files && IsLiveAndOther(s, p, k) ==> next.files[k] == s.files[k])
    {
      OwnStepKeepsLiveFile(s, p, step, k);
    }
  }

  lemma {:induction false} PrefixCanRun(s: State, steps: seq<Step>, i: nat)
    requires CanRun(s, steps) && i <= |steps|
    ensures CanRun(s, steps[..i])
    decreases |steps|
  {
    if i > 0 {
      PrefixCanRun(Next(s, steps[0]), steps[1..], i - 1);
      assert steps[..i][1..] == steps[1..][..i - 1];
    }
  }

  /** Along any such run the steps of a process touch no lock file of another live one. */
  lemma {:induction false} OwnStepsInRunsKeepLiveFiles(s: State, p: nat, steps: seq<Step>, i: nat)
    requires SafeRun(s, steps) && Exclusive(s) && p < |s.procs|
    requires i < |steps| && LeavesOthersAlone(steps[i], p)
    ensures CanRun(s, steps[..i]) && CanRun(s, steps[..i + 1])
    ensures LiveFilesOfOthers(Run(s, steps[..i + 1]), p) == LiveFilesOfOthers(Run(s, steps[..i]), p)
    decreases |steps|
  {
    SafeRunsAreExclusive(s, steps);
    PrefixCanRun(s, steps, i);
    PrefixCanRun(s, steps, i + 1);
    assert steps[..i + 1][1..] == steps[1..][..i];
    if i == 0 {
      OwnStepsKeepLiveFiles(s, p, steps[0]);
    } else {
      assert steps[..i][1..] == steps[1..][..i - 1];
      ExclusionStepIff(s, steps[0]);
      OwnStepsInRunsKeepLiveFiles(Next(s, steps[0]), p, steps[1..], i - 1);
    }
  }

  /** The lock files of everyone else. */
  function OthersFiles(s: State, p: nat): map<Key, LockFile> {
    map k | k in s.files && s.files[k].owner != p :: s.files[k]
  }

  /** A process that does not reclaim adds and removes nothing but its own lock files. */
  lemma OwnStepsKeepOthersFiles(s: State, p: nat, step: Step)
    requires Exclusive(s) && Enabled(s, step) && LeavesOthersAlone(step, p)
    requires p < |s.procs| && !s.procs[p].Reclaiming?
    ensures OthersFiles(Next(s, step), p) == OthersFiles(s, p)
  {
    if step.Act? && step.action.DropNext? { assert HeldFilesAreOwn(s, p); }
  }

  lemma {:induction false} OwnRunKeepsOthersFiles(s: State, p: nat, steps: seq<Step>)
    requires TimelyRun(s, steps) && Exclusive(s) && NobodyReclaims(s)
    requires p < |s.procs|
    requires forall i :: 0 <= i < |steps| ==> LeavesOthersAlone(steps[i], p)
    ensures CanRun(s, steps) && OthersFiles(Run(s, steps), p) == OthersFiles(s, p)
    decreases |steps|
  {
    TimelyRunsAreSafe(s, steps);
    if steps != [] {
      ExclusionStepIff(s, steps[0]);
      OwnStepsKeepOthersFiles(s, p, steps[0]);
      OwnRunKeepsOthersFiles(Next(s, steps[0]), p, steps[1..]);
    }
  }

  /** When nobody else moves, the whole lock directory is as it was when the acquisition ends
      idle, and has grown by exactly the requested keys when it ends holding. */
  lemma AllOrNothingAlone(s: State, p: nat, steps: seq<Step>)
    requires TimelyRun(s, steps) && Exclusive(s) && NobodyReclaims(s)
    requires p < |s.procs| && s.procs[p].Idle?
    requires forall i :: 0 <= i < |steps| ==> LeavesOthersAlone(steps[i], p)
    ensures CanRun(s, steps)
    ensures var end := Run(s, steps);
            |end.procs| == |s.procs| &&
            (end.procs[p].Idle? ==> end.files == s.files) &&
            (end.procs[p].Holding? ==>
              && end.procs[p].keys == Requested([], steps, p)
              && end.files.Keys == s.files.Keys + KeySet(end.procs[p].keys)
              && s.files.Keys !! KeySet(end.procs[p].keys))
  {
    TimelyRunsAreSafe(s, steps);
    AllOrNothing(s, p, steps);
    SafeRunsAreExclusive(s, steps);
    OwnRunKeepsOthersFiles(s, p, steps);
    var end := Run(s, steps);
    OwnedIsHeld(s, p);
    assert OthersFiles(s, p) == s.files by { NothingOwned(s, p); }
    if end.procs[p].Idle? { NothingOwned(end, p); }
    assert end.files.Keys == OthersFiles(end, p).Keys + Owned(end, p);
  }

  lemma NothingOwned(s: State, p: nat)
    requires Owned(s, p) == {}
    ensures OthersFiles(s, p) == s.files
  {
    forall k | k in s.files ensures s.files[k].owner != p { assert k !in Owned(s, p); }
  }

  // ---------------------------------------------------------------- deadlock freedom

  /** Process p is blocked on a lock file that q holds. */
  predicate WaitsFor(s: State, p: nat, q: nat)
    requires p < |s.procs| && q < |s.procs|
  {
    Waiting(s.procs[p]) && Wanted(s.procs[p]) in Held(s.procs[q])
  }

  /** Along a wait the wanted keys strictly ascend. */
  lemma WaitsAscend(s: State, p: nat, q: nat)
    requires p < |s.procs| && q < |s.procs| && WaitsFor(s, p, q) && Waiting(s.procs[q])
    ensures Wanted(s.procs[p]) < Wanted(s.procs[q])
  {
  }

  predicate WaitCycle(s: State, cycle: seq<nat>) {
    && cycle != []
    && (forall i :: 0 <= i < |cycle| ==> cycle[i] < |s.procs|)
    && (forall i :: 0 <= i < |cycle| - 1 ==> WaitsFor(s, cycle[i], cycle[i + 1]))
    && WaitsFor(s, cycle[|cycle| - 1], cycle[0])
  }

  lemma {:induction false} WantedAscends(s: State, cycle: seq<nat>, n: nat)
    requires WaitCycle(s, cycle) && n < |cycle|
    ensures Waiting(s.procs[cycle[0]]) && Waiting(s.procs[cycle[n]])
    ensures Wanted(s.procs[cycle[0]]) <= Wanted(s.procs[cycle[n]])
  {
    if n > 0 {
      WantedAscends(s, cycle, n - 1);
      assert WaitsFor(s, cycle[n - 1], cycle[n]);
      assert n < |cycle| - 1 ==> WaitsFor(s, cycle[n], cycle[n + 1]);
      WaitsAscend(s, cycle[n - 1], cycle[n]);
    } else {
      assert |cycle| > 1 ==> WaitsFor(s, cycle[0], cycle[1]);
    }
  }

  /** No state at all, exclusive or not, has a cycle of waiting processes. */
  lemma NoWaitCycle(s: State, cycle: seq<nat>)
    ensures !WaitCycle(s, cycle)
  {
    if WaitCycle(s, cycle) {
      WantedAscends(s, cycle, |cycle| - 1);
      WaitsAscend(s, cycle[|cycle| - 1], cycle[0]);
      assert false;
    }
  }

  predicate Productive(step: Step) {
    step.Act? && step.action in {Create, StartRelease, DropNext, Finish}
  }

  ghost function Blockers(s: State, above: Key): set<nat> {
    set q: nat | q < |s.procs| && Waiting(s.procs[q]) && Wanted(s.procs[q]) > above
  }

  /** A process waits for a lock file that a crashed one left behind. */
  predicate WaitsOnCrashed(s: State, q: nat) {
    && q < |s.procs| && s.procs[q].Acquiring? && Wanted(s.procs[q]) in s.files
    && var owner := s.files[Wanted(s.procs[q])].owner;
       owner < |s.procs| && s.procs[owner].Crashed?
  }

  /** What keeps a process that is at work from finishing: in every exclusive state some
      process can take a lock, give one back or go on reclaiming, unless one waits for a
      lock that a crashed process left behind. */
  lemma {:induction false} SomeoneCanGoOn(s: State, p: nat) returns (step: Step, q: nat)
    requires Exclusive(s) && p < |s.procs| && !s.procs[p].Idle? && !s.procs[p].Crashed?
    ensures || (Enabled(s, step) && Productive(step))
            || (Enabled(s, step) && step.Act? && step.action.RemoveStale?)
            || WaitsOnCrashed(s, q)
    decreases if Waiting(s.procs[p]) then 1 + |Blockers(s, Wanted(s.procs[p]))| else 0
  {
    var proc := s.procs[p];
    q := p;
    match proc
    case Holding(_) => step := Act(p, StartRelease);
    case Releasing(keys, dropped) => step := Act(p, if dropped < |keys| then DropNext else Finish);
    case Reclaiming(_, _) => step := Act(p, RemoveStale);
    case Acquiring(keys, held) =>
      var k := keys[held];
      step := Act(p, Create);
      if k in s.files {
        assert FileIsHeld(s, k);
        var owner := s.files[k].owner;
        if !s.procs[owner].Crashed? {
          if Waiting(s.procs[owner]) { BlockersShrink(s, p, owner); }
          step, q := SomeoneCanGoOn(s, owner);
        }
      }
  }

  lemma BlockersShrink(s: State, p: nat, q: nat)
    requires p < |s.procs| && q < |s.procs| && WaitsFor(s, p, q) && Waiting(s.procs[q])
    ensures |Blockers(s, Wanted(s.procs[q]))| < |Blockers(s, Wanted(s.procs[p]))|
  {
    WaitsAscend(s, p, q);
    var mine, theirs := Blockers(s, Wanted(s.procs[p])), Blockers(s, Wanted(s.procs[q]));
    assert q in mine && q !in theirs && theirs <= mine;
    StrictSubsetIsSmaller(theirs, mine);
  }

  /** With nobody crashed or about to reclaim, some process can take a lock or give one back
      whenever a process is unfinished. */
  lemma SomeoneCanMove(s: State, p: nat) returns (step: Step)
    requires Exclusive(s) && NobodyCrashed(s) && NobodyReclaims(s)
    requires p < |s.procs| && !s.procs[p].Idle?
    ensures Enabled(s, step) && Productive(step)
  {
    var q;
    step, q := SomeoneCanGoOn(s, p);
  }

  /** And a lock that a crashed process left behind can be found stale once enough time has
      passed, and then be removed without touching a live one. */
  lemma AbandonedLocksAreReclaimed(s: State, q: nat) returns (elapsed: nat)
    requires WaitsOnCrashed(s, q)
    ensures var later := Next(s, Tick(elapsed));
            && Enabled(later, Act(q, CheckStale))
            && Enabled(Next(later, Act(q, CheckStale)), Act(q, RemoveStale))
            && !RemovesLiveLock(Next(later, Act(q, CheckStale)), Act(q, RemoveStale))
  {
    elapsed := s.files[Wanted(s.procs[q])].created + STALE_LOCK_AGE + 1;
  }

  lemma StrictSubsetIsSmaller(a: set<nat>, b: set<nat>)
    requires a < b
    ensures |a| < |b|
  {
    var x :| x in b && x !in a;
    assert a <= b - {x};
    SubsetIsNotLarger(a, b - {x});
  }

  lemma {:induction false} SubsetIsNotLarger(a: set<nat>, b: set<nat>)
    requires a <= b
    ensures |a| <= |b|
  {
    if a != {} {
      var x :| x in a;
      SubsetIsNotLarger(a - {x}, b - {x});
    }
  }

  // ---------------------------------------------------------------- every schedule ends

  /** The productive steps a process has before it at most. */
  function ProcWork(proc: Proc): nat {
    match proc
    case Acquiring(keys, held) => |keys| - held + |keys| + 2
    case Reclaiming(keys, held) => |keys| - held + |keys| + 2
    case Holding(keys) => |keys| + 2
    case Releasing(keys, dropped) => |keys| - dropped + 1
    case _ => 0
  }

  function Work(procs: seq<Proc>): nat {
    if procs == [] then 0 else ProcWork(procs[0]) + Work(procs[1..])
  }

  lemma {:induction false} WorkUpdate(procs: seq<Proc>, p: nat, proc: Proc)
    requires p < |procs|
    ensures Work(procs[p := proc]) == Work(procs) - ProcWork(procs[p]) + ProcWork(proc)
  {
    if p == 0 {
      assert procs[p := proc][1..] == procs[1..];
    } else {
      WorkUpdate(procs[1..], p - 1, proc);
      assert procs[p := proc][1..] == procs[1..][p - 1 := proc];
    }
  }

  /** A run of lock and release steps, timeouts among them and no new requests, is no
      longer than the work at its start; together with `SomeoneCanMove`, every schedule
      that goes on as long as it can ends with every process idle. */
  lemma {:induction false} SchedulesEnd(s: State, steps: seq<Step>)
    requires CanRun(s, steps)
    requires forall i :: 0 <= i < |steps| ==>
                           Productive(steps[i]) || (steps[i].Act? && steps[i].action.Timeout?)
    ensures |steps| + Work(Run(s, steps).procs) <= Work(s.procs)
    decreases |steps|
  {
    if steps != [] {
      var step := steps[0];
      WorkUpdate(s.procs, step.p, ProcAfter(s, s.procs[step.p], step.action));
      SchedulesEnd(Next(s, step), steps[1..]);
    }
  }

  // ---------------------------------------------------------------- the reclaim race

  /** Only crashed processes leave lock files past the stale age. */
  predicate LiveTimely(s: State) {
    forall k :: k in s.files && IsStale(s, k) ==>
                  s.files[k].owner < |s.procs| && s.procs[s.files[k].owner].Crashed?
  }

  predicate LiveTimelyRun(s: State, steps: seq<Step>)
    decreases |steps|
  {
    LiveTimely(s) &&
    (steps != [] ==> Enabled(s, steps[0]) && LiveTimelyRun(Next(s, steps[0]), steps[1..]))
  }

  predicate Leads(s: State, steps: seq<Step>, end: State) {
    LiveTimelyRun(s, steps) && CanRun(s, steps) && Run(s, steps) == end
  }

  lemma {:induction false} Extend(s: State, before: seq<Step>, mid: State, step: Step, end: State)
    returns (steps: seq<Step>)
    requires Leads(s, before, mid) && Enabled(mid, step) && Next(mid, step) == end && LiveTimely(end)
    ensures Leads(s, steps, end) && steps == before + [step]
    decreases |before|
  {
    steps := before + [step];
    if before == [] {
      assert steps[1..] == [];
    } else {
      assert steps[1..] == before[1..] + [step];
      var rest := Extend(Next(s, before[0]), before[1..], mid, step, end);
    }
  }

  /** Two processes reclaim the lock of a crashed third: both find it stale, the first
      removes it and takes the lock, the second removes the lock just taken. No live
      process ever held a lock for longer than the stale age. */
  lemma ReclaimRaceBreaksExclusion() returns (steps: seq<Step>, end: State)
    ensures Leads(Initial(3), steps, end)
    ensures end.procs == [Crashed, Holding([7]), Holding([7])]
  {
    var s0 := Initial(3);
    assert s0.procs == [Idle, Idle, Idle];
    var abandoned: State;
    steps, abandoned := AbandonALock(s0);
    steps, abandoned := BothFindItStale(s0, steps, abandoned);
    steps, end := BothTakeIt(s0, steps, abandoned);
  }

  lemma AbandonALock(s0: State) returns (steps: seq<Step>, end: State)
    requires s0 == State([Idle, Idle, Idle], map[], 0)
    ensures Leads(s0, steps, end)
    ensures end == State([Crashed, Idle, Idle], map[7 := LockFile(0, 0)], STALE_LOCK_AGE + 1)
  {
    var s1 := State([Acquiring([7], 0), Idle, Idle], map[], 0);
    var s2 := State([Holding([7]), Idle, Idle], map[7 := LockFile(0, 0)], 0);
    var s3 := State([Crashed, Idle, Idle], map[7 := LockFile(0, 0)], 0);
    end := State([Crashed, Idle, Idle], map[7 := LockFile(0, 0)], STALE_LOCK_AGE + 1);
    steps := Extend(s0, [], s0, Begin(0, [7]), s1);
    steps := Extend(s0, steps, s1, Act(0, Create), s2);
    steps := Extend(s0, steps, s2, Act(0, Crash), s3);
    steps := Extend(s0, steps, s3, Tick(STALE_LOCK_AGE + 1), end);
  }

  lemma BothFindItStale(s0: State, before: seq<Step>, s: State) returns (steps: seq<Step>, end: State)
    requires s == State([Crashed, Idle, Idle], map[7 := LockFile(0, 0)], STALE_LOCK_AGE + 1)
    requires Leads(s0, before, s)
    ensures Leads(s0, steps, end)
    ensures end == s.(procs := [Crashed, Reclaiming([7], 0), Reclaiming([7], 0)])
  {
    var s1 := s.(procs := [Crashed, Acquiring([7], 0), Idle]);
    var s2 := s.(procs := [Crashed, Reclaiming([7], 0), Idle]);
    var s3 := s.(procs := [Crashed, Reclaiming([7], 0), Acquiring([7], 0)]);
    end := s.(procs := [Crashed, Reclaiming([7], 0), Reclaiming([7], 0)]);
    steps := Extend(s0, before, s, Begin(1, [7]), s1);
    steps := Extend(s0, steps, s1, Act(1, CheckStale), s2);
    steps := Extend(s0, steps, s2, Begin(2, [7]), s3);
    steps := Extend(s0, steps, s3, Act(2, CheckStale), end);
  }

  lemma BothTakeIt(s0: State, before: seq<Step>, s: State) returns (steps: seq<Step>, end: State)
    requires s.procs == [Crashed, Reclaiming([7], 0), Reclaiming([7], 0)]
    requires s.files == map[7 := LockFile(0, 0)]
    requires Leads(s0, before, s)
    ensures Leads(s0, steps, end)
    ensures end.procs == [Crashed, Holding([7]), Holding([7])]
  {
    var s1 := State([Crashed, Acquiring([7], 0), Reclaiming([7], 0)], map[], s.now);
    var s2 := State([Crashed, Holding([7]), Reclaiming([7], 0)], map[7 := LockFile(1, s.now)], s.now);
    var s3 := State([Crashed, Holding([7]), Acquiring([7], 0)], map[], s.now);
    end := State([Crashed, Holding([7]), Holding([7])], map[7 := LockFile(2, s.now)], s.now);
    steps := Extend(s0, before, s, Act(1, RemoveStale), s1);
    steps := Extend(s0, steps, s1, Act(1, Create), s2);
    steps := Extend(s0, steps, s2, Act(2, RemoveStale), s3);
    steps := Extend(s0, steps, s3, Act(2, Create), end);
  }
}
