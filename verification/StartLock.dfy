/**
 The start lock: a directory held for the whole of one start, with its owner (PID and boot)
 written in a file inside.  The four lock calls work on one directory in place; the state machine
 below interleaves them, one call a step, with processes that start, die and are cut off by a
 reboot, and with cleaners that read the owner, judge the lock and release it in three calls.
 */
module StartLock {
  import opened Options

  const OWNERLESS_LOCK_STALE_AFTER := 1800.0
  const LOCK_MAX_AGE := 4.0 * 3600.0

  // ----- The lock directory -----

  /** What the owner file holds: something else, a bare PID, or a PID with its boot. */
  datatype Payload = Garbled | Number(pid: int) | Record(pid: int, boot: string)

  datatype Owner = Owner(pid: int, boot: string)

  /** The directory, when it was last modified, and its owner file if there is one */
  datatype Lock = Absent | Present(mtime: real, payload: Option<Payload>)

  datatype LockState = LockAbsent | LockHeld | LockAbandoned

  /** What sending signal 0 to a PID reports */
  datatype Probe = Alive | NoProcess | NotPermitted | OtherFailure

  function OwnerIn(payload: Option<Payload>): Option<Owner> {
    match payload
    case Some(Number(pid)) => Some(Owner(pid, ""))
    case Some(Record(pid, boot)) => Some(Owner(pid, boot))
    case _ => None
  }

  function OwnerOf(lock: Lock): Option<Owner> {
    if lock.Present? then OwnerIn(lock.payload) else None
  }

  function OwnerPid(lock: Lock): Option<int> {
    if OwnerOf(lock).Some? then Some(OwnerOf(lock).value.pid) else None
  }

  /** How writing the owner file went */
  datatype Writing = Whole | Truncated | Failed

  function OwnerFile(pid: int, boot: string, writing: Writing): Option<Payload> {
    match writing
    case Whole => Some(Record(pid, boot))
    case Truncated => Some(Garbled)
    case Failed => None
  }

  /** The lock after a start tried to take it */
  function Acquired(lock: Lock, pid: int, boot: string, now: real, writing: Writing): Lock {
    if lock.Present? then lock else Present(now, OwnerFile(pid, boot, writing))
  }

  predicate MayRelease(lock: Lock, owner: Option<int>) {
    lock.Present? && (owner.None? || OwnerPid(lock) == owner)
  }

  /** The lock after a release; the directory itself may fail to be removed. */
  function Released(lock: Lock, owner: Option<int>, now: real, removable: bool): Lock {
    if !MayRelease(lock, owner) then lock
    else if removable then Absent
    else Present(if lock.payload.Some? then now else lock.mtime, None)
  }

  function StateOf(lock: Lock, now: real, boot: string, probe: Probe): LockState {
    if lock.Absent? then LockAbsent
    else
      var age := now - lock.mtime;
      var owner := OwnerOf(lock);
      if owner.None? then (if age > OWNERLESS_LOCK_STALE_AFTER then LockAbandoned else LockHeld)
      else if owner.value.boot != "" && boot != "" && owner.value.boot != boot then LockAbandoned
      else if age > LOCK_MAX_AGE then LockAbandoned
      else if probe == NoProcess || probe == NotPermitted then LockAbandoned
      else LockHeld
  }

  /** A lock without a readable owner is judged by its age alone: held while it is young, whoever made it,
      and abandoned after half an hour. */
  lemma OwnerlessIsAbandonedIff(lock: Lock, now: real, boot: string, probe: Probe)
    requires lock.Present? && (lock.payload == None || lock.payload == Some(Garbled))
    ensures StateOf(lock, now, boot, probe) == if now > lock.mtime + 1800.0 then LockAbandoned else LockHeld
  {
  }

  /** A lock with an owner is abandoned exactly when it is older than four hours, its process cannot be
      signalled because it is gone or another user's, or it was recorded in another boot; a boot that is
      not known on either side decides nothing. */
  lemma OwnedIsAbandonedIff(mtime: real, pid: int, recorded: string, now: real, boot: string, probe: Probe)
    ensures
      var record := Present(mtime, Some(Record(pid, recorded)));
      StateOf(record, now, boot, probe) ==
        if || now > mtime + 14400.0 || probe in {NoProcess, NotPermitted}
           || (recorded != boot && recorded != "" && boot != "")
        then LockAbandoned else LockHeld
    ensures
      var bare := Present(mtime, Some(Number(pid)));
      StateOf(bare, now, boot, probe) ==
        if now > mtime + 14400.0 || probe in {NoProcess, NotPermitted} then LockAbandoned else LockHeld
  {
  }

  /** A release by nobody in particular, or by the recorded PID, clears a lock and takes the directory away
      if it can; a directory that stays is without an owner and young again. Any other release changes
      nothing. */
  lemma ReleaseClearsIff(mtime: real, payload: Option<Payload>, owner: Option<int>, now: real, removable: bool)
    ensures
      var lock := Present(mtime, payload);
      var recorded := payload.Some? && !payload.value.Garbled? && owner == Some(payload.value.pid);
      Released(lock, owner, now, removable) ==
        if owner.Some? && !recorded then lock
        else if removable then Absent
        else if payload.Some? then Present(now, None)
        else lock
  {
  }

  class LockDir {
    var made: bool
    var mtime: real
    var ownerFile: Option<Payload>

    ghost predicate Valid()
      reads this
    {
      ownerFile.Some? ==> made
    }

    ghost function Contents(): Lock
      reads this
    {
      if made then Present(mtime, ownerFile) else Absent
    }

    constructor ()
      ensures Valid() && Contents() == Absent
    {
      made, mtime, ownerFile := false, 0.0, None;
    }

    /** acquire_start_lock */
    method Acquire(pid: int, boot: string, now: real, writing: Writing) returns (taken: bool)
      requires Valid()
      modifies this
      ensures Valid() && taken == old(Contents()).Absent?
      ensures Contents() == Acquired(old(Contents()), pid, boot, now, writing)
    {
      if made {
        return false;
      }
      made, mtime := true, now;
      match writing {
        case Whole => ownerFile := Some(Record(pid, boot));
        case Truncated => ownerFile := Some(Garbled);
        case Failed =>
      }
      return true;
    }

    method ReadOwner() returns (owner: Option<Owner>)
      requires Valid()
      ensures owner == OwnerOf(Contents())
    {
      if ownerFile.None? {
        return None;
      }
      match ownerFile.value {
        case Garbled => return None;
        case Number(pid) => return Some(Owner(pid, ""));
        case Record(pid, boot) => return Some(Owner(pid, boot));
      }
    }

    /** start_lock_owner */
    method OwnerPidNow() returns (pid: Option<int>)
      requires Valid()
      ensures pid == OwnerPid(Contents())
    {
      var owner := ReadOwner();
      return if owner.Some? then Some(owner.value.pid) else None;
    }

    /** release_start_lock */
    method Release(owner: Option<int>, now: real, removable: bool) returns (removed: bool)
      requires Valid()
      modifies this
      ensures Valid() && Contents() == Released(old(Contents()), owner, now, removable)
      ensures removed <==> MayRelease(old(Contents()), owner) && removable
    {
      if owner.Some? {
        var current := OwnerPidNow();
        if current != owner {
          return false;
        }
      }
      if ownerFile.Some? {
        ownerFile, mtime := None, now;
      }
      if !made || !removable {
        return false;
      }
      made := false;
      return true;
    }

    /** start_lock_state */
    method State(now: real, boot: string, probe: int -> Probe) returns (state: LockState)
      requires Valid()
      ensures
        var pid := OwnerPid(Contents());
        state == StateOf(Contents(), now, boot, if pid.Some? then probe(pid.value) else OtherFailure)
    {
      if !made {
        return LockAbsent;
      }
      var age := now - mtime;
      var owner := ReadOwner();
      if owner.None? {
        return if age > OWNERLESS_LOCK_STALE_AFTER then LockAbandoned else LockHeld;
      }
      if owner.value.boot != "" && boot != "" && owner.value.boot != boot {
        return LockAbandoned;
      }
      if age > LOCK_MAX_AGE {
        return LockAbandoned;
      }
      match probe(owner.value.pid) {
        case NoProcess => return LockAbandoned;
        case NotPermitted => return LockAbandoned;
        case OtherFailure => return LockHeld;
        case Alive => return LockHeld;
      }
    }
  }

  // ----- Starts, cleaners and reboots -----

  /** The owner a cleaner read, and whether it then judged the lock abandoned */
  datatype Sighting = Sighting(owner: Option<int>, abandoned: bool)

  /** One of our processes, holding the lock or not and cleaning or not; or anybody's process */
  datatype Process = Ours(holds: bool, saw: Option<Sighting>) | Other(ourUser: bool)

  datatype System = System(lock: Lock, processes: map<int, Process>, now: real, boot: string)

  datatype Action =
    | Spawn(pid: int, process: Process)
    | Acquire(pid: int, writing: Writing)
    | ReleaseOwn(pid: int, removable: bool)
    | ReadOwner(pid: int)
    | Judge(pid: int, glitch: bool)
    | ReleaseSeen(pid: int, removable: bool)
    | Die(pid: int)
    | Reboot(boot: string)
    | Tick(now: real)

  predicate IsOurs(s: System, pid: int) {
    pid in s.processes && s.processes[pid].Ours?
  }

  predicate Holds(s: System, pid: int) {
    IsOurs(s, pid) && s.processes[pid].holds
  }

  predicate Remembers(s: System, c: int, pid: int) {
    IsOurs(s, c) && s.processes[c].saw.Some? && s.processes[c].saw.value.owner == Some(pid)
  }

  function ProbeOf(s: System, pid: int, glitch: bool): Probe {
    if glitch then OtherFailure
    else if pid !in s.processes then NoProcess
    else if s.processes[pid].Other? && !s.processes[pid].ourUser then NotPermitted
    else Alive
  }

  function Judgement(s: System, glitch: bool): LockState {
    var pid := OwnerPid(s.lock);
    StateOf(s.lock, s.now, s.boot, if pid.Some? then ProbeOf(s, pid.value, glitch) else OtherFailure)
  }

  /** The steps the programs and the machine can take at all */
  predicate Enabled(s: System, a: Action) {
    match a
    case Spawn(pid, process) => pid !in s.processes && (process.Ours? ==> process == Ours(false, None))
    case Acquire(pid, _) => IsOurs(s, pid) && !Holds(s, pid)
    case ReleaseOwn(pid, _) => Holds(s, pid)
    case ReadOwner(pid) => IsOurs(s, pid)
    case Judge(pid, _) => IsOurs(s, pid) && s.processes[pid].saw.Some? && !s.processes[pid].saw.value.abandoned
    case ReleaseSeen(pid, _) => IsOurs(s, pid) && s.processes[pid].saw.Some? && s.processes[pid].saw.value.abandoned
    case Die(pid) => pid in s.processes
    case Reboot(_) => true
    case Tick(now) => s.now <= now
  }

  function After(s: System, a: Action): System
    requires Enabled(s, a)
  {
    match a
    case Spawn(pid, process) => s.(processes := s.processes[pid := process])
    case Acquire(pid, writing) =>
      if s.lock.Present? then s
      else s.(lock := Acquired(s.lock, pid, s.boot, s.now, writing),
              processes := s.processes[pid := s.processes[pid].(holds := true)])
    case ReleaseOwn(pid, removable) =>
      s.(lock := Released(s.lock, Some(pid), s.now, removable),
         processes := s.processes[pid := s.processes[pid].(holds := false)])
    case ReadOwner(pid) =>
      s.(processes := s.processes[pid := s.processes[pid].(saw := Some(Sighting(OwnerPid(s.lock), false)))])
    case Judge(pid, glitch) =>
      var saw :=
        if Judgement(s, glitch) == LockAbandoned then Some(s.processes[pid].saw.value.(abandoned := true)) else None;
      s.(processes := s.processes[pid := s.processes[pid].(saw := saw)])
    case ReleaseSeen(pid, removable) =>
      s.(lock := Released(s.lock, s.processes[pid].saw.value.owner, s.now, removable),
         processes := s.processes[pid := s.processes[pid].(saw := None)])
    case Die(pid) => s.(processes := s.processes - {pid})
    case Reboot(boot) => s.(processes := map[], boot := boot)
    case Tick(now) => s.(now := now)
  }

  /** What the lock relies on */
  datatype Assumption =
    | StartsInTime     // no start outlasts LOCK_MAX_AGE
    | OwnerSeen        // a cleaner releases only after it read an owner
    | PidForgotten     // nobody acquires under a PID that a cleaner still remembers

  ghost predicate Meets(s: System, a: Action, assumption: Assumption)
    requires Enabled(s, a)
  {
    match assumption
    case StartsInTime =>
      a.Tick? ==> forall pid :: Holds(s, pid) && s.lock.Present? ==> a.now - s.lock.mtime <= LOCK_MAX_AGE
    case OwnerSeen => a.ReleaseSeen? ==> s.processes[a.pid].saw.value.owner.Some?
    case PidForgotten => a.Acquire? && s.lock.Absent? ==> forall c :: !Remembers(s, c, a.pid)
  }

  ghost predicate Step(s: System, a: Action, t: System, assumptions: set<Assumption>) {
    Enabled(s, a) && (forall w :: w in assumptions ==> Meets(s, a, w)) && t == After(s, a)
  }

  /** A run from a machine that has just booted, with any lock left over from before */
  ghost predicate Run(states: seq<System>, actions: seq<Action>, assumptions: set<Assumption>) {
    && |states| == |actions| + 1
    && states[0].processes == map[]
    && forall i :: 0 <= i < |actions| ==> Step(states[i], actions[i], states[i + 1], assumptions)
  }

  const ALL := {StartsInTime, OwnerSeen, PidForgotten}

  /** A step by which a live start loses the lock without having released it */
  ghost predicate TakesLock(s: System, a: Action, t: System, p: int) {
    Holds(s, p) && !a.Reboot? && a != Die(p) && (t.lock != s.lock || !Holds(t, p)) && !(a.ReleaseOwn? && a.pid == p)
  }

  /** A live start's lock is on disk and within its age, and carries its record or none. */
  ghost predicate HolderHasLock(s: System) {
    forall p :: Holds(s, p) ==>
      && s.lock.Present?
      && s.now - s.lock.mtime <= LOCK_MAX_AGE
      && (s.lock.payload == Some(Record(p, s.boot)) || OwnerOf(s.lock).None?)
  }

  ghost predicate OneHolder(s: System) {
    forall p, q :: Holds(s, p) && Holds(s, q) ==> p == q
  }

  /** A cleaner that remembers a live holder read its record and has not judged it abandoned. */
  ghost predicate NoVerdictOnHolder(s: System) {
    forall c, p :: Remembers(s, c, p) && Holds(s, p) ==>
      OwnerPid(s.lock) == Some(p) && !s.processes[c].saw.value.abandoned
  }

  ghost predicate Inv(s: System) {
    HolderHasLock(s) && OneHolder(s) && NoVerdictOnHolder(s)
  }

  /** A live start's recorded lock is never judged abandoned. */
  lemma HolderIsNotAbandoned(s: System, p: int, glitch: bool)
    requires HolderHasLock(s) && Holds(s, p) && OwnerPid(s.lock) == Some(p)
    ensures Judgement(s, glitch) == LockHeld
  {
  }

  /** Only acquiring makes a holder. */
  lemma HoldersBefore(s: System, a: Action, p: int)
    requires Enabled(s, a) && Holds(After(s, a), p)
    ensures Holds(s, p) || (a.Acquire? && a.pid == p && s.lock.Absent?)
    ensures a.ReleaseOwn? ==> p != a.pid
  {
  }

  /** A cleaner's release leaves a live start's lock alone. */
  lemma ReleaseSparesHolder(s: System, a: Action, p: int)
    requires Inv(s) && Enabled(s, a) && a.ReleaseSeen? && Meets(s, a, OwnerSeen) && Holds(s, p)
    ensures After(s, a).lock == s.lock
  {
    var owner := s.processes[a.pid].saw.value.owner;
    assert Remembers(s, a.pid, owner.value);
    assert OwnerPid(s.lock) == owner ==> owner == Some(p);
  }

  /** While no start is overdue and no remembered PID is reused, a cleaner's release that can remove the
      directory takes a live start's lock exactly when the cleaner saw no owner. */
  lemma CleanerTakesLockIffBlind(s: System, a: Action, p: int)
    requires Inv(s) && Enabled(s, a) && a.ReleaseSeen? && a.removable && Holds(s, p)
    ensures After(s, a).lock != s.lock <==> s.processes[a.pid].saw.value.owner.None?
  {
    if s.processes[a.pid].saw.value.owner.Some? {
      ReleaseSparesHolder(s, a, p);
    }
  }

  lemma StepKeepsHolders(s: System, a: Action)
    requires Inv(s) && Enabled(s, a) && Meets(s, a, StartsInTime) && Meets(s, a, OwnerSeen)
    ensures HolderHasLock(After(s, a)) && OneHolder(After(s, a))
  {
    var t := After(s, a);
    forall p | Holds(t, p)
      ensures HolderHasLock(s) && (Holds(s, p) || (a.Acquire? && a.pid == p && s.lock.Absent?))
      ensures a.ReleaseOwn? ==> Holds(s, a.pid) && p != a.pid
      ensures a.ReleaseSeen? ==> t.lock == s.lock
    {
      HoldersBefore(s, a, p);
      if a.ReleaseSeen? {
        ReleaseSparesHolder(s, a, p);
      }
    }
  }

  lemma StepKeepsVerdicts(s: System, a: Action)
    requires Inv(s) && Enabled(s, a) && Meets(s, a, OwnerSeen) && Meets(s, a, PidForgotten)
    ensures NoVerdictOnHolder(After(s, a))
  {
    forall c, p | Remembers(After(s, a), c, p) && Holds(After(s, a), p)
      ensures OwnerPid(After(s, a).lock) == Some(p) && !After(s, a).processes[c].saw.value.abandoned
    {
      StepKeepsVerdict(s, a, c, p);
    }
  }

  lemma StepKeepsVerdict(s: System, a: Action, c: int, p: int)
    requires Inv(s) && Enabled(s, a) && Meets(s, a, OwnerSeen) && Meets(s, a, PidForgotten)
    requires Remembers(After(s, a), c, p) && Holds(After(s, a), p)
    ensures OwnerPid(After(s, a).lock) == Some(p) && !After(s, a).processes[c].saw.value.abandoned
  {
    HoldersBefore(s, a, p);
    RemembersBefore(s, a, c, p);
    assert Holds(s, p);
    if a.ReleaseSeen? {
      ReleaseSparesHolder(s, a, p);
    } else if a.Judge? && OwnerPid(s.lock) == Some(p) {
      HolderIsNotAbandoned(s, p, a.glitch);
    }
  }

  /** Only reading the owner makes a cleaner remember it. */
  lemma RemembersBefore(s: System, a: Action, c: int, p: int)
    requires Enabled(s, a) && Remembers(After(s, a), c, p)
    ensures Remembers(s, c, p) || (a.ReadOwner? && OwnerPid(s.lock) == Some(p))
  {
  }

  lemma {:induction false} InvAlong(states: seq<System>, actions: seq<Action>, i: nat)
    requires Run(states, actions, ALL) && i <= |actions|
    ensures Inv(states[i])
  {
    if i > 0 {
      InvAlong(states, actions, i - 1);
      assert Step(states[i - 1], actions[i - 1], states[i], ALL);
      StepKeepsHolders(states[i - 1], actions[i - 1]);
      StepKeepsVerdicts(states[i - 1], actions[i - 1]);
    }
  }

  /** In every state of every run at most one live start holds the lock. */
  lemma AtMostOneHolder(states: seq<System>, actions: seq<Action>, i: nat, p: int, q: int)
    requires Run(states, actions, ALL) && i <= |actions|
    requires Holds(states[i], p) && Holds(states[i], q)
    ensures p == q
  {
    InvAlong(states, actions, i);
  }

  /** In no step of any run does anyone but a live start itself remove or replace its lock. */
  lemma NobodyTakesALiveLock(states: seq<System>, actions: seq<Action>, i: nat, p: int)
    requires Run(states, actions, ALL) && i < |actions|
    ensures !TakesLock(states[i], actions[i], states[i + 1], p)
  {
    InvAlong(states, actions, i);
    var s, a := states[i], actions[i];
    assert Step(s, a, states[i + 1], ALL);
    if Holds(s, p) && a.ReleaseSeen? {
      ReleaseSparesHolder(s, a, p);
    }
  }

  /** A start's own release removes its lock exactly when its record was written whole. */
  lemma OwnReleaseNeedsRecord(states: seq<System>, actions: seq<Action>, i: nat, p: int)
    requires Run(states, actions, ALL) && i <= |actions| && Holds(states[i], p)
    ensures After(states[i], ReleaseOwn(p, true)).lock.Absent? <==>
      OwnerOf(states[i].lock) == Some(Owner(p, states[i].boot))
  {
    InvAlong(states, actions, i);
  }

  // ----- Exactly when a live lock is taken -----

  /** What holds in any run, whatever it does, until a live start's lock is first taken */
  ghost predicate Undisturbed(s: System) {
    && OneHolder(s)
    && forall p :: Holds(s, p) ==>
         s.lock.Present? && (s.lock.payload == Some(Record(p, s.boot)) || OwnerOf(s.lock).None?)
  }

  /** A cleaner releases a lock it once judged abandoned: it saw no owner or saw the PID that is
      recorded now, and there is something that it can remove. */
  predicate RemovesSeen(s: System, a: Action)
    requires Enabled(s, a)
  {
    && a.ReleaseSeen?
    && var saw := s.processes[a.pid].saw.value;
    && (saw.owner.None? || saw.owner == OwnerPid(s.lock))
    && (a.removable || (s.lock.Present? && s.lock.payload.Some?))
  }

  lemma TakenIffRemovesSeen(s: System, a: Action, p: int)
    requires Undisturbed(s) && Enabled(s, a) && Holds(s, p)
    ensures TakesLock(s, a, After(s, a), p) <==> RemovesSeen(s, a)
  {
  }

  /** A step that takes no live start's lock leaves the system undisturbed. */
  lemma StepWithoutTheft(s: System, a: Action)
    requires Undisturbed(s) && Enabled(s, a) && forall p :: !TakesLock(s, a, After(s, a), p)
    ensures Undisturbed(After(s, a))
  {
    var t := After(s, a);
    forall p | Holds(t, p)
      ensures Holds(s, p) || (a.Acquire? && a.pid == p && s.lock.Absent?)
      ensures a.ReleaseOwn? ==> Holds(s, a.pid) && p != a.pid
      ensures Holds(s, p) ==> !TakesLock(s, a, t, p)
    {
      HoldersBefore(s, a, p);
    }
  }

  /** No step before the n-th takes a live start's lock. */
  ghost predicate NoTheftBefore(states: seq<System>, actions: seq<Action>, n: nat)
    requires n <= |actions| < |states|
  {
    forall i, p :: 0 <= i < n ==> !TheftAt(states, actions, i, p)
  }

  ghost predicate TheftAt(states: seq<System>, actions: seq<Action>, i: nat, p: int)
    requires i < |actions| < |states|
  {
    TakesLock(states[i], actions[i], states[i + 1], p)
  }

  lemma {:induction false} UndisturbedAlong(states: seq<System>, actions: seq<Action>, n: nat)
    requires Run(states, actions, {}) && n <= |actions| && NoTheftBefore(states, actions, n)
    ensures Undisturbed(states[n])
  {
    if n > 0 {
      UndisturbedAlong(states, actions, n - 1);
      var s, a, t := states[n - 1], actions[n - 1], states[n];
      assert Step(s, a, t, {});
      forall p ensures !TakesLock(s, a, t, p) {
        assert !TheftAt(states, actions, n - 1, p);
      }
      StepWithoutTheft(s, a);
    }
  }

  /** In any run, without any assumption, the first loss of a live start's lock is the step at which a
      cleaner releases a lock on which it saw no owner or the PID recorded there now. */
  lemma FirstTheftIff(states: seq<System>, actions: seq<Action>, n: nat, p: int)
    requires Run(states, actions, {}) && n < |actions| && NoTheftBefore(states, actions, n)
    requires Holds(states[n], p)
    ensures Enabled(states[n], actions[n])
    ensures TheftAt(states, actions, n, p) <==> RemovesSeen(states[n], actions[n])
  {
    UndisturbedAlong(states, actions, n);
    assert Step(states[n], actions[n], states[n + 1], {});
    TakenIffRemovesSeen(states[n], actions[n], p);
  }

  /** A lock whose owner is dead can be cleaned and taken: read, judge, release, acquire. */
  lemma DeadLockIsRecovered(s: System, c: int)
    requires s.lock.Present? && OwnerPid(s.lock).Some? && IsOurs(s, c) && !Holds(s, c)
    requires OwnerPid(s.lock).value !in s.processes || s.now - s.lock.mtime > LOCK_MAX_AGE
    ensures Enabled(s, ReadOwner(c))
    ensures var s1 := After(s, ReadOwner(c));
            Enabled(s1, Judge(c, false)) &&
            (var s2 := After(s1, Judge(c, false));
             Enabled(s2, ReleaseSeen(c, true)) && Meets(s2, ReleaseSeen(c, true), OwnerSeen) &&
             (var s3 := After(s2, ReleaseSeen(c, true));
              Enabled(s3, Acquire(c, Whole)) && Holds(After(s3, Acquire(c, Whole)), c)))
  {
  }

  // ----- Each assumption is needed -----

  const FRESH := Ours(false, None)

  ghost predicate EndsInTheft(states: seq<System>, actions: seq<Action>, assumptions: set<Assumption>) {
    Run(states, actions, assumptions) && exists p :: LastTakes(states, actions, p)
  }

  ghost predicate LastTakes(states: seq<System>, actions: seq<Action>, p: int)
    requires |states| == |actions| + 1
  {
    var n := |actions|;
    n > 0 && TakesLock(states[n - 1], actions[n - 1], states[n], p)
  }

  /** Without any one assumption some run takes the lock from a live start. */
  lemma EachAssumptionIsNeeded(w: Assumption)
    ensures exists states, actions :: EndsInTheft(states, actions, ALL - {w})
  {
    var states, actions;
    match w {
      case StartsInTime => states, actions := LateStartLosesLock();
      case OwnerSeen => states, actions := BlindCleanerTakesLock();
      case PidForgotten => states, actions := PidFromAnEarlierBoot();
    }
    assert EndsInTheft(states, actions, ALL - {w});
  }

  lemma Extend(states: seq<System>, actions: seq<Action>, assumptions: set<Assumption>, a: Action, t: System)
    returns (longer: seq<System>, more: seq<Action>)
    requires Run(states, actions, assumptions) && Step(states[|actions|], a, t, assumptions)
    ensures longer == states + [t] && more == actions + [a] && Run(longer, more, assumptions)
  {
    longer, more := states + [t], actions + [a];
  }

  function Saw(s: System, pid: int, saw: Option<Sighting>): System
    requires IsOurs(s, pid)
  {
    s.(processes := s.processes[pid := s.processes[pid].(saw := saw)])
  }

  /** A cleaner reads the owner of an abandoned lock and judges it. */
  lemma Look(states: seq<System>, actions: seq<Action>, assumptions: set<Assumption>, c: int)
    returns (longer: seq<System>, more: seq<Action>)
    requires Run(states, actions, assumptions)
    requires var s := states[|actions|]; IsOurs(s, c) && Judgement(s, false) == LockAbandoned
    ensures Run(longer, more, assumptions) && |more| == |actions| + 2
    ensures var s := states[|actions|]; longer[|more|] == Saw(s, c, Some(Sighting(OwnerPid(s.lock), true)))
  {
    var s := states[|actions|];
    var read := Saw(s, c, Some(Sighting(OwnerPid(s.lock), false)));
    var judged := Saw(s, c, Some(Sighting(OwnerPid(s.lock), true)));
    JudgementIgnoresSightings(s, c, read.processes[c].saw);
    longer, more := Extend(states, actions, assumptions, ReadOwner(c), read);
    assert After(read, Judge(c, false)).processes == judged.processes;
    longer, more := Extend(longer, more, assumptions, Judge(c, false), judged);
  }

  lemma JudgementIgnoresSightings(s: System, c: int, saw: Option<Sighting>)
    requires IsOurs(s, c)
    ensures Judgement(Saw(s, c, saw), false) == Judgement(s, false)
  {
  }

  lemma LateStartLosesLock() returns (states: seq<System>, actions: seq<Action>)
    ensures EndsInTheft(states, actions, ALL - {StartsInTime})
  {
    var w, holder := ALL - {StartsInTime}, Ours(true, None);
    var taken := Present(0.0, Some(Record(1, "b")));
    states, actions := [System(Absent, map[], 0.0, "b")], [];
    states, actions := Extend(states, actions, w, Spawn(1, FRESH), System(Absent, map[1 := FRESH], 0.0, "b"));
    states, actions := Extend(states, actions, w, Acquire(1, Whole), System(taken, map[1 := holder], 0.0, "b"));
    states, actions := Extend(states, actions, w, Tick(20000.0), System(taken, map[1 := holder], 20000.0, "b"));
    states, actions := Extend(states, actions, w, Spawn(2, FRESH),
      System(taken, map[1 := holder, 2 := FRESH], 20000.0, "b"));
    states, actions := Look(states, actions, w, 2);
    states, actions := Steal(states, actions, w, 2, 1);
  }

  /** The last step of each of these runs: a cleaner releases the lock of a live start. */
  lemma Steal(states: seq<System>, actions: seq<Action>, assumptions: set<Assumption>, c: int, p: int)
    returns (longer: seq<System>, more: seq<Action>)
    requires Run(states, actions, assumptions)
    requires
      var s := states[|actions|];
      && Holds(s, p) && IsOurs(s, c) && s.processes[c].saw.Some?
      && var saw := s.processes[c].saw.value;
      && saw.abandoned && MayRelease(s.lock, saw.owner) && (OwnerSeen in assumptions ==> saw.owner.Some?)
    ensures EndsInTheft(longer, more, assumptions)
  {
    var s, a := states[|actions|], ReleaseSeen(c, true);
    longer, more := Extend(states, actions, assumptions, a, After(s, a));
    assert LastTakes(longer, more, p);
  }

  /** A cleaner that read an ownerless lock names no owner when it releases, and so spares nobody. */
  lemma BlindCleanerTakesLock() returns (states: seq<System>, actions: seq<Action>)
    ensures EndsInTheft(states, actions, ALL - {OwnerSeen})
  {
    var w, blind, now := ALL - {OwnerSeen}, Ours(false, Some(Sighting(None, true))), 2000.0;
    var stale := Present(0.0, None);
    states, actions := [System(stale, map[], now, "b")], [];
    states, actions := Extend(states, actions, w, Spawn(1, FRESH), System(stale, map[1 := FRESH], now, "b"));
    states, actions := Look(states, actions, w, 1);
    states, actions := Extend(states, actions, w, Spawn(2, FRESH),
      System(stale, map[1 := blind, 2 := FRESH], now, "b"));
    states, actions := Look(states, actions, w, 2);
    states, actions := Extend(states, actions, w, ReleaseSeen(2, true),
      System(Absent, map[1 := blind, 2 := FRESH], now, "b"));
    states, actions := Extend(states, actions, w, Acquire(2, Whole),
      System(Present(now, Some(Record(2, "b"))), map[1 := blind, 2 := Ours(true, None)], now, "b"));
    states, actions := Steal(states, actions, w, 1, 2);
  }

  /** A start gets the PID of an owner from before the reboot, while a cleaner remembers that PID. */
  lemma PidFromAnEarlierBoot() returns (states: seq<System>, actions: seq<Action>)
    ensures EndsInTheft(states, actions, ALL - {PidForgotten})
  {
    var w, cleaner := ALL - {PidForgotten}, Ours(false, Some(Sighting(Some(7), true)));
    var stale := Present(0.0, Some(Record(7, "old")));
    states, actions := [System(stale, map[], 0.0, "new")], [];
    states, actions := Extend(states, actions, w, Spawn(7, FRESH), System(stale, map[7 := FRESH], 0.0, "new"));
    states, actions := Extend(states, actions, w, Spawn(8, FRESH),
      System(stale, map[7 := FRESH, 8 := FRESH], 0.0, "new"));
    states, actions := Look(states, actions, w, 8);
    states, actions := Look(states, actions, w, 7);
    states, actions := Extend(states, actions, w, ReleaseSeen(7, true),
      System(Absent, map[7 := FRESH, 8 := cleaner], 0.0, "new"));
    states, actions := Extend(states, actions, w, Acquire(7, Whole),
      System(Present(0.0, Some(Record(7, "new"))), map[7 := Ours(true, None), 8 := cleaner], 0.0, "new"));
    states, actions := Steal(states, actions, w, 8, 7);
  }
}
