/**
 Moving task records: every file of a project's source directory is copied to the destination,
 compared byte for byte, and only then removed.  Copies may fail or go wrong silently, and a run
 may end in the middle of any file, by a crash or by an exception nobody catches.
 */
module TaskRecordMigration {
  import opened Options

  newtype Byte = x: int | 0 <= x < 256

  type Bytes = seq<Byte>

  /** What stands under a name at the destination */
  datatype Entry = File(bytes: Bytes) | Folder

  /** The regular files of a source directory, and everything at the destination */
  datatype Dirs = Dirs(src: map<string, Bytes>, dst: map<string, Entry>)

  datatype Counts = Counts(moved: nat, skipped: nat, errors: nat) {
    function Plus(c: Counts): Counts {
      Counts(moved + c.moved, skipped + c.skipped, errors + c.errors)
    }
  }

  const NONE := Counts(0, 0, 0)
  const MOVED := Counts(1, 0, 0)
  const SKIPPED := Counts(0, 1, 0)
  const FAILED := Counts(0, 0, 1)

  /** What goes wrong at one file; left is what stands at the destination then. */
  datatype Fault =
    | NoFault
    | CopyFails(left: Option<Bytes>)             // copy2 raises OSError
    | CopyDiffers(copy: Bytes, cleaned: bool)    // copy2 returns, but these bytes arrived
    | RunEnds(left: Option<Bytes>)               // a crash, or an error nobody catches

  datatype Outcome = Outcome(dirs: Dirs, counts: Counts, ended: bool)

  predicate Clash(d: Dirs, name: string) {
    name in d.src && name in d.dst && d.dst[name] != File(d.src[name])
  }

  function Left(d: Dirs, name: string, left: Option<Bytes>): Dirs {
    if left.Some? then d.(dst := d.dst[name := File(left.value)]) else d
  }

  /** The bytes that a copy without an error brings to the destination */
  function Arrived(bytes: Bytes, fault: Fault): Bytes {
    if fault.CopyDiffers? then fault.copy else bytes
  }

  /** The treatment of one file */
  function OneFile(d: Dirs, name: string, execute: bool, fault: Fault): (r: Outcome)
    requires name in d.src
    ensures d.src.Keys - {name} <= r.dirs.src.Keys
  {
    if name in d.dst then
      if fault.RunEnds? then Outcome(d, NONE, true)
      else if Clash(d, name) then Outcome(d, FAILED, false)
      else if execute then Outcome(d.(src := d.src - {name}), SKIPPED, false)
      else Outcome(d, SKIPPED, false)
    else if !execute then Outcome(d, if fault.RunEnds? then NONE else MOVED, fault.RunEnds?)
    else
      match fault
      case RunEnds(left) => Outcome(Left(d, name, left), NONE, true)
      case CopyFails(left) => Outcome(Left(d, name, left), FAILED, false)
      case _ =>
        var copy := Arrived(d.src[name], fault);
        if copy == d.src[name] then Outcome(Dirs(d.src - {name}, d.dst[name := File(copy)]), MOVED, false)
        else Outcome(if fault.cleaned then d else d.(dst := d.dst[name := File(copy)]), FAILED, false)
  }

  predicate Distinct(names: seq<string>) {
    forall i, j :: 0 <= i < j < |names| ==> names[i] != names[j]
  }

  /** The names of a source directory, each once */
  ghost predicate Lists(names: seq<string>, src: map<string, Bytes>) {
    Distinct(names) && forall x :: x in names <==> x in src
  }

  type Faults = string -> Fault

  /** The outcome after the first n names */
  ghost function Migrated(d: Dirs, names: seq<string>, n: nat, execute: bool, faults: Faults): (r: Outcome)
    requires n <= |names| && Lists(names, d.src)
    ensures forall i :: n <= i < |names| ==> names[i] in r.dirs.src
  {
    if n == 0 then Outcome(d, NONE, false)
    else
      var r := Migrated(d, names, n - 1, execute, faults);
      if r.ended then r
      else
        var one := OneFile(r.dirs, names[n - 1], execute, faults(names[n - 1]));
        Outcome(one.dirs, r.counts.Plus(one.counts), one.ended)
  }

  // ----- The program -----

  class DataDir {
    var projects: map<string, Dirs>

    constructor (projects: map<string, Dirs>)
      ensures this.projects == projects
    {
      this.projects := projects;
    }

    /** The body of the loop over the files; None when the run ends here */
    method MigrateFile(id: string, name: string, execute: bool, fault: Fault) returns (counts: Option<Counts>)
      requires id in projects && name in projects[id].src
      modifies this
      ensures
        var r := OneFile(old(projects)[id], name, execute, fault);
        && projects == old(projects)[id := r.dirs]
        && counts == if r.ended then None else Some(r.counts)
    {
      var src, dst := projects[id].src, projects[id].dst;
      if name in dst {
        if fault.RunEnds? {
          return None;
        }
        if dst[name] != File(src[name]) {
          return Some(FAILED);
        }
        if execute {
          projects := projects[id := Dirs(src - {name}, dst)];
        }
        return Some(SKIPPED);
      }
      if execute {
        match fault {
          case RunEnds(left) =>
            projects := projects[id := Left(projects[id], name, left)];
            return None;
          case CopyFails(left) =>
            projects := projects[id := Left(projects[id], name, left)];
            return Some(FAILED);
          case _ =>
        }
        var copy := Arrived(src[name], fault);
        projects := projects[id := Dirs(src, dst[name := File(copy)])];
        if copy != src[name] {
          if fault.cleaned {
            projects := projects[id := Dirs(src, dst)];
          }
          return Some(FAILED);
        }
        projects := projects[id := Dirs(src - {name}, dst[name := File(copy)])];
      } else if fault.RunEnds? {
        return None;
      }
      return Some(MOVED);
    }

    /** migrate_project, given the listing of the source directory; None when the run ends early. */
    method MigrateProject(id: string, files: seq<string>, execute: bool, faults: Faults)
      returns (counts: Option<Counts>)
      requires if id in projects then Lists(files, projects[id].src) else files == []
      modifies this
      ensures id !in old(projects) ==> projects == old(projects) && counts == Some(NONE)
      ensures id in old(projects) ==>
        var r := Migrated(old(projects)[id], files, |files|, execute, faults);
        && projects == old(projects)[id := r.dirs]
        && counts == if r.ended then None else Some(r.counts)
    {
      hide OneFile, Lists;
      if id !in projects {
        return Some(NONE);
      }
      var total := NONE;
      var i := 0;
      while i < |files|
        invariant 0 <= i <= |files|
        invariant id in projects && projects == old(projects)[id := projects[id]]
        invariant Migrated(old(projects)[id], files, i, execute, faults) == Outcome(projects[id], total, false)
      {
        var one := MigrateFile(id, files[i], execute, faults(files[i]));
        i := i + 1;
        if one.None? {
          EndsHere(old(projects)[id], files, i, execute, faults);
          return None;
        }
        total := total.Plus(one.value);
      }
      return Some(total);
    }

    /** run_migration over the projects found; None when an error ends it inside the project at done. */
    method RunMigration(ids: seq<string>, files: map<string, seq<string>>, execute: bool, faults: string -> Faults)
      returns (success: Option<bool>, ghost done: nat)
      requires Distinct(ids)
      requires forall id :: id in ids ==> id in projects && id in files && Lists(files[id], projects[id].src)
      modifies this
      ensures projects.Keys == old(projects).Keys && done <= |ids| && (success.None? <==> done < |ids|)
      ensures forall id :: id in projects && id !in ids ==> projects[id] == old(projects)[id]
      ensures forall i :: 0 <= i < |ids| ==>
        var r := ProjectRun(old(projects), files, execute, faults, ids[i]);
        && projects[ids[i]] == (if i <= done then r.dirs else old(projects)[ids[i]])
        && (i <= done ==> (r.ended <==> i == done))
      ensures success.Some? ==>
        (success.value <==> forall i :: 0 <= i < |ids| ==>
           ProjectRun(old(projects), files, execute, faults, ids[i]).counts.errors == 0)
      ensures success.Some? && execute ==>
        (success.value <==> forall i :: 0 <= i < |ids| ==> AllMoved(old(projects)[ids[i]], projects[ids[i]]))
      ensures success.Some? && !execute ==>
        && projects == old(projects)
        && (success.value <==>
              forall i, x :: 0 <= i < |ids| && x in projects[ids[i]].src ==> !Clash(projects[ids[i]], x))
    {
      hide Migrated, Lists, Clash, AllMoved;
      var errors: nat := 0;
      done := 0;
      for i := 0 to |ids|
        invariant done == i
        invariant projects.Keys == old(projects).Keys
        invariant forall id :: id in projects && id !in ids[..i] ==> projects[id] == old(projects)[id]
        invariant forall j :: 0 <= j < i ==>
          var r := ProjectRun(old(projects), files, execute, faults, ids[j]);
          projects[ids[j]] == r.dirs && !r.ended
        invariant errors == 0 <==> forall j :: 0 <= j < i ==>
          ProjectRun(old(projects), files, execute, faults, ids[j]).counts.errors == 0
      {
        assert ids[i] !in ids[..i];
        var counts := MigrateProject(ids[i], files[ids[i]], execute, faults(ids[i]));
        if counts.None? {
          return None, i;
        }
        errors := errors + counts.value.errors;
        done := i + 1;
      }
      assert forall id :: id in projects && id !in ids ==> projects[id] == old(projects)[id];
      RunSettles(old(projects), projects, ids, files, execute, faults);
      return Some(errors == 0), done;
    }
  }

  /** What the run does to one project, seen from the start */
  ghost function ProjectRun(before: map<string, Dirs>, files: map<string, seq<string>>, execute: bool,
                            faults: string -> Faults, id: string): Outcome
    requires id in before && id in files && Lists(files[id], before[id].src)
  {
    Migrated(before[id], files[id], |files[id]|, execute, faults(id))
  }

  /** A run of one project that reaches its end: a real one has no errors exactly when everything has
      moved, a dry one exactly when nothing clashes. */
  ghost predicate SettlesProject(before: map<string, Dirs>, files: map<string, seq<string>>, execute: bool,
                                 faults: string -> Faults, id: string)
    requires id in before && id in files && Lists(files[id], before[id].src)
  {
    var r := ProjectRun(before, files, execute, faults, id);
    !r.ended ==>
      if execute then r.counts.errors == 0 <==> AllMoved(before[id], r.dirs)
      else r.dirs == before[id] && (r.counts.errors == 0 <==> forall x :: x in before[id].src ==> !Clash(before[id], x))
  }

  lemma ProjectSettles(before: map<string, Dirs>, files: map<string, seq<string>>, execute: bool,
                       faults: string -> Faults, id: string)
    requires id in before && id in files && Lists(files[id], before[id].src)
    ensures SettlesProject(before, files, execute, faults, id)
  {
    hide Migrated, Lists, Clash, AllMoved;
    var d, names := before[id], files[id];
    EndsIff(d, names, |names|, execute, faults(id));
    if execute {
      CompletedRun(d, names, faults(id));
      if Completes(d, faults(id)) {
        NoErrorsIff(d, names, faults(id));
      }
    } else if !ProjectRun(before, files, execute, faults, id).ended {
      AllNamed(d, names, faults(id));
      DryRunPredicts(d, names, faults(id), NoFaults());
      SuccessIffNoClash(d, names, NoFaults());
    }
  }

  /** A run over all projects that reaches its end */
  lemma RunSettles(before: map<string, Dirs>, after: map<string, Dirs>, ids: seq<string>,
                   files: map<string, seq<string>>, execute: bool, faults: string -> Faults)
    requires forall id :: id in ids ==> id in before && id in files && Lists(files[id], before[id].src)
    requires after.Keys == before.Keys && forall id :: id in after && id !in ids ==> after[id] == before[id]
    requires forall i :: 0 <= i < |ids| ==>
      var r := ProjectRun(before, files, execute, faults, ids[i]);
      after[ids[i]] == r.dirs && !r.ended
    ensures
      var success := forall i :: 0 <= i < |ids| ==>
        ProjectRun(before, files, execute, faults, ids[i]).counts.errors == 0;
      && (execute ==> (success <==> forall i :: 0 <= i < |ids| ==> AllMoved(before[ids[i]], after[ids[i]])))
      && (!execute ==>
            && after == before
            && (success <==> forall i, x :: 0 <= i < |ids| && x in after[ids[i]].src ==> !Clash(after[ids[i]], x)))
  {
    hide ProjectRun, Lists, Clash, AllMoved;
    forall i | 0 <= i < |ids| ensures SettlesProject(before, files, execute, faults, ids[i]) {
      ProjectSettles(before, files, execute, faults, ids[i]);
    }
  }

  function NoFaults(): Faults {
    x => NoFault
  }

  lemma AllNamed(d: Dirs, names: seq<string>, faults: Faults)
    requires Lists(names, d.src) && forall i :: 0 <= i < |names| ==> !faults(names[i]).RunEnds?
    ensures Completes(d, faults)
  {
  }

  /** Nothing happens after the run has ended. */
  lemma {:induction false} EndsHere(d: Dirs, names: seq<string>, i: nat, execute: bool, faults: Faults)
    requires i <= |names| && Lists(names, d.src)
    requires Migrated(d, names, i, execute, faults).ended
    ensures Migrated(d, names, |names|, execute, faults) == Migrated(d, names, i, execute, faults)
    decreases |names| - i
  {
    hide OneFile, Lists;
    if i < |names| {
      EndsHere(d, names, i + 1, execute, faults);
    }
  }

  // ----- Nothing is lost, nothing is overwritten -----

  /** Every source file survives on one side, sources are never changed, and no destination entry is
      ever changed or removed; what is new at the destination bears the name of a source file. */
  ghost predicate Preserves(d: Dirs, e: Dirs) {
    && (forall x :: x in d.src ==> (x in e.src && e.src[x] == d.src[x]) || (x in e.dst && e.dst[x] == File(d.src[x])))
    && (forall x :: x in e.src ==> x in d.src && e.src[x] == d.src[x])
    && (forall x :: x in d.dst ==> x in e.dst && e.dst[x] == d.dst[x])
    && (forall x :: x in e.dst ==> x in d.dst || x in d.src)
  }

  lemma PreservesIsTransitive(d: Dirs, e: Dirs, f: Dirs)
    requires Preserves(d, e) && Preserves(e, f)
    ensures Preserves(d, f)
  {
  }

  lemma OneFilePreserves(d: Dirs, name: string, execute: bool, fault: Fault)
    requires name in d.src
    ensures Preserves(d, OneFile(d, name, execute, fault).dirs)
  {
  }

  lemma {:induction false} RunPreserves(d: Dirs, names: seq<string>, n: nat, execute: bool, faults: Faults)
    requires n <= |names| && Lists(names, d.src)
    ensures Preserves(d, Migrated(d, names, n, execute, faults).dirs)
  {
    if n > 0 {
      RunPreserves(d, names, n - 1, execute, faults);
      var r := Migrated(d, names, n - 1, execute, faults);
      if !r.ended {
        OneFilePreserves(r.dirs, names[n - 1], execute, faults(names[n - 1]));
        PreservesIsTransitive(d, r.dirs, OneFile(r.dirs, names[n - 1], execute, faults(names[n - 1])).dirs);
      }
    }
  }

  /** e comes from d by a run, real or dry, with any faults. */
  ghost predicate OneRun(d: Dirs, e: Dirs) {
    exists names, execute, faults ::
      Lists(names, d.src) && e == Migrated(d, names, |names|, execute, faults).dirs
  }

  ghost predicate IsHistory(states: seq<Dirs>) {
    |states| > 0 && forall i, j :: 0 <= i < |states| && 0 <= j < |states| && j == i + 1 ==> OneRun(states[i], states[j])
  }

  /** Whatever faults hit however many runs, every record is kept and no earlier file is touched. */
  lemma {:induction false} HistoryPreserves(states: seq<Dirs>)
    requires IsHistory(states)
    ensures Preserves(states[0], states[|states| - 1])
  {
    var n := |states|;
    if n > 1 {
      HistoryPreserves(states[..n - 1]);
      var d := states[n - 2];
      assert OneRun(d, states[n - 1]);
      var names, execute, faults :|
        Lists(names, d.src) && states[n - 1] == Migrated(d, names, |names|, execute, faults).dirs;
      RunPreserves(d, names, |names|, execute, faults);
      PreservesIsTransitive(states[0], d, states[n - 1]);
    }
  }

  /** The fault leaves other bytes than these at the destination: a copy cut short, by an error or by
      the end of the run, or one that arrived wrong and was not cleaned up. */
  predicate LeavesOther(bytes: Bytes, fault: Fault) {
    match fault
    case NoFault => false
    case CopyFails(left) => left.Some? && left.value != bytes
    case CopyDiffers(copy, cleaned) => copy != bytes && !cleaned
    case RunEnds(left) => left.Some? && left.value != bytes
  }

  /** A file clashes after its turn exactly when it did before, or such a fault hit its copy. */
  lemma ClashesAfterIff(d: Dirs, name: string, execute: bool, fault: Fault)
    requires name in d.src
    ensures Clash(OneFile(d, name, execute, fault).dirs, name) <==>
      Clash(d, name) || (execute && name !in d.dst && LeavesOther(d.src[name], fault))
  {
  }

  /** A clash is never resolved by running again, so it blocks its record for good. */
  lemma ClashIsForever(states: seq<Dirs>, x: string)
    requires IsHistory(states) && Clash(states[0], x)
    ensures Clash(states[|states| - 1], x)
  {
    HistoryPreserves(states);
  }

  // ----- Runs that reach their end -----

  /** A run ends early exactly when the fault of one of its files ends it. */
  lemma {:induction false} EndsIff(d: Dirs, names: seq<string>, n: nat, execute: bool, faults: Faults)
    requires n <= |names| && Lists(names, d.src)
    ensures Migrated(d, names, n, execute, faults).ended <==> exists i :: 0 <= i < n && faults(names[i]).RunEnds?
  {
    if n > 0 {
      EndsIff(d, names, n - 1, execute, faults);
      var r := Migrated(d, names, n - 1, execute, faults);
      if !r.ended {
        OneFileEndsIff(r.dirs, names[n - 1], execute, faults(names[n - 1]));
      }
    }
  }

  lemma OneFileEndsIff(d: Dirs, name: string, execute: bool, fault: Fault)
    requires name in d.src
    ensures OneFile(d, name, execute, fault).ended <==> fault.RunEnds?
  {
  }

  /** No fault at a source file ends the run. */
  ghost predicate Completes(d: Dirs, faults: Faults) {
    forall x :: x in d.src ==> !faults(x).RunEnds?
  }

  /** The first n names */
  ghost function Done(names: seq<string>, n: nat): (done: set<string>)
    requires n <= |names|
    ensures forall x :: x in done <==> exists i :: 0 <= i < n && names[i] == x
  {
    if n == 0 then {} else Done(names, n - 1) + {names[n - 1]}
  }

  lemma NextIsNew(names: seq<string>, n: nat)
    requires 0 < n <= |names| && Distinct(names)
    ensures names[n - 1] !in Done(names, n - 1) && Done(names, n) == Done(names, n - 1) + {names[n - 1]}
  {
  }

  lemma AllDone(d: Dirs, names: seq<string>)
    requires Lists(names, d.src)
    ensures Done(names, |names|) == d.src.Keys
  {
  }

  /** How a file fares, by how it stood before the run and by the fault of its copy */
  datatype Fate = Moves | Repeats | Fails

  /** The copy raised, or other bytes arrived. */
  predicate BadCopy(bytes: Bytes, fault: Fault) {
    fault.CopyFails? || (fault.CopyDiffers? && fault.copy != bytes)
  }

  function FateOf(d: Dirs, faults: Faults, x: string): Fate
    requires x in d.src
  {
    if x in d.dst then (if d.dst[x] == File(d.src[x]) then Repeats else Fails)
    else if BadCopy(d.src[x], faults(x)) then Fails
    else Moves
  }

  /** What a copy leaves at a destination that was free */
  function Landed(bytes: Bytes, fault: Fault): Option<Bytes> {
    match fault
    case NoFault => Some(bytes)
    case CopyFails(left) => left
    case CopyDiffers(copy, cleaned) => if copy != bytes && cleaned then None else Some(copy)
    case RunEnds(left) => left
  }

  /** The directories after a run has done some files: the source keeps those that failed, the
      destination has what their copies left there. */
  ghost function Settled(d: Dirs, faults: Faults, done: set<string>): Dirs {
    Dirs(map x | x in d.src && (x in done ==> FateOf(d, faults, x).Fails?) :: d.src[x],
         d.dst + map x | x in d.src && x in done && x !in d.dst && Landed(d.src[x], faults(x)).Some?
                       :: File(Landed(d.src[x], faults(x)).value))
  }

  ghost function Those(d: Dirs, faults: Faults, done: set<string>, fate: Fate): set<string> {
    set x | x in done && x in d.src && FateOf(d, faults, x) == fate
  }

  ghost function Tally(d: Dirs, faults: Faults, done: set<string>): Counts {
    Counts(|Those(d, faults, done, Moves)|, |Those(d, faults, done, Repeats)|, |Those(d, faults, done, Fails)|)
  }

  function CountOf(fate: Fate): Counts {
    match fate
    case Moves => MOVED
    case Repeats => SKIPPED
    case Fails => FAILED
  }

  lemma ThoseGrow(d: Dirs, faults: Faults, done: set<string>, x: string, fate: Fate)
    requires x in d.src && x !in done
    ensures |Those(d, faults, done + {x}, fate)|
         == |Those(d, faults, done, fate)| + (if FateOf(d, faults, x) == fate then 1 else 0)
  {
    hide FateOf;
    if FateOf(d, faults, x) == fate {
      assert Those(d, faults, done + {x}, fate) == Those(d, faults, done, fate) + {x};
    } else {
      assert Those(d, faults, done + {x}, fate) == Those(d, faults, done, fate);
    }
  }

  lemma TallyGrows(d: Dirs, faults: Faults, done: set<string>, x: string)
    requires x in d.src && x !in done
    ensures Tally(d, faults, done + {x}) == Tally(d, faults, done).Plus(CountOf(FateOf(d, faults, x)))
  {
    hide FateOf, Those;
    ThoseGrow(d, faults, done, x, Moves);
    ThoseGrow(d, faults, done, x, Repeats);
    ThoseGrow(d, faults, done, x, Fails);
  }

  lemma SettlesOne(d: Dirs, faults: Faults, done: set<string>, x: string)
    requires x in d.src && x !in done && !faults(x).RunEnds?
    ensures x in Settled(d, faults, done).src
    ensures OneFile(Settled(d, faults, done), x, true, faults(x))
         == Outcome(Settled(d, faults, done + {x}), CountOf(FateOf(d, faults, x)), false)
  {
    hide Settled;
    match FateOf(d, faults, x)
    case Moves => SettlesMoved(d, faults, done, x);
    case Repeats => SettlesRepeated(d, faults, done, x);
    case Fails => if x in d.dst { SettlesClashing(d, faults, done, x); } else { SettlesBadCopy(d, faults, done, x); }
  }

  lemma SettlesMoved(d: Dirs, faults: Faults, done: set<string>, x: string)
    requires x in d.src && x !in done && !faults(x).RunEnds? && FateOf(d, faults, x).Moves?
    ensures
      var e, f := Settled(d, faults, done), Settled(d, faults, done + {x});
      x in e.src && x !in e.dst && e.src[x] == d.src[x] && f == Dirs(e.src - {x}, e.dst[x := File(e.src[x])])
  {
    var e, f := Settled(d, faults, done), Settled(d, faults, done + {x});
    assert f.src == e.src - {x};
    assert f.dst == e.dst[x := File(d.src[x])];
  }

  lemma SettlesRepeated(d: Dirs, faults: Faults, done: set<string>, x: string)
    requires x in d.src && x !in done && FateOf(d, faults, x).Repeats?
    ensures
      var e, f := Settled(d, faults, done), Settled(d, faults, done + {x});
      x in e.src && x in e.dst && !Clash(e, x) && f == Dirs(e.src - {x}, e.dst)
  {
    var e, f := Settled(d, faults, done), Settled(d, faults, done + {x});
    assert f.src == e.src - {x};
    assert f.dst == e.dst;
  }

  lemma SettlesClashing(d: Dirs, faults: Faults, done: set<string>, x: string)
    requires x in d.src && x !in done && x in d.dst && FateOf(d, faults, x).Fails?
    ensures
      var e, f := Settled(d, faults, done), Settled(d, faults, done + {x});
      x in e.src && Clash(e, x) && f == e
  {
    var e, f := Settled(d, faults, done), Settled(d, faults, done + {x});
    assert f.src == e.src;
    assert f.dst == e.dst;
  }

  lemma SettlesBadCopy(d: Dirs, faults: Faults, done: set<string>, x: string)
    requires x in d.src && x !in done && x !in d.dst && FateOf(d, faults, x).Fails?
    ensures
      var e, f, landed := Settled(d, faults, done), Settled(d, faults, done + {x}), Landed(d.src[x], faults(x));
      && x in e.src && x !in e.dst && e.src[x] == d.src[x]
      && f == Dirs(e.src, if landed.Some? then e.dst[x := File(landed.value)] else e.dst)
  {
    var e, f, landed := Settled(d, faults, done), Settled(d, faults, done + {x}), Landed(d.src[x], faults(x));
    assert f.src == e.src;
    assert f.dst == if landed.Some? then e.dst[x := File(landed.value)] else e.dst;
  }

  lemma {:induction false} SettledPrefix(d: Dirs, names: seq<string>, n: nat, faults: Faults)
    requires n <= |names| && Lists(names, d.src) && Completes(d, faults)
    ensures Migrated(d, names, n, true, faults)
         == Outcome(Settled(d, faults, Done(names, n)), Tally(d, faults, Done(names, n)), false)
  {
    hide Settled, Tally, OneFile, FateOf;
    if n == 0 {
      NothingDone(d, faults);
    } else {
      SettledPrefix(d, names, n - 1, faults);
      NextIsNew(names, n);
      SettlesOne(d, faults, Done(names, n - 1), names[n - 1]);
      TallyGrows(d, faults, Done(names, n - 1), names[n - 1]);
    }
  }

  lemma NothingDone(d: Dirs, faults: Faults)
    ensures Settled(d, faults, {}) == d && Tally(d, faults, {}) == NONE
  {
    assert Settled(d, faults, {}).src == d.src;
    assert Settled(d, faults, {}).dst == d.dst;
    assert forall fate :: Those(d, faults, {}, fate) == {};
  }

  lemma TallyIsWhole(d: Dirs, faults: Faults)
    ensures var c := Tally(d, faults, d.src.Keys); c.moved + c.skipped + c.errors == |d.src|
    ensures Tally(d, faults, d.src.Keys).errors == |Settled(d, faults, d.src.Keys).src|
  {
    hide FateOf, Settled, Those;
    FatesPartition(d, faults);
    var all := d.src.Keys;
    var moved, same := Those(d, faults, all, Moves), Those(d, faults, all, Repeats);
    var failed := Those(d, faults, all, Fails);
    assert |moved + same| == |moved| + |same|;
    assert |moved + same + failed| == |moved + same| + |failed|;
  }

  lemma FatesPartition(d: Dirs, faults: Faults)
    ensures
      var all := d.src.Keys;
      var moved, same := Those(d, faults, all, Moves), Those(d, faults, all, Repeats);
      var failed := Those(d, faults, all, Fails);
      && moved + same + failed == all && moved !! same && (moved + same) !! failed
      && Settled(d, faults, all).src.Keys == failed
  {
    hide FateOf, Landed;
  }

  /** Whatever goes wrong with its copies, a run that reaches its end moves every file without a namesake
      at the destination unless its copy went wrong, drops every identical one and reports the rest. Its
      three counts add up to the number of files, and its errors are the files left in the source. */
  lemma CompletedRun(d: Dirs, names: seq<string>, faults: Faults)
    requires Lists(names, d.src)
    ensures
      var r := Migrated(d, names, |names|, true, faults);
      && (r.ended <==> !Completes(d, faults))
      && (!r.ended ==>
            && r.dirs == Settled(d, faults, d.src.Keys) && r.counts == Tally(d, faults, d.src.Keys)
            && r.counts.moved + r.counts.skipped + r.counts.errors == |d.src|
            && r.counts.errors == |r.dirs.src|)
  {
    hide Settled, Tally, Migrated, Done;
    EndsIff(d, names, |names|, true, faults);
    AllDone(d, names);
    TallyIsWhole(d, faults);
    if Completes(d, faults) {
      SettledPrefix(d, names, |names|, faults);
    }
  }

  /** Every file of d stands at the destination of e with its bytes, and none is left in the source. */
  ghost predicate AllMoved(d: Dirs, e: Dirs) {
    e.src == map[] && forall x :: x in d.src ==> x in e.dst && e.dst[x] == File(d.src[x])
  }

  /** So such a run has no errors exactly when everything has moved, and exactly when no file clashed
      with its namesake beforehand and no copy went wrong. */
  lemma NoErrorsIff(d: Dirs, names: seq<string>, faults: Faults)
    requires Lists(names, d.src) && Completes(d, faults)
    ensures
      var r := Migrated(d, names, |names|, true, faults);
      && (r.counts.errors == 0 <==> AllMoved(d, r.dirs))
      && (r.counts.errors == 0 <==>
            forall x :: x in d.src ==>
              if x in d.dst then d.dst[x] == File(d.src[x]) else !BadCopy(d.src[x], faults(x)))
  {
    hide Migrated, Settled, Tally, Lists, Preserves;
    CompletedRun(d, names, faults);
    var e := Migrated(d, names, |names|, true, faults).dirs;
    SettledIsEmptyIff(d, faults);
    if e.src == map[] {
      RunPreserves(d, names, |names|, true, faults);
      PreservedAndMoved(d, e);
    }
  }

  lemma SettledIsEmptyIff(d: Dirs, faults: Faults)
    ensures
      var e := Settled(d, faults, d.src.Keys);
      && (|e.src| == 0 <==> e.src == map[])
      && (e.src == map[] <==>
            forall x :: x in d.src ==>
              if x in d.dst then d.dst[x] == File(d.src[x]) else !BadCopy(d.src[x], faults(x)))
  {
    hide BadCopy, Landed;
    var e := Settled(d, faults, d.src.Keys);
    assert e.src == map[] <==> forall x :: x in d.src ==> x !in e.src;
  }

  lemma PreservedAndMoved(d: Dirs, e: Dirs)
    requires Preserves(d, e) && e.src == map[]
    ensures AllMoved(d, e)
  {
  }

  // ----- Runs without faults -----

  ghost predicate Faultless(faults: Faults) {
    forall x :: faults(x) == NoFault
  }

  /** A faultless run succeeds exactly when no source file clashes with its namesake. */
  lemma SuccessIffNoClash(d: Dirs, names: seq<string>, faults: Faults)
    requires Lists(names, d.src) && Faultless(faults)
    ensures
      var r := Migrated(d, names, |names|, true, faults);
      !r.ended && (r.counts.errors == 0 <==> forall x :: x in d.src ==> !Clash(d, x))
  {
    hide Migrated;
    CompletedRun(d, names, faults);
    NoErrorsIff(d, names, faults);
  }

  lemma SettledIsSettled(d: Dirs, faults: Faults)
    requires Faultless(faults)
    ensures
      var e := Settled(d, faults, d.src.Keys);
      && e.src.Keys == Those(d, faults, d.src.Keys, Fails)
      && Settled(e, faults, e.src.Keys) == e
      && Tally(e, faults, e.src.Keys) == Counts(0, 0, |e.src.Keys|)
  {
    var e := Settled(d, faults, d.src.Keys);
    assert forall x :: x in e.src ==> Clash(e, x);
    assert Settled(e, faults, e.src.Keys).src == e.src;
    assert Settled(e, faults, e.src.Keys).dst == e.dst;
    assert Those(e, faults, e.src.Keys, Moves) == {} && Those(e, faults, e.src.Keys, Repeats) == {};
    assert Those(e, faults, e.src.Keys, Fails) == e.src.Keys;
  }

  /** Running again moves and skips nothing, reports the same clashes, and changes nothing. */
  lemma RunningAgain(d: Dirs, names: seq<string>, again: seq<string>, faults: Faults)
    requires Lists(names, d.src) && Faultless(faults)
    requires Lists(again, Migrated(d, names, |names|, true, faults).dirs.src)
    ensures
      var r := Migrated(d, names, |names|, true, faults);
      Migrated(r.dirs, again, |again|, true, faults) == Outcome(r.dirs, Counts(0, 0, r.counts.errors), false)
  {
    hide Migrated, Settled, Tally, Lists;
    CompletedRun(d, names, faults);
    CompletedRun(Settled(d, faults, d.src.Keys), again, faults);
    SettledIsSettled(d, faults);
  }

  /** A dry run sees no copy, so of the faults only an early end shows. */
  lemma {:induction false} DryPrefix(d: Dirs, names: seq<string>, n: nat, dry: Faults, faults: Faults)
    requires n <= |names| && Lists(names, d.src) && Completes(d, dry) && Faultless(faults)
    ensures Migrated(d, names, n, false, dry) == Outcome(d, Tally(d, faults, Done(names, n)), false)
  {
    hide Tally, FateOf, OneFile;
    if n == 0 {
      NothingDone(d, faults);
    } else {
      DryPrefix(d, names, n - 1, dry, faults);
      NextIsNew(names, n);
      TallyGrows(d, faults, Done(names, n - 1), names[n - 1]);
      DryFile(d, names[n - 1], dry(names[n - 1]), faults);
    }
  }

  lemma DryFile(d: Dirs, name: string, fault: Fault, faults: Faults)
    requires name in d.src && !fault.RunEnds? && faults(name) == NoFault
    ensures OneFile(d, name, false, fault) == Outcome(d, CountOf(FateOf(d, faults, name)), false)
  {
  }

  /** A dry run that reaches its end changes nothing and predicts the counts of a faultless run. */
  lemma DryRunPredicts(d: Dirs, names: seq<string>, dry: Faults, faults: Faults)
    requires Lists(names, d.src) && Completes(d, dry) && Faultless(faults)
    ensures Migrated(d, names, |names|, false, dry)
         == Outcome(d, Migrated(d, names, |names|, true, faults).counts, false)
  {
    hide Tally, Settled;
    DryPrefix(d, names, |names|, dry, faults);
    SettledPrefix(d, names, |names|, faults);
  }
}
