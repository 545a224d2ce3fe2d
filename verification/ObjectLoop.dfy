/**
 The object-loop playbook: the same step graph for each of five rules, filled in step by step, and
 the runs of a rule.  A jump back to a foreach step that is under way means "next item".
 */
module ObjectLoop {
  import opened Options

  datatype Name =
    | Read | Starts | Start | StartReconcile
    | Loops | Choose | Reconcile | Deadline | CheckpointStop | AdoptStop | ScorerStop
    | Checkpoint | CheckpointChoice | Adopt | Score | ScoreRefused | ScoreStop
    | Done | Failed

  /** A step of a rule; its key in the artifact is Sid. */
  datatype Id = Id(rule: string, name: Name)

  datatype Step<T> =
    | Command(completed: T, rejected: T, runtimeError: T, maxAttempts: nat)
    | Decision(cases: seq<T>, default_: T)
    | Foreach(body: T, completed: T, failed: T, runtimeError: T, maxIterations: nat)
    | Terminal(outcome: string)

  datatype Rule = Rule(id: string, event: string, entry: Id)

  const MAX_ATTEMPTS := 2
  const MAX_ITERATIONS := 32

  const EVENTS := [
    ("on-formula", "formula.cooked"), ("on-completion", "task.completed"), ("on-failure", "task.failed"),
    ("on-review", "review.decided"), ("recover", "timer.5m")]

  // ----- Step keys -----

  function Text(name: Name): string {
    match name
    case Read => "read"
    case Starts => "starts"
    case Start => "start"
    case StartReconcile => "start-reconcile"
    case Loops => "loops"
    case Choose => "choose"
    case Reconcile => "reconcile"
    case Deadline => "deadline"
    case CheckpointStop => "checkpoint-stop"
    case AdoptStop => "adopt-stop"
    case ScorerStop => "scorer-stop"
    case Checkpoint => "checkpoint"
    case CheckpointChoice => "checkpoint-choice"
    case Adopt => "adopt"
    case Score => "score"
    case ScoreRefused => "score-refused"
    case ScoreStop => "score-stop"
    case Done => "done"
    case Failed => "failed"
  }

  function Sid(id: Id): string {
    id.rule + "--" + Text(id.name)
  }

  /** A rule name in which the separator does not occur, not even with the hyphen that follows it */
  predicate IsRuleName(rule: string) {
    |rule| > 0 && rule[|rule| - 1] != '-' && forall i :: 0 <= i < |rule| - 1 ==> !(rule[i] == '-' && rule[i + 1] == '-')
  }

  /** Different steps have different keys, so no step overwrites another. */
  lemma SidIsInjective(a: Id, b: Id)
    requires IsRuleName(a.rule) && IsRuleName(b.rule) && Sid(a) == Sid(b)
    ensures a == b
  {
    if |a.rule| < |b.rule| {
      SeparatorComesFirst(a, b);
    } else if |b.rule| < |a.rule| {
      SeparatorComesFirst(b, a);
    }
    assert a.rule == Sid(a)[..|a.rule|] == Sid(b)[..|b.rule|] == b.rule;
    assert Text(a.name) == Sid(a)[|a.rule| + 2..] == Sid(b)[|b.rule| + 2..] == Text(b.name);
    TextIsInjective(a.name, b.name);
  }

  lemma SeparatorComesFirst(a: Id, b: Id)
    requires IsRuleName(a.rule) && IsRuleName(b.rule) && |a.rule| < |b.rule|
    ensures Sid(a) != Sid(b)
  {
    var n := |a.rule|;
    assert Sid(a)[n] == '-' && Sid(a)[n + 1] == '-';
    assert Sid(b)[n] == b.rule[n];
    if n + 1 < |b.rule| {
      assert Sid(b)[n + 1] == b.rule[n + 1];
    }
  }

  lemma TextIsInjective(a: Name, b: Name)
    requires Text(a) == Text(b)
    ensures a == b
  {
  }

  lemma RuleNamesAreSafe()
    ensures forall i :: 0 <= i < |EVENTS| ==> IsRuleName(EVENTS[i].0)
    ensures forall i, j :: 0 <= i < j < |EVENTS| ==> EVENTS[i].0 != EVENTS[j].0
  {
  }

  // ----- The graph of one rule -----

  function CommandTo(target: Name, rejected: Name): Step<Name> {
    Command(target, rejected, Failed, MAX_ATTEMPTS)
  }

  function ForeachOver(body: Name, target: Name): Step<Name> {
    Foreach(body, target, Failed, Failed, MAX_ITERATIONS)
  }

  function StepOf(name: Name): Step<Name> {
    match name
    case Read => CommandTo(Starts, Failed)
    case Starts => ForeachOver(Start, Loops)
    case Start => CommandTo(StartReconcile, Failed)
    case StartReconcile => CommandTo(Starts, Failed)
    case Loops => ForeachOver(Choose, Done)
    case Choose => Decision([Reconcile, Deadline, ScorerStop, Checkpoint, Score], Reconcile)
    case Reconcile => CommandTo(Loops, Failed)
    case Deadline => CommandTo(Loops, Failed)
    case CheckpointStop => CommandTo(Loops, Failed)
    case AdoptStop => CommandTo(Loops, Failed)
    case ScorerStop => CommandTo(Reconcile, Failed)
    case Checkpoint => CommandTo(CheckpointChoice, Failed)
    case CheckpointChoice => Decision([CheckpointStop, Adopt], Loops)
    case Adopt => CommandTo(Loops, AdoptStop)
    case Score => CommandTo(Reconcile, ScoreRefused)
    case ScoreRefused => Decision([ScoreStop], Failed)
    case ScoreStop => CommandTo(Reconcile, Failed)
    case Done => Terminal("completed")
    case Failed => Terminal("failed")
  }

  function Within(rule: string, names: seq<Name>): (ids: seq<Id>)
    ensures |ids| == |names| && forall i :: 0 <= i < |ids| ==> ids[i] == Id(rule, names[i])
  {
    seq(|names|, i requires 0 <= i < |names| => Id(rule, names[i]))
  }

  /** A step of one rule, its targets being steps of the same rule */
  function InRule(rule: string, step: Step<Name>): Step<Id> {
    match step
    case Command(c, r, e, n) => Command(Id(rule, c), Id(rule, r), Id(rule, e), n)
    case Decision(cases, d) => Decision(Within(rule, cases), Id(rule, d))
    case Foreach(b, c, f, e, n) => Foreach(Id(rule, b), Id(rule, c), Id(rule, f), Id(rule, e), n)
    case Terminal(outcome) => Terminal(outcome)
  }

  type Steps = map<Id, Step<Id>>

  /** The steps of a rule in the order they are filled in */
  const NAMES: seq<Name> := [
    Read, Starts, Start, StartReconcile, Loops, Choose, Reconcile, Deadline, CheckpointStop, AdoptStop,
    ScorerStop, Checkpoint, CheckpointChoice, Adopt, Score, ScoreRefused, ScoreStop, Done, Failed]

  function Place(name: Name): (i: nat)
    ensures i < |NAMES| && NAMES[i] == name
  {
    match name
    case Read => 0
    case Starts => 1
    case Start => 2
    case StartReconcile => 3
    case Loops => 4
    case Choose => 5
    case Reconcile => 6
    case Deadline => 7
    case CheckpointStop => 8
    case AdoptStop => 9
    case ScorerStop => 10
    case Checkpoint => 11
    case CheckpointChoice => 12
    case Adopt => 13
    case Score => 14
    case ScoreRefused => 15
    case ScoreStop => 16
    case Done => 17
    case Failed => 18
  }

  lemma PlaceIs(i: nat)
    requires i < |NAMES|
    ensures forall name :: Place(name) == i <==> name == NAMES[i]
  {
  }

  /** The table that Build fills in */
  ghost predicate IsTable(steps: Steps, events: seq<(string, string)>) {
    && (forall id: Id :: id in steps <==> exists i :: 0 <= i < |events| && id.rule == events[i].0)
    && (forall id: Id :: id in steps ==> steps[id] == InRule(id.rule, StepOf(id.name)))
  }

  class Body {
    var rules: seq<Rule>
    var steps: Steps

    constructor ()
      ensures rules == [] && steps == map[]
    {
      rules, steps := [], map[];
    }

    /** One turn of the loop over the rules */
    method AddRule(rule: string, event: string)
      modifies this
      ensures rules == old(rules) + [Rule(rule, event, Id(rule, Read))]
      ensures forall id: Id :: id in steps <==> id in old(steps) || id.rule == rule
      ensures forall id: Id :: id in steps ==>
        steps[id] == if id.rule == rule then InRule(rule, StepOf(id.name)) else old(steps)[id]
    {
      hide InRule, StepOf, Place;
      rules := rules + [Rule(rule, event, Id(rule, Read))];
      for i := 0 to |NAMES|
        invariant rules == old(rules) + [Rule(rule, event, Id(rule, Read))]
        invariant forall id: Id :: id in steps <==> id in old(steps) || (id.rule == rule && Place(id.name) < i)
        invariant forall id: Id :: id in steps ==>
          steps[id] == if id.rule == rule && Place(id.name) < i then InRule(rule, StepOf(id.name)) else old(steps)[id]
      {
        PlaceIs(i);
        steps := steps[Id(rule, NAMES[i]) := InRule(rule, StepOf(NAMES[i]))];
      }
    }

    /** The loop over the rules */
    method AddRules(events: seq<(string, string)>)
      requires rules == [] && steps == map[]
      modifies this
      ensures |rules| == |events|
      ensures forall i :: 0 <= i < |events| ==> rules[i] == Rule(events[i].0, events[i].1, Id(events[i].0, Read))
      ensures IsTable(steps, events)
    {
      hide InRule, StepOf;
      for k := 0 to |events|
        invariant |rules| == k
        invariant forall i :: 0 <= i < k ==> rules[i] == Rule(events[i].0, events[i].1, Id(events[i].0, Read))
        invariant forall id: Id :: id in steps <==> exists i :: 0 <= i < k && id.rule == events[i].0
        invariant forall id: Id :: id in steps ==> steps[id] == InRule(id.rule, StepOf(id.name))
      {
        AddRule(events[k].0, events[k].1);
      }
    }

    /** _object_loop_body */
    method Build()
      requires rules == [] && steps == map[]
      modifies this
      ensures |rules| == |EVENTS|
      ensures forall i :: 0 <= i < |EVENTS| ==> rules[i] == Rule(EVENTS[i].0, EVENTS[i].1, Id(EVENTS[i].0, Read))
      ensures IsTable(steps, EVENTS)
    {
      hide IsTable;
      AddRules(EVENTS);
    }
  }

  // ----- Runs of a rule -----

  /**
   Where a run stands: the step, the foreach that is under way with the items it still has to
   serve, and the attempts left for the step.
   */
  datatype Run =
    | At(name: Name, active: Option<Name>, left: nat, attempts: nat, account: Account)
    | Over(outcome: string, account: Account)

  /** The foreach steps entered and finished so far, the items they found, and those whose body was
      entered */
  datatype Account = Account(entered: seq<Name>, finished: seq<Name>, taken: nat, served: nat)

  /** What happens at a step: how its command ended, which case of a decision held, and how many
      items a foreach found when it was entered (or that it failed). */
  datatype Event = Completed | Rejected | RuntimeError | CaseHolds(i: nat) | NoCase | Items(n: nat)

  function Attempts(name: Name): nat {
    if StepOf(name).Command? then StepOf(name).maxAttempts else 0
  }

  function GoTo(r: Run, name: Name): Run
    requires r.At?
  {
    r.(name := name, attempts := Attempts(name))
  }

  function Entry(): Run {
    At(Read, None, 0, Attempts(Read), Account([], [], 0, 0))
  }

  predicate Possible(r: Run, e: Event)
    requires r.At?
  {
    match StepOf(r.name)
    case Command(_, _, _, _) => e.Completed? || e.Rejected? || e.RuntimeError?
    case Decision(cases, _) => e.NoCase? || (e.CaseHolds? && e.i < |cases|)
    case Foreach(_, _, _, _, most) =>
      e.RuntimeError? || (if r.active == Some(r.name) then e.Completed? else e.Items? && e.n <= most)
    case Terminal(_) => e.Completed?
  }

  function Next(r: Run, e: Event): Run
    requires r.At? && Possible(r, e)
  {
    match StepOf(r.name)
    case Command(completed, rejected, runtimeError, _) =>
      if e.Completed? then GoTo(r, completed)
      else if e.Rejected? then GoTo(r, rejected)
      else if r.attempts > 1 then r.(attempts := r.attempts - 1)
      else GoTo(r, runtimeError)
    case Decision(cases, default_) => GoTo(r, if e.CaseHolds? then cases[e.i] else default_)
    case Foreach(body, completed, _, runtimeError, _) =>
      if e.RuntimeError? then GoTo(r, runtimeError)
      else if e.Items? then
        r.(active := Some(r.name), left := e.n,
           account := r.account.(entered := r.account.entered + [r.name], taken := r.account.taken + e.n))
      else if r.left == 0 then
        GoTo(r, completed).(active := None, account := r.account.(finished := r.account.finished + [r.name]))
      else
        GoTo(r, body).(left := r.left - 1, account := r.account.(served := r.account.served + 1))
    case Terminal(outcome) => Over(outcome, r.account)
  }

  ghost predicate Runs(r: Run, events: seq<Event>)
    decreases |events|
  {
    events == [] || (r.At? && Possible(r, events[0]) && Runs(Next(r, events[0]), events[1..]))
  }

  ghost function After(r: Run, events: seq<Event>): Run
    requires Runs(r, events)
    decreases |events|
  {
    if events == [] then r else After(Next(r, events[0]), events[1..])
  }

  // ----- Every run ends -----

  /** Which foreach is under way at a step, if it is one of a body */
  function LoopOf(name: Name): Option<Name> {
    match name
    case Start => Some(Starts)
    case StartReconcile => Some(Starts)
    case Read => None
    case Starts => None
    case Loops => None
    case Done => None
    case Failed => None
    case _ => Some(Loops)
  }

  /** A run stands inside a body only while that body's foreach is under way. */
  predicate InPlace(r: Run) {
    r.At? ==>
      && (LoopOf(r.name).Some? ==> r.active == LoopOf(r.name))
      && (r.name == Read ==> r.active.None?)
      && (r.name == Starts || r.name == Loops ==> r.active.None? || r.active == Some(r.name))
      && r.left <= MAX_ITERATIONS && r.attempts <= MAX_ATTEMPTS
  }

  function Phase(r: Run): nat {
    if r.Over? then 0
    else if r.name == Done || r.name == Failed then 1
    else if r.active == Some(Loops) then 2
    else if r.name == Loops then 3
    else if r.active == Some(Starts) then 4
    else if r.name == Starts then 5
    else 6
  }

  /** The longest way from a step back to its foreach */
  function Rank(name: Name): nat {
    match name
    case Choose => 5
    case Checkpoint => 4
    case Score => 4
    case CheckpointChoice => 3
    case ScoreRefused => 3
    case Adopt => 2
    case ScorerStop => 2
    case ScoreStop => 2
    case Start => 2
    case StartReconcile => 1
    case Reconcile => 1
    case Deadline => 1
    case CheckpointStop => 1
    case AdoptStop => 1
    case _ => 0
  }

  predicate Below(n: Run, r: Run)
    requires r.At?
  {
    || Phase(n) < Phase(r)
    || (Phase(n) == Phase(r) && n.At?
        && (n.left < r.left
            || (n.left == r.left && (Rank(n.name) < Rank(r.name) || (n.name == r.name && n.attempts < r.attempts)))))
  }

  /** (phase, items left, step rank, attempts left) falls at every step. */
  lemma EveryStepDescends(r: Run, e: Event)
    requires r.At? && InPlace(r) && Possible(r, e)
    ensures InPlace(Next(r, e)) && Below(Next(r, e), r)
  {
    match StepOf(r.name)
    case Command(_, _, _, _) => CommandDescends(r, e);
    case Decision(_, _) => DecisionDescends(r, e);
    case Foreach(_, _, _, _, _) =>
    case Terminal(_) =>
  }

  lemma CommandDescends(r: Run, e: Event)
    requires r.At? && InPlace(r) && Possible(r, e) && StepOf(r.name).Command?
    ensures InPlace(Next(r, e)) && Below(Next(r, e), r)
  {
    match e
    case Completed =>
    case Rejected =>
    case RuntimeError =>
  }

  lemma DecisionDescends(r: Run, e: Event)
    requires r.At? && InPlace(r) && Possible(r, e) && StepOf(r.name).Decision?
    ensures InPlace(Next(r, e)) && Below(Next(r, e), r)
  {
    match r.name
    case Choose =>
    case CheckpointChoice =>
    case ScoreRefused =>
  }

  /** The same measure as one number */
  function Potential(r: Run): nat {
    if r.Over? then 0
    else ((Phase(r) * (MAX_ITERATIONS + 1) + r.left) * 6 + Rank(r.name)) * (MAX_ATTEMPTS + 1) + r.attempts
  }

  lemma PotentialFalls(r: Run, e: Event)
    requires r.At? && InPlace(r) && Possible(r, e)
    ensures InPlace(Next(r, e)) && Potential(Next(r, e)) < Potential(r)
  {
    EveryStepDescends(r, e);
    var n := Next(r, e);
    if n.At? && Phase(n) == Phase(r) {
      assert Rank(n.name) <= 5 && n.attempts <= MAX_ATTEMPTS;
    }
  }

  lemma {:induction false} RunIsBounded(r: Run, events: seq<Event>)
    requires InPlace(r) && Runs(r, events)
    ensures InPlace(After(r, events)) && |events| + Potential(After(r, events)) <= Potential(r)
    decreases |events|
  {
    if events != [] {
      PotentialFalls(r, events[0]);
      RunIsBounded(Next(r, events[0]), events[1..]);
    }
  }

  /** A run can always go on until it is over. */
  lemma NeverStuck(r: Run)
    requires r.At? && InPlace(r)
    ensures exists e :: Possible(r, e)
  {
    match StepOf(r.name)
    case Command(_, _, _, _) => assert Possible(r, Completed);
    case Decision(_, _) => assert Possible(r, NoCase);
    case Foreach(_, _, _, _, _) => assert Possible(r, RuntimeError);
    case Terminal(_) => assert Possible(r, Completed);
  }

  lemma {:induction false} OutcomeOfRun(r: Run, events: seq<Event>)
    requires Runs(r, events) && (r.Over? ==> r.outcome in {"completed", "failed"})
    ensures After(r, events).Over? ==> After(r, events).outcome in {"completed", "failed"}
    decreases |events|
  {
    if events != [] {
      OutcomeOfRun(Next(r, events[0]), events[1..]);
    }
  }

  /** Whatever the commands report and the loops find, a rule takes at most so many steps, can always
      take the next one until it is over, and is then over as completed or failed. */
  lemma EveryRunEnds(events: seq<Event>)
    requires Runs(Entry(), events)
    ensures |events| <= Potential(Entry()) == 3566
    ensures var r := After(Entry(), events);
            if r.Over? then r.outcome in {"completed", "failed"} else exists e :: Possible(r, e)
  {
    RunIsBounded(Entry(), events);
    OutcomeOfRun(Entry(), events);
    var r := After(Entry(), events);
    if r.At? {
      NeverStuck(r);
    }
  }

  // ----- What each step is reached by -----

  /** The event takes a run to another step, this one. */
  ghost predicate Enters(r: Run, e: Event, name: Name)
    requires r.At? && Possible(r, e)
  {
    Next(r, e).At? && Next(r, e).name == name && r.name != name
  }

  /** A stop step is entered by its own decision case or by a refusal, and by nothing else: the deadline,
      the exhausted scorer and a checkpoint that was not accepted by their cases, the refused
      continuation only after a refused adoption, and the stop of a score only when a refused score
      wanted to go on. */
  lemma StopsAreEarned(r: Run, e: Event)
    requires r.At? && Possible(r, e)
    ensures Enters(r, e, Deadline) <==> r.name == Choose && e == CaseHolds(1)
    ensures Enters(r, e, ScorerStop) <==> r.name == Choose && e == CaseHolds(2)
    ensures Enters(r, e, CheckpointStop) <==> r.name == CheckpointChoice && e == CaseHolds(0)
    ensures Enters(r, e, AdoptStop) <==> r.name == Adopt && e == Rejected
    ensures Enters(r, e, ScoreStop) <==> r.name == ScoreRefused && e == CaseHolds(0)
  {
    hide Attempts;
  }

  /** The checkpoint and the score of an object are entered by their cases and lead on when done. */
  lemma WorkIsEarned(r: Run, e: Event)
    requires r.At? && Possible(r, e)
    ensures Enters(r, e, Checkpoint) <==> r.name == Choose && e == CaseHolds(3)
    ensures Enters(r, e, CheckpointChoice) <==> r.name == Checkpoint && e == Completed
    ensures Enters(r, e, Adopt) <==> r.name == CheckpointChoice && e == CaseHolds(1)
    ensures Enters(r, e, Score) <==> r.name == Choose && e == CaseHolds(4)
    ensures Enters(r, e, ScoreRefused) <==> r.name == Score && e == Rejected
  {
    hide Attempts;
  }

  /** A stopped object and one without a case are reconciled, and so is every object after its score;
      each way through the body goes on to the next object. */
  lemma NextIsEarned(r: Run, e: Event)
    requires r.At? && Possible(r, e)
    ensures Enters(r, e, Reconcile) <==>
      || (r.name == Choose && (e == CaseHolds(0) || e == NoCase))
      || (r.name in {ScorerStop, Score, ScoreStop} && e == Completed)
    ensures Enters(r, e, Choose) <==> r.name == Loops && r.active == Some(Loops) && e == Completed && r.left > 0
    ensures Enters(r, e, Loops) <==>
      || (r.name == Starts && r.active == Some(Starts) && e == Completed && r.left == 0)
      || (r.name in {Reconcile, Deadline, CheckpointStop, AdoptStop, Adopt} && e == Completed)
      || (r.name == CheckpointChoice && e == NoCase)
  {
    hide Attempts;
  }

  /** Work on an approved proposal: each is started and reconciled before the next. */
  lemma StartIsEarned(r: Run, e: Event)
    requires r.At? && Possible(r, e)
    ensures Enters(r, e, Starts) <==> r.name in {Read, StartReconcile} && e == Completed
    ensures Enters(r, e, Start) <==> r.name == Starts && r.active == Some(Starts) && e == Completed && r.left > 0
    ensures Enters(r, e, StartReconcile) <==> r.name == Start && e == Completed
    ensures !Enters(r, e, Read)
  {
    hide Attempts;
  }

  /** A run fails by a foreach that fails, a command out of attempts, a refused command other than an
      adoption or a score, or a refused score that did not want to go on. */
  lemma FailureIsEarned(r: Run, e: Event)
    requires r.At? && Possible(r, e)
    ensures Enters(r, e, Failed) <==>
      || (r.name in {Starts, Loops} && e == RuntimeError)
      || (IsCommand(r.name) && e == RuntimeError && r.attempts <= 1)
      || (IsCommand(r.name) && e == Rejected && r.name !in {Adopt, Score})
      || (r.name == ScoreRefused && e == NoCase)
    ensures Enters(r, e, Done) <==> r.name == Loops && r.active == Some(Loops) && e == Completed && r.left == 0
  {
    hide Attempts;
  }

  predicate IsCommand(name: Name) {
    name !in {Starts, Loops, Choose, CheckpointChoice, ScoreRefused, Done, Failed}
  }

  /** The foreach steps that a run has entered, and those it has finished, by where it stands */
  function EnteredAt(name: Name, active: Option<Name>): seq<Name> {
    if name == Done || active == Some(Loops) then [Starts, Loops]
    else if name == Loops || active == Some(Starts) then [Starts]
    else []
  }

  function FinishedAt(name: Name, active: Option<Name>): seq<Name> {
    if name == Done then [Starts, Loops] else if name == Loops || active == Some(Loops) then [Starts] else []
  }

  /** Until a run fails, the items taken are those served and those still to serve. */
  predicate Accounted(r: Run) {
    match r
    case At(name, active, left, _, account) =>
      name != Failed ==>
        && account.taken == account.served + (if active.Some? then left else 0)
        && account.entered == EnteredAt(name, active) && account.finished == FinishedAt(name, active)
        && (name == Done ==> active.None?)
    case Over(outcome, account) =>
      outcome == "completed" ==>
        account.taken == account.served && account.entered == [Starts, Loops] && account.finished == [Starts, Loops]
  }

  lemma StepKeepsAccount(r: Run, e: Event)
    requires r.At? && InPlace(r) && Accounted(r) && Possible(r, e)
    ensures Accounted(Next(r, e))
  {
    match r.name
    case Read =>
    case Starts =>
    case Loops =>
    case _ =>
  }

  lemma {:induction false} AccountAlong(r: Run, events: seq<Event>)
    requires InPlace(r) && Accounted(r) && Runs(r, events)
    ensures Accounted(After(r, events))
    decreases |events|
  {
    hide Accounted, InPlace, Next;
    if events != [] {
      PotentialFalls(r, events[0]);
      StepKeepsAccount(r, events[0]);
      AccountAlong(Next(r, events[0]), events[1..]);
    }
  }

  /** A run that completes has entered and finished each foreach once, in order, and has served every
      item they found; none is dropped or served twice. */
  lemma CompletedServesAll(events: seq<Event>)
    requires Runs(Entry(), events)
    ensures
      var r := After(Entry(), events);
      r.Over? && r.outcome == "completed" ==>
        && r.account.entered == [Starts, Loops] && r.account.finished == [Starts, Loops]
        && r.account.taken == r.account.served
  {
    AccountAlong(Entry(), events);
  }

  // ----- The graph as a whole -----

  /** The step can lead to the target. */
  predicate LeadsTo<T(==)>(step: Step<T>, target: T) {
    match step
    case Command(c, r, e, _) => target == c || target == r || target == e
    case Decision(cases, d) => target == d || target in cases
    case Foreach(b, c, f, e, _) => target == b || target == c || target == f || target == e
    case Terminal(_) => false
  }

  lemma TargetsInRule(rule: string, step: Step<Name>, id: Id)
    requires LeadsTo(InRule(rule, step), id)
    ensures id.rule == rule && LeadsTo(step, id.name)
  {
  }

  /** In the artifact no two steps share a key. */
  lemma KeysAreDistinct(steps: Steps, a: Id, b: Id)
    ensures IsTable(steps, EVENTS) && a in steps && b in steps && Sid(a) == Sid(b) ==> a == b
  {
    hide InRule, StepOf;
    RuleNamesAreSafe();
    if IsTable(steps, EVENTS) && a in steps && b in steps && Sid(a) == Sid(b) {
      SidIsInjective(a, b);
    }
  }

  /** No step of the artifact points outside it, or into another rule. */
  lemma NoDanglingTarget(steps: Steps, id: Id, target: Id)
    ensures IsTable(steps, EVENTS) && id in steps && LeadsTo(steps[id], target) ==>
      target in steps && target.rule == id.rule
  {
    hide InRule, StepOf;
    if IsTable(steps, EVENTS) && id in steps && LeadsTo(steps[id], target) {
      TargetsInRule(id.rule, StepOf(id.name), target);
    }
  }

  /** A step that leads to this one, and is nearer to the entry */
  function Before(name: Name): Name {
    match name
    case Read => Read
    case Starts => Read
    case Failed => Read
    case Start => Starts
    case Loops => Starts
    case StartReconcile => Start
    case Choose => Loops
    case Done => Loops
    case CheckpointChoice => Checkpoint
    case CheckpointStop => CheckpointChoice
    case Adopt => CheckpointChoice
    case AdoptStop => Adopt
    case ScoreRefused => Score
    case ScoreStop => ScoreRefused
    case _ => Choose
  }

  predicate IsPath(path: seq<Name>) {
    forall i :: 0 < i < |path| ==> LeadsTo(StepOf(path[i - 1]), path[i])
  }

  /** Every step of a rule can be reached from its entry. */
  lemma {:induction false} EveryStepIsReachable(name: Name) returns (path: seq<Name>)
    ensures IsPath(path) && |path| > 0 && path[0] == Read && path[|path| - 1] == name
    decreases Depth(name)
  {
    if name == Read {
      return [Read];
    }
    path := EveryStepIsReachable(Before(name));
    NextTo(name);
    path := path + [name];
  }

  function Depth(name: Name): nat {
    match name
    case Read => 0
    case Starts => 1
    case Failed => 1
    case Start => 2
    case Loops => 2
    case StartReconcile => 3
    case Choose => 3
    case Done => 3
    case CheckpointChoice => 5
    case CheckpointStop => 6
    case Adopt => 6
    case AdoptStop => 7
    case ScoreRefused => 5
    case ScoreStop => 6
    case _ => 4
  }

  lemma NextTo(name: Name)
    requires name != Read
    ensures LeadsTo(StepOf(Before(name)), name)
  {
    match name
    case Reconcile => assert StepOf(Choose).cases[0] == name;
    case Deadline => assert StepOf(Choose).cases[1] == name;
    case ScorerStop => assert StepOf(Choose).cases[2] == name;
    case Checkpoint => assert StepOf(Choose).cases[3] == name;
    case Score => assert StepOf(Choose).cases[4] == name;
    case CheckpointStop => assert StepOf(CheckpointChoice).cases[0] == name;
    case Adopt => assert StepOf(CheckpointChoice).cases[1] == name;
    case ScoreStop => assert StepOf(ScoreRefused).cases[0] == name;
    case _ =>
  }
}
