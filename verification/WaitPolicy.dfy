/**
 The verified-wait policy: validation reports what is wrong with a policy, and resolving a project
 lays its overrides over the global settings and those over the defaults.
 */
module WaitPolicy {
  import opened Options
  import opened Strings

  /** A setting as it was read: nothing, a value of some type, or anything else */
  datatype Value = Nothing | Bool(b: bool) | Int(i: int) | Float(x: real) | NotFinite | Text(s: string) | Other

  datatype Field =
    | V2Enabled | HibernationEnabled | SchedulerWaitsEnabled
    | InPlaceCeilingSeconds | HibernateMargin | ResumeCostMinutes | MinSamples
    | LoopWindowRegistrations | LoopWindowSeconds | BranchAdmissionDeadlineSeconds
    | TransitionBudgetSeconds | ResumeLaunchAttempts | ResumeStallSeconds
    | ListenerLagEvents | ListenerLagAlertMinutes

  datatype Kind =
    | Task | Dependency | PullRequest | Batch | Job | Message | PlaybookCondition
    | CiCheck | CiRun | Resource | Timer | Human
    | Unknown(name: string)

  datatype KindPolicy = KindPolicy(deadline: Value, duration: Value)

  datatype Entry = Policy(policy: KindPolicy) | NotAPolicy

  datatype Kinds = Mapping(entries: map<Kind, Entry>) | NotAMapping

  datatype Settings = Settings(values: map<Field, Value>, kinds: Kinds)

  datatype Override = Overrides(settings: Settings) | Absent | NotOverrides

  datatype ProjectId = Id(name: string) | NotAString(n: int)

  datatype Projects = ById(overrides: map<ProjectId, Override>) | NotById

  datatype Metrics = Metrics(turnRate: Value, tokensPerTurn: Value, cohort: Value, window: Value) | NotMetrics

  datatype Metric = TurnRate | TokensPerTurn | Cohort | Window

  datatype Config = Config(settings: Settings, v1Bodies: Value, projects: Projects, metrics: Metrics)

  const FIELDS: seq<Field> := [
    V2Enabled, HibernationEnabled, SchedulerWaitsEnabled, InPlaceCeilingSeconds, HibernateMargin,
    ResumeCostMinutes, MinSamples, LoopWindowRegistrations, LoopWindowSeconds,
    BranchAdmissionDeadlineSeconds, TransitionBudgetSeconds, ResumeLaunchAttempts, ResumeStallSeconds,
    ListenerLagEvents, ListenerLagAlertMinutes]

  const OVERRIDE_FIELDS: seq<Field> := [
    InPlaceCeilingSeconds, ResumeCostMinutes, ResumeStallSeconds, HibernateMargin, V2Enabled,
    HibernationEnabled, SchedulerWaitsEnabled]

  const KNOWN: set<Kind> := {
    Task, Dependency, PullRequest, Batch, Job, Message, PlaybookCondition, CiCheck, CiRun, Resource, Timer, Human}

  /** default_kinds */
  function Default(kind: Kind): KindPolicy {
    match kind
    case Batch => KindPolicy(Int(14400), Int(2700))
    case Job => KindPolicy(Int(7200), Int(900))
    case Message => KindPolicy(Int(7200), Int(1800))
    case PlaybookCondition => KindPolicy(Int(7200), Int(1800))
    case CiCheck => KindPolicy(Int(5400), Int(1200))
    case CiRun => KindPolicy(Int(5400), Int(1500))
    case Resource => KindPolicy(Int(1800), Nothing)
    case Timer => KindPolicy(Int(300), Nothing)
    case Human => KindPolicy(Nothing, Nothing)
    case _ => KindPolicy(Int(14400), Int(3600))
  }

  // ----- What is valid -----

  predicate IsFlag(f: Field) {
    f == V2Enabled || f == HibernationEnabled || f == SchedulerWaitsEnabled
  }

  predicate IsSeconds(f: Field) {
    || f == InPlaceCeilingSeconds || f == LoopWindowSeconds || f == BranchAdmissionDeadlineSeconds
    || f == TransitionBudgetSeconds || f == ResumeStallSeconds
  }

  function Number(v: Value): Option<real> {
    match v
    case Int(i) => Some(i as real)
    case Float(x) => Some(x)
    case _ => None
  }

  predicate FieldOk(f: Field, v: Value) {
    if IsFlag(f) then v.Bool?
    else if f == HibernateMargin then Number(v).Some? && Number(v).value >= 1.0
    else if f == ResumeCostMinutes then Number(v).Some? && Number(v).value > 0.0
    else
      var minimum :=
        if f == InPlaceCeilingSeconds || f == LoopWindowSeconds || f == BranchAdmissionDeadlineSeconds then 60 else 1;
      v.Int? && v.i >= minimum && (IsSeconds(f) ==> v.i <= 86400)
  }

  predicate DeadlineOk(v: Value) {
    v == Nothing || (v.Int? && 60 <= v.i <= 86400)
  }

  predicate DurationOk(v: Value) {
    v == Nothing || (v.Int? && 0 <= v.i)
  }

  function Get(values: map<Field, Value>, f: Field): Value {
    if f in values then values[f] else Nothing
  }

  /** What _validate_wait_settings finds wrong */
  datatype SettingsError =
    | BadField(f: Field)
    | KindsNotMapping
    | UnknownKind(kind: Kind)
    | KindNotPolicy(kind: Kind)
    | HumanHasPolicy
    | BadDeadline(kind: Kind)
    | BadDuration(kind: Kind)
    | NoDeadline(kind: Kind)

  predicate IsBadField(s: Settings, optional: bool, f: Field) {
    var value := Get(s.values, f);
    !(optional && value == Nothing) && !FieldOk(f, value)
  }

  predicate KindError(kind: Kind, entry: Entry, optional: bool, e: SettingsError) {
    if kind.Unknown? then e == UnknownKind(kind)
    else if entry.NotAPolicy? then e == KindNotPolicy(kind)
    else if kind == Human && (optional || entry.policy != Default(Human)) then e == HumanHasPolicy
    else
      || (e == BadDeadline(kind) && !DeadlineOk(entry.policy.deadline))
      || (e == BadDuration(kind) && !DurationOk(entry.policy.duration))
      || (e == NoDeadline(kind) && !optional && kind != Human && entry.policy.deadline == Nothing)
  }

  predicate IsSettingsError(s: Settings, fields: seq<Field>, optional: bool, e: SettingsError) {
    || (e.BadField? && e.f in fields && IsBadField(s, optional, e.f))
    || (if s.kinds.NotAMapping? then e == KindsNotMapping
        else exists kind :: kind in s.kinds.entries && KindError(kind, s.kinds.entries[kind], optional, e))
  }

  datatype Error =
    | InSettings(e: SettingsError)
    | InProject(id: ProjectId, e: SettingsError)
    | MetricsNotSettings
    | BadMetric(metric: Metric)
    | BadBodies
    | ProjectsNotMapping
    | BadProjectId(id: ProjectId)
    | ProjectNotOverrides(id: ProjectId)

  predicate RateOk(v: Value) {
    v == Nothing || (Number(v).Some? && Number(v).value >= 0.0)
  }

  predicate LabelOk(v: Value) {
    v == Nothing || (v.Text? && !IsBlank(v.s))
  }

  predicate IsMetricsError(m: Metrics, e: Error) {
    if m.NotMetrics? then e == MetricsNotSettings
    else
      || (e == BadMetric(TurnRate) && !RateOk(m.turnRate))
      || (e == BadMetric(TokensPerTurn) && !RateOk(m.tokensPerTurn))
      || (e == BadMetric(Cohort) && !LabelOk(m.cohort))
      || (e == BadMetric(Window) && !LabelOk(m.window))
  }

  predicate MetricsOk(m: Metrics) {
    m.Metrics? && RateOk(m.turnRate) && RateOk(m.tokensPerTurn) && LabelOk(m.cohort) && LabelOk(m.window)
  }

  predicate ProjectError(id: ProjectId, over: Override, e: Error) {
    || (e == BadProjectId(id) && (id.NotAString? || IsBlank(id.name)))
    || (if !over.Overrides? then e == ProjectNotOverrides(id)
        else e.InProject? && e.id == id && IsSettingsError(over.settings, OVERRIDE_FIELDS, true, e.e))
  }

  /** Whether validate reports the error */
  predicate IsError(c: Config, e: Error) {
    || (e.InSettings? && IsSettingsError(c.settings, FIELDS, false, e.e))
    || IsMetricsError(c.metrics, e)
    || (e == BadBodies && c.v1Bodies != Text("translate") && c.v1Bodies != Text("refuse"))
    || (if c.projects.NotById? then e == ProjectsNotMapping
        else exists id :: id in c.projects.overrides && ProjectError(id, c.projects.overrides[id], e))
  }

  ghost predicate Validates(c: Config) {
    forall e :: !IsError(c, e)
  }

  // ----- Validation -----

  /** WaitKindPolicy.validate and the checks around it, for one kind */
  method ValidateKind(kind: Kind, entry: Entry, optional: bool) returns (errors: seq<SettingsError>)
    ensures forall e :: e in errors <==> KindError(kind, entry, optional, e)
  {
    if kind.Unknown? {
      return [UnknownKind(kind)];
    }
    if entry.NotAPolicy? {
      return [KindNotPolicy(kind)];
    }
    var policy := entry.policy;
    if kind == Human && (optional || policy != Default(Human)) {
      return [HumanHasPolicy];
    }
    errors := [];
    if !DeadlineOk(policy.deadline) {
      errors := errors + [BadDeadline(kind)];
    }
    if !DurationOk(policy.duration) {
      errors := errors + [BadDuration(kind)];
    }
    if !optional && kind != Human && policy.deadline == Nothing {
      errors := errors + [NoDeadline(kind)];
    }
  }

  /** _validate_wait_settings: reports exactly the errors there are. */
  method ValidateSettings(settings: Settings, fields: seq<Field>, optional: bool) returns (errors: seq<SettingsError>)
    ensures forall e :: e in errors <==> IsSettingsError(settings, fields, optional, e)
  {
    hide FieldOk, KindError;
    errors := [];
    for i := 0 to |fields|
      invariant forall e :: e in errors <==>
        e.BadField? && e.f in fields[..i] && IsBadField(settings, optional, e.f)
    {
      var value := Get(settings.values, fields[i]);
      assert fields[..i + 1] == fields[..i] + [fields[i]];
      if !(optional && value == Nothing) && !FieldOk(fields[i], value) {
        errors := errors + [BadField(fields[i])];
      }
    }
    assert fields[..|fields|] == fields;
    if settings.kinds.NotAMapping? {
      return errors + [KindsNotMapping];
    }
    ghost var before := errors;
    var entries := settings.kinds.entries;
    var todo := entries.Keys;
    while todo != {}
      invariant todo <= entries.Keys
      invariant forall e :: e in errors <==>
        e in before || exists kind :: kind in entries && kind !in todo && KindError(kind, entries[kind], optional, e)
      decreases |todo|
    {
      var kind :| kind in todo;
      var found := ValidateKind(kind, entries[kind], optional);
      todo := todo - {kind};
      errors := errors + found;
    }
  }

  // ----- Valid policies, kind by kind and field by field -----

  predicate KindOk(kind: Kind, entry: Entry, optional: bool) {
    && !kind.Unknown? && entry.Policy?
    && DeadlineOk(entry.policy.deadline) && DurationOk(entry.policy.duration)
    && (kind == Human ==> !optional && entry.policy == Default(Human))
    && (kind != Human && !optional ==> entry.policy.deadline != Nothing)
  }

  predicate SettingsOk(s: Settings, fields: seq<Field>, optional: bool) {
    && (forall f :: f in fields ==> FieldOk(f, Get(s.values, f)) || (optional && Get(s.values, f) == Nothing))
    && s.kinds.Mapping?
    && forall kind :: kind in s.kinds.entries ==> KindOk(kind, s.kinds.entries[kind], optional)
  }

  lemma KindOkIffNoError(kind: Kind, entry: Entry, optional: bool)
    ensures KindOk(kind, entry, optional) <==> forall e :: !KindError(kind, entry, optional, e)
  {
    if !KindOk(kind, entry, optional) {
      if kind.Unknown? {
        assert KindError(kind, entry, optional, UnknownKind(kind));
      } else if entry.NotAPolicy? {
        assert KindError(kind, entry, optional, KindNotPolicy(kind));
      } else if kind == Human && (optional || entry.policy != Default(Human)) {
        assert KindError(kind, entry, optional, HumanHasPolicy);
      } else {
        assert || KindError(kind, entry, optional, BadDeadline(kind))
               || KindError(kind, entry, optional, BadDuration(kind))
               || KindError(kind, entry, optional, NoDeadline(kind));
      }
    }
  }

  /** Settings are without errors exactly when each field and each kind is as it should be. */
  lemma SettingsOkIffNoError(s: Settings, fields: seq<Field>, optional: bool)
    ensures SettingsOk(s, fields, optional) <==> forall e :: !IsSettingsError(s, fields, optional, e)
  {
    hide FieldOk, KindOk, KindError;
    if forall e :: !IsSettingsError(s, fields, optional, e) {
      assert !IsSettingsError(s, fields, optional, KindsNotMapping);
      forall f | f in fields ensures FieldOk(f, Get(s.values, f)) || (optional && Get(s.values, f) == Nothing) {
        assert !IsSettingsError(s, fields, optional, BadField(f));
      }
      forall kind | kind in s.kinds.entries ensures KindOk(kind, s.kinds.entries[kind], optional) {
        forall e ensures !KindError(kind, s.kinds.entries[kind], optional, e) {
          assert !IsSettingsError(s, fields, optional, e);
        }
        KindOkIffNoError(kind, s.kinds.entries[kind], optional);
      }
    }
    if SettingsOk(s, fields, optional) {
      forall e, kind | kind in s.kinds.entries ensures !KindError(kind, s.kinds.entries[kind], optional, e) {
        KindOkIffNoError(kind, s.kinds.entries[kind], optional);
      }
      KindErrorsAreOfKinds(s, optional);
    }
  }

  predicate IsIntFrom(v: Value, least: int) {
    v.Int? && v.i >= least
  }

  predicate IsIntWithin(v: Value, least: int, most: int) {
    v.Int? && least <= v.i <= most
  }

  /** Field by field what is in range; True and False are no numbers here, and a margin or cost may be
      given in either number type. */
  lemma AcceptedFields(f: Field, v: Value)
    ensures FieldOk(f, v) <==>
      match f
      case V2Enabled => v.Bool?
      case HibernationEnabled => v.Bool?
      case SchedulerWaitsEnabled => v.Bool?
      case HibernateMargin => IsIntFrom(v, 1) || (v.Float? && v.x >= 1.0)
      case ResumeCostMinutes => IsIntFrom(v, 1) || (v.Float? && v.x > 0.0)
      case InPlaceCeilingSeconds => IsIntWithin(v, 60, 86400)
      case LoopWindowSeconds => IsIntWithin(v, 60, 86400)
      case BranchAdmissionDeadlineSeconds => IsIntWithin(v, 60, 86400)
      case TransitionBudgetSeconds => IsIntWithin(v, 1, 86400)
      case ResumeStallSeconds => IsIntWithin(v, 1, 86400)
      case MinSamples => IsIntFrom(v, 1)
      case LoopWindowRegistrations => IsIntFrom(v, 1)
      case ResumeLaunchAttempts => IsIntFrom(v, 1)
      case ListenerLagEvents => IsIntFrom(v, 1)
      case ListenerLagAlertMinutes => IsIntFrom(v, 1)
  {
  }

  const DEFAULT_VALUES: map<Field, Value> := map[
    V2Enabled := Bool(true), HibernationEnabled := Bool(true), SchedulerWaitsEnabled := Bool(true),
    InPlaceCeilingSeconds := Int(1800), HibernateMargin := Float(2.0), ResumeCostMinutes := Float(10.0),
    MinSamples := Int(5), LoopWindowRegistrations := Int(3), LoopWindowSeconds := Int(3600),
    BranchAdmissionDeadlineSeconds := Int(1800), TransitionBudgetSeconds := Int(120),
    ResumeLaunchAttempts := Int(2), ResumeStallSeconds := Int(300), ListenerLagEvents := Int(500),
    ListenerLagAlertMinutes := Int(15)]

  const DEFAULT_KINDS: map<Kind, Entry> := map kind | kind in KNOWN :: Policy(Default(kind))

  /** The policy that nobody configured is valid. */
  lemma DefaultsValidate()
    ensures
      Validates(Config(Settings(DEFAULT_VALUES, Mapping(DEFAULT_KINDS)), Text("refuse"), ById(map[]),
                       Metrics(Nothing, Nothing, Nothing, Nothing)))
  {
    hide FieldOk, KindOk, IsSettingsError;
    var values, kinds := DEFAULT_VALUES, DEFAULT_KINDS;
    forall f ensures FieldOk(f, Get(values, f)) {
      DefaultFieldOk(f);
    }
    forall kind | kind in kinds ensures KindOk(kind, kinds[kind], false) {
      DefaultKindOk(kind);
    }
    SettingsOkIffNoError(Settings(values, Mapping(kinds)), FIELDS, false);
  }

  lemma DefaultFieldOk(f: Field)
    ensures FieldOk(f, Get(DEFAULT_VALUES, f))
  {
    match f
    case HibernateMargin =>
    case ResumeCostMinutes =>
    case _ =>
  }

  lemma DefaultKindOk(kind: Kind)
    requires kind in KNOWN
    ensures KindOk(kind, Policy(Default(kind)), false)
  {
  }

  lemma KindErrorsAreOfKinds(s: Settings, optional: bool)
    requires s.kinds.Mapping?
    ensures forall e, kind :: kind in s.kinds.entries && KindError(kind, s.kinds.entries[kind], optional, e) ==>
      !e.BadField?
  {
  }

  /** validate: reports exactly the errors there are. */
  method Validate(c: Config) returns (errors: seq<Error>)
    ensures forall e :: e in errors <==> IsError(c, e)
    ensures errors == [] <==> Validates(c)
  {
    hide IsSettingsError, IsMetricsError, IsBlank;
    var found := ValidateSettings(c.settings, FIELDS, false);
    errors := seq(|found|, i requires 0 <= i < |found| => InSettings(found[i]));
    assert forall e :: e in found ==> exists i :: 0 <= i < |found| && found[i] == e && errors[i] == InSettings(e);
    var metrics := ValidateMetrics(c.metrics);
    errors := errors + metrics;
    if c.v1Bodies != Text("translate") && c.v1Bodies != Text("refuse") {
      errors := errors + [BadBodies];
    }
    if c.projects.NotById? {
      errors := errors + [ProjectsNotMapping];
    } else {
      ghost var before := errors;
      var projects := c.projects.overrides;
      var todo := projects.Keys;
      while todo != {}
        invariant todo <= projects.Keys
        invariant forall e :: e in errors <==>
          e in before || exists id :: id in projects && id !in todo && ProjectError(id, projects[id], e)
        decreases |todo|
      {
        var id :| id in todo;
        var more := ValidateProject(id, projects[id]);
        todo := todo - {id};
        errors := errors + more;
      }
    }
    if |errors| > 0 {
      assert errors[0] in errors;
    }
  }

  /** WaitMetricsConfig.validate */
  method ValidateMetrics(m: Metrics) returns (errors: seq<Error>)
    ensures forall e :: e in errors <==> IsMetricsError(m, e)
  {
    hide RateOk, LabelOk;
    if m.NotMetrics? {
      return [MetricsNotSettings];
    }
    errors := [];
    if !RateOk(m.turnRate) {
      errors := errors + [BadMetric(TurnRate)];
    }
    if !RateOk(m.tokensPerTurn) {
      errors := errors + [BadMetric(TokensPerTurn)];
    }
    if !LabelOk(m.cohort) {
      errors := errors + [BadMetric(Cohort)];
    }
    if !LabelOk(m.window) {
      errors := errors + [BadMetric(Window)];
    }
  }

  method ValidateProject(id: ProjectId, over: Override) returns (errors: seq<Error>)
    ensures forall e :: e in errors <==> ProjectError(id, over, e)
  {
    hide IsSettingsError, IsBlank;
    errors := [];
    if id.NotAString? || IsBlank(id.name) {
      errors := errors + [BadProjectId(id)];
    }
    if !over.Overrides? {
      return errors + [ProjectNotOverrides(id)];
    }
    var found := ValidateSettings(over.settings, OVERRIDE_FIELDS, true);
    var more := seq(|found|, i requires 0 <= i < |found| => InProject(id, found[i]));
    assert forall e :: e in found ==> exists i :: 0 <= i < |found| && found[i] == e && more[i] == InProject(id, e);
    errors := errors + more;
  }

  // ----- Resolving a project -----

  /** The fields a policy and its overrides have as dataclasses */
  ghost predicate HasShape(c: Config) {
    && (forall f: Field :: f in c.settings.values)
    && (c.projects.ById? ==> forall id :: id in c.projects.overrides && c.projects.overrides[id].Overrides? ==>
          forall f :: f in c.projects.overrides[id].settings.values ==> f in OVERRIDE_FIELDS)
  }

  function WithDefaults(entries: map<Kind, Entry>): map<Kind, Entry> {
    (map kind | kind in KNOWN :: Policy(Default(kind))) + entries
  }

  function Chosen(over: Value, value: Value): Value {
    if over == Nothing then value else over
  }

  /** dataclasses.replace with what the override supplies */
  function Replaced(policy: KindPolicy, over: KindPolicy): KindPolicy {
    KindPolicy(Chosen(over.deadline, policy.deadline), Chosen(over.duration, policy.duration))
  }

  predicate CanReplace(entries: map<Kind, Entry>, over: map<Kind, Entry>) {
    forall kind :: kind in over ==> over[kind].Policy? && kind in entries && entries[kind].Policy?
  }

  function Overridden(settings: Settings, over: Settings): Settings
    requires settings.kinds.Mapping? && over.kinds.Mapping? && CanReplace(settings.kinds.entries, over.kinds.entries)
  {
    Settings(
      map f | f in settings.values :: Chosen(Get(over.values, f), settings.values[f]),
      Mapping(map kind | kind in settings.kinds.entries ::
        if kind in over.kinds.entries
        then Policy(Replaced(settings.kinds.entries[kind].policy, over.kinds.entries[kind].policy))
        else settings.kinds.entries[kind]))
  }

  /** The override that applies to a project, if any */
  function OverrideFor(c: Config, id: ProjectId): Override {
    if c.projects.ById? && id in c.projects.overrides then c.projects.overrides[id] else Absent
  }

  /** The effective policy of a project; None where resolving raises. */
  function Resolved(c: Config, id: ProjectId): Option<Config> {
    if c.settings.kinds.NotAMapping? || c.projects.NotById? then None
    else
      var base := Settings(c.settings.values, Mapping(WithDefaults(c.settings.kinds.entries)));
      match OverrideFor(c, id)
      case Absent => Some(c.(settings := base, projects := ById(map[])))
      case NotOverrides => None
      case Overrides(over) =>
        if over.kinds.NotAMapping? || !CanReplace(base.kinds.entries, over.kinds.entries) then None
        else Some(c.(settings := Overridden(base, over), projects := ById(map[])))
  }

  class WaitPolicyConfig {
    var values: map<Field, Value>
    var kinds: Kinds
    var v1Bodies: Value
    var projects: Projects
    var metrics: Metrics

    ghost function Contents(): Config
      reads this
    {
      Config(Settings(values, kinds), v1Bodies, projects, metrics)
    }

    constructor (c: Config)
      ensures Contents() == c
    {
      values, kinds := c.settings.values, c.settings.kinds;
      v1Bodies, projects, metrics := c.v1Bodies, c.projects, c.metrics;
    }

    /** Lays an override's kind policies over this policy's, one kind after the other. */
    method OverrideKinds(over: map<Kind, Entry>) returns (ok: bool)
      requires kinds.Mapping?
      modifies this`kinds
      ensures ok <==> CanReplace(old(kinds).entries, over)
      ensures ok ==> kinds == Overridden(Settings(map[], old(kinds)), Settings(map[], Mapping(over))).kinds
    {
      var todo := over.Keys;
      while todo != {}
        invariant todo <= over.Keys && kinds.Mapping? && kinds.entries.Keys == old(kinds).entries.Keys
        invariant forall kind :: kind in over && kind !in todo ==>
          && over[kind].Policy? && kind in kinds.entries && old(kinds).entries[kind].Policy?
          && kinds.entries[kind] == Policy(Replaced(old(kinds).entries[kind].policy, over[kind].policy))
        invariant forall kind :: kind in kinds.entries && (kind !in over || kind in todo) ==>
          kinds.entries[kind] == old(kinds).entries[kind]
        decreases |todo|
      {
        var kind :| kind in todo;
        if !over[kind].Policy? || kind !in kinds.entries || !kinds.entries[kind].Policy? {
          return false;
        }
        todo := todo - {kind};
        kinds := Mapping(kinds.entries[kind := Policy(Replaced(kinds.entries[kind].policy, over[kind].policy))]);
      }
      assert kinds.entries == Overridden(Settings(map[], old(kinds)), Settings(map[], Mapping(over))).kinds.entries;
      return true;
    }

    /** Sets the plain fields that an override supplies. */
    method OverrideValues(over: map<Field, Value>)
      requires forall f :: f in over ==> f in OVERRIDE_FIELDS
      requires forall f: Field :: f in values
      modifies this`values
      ensures values == map f | f in old(values) :: Chosen(Get(over, f), old(values)[f])
    {
      var fields := OVERRIDE_FIELDS;
      for i := 0 to |fields|
        invariant forall f: Field :: f in values
        invariant forall f: Field ::
          values[f] == if f in fields[..i] then Chosen(Get(over, f), old(values)[f]) else old(values)[f]
      {
        var value := Get(over, fields[i]);
        assert fields[..i + 1] == fields[..i] + [fields[i]];
        if value != Nothing {
          values := values[fields[i] := value];
        }
      }
      assert fields[..|fields|] == fields;
    }

    /** resolve_project: a new object, this one stays as it is. */
    method ResolveProject(id: ProjectId) returns (resolved: Option<WaitPolicyConfig>)
      requires HasShape(Contents())
      ensures resolved.Some? <==> Resolved(Contents(), id).Some?
      ensures resolved.Some? ==>
        fresh(resolved.value) && Resolved(Contents(), id) == Some(resolved.value.Contents())
    {
      if kinds.NotAMapping? || projects.NotById? {
        return None;
      }
      var copy := new WaitPolicyConfig(Config(Settings(values, kinds), v1Bodies, ById(map[]), metrics));
      copy.kinds := Mapping(WithDefaults(kinds.entries));
      if id !in projects.overrides || projects.overrides[id].Absent? {
        return Some(copy);
      }
      var over := projects.overrides[id];
      if over.NotOverrides? || over.settings.kinds.NotAMapping? {
        return None;
      }
      copy.OverrideValues(over.settings.values);
      var ok := copy.OverrideKinds(over.settings.kinds.entries);
      return if ok then Some(copy) else None;
    }
  }

  // ----- What resolving keeps -----

  /** What a valid policy needs beyond its projects */
  ghost predicate GlobalOk(c: Config) {
    && SettingsOk(c.settings, FIELDS, false) && MetricsOk(c.metrics)
    && (c.v1Bodies == Text("translate") || c.v1Bodies == Text("refuse"))
  }

  lemma ValidatesMeans(c: Config)
    requires Validates(c)
    ensures GlobalOk(c) && c.projects.ById?
    ensures forall id :: id in c.projects.overrides ==>
      c.projects.overrides[id].Overrides? && SettingsOk(c.projects.overrides[id].settings, OVERRIDE_FIELDS, true)
  {
    hide IsSettingsError, SettingsOk, IsBlank, RateOk, LabelOk;
    forall e ensures !IsSettingsError(c.settings, FIELDS, false, e) {
      assert !IsError(c, InSettings(e));
    }
    SettingsOkIffNoError(c.settings, FIELDS, false);
    assert !IsError(c, MetricsNotSettings) && !IsError(c, BadMetric(TurnRate)) && !IsError(c, BadMetric(TokensPerTurn));
    assert !IsError(c, BadMetric(Cohort)) && !IsError(c, BadMetric(Window));
    assert !IsError(c, BadBodies) && !IsError(c, ProjectsNotMapping);
    forall id | id in c.projects.overrides
      ensures c.projects.overrides[id].Overrides?
      ensures SettingsOk(c.projects.overrides[id].settings, OVERRIDE_FIELDS, true)
    {
      assert !IsError(c, ProjectNotOverrides(id));
      var over := c.projects.overrides[id];
      forall e ensures !IsSettingsError(over.settings, OVERRIDE_FIELDS, true, e) {
        assert !IsError(c, InProject(id, e));
      }
      SettingsOkIffNoError(over.settings, OVERRIDE_FIELDS, true);
    }
  }

  lemma GlobalOkValidates(c: Config)
    requires GlobalOk(c) && c.projects == ById(map[])
    ensures Validates(c)
  {
    hide IsSettingsError, SettingsOk;
    SettingsOkIffNoError(c.settings, FIELDS, false);
  }

  lemma EveryKnownKind()
    ensures forall kind: Kind :: kind in KNOWN <==> !kind.Unknown?
  {
  }

  /** The defaults themselves are valid, and only human has no deadline. */
  lemma DefaultsAreOk(kind: Kind)
    requires !kind.Unknown?
    ensures KindOk(kind, Policy(Default(kind)), false)
  {
  }

  /** Laying one valid kind policy over another gives a valid one. */
  lemma ReplacedIsOk(kind: Kind, entry: Entry, over: Entry)
    requires KindOk(kind, entry, false) && KindOk(kind, over, true)
    ensures KindOk(kind, Policy(Replaced(entry.policy, over.policy)), false)
  {
  }

  lemma WithDefaultsIsOk(s: Settings)
    requires SettingsOk(s, FIELDS, false)
    ensures SettingsOk(Settings(s.values, Mapping(WithDefaults(s.kinds.entries))), FIELDS, false)
    ensures WithDefaults(s.kinds.entries).Keys == KNOWN
  {
    hide KindOk, FieldOk;
    var entries := WithDefaults(s.kinds.entries);
    EveryKnownKind();
    forall kind | kind in entries ensures KindOk(kind, entries[kind], false) && kind in KNOWN {
      if kind in s.kinds.entries {
        KnownIfOk(kind, entries[kind], false);
      } else {
        DefaultsAreOk(kind);
      }
    }
  }

  lemma KnownIfOk(kind: Kind, entry: Entry, optional: bool)
    requires KindOk(kind, entry, optional)
    ensures kind in KNOWN && entry.Policy?
  {
  }

  lemma OverriddenIsOk(s: Settings, over: Settings)
    requires SettingsOk(s, FIELDS, false) && s.kinds.entries.Keys == KNOWN
    requires SettingsOk(over, OVERRIDE_FIELDS, true) && forall f :: f in over.values ==> f in OVERRIDE_FIELDS
    requires forall f: Field :: f in s.values
    ensures CanReplace(s.kinds.entries, over.kinds.entries)
    ensures SettingsOk(Overridden(s, over), FIELDS, false)
    ensures Overridden(s, over).kinds.Mapping? && Overridden(s, over).kinds.entries.Keys == KNOWN
    ensures forall f: Field :: f in Overridden(s, over).values
  {
    hide KindOk, FieldOk;
    forall kind | kind in over.kinds.entries
      ensures over.kinds.entries[kind].Policy? && kind in s.kinds.entries && s.kinds.entries[kind].Policy?
    {
      KnownIfOk(kind, over.kinds.entries[kind], true);
      KnownIfOk(kind, s.kinds.entries[kind], false);
    }
    var r := Overridden(s, over);
    forall kind | kind in r.kinds.entries ensures KindOk(kind, r.kinds.entries[kind], false) {
      if kind in over.kinds.entries {
        ReplacedIsOk(kind, s.kinds.entries[kind], over.kinds.entries[kind]);
      }
    }
    forall f | f in FIELDS ensures FieldOk(f, Get(r.values, f)) {
      assert Get(r.values, f) == Chosen(Get(over.values, f), s.values[f]);
    }
  }

  /** A valid policy resolves for every project, to a policy that is valid again, has no projects of
      its own and covers exactly the known kinds. */
  lemma ResolvedValidates(c: Config, id: ProjectId)
    requires HasShape(c) && Validates(c)
    ensures Resolved(c, id).Some?
    ensures
      var r := Resolved(c, id).value;
      && Validates(r) && HasShape(r) && r.projects == ById(map[])
      && r.settings.kinds.Mapping? && r.settings.kinds.entries.Keys == KNOWN
  {
    hide SettingsOk, MetricsOk, WithDefaults, Overridden, CanReplace;
    ValidatesMeans(c);
    KindsMapping(c.settings, FIELDS, false);
    WithDefaultsIsOk(c.settings);
    var base := Settings(c.settings.values, Mapping(WithDefaults(c.settings.kinds.entries)));
    if OverrideFor(c, id).Overrides? {
      KindsMapping(OverrideFor(c, id).settings, OVERRIDE_FIELDS, true);
      OverriddenIsOk(base, OverrideFor(c, id).settings);
    }
    GlobalOkValidates(Resolved(c, id).value);
  }

  lemma KindsMapping(s: Settings, fields: seq<Field>, optional: bool)
    requires SettingsOk(s, fields, optional)
    ensures s.kinds.Mapping?
  {
  }

  /** In a valid policy that covers all kinds, all but human have a deadline between a minute and a day. */
  lemma EveryKindHasDeadline(c: Config, id: ProjectId, kind: Kind)
    requires HasShape(c) && Validates(c) && !kind.Unknown?
    ensures Resolved(c, id).Some? && kind in Resolved(c, id).value.settings.kinds.entries
    ensures
      var entry := Resolved(c, id).value.settings.kinds.entries[kind];
      && entry.Policy?
      && (kind == Human ==> entry.policy == KindPolicy(Nothing, Nothing))
      && (kind != Human ==> entry.policy.deadline.Int? && 60 <= entry.policy.deadline.i <= 86400)
  {
    ResolvedValidates(c, id);
    EveryKnownKind();
    ValidatesMeans(Resolved(c, id).value);
  }

  /** What a project's policy says about one kind before anything is inherited */
  function KindIn(s: Settings, kind: Kind): KindPolicy {
    if s.kinds.Mapping? && kind in s.kinds.entries && s.kinds.entries[kind].Policy? then s.kinds.entries[kind].policy
    else KindPolicy(Nothing, Nothing)
  }

  function SettingsFor(c: Config, id: ProjectId): Settings {
    if OverrideFor(c, id).Overrides? then OverrideFor(c, id).settings else Settings(map[], Mapping(map[]))
  }

  lemma ResolvedParts(c: Config, id: ProjectId)
    requires HasShape(c) && Validates(c) && Resolved(c, id).Some?
    ensures c.settings.kinds.Mapping? && SettingsFor(c, id).kinds.Mapping?
    ensures
      var base := Settings(c.settings.values, Mapping(WithDefaults(c.settings.kinds.entries)));
      var over := OverrideFor(c, id);
      var r := Resolved(c, id).value;
      && r.v1Bodies == c.v1Bodies && r.metrics == c.metrics
      && (if over.Overrides?
          then over.settings.kinds.Mapping? && CanReplace(base.kinds.entries, over.settings.kinds.entries)
               && r.settings == Overridden(base, over.settings)
          else r.settings == base)
  {
    hide WithDefaults, Overridden, CanReplace, SettingsOk;
    ValidatesMeans(c);
    KindsMapping(c.settings, FIELDS, false);
  }

  /** Each effective value is the project's where it supplies one, else the global one. */
  lemma ProjectThenGlobal(c: Config, id: ProjectId, f: Field)
    requires HasShape(c) && Validates(c)
    ensures Resolved(c, id).Some?
    ensures
      var r, over := Resolved(c, id).value, SettingsFor(c, id);
      && f in r.settings.values
      && r.settings.values[f] == (if Get(over.values, f) != Nothing then Get(over.values, f) else c.settings.values[f])
      && r.v1Bodies == c.v1Bodies && r.metrics == c.metrics
  {
    hide Validates, WithDefaults;
    ResolvedValidates(c, id);
    ResolvedParts(c, id);
  }

  /** For a kind too; one that the global policy does not list starts from its default. */
  lemma ProjectThenGlobalThenDefault(c: Config, id: ProjectId, kind: Kind)
    requires HasShape(c) && Validates(c) && !kind.Unknown?
    ensures Resolved(c, id).Some? && c.settings.kinds.Mapping?
    ensures
      var r, over := Resolved(c, id).value, KindIn(SettingsFor(c, id), kind);
      var global := if kind in c.settings.kinds.entries then KindIn(c.settings, kind) else Default(kind);
      KindIn(r.settings, kind) == KindPolicy(
        if over.deadline != Nothing then over.deadline else global.deadline,
        if over.duration != Nothing then over.duration else global.duration)
  {
    hide Validates, Default, SettingsOk, WithDefaults, Overridden, CanReplace;
    ResolvedValidates(c, id);
    ResolvedParts(c, id);
    ValidatesMeans(c);
    GlobalKindsArePolicies(c.settings);
    var base := Settings(c.settings.values, Mapping(WithDefaults(c.settings.kinds.entries)));
    DefaultedKind(c.settings, kind);
    if OverrideFor(c, id).Overrides? {
      OverriddenKind(base, OverrideFor(c, id).settings, kind);
    }
  }

  lemma DefaultedKind(s: Settings, kind: Kind)
    requires s.kinds.Mapping? && !kind.Unknown?
    requires forall k :: k in s.kinds.entries ==> s.kinds.entries[k].Policy?
    ensures kind in WithDefaults(s.kinds.entries)
    ensures WithDefaults(s.kinds.entries)[kind]
         == Policy(if kind in s.kinds.entries then KindIn(s, kind) else Default(kind))
  {
    EveryKnownKind();
  }

  lemma OverriddenKind(s: Settings, over: Settings, kind: Kind)
    requires s.kinds.Mapping? && over.kinds.Mapping? && CanReplace(s.kinds.entries, over.kinds.entries)
    requires kind in s.kinds.entries && s.kinds.entries[kind].Policy?
    ensures KindIn(Overridden(s, over), kind) == Replaced(KindIn(s, kind), KindIn(over, kind))
  {
  }

  lemma GlobalKindsArePolicies(s: Settings)
    requires SettingsOk(s, FIELDS, false)
    ensures s.kinds.Mapping? && forall kind :: kind in s.kinds.entries ==> s.kinds.entries[kind].Policy?
  {
  }

  /** Resolving what was resolved, for any project, changes nothing. */
  lemma ResolvingAgain(c: Config, id: ProjectId, again: ProjectId)
    requires HasShape(c) && Validates(c)
    ensures Resolved(c, id).Some? && Resolved(Resolved(c, id).value, again) == Resolved(c, id)
  {
    ResolvedValidates(c, id);
    var r := Resolved(c, id).value;
    assert WithDefaults(r.settings.kinds.entries) == r.settings.kinds.entries;
  }
}
