/**
 Recurrence arithmetic for agent cron: an interval in closed form, and a MINUTE HOUR pattern
 scanned minute by minute.  Instants are reals (seconds), and a time zone is a function from an
 instant to its offset from UTC in whole seconds.  Cron fields are the already split words.
 */
module AgentCron {
  import opened Options

  const MAX_COUNT_MINUTES := 7 * 24 * 60
  const SCAN_MINUTES := 60 * 48
  const DAY := 24 * 60

  type Zone = real -> int

  /** A numeric argument as Python delivers it; True and False are numbers there too. */
  datatype Number = Finite(value: real) | NotFinite | Boolean(b: bool)

  datatype Spec = Interval(every: real, offset: real) | Cron(minute: string, hour: string)

  // ----- The accepted language -----

  predicate IsDigits(s: string) {
    1 <= |s| <= 2 && forall i :: 0 <= i < |s| ==> '0' <= s[i] <= '9'
  }

  function Decimal(s: string): (n: nat)
    requires IsDigits(s)
    ensures n <= 99
  {
    var d0 := s[0] as int - '0' as int;
    if |s| == 1 then d0 else 10 * d0 + (s[1] as int - '0' as int)
  }

  predicate IsStep(s: string) {
    |s| > 2 && s[0] == '*' && s[1] == '/'
  }

  predicate ValidMinute(s: string) {
    || s == "*"
    || (IsDigits(s) && Decimal(s) <= 59)
    || (IsStep(s) && IsDigits(s[2..]) && 1 <= Decimal(s[2..]) <= 59)
  }

  predicate ValidHour(s: string) {
    s == "*" || (IsDigits(s) && Decimal(s) <= 23)
  }

  predicate Valid(spec: Spec) {
    match spec
    case Interval(every, offset) => 60.0 <= every <= 604800.0 && 0.0 <= offset < every
    case Cron(minute, hour) => ValidMinute(minute) && ValidHour(hour)
  }

  /** None is CronError("cron.invalid"). */
  function Recurrence(
    every: Option<Number>, offset: Number, cron: Option<seq<string>>, zoneKnown: bool): Option<Spec>
  {
    if !zoneKnown then None
    else if every.None? == cron.None? then None
    else if every.Some? then
      if !every.value.Finite? || !(60.0 <= every.value.value <= 604800.0)
         || !offset.Finite? || !(0.0 <= offset.value < every.value.value) then None
      else Some(Interval(every.value.value, offset.value))
    else if offset != Finite(0.0) && offset != Boolean(false) then None
    else
      var fields := cron.value;
      if |fields| != 5 || fields[2..] != ["*", "*", "*"] then None
      else if !ValidMinute(fields[0]) || !ValidHour(fields[1]) then None
      else Some(Cron(fields[0], fields[1]))
  }

  /** The arguments that ask for the recurrence, and for nothing else */
  predicate Spells(every: Option<Number>, offset: Number, cron: Option<seq<string>>, spec: Spec) {
    match spec
    case Interval(e, o) => every == Some(Finite(e)) && offset == Finite(o) && cron.None?
    case Cron(minute, hour) =>
      && every.None? && (offset == Finite(0.0) || offset == Boolean(false))
      && cron == Some([minute, hour, "*", "*", "*"])
  }

  /** A recurrence is accepted exactly when its arguments spell it, it is valid and the zone is known. */
  lemma RecurrenceAcceptsValid(
    every: Option<Number>, offset: Number, cron: Option<seq<string>>, zoneKnown: bool, spec: Spec)
    ensures Recurrence(every, offset, cron, zoneKnown) == Some(spec) <==>
      zoneKnown && Valid(spec) && Spells(every, offset, cron, spec)
  {
    if cron.Some? && |cron.value| == 5 {
      assert cron.value == cron.value[..2] + cron.value[2..];
      assert cron.value[2..] == ["*", "*", "*"] ==> cron.value == [cron.value[0], cron.value[1], "*", "*", "*"];
    }
  }

  // ----- Local time -----

  /** Minutes of local wall-clock time since the epoch */
  function LocalMinute(zone: Zone, t: real): int {
    ((t + zone(t) as real) / 60.0).Floor
  }

  predicate MatchesCron(local: int, minute: string, hour: string)
    requires ValidMinute(minute) && ValidHour(hour)
  {
    var minuteMatches :=
      || minute == "*"
      || (if IsStep(minute) then local % 60 % Decimal(minute[2..]) == 0 else local % 60 == Decimal(minute));
    minuteMatches && (hour == "*" || local / 60 % 24 == Decimal(hour))
  }

  function Instant(k: int): real {
    (60 * k) as real
  }

  /** The minute that starts at instant 60 k fires. */
  predicate Hit(spec: Spec, zone: Zone, k: int)
    requires Valid(spec) && spec.Cron?
  {
    MatchesCron(LocalMinute(zone, Instant(k)), spec.minute, spec.hour)
  }

  ghost predicate IsTick(spec: Spec, zone: Zone, t: real)
    requires Valid(spec)
  {
    match spec
    case Interval(every, offset) => exists n: int :: t == IntervalTick(spec, n)
    case Cron(_, _) => exists k: int :: t == Instant(k) && Hit(spec, zone, k)
  }

  function IntervalTick(spec: Spec, n: int): real
    requires spec.Interval?
  {
    n as real * spec.every + spec.offset
  }

  // ----- The next tick -----

  /** The minutes that fire */
  ghost function Hits(spec: Spec, zone: Zone): iset<int>
    requires Valid(spec) && spec.Cron?
  {
    iset k: int | Hit(spec, zone, k)
  }

  /** The first hit in the minutes from k up to end */
  ghost function FirstHit(hits: iset<int>, k: int, end: int): (r: Option<int>)
    ensures r.Some? ==> k <= r.value < end && r.value in hits
    ensures forall i :: k <= i < (if r.Some? then r.value else end) ==> i !in hits
    decreases end - k
  {
    if end <= k then None
    else if k in hits then Some(k)
    else FirstHit(hits, k + 1, end)
  }

  /** The first hit in the 48 hours from k on */
  ghost function NextHit(hits: iset<int>, k: int): Option<int> {
    FirstHit(hits, k, k + SCAN_MINUTES)
  }

  lemma FirstHitIs(hits: iset<int>, k: int, m: int, end: int)
    requires k <= m < end && m in hits && forall i :: k <= i < m ==> i !in hits
    ensures FirstHit(hits, k, end) == Some(m)
  {
    var r := FirstHit(hits, k, end);
    assert r.Some? && !(r.value < m) && !(m < r.value);
  }

  ghost function NextFire(spec: Spec, zone: Zone, after: real): Option<real>
    requires Valid(spec)
  {
    match spec
    case Interval(every, offset) => Some(IntervalTick(spec, ((after - offset) / every).Floor + 1))
    case Cron(_, _) =>
      InstantOf(NextHit(Hits(spec, zone), (after / 60.0).Floor + 1))
  }

  function InstantOf(minute: Option<int>): Option<real> {
    if minute.Some? then Some(Instant(minute.value)) else None
  }

  /** next_fire; None is the CronError raised when 48 hours hold no tick. */
  method ComputeNextFire(spec: Spec, zone: Zone, after: real) returns (fire: Option<real>)
    requires Valid(spec)
    ensures fire == NextFire(spec, zone, after)
  {
    if spec.Interval? {
      var n := ((after - spec.offset) / spec.every).Floor + 1;
      return Some(IntervalTick(spec, n));
    }
    fire := ScanForTick(spec, zone, (after / 60.0).Floor + 1);
  }

  method ScanForTick(spec: Spec, zone: Zone, k: int) returns (fire: Option<real>)
    requires Valid(spec) && spec.Cron?
    ensures fire == InstantOf(NextHit(Hits(spec, zone), k))
  {
    var candidate := k as real * 60.0;
    for i := 0 to SCAN_MINUTES
      invariant candidate == Instant(k + i)
      invariant forall j :: k <= j < k + i ==> !Hit(spec, zone, j)
    {
      if MatchesCron(LocalMinute(zone, candidate), spec.minute, spec.hour) {
        FirstHitIs(Hits(spec, zone), k, k + i, k + SCAN_MINUTES);
        return Some(candidate);
      }
      candidate := candidate + 60.0;
    }
    return None;
  }

  lemma StrictScale(a: real, b: real, y: real)
    requires y > 0.0
    ensures a < b <==> a * y < b * y
  {
    if a < b {
      assert (b - a) * y > 0.0;
    } else {
      assert (a - b) * y >= 0.0;
    }
  }

  /** x / y rounds down to n exactly when x lies in the n-th step of width y. */
  lemma FloorIs(x: real, y: real, n: int)
    requires y > 0.0
    ensures (x / y).Floor == n <==> n as real * y <= x < (n + 1) as real * y
  {
    var q := x / y;
    assert q * y == x;
    FloorBounds(q, n);
    ScaledBounds(q, n as real, (n + 1) as real, x, y);
  }

  lemma ScaledBounds(q: real, low: real, high: real, x: real, y: real)
    requires y > 0.0 && q * y == x
    ensures low <= q < high <==> low * y <= x < high * y
  {
    StrictScale(q, low, y);
    StrictScale(q, high, y);
  }

  lemma FloorBounds(q: real, n: int)
    ensures q.Floor == n <==> n as real <= q < (n + 1) as real
  {
  }

  /** The earliest tick strictly after the given instant, for both kinds of recurrence */
  lemma NextFireIsEarliest(spec: Spec, zone: Zone, after: real)
    requires Valid(spec) && NextFire(spec, zone, after).Some?
    ensures
      var fire := NextFire(spec, zone, after).value;
      && after < fire && IsTick(spec, zone, fire)
      && forall t :: after < t < fire ==> !IsTick(spec, zone, t)
  {
    if spec.Interval? {
      NextIntervalIsEarliest(spec, zone, after);
    } else {
      NextHitIsEarliest(spec, zone, after);
    }
  }

  lemma NextIntervalIsEarliest(spec: Spec, zone: Zone, after: real)
    requires Valid(spec) && spec.Interval?
    ensures
      var fire := NextFire(spec, zone, after).value;
      && after < fire && IsTick(spec, zone, fire)
      && forall t :: after < t < fire ==> !IsTick(spec, zone, t)
  {
    var n := ((after - spec.offset) / spec.every).Floor;
    FloorIs(after - spec.offset, spec.every, n);
    forall m: int ensures !(after < IntervalTick(spec, m) < IntervalTick(spec, n + 1)) {
      NoTickBetween(spec, m, n);
    }
  }

  lemma NoTickBetween(spec: Spec, m: int, n: int)
    requires spec.Interval? && spec.every > 0.0
    ensures !(IntervalTick(spec, n) < IntervalTick(spec, m) < IntervalTick(spec, n + 1))
  {
    if n < m {
      TicksAscend(spec, n + 1, m);
    } else {
      TicksAscend(spec, m, n);
    }
  }

  lemma TicksAscend(spec: Spec, m: int, n: int)
    requires spec.Interval? && spec.every > 0.0 && m <= n
    ensures IntervalTick(spec, m) <= IntervalTick(spec, n)
  {
    assert (n - m) as real * spec.every >= 0.0;
    assert n as real == m as real + (n - m) as real;
  }

  lemma NextHitIsEarliest(spec: Spec, zone: Zone, after: real)
    requires Valid(spec) && spec.Cron? && NextFire(spec, zone, after).Some?
    ensures
      var fire := NextFire(spec, zone, after).value;
      && after < fire && IsTick(spec, zone, fire)
      && forall t :: after < t < fire ==> !IsTick(spec, zone, t)
  {
    var k := (after / 60.0).Floor;
    var hit := NextHit(Hits(spec, zone), k + 1).value;
    assert hit in Hits(spec, zone);
    assert after < Instant(k + 1) <= Instant(hit);
    forall m: int | after < Instant(m) < Instant(hit) ensures m !in Hits(spec, zone) {
      assert k < m;
    }
  }

  // ----- The scan always finds a tick -----

  /** Over the n minutes from k on, the offset changes at most once, at cut. */
  predicate ChangesAt(zone: Zone, k: int, n: nat, cut: int) {
    && k <= cut <= k + n
    && (forall i, j :: k <= i < cut && k <= j < cut ==> zone(Instant(i)) == zone(Instant(j)))
    && (forall i, j :: cut <= i < k + n && cut <= j < k + n ==> zone(Instant(i)) == zone(Instant(j)))
  }

  ghost predicate AtMostOneChange(zone: Zone, k: int, n: nat) {
    exists cut :: ChangesAt(zone, k, n, cut)
  }

  lemma FloorOfWholeSeconds(n: int)
    ensures (n as real / 60.0).Floor == n / 60
  {
    var q := n / 60;
    assert 60 * q <= n < 60 * q + 60;
    assert q as real <= n as real / 60.0 < q as real + 1.0;
  }

  /** At the start of a UTC minute, local time is that minute shifted by whole minutes. */
  lemma LocalMinuteOfInstant(zone: Zone, k: int)
    ensures LocalMinute(zone, Instant(k)) == k + zone(Instant(k)) / 60
  {
    var off := zone(Instant(k));
    FloorOfWholeSeconds(60 * k + off);
    assert (60 * k + off) / 60 == k + off / 60;
  }

  function MinuteTarget(minute: string): (m: int)
    requires ValidMinute(minute)
    ensures 0 <= m < 60
  {
    if minute == "*" || IsStep(minute) then 0 else Decimal(minute)
  }

  function HourTarget(hour: string): (h: int)
    requires ValidHour(hour)
    ensures 0 <= h < 24
  {
    if hour == "*" then 0 else Decimal(hour)
  }

  /** Every accepted pattern matches once a day, at its target time. */
  lemma TargetMatches(local: int, minute: string, hour: string)
    requires ValidMinute(minute) && ValidHour(hour)
    requires local % DAY == 60 * HourTarget(hour) + MinuteTarget(minute)
    ensures MatchesCron(local, minute, hour)
  {
    ClockOf(local, HourTarget(hour), MinuteTarget(minute));
    if IsStep(minute) {
      assert 0 % Decimal(minute[2..]) == 0;
    }
  }

  lemma ClockOf(local: int, h: int, m: int)
    requires 0 <= h < 24 && 0 <= m < 60 && local % DAY == 60 * h + m
    ensures local % 60 == m && local / 60 % 24 == h
  {
    var days := local / DAY;
    assert local == DAY * days + 60 * h + m;
    assert local / 60 == 24 * days + h;
    assert local % 60 == m;
    assert (24 * days + h) % 24 == h;
  }

  lemma ModReaches(a: int, target: int)
    requires 0 <= target < DAY
    ensures (a + (target - a) % DAY) % DAY == target
  {
    var q := (target - a) / DAY;
    assert a + (target - a) % DAY == target - DAY * q;
  }

  /** A day without an offset change contains the target time. */
  lemma QuietDayHits(spec: Spec, zone: Zone, k: int)
    requires Valid(spec) && spec.Cron?
    requires forall i :: k <= i < k + DAY ==> zone(Instant(i)) == zone(Instant(k))
    ensures exists i :: k <= i < k + DAY && Hit(spec, zone, i)
  {
    var shift := zone(Instant(k)) / 60;
    var target := 60 * HourTarget(spec.hour) + MinuteTarget(spec.minute);
    var wait := (target - (k + shift)) % DAY;
    ModReaches(k + shift, target);
    LocalMinuteOfInstant(zone, k + wait);
    TargetMatches(k + wait + shift, spec.minute, spec.hour);
    assert Hit(spec, zone, k + wait);
  }

  /** Two days with at most one offset change contain a quiet day, so the scan never runs out. */
  lemma ScanFindsTick(spec: Spec, zone: Zone, k: int)
    requires Valid(spec) && spec.Cron? && AtMostOneChange(zone, k, SCAN_MINUTES)
    ensures NextHit(Hits(spec, zone), k).Some?
  {
    var cut :| ChangesAt(zone, k, SCAN_MINUTES, cut);
    var day := if k + DAY <= cut then k else cut;
    QuietDayHits(spec, zone, day);
    var i :| day <= i < day + DAY && Hit(spec, zone, i);
    assert i in Hits(spec, zone);
  }

  lemma NextFireNeverRaises(spec: Spec, zone: Zone, after: real)
    requires Valid(spec)
    requires spec.Cron? ==> AtMostOneChange(zone, (after / 60.0).Floor + 1, SCAN_MINUTES)
    ensures NextFire(spec, zone, after).Some?
  {
    if spec.Cron? {
      ScanFindsTick(spec, zone, (after / 60.0).Floor + 1);
    }
  }

  /** Local time passes the target minute of the day within the 48 hours from k on. */
  ghost predicate PassesTime(zone: Zone, k: int, target: int) {
    exists i :: k <= i < k + SCAN_MINUTES && (i + zone(Instant(i)) / 60) % DAY == target
  }

  function TwoDigits(n: nat): (s: string)
    requires n <= 99
    ensures IsDigits(s) && Decimal(s) == n
  {
    [('0' as int + n / 10) as char, ('0' as int + n % 10) as char]
  }

  /** Exactly when: the scan serves every accepted pattern if and only if local time passes every
      minute of the day in the scanned 48 hours. */
  lemma ScanServesAllIff(zone: Zone, k: int)
    ensures
      (forall spec :: Valid(spec) && spec.Cron? ==> NextHit(Hits(spec, zone), k).Some?) <==>
      (forall target :: 0 <= target < DAY ==> PassesTime(zone, k, target))
  {
    hide Hits, NextHit;
    forall target | 0 <= target < DAY && !PassesTime(zone, k, target)
      ensures exists spec :: Valid(spec) && spec.Cron? && NextHit(Hits(spec, zone), k).None?
    {
      MissedTimeFails(zone, k, target);
    }
    forall spec | Valid(spec) && spec.Cron? && NextHit(Hits(spec, zone), k).None?
      ensures exists target :: 0 <= target < DAY && !PassesTime(zone, k, target)
    {
      FailureMissesTime(spec, zone, k);
    }
  }

  lemma MissedTimeFails(zone: Zone, k: int, target: int)
    requires 0 <= target < DAY && !PassesTime(zone, k, target)
    ensures
      var spec := Cron(TwoDigits(target % 60), TwoDigits(target / 60));
      Valid(spec) && NextHit(Hits(spec, zone), k).None?
  {
    var spec := Cron(TwoDigits(target % 60), TwoDigits(target / 60));
    var hit := NextHit(Hits(spec, zone), k);
    if hit.Some? {
      FixedHits(spec, zone, hit.value);
    }
  }

  lemma FailureMissesTime(spec: Spec, zone: Zone, k: int)
    requires Valid(spec) && spec.Cron? && NextHit(Hits(spec, zone), k).None?
    ensures
      var target := 60 * HourTarget(spec.hour) + MinuteTarget(spec.minute);
      0 <= target < DAY && !PassesTime(zone, k, target)
  {
    var target := 60 * HourTarget(spec.hour) + MinuteTarget(spec.minute);
    forall i | k <= i < k + SCAN_MINUTES ensures (i + zone(Instant(i)) / 60) % DAY != target {
      assert i !in Hits(spec, zone);
      LocalMinuteOfInstant(zone, i);
      if (i + zone(Instant(i)) / 60) % DAY == target {
        TargetMatches(i + zone(Instant(i)) / 60, spec.minute, spec.hour);
      }
    }
  }

  /** A zone that jumps one minute forward twice, each time over midnight */
  function JumpyZone(t: real): int {
    if t < 86400.0 then 0 else if t < 172740.0 then 60 else 120
  }

  /** One change is the limit: with two the daily midnight schedule can raise. */
  lemma TwoChangesCanRaise()
    ensures Valid(Cron("0", "0")) && NextFire(Cron("0", "0"), JumpyZone, 0.0) == None
  {
    var spec := Cron("0", "0");
    assert Decimal("0") == 0;
    assert (0.0 / 60.0).Floor == 0;
    var hit := NextHit(Hits(spec, JumpyZone), 1);
    if hit.Some? {
      MidnightIsSkipped(hit.value);
    }
  }

  lemma NotMidnight(local: int)
    requires local % DAY != 0
    ensures !(local % 60 == 0 && local / 60 % 24 == 0)
  {
    assert local == 60 * (24 * (local / 60 / 24) + local / 60 % 24) + local % 60;
  }

  lemma MidnightIsSkipped(k: int)
    requires 1 <= k <= SCAN_MINUTES
    ensures ValidMinute("0") && ValidHour("0") && !MatchesCron(LocalMinute(JumpyZone, Instant(k)), "0", "0")
  {
    assert Decimal("0") == 0;
    LocalMinuteOfInstant(JumpyZone, k);
    var local := k + JumpyZone(Instant(k)) / 60;
    assert local == (if k < 1440 then k else if k < 2879 then k + 1 else k + 2);
    NotMidnight(local);
  }

  // ----- What the patterns mean -----

  lemma ClockParts(local: int)
    ensures local % DAY == 60 * (local / 60 % 24) + local % 60
  {
    var days := local / 60 / 24;
    assert local == 60 * (24 * days + local / 60 % 24) + local % 60;
    assert local == DAY * days + (60 * (local / 60 % 24) + local % 60);
  }

  /** A fixed minute and hour match at one time of day. */
  lemma FixedMatchesOnce(local: int, minute: string, hour: string)
    requires IsDigits(minute) && IsDigits(hour) && ValidMinute(minute) && ValidHour(hour)
    ensures MatchesCron(local, minute, hour) <==> local % DAY == 60 * Decimal(hour) + Decimal(minute)
  {
    ClockParts(local);
  }

  lemma SameTimeOfDay(a: int, b: int)
    requires a < b <= a + DAY
    ensures a % DAY == b % DAY <==> b == a + DAY
  {
    var p, q := a / DAY, b / DAY;
    assert b - a == DAY * (q - p) + (b % DAY - a % DAY);
  }

  /** While the offset stands still, a fixed pattern fires exactly every 24 hours. */
  lemma FixedPatternIsDaily(spec: Spec, zone: Zone, k: int)
    requires Valid(spec) && spec.Cron? && IsDigits(spec.minute) && IsDigits(spec.hour) && Hit(spec, zone, k)
    requires forall i :: k <= i <= k + DAY ==> zone(Instant(i)) == zone(Instant(k))
    ensures NextFire(spec, zone, Instant(k)) == Some(Instant(k + DAY))
  {
    var shift := zone(Instant(k)) / 60;
    FixedHits(spec, zone, k);
    forall j | k < j <= k + DAY ensures Hit(spec, zone, j) <==> j == k + DAY {
      FixedHits(spec, zone, j);
      SameTimeOfDay(k + shift, j + shift);
    }
    FirstHitIs(Hits(spec, zone), k + 1, k + DAY, k + 1 + SCAN_MINUTES);
    InstantMinute(k);
    NextFireIsNextHit(spec, zone, Instant(k), k);
  }

  lemma FixedHits(spec: Spec, zone: Zone, k: int)
    requires Valid(spec) && spec.Cron? && IsDigits(spec.minute) && IsDigits(spec.hour)
    ensures Hit(spec, zone, k) <==> (k + zone(Instant(k)) / 60) % DAY == 60 * Decimal(spec.hour) + Decimal(spec.minute)
  {
    LocalMinuteOfInstant(zone, k);
    FixedMatchesOnce(k + zone(Instant(k)) / 60, spec.minute, spec.hour);
  }

  /** Every n minutes means: n minutes later, or at the full hour if that comes first. */
  lemma StepPatternRestartsHourly(spec: Spec, zone: Zone, k: int)
    requires Valid(spec) && spec.Cron? && IsStep(spec.minute) && spec.hour == "*" && Hit(spec, zone, k)
    requires forall i :: k <= i <= k + 60 ==> zone(Instant(i)) == zone(Instant(k))
    ensures
      var n, past := Decimal(spec.minute[2..]), LocalMinute(zone, Instant(k)) % 60;
      NextFire(spec, zone, Instant(k)) == Some(Instant(k + if past + n < 60 then n else 60 - past))
  {
    hide MatchesCron, LocalMinute, Decimal;
    var n, shift := Decimal(spec.minute[2..]), zone(Instant(k)) / 60;
    StepHits(spec, zone, k);
    var past := (k + shift) % 60;
    var wait := if past + n < 60 then n else 60 - past;
    forall j | k < j <= k + wait ensures Hit(spec, zone, j) <==> j == k + wait {
      StepHits(spec, zone, j);
      StepMatches(k + shift, j - k, n);
    }
    FirstHitIs(Hits(spec, zone), k + 1, k + wait, k + 1 + SCAN_MINUTES);
    InstantMinute(k);
    NextFireIsNextHit(spec, zone, Instant(k), k);
  }

  lemma StepHits(spec: Spec, zone: Zone, k: int)
    requires Valid(spec) && spec.Cron? && IsStep(spec.minute) && spec.hour == "*"
    ensures LocalMinute(zone, Instant(k)) == k + zone(Instant(k)) / 60
    ensures Hit(spec, zone, k) <==> (k + zone(Instant(k)) / 60) % 60 % Decimal(spec.minute[2..]) == 0
  {
    LocalMinuteOfInstant(zone, k);
  }

  lemma StepMatches(local: int, i: int, n: int)
    requires 1 <= n <= 59 && local % 60 % n == 0
    requires 0 < i <= if local % 60 + n < 60 then n else 60 - local % 60
    ensures (local + i) % 60 % n == 0 <==> i == if local % 60 + n < 60 then n else 60 - local % 60
  {
    MinuteAfter(local, i);
    if local % 60 + i < 60 {
      NextMultiple(local % 60, i, n);
    }
  }

  lemma MinuteAfter(local: int, i: int)
    requires 0 <= i <= 60 - local % 60
    ensures (local + i) % 60 == if local % 60 + i < 60 then local % 60 + i else 0
  {
    assert local + i == 60 * (local / 60) + (local % 60 + i);
  }

  lemma NextMultiple(past: nat, i: int, n: int)
    requires n > 0 && past % n == 0 && 0 < i <= n
    ensures (past + i) % n == 0 <==> i == n
  {
    var q := past / n;
    assert past == n * q;
    RemainderIs(past + n, q + 1, 0, n);
    if i < n {
      RemainderIs(past + i, q, i, n);
    }
  }

  lemma RemainderIs(x: int, q: int, r: int, n: int)
    requires x == n * q + r && 0 <= r < n
    ensures x % n == r
  {
    var d := x / n - q;
    assert n * d == r - x % n;
    assert d > 0 ==> n * d >= n;
    assert d < 0 ==> n * d <= -n;
  }

  /** The minute field names this minute of an hour. */
  predicate NamesMinute(minute: string, m: int)
    requires ValidMinute(minute)
  {
    if minute == "*" then true
    else if minute[0] == '*' then m % Decimal(minute[2..]) == 0
    else m == Decimal(minute)
  }

  predicate NamesHour(hour: string, h: int)
    requires ValidHour(hour)
  {
    hour != "*" ==> h == Decimal(hour)
  }

  /** A pattern fires at exactly those times of the local day that its two fields name. */
  lemma FiresAtNamedTimes(spec: Spec, zone: Zone, k: int)
    requires Valid(spec) && spec.Cron?
    ensures
      var time := (k + zone(Instant(k)) / 60) % DAY;
      Hit(spec, zone, k) <==> NamesHour(spec.hour, time / 60) && NamesMinute(spec.minute, time % 60)
  {
    var local := k + zone(Instant(k)) / 60;
    LocalMinuteOfInstant(zone, k);
    ClockOf(local, local % DAY / 60, local % DAY % 60);
  }

  /** Kind by kind: every minute, the sixty minutes of an hour, one minute of every hour, a step through
      every hour, a step through one hour, and one time of day. */
  lemma PatternKinds(spec: Spec, zone: Zone, k: int)
    requires Valid(spec) && spec.Cron?
    ensures
      var time, minute, hour := (k + zone(Instant(k)) / 60) % DAY, spec.minute, spec.hour;
      && (minute == "*" && hour == "*" ==> Hit(spec, zone, k))
      && (minute == "*" && IsDigits(hour) ==>
            (Hit(spec, zone, k) <==> 60 * Decimal(hour) <= time < 60 * Decimal(hour) + 60))
      && (IsDigits(minute) && hour == "*" ==>
            (Hit(spec, zone, k) <==> time % 60 == Decimal(minute)))
      && (IsStep(minute) && hour == "*" ==>
            (Hit(spec, zone, k) <==> time % 60 % Decimal(minute[2..]) == 0))
      && (IsStep(minute) && IsDigits(hour) ==>
            (Hit(spec, zone, k) <==>
              && 60 * Decimal(hour) <= time < 60 * Decimal(hour) + 60
              && (time - 60 * Decimal(hour)) % Decimal(minute[2..]) == 0))
      && (IsDigits(minute) && IsDigits(hour) ==>
            (Hit(spec, zone, k) <==> time == 60 * Decimal(hour) + Decimal(minute)))
  {
    hide Hit, Decimal;
    var time := (k + zone(Instant(k)) / 60) % DAY;
    FiresAtNamedTimes(spec, zone, k);
    assert IsDigits(spec.minute) ==> spec.minute[0] != '*';
    if IsDigits(spec.hour) {
      assert spec.hour[0] != '*';
      HourOfDay(time, Decimal(spec.hour));
    }
  }

  lemma HourOfDay(time: int, h: int)
    ensures 60 * h <= time < 60 * h + 60 <==> time / 60 == h
    ensures time / 60 == h ==> time - 60 * h == time % 60
  {
  }

  /** Every minute: the very next one, in any zone */
  lemma EveryMinuteFires(zone: Zone, after: real)
    ensures NextFire(Cron("*", "*"), zone, after) == Some(Instant((after / 60.0).Floor + 1))
  {
    var spec, k := Cron("*", "*"), (after / 60.0).Floor + 1;
    PatternKinds(spec, zone, k);
    FirstHitIs(Hits(spec, zone), k, k, k + SCAN_MINUTES);
  }

  lemma SameMinuteOfHour(a: int, b: int)
    requires a < b <= a + 60
    ensures a % 60 == b % 60 <==> b == a + 60
  {
    var p, q := a / 60, b / 60;
    assert b - a == 60 * (q - p) + (b % 60 - a % 60);
  }

  lemma MinuteOfDay(local: int)
    ensures local % DAY % 60 == local % 60 && local % DAY / 60 == local / 60 % 24
  {
    ClockOf(local, local % DAY / 60, local % DAY % 60);
  }

  /** While the offset stands still, a fixed minute of every hour fires exactly every 60 minutes. */
  lemma MinutePatternIsHourly(spec: Spec, zone: Zone, k: int)
    requires Valid(spec) && spec.Cron? && IsDigits(spec.minute) && spec.hour == "*" && Hit(spec, zone, k)
    requires forall i :: k <= i <= k + 60 ==> zone(Instant(i)) == zone(Instant(k))
    ensures NextFire(spec, zone, Instant(k)) == Some(Instant(k + 60))
  {
    hide Hit, Decimal, IsDigits;
    var shift := zone(Instant(k)) / 60;
    PatternKinds(spec, zone, k);
    MinuteOfDay(k + shift);
    forall j | k < j <= k + 60 ensures Hit(spec, zone, j) <==> j == k + 60 {
      PatternKinds(spec, zone, j);
      MinuteOfDay(j + shift);
      SameMinuteOfHour(k + shift, j + shift);
    }
    FirstHitIs(Hits(spec, zone), k + 1, k + 60, k + 1 + SCAN_MINUTES);
    InstantMinute(k);
    NextFireIsNextHit(spec, zone, Instant(k), k);
  }

  // ----- Catching up equals stepping -----

  /** How many of the n minutes from instant first on fire */
  function CountHits(spec: Spec, zone: Zone, first: real, n: nat): nat
    requires Valid(spec) && spec.Cron?
  {
    if n == 0 then 0
    else
      CountHits(spec, zone, first, n - 1)
      + (if MatchesCron(LocalMinute(zone, first + ((n - 1) * 60) as real), spec.minute, spec.hour) then 1 else 0)
  }

  function CountedMinutes(first: real, now: real): (n: nat)
    ensures n <= MAX_COUNT_MINUTES
  {
    var elapsed := ((now - first) / 60.0).Floor + 1;
    if elapsed < 0 then 0 else if elapsed > MAX_COUNT_MINUTES then MAX_COUNT_MINUTES else elapsed
  }

  function DueCount(spec: Spec, zone: Zone, first: real, now: real): nat
    requires Valid(spec)
  {
    match spec
    case Interval(every, _) =>
      var n := ((now - first) / every).Floor + 1;
      if n < 0 then 0 else n
    case Cron(_, _) => CountHits(spec, zone, first, CountedMinutes(first, now))
  }

  /** next_fire applied n times */
  ghost function Stepped(spec: Spec, zone: Zone, first: real, n: nat): Option<real>
    requires Valid(spec)
  {
    if n == 0 then Some(first)
    else
      var before := Stepped(spec, zone, first, n - 1);
      if before.Some? then NextFire(spec, zone, before.value) else None
  }

  lemma {:induction false} IntervalSteps(spec: Spec, zone: Zone, m: int, n: nat)
    requires Valid(spec) && spec.Interval?
    ensures Stepped(spec, zone, IntervalTick(spec, m), n) == Some(IntervalTick(spec, m + n))
  {
    if n > 0 {
      IntervalSteps(spec, zone, m, n - 1);
      NextInterval(spec, zone, IntervalTick(spec, m + n - 1), m + n - 1);
    }
  }

  lemma NextInterval(spec: Spec, zone: Zone, after: real, m: int)
    requires Valid(spec) && spec.Interval? && IntervalTick(spec, m) <= after < IntervalTick(spec, m + 1)
    ensures NextFire(spec, zone, after) == Some(IntervalTick(spec, m + 1))
  {
    FloorIs(after - spec.offset, spec.every, m);
  }

  lemma TickSum(spec: Spec, m: int, n: int)
    requires spec.Interval?
    ensures IntervalTick(spec, m + n) == IntervalTick(spec, m) + n as real * spec.every
  {
    assert (m + n) as real * spec.every == m as real * spec.every + n as real * spec.every;
  }

  /** For an interval, catching up by due_count steps from a first tick is one call of next_fire. */
  lemma IntervalCatchUp(spec: Spec, zone: Zone, first: real, now: real)
    requires Valid(spec) && spec.Interval? && IsTick(spec, zone, first) && first <= now
    ensures Stepped(spec, zone, first, DueCount(spec, zone, first, now)) == NextFire(spec, zone, now)
  {
    var m: int :| first == IntervalTick(spec, m);
    var c := ((now - first) / spec.every).Floor;
    FloorIs(now - first, spec.every, c);
    assert c >= 0 by {
      StrictScale((c + 1) as real, 0.0, spec.every);
      StrictScale(0.0, (c + 1) as real, spec.every);
    }
    TickSum(spec, m, c);
    TickSum(spec, m, c + 1);
    NextInterval(spec, zone, now, m + c);
    IntervalSteps(spec, zone, m, c + 1);
  }

  /** The zone changes its offset at most once in any 48 hours. */
  ghost predicate CalmZone(zone: Zone) {
    forall k :: AtMostOneChange(zone, k, SCAN_MINUTES)
  }

  /** No 48 hours without a hit */
  ghost predicate Dense(hits: iset<int>) {
    forall k :: NextHit(hits, k).Some?
  }

  /** Hits among the n minutes from k on */
  ghost function HitCount(hits: iset<int>, k: int, n: nat): nat {
    if n == 0 then 0 else HitCount(hits, k, n - 1) + (if k + n - 1 in hits then 1 else 0)
  }

  /** The minute reached by going from hit to hit n times */
  ghost function HitSteps(hits: iset<int>, k: int, n: nat): Option<int> {
    if n == 0 then Some(k)
    else
      var before := HitSteps(hits, k, n - 1);
      if before.Some? then NextHit(hits, before.value + 1) else None
  }

  lemma NextHitIsLater(hits: iset<int>, k: int)
    requires Dense(hits) && k !in hits
    ensures NextHit(hits, k) == NextHit(hits, k + 1)
  {
    var a, b := NextHit(hits, k), NextHit(hits, k + 1);
    assert a.Some? && b.Some? && a.value != k;
    assert !(a.value < b.value) && !(b.value < a.value);
  }

  /** Starting on a hit, as many steps as there are hits in a window lead to the first hit after it. */
  lemma {:induction false} StepsCrossWindow(hits: iset<int>, k: int, n: nat)
    requires Dense(hits) && k in hits && n > 0
    ensures HitSteps(hits, k, HitCount(hits, k, n)) == NextHit(hits, k + n)
    decreases n
  {
    hide NextHit;
    var last, count := k + n - 1, HitCount(hits, k, n - 1);
    if n > 1 {
      StepsCrossWindow(hits, k, n - 1);
    }
    if last in hits {
      HitIsNextHit(hits, last);
      HitStep(hits, k, count, last);
      assert HitCount(hits, k, n) == count + 1;
    } else {
      NextHitIsLater(hits, last);
      assert HitCount(hits, k, n) == count;
    }
  }

  lemma HitIsNextHit(hits: iset<int>, k: int)
    requires k in hits
    ensures NextHit(hits, k) == Some(k)
  {
    FirstHitIs(hits, k, k, k + SCAN_MINUTES);
  }

  lemma HitStep(hits: iset<int>, k: int, n: nat, m: int)
    requires HitSteps(hits, k, n) == Some(m)
    ensures HitSteps(hits, k, n + 1) == NextHit(hits, m + 1)
  {
  }

  lemma CalmIsDense(spec: Spec, zone: Zone)
    requires Valid(spec) && spec.Cron? && CalmZone(zone)
    ensures Dense(Hits(spec, zone))
  {
    forall k ensures NextHit(Hits(spec, zone), k).Some? {
      ScanFindsTick(spec, zone, k);
    }
  }

  lemma InstantMinute(k: int)
    ensures (Instant(k) / 60.0).Floor == k
  {
    assert Instant(k) / 60.0 == k as real;
  }

  lemma {:induction false} SteppedIsHitSteps(spec: Spec, zone: Zone, k: int, n: nat)
    requires Valid(spec) && spec.Cron?
    ensures Stepped(spec, zone, Instant(k), n) == InstantOf(HitSteps(Hits(spec, zone), k, n))
  {
    hide Hits, NextHit;
    if n > 0 {
      SteppedIsHitSteps(spec, zone, k, n - 1);
      var before := HitSteps(Hits(spec, zone), k, n - 1);
      if before.Some? {
        InstantMinute(before.value);
        NextFireIsNextHit(spec, zone, Instant(before.value), before.value);
      }
    }
  }

  lemma NextFireIsNextHit(spec: Spec, zone: Zone, after: real, k: int)
    requires Valid(spec) && spec.Cron? && (after / 60.0).Floor == k
    ensures NextFire(spec, zone, after) == InstantOf(NextHit(Hits(spec, zone), k + 1))
  {
  }

  lemma {:induction false} CountHitsIsHitCount(spec: Spec, zone: Zone, k: int, n: nat)
    requires Valid(spec) && spec.Cron?
    ensures CountHits(spec, zone, Instant(k), n) == HitCount(Hits(spec, zone), k, n)
  {
    if n > 0 {
      CountHitsIsHitCount(spec, zone, k, n - 1);
      assert Instant(k) + ((n - 1) * 60) as real == Instant(k + n - 1);
    }
  }

  /** The last instant due_count looks at */
  function Horizon(first: real, now: real): real {
    var cap := first + ((MAX_COUNT_MINUTES - 1) * 60) as real;
    if now < cap then now else cap
  }

  lemma HorizonMinute(k: int, now: real)
    requires Instant(k) <= now
    ensures CountedMinutes(Instant(k), now) > 0
    ensures (Horizon(Instant(k), now) / 60.0).Floor + 1 == k + CountedMinutes(Instant(k), now)
  {
    var x := (now - Instant(k)) / 60.0;
    assert now / 60.0 == k as real + x;
    assert (k as real + x).Floor == k + x.Floor;
    var cap := Instant(k) + ((MAX_COUNT_MINUTES - 1) * 60) as real;
    assert cap / 60.0 == (k + MAX_COUNT_MINUTES - 1) as real;
    assert now < cap <==> x < (MAX_COUNT_MINUTES - 1) as real;
  }

  /** Stepping due_count times from a first tick lands on the next tick after the horizon. */
  lemma CronCatchUp(spec: Spec, zone: Zone, first: real, now: real)
    requires Valid(spec) && spec.Cron? && CalmZone(zone) && IsTick(spec, zone, first) && first <= now
    ensures NextFire(spec, zone, Horizon(first, now)).Some?
    ensures Stepped(spec, zone, first, DueCount(spec, zone, first, now)) == NextFire(spec, zone, Horizon(first, now))
  {
    hide NextHit, CountHits, Stepped;
    var k: int :| first == Instant(k) && Hit(spec, zone, k);
    var hits, n := Hits(spec, zone), CountedMinutes(first, now);
    HorizonMinute(k, now);
    CalmIsDense(spec, zone);
    CountHitsIsHitCount(spec, zone, k, n);
    assert k in hits;
    StepsCrossWindow(hits, k, n);
    SteppedIsHitSteps(spec, zone, k, HitCount(hits, k, n));
    NextFireIsNextHit(spec, zone, Horizon(first, now), k + n - 1);
  }

  /** Before its first tick nothing is due. */
  lemma NothingDueBefore(spec: Spec, zone: Zone, first: real, now: real)
    requires Valid(spec) && now < first
    ensures DueCount(spec, zone, first, now) == 0
  {
    if spec.Interval? {
      NegativeFloor(now - first, spec.every);
    }
  }

  lemma NegativeFloor(x: real, y: real)
    requires x < 0.0 < y
    ensures (x / y).Floor < 0
  {
    var q := x / y;
    assert q * y == x;
    StrictScale(q, 0.0, y);
  }

  /** So catching up over an outage equals stepping through it exactly when the seven-day cap hides
      no tick; every outage of up to seven days qualifies. */
  lemma CatchUpEqualsStepping(spec: Spec, zone: Zone, first: real, now: real)
    requires Valid(spec) && spec.Cron? && CalmZone(zone) && IsTick(spec, zone, first) && first <= now
    ensures Stepped(spec, zone, first, DueCount(spec, zone, first, now)) == NextFire(spec, zone, now)
      <==> forall t :: Horizon(first, now) < t <= now ==> !IsTick(spec, zone, t)
    ensures now - first <= ((MAX_COUNT_MINUTES - 1) * 60) as real ==>
      Stepped(spec, zone, first, DueCount(spec, zone, first, now)) == NextFire(spec, zone, now)
  {
    CronCatchUp(spec, zone, first, now);
    var h := Horizon(first, now);
    NextFireNeverRaises(spec, zone, now);
    NextFireIsEarliest(spec, zone, h);
    NextFireIsEarliest(spec, zone, now);
    var a, b := NextFire(spec, zone, h).value, NextFire(spec, zone, now).value;
    if forall t :: h < t <= now ==> !IsTick(spec, zone, t) {
      assert now < a;
      assert !(a < b) && !(b < a);
    }
  }
}
