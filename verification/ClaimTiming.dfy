/**
 Claim timing: phases are entered and left in any interleaving, and a snapshot adds what is still
 running to what has been booked.  The history of intervals is kept as ghost state.
 */
module ClaimTiming {
  import opened Options

  datatype Entry = Entry(name: string, started: real)

  /** One passage through claim_phase, open until it has ended */
  datatype Span = Span(entry: Entry, ended: Option<real>)

  const INITIAL_PHASES := {"frontier_select", "owner_lease", "fetch", "checkout", "reset", "setup"}

  type Totals = map<string, real>

  datatype Snapshot = Snapshot(total: real, phases: Totals, current: Option<string>)

  function Booked(phases: Totals, name: string): real {
    if name in phases then phases[name] else 0.0
  }

  // ----- The intervals of a history -----

  function OpenEntries(spans: seq<Span>): seq<Entry> {
    if spans == [] then []
    else
      var last := spans[|spans| - 1];
      OpenEntries(spans[..|spans| - 1]) + if last.ended.None? then [last.entry] else []
  }

  /** The elapsed part of one interval, for its own phase */
  function Elapsed(span: Span, name: string, now: real): real {
    if span.entry.name != name then 0.0
    else (if span.ended.Some? then span.ended.value else now) - span.entry.started
  }

  /** What a phase has taken up to now: the elapsed parts of all its intervals, open and closed */
  function TotalTime(spans: seq<Span>, name: string, now: real): real {
    if spans == [] then 0.0
    else TotalTime(spans[..|spans| - 1], name, now) + Elapsed(spans[|spans| - 1], name, now)
  }

  function ClosedTime(spans: seq<Span>, name: string): real {
    if spans == [] then 0.0
    else
      var last := spans[|spans| - 1];
      ClosedTime(spans[..|spans| - 1], name) + if last.ended.Some? then Elapsed(last, name, 0.0) else 0.0
  }

  function RunningTime(running: seq<Entry>, name: string, now: real): real {
    if running == [] then 0.0
    else
      RunningTime(running[..|running| - 1], name, now) + Elapsed(Span(running[|running| - 1], None), name, now)
  }

  lemma {:induction false} TotalIsClosedPlusOpen(spans: seq<Span>, name: string, now: real)
    ensures TotalTime(spans, name, now) == ClosedTime(spans, name) + RunningTime(OpenEntries(spans), name, now)
    decreases |spans|
  {
    if spans != [] {
      var rest, last := spans[..|spans| - 1], spans[|spans| - 1];
      TotalIsClosedPlusOpen(rest, name, now);
      var open := OpenEntries(rest);
      if last.ended.None? {
        assert last == Span(last.entry, None);
        assert OpenEntries(spans) == open + [last.entry] && (open + [last.entry])[..|open|] == open;
      } else {
        assert OpenEntries(spans) == open;
      }
    }
  }

  // ----- list.remove -----

  function RemoveFirst(running: seq<Entry>, entry: Entry): seq<Entry> {
    if running == [] then []
    else if running[0] == entry then running[1..]
    else [running[0]] + RemoveFirst(running[1..], entry)
  }

  lemma {:induction false} RemoveFirstRemovesOne(running: seq<Entry>, entry: Entry)
    requires entry in running
    ensures multiset(RemoveFirst(running, entry)) == multiset(running) - multiset{entry}
    decreases |running|
  {
    assert running == [running[0]] + running[1..];
    if running[0] != entry {
      RemoveFirstRemovesOne(running[1..], entry);
    }
  }

  lemma {:induction false} TimeAfterAppend(a: seq<Entry>, b: seq<Entry>, name: string, now: real)
    ensures RunningTime(a + b, name, now) == RunningTime(a, name, now) + RunningTime(b, name, now)
    decreases |b|
  {
    if b == [] {
      assert a + b == a;
    } else {
      assert (a + b)[..|a + b| - 1] == a + b[..|b| - 1];
      TimeAfterAppend(a, b[..|b| - 1], name, now);
    }
  }

  lemma TimeWithout(running: seq<Entry>, k: nat, name: string, now: real)
    requires k < |running|
    ensures RunningTime(running, name, now)
         == RunningTime(running[..k] + running[k + 1..], name, now) + RunningTime([running[k]], name, now)
  {
    assert running == running[..k] + [running[k]] + running[k + 1..];
    TimeAfterAppend(running[..k] + [running[k]], running[k + 1..], name, now);
    TimeAfterAppend(running[..k], [running[k]], name, now);
    TimeAfterAppend(running[..k], running[k + 1..], name, now);
  }

  /** The running time does not depend on the order of the entries. */
  lemma {:induction false} TimeIgnoresOrder(a: seq<Entry>, b: seq<Entry>, name: string, now: real)
    requires multiset(a) == multiset(b)
    ensures RunningTime(a, name, now) == RunningTime(b, name, now)
    decreases |a|
  {
    hide RunningTime;
    if a == [] {
      assert |multiset(b)| == 0;
    } else {
      var n := |a| - 1;
      assert a[n] in multiset(b);
      var k :| 0 <= k < |b| && b[k] == a[n];
      Without(a, n);
      Without(b, k);
      TimeIgnoresOrder(a[..n] + a[n + 1..], b[..k] + b[k + 1..], name, now);
      TimeWithout(a, n, name, now);
      TimeWithout(b, k, name, now);
    }
  }

  lemma Without(a: seq<Entry>, k: nat)
    requires k < |a|
    ensures multiset(a[..k] + a[k + 1..]) == multiset(a) - multiset{a[k]}
  {
    assert a == a[..k] + [a[k]] + a[k + 1..];
  }

  // ----- Closing an interval -----

  function Close(spans: seq<Span>, k: nat, now: real): seq<Span>
    requires k < |spans|
  {
    spans[k := Span(spans[k].entry, Some(now))]
  }

  lemma {:induction false} CloseBooksElapsed(spans: seq<Span>, k: nat, now: real, name: string)
    requires k < |spans| && spans[k].ended.None?
    ensures ClosedTime(Close(spans, k, now), name) == ClosedTime(spans, name) + Elapsed(spans[k], name, now)
    decreases |spans|
  {
    var n := |spans| - 1;
    if k == n {
      assert Close(spans, k, now)[..n] == spans[..n];
    } else {
      CloseBooksElapsed(spans[..n], k, now, name);
      assert Close(spans, k, now)[..n] == Close(spans[..n], k, now);
    }
  }

  /** What the totals at time at make of an interval that is closed at time now */
  lemma {:induction false} CloseShiftsTotal(spans: seq<Span>, k: nat, now: real, name: string, at: real)
    requires k < |spans| && spans[k].ended.None?
    ensures TotalTime(Close(spans, k, now), name, at)
         == TotalTime(spans, name, at) + (if spans[k].entry.name == name then now - at else 0.0)
    decreases |spans|
  {
    var n := |spans| - 1;
    if k == n {
      assert Close(spans, k, now)[..n] == spans[..n];
    } else {
      CloseShiftsTotal(spans[..n], k, now, name, at);
      assert Close(spans, k, now)[..n] == Close(spans[..n], k, now);
    }
  }

  /** Leaving a phase keeps the totals as they are at an instant exactly when it is left at that
      instant; so a snapshot does not jump when a phase is left, until the clock of the claim stops. */
  lemma ExitKeepsTotalsIff(spans: seq<Span>, k: nat, now: real, at: real)
    requires k < |spans| && spans[k].ended.None?
    ensures (forall name :: TotalTime(Close(spans, k, now), name, at) == TotalTime(spans, name, at)) <==> now == at
  {
    forall name ensures TotalTime(Close(spans, k, now), name, at)
                     == TotalTime(spans, name, at) + (if spans[k].entry.name == name then now - at else 0.0) {
      CloseShiftsTotal(spans, k, now, name, at);
    }
    CloseShiftsTotal(spans, k, now, spans[k].entry.name, at);
  }

  // ----- The order of the running entries -----

  /** No two intervals of the same phase began at the same instant. */
  ghost predicate Distinct(spans: seq<Span>) {
    forall i, j :: 0 <= i < j < |spans| ==> spans[i].entry != spans[j].entry
  }

  function CurrentPhase(running: seq<Entry>): Option<string> {
    if running == [] then None else Some(running[|running| - 1].name)
  }

  lemma {:induction false} OpenEntriesAppend(a: seq<Span>, b: seq<Span>)
    ensures OpenEntries(a + b) == OpenEntries(a) + OpenEntries(b)
    decreases |b|
  {
    if b == [] {
      assert a + b == a;
    } else {
      assert (a + b)[..|a + b| - 1] == a + b[..|b| - 1];
      OpenEntriesAppend(a, b[..|b| - 1]);
    }
  }

  lemma {:induction false} OpenEntryIsOfSpan(spans: seq<Span>, entry: Entry)
    requires forall i :: 0 <= i < |spans| ==> spans[i].entry != entry
    ensures entry !in OpenEntries(spans)
    decreases |spans|
  {
    if spans != [] {
      OpenEntryIsOfSpan(spans[..|spans| - 1], entry);
    }
  }

  lemma {:induction false} RemoveFirstSkips(a: seq<Entry>, entry: Entry, b: seq<Entry>)
    requires entry !in a
    ensures RemoveFirst(a + [entry] + b, entry) == a + b
    decreases |a|
  {
    if a == [] {
      assert (a + [entry] + b)[1..] == b;
    } else {
      assert (a + [entry] + b)[1..] == a[1..] + [entry] + b;
      RemoveFirstSkips(a[1..], entry, b);
    }
  }

  lemma CloseKeepsDistinct(spans: seq<Span>, k: nat, now: real)
    requires k < |spans|
    ensures Distinct(Close(spans, k, now)) <==> Distinct(spans)
  {
    assert forall i :: 0 <= i < |spans| ==> Close(spans, k, now)[i].entry == spans[i].entry;
  }

  /** Closing an interval takes its entry out of the open ones. */
  lemma CloseDropsEntry(spans: seq<Span>, k: nat, now: real)
    requires k < |spans| && spans[k].ended.None?
    ensures
      var open, j := OpenEntries(spans), |OpenEntries(spans[..k])|;
      && j < |open| && open[j] == spans[k].entry
      && OpenEntries(Close(spans, k, now)) == Dropped(open, j)
      && multiset(OpenEntries(Close(spans, k, now))) == multiset(open) - multiset{spans[k].entry}
  {
    hide OpenEntries;
    var a, b, entry := spans[..k], spans[k + 1..], spans[k].entry;
    assert spans == a + [spans[k]] + b;
    assert Close(spans, k, now) == a + [Span(entry, Some(now))] + b;
    OpenEntriesAround(a, spans[k], b);
    OpenEntriesAround(a, Span(entry, Some(now)), b);
    var open, j := OpenEntries(spans), |OpenEntries(a)|;
    assert open == OpenEntries(a) + [entry] + OpenEntries(b);
    assert OpenEntries(Close(spans, k, now)) == OpenEntries(a) + OpenEntries(b) == Dropped(open, j);
    Without(open, j);
  }

  /** With distinct entries, list.remove takes out the entry of the interval that is left. */
  lemma RemoveFirstTakesOwn(spans: seq<Span>, k: nat, now: real)
    requires k < |spans| && spans[k].ended.None? && Distinct(spans)
    ensures RemoveFirst(OpenEntries(spans), spans[k].entry) == OpenEntries(Close(spans, k, now))
  {
    hide OpenEntries, RemoveFirst;
    CloseDropsEntry(spans, k, now);
    OpenEntryIsOfSpan(spans[..k], spans[k].entry);
    var open, j := OpenEntries(spans), |OpenEntries(spans[..k])|;
    PrefixOfOpen(spans, k);
    assert open == open[..j] + [spans[k].entry] + open[j + 1..];
    RemoveFirstSkips(open[..j], spans[k].entry, open[j + 1..]);
  }

  lemma PrefixOfOpen(spans: seq<Span>, k: nat)
    requires k <= |spans|
    ensures |OpenEntries(spans[..k])| <= |OpenEntries(spans)|
    ensures OpenEntries(spans)[..|OpenEntries(spans[..k])|] == OpenEntries(spans[..k])
  {
    assert spans == spans[..k] + spans[k..];
    OpenEntriesAppend(spans[..k], spans[k..]);
  }

  lemma OpenEntriesAround(a: seq<Span>, span: Span, b: seq<Span>)
    ensures OpenEntries(a + [span] + b)
         == OpenEntries(a) + (if span.ended.None? then [span.entry] else []) + OpenEntries(b)
  {
    OpenEntriesAppend(a + [span], b);
    OpenEntriesAppend(a, [span]);
    assert OpenEntries([span]) == if span.ended.None? then [span.entry] else [];
  }

  function FirstIndex(running: seq<Entry>, entry: Entry): (i: nat)
    requires entry in running
    ensures i < |running| && running[i] == entry && forall j :: 0 <= j < i ==> running[j] != entry
  {
    if running[0] == entry then 0 else FirstIndex(running[1..], entry) + 1
  }

  /** The running entries without the one at j */
  function Dropped(running: seq<Entry>, j: nat): seq<Entry>
    requires j < |running|
  {
    running[..j] + running[j + 1..]
  }

  lemma RemoveFirstIsAt(running: seq<Entry>, entry: Entry)
    requires entry in running
    ensures RemoveFirst(running, entry) == Dropped(running, FirstIndex(running, entry))
  {
    var i := FirstIndex(running, entry);
    assert running == running[..i] + [entry] + running[i + 1..];
    RemoveFirstSkips(running[..i], entry, running[i + 1..]);
  }

  /** Leaving the phase whose own entry stands at j reports the wrong current phase exactly when that
      entry is the last one, an equal one runs before it, and the entry just before it is of another
      phase. */
  lemma MisreportsIff(running: seq<Entry>, j: nat)
    requires j < |running|
    ensures CurrentPhase(RemoveFirst(running, running[j])) != CurrentPhase(Dropped(running, j)) <==>
      j == |running| - 1 && running[j] in running[..j] && running[j - 1].name != running[j].name
  {
    hide RemoveFirst, CurrentPhase, Dropped;
    RemoveFirstIsAt(running, running[j]);
    FirstIndexUpTo(running, j);
    PhaseAfterDropping(running, j);
    PhaseAfterDropping(running, FirstIndex(running, running[j]));
  }

  lemma FirstIndexUpTo(running: seq<Entry>, j: nat)
    requires j < |running|
    ensures FirstIndex(running, running[j]) <= j
    ensures FirstIndex(running, running[j]) < j <==> running[j] in running[..j]
  {
    var i := FirstIndex(running, running[j]);
    assert i < j ==> running[..j][i] == running[j];
  }

  /** The same for an interval of a history whose open entries stand in the order they were entered */
  lemma ExitMisreportsIff(spans: seq<Span>, k: nat, now: real)
    requires k < |spans| && spans[k].ended.None?
    ensures
      var open, j := OpenEntries(spans), |OpenEntries(spans[..k])|;
      && j < |open| && open[j] == spans[k].entry
      && (CurrentPhase(RemoveFirst(open, open[j])) != CurrentPhase(OpenEntries(Close(spans, k, now))) <==>
          j == |open| - 1 && open[j] in open[..j] && open[j - 1].name != open[j].name)
  {
    hide OpenEntries, RemoveFirst, CurrentPhase;
    CloseDropsEntry(spans, k, now);
    MisreportsIff(OpenEntries(spans), |OpenEntries(spans[..k])|);
  }

  lemma PhaseAfterDropping(running: seq<Entry>, i: nat)
    requires i < |running|
    ensures
      var last := |running| - 1;
      CurrentPhase(Dropped(running, i)) ==
        if i < last then Some(running[last].name) else if last > 0 then Some(running[last - 1].name) else None
  {
  }

  /** With equal entries it may take another one, and then the current phase is misreported: of
      fetch, setup and fetch again, the last one left, setup is current but fetch is reported. */
  lemma EqualEntriesMisreport(t: real)
    ensures
      var fetch, setup := Entry("fetch", t), Entry("setup", t);
      var spans := [Span(fetch, None), Span(setup, None), Span(fetch, None)];
      && OpenEntries(spans) == [fetch, setup, fetch]
      && CurrentPhase(OpenEntries(Close(spans, 2, t))) == Some("setup")
      && CurrentPhase(RemoveFirst(OpenEntries(spans), fetch)) == Some("fetch")
  {
    var fetch, setup := Entry("fetch", t), Entry("setup", t);
    var a, b, c := [Span(fetch, None)], [Span(setup, None)], [Span(fetch, None)];
    var spans := [Span(fetch, None), Span(setup, None), Span(fetch, None)];
    assert spans == a + b + c && Close(spans, 2, t) == a + b + [Span(fetch, Some(t))];
    OpenEntriesAppend(a + b, c);
    OpenEntriesAppend(a + b, [Span(fetch, Some(t))]);
    OpenEntriesAppend(a, b);
    assert OpenEntries(a) == [fetch] && OpenEntries(b) == [setup] && OpenEntries([Span(fetch, Some(t))]) == [];
    assert OpenEntries(spans) == [fetch, setup, fetch];
    assert RemoveFirst([fetch, setup, fetch], fetch) == [setup, fetch];
    assert "fetch" != "setup";
  }

  // ----- What runs after any interleaving -----

  /** The entries of all intervals, in the order they were entered */
  function Entries(spans: seq<Span>): (entries: seq<Entry>)
    ensures |entries| == |spans| && forall i :: 0 <= i < |entries| ==> entries[i] == spans[i].entry
  {
    seq(|spans|, i requires 0 <= i < |spans| => spans[i].entry)
  }

  /** At most as many as m allows stand from the first entry on. */
  predicate HeadFits(entries: seq<Entry>, m: multiset<Entry>)
    requires entries != []
  {
    multiset(entries)[entries[0]] <= m[entries[0]]
  }

  /** Of each entry e only the last m[e] occurrences: list.remove always takes the first one. */
  function Kept(entries: seq<Entry>, m: multiset<Entry>): seq<Entry> {
    if entries == [] then []
    else
      var rest := Kept(entries[1..], m);
      if HeadFits(entries, m) then [entries[0]] + rest else rest
  }

  lemma CountHead(entries: seq<Entry>, e: Entry)
    requires entries != []
    ensures multiset(entries)[e] == multiset(entries[1..])[e] + if entries[0] == e then 1 else 0
  {
    assert entries == [entries[0]] + entries[1..];
  }

  lemma HeadFitsAppend(entries: seq<Entry>, m: multiset<Entry>, e: Entry)
    requires entries != []
    ensures HeadFits(entries + [e], m + multiset{e}) <==> HeadFits(entries, m)
  {
    assert multiset(entries + [e]) == multiset(entries) + multiset{e};
  }

  lemma {:induction false} KeptAppend(entries: seq<Entry>, m: multiset<Entry>, e: Entry)
    ensures Kept(entries + [e], m + multiset{e}) == Kept(entries, m) + [e]
    decreases |entries|
  {
    if entries == [] {
      KeptOne(m, e);
      assert [] + [e] == [e];
    } else {
      hide HeadFits;
      assert (entries + [e])[1..] == entries[1..] + [e];
      KeptAppend(entries[1..], m, e);
      HeadFitsAppend(entries, m, e);
    }
  }

  lemma KeptOne(m: multiset<Entry>, e: Entry)
    ensures Kept([e], m + multiset{e}) == [e]
  {
    assert [e][1..] == [];
  }

  /** Where fewer entries e are left than m allows, allowing one less keeps the same. */
  lemma {:induction false} KeptWithSlack(entries: seq<Entry>, m: multiset<Entry>, e: Entry)
    requires multiset(entries)[e] < m[e]
    ensures Kept(entries, m - multiset{e}) == Kept(entries, m)
    decreases |entries|
  {
    if entries != [] {
      CountHead(entries, e);
      KeptWithSlack(entries[1..], m, e);
    }
  }

  /** Removing the first e from what is kept is keeping one e less. */
  lemma {:induction false} KeptRemove(entries: seq<Entry>, m: multiset<Entry>, e: Entry)
    requires 0 < m[e] <= multiset(entries)[e]
    ensures RemoveFirst(Kept(entries, m), e) == Kept(entries, m - multiset{e})
    decreases |entries|
  {
    hide RemoveFirst;
    CountHead(entries, e);
    if entries[0] != e {
      KeptRemove(entries[1..], m, e);
      RemoveSkipsHead(entries[0], Kept(entries[1..], m), e);
    } else if multiset(entries)[e] == m[e] {
      RemoveTakesHead(Kept(entries[1..], m), e);
      KeptWithSlack(entries[1..], m, e);
    } else {
      KeptRemove(entries[1..], m, e);
    }
  }

  lemma RemoveSkipsHead(head: Entry, rest: seq<Entry>, e: Entry)
    requires head != e
    ensures RemoveFirst([head] + rest, e) == [head] + RemoveFirst(rest, e)
  {
    assert ([head] + rest)[1..] == rest;
  }

  lemma RemoveTakesHead(rest: seq<Entry>, e: Entry)
    ensures RemoveFirst([e] + rest, e) == rest
  {
    assert ([e] + rest)[1..] == rest;
  }

  lemma {:induction false} KeptNothing(entries: seq<Entry>, m: multiset<Entry>)
    requires forall j :: 0 <= j < |entries| ==> entries[j] !in m
    ensures Kept(entries, m) == []
    decreases |entries|
  {
    if entries != [] {
      KeptNothing(entries[1..], m);
    }
  }

  /** What is kept ends with the last entry that m holds at all. */
  lemma {:induction false} KeptEndsWith(entries: seq<Entry>, m: multiset<Entry>, i: nat)
    requires i < |entries| && entries[i] in m && forall j :: i < j < |entries| ==> entries[j] !in m
    ensures Kept(entries, m) != [] && Kept(entries, m)[|Kept(entries, m)| - 1] == entries[i]
    decreases i
  {
    if i == 0 {
      KeptNothing(entries[1..], m);
      CountHead(entries, entries[0]);
      assert entries[0] !in entries[1..];
    } else {
      KeptEndsWith(entries[1..], m, i - 1);
    }
  }

  /** The running list after this history, in whatever order its intervals were closed */
  function StillRunning(spans: seq<Span>): seq<Entry> {
    Kept(Entries(spans), multiset(OpenEntries(spans)))
  }

  lemma EnterRunsLast(spans: seq<Span>, e: Entry)
    ensures StillRunning(spans + [Span(e, None)]) == StillRunning(spans) + [e]
  {
    var more := spans + [Span(e, None)];
    assert more[..|spans|] == spans;
    assert Entries(more) == Entries(spans) + [e];
    assert multiset(OpenEntries(more)) == multiset(OpenEntries(spans)) + multiset{e};
    KeptAppend(Entries(spans), multiset(OpenEntries(spans)), e);
  }

  lemma {:induction false} OpenIsEntered(spans: seq<Span>, e: Entry)
    ensures multiset(OpenEntries(spans))[e] <= multiset(Entries(spans))[e]
    decreases |spans|
  {
    if spans != [] {
      var n := |spans| - 1;
      OpenIsEntered(spans[..n], e);
      var entered, open, last := Entries(spans[..n]), OpenEntries(spans[..n]), spans[n].entry;
      assert Entries(spans) == entered + [last];
      assert multiset(entered + [last]) == multiset(entered) + multiset{last};
      assert multiset(open + [last]) == multiset(open) + multiset{last};
      assert OpenEntries(spans) == if spans[n].ended.None? then open + [last] else open;
    }
  }

  lemma ExitRemovesFirst(spans: seq<Span>, k: nat, now: real)
    requires k < |spans| && spans[k].ended.None?
    ensures StillRunning(Close(spans, k, now)) == RemoveFirst(StillRunning(spans), spans[k].entry)
  {
    hide Kept, RemoveFirst, OpenEntries;
    var e, m := spans[k].entry, multiset(OpenEntries(spans));
    CloseDropsEntry(spans, k, now);
    assert e in m;
    OpenIsEntered(spans, e);
    assert Entries(Close(spans, k, now)) == Entries(spans);
    KeptRemove(Entries(spans), m, e);
  }

  /** The last interval that is open */
  function LastOpen(spans: seq<Span>): (l: nat)
    requires OpenEntries(spans) != []
    ensures l < |spans| && spans[l].ended.None? && forall j :: l < j < |spans| ==> spans[j].ended.Some?
    ensures OpenEntries(spans)[|OpenEntries(spans)| - 1] == spans[l].entry
  {
    if spans[|spans| - 1].ended.None? then |spans| - 1 else LastOpen(spans[..|spans| - 1])
  }

  function LastAmong(spans: seq<Span>, m: multiset<Entry>): (i: nat)
    requires exists j :: 0 <= j < |spans| && spans[j].entry in m
    ensures i < |spans| && spans[i].entry in m && forall j :: i < j < |spans| ==> spans[j].entry !in m
  {
    var n := |spans| - 1;
    if spans[n].entry in m then n
    else
      assert forall j :: 0 <= j < n ==> spans[..n][j] == spans[j];
      LastAmong(spans[..n], m)
  }

  /** The last interval, open or closed, whose entry equals that of an open one */
  function LastReported(spans: seq<Span>): (i: nat)
    requires OpenEntries(spans) != []
    ensures i < |spans|
  {
    assert spans[LastOpen(spans)].entry in OpenEntries(spans);
    LastAmong(spans, multiset(OpenEntries(spans)))
  }

  /** After any interleaving the phase reported is that of the last interval with an open entry, and it
      is wrong exactly when that interval and the last open one are of different phases. */
  lemma ReportedPhaseIs(spans: seq<Span>)
    ensures OpenEntries(spans) == [] ==> StillRunning(spans) == []
    ensures OpenEntries(spans) != [] ==>
      var reported, current := CurrentPhase(StillRunning(spans)), CurrentPhase(OpenEntries(spans));
      && reported == Some(spans[LastReported(spans)].entry.name)
      && (reported != current <==> spans[LastReported(spans)].entry.name != spans[LastOpen(spans)].entry.name)
  {
    hide OpenEntries, Kept;
    if OpenEntries(spans) == [] {
      KeptNothing(Entries(spans), multiset(OpenEntries(spans)));
    } else {
      KeptEndsWith(Entries(spans), multiset(OpenEntries(spans)), LastReported(spans));
    }
  }

  // ----- The timing of one claim -----

  /** The loop of snapshot: the booked totals, with what is still running at the instant */
  method AddRunning(phases: Totals, running: seq<Entry>, at: real) returns (totals: Totals)
    ensures forall name :: Booked(totals, name) == Booked(phases, name) + RunningTime(running, name, at)
    ensures totals.Keys == phases.Keys + (set entry | entry in running :: entry.name)
  {
    totals := phases;
    for i := 0 to |running|
      invariant forall name :: Booked(totals, name) == Booked(phases, name) + RunningTime(running[..i], name, at)
      invariant totals.Keys == phases.Keys + (set j | 0 <= j < i :: running[j].name)
    {
      assert running[..i + 1][..i] == running[..i];
      totals := totals[running[i].name := Booked(totals, running[i].name) + at - running[i].started];
    }
    assert running[..|running|] == running;
  }

  ghost predicate IsBooked(phases: Totals, spans: seq<Span>) {
    forall name :: Booked(phases, name) == ClosedTime(spans, name)
  }

  lemma SnapshotTotals(phases: Totals, running: seq<Entry>, spans: seq<Span>, totals: Totals, at: real)
    requires IsBooked(phases, spans) && multiset(running) == multiset(OpenEntries(spans))
    requires forall name :: Booked(totals, name) == Booked(phases, name) + RunningTime(running, name, at)
    ensures forall name :: Booked(totals, name) == TotalTime(spans, name, at)
  {
    hide Booked, OpenEntries, RunningTime, TotalTime, ClosedTime;
    forall name ensures Booked(totals, name) == TotalTime(spans, name, at) {
      TimeIgnoresOrder(running, OpenEntries(spans), name, at);
      TotalIsClosedPlusOpen(spans, name, at);
    }
  }

  lemma ExitBooks(phases: Totals, spans: seq<Span>, k: nat, now: real)
    requires IsBooked(phases, spans) && k < |spans| && spans[k].ended.None?
    ensures
      var e := spans[k].entry;
      IsBooked(phases[e.name := Booked(phases, e.name) + (now - e.started)], Close(spans, k, now))
  {
    hide ClosedTime;
    forall name
      ensures ClosedTime(Close(spans, k, now), name) == ClosedTime(spans, name) + Elapsed(spans[k], name, now)
    {
      CloseBooksElapsed(spans, k, now, name);
    }
  }

  /** Closed intervals are booked, open ones are running. */
  ghost predicate IsConsistent(phases: Totals, running: seq<Entry>, spans: seq<Span>) {
    && IsBooked(phases, spans)
    && multiset(running) == multiset(OpenEntries(spans))
    && running == StillRunning(spans)
    && (Distinct(spans) ==> running == OpenEntries(spans))
  }

  lemma ExitIsConsistent(phases: Totals, running: seq<Entry>, spans: seq<Span>, k: nat, now: real)
    requires IsConsistent(phases, running, spans) && k < |spans| && spans[k].ended.None?
    ensures spans[k].entry in running
    ensures
      var e := spans[k].entry;
      var booked := phases[e.name := Booked(phases, e.name) + (now - e.started)];
      IsConsistent(booked, RemoveFirst(running, e), Close(spans, k, now))
  {
    hide IsBooked, OpenEntries, RemoveFirst, Distinct, StillRunning, Close, Booked;
    var entry := spans[k].entry;
    CloseDropsEntry(spans, k, now);
    assert entry in multiset(OpenEntries(spans));
    ExitBooks(phases, spans, k, now);
    RemoveFirstRemovesOne(running, entry);
    ExitRemovesFirst(spans, k, now);
    CloseKeepsDistinct(spans, k, now);
    if Distinct(spans) {
      RemoveFirstTakesOwn(spans, k, now);
    }
  }

  class ClaimTiming {
    const started: real
    var phases: Totals
    var running: seq<Entry>
    var finished: Option<real>
    ghost var spans: seq<Span>

    ghost predicate Valid()
      reads this
    {
      IsConsistent(phases, running, spans) && INITIAL_PHASES <= phases.Keys
    }

    constructor (now: real)
      ensures Valid() && spans == [] && finished.None? && started == now
      ensures phases == map name | name in INITIAL_PHASES :: 0.0
    {
      started := now;
      phases := map name | name in INITIAL_PHASES :: 0.0;
      running, finished, spans := [], None, [];
    }

    /** Entering claim_phase */
    method Enter(name: string, now: real) returns (entry: Entry)
      requires Valid()
      modifies this`running, this`spans
      ensures Valid() && entry == Entry(name, now)
      ensures spans == old(spans) + [Span(entry, None)] && running == old(running) + [entry]
    {
      hide StillRunning;
      entry := Entry(name, now);
      EnterRunsLast(spans, entry);
      running := running + [entry];
      spans := spans + [Span(entry, None)];
      assert spans[..|spans| - 1] == old(spans);
      assert Distinct(spans) ==> Distinct(old(spans)) by {
        assert forall i :: 0 <= i < |old(spans)| ==> spans[i] == old(spans)[i];
      }
      forall p ensures ClosedTime(spans, p) == ClosedTime(old(spans), p) {
      }
    }

    /** list.remove: takes out the first entry that is equal, be it another interval's. */
    method Remove(entry: Entry)
      requires entry in running
      modifies this`running
      ensures running == RemoveFirst(old(running), entry)
    {
      hide RemoveFirst;
      var i := 0;
      while running[i] != entry
        invariant 0 <= i < |running| && running == old(running)
        invariant forall j :: 0 <= j < i ==> running[j] != entry
        decreases |running| - i
      {
        ghost var last :| 0 <= last < |running| && running[last] == entry;
        i := i + 1;
      }
      assert running == running[..i] + [entry] + running[i + 1..];
      RemoveFirstSkips(running[..i], entry, running[i + 1..]);
      running := running[..i] + running[i + 1..];
    }

    /** Leaving claim_phase: k is the interval that was entered with this entry. */
    method Exit(entry: Entry, now: real, ghost k: nat)
      requires Valid() && k < |spans| && spans[k] == Span(entry, None)
      modifies this`running, this`phases, this`spans
      ensures Valid() && spans == Close(old(spans), k, now)
      ensures running == RemoveFirst(old(running), entry)
      ensures old(running) == OpenEntries(old(spans)) ==>
        var open, j := old(running), |OpenEntries(old(spans)[..k])|;
        && j < |open| && open[j] == entry
        && (CurrentPhase(running) != CurrentPhase(OpenEntries(spans)) <==>
            j == |open| - 1 && entry in open[..j] && open[j - 1].name != entry.name)
    {
      hide IsConsistent, OpenEntries, RemoveFirst, CurrentPhase, Close;
      ExitMisreportsIff(spans, k, now);
      ExitIsConsistent(phases, running, spans, k, now);
      var elapsed := now - entry.started;
      Remove(entry);
      phases := phases[entry.name := Booked(phases, entry.name) + elapsed];
      spans := Close(spans, k, now);
    }

    method Finish(now: real)
      requires Valid()
      modifies this`finished
      ensures Valid() && finished == Some(now)
    {
      finished := Some(now);
    }

    /** snapshot: every phase's total is the sum of the elapsed parts of all its intervals. */
    method TakeSnapshot(now: real) returns (snapshot: Snapshot)
      requires Valid()
      ensures
        var at := if finished.Some? then finished.value else now;
        && snapshot.total == at - started
        && (forall name :: Booked(snapshot.phases, name) == TotalTime(spans, name, at))
        && snapshot.phases.Keys == phases.Keys + (set entry | entry in running :: entry.name)
      ensures snapshot.current == CurrentPhase(running)
      ensures Distinct(spans) ==> snapshot.current == CurrentPhase(OpenEntries(spans))
      ensures OpenEntries(spans) == [] ==> snapshot.current == None
      ensures OpenEntries(spans) != [] ==>
        && snapshot.current == Some(spans[LastReported(spans)].entry.name)
        && (snapshot.current != CurrentPhase(OpenEntries(spans)) <==>
            spans[LastReported(spans)].entry.name != spans[LastOpen(spans)].entry.name)
    {
      var at := if finished.Some? then finished.value else now;
      hide IsBooked, Distinct, OpenEntries, RunningTime, TotalTime, ClosedTime;
      hide StillRunning, LastReported, LastOpen, CurrentPhase;
      ReportedPhaseIs(spans);
      var totals := AddRunning(phases, running, at);
      SnapshotTotals(phases, running, spans, totals, at);
      return Snapshot(at - started, totals, CurrentPhase(running));
    }
  }
}
