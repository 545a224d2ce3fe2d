/**
 Redaction of literal credentials in a raw configuration tree, and the restorer that splices the
 stored credentials back.  The DSN pattern is an explicit scanner over character classes; which
 keys name credentials, which token shapes are credentials and which characters are word
 characters are parameters.
 */
module ConfigSecrets {
  import opened Options
  import opened Strings

  const PLACEHOLDER: string := "__aq_redacted__"

  /** A mapping key: str(key) is its text; an integer and a string with the same text differ. */
  datatype Key = TextKey(text: string) | OtherKey(kind: int, text: string)
  datatype Entry = Entry(key: Key, value: Value)
  datatype Value = Dict(entries: seq<Entry>) | List(items: seq<Value>) | Str(text: string) | Scalar(tag: string)

  datatype Tests = Tests(isSecretKey: string -> bool, hasSecretValue: string -> bool, isWord: char -> bool)

  /** A Python dictionary has no key twice. */
  predicate WellFormed(v: Value) {
    match v
    case Dict(es) =>
      && (forall i, j :: 0 <= i < j < |es| ==> es[i].key != es[j].key)
      && (forall i :: 0 <= i < |es| ==> WellFormed(es[i].value))
    case List(xs) => forall i :: 0 <= i < |xs| ==> WellFormed(xs[i])
    case _ => true
  }

  // ----- Strings -----

  predicate OccursAt(t: string, part: string, i: int) {
    0 <= i <= |t| - |part| && t[i..i + |part|] == part
  }

  predicate Contains(t: string, part: string) {
    exists i :: 0 <= i <= |t| && OccursAt(t, part, i)
  }

  /** A ${NAME} reference somewhere in the text */
  predicate HasEnvRef(t: string, tests: Tests) {
    exists i, j :: 0 <= i < |t| && 0 <= j < |t| && IsEnvRef(t, i, j, tests)
  }

  predicate IsEnvRef(t: string, i: int, j: int, tests: Tests) {
    && 0 <= i && i + 2 < j < |t| && t[i] == '$' && t[i + 1] == '{' && t[j] == '}'
    && forall k :: i + 2 <= k < j ==> tests.isWord(t[k])
  }

  predicate IsLetter(c: char) {
    'a' <= c <= 'z' || 'A' <= c <= 'Z'
  }

  /** The three repeated character classes of the pattern */
  datatype CharClass = SchemeClass | UserClass | PasswordClass

  predicate InClass(c: char, class_: CharClass) {
    match class_
    case SchemeClass => IsLetter(c) || '0' <= c <= '9' || c == '+' || c == '.' || c == '-'
    case UserClass => !IsSpace(c) && c != ':' && c != '/' && c != '?' && c != '#' && c != '@'
    case PasswordClass => !IsSpace(c) && c != '@' && c != '/' && c != '?' && c != '#'
  }

  predicate AllInClass(t: string, lo: int, hi: int, class_: CharClass)
    requires 0 <= lo && hi <= |t|
  {
    forall k :: lo <= k < hi ==> InClass(t[k], class_)
  }

  // ----- scheme://user:password@ -----

  datatype UrlMatch = UrlMatch(start: nat, schemeEnd: nat, pwStart: nat, pwEnd: nat)

  predicate IsUrlMatch(t: string, m: UrlMatch) {
    && m.start < m.schemeEnd && m.schemeEnd + 4 <= m.pwStart < m.pwEnd < |t|
    && IsLetter(t[m.start])
    && AllInClass(t, m.start + 1, m.schemeEnd, SchemeClass)
    && t[m.schemeEnd] == ':' && t[m.schemeEnd + 1] == '/' && t[m.schemeEnd + 2] == '/'
    && AllInClass(t, m.schemeEnd + 3, m.pwStart - 1, UserClass)
    && t[m.pwStart - 1] == ':'
    && AllInClass(t, m.pwStart, m.pwEnd, PasswordClass)
    && t[m.pwEnd] == '@'
  }

  function RunEnd(t: string, i: nat, class_: CharClass): (e: nat)
    requires i <= |t|
    ensures i <= e <= |t| && AllInClass(t, i, e, class_)
    ensures e < |t| ==> !InClass(t[e], class_)
    decreases |t| - i
  {
    if i < |t| && InClass(t[i], class_) then RunEnd(t, i + 1, class_) else i
  }

  /** The pattern anchored at i. No run can stop early: each class leaves out the character that
      must follow it, so there is nothing to backtrack to. */
  function MatchAt(t: string, i: nat): (r: Option<UrlMatch>)
    ensures r.Some? ==> r.value.start == i && IsUrlMatch(t, r.value)
  {
    if i < |t| && IsLetter(t[i]) then
      var c := RunEnd(t, i + 1, SchemeClass);
      if c + 3 <= |t| && t[c] == ':' && t[c + 1] == '/' && t[c + 2] == '/' then
        var u := RunEnd(t, c + 3, UserClass);
        if u < |t| && t[u] == ':' then
          var e := RunEnd(t, u + 1, PasswordClass);
          if u + 1 < e < |t| && t[e] == '@' then Some(UrlMatch(i, c, u + 1, e)) else None
        else None
      else None
    else None
  }

  lemma {:induction false} RunEndIs(t: string, i: nat, class_: CharClass, e: nat)
    requires i <= e < |t| && AllInClass(t, i, e, class_) && !InClass(t[e], class_)
    ensures RunEnd(t, i, class_) == e
    decreases e - i
  {
    if i < e { RunEndIs(t, i + 1, class_, e); }
  }

  /** The scanner misses no match, and a start position has at most one. */
  lemma MatchAtIsComplete(t: string, m: UrlMatch)
    requires IsUrlMatch(t, m)
    ensures MatchAt(t, m.start) == Some(m)
  {
    hide AllInClass, IsSpace;
    RunEndIs(t, m.start + 1, SchemeClass, m.schemeEnd);
    RunEndIs(t, m.schemeEnd + 3, UserClass, m.pwStart - 1);
    RunEndIs(t, m.pwStart, PasswordClass, m.pwEnd);
  }

  /** The leftmost match at or after i */
  function FirstMatch(t: string, i: nat): (r: Option<UrlMatch>)
    requires i <= |t|
    ensures r.Some? ==> i <= r.value.start && IsUrlMatch(t, r.value)
    decreases |t| - i
  {
    if i == |t| then None
    else
      var here := MatchAt(t, i);
      if here.Some? then here else FirstMatch(t, i + 1)
  }

  lemma {:induction false} FirstMatchIsLeftmost(t: string, i: nat, m: UrlMatch)
    requires i <= m.start && IsUrlMatch(t, m)
    ensures FirstMatch(t, i).Some?
    ensures FirstMatch(t, i).value == m || FirstMatch(t, i).value.start < m.start
    decreases m.start - i
  {
    MatchAtIsComplete(t, m);
    if i < m.start && MatchAt(t, i).None? {
      FirstMatchIsLeftmost(t, i + 1, m);
    }
  }

  function SearchUrl(t: string): Option<UrlMatch> {
    FirstMatch(t, 0)
  }

  // ----- Read side -----

  /** The text with its DSN password replaced */
  function Spliced(t: string, m: UrlMatch, password: string): string
    requires m.pwStart <= m.pwEnd <= |t|
  {
    t[..m.pwStart] + password + t[m.pwEnd..]
  }

  /** The whole text is a credential. */
  predicate IsSecretText(t: string, key: string, tests: Tests) {
    (tests.isSecretKey(key) && !HasEnvRef(t, tests)) || tests.hasSecretValue(t)
  }

  predicate HasLiteralPassword(t: string, tests: Tests) {
    var m := SearchUrl(t);
    m.Some? && !HasEnvRef(t[m.value.pwStart..m.value.pwEnd], tests)
  }

  /** Redaction touches the text, and so reports its path. */
  predicate Redacts(t: string, key: string, tests: Tests) {
    !IsBlank(t) && (IsSecretText(t, key, tests) || HasLiteralPassword(t, tests))
  }

  function RedactedString(t: string, key: string, tests: Tests): string {
    if !Redacts(t, key, tests) then t
    else if IsSecretText(t, key, tests) then PLACEHOLDER
    else Spliced(t, SearchUrl(t).value, PLACEHOLDER)
  }

  function Redacted(v: Value, key: string, tests: Tests): Value
    decreases v, 1
  {
    match v
    case Dict(es) => Dict(RedactedEntries(v, |es|, tests))
    case List(xs) => List(RedactedItems(v, |xs|, key, tests))
    case Str(t) => Str(RedactedString(t, key, tests))
    case Scalar(_) => v
  }

  /** The first n entries of a dictionary, redacted */
  function RedactedEntries(v: Value, n: nat, tests: Tests): (r: seq<Entry>)
    requires v.Dict? && n <= |v.entries|
    ensures |r| == n
    decreases v, 0, n
  {
    if n == 0 then []
    else RedactedEntries(v, n - 1, tests) + [RedactedEntry(v.entries[n - 1], tests)]
  }

  /** A value is redacted under the key it hangs from. */
  function RedactedEntry(e: Entry, tests: Tests): Entry
    decreases e.value, 2
  {
    Entry(e.key, Redacted(e.value, e.key.text, tests))
  }

  /** List items inherit the key of their list. */
  function RedactedItems(v: Value, n: nat, key: string, tests: Tests): (r: seq<Value>)
    requires v.List? && n <= |v.items|
    ensures |r| == n
    decreases v, 0, n
  {
    if n == 0 then []
    else RedactedItems(v, n - 1, key, tests) + [Redacted(v.items[n - 1], key, tests)]
  }

  lemma {:induction false} RedactedEntryAt(v: Value, n: nat, i: nat, tests: Tests)
    requires v.Dict? && i < n <= |v.entries|
    ensures RedactedEntries(v, n, tests)[i] == RedactedEntry(v.entries[i], tests)
    decreases n
  {
    if i < n - 1 { RedactedEntryAt(v, n - 1, i, tests); }
  }

  lemma {:induction false} RedactedItemAt(v: Value, n: nat, i: nat, key: string, tests: Tests)
    requires v.List? && i < n <= |v.items|
    ensures RedactedItems(v, n, key, tests)[i] == Redacted(v.items[i], key, tests)
    decreases n
  {
    if i < n - 1 { RedactedItemAt(v, n - 1, i, key, tests); }
  }

  function Digits(n: nat): (d: string)
    ensures |d| > 0
  {
    (if n < 10 then [] else Digits(n / 10)) + ["0123456789"[n % 10]]
  }

  function ChildPath(path: string, name: string): string {
    if path != "" then path + "." + name else name
  }

  function ItemPath(path: string, index: nat): string {
    path + "[" + Digits(index) + "]"
  }

  /** The paths reported before, then those of this value, in document order */
  function RedactedPaths(v: Value, path: string, key: string, tests: Tests, before: seq<string>): seq<string>
    decreases v, 1
  {
    match v
    case Dict(es) => EntryPaths(v, |es|, path, tests, before)
    case List(xs) => ItemPaths(v, |xs|, path, key, tests, before)
    case Str(t) => if Redacts(t, key, tests) then before + [path] else before
    case Scalar(_) => before
  }

  function EntryPaths(v: Value, n: nat, path: string, tests: Tests, before: seq<string>): seq<string>
    requires v.Dict? && n <= |v.entries|
    decreases v, 0, n
  {
    if n == 0 then before
    else
      var e := v.entries[n - 1];
      RedactedPaths(e.value, ChildPath(path, e.key.text), e.key.text, tests, EntryPaths(v, n - 1, path, tests, before))
  }

  function ItemPaths(v: Value, n: nat, path: string, key: string, tests: Tests, before: seq<string>): seq<string>
    requires v.List? && n <= |v.items|
    decreases v, 0, n
  {
    if n == 0 then before
    else RedactedPaths(v.items[n - 1], ItemPath(path, n - 1), key, tests, ItemPaths(v, n - 1, path, key, tests, before))
  }

  /** The list of paths that one redaction or one restoration shares between its recursive calls */
  class PathLog {
    var paths: seq<string>

    constructor ()
      ensures paths == []
    {
      paths := [];
    }

    method Append(path: string)
      modifies this
      ensures paths == old(paths) + [path]
    {
      paths := paths + [path];
    }
  }

  method RedactConfig(raw: Value, tests: Tests) returns (redacted: Value, paths: seq<string>)
    ensures redacted == Redacted(raw, "", tests)
    ensures paths == RedactedPaths(raw, "", "", tests, [])
    ensures SameFrame(raw, redacted) && AllHidden(Leaves(raw, Root, "", []), Leaves(redacted, Root, "", []), tests)
    ensures paths == LiteralPaths(Leaves(raw, Root, "", []), tests)
  {
    RedactionHidesLiterals(raw, tests);
    var log := new PathLog();
    redacted := Redact(raw, "", "", tests, log);
    paths := log.paths;
  }

  method Redact(v: Value, path: string, key: string, tests: Tests, log: PathLog) returns (out: Value)
    modifies log
    ensures out == Redacted(v, key, tests)
    ensures log.paths == RedactedPaths(v, path, key, tests, old(log.paths))
    decreases v, 1
  {
    match v
    case Dict(es) =>
      var done := RedactEntries(v, path, tests, log);
      out := Dict(done);
    case List(xs) =>
      var done := RedactItems(v, path, key, tests, log);
      out := List(done);
    case Str(t) =>
      var text := RedactString(t, path, key, tests, log);
      out := Str(text);
    case Scalar(_) =>
      out := v;
  }

  method RedactEntries(v: Value, path: string, tests: Tests, log: PathLog) returns (done: seq<Entry>)
    requires v.Dict?
    modifies log
    ensures done == RedactedEntries(v, |v.entries|, tests)
    ensures log.paths == EntryPaths(v, |v.entries|, path, tests, old(log.paths))
    decreases v, 0
  {
    done := [];
    for i := 0 to |v.entries|
      invariant done == RedactedEntries(v, i, tests)
      invariant log.paths == EntryPaths(v, i, path, tests, old(log.paths))
    {
      var e := v.entries[i];
      var child := Redact(e.value, ChildPath(path, e.key.text), e.key.text, tests, log);
      done := done + [Entry(e.key, child)];
    }
  }

  method RedactItems(v: Value, path: string, key: string, tests: Tests, log: PathLog) returns (done: seq<Value>)
    requires v.List?
    modifies log
    ensures done == RedactedItems(v, |v.items|, key, tests)
    ensures log.paths == ItemPaths(v, |v.items|, path, key, tests, old(log.paths))
    decreases v, 0
  {
    done := [];
    for i := 0 to |v.items|
      invariant done == RedactedItems(v, i, key, tests)
      invariant log.paths == ItemPaths(v, i, path, key, tests, old(log.paths))
    {
      var item := Redact(v.items[i], ItemPath(path, i), key, tests, log);
      done := done + [item];
    }
  }

  method RedactString(t: string, path: string, key: string, tests: Tests, log: PathLog) returns (out: string)
    modifies log
    ensures out == RedactedString(t, key, tests)
    ensures log.paths == if Redacts(t, key, tests) then old(log.paths) + [path] else old(log.paths)
    ensures IsHidden(Leaf(Root, key, t), Leaf(Root, key, out), tests)
    ensures log.paths != old(log.paths) <==> HoldsLiteral(Leaf(Root, key, t), tests)
  {
    hide IsHidden, HoldsLiteral;
    LiteralIffRedacts(Leaf(Root, key, t), tests);
    LeafIsHidden(Leaf(Root, key, t), tests);
    if IsBlank(t) { return t; }
    if tests.isSecretKey(key) && !HasEnvRef(t, tests) {
      log.Append(path);
      return PLACEHOLDER;
    }
    if tests.hasSecretValue(t) {
      log.Append(path);
      return PLACEHOLDER;
    }
    var m := SearchUrl(t);
    if m.Some? && !HasEnvRef(t[m.value.pwStart..m.value.pwEnd], tests) {
      log.Append(path);
      return t[..m.value.pwStart] + PLACEHOLDER + t[m.value.pwEnd..];
    }
    return t;
  }

  // ----- Write side -----

  function Lookup(es: seq<Entry>, key: Key): Option<Value> {
    if es == [] then None
    else if es[0].key == key then Some(es[0].value)
    else Lookup(es[1..], key)
  }

  function StoredEntry(stored: Option<Value>, key: Key): Option<Value> {
    if stored.Some? && stored.value.Dict? then Lookup(stored.value.entries, key) else None
  }

  function StoredItem(stored: Option<Value>, index: nat): Option<Value> {
    if stored.Some? && stored.value.List? && index < |stored.value.items| then Some(stored.value.items[index]) else None
  }

  /** The stored text that answers a text with a placeholder in it, or None when nothing does */
  function Resolution(t: string, stored: Option<Value>): Option<string> {
    if stored.None? || !stored.value.Str? then None
    else if t == PLACEHOLDER then
      if stored.value.text != "" then Some(stored.value.text) else None
    else
      var m, sm := SearchUrl(t), SearchUrl(stored.value.text);
      if m.Some? && t[m.value.pwStart..m.value.pwEnd] == PLACEHOLDER && sm.Some? then
        Some(Spliced(t, m.value, stored.value.text[sm.value.pwStart..sm.value.pwEnd]))
      else None
  }

  function RestoredString(t: string, stored: Option<Value>): string {
    if Contains(t, PLACEHOLDER) && Resolution(t, stored).Some? then Resolution(t, stored).value else t
  }

  predicate Unanswered(t: string, stored: Option<Value>) {
    Contains(t, PLACEHOLDER) && Resolution(t, stored).None?
  }

  function Restored(incoming: Value, stored: Option<Value>): Value
    decreases incoming, 1
  {
    match incoming
    case Dict(es) => Dict(RestoredEntries(incoming, |es|, stored))
    case List(xs) => List(RestoredItems(incoming, |xs|, stored))
    case Str(t) => Str(RestoredString(t, stored))
    case Scalar(_) => incoming
  }

  function RestoredEntries(incoming: Value, n: nat, stored: Option<Value>): (r: seq<Entry>)
    requires incoming.Dict? && n <= |incoming.entries|
    ensures |r| == n
    decreases incoming, 0, n
  {
    if n == 0 then []
    else
      var e := incoming.entries[n - 1];
      RestoredEntries(incoming, n - 1, stored) + [Entry(e.key, Restored(e.value, StoredEntry(stored, e.key)))]
  }

  function RestoredItems(incoming: Value, n: nat, stored: Option<Value>): (r: seq<Value>)
    requires incoming.List? && n <= |incoming.items|
    ensures |r| == n
    decreases incoming, 0, n
  {
    if n == 0 then []
    else RestoredItems(incoming, n - 1, stored) + [Restored(incoming.items[n - 1], StoredItem(stored, n - 1))]
  }

  function UnresolvedPaths(incoming: Value, stored: Option<Value>, path: string, before: seq<string>): seq<string>
    decreases incoming, 1
  {
    match incoming
    case Dict(es) => UnresolvedEntries(incoming, |es|, stored, path, before)
    case List(xs) => UnresolvedItems(incoming, |xs|, stored, path, before)
    case Str(t) => if Unanswered(t, stored) then before + [path] else before
    case Scalar(_) => before
  }

  function UnresolvedEntries(
    incoming: Value, n: nat, stored: Option<Value>, path: string, before: seq<string>): seq<string>
    requires incoming.Dict? && n <= |incoming.entries|
    decreases incoming, 0, n
  {
    if n == 0 then before
    else
      var e := incoming.entries[n - 1];
      UnresolvedPaths(e.value, StoredEntry(stored, e.key), ChildPath(path, e.key.text),
                      UnresolvedEntries(incoming, n - 1, stored, path, before))
  }

  function UnresolvedItems(
    incoming: Value, n: nat, stored: Option<Value>, path: string, before: seq<string>): seq<string>
    requires incoming.List? && n <= |incoming.items|
    decreases incoming, 0, n
  {
    if n == 0 then before
    else
      UnresolvedPaths(incoming.items[n - 1], StoredItem(stored, n - 1), ItemPath(path, n - 1),
                      UnresolvedItems(incoming, n - 1, stored, path, before))
  }

  predicate MentionsPlaceholder(v: Value) {
    match v
    case Dict(es) => exists i :: 0 <= i < |es| && MentionsPlaceholder(es[i].value)
    case List(xs) => exists i :: 0 <= i < |xs| && MentionsPlaceholder(xs[i])
    case Str(t) => Contains(t, PLACEHOLDER)
    case Scalar(_) => false
  }

  method RestoreSectionSecrets(incoming: Value, stored: Option<Value>)
    returns (restored: Value, unresolved: seq<string>)
    ensures restored == Restored(incoming, stored)
    ensures unresolved == UnresolvedPaths(incoming, stored, "", [])
    ensures SameFrame(incoming, restored)
    ensures AllRestored(Sites(incoming, stored, Root, []), Leaves(restored, Root, "", []))
    ensures unresolved == RefusedPaths(Sites(incoming, stored, Root, []))
    ensures stored.None? ==> (unresolved == [] <==> !MentionsPlaceholder(incoming))
  {
    RestorationAnswersOrRefuses(incoming, stored);
    if !MentionsPlaceholder(incoming) {
      PassesThrough(incoming, stored, "", []);
      return incoming, [];
    }
    var log := new PathLog();
    restored := Restore(incoming, stored, "", log);
    unresolved := log.paths;
  }

  method Restore(incoming: Value, stored: Option<Value>, path: string, log: PathLog) returns (out: Value)
    modifies log
    ensures out == Restored(incoming, stored)
    ensures log.paths == UnresolvedPaths(incoming, stored, path, old(log.paths))
    decreases incoming, 1
  {
    match incoming
    case Dict(es) =>
      var done := RestoreEntries(incoming, stored, path, log);
      out := Dict(done);
    case List(xs) =>
      var done := RestoreItems(incoming, stored, path, log);
      out := List(done);
    case Str(t) =>
      out := incoming;
      if Contains(t, PLACEHOLDER) {
        var text := RestoreString(t, stored, path, log);
        out := Str(text);
      }
    case Scalar(_) =>
      out := incoming;
  }

  method RestoreEntries(incoming: Value, stored: Option<Value>, path: string, log: PathLog) returns (done: seq<Entry>)
    requires incoming.Dict?
    modifies log
    ensures done == RestoredEntries(incoming, |incoming.entries|, stored)
    ensures log.paths == UnresolvedEntries(incoming, |incoming.entries|, stored, path, old(log.paths))
    decreases incoming, 0
  {
    done := [];
    for i := 0 to |incoming.entries|
      invariant done == RestoredEntries(incoming, i, stored)
      invariant log.paths == UnresolvedEntries(incoming, i, stored, path, old(log.paths))
    {
      var e := incoming.entries[i];
      var child := Restore(e.value, StoredEntry(stored, e.key), ChildPath(path, e.key.text), log);
      done := done + [Entry(e.key, child)];
    }
  }

  method RestoreItems(incoming: Value, stored: Option<Value>, path: string, log: PathLog) returns (done: seq<Value>)
    requires incoming.List?
    modifies log
    ensures done == RestoredItems(incoming, |incoming.items|, stored)
    ensures log.paths == UnresolvedItems(incoming, |incoming.items|, stored, path, old(log.paths))
    decreases incoming, 0
  {
    done := [];
    for i := 0 to |incoming.items|
      invariant done == RestoredItems(incoming, i, stored)
      invariant log.paths == UnresolvedItems(incoming, i, stored, path, old(log.paths))
    {
      var item := Restore(incoming.items[i], StoredItem(stored, i), ItemPath(path, i), log);
      done := done + [item];
    }
  }

  method RestoreString(t: string, stored: Option<Value>, path: string, log: PathLog) returns (out: string)
    requires Contains(t, PLACEHOLDER)
    modifies log
    ensures out == RestoredString(t, stored)
    ensures log.paths == if Unanswered(t, stored) then old(log.paths) + [path] else old(log.paths)
    ensures IsRestored(Site(Root, t, stored), out)
    ensures log.paths != old(log.paths) <==> !IsAnswered(Site(Root, t, stored))
  {
    hide IsRestored, IsAnswered;
    SiteIsRestored(Site(Root, t, stored));
    if t == PLACEHOLDER {
      if stored.Some? && stored.value.Str? && stored.value.text != "" { return stored.value.text; }
      log.Append(path);
      return t;
    }
    var m := SearchUrl(t);
    if m.Some? && t[m.value.pwStart..m.value.pwEnd] == PLACEHOLDER && stored.Some? && stored.value.Str? {
      var sm := SearchUrl(stored.value.text);
      if sm.Some? {
        return t[..m.value.pwStart] + stored.value.text[sm.value.pwStart..sm.value.pwEnd] + t[m.value.pwEnd..];
      }
    }
    log.Append(path);
    return t;
  }

  // ----- Restoring undoes redacting -----

  /** Replacing the password of the leftmost match by any non-empty run of password characters
      leaves the leftmost match where it was: an earlier match would have to reach past the
      "://" of this one, and no class lets it. */
  lemma SpliceKeepsLeftmost(t: string, m: UrlMatch, password: string)
    requires SearchUrl(t) == Some(m)
    requires password != "" && AllInClass(password, 0, |password|, PasswordClass)
    ensures SearchUrl(Spliced(t, m, password)) == Some(m.(pwEnd := m.pwStart + |password|))
  {
    var t' := Spliced(t, m, password);
    var m' := m.(pwEnd := m.pwStart + |password|);
    SpliceMatches(t, m, password);
    FirstMatchIsLeftmost(t', 0, m');
    var found := SearchUrl(t').value;
    if found != m' {
      var q := EarlierMatchWasThere(t, m, password, found);
      FirstMatchIsLeftmost(t, 0, q);
    }
  }

  lemma SpliceMatches(t: string, m: UrlMatch, password: string)
    requires IsUrlMatch(t, m)
    requires password != "" && AllInClass(password, 0, |password|, PasswordClass)
    ensures IsUrlMatch(Spliced(t, m, password), m.(pwEnd := m.pwStart + |password|))
  {
    var t' := Spliced(t, m, password);
    assert forall k :: 0 <= k < m.pwStart ==> t'[k] == t[k];
    assert forall k :: m.pwStart <= k < m.pwStart + |password| ==> t'[k] == password[k - m.pwStart];
  }

  lemma EarlierMatchWasThere(t: string, m: UrlMatch, password: string, q: UrlMatch) returns (q': UrlMatch)
    requires IsUrlMatch(t, m) && IsUrlMatch(Spliced(t, m, password), q) && q.start < m.start
    ensures IsUrlMatch(t, q') && q'.start < m.start
  {
    if q.schemeEnd == m.schemeEnd {
      q' := UrlMatch(q.start, m.schemeEnd, m.pwStart, m.pwEnd);
      EarlierWithSameColon(t, m, password, q);
    } else {
      q' := q;
      EarlierWithOwnColon(t, m, password, q);
    }
  }

  lemma EarlierWithSameColon(t: string, m: UrlMatch, password: string, q: UrlMatch)
    requires IsUrlMatch(t, m) && IsUrlMatch(Spliced(t, m, password), q)
    requires q.start < m.start && q.schemeEnd == m.schemeEnd
    ensures IsUrlMatch(t, UrlMatch(q.start, m.schemeEnd, m.pwStart, m.pwEnd))
  {
    hide InClass, IsLetter;
    assert forall k :: 0 <= k < m.pwStart ==> Spliced(t, m, password)[k] == t[k];
  }

  lemma EarlierWithOwnColon(t: string, m: UrlMatch, password: string, q: UrlMatch)
    requires IsUrlMatch(t, m) && IsUrlMatch(Spliced(t, m, password), q)
    requires q.start < m.start && q.schemeEnd != m.schemeEnd
    ensures IsUrlMatch(t, q)
  {
    hide InClass, IsLetter;
    var t' := Spliced(t, m, password);
    assert forall k :: 0 <= k < m.pwStart ==> t'[k] == t[k];
    assert t'[m.schemeEnd] == ':' && t'[m.schemeEnd + 1] == '/';
    ClassesStopAtSeparators();
    assert q.schemeEnd + 3 <= m.start;
    assert q.pwEnd < m.schemeEnd;
  }

  lemma ClassesStopAtSeparators()
    ensures !InClass(':', SchemeClass) && !InClass(':', UserClass) && !InClass('/', PasswordClass)
  {
  }

  lemma PlaceholderIsPassword()
    ensures PLACEHOLDER != "" && Contains(PLACEHOLDER, PLACEHOLDER)
    ensures AllInClass(PLACEHOLDER, 0, |PLACEHOLDER|, PasswordClass)
    ensures '$' !in PLACEHOLDER && ':' !in PLACEHOLDER
  {
    ContainsItself(PLACEHOLDER);
  }

  lemma ContainsItself(t: string)
    ensures Contains(t, t)
  {
    assert OccursAt(t, t, 0);
  }

  /** A text that carries the placeholder although redaction leaves it alone: the restorer can
      only report it. The bare placeholder is not stray, since it answers for itself. */
  predicate IsStray(t: string, key: string, tests: Tests) {
    !Redacts(t, key, tests) && Contains(t, PLACEHOLDER) && t != PLACEHOLDER
  }

  /** The DSN case: the redacted text has its leftmost match in the same place, with the
      placeholder as its password. */
  lemma UrlRoundTrip(t: string, m: UrlMatch)
    requires SearchUrl(t) == Some(m)
    ensures Resolution(Spliced(t, m, PLACEHOLDER), Some(Str(t))) == Some(t)
    ensures Contains(Spliced(t, m, PLACEHOLDER), PLACEHOLDER)
  {
    hide FirstMatch, InClass, IsLetter;
    PlaceholderIsPassword();
    SpliceKeepsLeftmost(t, m, PLACEHOLDER);
    var red := Spliced(t, m, PLACEHOLDER);
    var m' := m.(pwEnd := m.pwStart + |PLACEHOLDER|);
    assert red[m'.pwStart..m'.pwEnd] == PLACEHOLDER;
    assert OccursAt(red, PLACEHOLDER, m.pwStart);
    assert red[m.schemeEnd] == ':';
    assert red != PLACEHOLDER;
    SplicedBack(t, m, PLACEHOLDER);
  }

  lemma SplicedBack(t: string, m: UrlMatch, password: string)
    requires m.pwStart <= m.pwEnd <= |t|
    ensures
      var m' := m.(pwEnd := m.pwStart + |password|);
      Spliced(Spliced(t, m, password), m', t[m.pwStart..m.pwEnd]) == t
  {
    var red, rest := Spliced(t, m, password), m.pwStart + |password|;
    assert red[..m.pwStart] == t[..m.pwStart] && red[rest..] == t[m.pwEnd..];
    assert t == t[..m.pwStart] + t[m.pwStart..m.pwEnd] + t[m.pwEnd..];
  }

  /** A text redaction leaves alone cannot have the placeholder for its DSN password. */
  lemma StrayIsUnanswered(t: string, key: string, tests: Tests)
    requires IsStray(t, key, tests)
    ensures Resolution(t, Some(Str(t))) == None
  {
    PlaceholderIsPassword();
    var m := SearchUrl(t);
    if m.Some? && t[m.value.pwStart..m.value.pwEnd] == PLACEHOLDER {
      assert !HasEnvRef(PLACEHOLDER, tests);
      assert !IsSpace(t[m.value.start]);
      assert HasLiteralPassword(t, tests);
    }
  }

  lemma StringRoundTrip(t: string, key: string, tests: Tests)
    ensures RestoredString(RedactedString(t, key, tests), Some(Str(t))) == t
    ensures Unanswered(RedactedString(t, key, tests), Some(Str(t))) <==> IsStray(t, key, tests)
  {
    if IsStray(t, key, tests) {
      StrayIsUnanswered(t, key, tests);
    } else if Redacts(t, key, tests) {
      PlaceholderIsPassword();
      if !IsSecretText(t, key, tests) {
        UrlRoundTrip(t, SearchUrl(t).value);
      }
    }
  }

  ghost predicate HasStray(v: Value, key: string, tests: Tests)
    decreases v, 1
  {
    match v
    case Dict(es) => HasStrayEntry(v, |es|, tests)
    case List(xs) => HasStrayItem(v, |xs|, key, tests)
    case Str(t) => IsStray(t, key, tests)
    case Scalar(_) => false
  }

  /** One of the first n entries has one. */
  ghost predicate HasStrayEntry(v: Value, n: nat, tests: Tests)
    requires v.Dict? && n <= |v.entries|
    decreases v, 0, n
  {
    n > 0 && (HasStrayEntry(v, n - 1, tests) || HasStray(v.entries[n - 1].value, v.entries[n - 1].key.text, tests))
  }

  ghost predicate HasStrayItem(v: Value, n: nat, key: string, tests: Tests)
    requires v.List? && n <= |v.items|
    decreases v, 0, n
  {
    n > 0 && (HasStrayItem(v, n - 1, key, tests) || HasStray(v.items[n - 1], key, tests))
  }

  lemma {:induction false} LookupFinds(es: seq<Entry>, i: nat)
    requires i < |es| && forall a, b :: 0 <= a < b < |es| ==> es[a].key != es[b].key
    ensures Lookup(es, es[i].key) == Some(es[i].value)
  {
    if i > 0 {
      assert es[0].key != es[i].key;
      LookupFinds(es[1..], i - 1);
    }
  }

  /** Restoring the redacted tree against the original gives the original back, for every tree. */
  lemma {:induction false} RestoreUndoesRedact(v: Value, key: string, tests: Tests)
    requires WellFormed(v)
    ensures Restored(Redacted(v, key, tests), Some(v)) == v
    decreases v, 1
  {
    match v
    case Dict(es) =>
      RedactedSideBySide(v, key, tests);
      EntriesRoundTrip(v, Redacted(v, key, tests), |es|, tests);
    case List(xs) =>
      forall i | 0 <= i < |xs| { RedactedItemAt(v, |xs|, i, key, tests); }
      ItemsRoundTrip(v, Redacted(v, key, tests), |xs|, key, tests);
    case Str(t) => StringRoundTrip(t, key, tests);
    case Scalar(_) =>
  }

  /** The two dictionaries run side by side: r is the redacted form of v, entry by entry, and every
      key of v finds its own value again. */
  predicate SideBySide(v: Value, r: Value, tests: Tests) {
    && v.Dict? && r.Dict? && |r.entries| == |v.entries|
    && forall i :: 0 <= i < |v.entries| ==>
         && r.entries[i] == RedactedEntry(v.entries[i], tests)
         && StoredEntry(Some(v), v.entries[i].key) == Some(v.entries[i].value)
         && WellFormed(v.entries[i].value)
  }

  lemma RedactedSideBySide(v: Value, key: string, tests: Tests)
    requires WellFormed(v) && v.Dict?
    ensures SideBySide(v, Redacted(v, key, tests), tests)
  {
    forall i | 0 <= i < |v.entries|
      ensures Redacted(v, key, tests).entries[i] == RedactedEntry(v.entries[i], tests)
      ensures StoredEntry(Some(v), v.entries[i].key) == Some(v.entries[i].value)
    {
      RedactedEntryAt(v, |v.entries|, i, tests);
      LookupFinds(v.entries, i);
    }
  }

  lemma {:induction false} EntriesRoundTrip(v: Value, r: Value, n: nat, tests: Tests)
    requires SideBySide(v, r, tests) && n <= |v.entries|
    ensures RestoredEntries(r, n, Some(v)) == v.entries[..n]
    decreases v, 0, n
  {
    if n > 0 {
      var e := v.entries[n - 1];
      EntriesRoundTrip(v, r, n - 1, tests);
      RestoreUndoesRedact(e.value, e.key.text, tests);
    }
  }

  lemma {:induction false} ItemsRoundTrip(v: Value, r: Value, n: nat, key: string, tests: Tests)
    requires WellFormed(v) && v.List? && r.List? && |r.items| == |v.items| && n <= |v.items|
    requires forall i :: 0 <= i < |v.items| ==> r.items[i] == Redacted(v.items[i], key, tests)
    ensures RestoredItems(r, n, Some(v)) == v.items[..n]
    decreases v, 0, n
  {
    hide Redacted, Restored;
    if n > 0 {
      ItemsRoundTrip(v, r, n - 1, key, tests);
      RestoreUndoesRedact(v.items[n - 1], key, tests);
    }
  }

  /** And it reports nothing unresolved exactly when no string of the tree is stray. */
  lemma {:induction false} UnresolvedOnlyIfStray(v: Value, key: string, tests: Tests, path: string, before: seq<string>)
    requires WellFormed(v)
    ensures UnresolvedPaths(Redacted(v, key, tests), Some(v), path, before) == [] <==>
      before == [] && !HasStray(v, key, tests)
    decreases v, 1
  {
    match v
    case Dict(es) =>
      RedactedSideBySide(v, key, tests);
      EntriesUnresolvedOnlyIfStray(v, Redacted(v, key, tests), |es|, tests, path, before);
    case List(xs) =>
      forall i | 0 <= i < |xs| { RedactedItemAt(v, |xs|, i, key, tests); }
      ItemsUnresolvedOnlyIfStray(v, Redacted(v, key, tests), |xs|, key, tests, path, before);
    case Str(t) => StringRoundTrip(t, key, tests);
    case Scalar(_) =>
  }

  lemma {:induction false} EntriesUnresolvedOnlyIfStray(
    v: Value, r: Value, n: nat, tests: Tests, path: string, before: seq<string>)
    requires SideBySide(v, r, tests) && n <= |v.entries|
    ensures UnresolvedEntries(r, n, Some(v), path, before) == [] <==>
            before == [] && !HasStrayEntry(v, n, tests)
    decreases v, 0, n
  {
    if n > 0 {
      var e := v.entries[n - 1];
      EntriesUnresolvedOnlyIfStray(v, r, n - 1, tests, path, before);
      UnresolvedOnlyIfStray(e.value, e.key.text, tests, ChildPath(path, e.key.text),
                            UnresolvedEntries(r, n - 1, Some(v), path, before));
    }
  }

  lemma {:induction false} ItemsUnresolvedOnlyIfStray(
    v: Value, r: Value, n: nat, key: string, tests: Tests, path: string, before: seq<string>)
    requires WellFormed(v) && v.List? && r.List? && |r.items| == |v.items| && n <= |v.items|
    requires forall i :: 0 <= i < |v.items| ==> r.items[i] == Redacted(v.items[i], key, tests)
    ensures UnresolvedItems(r, n, Some(v), path, before) == [] <==>
            before == [] && !HasStrayItem(v, n, key, tests)
    decreases v, 0, n
  {
    hide Redacted, UnresolvedPaths;
    if n > 0 {
      ItemsUnresolvedOnlyIfStray(v, r, n - 1, key, tests, path, before);
      UnresolvedOnlyIfStray(v.items[n - 1], key, tests, ItemPath(path, n - 1),
                            UnresolvedItems(r, n - 1, Some(v), path, before));
    }
  }

  /** A tree that mentions no placeholder has no stray string, so the promise holds for it whole. */
  lemma {:induction false} NoPlaceholderNoStray(v: Value, key: string, tests: Tests)
    requires !MentionsPlaceholder(v)
    ensures !HasStray(v, key, tests)
    decreases v, 1
  {
    match v
    case Dict(es) => NoStrayEntry(v, |es|, tests);
    case List(xs) => NoStrayItem(v, |xs|, key, tests);
    case _ =>
  }

  lemma {:induction false} NoStrayEntry(v: Value, n: nat, tests: Tests)
    requires v.Dict? && n <= |v.entries| && !MentionsPlaceholder(v)
    ensures !HasStrayEntry(v, n, tests)
    decreases v, 0, n
  {
    if n > 0 {
      NoStrayEntry(v, n - 1, tests);
      NoPlaceholderNoStray(v.entries[n - 1].value, v.entries[n - 1].key.text, tests);
    }
  }

  lemma {:induction false} NoStrayItem(v: Value, n: nat, key: string, tests: Tests)
    requires v.List? && n <= |v.items| && !MentionsPlaceholder(v)
    ensures !HasStrayItem(v, n, key, tests)
    decreases v, 0, n
  {
    if n > 0 {
      NoStrayItem(v, n - 1, key, tests);
      NoPlaceholderNoStray(v.items[n - 1], key, tests);
    }
  }

  /** The document-level law, on the two entry points as the Config API uses them */
  method RoundTrip(raw: Value, tests: Tests) returns (restored: Value, unresolved: seq<string>)
    requires WellFormed(raw)
    ensures restored == raw
    ensures unresolved == [] <==> !HasStray(raw, "", tests)
    ensures !MentionsPlaceholder(raw) ==> unresolved == []
  {
    var redacted, _ := RedactConfig(raw, tests);
    restored, unresolved := RestoreSectionSecrets(redacted, Some(raw));
    RestoreUndoesRedact(raw, "", tests);
    UnresolvedOnlyIfStray(raw, "", tests, "", []);
    if !MentionsPlaceholder(raw) {
      NoPlaceholderNoStray(raw, "", tests);
    }
  }

  // ----- What a client sends is kept -----

  /** Same tree, except at strings that carry the placeholder */
  ghost predicate AgreesOffPlaceholders(incoming: Value, out: Value) {
    match incoming
    case Dict(es) =>
      && out.Dict? && |out.entries| == |es|
      && forall i :: 0 <= i < |es| ==>
           out.entries[i].key == es[i].key && AgreesOffPlaceholders(es[i].value, out.entries[i].value)
    case List(xs) =>
      && out.List? && |out.items| == |xs|
      && forall i :: 0 <= i < |xs| ==> AgreesOffPlaceholders(xs[i], out.items[i])
    case Str(t) => out.Str? && (!Contains(t, PLACEHOLDER) ==> out == incoming)
    case Scalar(_) => out == incoming
  }

  /** A deliberate edit, a rotated credential included, is never swallowed, whatever is stored. */
  lemma {:induction false} EditsAreKept(incoming: Value, stored: Option<Value>)
    ensures AgreesOffPlaceholders(incoming, Restored(incoming, stored))
    decreases incoming, 1
  {
    match incoming
    case Dict(es) => EntryEditsAreKept(incoming, |es|, stored);
    case List(xs) => ItemEditsAreKept(incoming, |xs|, stored);
    case _ =>
  }

  lemma {:induction false} EntryEditsAreKept(incoming: Value, n: nat, stored: Option<Value>)
    requires incoming.Dict? && n <= |incoming.entries|
    ensures forall i :: 0 <= i < n ==>
      && RestoredEntries(incoming, n, stored)[i].key == incoming.entries[i].key
      && AgreesOffPlaceholders(incoming.entries[i].value, RestoredEntries(incoming, n, stored)[i].value)
    decreases incoming, 0, n
  {
    if n > 0 {
      var e := incoming.entries[n - 1];
      EntryEditsAreKept(incoming, n - 1, stored);
      EditsAreKept(e.value, StoredEntry(stored, e.key));
    }
  }

  lemma {:induction false} ItemEditsAreKept(incoming: Value, n: nat, stored: Option<Value>)
    requires incoming.List? && n <= |incoming.items|
    ensures forall i :: 0 <= i < n ==> AgreesOffPlaceholders(incoming.items[i], RestoredItems(incoming, n, stored)[i])
    decreases incoming, 0, n
  {
    if n > 0 {
      ItemEditsAreKept(incoming, n - 1, stored);
      EditsAreKept(incoming.items[n - 1], StoredItem(stored, n - 1));
    }
  }

  /** A DSN that comes back with the placeholder gets exactly the stored password, at the same place,
      and keeps every other edit the client made to the text. */
  lemma RestoredUrlKeepsEdits(t: string, m: UrlMatch, stored: string, sm: UrlMatch)
    requires SearchUrl(t) == Some(m) && t[m.pwStart..m.pwEnd] == PLACEHOLDER && SearchUrl(stored) == Some(sm)
    ensures
      var password := stored[sm.pwStart..sm.pwEnd];
      var out := RestoredString(t, Some(Str(stored)));
      var m' := m.(pwEnd := m.pwStart + |password|);
      && SearchUrl(out) == Some(m') && m'.pwEnd <= |out| && out[m'.pwStart..m'.pwEnd] == password
      && out[..m'.pwStart] == t[..m.pwStart] && out[m'.pwEnd..] == t[m.pwEnd..]
      && !Unanswered(t, Some(Str(stored)))
  {
    hide IsUrlMatch, AllInClass, FirstMatch;
    MatchIsInside(t, m);
    MatchIsInside(stored, sm);
    var password := stored[sm.pwStart..sm.pwEnd];
    PasswordOfMatch(stored, sm);
    SpliceKeepsLeftmost(t, m, password);
    PlaceholderInside(t, m);
    var out := Spliced(t, m, password);
    assert Resolution(t, Some(Str(stored))) == Some(out);
    assert out[..m.pwStart] == t[..m.pwStart];
    assert out[m.pwStart..m.pwStart + |password|] == password;
    assert out[m.pwStart + |password|..] == t[m.pwEnd..];
  }

  lemma PasswordOfMatch(t: string, m: UrlMatch)
    requires IsUrlMatch(t, m)
    ensures
      var password := t[m.pwStart..m.pwEnd];
      password != "" && AllInClass(password, 0, |password|, PasswordClass)
  {
    hide InClass;
    var password := t[m.pwStart..m.pwEnd];
    assert forall k :: 0 <= k < |password| ==> password[k] == t[m.pwStart + k];
  }

  lemma PlaceholderInside(t: string, m: UrlMatch)
    requires IsUrlMatch(t, m) && t[m.pwStart..m.pwEnd] == PLACEHOLDER
    ensures Contains(t, PLACEHOLDER) && t != PLACEHOLDER
  {
    hide InClass, AllInClass;
    PlaceholderIsPassword();
    assert OccursAt(t, PLACEHOLDER, m.pwStart);
    assert t[m.schemeEnd] == ':';
  }

  /** The restorer's short cut for a section without placeholders changes nothing. */
  lemma {:induction false} PassesThrough(incoming: Value, stored: Option<Value>, path: string, before: seq<string>)
    requires !MentionsPlaceholder(incoming)
    ensures Restored(incoming, stored) == incoming
    ensures UnresolvedPaths(incoming, stored, path, before) == before
    decreases incoming, 1
  {
    match incoming
    case Dict(es) => EntriesPassThrough(incoming, |es|, stored, path, before);
    case List(xs) => ItemsPassThrough(incoming, |xs|, stored, path, before);
    case _ =>
  }

  lemma {:induction false} EntriesPassThrough(
    incoming: Value, n: nat, stored: Option<Value>, path: string, before: seq<string>)
    requires !MentionsPlaceholder(incoming) && incoming.Dict? && n <= |incoming.entries|
    ensures UnresolvedEntries(incoming, n, stored, path, before) == before
    ensures RestoredEntries(incoming, n, stored) == incoming.entries[..n]
    decreases incoming, 0, n
  {
    if n > 0 {
      var e := incoming.entries[n - 1];
      EntriesPassThrough(incoming, n - 1, stored, path, before);
      PassesThrough(e.value, StoredEntry(stored, e.key), ChildPath(path, e.key.text), before);
    }
  }

  lemma {:induction false} ItemsPassThrough(
    incoming: Value, n: nat, stored: Option<Value>, path: string, before: seq<string>)
    requires !MentionsPlaceholder(incoming) && incoming.List? && n <= |incoming.items|
    ensures UnresolvedItems(incoming, n, stored, path, before) == before
    ensures RestoredItems(incoming, n, stored) == incoming.items[..n]
    decreases incoming, 0, n
  {
    hide Restored, UnresolvedPaths;
    if n > 0 {
      ItemsPassThrough(incoming, n - 1, stored, path, before);
      PassesThrough(incoming.items[n - 1], StoredItem(stored, n - 1), ItemPath(path, n - 1), before);
    }
  }

  // ----- What redaction hides -----

  /** A DSN in the text with a password that is neither a reference nor the placeholder */
  predicate HoldsPassword(t: string, m: UrlMatch, tests: Tests) {
    && IsUrlMatch(t, m)
    && t[m.pwStart..m.pwEnd] != PLACEHOLDER && !HasEnvRef(t[m.pwStart..m.pwEnd], tests)
  }

  ghost predicate Exposes(t: string, tests: Tests) {
    exists m :: HoldsPassword(t, m, tests)
  }

  /** Past the first DSN of the text stands another one with a literal password. */
  ghost predicate HasLaterPassword(t: string, tests: Tests) {
    var m := SearchUrl(t);
    m.Some? && Exposes(t[m.value.pwEnd + 1..], tests)
  }

  /** DSNs do not overlap: a match has the password of the leftmost one, or begins after it. */
  lemma MatchesApart(t: string, m: UrlMatch, q: UrlMatch)
    requires SearchUrl(t) == Some(m) && IsUrlMatch(t, q)
    ensures (q.pwStart == m.pwStart && q.pwEnd == m.pwEnd) || q.start > m.pwEnd
  {
    FirstMatchIsLeftmost(t, 0, q);
    if q.start < m.schemeEnd {
      assert q.schemeEnd == m.schemeEnd && q.pwStart == m.pwStart;
    }
  }

  lemma MatchIsInside(t: string, m: UrlMatch)
    requires IsUrlMatch(t, m)
    ensures m.start < m.schemeEnd < m.pwStart < m.pwEnd < |t|
  {
  }

  function Later(q: UrlMatch, n: nat): UrlMatch {
    UrlMatch(q.start + n, q.schemeEnd + n, q.pwStart + n, q.pwEnd + n)
  }

  lemma HeldInTail(t: string, n: nat, q: UrlMatch, tests: Tests)
    requires n <= |t|
    ensures HoldsPassword(t[n..], q, tests) <==> HoldsPassword(t, Later(q, n), tests)
  {
    MatchInTail(t, n, q);
    if IsUrlMatch(t[n..], q) {
      assert t[n..][q.pwStart..q.pwEnd] == t[q.pwStart + n..q.pwEnd + n];
    }
  }

  lemma HeldLater(t: string, n: nat, q: UrlMatch, tests: Tests)
    requires n <= q.start && HoldsPassword(t, q, tests)
    ensures n <= |t| && Exposes(t[n..], tests)
  {
    hide IsUrlMatch, HasEnvRef;
    MatchIsInside(t, q);
    var q' := UrlMatch(q.start - n, q.schemeEnd - n, q.pwStart - n, q.pwEnd - n);
    assert Later(q', n) == q;
    HeldInTail(t, n, q', tests);
  }

  lemma MatchInTail(t: string, n: nat, q: UrlMatch)
    requires n <= |t|
    ensures IsUrlMatch(t[n..], q) <==> IsUrlMatch(t, Later(q, n))
  {
    var tail := t[n..];
    if q.start < q.schemeEnd && q.schemeEnd + 4 <= q.pwStart < q.pwEnd < |tail| {
      assert forall k :: 0 <= k <= q.pwEnd ==> tail[k] == t[k + n];
      ClassInTail(t, n, q.start + 1, q.schemeEnd, SchemeClass);
      ClassInTail(t, n, q.schemeEnd + 3, q.pwStart - 1, UserClass);
      ClassInTail(t, n, q.pwStart, q.pwEnd, PasswordClass);
    }
  }

  lemma ClassInTail(t: string, n: nat, lo: int, hi: int, class_: CharClass)
    requires n <= |t| && 0 <= lo && hi <= |t| - n
    ensures AllInClass(t[n..], lo, hi, class_) <==> AllInClass(t, lo + n, hi + n, class_)
  {
    assert forall k :: lo + n <= k < hi + n ==> t[k] == t[n..][k - n];
  }

  /** Past the leftmost DSN, or in its place, stands every match. */
  lemma ExposesFirstOrLater(t: string, tests: Tests)
    ensures Exposes(t, tests) <==>
      SearchUrl(t).Some? && (HoldsPassword(t, SearchUrl(t).value, tests) || HasLaterPassword(t, tests))
  {
    hide IsUrlMatch, HasEnvRef, FirstMatch;
    if SearchUrl(t).Some? {
      MatchIsInside(t, SearchUrl(t).value);
    }
    if Exposes(t, tests) {
      var q :| HoldsPassword(t, q, tests);
      FirstMatchIsLeftmost(t, 0, q);
      MatchesApart(t, SearchUrl(t).value, q);
      if q.start > SearchUrl(t).value.pwEnd {
        HeldLater(t, SearchUrl(t).value.pwEnd + 1, q, tests);
      }
    }
    if HasLaterPassword(t, tests) {
      var n := SearchUrl(t).value.pwEnd + 1;
      var q :| HoldsPassword(t[n..], q, tests);
      HeldInTail(t, n, q, tests);
    }
  }

  /** A redacted string still holds a literal DSN password exactly when the text as a whole is no
      credential and a second DSN has one: only the first is replaced, and none if that first one
      is a reference. */
  lemma RedactionLeavesPasswordIff(t: string, key: string, tests: Tests)
    ensures Exposes(RedactedString(t, key, tests), tests) <==>
      !IsSecretText(t, key, tests) && HasLaterPassword(t, tests)
  {
    ExposesFirstOrLater(t, tests);
    if IsBlank(t) {
      BlankHasNoMatch(t);
    } else if IsSecretText(t, key, tests) {
      PlaceholderIsPassword();
      ExposesFirstOrLater(PLACEHOLDER, tests);
    } else if HasLiteralPassword(t, tests) {
      SplicedExposesLater(t, SearchUrl(t).value, tests);
    }
  }

  const TWO_DSNS := "a://u:p@b://v:q@"

  /** An example: of two DSNs in one text only the first loses its password. */
  lemma SecondPasswordStays(key: string, tests: Tests)
    requires !tests.isSecretKey(key) && !tests.hasSecretValue(TWO_DSNS)
    ensures Exposes(RedactedString(TWO_DSNS, key, tests), tests)
  {
    hide IsUrlMatch, RedactedString, FirstMatch, HasEnvRef;
    var first := UrlMatch(0, 1, 6, 7);
    FirstOfTwo();
    FirstMatchIsLeftmost(TWO_DSNS, 0, first);
    SecondOfTwo(tests);
    assert Exposes(TWO_DSNS[8..], tests);
    RedactionLeavesPasswordIff(TWO_DSNS, key, tests);
  }

  lemma FirstOfTwo()
    ensures IsUrlMatch(TWO_DSNS, UrlMatch(0, 1, 6, 7))
  {
  }

  lemma SecondOfTwo(tests: Tests)
    ensures HoldsPassword(TWO_DSNS[8..], UrlMatch(0, 1, 6, 7), tests)
  {
    assert TWO_DSNS[8..] == "b://v:q@";
    assert "b://v:q@"[6..7] == "q";
    assert |PLACEHOLDER| > 1;
  }

  lemma BlankHasNoMatch(t: string)
    requires IsBlank(t)
    ensures SearchUrl(t).None?
  {
    var m := SearchUrl(t);
    assert m.Some? ==> !IsSpace(t[m.value.start]);
  }

  lemma SplicedExposesLater(t: string, m: UrlMatch, tests: Tests)
    requires SearchUrl(t) == Some(m)
    ensures Exposes(Spliced(t, m, PLACEHOLDER), tests) <==> HasLaterPassword(t, tests)
  {
    hide IsUrlMatch, HasEnvRef, FirstMatch, Exposes;
    MatchIsInside(t, m);
    var r, m' := Spliced(t, m, PLACEHOLDER), m.(pwEnd := m.pwStart + |PLACEHOLDER|);
    PlaceholderIsPassword();
    SpliceKeepsLeftmost(t, m, PLACEHOLDER);
    ExposesFirstOrLater(r, tests);
    assert r[m'.pwStart..m'.pwEnd] == PLACEHOLDER;
    assert r[m'.pwEnd + 1..] == t[m.pwEnd + 1..];
  }

  // ----- What redaction reports -----

  /** Reports only accumulate, and no new one means an untouched value: redaction never changes a
      leaf silently. */
  lemma {:induction false} UnreportedIsUntouched(v: Value, path: string, key: string, tests: Tests, before: seq<string>)
    ensures |before| <= |RedactedPaths(v, path, key, tests, before)|
    ensures |RedactedPaths(v, path, key, tests, before)| == |before| ==> Redacted(v, key, tests) == v
    decreases v, 1
  {
    match v
    case Dict(es) => UnreportedEntries(v, |es|, path, tests, before);
    case List(xs) => UnreportedItems(v, |xs|, path, key, tests, before);
    case _ =>
  }

  lemma {:induction false} UnreportedEntries(v: Value, n: nat, path: string, tests: Tests, before: seq<string>)
    requires v.Dict? && n <= |v.entries|
    ensures |before| <= |EntryPaths(v, n, path, tests, before)|
    ensures |EntryPaths(v, n, path, tests, before)| == |before| ==> RedactedEntries(v, n, tests) == v.entries[..n]
    decreases v, 0, n
  {
    if n > 0 {
      var e := v.entries[n - 1];
      UnreportedEntries(v, n - 1, path, tests, before);
      UnreportedIsUntouched(e.value, ChildPath(path, e.key.text), e.key.text, tests,
                            EntryPaths(v, n - 1, path, tests, before));
    }
  }

  lemma {:induction false} UnreportedItems(
    v: Value, n: nat, path: string, key: string, tests: Tests, before: seq<string>)
    requires v.List? && n <= |v.items|
    ensures |before| <= |ItemPaths(v, n, path, key, tests, before)|
    ensures |ItemPaths(v, n, path, key, tests, before)| == |before| ==> RedactedItems(v, n, key, tests) == v.items[..n]
    decreases v, 0, n
  {
    hide Redacted, RedactedPaths;
    if n > 0 {
      UnreportedItems(v, n - 1, path, key, tests, before);
      UnreportedIsUntouched(v.items[n - 1], ItemPath(path, n - 1), key, tests,
                            ItemPaths(v, n - 1, path, key, tests, before));
    }
  }

  // ----- What is hidden and reported, string by string -----

  /** A place in a tree, from the root down */
  datatype Place = Root | Child(up: Place, name: string) | Item(up: Place, index: nat)

  /** The dotted path that stands for a place */
  function PathText(place: Place): string {
    match place
    case Root => ""
    case Child(up, name) => ChildPath(PathText(up), name)
    case Item(up, index) => ItemPath(PathText(up), index)
  }

  /** A string of a tree: its place, the key it hangs from and its text */
  datatype Leaf = Leaf(place: Place, key: string, text: string)

  /** The leaves before, then the strings of this value in document order */
  ghost function Leaves(v: Value, place: Place, key: string, before: seq<Leaf>): seq<Leaf>
    decreases v, 1
  {
    match v
    case Dict(es) => EntryLeaves(v, |es|, place, before)
    case List(xs) => ItemLeaves(v, |xs|, place, key, before)
    case Str(t) => before + [Leaf(place, key, t)]
    case Scalar(_) => before
  }

  ghost function EntryLeaves(v: Value, n: nat, place: Place, before: seq<Leaf>): seq<Leaf>
    requires v.Dict? && n <= |v.entries|
    decreases v, 0, n
  {
    if n == 0 then before
    else
      var e := v.entries[n - 1];
      Leaves(e.value, Child(place, e.key.text), e.key.text, EntryLeaves(v, n - 1, place, before))
  }

  /** List items inherit the key of their list. */
  ghost function ItemLeaves(v: Value, n: nat, place: Place, key: string, before: seq<Leaf>): seq<Leaf>
    requires v.List? && n <= |v.items|
    decreases v, 0, n
  {
    if n == 0 then before
    else Leaves(v.items[n - 1], Item(place, n - 1), key, ItemLeaves(v, n - 1, place, key, before))
  }

  /** The two trees differ at most in the texts of their strings. */
  ghost predicate SameFrame(v: Value, out: Value) {
    match v
    case Dict(es) =>
      && out.Dict? && |out.entries| == |es|
      && forall i :: 0 <= i < |es| ==> out.entries[i].key == es[i].key && SameFrame(es[i].value, out.entries[i].value)
    case List(xs) =>
      out.List? && |out.items| == |xs| && forall i :: 0 <= i < |xs| ==> SameFrame(xs[i], out.items[i])
    case Str(_) => out.Str?
    case Scalar(_) => out == v
  }

  /** No DSN of the text begins before this one. */
  ghost predicate IsLeftmost(t: string, m: UrlMatch) {
    IsUrlMatch(t, m) && forall q :: IsUrlMatch(t, q) ==> m.start <= q.start
  }

  lemma SearchIsLeftmost(t: string, m: UrlMatch)
    ensures SearchUrl(t) == Some(m) <==> IsLeftmost(t, m)
  {
    hide IsUrlMatch, FirstMatch;
    if SearchUrl(t) == Some(m) {
      forall q | IsUrlMatch(t, q) ensures m.start <= q.start {
        FirstMatchIsLeftmost(t, 0, q);
      }
    }
    if IsLeftmost(t, m) {
      FirstMatchIsLeftmost(t, 0, m);
    }
  }

  /** The string is a credential as a whole. */
  ghost predicate IsCredential(leaf: Leaf, tests: Tests) {
    && (exists i :: 0 <= i < |leaf.text| && !IsSpace(leaf.text[i]))
    && (tests.hasSecretValue(leaf.text) || (tests.isSecretKey(leaf.key) && !HasEnvRef(leaf.text, tests)))
  }

  /** The password of its leftmost DSN is written out, and m is where. */
  ghost predicate WritesPassword(leaf: Leaf, m: UrlMatch, tests: Tests) {
    IsLeftmost(leaf.text, m) && !HasEnvRef(leaf.text[m.pwStart..m.pwEnd], tests)
  }

  ghost predicate HoldsLiteral(leaf: Leaf, tests: Tests) {
    IsCredential(leaf, tests) || exists m :: WritesPassword(leaf, m, tests)
  }

  /** A credential becomes the placeholder, a DSN keeps all but its password, anything else stays. */
  ghost predicate IsHidden(leaf: Leaf, out: Leaf, tests: Tests) {
    && out.place == leaf.place && out.key == leaf.key
    && (IsCredential(leaf, tests) ==> out.text == PLACEHOLDER)
    && (forall m :: !IsCredential(leaf, tests) && WritesPassword(leaf, m, tests) ==>
          out.text == leaf.text[..m.pwStart] + PLACEHOLDER + leaf.text[m.pwEnd..])
    && (!HoldsLiteral(leaf, tests) ==> out.text == leaf.text)
  }

  ghost predicate AllHidden(leaves: seq<Leaf>, out: seq<Leaf>, tests: Tests) {
    |out| == |leaves| && forall i :: 0 <= i < |leaves| ==> IsHidden(leaves[i], out[i], tests)
  }

  /** The paths of the leaves that hold a literal, in their order */
  ghost function LiteralPaths(leaves: seq<Leaf>, tests: Tests): seq<string> {
    if leaves == [] then []
    else
      var last := leaves[|leaves| - 1];
      LiteralPaths(leaves[..|leaves| - 1], tests) + (if HoldsLiteral(last, tests) then [PathText(last.place)] else [])
  }

  lemma LiteralIffRedacts(leaf: Leaf, tests: Tests)
    ensures IsCredential(leaf, tests) <==> !IsBlank(leaf.text) && IsSecretText(leaf.text, leaf.key, tests)
    ensures HoldsLiteral(leaf, tests) <==> Redacts(leaf.text, leaf.key, tests)
    ensures forall m :: WritesPassword(leaf, m, tests) <==>
      SearchUrl(leaf.text) == Some(m) && !HasEnvRef(leaf.text[m.pwStart..m.pwEnd], tests)
  {
    hide IsUrlMatch, FirstMatch, HasEnvRef, IsSpace;
    forall m ensures SearchUrl(leaf.text) == Some(m) <==> IsLeftmost(leaf.text, m) {
      SearchIsLeftmost(leaf.text, m);
    }
    forall m | IsUrlMatch(leaf.text, m) ensures m.pwStart <= m.pwEnd <= |leaf.text| {
      MatchIsInside(leaf.text, m);
    }
    if IsBlank(leaf.text) {
      BlankHasNoMatch(leaf.text);
    }
    assert HasLiteralPassword(leaf.text, tests) ==> WritesPassword(leaf, SearchUrl(leaf.text).value, tests);
  }

  /** One string: what its redaction looks like, and when its path is reported */
  lemma LeafIsHidden(leaf: Leaf, tests: Tests)
    ensures IsHidden(leaf, leaf.(text := RedactedString(leaf.text, leaf.key, tests)), tests)
  {
    hide IsCredential, WritesPassword, FirstMatch, IsUrlMatch, HasEnvRef, IsSecretText, IsBlank;
    LiteralIffRedacts(leaf, tests);
  }

  lemma {:induction false} LeavesAreHidden(
    v: Value, place: Place, key: string, tests: Tests, before: seq<Leaf>, out: seq<Leaf>)
    requires AllHidden(before, out, tests)
    ensures AllHidden(Leaves(v, place, key, before), Leaves(Redacted(v, key, tests), place, key, out), tests)
    decreases v, 1
  {
    hide IsHidden, RedactedString;
    match v
    case Dict(es) => EntryLeavesAreHidden(v, |es|, place, key, tests, before, out);
    case List(xs) => ItemLeavesAreHidden(v, |xs|, place, key, tests, before, out);
    case Str(t) => LeafIsHidden(Leaf(place, key, t), tests);
    case Scalar(_) =>
  }

  lemma {:induction false} EntryLeavesAreHidden(
    v: Value, n: nat, place: Place, key: string, tests: Tests, before: seq<Leaf>, out: seq<Leaf>)
    requires v.Dict? && n <= |v.entries| && AllHidden(before, out, tests)
    ensures AllHidden(EntryLeaves(v, n, place, before), EntryLeaves(Redacted(v, key, tests), n, place, out), tests)
    decreases v, 0, n
  {
    hide AllHidden, Leaves;
    if n > 0 {
      var e := v.entries[n - 1];
      RedactedEntryAt(v, |v.entries|, n - 1, tests);
      EntryLeavesAreHidden(v, n - 1, place, key, tests, before, out);
      LeavesAreHidden(e.value, Child(place, e.key.text), e.key.text, tests, EntryLeaves(v, n - 1, place, before),
                      EntryLeaves(Redacted(v, key, tests), n - 1, place, out));
    }
  }

  lemma {:induction false} ItemLeavesAreHidden(
    v: Value, n: nat, place: Place, key: string, tests: Tests, before: seq<Leaf>, out: seq<Leaf>)
    requires v.List? && n <= |v.items| && AllHidden(before, out, tests)
    ensures
      AllHidden(ItemLeaves(v, n, place, key, before), ItemLeaves(Redacted(v, key, tests), n, place, key, out), tests)
    decreases v, 0, n
  {
    hide AllHidden, Leaves;
    if n > 0 {
      RedactedItemAt(v, |v.items|, n - 1, key, tests);
      ItemLeavesAreHidden(v, n - 1, place, key, tests, before, out);
      LeavesAreHidden(v.items[n - 1], Item(place, n - 1), key, tests, ItemLeaves(v, n - 1, place, key, before),
                      ItemLeaves(Redacted(v, key, tests), n - 1, place, key, out));
    }
  }

  /** Reported are the paths of exactly the strings that hold a literal, in document order. */
  lemma {:induction false} LiteralsAreReported(v: Value, place: Place, key: string, tests: Tests, before: seq<Leaf>)
    ensures RedactedPaths(v, PathText(place), key, tests, LiteralPaths(before, tests))
         == LiteralPaths(Leaves(v, place, key, before), tests)
    decreases v, 1
  {
    hide HoldsLiteral, Redacts;
    match v
    case Dict(es) => EntryLiteralsAreReported(v, |es|, place, tests, before);
    case List(xs) => ItemLiteralsAreReported(v, |xs|, place, key, tests, before);
    case Str(t) => LiteralIffRedacts(Leaf(place, key, t), tests);
    case Scalar(_) =>
  }

  lemma {:induction false} EntryLiteralsAreReported(v: Value, n: nat, place: Place, tests: Tests, before: seq<Leaf>)
    requires v.Dict? && n <= |v.entries|
    ensures EntryPaths(v, n, PathText(place), tests, LiteralPaths(before, tests))
         == LiteralPaths(EntryLeaves(v, n, place, before), tests)
    decreases v, 0, n
  {
    hide LiteralPaths, RedactedPaths, Leaves;
    if n > 0 {
      var e := v.entries[n - 1];
      EntryLiteralsAreReported(v, n - 1, place, tests, before);
      LiteralsAreReported(e.value, Child(place, e.key.text), e.key.text, tests, EntryLeaves(v, n - 1, place, before));
    }
  }

  lemma {:induction false} ItemLiteralsAreReported(
    v: Value, n: nat, place: Place, key: string, tests: Tests, before: seq<Leaf>)
    requires v.List? && n <= |v.items|
    ensures ItemPaths(v, n, PathText(place), key, tests, LiteralPaths(before, tests))
         == LiteralPaths(ItemLeaves(v, n, place, key, before), tests)
    decreases v, 0, n
  {
    hide LiteralPaths, RedactedPaths, Leaves;
    if n > 0 {
      ItemLiteralsAreReported(v, n - 1, place, key, tests, before);
      LiteralsAreReported(v.items[n - 1], Item(place, n - 1), key, tests, ItemLeaves(v, n - 1, place, key, before));
    }
  }

  lemma {:induction false} FrameIsKept(v: Value, key: string, tests: Tests)
    ensures SameFrame(v, Redacted(v, key, tests))
    decreases v
  {
    hide RedactedString;
    match v
    case Dict(es) =>
      forall i | 0 <= i < |es| ensures RedactedEntries(v, |es|, tests)[i] == RedactedEntry(es[i], tests) {
        RedactedEntryAt(v, |es|, i, tests);
      }
      forall i | 0 <= i < |es| ensures SameFrame(es[i].value, Redacted(es[i].value, es[i].key.text, tests)) {
        FrameIsKept(es[i].value, es[i].key.text, tests);
      }
    case List(xs) =>
      forall i | 0 <= i < |xs| ensures RedactedItems(v, |xs|, key, tests)[i] == Redacted(xs[i], key, tests) {
        RedactedItemAt(v, |xs|, i, key, tests);
      }
      forall i | 0 <= i < |xs| ensures SameFrame(xs[i], Redacted(xs[i], key, tests)) {
        FrameIsKept(xs[i], key, tests);
      }
    case _ =>
  }

  /** In a document: every credential is hidden and reported, whatever key or list it stands in, and
      nothing else is touched or reported. */
  lemma RedactionHidesLiterals(raw: Value, tests: Tests)
    ensures SameFrame(raw, Redacted(raw, "", tests))
    ensures AllHidden(Leaves(raw, Root, "", []), Leaves(Redacted(raw, "", tests), Root, "", []), tests)
    ensures RedactedPaths(raw, "", "", tests, []) == LiteralPaths(Leaves(raw, Root, "", []), tests)
  {
    hide SameFrame, Redacted, Leaves, IsHidden, RedactedPaths;
    FrameIsKept(raw, "", tests);
    LeavesAreHidden(raw, Root, "", tests, [], []);
    assert LiteralPaths([], tests) == [];
    LiteralsAreReported(raw, Root, "", tests, []);
  }

  // ----- What is restored and what is refused, string by string -----

  /** A string that a client sent, and what is stored at its place */
  datatype Site = Site(place: Place, text: string, stored: Option<Value>)

  /** The sites before, then those of this value in document order */
  ghost function Sites(incoming: Value, stored: Option<Value>, place: Place, before: seq<Site>): seq<Site>
    decreases incoming, 1
  {
    match incoming
    case Dict(es) => EntrySites(incoming, |es|, stored, place, before)
    case List(xs) => ItemSites(incoming, |xs|, stored, place, before)
    case Str(t) => before + [Site(place, t, stored)]
    case Scalar(_) => before
  }

  ghost function EntrySites(
    incoming: Value, n: nat, stored: Option<Value>, place: Place, before: seq<Site>): seq<Site>
    requires incoming.Dict? && n <= |incoming.entries|
    decreases incoming, 0, n
  {
    if n == 0 then before
    else
      var e := incoming.entries[n - 1];
      Sites(e.value, StoredEntry(stored, e.key), Child(place, e.key.text),
            EntrySites(incoming, n - 1, stored, place, before))
  }

  ghost function ItemSites(
    incoming: Value, n: nat, stored: Option<Value>, place: Place, before: seq<Site>): seq<Site>
    requires incoming.List? && n <= |incoming.items|
    decreases incoming, 0, n
  {
    if n == 0 then before
    else
      Sites(incoming.items[n - 1], StoredItem(stored, n - 1), Item(place, n - 1),
            ItemSites(incoming, n - 1, stored, place, before))
  }

  /** The bare placeholder stands for the whole stored text. */
  ghost predicate AnswersWhole(site: Site, answer: string) {
    site.text == PLACEHOLDER && answer != "" && site.stored == Some(Str(answer))
  }

  /** A placeholder as the password of the leftmost DSN at m stands for the password of the leftmost
      stored DSN at sm. */
  ghost predicate AnswersPassword(site: Site, m: UrlMatch, stored: string, sm: UrlMatch) {
    && site.text != PLACEHOLDER && site.stored == Some(Str(stored))
    && IsLeftmost(site.text, m) && site.text[m.pwStart..m.pwEnd] == PLACEHOLDER && IsLeftmost(stored, sm)
  }

  ghost predicate IsAnswered(site: Site) {
    || (exists answer :: AnswersWhole(site, answer))
    || (exists m, stored, sm :: AnswersPassword(site, m, stored, sm))
  }

  /** The string is answered from what is stored, or else stays as the client sent it. */
  ghost predicate IsRestored(site: Site, out: string) {
    && (forall answer :: AnswersWhole(site, answer) ==> out == answer)
    && (forall m, stored, sm :: AnswersPassword(site, m, stored, sm) ==>
          out == site.text[..m.pwStart] + stored[sm.pwStart..sm.pwEnd] + site.text[m.pwEnd..])
    && (!IsAnswered(site) ==> out == site.text)
  }

  ghost predicate AllRestored(sites: seq<Site>, out: seq<Leaf>) {
    && |out| == |sites|
    && forall i :: 0 <= i < |sites| ==> out[i].place == sites[i].place && IsRestored(sites[i], out[i].text)
  }

  /** The paths of the strings with a placeholder that nothing answers, in their order */
  ghost function RefusedPaths(sites: seq<Site>): seq<string> {
    if sites == [] then []
    else
      var last := sites[|sites| - 1];
      RefusedPaths(sites[..|sites| - 1])
      + (if Contains(last.text, PLACEHOLDER) && !IsAnswered(last) then [PathText(last.place)] else [])
  }

  lemma AnsweredHasPlaceholder(site: Site)
    requires IsAnswered(site)
    ensures Contains(site.text, PLACEHOLDER)
  {
    hide IsUrlMatch, FirstMatch;
    if site.text == PLACEHOLDER {
      PlaceholderIsPassword();
    } else {
      var m, stored, sm :| AnswersPassword(site, m, stored, sm);
      PlaceholderInside(site.text, m);
    }
  }

  /** One string: what it is restored to, and when its path is reported */
  lemma SiteIsRestored(site: Site)
    ensures IsRestored(site, RestoredString(site.text, site.stored))
    ensures IsAnswered(site) <==> Resolution(site.text, site.stored).Some?
    ensures Unanswered(site.text, site.stored) <==> Contains(site.text, PLACEHOLDER) && !IsAnswered(site)
  {
    hide IsUrlMatch, FirstMatch, Contains;
    if site.stored.Some? && site.stored.value.Str? {
      AnswerIsResolution(site, site.stored.value.text);
    }
    if IsAnswered(site) {
      AnsweredHasPlaceholder(site);
    }
  }

  lemma AnswerIsResolution(site: Site, stored: string)
    requires site.stored == Some(Str(stored))
    ensures IsAnswered(site) <==> Resolution(site.text, site.stored).Some?
    ensures forall answer :: AnswersWhole(site, answer) ==> Resolution(site.text, site.stored) == Some(answer)
    ensures forall m, s, sm :: AnswersPassword(site, m, s, sm) ==>
      Resolution(site.text, site.stored)
      == Some(site.text[..m.pwStart] + s[sm.pwStart..sm.pwEnd] + site.text[m.pwEnd..])
  {
    hide IsUrlMatch, FirstMatch, Contains, IsLeftmost;
    forall m ensures SearchUrl(site.text) == Some(m) <==> IsLeftmost(site.text, m) {
      SearchIsLeftmost(site.text, m);
    }
    forall m ensures SearchUrl(stored) == Some(m) <==> IsLeftmost(stored, m) {
      SearchIsLeftmost(stored, m);
    }
    var r, m, sm := Resolution(site.text, site.stored), SearchUrl(site.text), SearchUrl(stored);
    if r.Some? {
      if site.text == PLACEHOLDER {
        assert AnswersWhole(site, stored);
      } else {
        assert AnswersPassword(site, m.value, stored, sm.value);
      }
    }
  }

  /** Every string of a section comes back answered or as it was sent. */
  lemma {:induction false} SitesAreRestored(
    incoming: Value, stored: Option<Value>, place: Place, key: string, before: seq<Site>, out: seq<Leaf>)
    requires AllRestored(before, out)
    ensures AllRestored(Sites(incoming, stored, place, before), Leaves(Restored(incoming, stored), place, key, out))
    decreases incoming, 1
  {
    hide IsRestored, RestoredString;
    match incoming
    case Dict(es) => EntrySitesAreRestored(incoming, |es|, stored, place, before, out);
    case List(xs) => ItemSitesAreRestored(incoming, |xs|, stored, place, key, before, out);
    case Str(t) => SiteIsRestored(Site(place, t, stored));
    case Scalar(_) =>
  }

  lemma {:induction false} RestoredEntryAt(incoming: Value, n: nat, i: nat, stored: Option<Value>)
    requires incoming.Dict? && i < n <= |incoming.entries|
    ensures
      var e := incoming.entries[i];
      RestoredEntries(incoming, n, stored)[i] == Entry(e.key, Restored(e.value, StoredEntry(stored, e.key)))
    decreases n
  {
    if i < n - 1 { RestoredEntryAt(incoming, n - 1, i, stored); }
  }

  lemma {:induction false} RestoredItemAt(incoming: Value, n: nat, i: nat, stored: Option<Value>)
    requires incoming.List? && i < n <= |incoming.items|
    ensures RestoredItems(incoming, n, stored)[i] == Restored(incoming.items[i], StoredItem(stored, i))
    decreases n
  {
    if i < n - 1 { RestoredItemAt(incoming, n - 1, i, stored); }
  }

  lemma {:induction false} EntrySitesAreRestored(
    incoming: Value, n: nat, stored: Option<Value>, place: Place, before: seq<Site>, out: seq<Leaf>)
    requires incoming.Dict? && n <= |incoming.entries| && AllRestored(before, out)
    ensures AllRestored(EntrySites(incoming, n, stored, place, before),
                        EntryLeaves(Restored(incoming, stored), n, place, out))
    decreases incoming, 0, n
  {
    hide AllRestored, Leaves, Sites;
    if n > 0 {
      var e := incoming.entries[n - 1];
      RestoredEntryAt(incoming, |incoming.entries|, n - 1, stored);
      EntrySitesAreRestored(incoming, n - 1, stored, place, before, out);
      SitesAreRestored(e.value, StoredEntry(stored, e.key), Child(place, e.key.text), e.key.text,
                       EntrySites(incoming, n - 1, stored, place, before),
                       EntryLeaves(Restored(incoming, stored), n - 1, place, out));
    }
  }

  lemma {:induction false} ItemSitesAreRestored(
    incoming: Value, n: nat, stored: Option<Value>, place: Place, key: string, before: seq<Site>, out: seq<Leaf>)
    requires incoming.List? && n <= |incoming.items| && AllRestored(before, out)
    ensures AllRestored(ItemSites(incoming, n, stored, place, before),
                        ItemLeaves(Restored(incoming, stored), n, place, key, out))
    decreases incoming, 0, n
  {
    hide AllRestored, Leaves, Sites;
    if n > 0 {
      RestoredItemAt(incoming, |incoming.items|, n - 1, stored);
      ItemSitesAreRestored(incoming, n - 1, stored, place, key, before, out);
      SitesAreRestored(incoming.items[n - 1], StoredItem(stored, n - 1), Item(place, n - 1), key,
                       ItemSites(incoming, n - 1, stored, place, before),
                       ItemLeaves(Restored(incoming, stored), n - 1, place, key, out));
    }
  }

  /** Reported are the paths of exactly the placeholders that nothing answers, in document order. */
  lemma {:induction false} RefusalsAreReported(
    incoming: Value, stored: Option<Value>, place: Place, before: seq<Site>)
    ensures UnresolvedPaths(incoming, stored, PathText(place), RefusedPaths(before))
         == RefusedPaths(Sites(incoming, stored, place, before))
    decreases incoming, 1
  {
    hide IsAnswered, Unanswered, Contains;
    match incoming
    case Dict(es) => EntryRefusalsAreReported(incoming, |es|, stored, place, before);
    case List(xs) => ItemRefusalsAreReported(incoming, |xs|, stored, place, before);
    case Str(t) => SiteIsRestored(Site(place, t, stored));
    case Scalar(_) =>
  }

  lemma {:induction false} EntryRefusalsAreReported(
    incoming: Value, n: nat, stored: Option<Value>, place: Place, before: seq<Site>)
    requires incoming.Dict? && n <= |incoming.entries|
    ensures UnresolvedEntries(incoming, n, stored, PathText(place), RefusedPaths(before))
         == RefusedPaths(EntrySites(incoming, n, stored, place, before))
    decreases incoming, 0, n
  {
    hide RefusedPaths, UnresolvedPaths, Sites;
    if n > 0 {
      var e := incoming.entries[n - 1];
      EntryRefusalsAreReported(incoming, n - 1, stored, place, before);
      RefusalsAreReported(e.value, StoredEntry(stored, e.key), Child(place, e.key.text),
                          EntrySites(incoming, n - 1, stored, place, before));
    }
  }

  lemma {:induction false} ItemRefusalsAreReported(
    incoming: Value, n: nat, stored: Option<Value>, place: Place, before: seq<Site>)
    requires incoming.List? && n <= |incoming.items|
    ensures UnresolvedItems(incoming, n, stored, PathText(place), RefusedPaths(before))
         == RefusedPaths(ItemSites(incoming, n, stored, place, before))
    decreases incoming, 0, n
  {
    hide RefusedPaths, UnresolvedPaths, Sites;
    if n > 0 {
      ItemRefusalsAreReported(incoming, n - 1, stored, place, before);
      RefusalsAreReported(incoming.items[n - 1], StoredItem(stored, n - 1), Item(place, n - 1),
                          ItemSites(incoming, n - 1, stored, place, before));
    }
  }

  /** With nothing stored, reports only accumulate, and there is a new one exactly when the section
      has a placeholder in it. */
  lemma {:induction false} NothingStored(incoming: Value, path: string, before: seq<string>)
    ensures |before| <= |UnresolvedPaths(incoming, None, path, before)|
    ensures |UnresolvedPaths(incoming, None, path, before)| == |before| <==> !MentionsPlaceholder(incoming)
    decreases incoming, 1
  {
    match incoming
    case Dict(es) => NoEntryStored(incoming, |es|, path, before);
    case List(xs) => NoItemStored(incoming, |xs|, path, before);
    case _ =>
  }

  lemma {:induction false} NoEntryStored(incoming: Value, n: nat, path: string, before: seq<string>)
    requires incoming.Dict? && n <= |incoming.entries|
    ensures |before| <= |UnresolvedEntries(incoming, n, None, path, before)|
    ensures |UnresolvedEntries(incoming, n, None, path, before)| == |before| <==>
      forall i :: 0 <= i < n ==> !MentionsPlaceholder(incoming.entries[i].value)
    decreases incoming, 0, n
  {
    hide MentionsPlaceholder, UnresolvedPaths;
    if n > 0 {
      var e := incoming.entries[n - 1];
      NoEntryStored(incoming, n - 1, path, before);
      NothingStored(e.value, ChildPath(path, e.key.text), UnresolvedEntries(incoming, n - 1, None, path, before));
    }
  }

  lemma {:induction false} NoItemStored(incoming: Value, n: nat, path: string, before: seq<string>)
    requires incoming.List? && n <= |incoming.items|
    ensures |before| <= |UnresolvedItems(incoming, n, None, path, before)|
    ensures |UnresolvedItems(incoming, n, None, path, before)| == |before| <==>
      forall i :: 0 <= i < n ==> !MentionsPlaceholder(incoming.items[i])
    decreases incoming, 0, n
  {
    hide MentionsPlaceholder, UnresolvedPaths;
    if n > 0 {
      NoItemStored(incoming, n - 1, path, before);
      NothingStored(incoming.items[n - 1], ItemPath(path, n - 1),
                    UnresolvedItems(incoming, n - 1, None, path, before));
    }
  }

  lemma {:induction false} RestoredFrame(incoming: Value, stored: Option<Value>)
    ensures SameFrame(incoming, Restored(incoming, stored))
    decreases incoming
  {
    hide RestoredString;
    match incoming
    case Dict(es) =>
      forall i | 0 <= i < |es|
        ensures RestoredEntries(incoming, |es|, stored)[i]
             == Entry(es[i].key, Restored(es[i].value, StoredEntry(stored, es[i].key)))
      {
        RestoredEntryAt(incoming, |es|, i, stored);
      }
      forall i | 0 <= i < |es| ensures SameFrame(es[i].value, Restored(es[i].value, StoredEntry(stored, es[i].key))) {
        RestoredFrame(es[i].value, StoredEntry(stored, es[i].key));
      }
    case List(xs) =>
      forall i | 0 <= i < |xs|
        ensures RestoredItems(incoming, |xs|, stored)[i] == Restored(xs[i], StoredItem(stored, i))
      {
        RestoredItemAt(incoming, |xs|, i, stored);
      }
      forall i | 0 <= i < |xs| ensures SameFrame(xs[i], Restored(xs[i], StoredItem(stored, i))) {
        RestoredFrame(xs[i], StoredItem(stored, i));
      }
    case _ =>
  }

  /** In a section: every placeholder is answered from the same place in the stored tree or reported,
      and nothing else is touched or reported. With nothing stored, a section passes exactly when it
      has no placeholder in it. */
  lemma RestorationAnswersOrRefuses(incoming: Value, stored: Option<Value>)
    ensures SameFrame(incoming, Restored(incoming, stored))
    ensures AllRestored(Sites(incoming, stored, Root, []), Leaves(Restored(incoming, stored), Root, "", []))
    ensures UnresolvedPaths(incoming, stored, "", []) == RefusedPaths(Sites(incoming, stored, Root, []))
    ensures stored.None? ==> (UnresolvedPaths(incoming, stored, "", []) == [] <==> !MentionsPlaceholder(incoming))
  {
    hide SameFrame, Restored, Leaves, Sites, IsRestored, UnresolvedPaths, MentionsPlaceholder;
    RestoredFrame(incoming, stored);
    SitesAreRestored(incoming, stored, Root, "", [], []);
    assert RefusedPaths([]) == [];
    RefusalsAreReported(incoming, stored, Root, []);
    NothingStored(incoming, "", []);
  }

  /** Nothing stored can answer the text. */
  predicate NothingAnswers(t: string, stored: Option<Value>) {
    || stored.None? || !stored.value.Str?
    || (t == PLACEHOLDER && stored.value.text == "")
    || (t != PLACEHOLDER
        && (SearchUrl(t).None? || t[SearchUrl(t).value.pwStart..SearchUrl(t).value.pwEnd] != PLACEHOLDER
            || SearchUrl(stored.value.text).None?))
  }

  /** A string with a placeholder is reported exactly when nothing answers it, and then stays as sent. */
  lemma RefusedIffNothingAnswers(t: string, stored: Option<Value>, path: string, before: seq<string>)
    requires Contains(t, PLACEHOLDER)
    ensures UnresolvedPaths(Str(t), stored, path, before)
         == if NothingAnswers(t, stored) then before + [path] else before
    ensures NothingAnswers(t, stored) ==> Restored(Str(t), stored) == Str(t)
    ensures !NothingAnswers(t, stored) && t == PLACEHOLDER ==> Restored(Str(t), stored) == stored.value
  {
    hide FirstMatch, Contains, IsUrlMatch;
  }

  // ----- What a reported path means -----

  /** A key name that the dotted notation can carry */
  predicate IsPlain(name: string) {
    name != "" && '.' !in name && '[' !in name && ']' !in name
  }

  predicate PlainNames(place: Place) {
    match place
    case Root => true
    case Child(up, name) => IsPlain(name) && PlainNames(up)
    case Item(up, _) => PlainNames(up)
  }

  lemma {:induction false} DigitsArePlain(n: nat)
    ensures IsPlain(Digits(n)) && (|Digits(n)| == 1 <==> n < 10)
    decreases n
  {
    if n >= 10 { DigitsArePlain(n / 10); }
  }

  lemma LastDigit(n: nat)
    ensures
      var d := Digits(n);
      && d[|d| - 1] as int == '0' as int + n % 10
      && d[..|d| - 1] == if n < 10 then "" else Digits(n / 10)
  {
    var digit := "0123456789"[n % 10];
    assert digit as int == '0' as int + n % 10;
    assert Digits(n) == (if n < 10 then "" else Digits(n / 10)) + [digit];
  }

  lemma {:induction false} DigitsAreInjective(m: nat, n: nat)
    requires Digits(m) == Digits(n)
    ensures m == n
    decreases m
  {
    hide Digits, IsPlain;
    DigitsArePlain(m);
    DigitsArePlain(n);
    LastDigit(m);
    LastDigit(n);
    if m >= 10 { DigitsAreInjective(m / 10, n / 10); }
  }

  /** Two texts cut at their last separator are the same only if their parts are. */
  lemma CutIsUnique(a: string, b: string, separator: char, s: string, t: string)
    requires a + [separator] + s == b + [separator] + t && separator !in s && separator !in t
    ensures a == b && s == t
  {
    var whole, whole' := a + [separator] + s, b + [separator] + t;
    assert forall k :: |a| < k < |whole| ==> whole[k] == s[k - |a| - 1];
    assert forall k :: |b| < k < |whole'| ==> whole'[k] == t[k - |b| - 1];
    assert whole[|a|] == separator && whole'[|b|] == separator;
    assert a == whole[..|a|] && b == whole[..|b|];
    assert s == whole[|a| + 1..] && t == whole[|b| + 1..];
  }

  lemma PathEnd(place: Place)
    requires PlainNames(place)
    ensures place.Root? <==> PathText(place) == ""
    ensures place.Item? <==> PathText(place) != "" && PathText(place)[|PathText(place)| - 1] == ']'
    ensures place.Child? ==> (place.up.Root? <==> '.' !in PathText(place))
  {
    if place.Child? {
      assert PathText(place)[|PathText(place)| - 1] == place.name[|place.name| - 1];
      if !place.up.Root? {
        PathEnd(place.up);
        assert PathText(place)[|PathText(place.up)|] == '.';
      }
    }
  }

  /** A reported path stands for one place, as long as no key name has a dot or a bracket in it. */
  lemma {:induction false} PathIsInjective(p: Place, q: Place)
    requires PlainNames(p) && PlainNames(q) && PathText(p) == PathText(q)
    ensures p == q
    decreases p
  {
    PathEnd(p);
    PathEnd(q);
    if p.Item? {
      ItemIsInjective(p, q);
      PathIsInjective(p.up, q.up);
    } else if p.Child? && !p.up.Root? {
      PathEnd(p.up);
      PathEnd(q.up);
      CutIsUnique(PathText(p.up), PathText(q.up), '.', p.name, q.name);
      PathIsInjective(p.up, q.up);
    }
  }

  lemma ItemText(p: Place)
    requires p.Item?
    ensures
      var s := Digits(p.index) + "]";
      PathText(p) == PathText(p.up) + ['['] + s && '[' !in s && s[..|s| - 1] == Digits(p.index)
  {
    hide Digits;
    DigitsArePlain(p.index);
  }

  lemma ItemIsInjective(p: Place, q: Place)
    requires p.Item? && q.Item? && PathText(p) == PathText(q)
    ensures PathText(p.up) == PathText(q.up) && p.index == q.index
  {
    hide Digits, PathText;
    ItemText(p);
    ItemText(q);
    CutIsUnique(PathText(p.up), PathText(q.up), '[', Digits(p.index) + "]", Digits(q.index) + "]");
    DigitsAreInjective(p.index, q.index);
  }

  /** The notation by example */
  lemma PathOfListItem()
    ensures PathText(Child(Item(Child(Child(Root, "llm"), "providers"), 0), "api_key")) == "llm.providers[0].api_key"
  {
    var providers := Child(Child(Root, "llm"), "providers");
    var item := Item(providers, 0);
    assert Digits(0) == "0";
    assert PathText(Child(Root, "llm")) == "llm";
    assert PathText(providers) == "llm.providers";
    assert PathText(item) == "llm.providers[0]";
  }
}
