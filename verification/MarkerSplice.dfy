/**
 The generated half of each command page lives between two markers.  Splicing replaces it and keeps
 the rest; writing the section brings every page up to date, and checking compares without writing.
 */
module MarkerSplice {
  import opened Options

  const START := "<!-- aq:generated:start -->"
  const END := "<!-- aq:generated:end -->"

  // ----- str.find -----

  predicate OccursAt(s: string, pattern: string, i: int) {
    0 <= i && i + |pattern| <= |s| && s[i..i + |pattern|] == pattern
  }

  function FindFrom(s: string, pattern: string, i: nat): (r: int)
    requires i <= |s|
    ensures r == -1 || (i <= r && OccursAt(s, pattern, r))
    ensures forall j :: i <= j && (r == -1 || j < r) ==> !OccursAt(s, pattern, j)
    decreases |s| - i
  {
    if i + |pattern| > |s| then -1
    else if s[i..i + |pattern|] == pattern then i
    else if i == |s| then -1
    else FindFrom(s, pattern, i + 1)
  }

  /** The first occurrence, or -1 */
  function Find(s: string, pattern: string): int {
    FindFrom(s, pattern, 0)
  }

  lemma FindIs(s: string, pattern: string, k: nat)
    requires OccursAt(s, pattern, k) && forall j :: 0 <= j < k ==> !OccursAt(s, pattern, j)
    ensures Find(s, pattern) == k
  {
    var r := Find(s, pattern);
    assert r != -1 && !(r < k) && !(k < r);
  }

  /** An occurrence inside a common part occurs in both texts. */
  lemma OccursInPart(s: string, t: string, pattern: string, i: int, j: int, from: nat, to: nat, shift: int)
    requires from <= i && i + |pattern| <= to <= |s| && j == i + shift && 0 <= from + shift && to + shift <= |t|
    requires s[from..to] == t[from + shift..to + shift]
    ensures OccursAt(s, pattern, i) <==> OccursAt(t, pattern, j)
  {
    SliceOfSlice(s, from, to, i, i + |pattern|);
    SliceOfSlice(t, from + shift, to + shift, j, j + |pattern|);
  }

  lemma SliceOfSlice(s: string, from: int, to: int, low: int, high: int)
    requires 0 <= from <= low <= high <= to <= |s|
    ensures s[low..high] == s[from..to][low - from..high - from]
  {
    var part := s[from..to];
    forall k | 0 <= k < high - low ensures s[low..high][k] == part[low - from..high - from][k] {
      assert s[low..high][k] == s[low + k] == part[low - from + k];
    }
  }

  // ----- Splicing -----

  /** None is a MarkerError. */
  function Splice(existing: string, block: string): Option<string> {
    var start := Find(existing, START);
    var end := Find(existing, END);
    if start < 0 || end < start then None
    else
      assert OccursAt(existing, END, end);
      Some(existing[..start] + block + existing[end + |END|..])
  }

  /** A text with markers in order: what stands before START, between, and after END */
  datatype Parts = Parts(before: string, between: string, after: string)

  function PartsOf(text: string): Option<Parts> {
    var start := Find(text, START);
    var end := Find(text, END);
    if start < 0 || end < start then None
    else
      assert OccursAt(text, END, end);
      Some(Parts(text[..start], text[start..end + |END|], text[end + |END|..]))
  }

  ghost predicate FirstAt(s: string, pattern: string, i: int) {
    OccursAt(s, pattern, i) && forall k :: 0 <= k < i ==> !OccursAt(s, pattern, k)
  }

  /** Splicing replaces what stands from the first START to the first END, and fails exactly when one of
      them is missing or they stand the wrong way round. */
  lemma SpliceIff(existing: string, block: string)
    ensures forall i, j :: FirstAt(existing, START, i) && FirstAt(existing, END, j) ==>
      Splice(existing, block) ==
        if i < j then Some(existing[..i] + block + existing[j + |END|..]) else None
    ensures (forall i :: !OccursAt(existing, START, i)) || (forall j :: !OccursAt(existing, END, j)) ==>
      Splice(existing, block).None?
  {
    forall i, j | FirstAt(existing, START, i) && FirstAt(existing, END, j)
      ensures Splice(existing, block) ==
        if i < j then Some(existing[..i] + block + existing[j + |END|..]) else None
    {
      SpliceAt(existing, block, i, j);
    }
  }

  lemma SpliceAt(existing: string, block: string, i: int, j: int)
    requires FirstAt(existing, START, i) && FirstAt(existing, END, j)
    ensures Splice(existing, block) ==
      if i < j then Some(existing[..i] + block + existing[j + |END|..]) else None
  {
    FindFirst(existing, START, i);
    FindFirst(existing, END, j);
    MarkersDoNotOverlap(existing, i, j);
    MarkerLetters();
  }

  lemma FindFirst(s: string, pattern: string, i: int)
    requires FirstAt(s, pattern, i)
    ensures Find(s, pattern) == i
  {
    FindIs(s, pattern, i);
  }

  /** Opens with START and closes with END */
  predicate IsFramed(block: string) {
    && |block| >= |START| + |END|
    && block[..|START|] == START && block[|block| - |END|..] == END
  }

  /** A framed block whose only END is the closing one */
  predicate IsBlock(block: string) {
    IsFramed(block) && Find(block, END) == |block| - |END|
  }

  lemma MarkerLetters()
    ensures |START| == 27 && |END| == 25
    ensures forall j :: 0 < j < |START| ==> START[j] != '<'
    ensures START[0] == END[0] == '<' && START[18] != END[18]
    ensures forall j :: 0 < j < |END| ==> END[j] != '<'
    ensures forall j :: 0 <= j < |END| ==> END[j] != '\n'
  {
  }

  lemma Letter(s: string, pattern: string, i: int, k: int)
    requires OccursAt(s, pattern, i) && i <= k < i + |pattern|
    ensures s[k] == pattern[k - i]
  {
    assert s[k] == s[i..i + |pattern|][k - i];
  }

  /** END does not begin inside START. */
  lemma EndIsPastStart(s: string, i: int, j: int)
    requires OccursAt(s, START, i) && OccursAt(s, END, j) && i <= j
    ensures i + |START| <= j
  {
    MarkerLetters();
    Letter(s, END, j, j);
    Letter(s, END, j, j + 18);
    Letter(s, START, i, i + 18);
    forall k | i < k < i + |START| ensures s[k] != '<' {
      Letter(s, START, i, k);
    }
  }

  /** The two markers do not overlap, whichever begins first. */
  lemma MarkersDoNotOverlap(s: string, i: int, j: int)
    requires OccursAt(s, START, i) && OccursAt(s, END, j)
    ensures i + |START| <= j || j + |END| <= i
  {
    if i <= j {
      EndIsPastStart(s, i, j);
    } else {
      MarkerLetters();
      Letter(s, START, i, i);
      forall k | j < k < j + |END| ensures s[k] != '<' {
        Letter(s, END, j, k);
      }
    }
  }

  /** Around a framed block, no marker begins earlier than in the text it replaces. */
  lemma NothingBefore(existing: string, block: string, after: string, pattern: string, start: nat)
    requires OccursAt(existing, START, start) && IsFramed(block) && |pattern| <= |START|
    requires forall j :: 0 <= j < start ==> !OccursAt(existing, pattern, j)
    ensures forall j :: 0 <= j < start ==> !OccursAt(existing[..start] + block + after, pattern, j)
  {
    var page := existing[..start] + block + after;
    var to := start + |START|;
    assert page[..to] == existing[..start] + START == existing[..to];
    forall j | 0 <= j < start ensures !OccursAt(page, pattern, j) {
      OccursInPart(page, existing, pattern, j, j, 0, to, 0);
    }
  }

  /** In a page around a framed block, START is the block's and END is the first one in the block. */
  lemma PageMarkers(existing: string, block: string, after: string)
    requires IsFramed(block) && Find(existing, START) >= 0
    requires Find(existing, START) <= Find(existing, END)
    ensures 0 <= Find(block, END) <= |block| - |END|
    ensures
      var start := Find(existing, START);
      var page := existing[..start] + block + after;
      Find(page, START) == start && Find(page, END) == start + Find(block, END)
  {
    hide FindFrom;
    var start := Find(existing, START);
    var page := existing[..start] + block + after;
    assert OccursAt(block, END, |block| - |END|);
    var end := Find(block, END);
    NothingBefore(existing, block, after, START, start);
    NothingBefore(existing, block, after, END, start);
    assert page[start..start + |block|] == block == block[0..|block|];
    assert OccursAt(block, START, 0);
    OccursInPart(page, block, START, start, 0, start, start + |block|, -start);
    FindIs(page, START, start);
    forall j | start <= j <= start + end ensures OccursAt(page, END, j) <==> j == start + end {
      OccursInPart(page, block, END, j, j - start, start, start + |block|, -start);
    }
    FindIs(page, END, start + end);
  }

  /** Splicing in a block keeps what stands outside the markers and puts the block between them. */
  lemma SpliceParts(existing: string, block: string)
    requires IsBlock(block) && Splice(existing, block).Some?
    ensures PartsOf(existing).Some?
    ensures
      var was := PartsOf(existing).value;
      PartsOf(Splice(existing, block).value) == Some(Parts(was.before, block, was.after))
  {
    var was := PartsOf(existing).value;
    PageMarkers(existing, block, was.after);
    var page := was.before + block + was.after;
    var start := |was.before|;
    assert Find(page, START) == start && Find(page, END) + |END| == start + |block|;
    assert page[..start] == was.before;
    assert page[start..start + |block|] == block;
    assert page[start + |block|..] == was.after;
  }

  /** Last write wins: what a block replaced is forgotten. */
  lemma LastSpliceWins(existing: string, block: string, later: string)
    requires IsBlock(block) && Splice(existing, block).Some?
    ensures Splice(Splice(existing, block).value, later) == Splice(existing, later)
  {
    SpliceParts(existing, block);
  }

  /** A page is a fixpoint of its own block exactly when the closing END is the block's only one. */
  lemma FixpointIffBlock(existing: string, block: string)
    requires IsFramed(block) && Splice(existing, block).Some?
    ensures Splice(Splice(existing, block).value, block) == Splice(existing, block) <==> IsBlock(block)
  {
    if IsBlock(block) {
      LastSpliceWins(existing, block, block);
    } else {
      EarlyEndGrowsPage(existing, block);
    }
  }

  /** A block with an early END is not replaced as a whole: its tail stays behind. */
  lemma EarlyEndGrowsPage(existing: string, block: string)
    requires IsFramed(block) && Splice(existing, block).Some?
    ensures !IsBlock(block) ==>
      var page := Splice(existing, block).value;
      Splice(page, block).Some? && |Splice(page, block).value| > |page|
  {
    hide FindFrom;
    var was := PartsOf(existing).value;
    PageMarkers(existing, block, was.after);
    var page, start, early := was.before + block + was.after, |was.before|, Find(block, END);
    assert Find(page, START) == start && Find(page, END) == start + early;
    assert |Splice(page, block).value| == start + |block| + (|page| - start - early - |END|);
  }

  /** The lines between the markers, as the generator joins them */
  function Wrap(body: string): string {
    START + "\n" + body + "\n" + END
  }

  /** A generated block is safe exactly when its body does not contain END itself. */
  lemma WrapIsBlock(body: string)
    ensures IsFramed(Wrap(body))
    ensures IsBlock(Wrap(body)) <==> Find(body, END) == -1
  {
    var block := Wrap(body);
    var from, close := |START| + 1, |block| - |END|;
    MarkerLetters();
    assert block[..|START|] == START && block[close..] == END;
    assert OccursAt(block, START, 0) && OccursAt(block, END, close);
    assert block[from..from + |body|] == body == body[0..|body|];
    if Find(body, END) == -1 {
      forall j | 0 <= j < close ensures !OccursAt(block, END, j) {
        EarlyEndIsInBody(body, j);
      }
      FindIs(block, END, close);
    } else {
      var j := Find(body, END);
      OccursInPart(block, body, END, j + from, j, from, from + |body|, -from);
    }
  }

  lemma EarlyEndIsInBody(body: string, j: int)
    requires 0 <= j < |Wrap(body)| - |END| && Find(body, END) == -1
    ensures !OccursAt(Wrap(body), END, j)
  {
    hide FindFrom;
    var block, from := Wrap(body), |START| + 1;
    if OccursAt(block, END, j) {
      EndAvoidsFrame(body, j);
      assert block[from..from + |body|] == body == body[0..|body|];
      OccursInPart(block, body, END, j, j - from, from, from + |body|, -from);
    }
  }

  /** An END before the closing one lies inside the body: it overlaps neither START nor a newline. */
  lemma EndAvoidsFrame(body: string, j: int)
    requires 0 <= j < |Wrap(body)| - |END| && OccursAt(Wrap(body), END, j)
    ensures |START| + 1 <= j && j + |END| <= |START| + 1 + |body|
  {
    hide FindFrom;
    var block, from := Wrap(body), |START| + 1;
    MarkerLetters();
    assert block[..|START|] == START;
    EndIsPastStart(block, 0, j);
    assert block[|START|] == '\n' && block[from + |body|] == '\n';
    forall k | j <= k < j + |END| ensures block[k] != '\n' {
      Letter(block, END, j, k);
    }
  }

  // ----- The pages of a section -----

  /** What the registry wants of one page: a command's block, or the index's block and its introduction */
  datatype Page = Command(block: string, stub: string) | Index(block: string, intro: string)

  /** The content of a page, given what stands there now */
  function Render(page: Page, existing: Option<string>): Option<string> {
    match existing
    case Some(text) => Splice(text, page.block)
    case None =>
      match page
      case Command(block, stub) => Some(block + "\n" + stub)
      case Index(block, intro) => Some(intro + "\n" + block + "\n")
  }

  /** The generated text is safe to splice, and the introduction holds no HTML comment. */
  predicate IsSafe(page: Page) {
    IsBlock(page.block) && (page.Index? ==> '<' !in page.intro)
  }

  /** What is rendered once is current from then on, for a new page as for an old one. */
  lemma RenderedIsCurrent(page: Page, existing: Option<string>)
    requires IsSafe(page) && Render(page, existing).Some?
    ensures Render(page, Render(page, existing)) == Render(page, existing)
  {
    hide Splice, IsBlock;
    match existing
    case Some(text) =>
      LastSpliceWins(text, page.block, page.block);
    case None =>
      match page
      case Command(block, stub) =>
        assert "" + block + ("\n" + stub) == block + "\n" + stub;
        NewPageIsCurrent("", block, "\n" + stub);
      case Index(block, intro) =>
        NewPageIsCurrent(intro + "\n", block, "\n");
  }

  lemma NewPageIsCurrent(before: string, block: string, after: string)
    requires IsBlock(block) && '<' !in before
    ensures Splice(before + block + after, block) == Some(before + block + after)
  {
    hide FindFrom, OccursAt;
    NewParts(before, block, after);
  }

  /** A page that is new has its introduction before its block, or its stub after it. */
  lemma NewPageParts(page: Page)
    requires IsSafe(page)
    ensures Render(page, None).Some?
    ensures PartsOf(Render(page, None).value) ==
      match page
      case Command(block, stub) => Some(Parts("", block, "\n" + stub))
      case Index(block, intro) => Some(Parts(intro + "\n", block, "\n"))
  {
    match page
    case Command(block, stub) =>
      assert "" + block + ("\n" + stub) == block + "\n" + stub;
      NewParts("", block, "\n" + stub);
    case Index(block, intro) =>
      NewParts(intro + "\n", block, "\n");
  }

  lemma NewParts(before: string, block: string, after: string)
    requires IsBlock(block) && '<' !in before
    ensures PartsOf(before + block + after) == Some(Parts(before, block, after))
  {
    hide FindFrom, OccursAt;
    var bare, page, n := before + START + END, before + block + after, |before|;
    BareMarkers(before);
    PageMarkers(bare, block, after);
    assert bare[..n] == before;
    assert Find(page, START) == n && Find(page, END) + |END| == n + |block|;
    assert page[..n] == before && page[n..n + |block|] == block && page[n + |block|..] == after;
  }

  lemma BareMarkers(before: string)
    requires '<' !in before
    ensures Find(before + START + END, START) == |before|
    ensures Find(before + START + END, END) == |before| + |START|
  {
    var bare, n := before + START + END, |before|;
    MarkerLetters();
    assert bare[n..n + |START|] == START && bare[n + |START|..] == END;
    assert forall j :: 0 <= j < n ==> bare[j] == before[j];
    forall j | 0 <= j < n ensures !OccursAt(bare, START, j) && !OccursAt(bare, END, j) {
      NoBracketNoMarker(bare, START, j);
      NoBracketNoMarker(bare, END, j);
    }
    FindIs(bare, START, n);
    forall j | n <= j < n + |START| ensures !OccursAt(bare, END, j) {
      if OccursAt(bare, END, j) {
        EndIsPastStart(bare, n, j);
      }
    }
    FindIs(bare, END, n + |START|);
  }

  lemma NoBracketNoMarker(text: string, marker: string, j: nat)
    requires j < |text| && text[j] != '<' && |marker| > 0 && marker[0] == '<'
    ensures !OccursAt(text, marker, j)
  {
    if OccursAt(text, marker, j) {
      Letter(text, marker, j, j);
    }
  }

  // ----- Writing and checking the section -----

  type Files = map<string, string>

  function Lookup(files: Files, path: string): Option<string> {
    if path in files then Some(files[path]) else None
  }

  /** Every page the section should have; None when one page has lost its markers. */
  ghost function Desired(files: Files, pages: map<string, Page>): Option<Files> {
    if exists path :: path in pages && Render(pages[path], Lookup(files, path)).None? then None
    else Some(map path | path in pages :: Render(pages[path], Lookup(files, path)).value)
  }

  predicate IsCurrent(files: Files, expected: Files, path: string)
    requires path in expected
  {
    Lookup(files, path) == Some(expected[path])
  }

  /** Those of the first n paths whose pages are not as they should be */
  function Outdated(files: Files, expected: Files, order: seq<string>, n: nat): seq<string>
    requires n <= |order| && forall path :: path in order ==> path in expected
  {
    if n == 0 then []
    else
      Outdated(files, expected, order, n - 1)
      + if IsCurrent(files, expected, order[n - 1]) then [] else [order[n - 1]]
  }

  datatype Problem = Unmarked | Missing(path: string) | Stale(path: string) | Orphan(path: string)

  /** What check says of the first n paths */
  function StaleOrMissing(files: Files, expected: Files, order: seq<string>, n: nat): seq<Problem>
    requires n <= |order| && forall path :: path in order ==> path in expected
  {
    if n == 0 then []
    else
      var path := order[n - 1];
      StaleOrMissing(files, expected, order, n - 1)
      + if path !in files then [Missing(path)] else if files[path] != expected[path] then [Stale(path)] else []
  }

  /** Those of the first n pages found that no registered command owns */
  function Orphans(pages: map<string, Page>, listing: seq<string>, n: nat): seq<Problem>
    requires n <= |listing|
  {
    if n == 0 then []
    else Orphans(pages, listing, n - 1) + if listing[n - 1] in pages then [] else [Orphan(listing[n - 1])]
  }

  ghost predicate Lists(order: seq<string>, pages: map<string, Page>) {
    && (forall i, j :: 0 <= i < j < |order| ==> order[i] != order[j])
    && (forall path :: path in order <==> path in pages)
  }

  ghost function Problems(
    files: Files, pages: map<string, Page>, order: seq<string>, listing: seq<string>): seq<Problem>
    requires Lists(order, pages)
  {
    var expected := Desired(files, pages);
    if expected.None? then [Unmarked]
    else StaleOrMissing(files, expected.value, order, |order|) + Orphans(pages, listing, |listing|)
  }

  lemma NextOutdated(files: Files, expected: Files, order: seq<string>, i: nat)
    requires i < |order| && forall path :: path in order ==> path in expected
    ensures Outdated(files, expected, order, i + 1)
         == Outdated(files, expected, order, i) + if IsCurrent(files, expected, order[i]) then [] else [order[i]]
  {
  }

  lemma NoneOutdated(files: Files, expected: Files, order: seq<string>)
    requires forall path :: path in order ==> path in expected
    ensures Outdated(files, expected, order, 0) == []
  {
  }

  lemma SameLookup(a: Files, b: Files)
    requires forall path :: Lookup(a, path) == Lookup(b, path)
    ensures a == b
  {
    assert forall path :: path in a <==> Lookup(a, path).Some?;
    assert forall path :: path in b <==> Lookup(b, path).Some?;
    assert forall path :: path in a ==> Lookup(a, path) == Some(a[path]);
  }

  class Section {
    var files: Files

    constructor (files: Files)
      ensures this.files == files
    {
      this.files := files;
    }

    /** render_all */
    method RenderAll(pages: map<string, Page>, order: seq<string>) returns (expected: Option<Files>)
      requires Lists(order, pages)
      ensures expected == Desired(files, pages)
    {
      hide Render;
      var rendered: Files := map[];
      for i := 0 to |order|
        invariant forall path :: path in rendered <==> path in order[..i]
        invariant forall path :: path in rendered ==>
          Render(pages[path], Lookup(files, path)) == Some(rendered[path])
      {
        var path := order[i];
        var text := Render(pages[path], Lookup(files, path));
        if text.None? {
          return None;
        }
        rendered := rendered[path := text.value];
      }
      assert order[..|order|] == order;
      assert rendered == map path | path in pages :: Render(pages[path], Lookup(files, path)).value;
      return Some(rendered);
    }

    /** write: nothing is written when any page has lost its markers. */
    method Write(pages: map<string, Page>, order: seq<string>) returns (changed: Option<seq<string>>)
      requires Lists(order, pages)
      modifies this
      ensures
        var expected := Desired(old(files), pages);
        if expected.None? then changed.None? && files == old(files)
        else
          && files == old(files) + expected.value
          && changed == Some(Outdated(old(files), expected.value, order, |order|))
    {
      var expected := RenderAll(pages, order);
      if expected.None? {
        return None;
      }
      var paths := WriteAll(expected.value, order);
      return Some(paths);
    }

    method WriteAll(expected: Files, order: seq<string>) returns (changed: seq<string>)
      requires forall i, j :: 0 <= i < j < |order| ==> order[i] != order[j]
      requires forall path :: path in order <==> path in expected
      modifies this
      ensures files == old(files) + expected && changed == Outdated(old(files), expected, order, |order|)
    {
      hide Outdated;
      NoneOutdated(old(files), expected, order);
      changed := [];
      ghost var done: set<string> := {};
      for i := 0 to |order|
        invariant forall j :: 0 <= j < |order| ==> (order[j] in done <==> j < i)
        invariant done <= expected.Keys
        invariant forall path ::
          Lookup(files, path) == if path in done then Some(expected[path]) else Lookup(old(files), path)
        invariant changed == Outdated(old(files), expected, order, i)
      {
        var path := order[i];
        NextOutdated(old(files), expected, order, i);
        if !IsCurrent(files, expected, path) {
          files := files[path := expected[path]];
          changed := changed + [path];
        }
        done := done + {path};
      }
      SameLookup(files, old(files) + expected);
    }

    /** check */
    method Check(pages: map<string, Page>, order: seq<string>, listing: seq<string>) returns (problems: seq<Problem>)
      requires Lists(order, pages)
      ensures problems == Problems(files, pages, order, listing)
    {
      hide Render;
      var expected := RenderAll(pages, order);
      if expected.None? {
        return [Unmarked];
      }
      problems := [];
      for i := 0 to |order|
        invariant problems == StaleOrMissing(files, expected.value, order, i)
      {
        if order[i] !in files {
          problems := problems + [Missing(order[i])];
        } else if files[order[i]] != expected.value[order[i]] {
          problems := problems + [Stale(order[i])];
        }
      }
      var stale := problems;
      for i := 0 to |listing|
        invariant problems == stale + Orphans(pages, listing, i)
      {
        if listing[i] !in pages {
          problems := problems + [Orphan(listing[i])];
        }
      }
    }
  }

  /** The check names exactly the pages that writing would change, in the same order. */
  lemma {:induction false} CheckForetellsWrite(files: Files, expected: Files, order: seq<string>, n: nat)
    requires n <= |order| && forall path :: path in order ==> path in expected
    ensures
      var problems, changed := StaleOrMissing(files, expected, order, n), Outdated(files, expected, order, n);
      && |problems| == |changed|
      && forall k :: 0 <= k < |changed| ==>
        problems[k] == if changed[k] in files then Stale(changed[k]) else Missing(changed[k])
  {
    if n > 0 {
      CheckForetellsWrite(files, expected, order, n - 1);
    }
  }

  /** Check reports a page as missing, stale or orphaned exactly when it is, and nothing else; one page
      without its markers is all it reports. */
  lemma ProblemsAre(files: Files, pages: map<string, Page>, order: seq<string>, listing: seq<string>, path: string)
    requires Lists(order, pages)
    ensures
      var problems := Problems(files, pages, order, listing);
      if exists p :: p in pages && p in files && Splice(files[p], pages[p].block).None? then problems == [Unmarked]
      else
        && Unmarked !in problems
        && (Missing(path) in problems <==> path in pages && path !in files)
        && (Stale(path) in problems <==>
              path in pages && path in files && Splice(files[path], pages[path].block) != Some(files[path]))
        && (Orphan(path) in problems <==> path in listing && path !in pages)
  {
    hide Splice;
    assert forall p :: p in pages && Render(pages[p], Lookup(files, p)).None? <==>
      p in pages && p in files && Splice(files[p], pages[p].block).None?;
    if Desired(files, pages).Some? {
      StaleOrMissingAre(files, Desired(files, pages).value, order, |order|, path);
      OrphansAre(pages, listing, |listing|, path);
      assert order[..|order|] == order && listing[..|listing|] == listing;
    }
  }

  lemma {:induction false} StaleOrMissingAre(
    files: Files, expected: Files, order: seq<string>, n: nat, path: string)
    requires n <= |order| && forall path :: path in order ==> path in expected
    ensures
      var problems := StaleOrMissing(files, expected, order, n);
      && Unmarked !in problems && Orphan(path) !in problems
      && (Missing(path) in problems <==> path in order[..n] && path !in files)
      && (Stale(path) in problems <==> path in order[..n] && path in files && files[path] != expected[path])
  {
    if n > 0 {
      StaleOrMissingAre(files, expected, order, n - 1, path);
      assert order[..n] == order[..n - 1] + [order[n - 1]];
    }
  }

  lemma {:induction false} OrphansAre(pages: map<string, Page>, listing: seq<string>, n: nat, path: string)
    requires n <= |listing|
    ensures
      var problems := Orphans(pages, listing, n);
      && Unmarked !in problems && Missing(path) !in problems && Stale(path) !in problems
      && (Orphan(path) in problems <==> path in listing[..n] && path !in pages)
  {
    if n > 0 {
      OrphansAre(pages, listing, n - 1, path);
      assert listing[..n] == listing[..n - 1] + [listing[n - 1]];
    }
  }

  lemma {:induction false} NothingOutdated(files: Files, expected: Files, order: seq<string>, n: nat)
    requires n <= |order| && forall path :: path in order ==> path in expected && IsCurrent(files, expected, path)
    ensures Outdated(files, expected, order, n) == [] && StaleOrMissing(files, expected, order, n) == []
  {
    if n > 0 {
      NothingOutdated(files, expected, order, n - 1);
    }
  }

  /** Files just written are current. */
  lemma JustWritten(files: Files, expected: Files)
    ensures forall path :: path in expected ==> IsCurrent(files + expected, expected, path)
    ensures files + expected + expected == files + expected
  {
  }

  /** After writing, what is desired is what stands there. */
  lemma WrittenIsDesired(files: Files, pages: map<string, Page>)
    requires Desired(files, pages).Some? && forall path :: path in pages ==> IsSafe(pages[path])
    ensures Desired(files, pages).value.Keys == pages.Keys
    ensures Desired(files + Desired(files, pages).value, pages) == Desired(files, pages)
  {
    hide Render, IsSafe;
    var expected := Desired(files, pages).value;
    var after := files + expected;
    forall path | path in pages
      ensures Render(pages[path], Lookup(after, path)) == Some(expected[path])
    {
      RenderedIsCurrent(pages[path], Lookup(files, path));
    }
    assert Desired(after, pages).value == expected;
  }

  /** Right after writing, check finds nothing but orphans, and writing again changes nothing. */
  lemma CheckAfterWrite(files: Files, pages: map<string, Page>, order: seq<string>, listing: seq<string>)
    requires Lists(order, pages) && Desired(files, pages).Some?
    requires forall path :: path in pages ==> IsSafe(pages[path])
    ensures
      var expected := Desired(files, pages).value;
      var after := files + expected;
      && Problems(after, pages, order, listing) == Orphans(pages, listing, |listing|)
      && Desired(after, pages) == Some(expected) && Outdated(after, expected, order, |order|) == []
      && after + expected == after
  {
    hide Render, IsSafe, Desired, Outdated, StaleOrMissing, Orphans;
    var expected := Desired(files, pages).value;
    WrittenIsDesired(files, pages);
    JustWritten(files, expected);
    assert forall path :: path in order ==> path in expected;
    NothingOutdated(files + expected, expected, order, |order|);
  }

  /** Writing keeps the hand-written text around the block of every page that existed. */
  lemma WriteKeepsHandwriting(files: Files, pages: map<string, Page>, path: string)
    requires Desired(files, pages).Some? && path in pages && path in files && IsSafe(pages[path])
    ensures PartsOf(files[path]).Some?
    ensures
      var was := PartsOf(files[path]).value;
      PartsOf(Desired(files, pages).value[path]) == Some(Parts(was.before, pages[path].block, was.after))
  {
    SpliceParts(files[path], pages[path].block);
  }

  // ----- The index -----

  /** The commands of one family among the first n, in order */
  function Members(names: seq<string>, n: nat, family: string -> string, key: string): seq<string>
    requires n <= |names|
  {
    if n == 0 then []
    else Members(names, n - 1, family, key) + if family(names[n - 1]) == key then [names[n - 1]] else []
  }

  /** The lines of the index block, their text left out */
  datatype Line =
    | StartMarker | Banner | Blank | Title | Heading(key: string)
    | TableHead | TableRule | Row(name: string) | EndMarker

  function Rows(names: seq<string>, n: nat): seq<Line>
    requires n <= |names|
  {
    if n == 0 then [] else Rows(names, n - 1) + [Row(names[n - 1])]
  }

  function SectionHead(key: string): seq<Line> {
    [Blank, Heading(key), Blank, TableHead, TableRule]
  }

  /** The section of one family; a family without commands has none. */
  function SectionLines(key: string, names: seq<string>): seq<Line> {
    if names == [] then [] else SectionHead(key) + Rows(names, |names|)
  }

  /** The lines up to the first k families */
  function IndexLines(names: seq<string>, family: string -> string, keys: seq<string>, k: nat): seq<Line>
    requires k <= |keys|
  {
    if k == 0 then [StartMarker, Banner, Blank, Title]
    else
      IndexLines(names, family, keys, k - 1) + SectionLines(keys[k - 1], Members(names, |names|, family, keys[k - 1]))
  }

  /** All of them, with the closing marker */
  function WholeIndex(names: seq<string>, family: string -> string, keys: seq<string>): seq<Line> {
    IndexLines(names, family, keys, |keys|) + [Blank, EndMarker]
  }

  /** The grouping and listing loops of render_index */
  method ListIndex(names: seq<string>, family: string -> string, keys: seq<string>) returns (lines: seq<Line>)
    requires forall name :: name in names ==> family(name) in keys
    ensures lines == WholeIndex(names, family, keys)
  {
    hide SectionLines, Members;
    var grouped := Group(names, family, keys);
    lines := [StartMarker, Banner, Blank, Title];
    for k := 0 to |keys|
      invariant lines == IndexLines(names, family, keys, k)
    {
      lines := AddSection(lines, keys[k], grouped[keys[k]]);
    }
    lines := lines + [Blank, EndMarker];
  }

  method Group(names: seq<string>, family: string -> string, keys: seq<string>)
    returns (grouped: map<string, seq<string>>)
    requires forall name :: name in names ==> family(name) in keys
    ensures forall key :: key in keys ==> key in grouped && grouped[key] == Members(names, |names|, family, key)
  {
    grouped := map key | key in keys :: [];
    for i := 0 to |names|
      invariant forall key :: key in keys ==> key in grouped && grouped[key] == Members(names, i, family, key)
    {
      var key := family(names[i]);
      grouped := grouped[key := grouped[key] + [names[i]]];
    }
  }

  method AddSection(before: seq<Line>, key: string, names: seq<string>) returns (lines: seq<Line>)
    ensures lines == before + SectionLines(key, names)
  {
    lines := before;
    if names == [] {
      return;
    }
    hide SectionHead;
    lines := lines + SectionHead(key);
    for i := 0 to |names|
      invariant lines == before + (SectionHead(key) + Rows(names, i))
    {
      lines := lines + [Row(names[i])];
    }
  }

  function Count<T(==)>(s: seq<T>, x: T): nat {
    if s == [] then 0 else Count(s[..|s| - 1], x) + if s[|s| - 1] == x then 1 else 0
  }

  lemma {:induction false} CountAppend<T>(a: seq<T>, b: seq<T>, x: T)
    ensures Count(a + b, x) == Count(a, x) + Count(b, x)
    decreases |b|
  {
    if b == [] {
      assert a + b == a;
    } else {
      var n := |b| - 1;
      assert (a + b)[..|a| + n] == a + b[..n];
      CountAppend(a, b[..n], x);
    }
  }

  lemma {:induction false} RowsCount(names: seq<string>, n: nat, x: string)
    requires n <= |names|
    ensures Count(Rows(names, n), Row(x)) == Count(names[..n], x)
    ensures forall key :: Count(Rows(names, n), Heading(key)) == 0
  {
    if n > 0 {
      RowsCount(names, n - 1, x);
      assert names[..n][..n - 1] == names[..n - 1];
    }
  }

  lemma CountLast<T>(s: seq<T>, last: T, x: T)
    ensures Count(s + [last], x) == Count(s, x) + if last == x then 1 else 0
  {
    assert (s + [last])[..|s|] == s;
  }

  lemma HeadCount(key: string, line: Line)
    requires line.Row? || line.Heading?
    ensures Count(SectionHead(key), line) == if line == Heading(key) then 1 else 0
  {
    CountLast([], Blank, line);
    CountLast([] + [Blank], Heading(key), line);
    CountLast([] + [Blank] + [Heading(key)], Blank, line);
    CountLast([] + [Blank] + [Heading(key)] + [Blank], TableHead, line);
    CountLast([] + [Blank] + [Heading(key)] + [Blank] + [TableHead], TableRule, line);
    assert SectionHead(key) == [] + [Blank] + [Heading(key)] + [Blank] + [TableHead] + [TableRule];
  }

  lemma SectionCount(key: string, names: seq<string>, x: string, other: string)
    ensures Count(SectionLines(key, names), Row(x)) == Count(names, x)
    ensures Count(SectionLines(key, names), Heading(other)) == if other == key && names != [] then 1 else 0
  {
    if names != [] {
      hide SectionHead, Rows, Count;
      var rows := Rows(names, |names|);
      assert names[..|names|] == names;
      RowsCount(names, |names|, x);
      HeadCount(key, Row(x));
      HeadCount(key, Heading(other));
      CountAppend(SectionHead(key), rows, Row(x));
      CountAppend(SectionHead(key), rows, Heading(other));
    }
  }

  lemma {:induction false} MembersCount(names: seq<string>, n: nat, family: string -> string, key: string, x: string)
    requires n <= |names|
    ensures Count(Members(names, n, family, key), x) == if family(x) == key then Count(names[..n], x) else 0
  {
    if n > 0 {
      MembersCount(names, n - 1, family, key, x);
      var last := names[n - 1];
      assert names[..n] == names[..n - 1] + [last];
      CountLast(names[..n - 1], last, x);
      var members := Members(names, n - 1, family, key);
      CountLast(members, last, x);
      assert Members(names, n, family, key) == if family(last) == key then members + [last] else members;
    }
  }

  lemma {:induction false} HasMembersIff(names: seq<string>, n: nat, family: string -> string, key: string)
    requires n <= |names|
    ensures Members(names, n, family, key) != [] <==> exists i :: 0 <= i < n && family(names[i]) == key
  {
    if n > 0 {
      HasMembersIff(names, n - 1, family, key);
    }
  }

  lemma FrameCount(line: Line)
    requires line.Row? || line.Heading?
    ensures Count([StartMarker, Banner, Blank, Title], line) == Count([Blank, EndMarker], line) == 0
  {
    CountLast([], StartMarker, line);
    CountLast([] + [StartMarker], Banner, line);
    CountLast([] + [StartMarker] + [Banner], Blank, line);
    CountLast([] + [StartMarker] + [Banner] + [Blank], Title, line);
    assert [StartMarker, Banner, Blank, Title] == [] + [StartMarker] + [Banner] + [Blank] + [Title];
    CountLast([], Blank, line);
    CountLast([] + [Blank], EndMarker, line);
    assert [Blank, EndMarker] == [] + [Blank] + [EndMarker];
  }

  lemma {:induction false} IndexCount(
    names: seq<string>, family: string -> string, keys: seq<string>, k: nat, x: string, key: string)
    requires k <= |keys| && forall i, j :: 0 <= i < j < |keys| ==> keys[i] != keys[j]
    ensures
      var lines := IndexLines(names, family, keys, k);
      && Count(lines, Row(x)) == (if family(x) in keys[..k] then Count(names, x) else 0)
      && Count(lines, Heading(key)) == if key in keys[..k] && Members(names, |names|, family, key) != [] then 1 else 0
  {
    hide Members, SectionLines, Count;
    if k == 0 {
      FrameCount(Row(x));
      FrameCount(Heading(key));
    } else {
      var next := keys[k - 1];
      var before := IndexLines(names, family, keys, k - 1);
      var section := SectionLines(next, Members(names, |names|, family, next));
      IndexCount(names, family, keys, k - 1, x, key);
      MembersCount(names, |names|, family, next, x);
      SectionCount(next, Members(names, |names|, family, next), x, key);
      CountAppend(before, section, Row(x));
      CountAppend(before, section, Heading(key));
      assert names[..|names|] == names;
      assert keys[..k] == keys[..k - 1] + [next];
    }
  }

  /** Every command has as many rows in the index as registrations, whatever its family, and a family
      has one heading if it has commands and none otherwise. */
  lemma EveryCommandIsListedOnce(
    names: seq<string>, family: string -> string, keys: seq<string>, x: string, key: string)
    requires forall i, j :: 0 <= i < j < |keys| ==> keys[i] != keys[j]
    requires key in keys && forall name :: name in names ==> family(name) in keys
    ensures
      var lines := WholeIndex(names, family, keys);
      && (x in names ==> Count(lines, Row(x)) == Count(names, x)) && (x !in names ==> Count(lines, Row(x)) == 0)
      && Count(lines, Heading(key)) == if exists i :: 0 <= i < |names| && family(names[i]) == key then 1 else 0
  {
    hide IndexLines, Members, Count;
    var lines := IndexLines(names, family, keys, |keys|);
    assert keys[..|keys|] == keys;
    IndexCount(names, family, keys, |keys|, x, key);
    FrameCount(Row(x));
    FrameCount(Heading(key));
    CountAppend(lines, [Blank, EndMarker], Row(x));
    CountAppend(lines, [Blank, EndMarker], Heading(key));
    HasMembersIff(names, |names|, family, key);
    if x !in names {
      AbsentIsNotCounted(names, x);
    }
  }

  lemma {:induction false} AbsentIsNotCounted<T>(s: seq<T>, x: T)
    requires x !in s
    ensures Count(s, x) == 0
  {
    if s != [] {
      AbsentIsNotCounted(s[..|s| - 1], x);
    }
  }
}
