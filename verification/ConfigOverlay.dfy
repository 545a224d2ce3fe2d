/**
 Laying one configuration mapping over another: mappings merge key by key, anything else in the
 overlay replaces what was there, and a null removes the key.
 */
module ConfigOverlay {
  import opened Options

  datatype Yaml = Mapping(entries: map<string, Yaml>) | Null | Scalar(text: string) | Sequence(items: seq<Yaml>)

  type Dict = y: Yaml | y.Mapping? witness Mapping(map[])

  function At(m: Dict, key: string): Option<Yaml> {
    if key in m.entries then Some(m.entries[key]) else None
  }

  function Merged(base: Dict, over: Dict): Dict
    decreases over
  {
    Mapping(
      map key | key in base.entries.Keys + over.entries.Keys && !(key in over.entries && over.entries[key].Null?) ::
        if key !in over.entries then base.entries[key]
        else if key in base.entries && base.entries[key].Mapping? && over.entries[key].Mapping?
        then Merged(base.entries[key], over.entries[key])
        else over.entries[key])
  }

  /** _deep_merge */
  method DeepMerge(base: Dict, over: Dict) returns (result: Yaml)
    ensures result == Merged(base, over)
    decreases over
  {
    hide Merged;
    result := base;
    var todo := over.entries.Keys;
    while todo != {}
      invariant result.Mapping? && todo <= over.entries.Keys
      invariant forall key ::
        At(result, key) == if key in todo then At(base, key) else Laid(At(base, key), At(over, key))
      decreases |todo|
    {
      var key :| key in todo;
      var value := over.entries[key];
      assert At(result, key) == At(base, key) && At(over, key) == Some(value);
      if value.Null? {
        result := Mapping(result.entries - {key});
      } else if key in result.entries && result.entries[key].Mapping? && value.Mapping? {
        var inner := DeepMerge(result.entries[key], value);
        result := Mapping(result.entries[key := inner]);
      } else {
        result := Mapping(result.entries[key := value]);
      }
      todo := todo - {key};
    }
    forall key ensures At(result, key) == At(Merged(base, over), key) {
      MergedAt(base, over, key);
    }
    SameEntries(result, Merged(base, over));
  }

  lemma SameEntries(a: Dict, b: Dict)
    requires forall key :: At(a, key) == At(b, key)
    ensures a == b
  {
    assert forall key :: key in a.entries <==> At(a, key).Some?;
    assert forall key :: key in b.entries <==> At(b, key).Some?;
    assert forall key :: key in a.entries ==> At(a, key) == Some(a.entries[key]);
  }

  /** Laying one value over another at the same key */
  function Laid(x: Option<Yaml>, y: Option<Yaml>): Option<Yaml> {
    match y
    case None => x
    case Some(value) =>
      if value.Null? then None
      else if value.Mapping? && x.Some? && x.value.Mapping? then Some(Merged(x.value, value))
      else y
  }

  lemma MergedAt(a: Dict, b: Dict, key: string)
    ensures At(Merged(a, b), key) == Laid(At(a, key), At(b, key))
  {
  }

  // ----- Merging twice -----

  /** No null at any depth the merge would reach */
  predicate NullFree(m: Dict) {
    forall key :: key in m.entries ==> !m.entries[key].Null? && (m.entries[key].Mapping? ==> NullFree(m.entries[key]))
  }

  /** No null of the overlay survives the merge: each stands under mappings that the base has too,
      so that it removes a key instead of being copied. */
  predicate NullsReachBase(a: Dict, b: Dict)
    decreases b
  {
    forall key :: key in b.entries && b.entries[key].Mapping? ==>
      if key in a.entries && a.entries[key].Mapping? then NullsReachBase(a.entries[key], b.entries[key])
      else NullFree(b.entries[key])
  }

  /** A mapping laid over itself is itself exactly when it holds no null. */
  lemma {:induction false} SelfMergeIffNullFree(m: Dict)
    ensures Merged(m, m) == m <==> NullFree(m)
    decreases m
  {
    forall key | key in m.entries && m.entries[key].Mapping?
      ensures Merged(m.entries[key], m.entries[key]) == m.entries[key] <==> NullFree(m.entries[key])
    {
      SelfMergeIffNullFree(m.entries[key]);
    }
    if NullFree(m) {
      SameEntries(Merged(m, m), m);
    } else {
      var key :| key in m.entries && !(!m.entries[key].Null? && (m.entries[key].Mapping? ==> NullFree(m.entries[key])));
      assert At(Merged(m, m), key) != At(m, key);
    }
  }

  /** Applying an overlay again changes nothing exactly when none of its nulls survived. */
  lemma {:induction false} MergeTwiceIff(a: Dict, b: Dict)
    ensures Merged(Merged(a, b), b) == Merged(a, b) <==> NullsReachBase(a, b)
    decreases b
  {
    var m := Merged(a, b);
    forall key | key in b.entries && b.entries[key].Mapping?
      ensures (At(Merged(m, b), key) == At(m, key)) <==>
        if key in a.entries && a.entries[key].Mapping? then NullsReachBase(a.entries[key], b.entries[key])
        else NullFree(b.entries[key])
    {
      if key in a.entries && a.entries[key].Mapping? {
        MergeTwiceIff(a.entries[key], b.entries[key]);
      } else {
        SelfMergeIffNullFree(b.entries[key]);
      }
    }
    if NullsReachBase(a, b) {
      SameEntries(Merged(m, b), m);
    }
  }

  lemma {:induction false} NullFreeReaches(a: Dict, b: Dict)
    requires NullFree(b)
    ensures NullsReachBase(a, b)
    decreases b
  {
    forall key | key in b.entries && b.entries[key].Mapping? && key in a.entries && a.entries[key].Mapping?
      ensures NullsReachBase(a.entries[key], b.entries[key])
    {
      NullFreeReaches(a.entries[key], b.entries[key]);
    }
  }

  /** An overlay without nulls can be applied any number of times. */
  lemma NullFreeMergeIsIdempotent(a: Dict, b: Dict)
    requires NullFree(b)
    ensures Merged(Merged(a, b), b) == Merged(a, b)
  {
    NullFreeReaches(a, b);
    MergeTwiceIff(a, b);
  }

  /** A null under a key that the base lacks is not removed but copied. */
  lemma NestedNullSurvives(y: string, x: string)
    ensures
      var over := Mapping(map[x := Mapping(map[y := Null])]);
      Merged(Mapping(map[]), over) == over && !NullsReachBase(Mapping(map[]), over)
  {
    var over := Mapping(map[x := Mapping(map[y := Null])]);
    SameEntries(Merged(Mapping(map[]), over), over);
    assert y in over.entries[x].entries && over.entries[x].entries[y].Null?;
    assert x in over.entries && over.entries[x].Mapping? && !NullFree(over.entries[x]);
  }

  // ----- Three layers -----

  /** Everything in a is decided by c, and c holds no null. */
  predicate Covers(c: Dict, a: Dict)
    decreases c
  {
    && a.entries.Keys <= c.entries.Keys
    && (forall key :: key in c.entries ==> !c.entries[key].Null?)
    && forall key :: key in c.entries && c.entries[key].Mapping? && key in a.entries && a.entries[key].Mapping? ==>
         Covers(c.entries[key], a.entries[key])
  }

  lemma {:induction false} MergeDropsBaseIff(a: Dict, c: Dict)
    ensures Merged(a, c) == c <==> Covers(c, a)
    decreases c
  {
    forall key | key in c.entries && c.entries[key].Mapping? && key in a.entries && a.entries[key].Mapping?
      ensures Merged(a.entries[key], c.entries[key]) == c.entries[key] <==> Covers(c.entries[key], a.entries[key])
    {
      MergeDropsBaseIff(a.entries[key], c.entries[key]);
    }
    if Covers(c, a) {
      SameEntries(Merged(a, c), c);
    }
  }

  /** Where grouping three layers one way or the other agrees: the last layer removes nothing that
      the first one has, and nowhere does a mapping of the last meet a mapping of the first across
      something else in the middle, unless the last decides all of it anyway. */
  predicate Regroups(a: Dict, b: Dict, c: Dict)
    decreases c, 1
  {
    forall key :: key in c.entries ==> RegroupsAt(a, b, c, key)
  }

  predicate RegroupsAt(a: Dict, b: Dict, c: Dict, key: string)
    requires key in c.entries
    decreases c, 0
  {
    && (c.entries[key].Null? ==> key !in a.entries)
    && (c.entries[key].Mapping? && key in b.entries && key in a.entries && a.entries[key].Mapping? ==>
      if b.entries[key].Mapping? then Regroups(a.entries[key], b.entries[key], c.entries[key])
      else Covers(c.entries[key], a.entries[key]))
  }

  lemma {:induction false} RegroupAt(a: Dict, b: Dict, c: Dict, key: string)
    ensures At(Merged(Merged(a, b), c), key) == At(Merged(a, Merged(b, c)), key) <==>
      (key in c.entries ==> RegroupsAt(a, b, c, key))
    decreases c, 0
  {
    var x, y, z := At(a, key), At(b, key), At(c, key);
    MergedAt(Merged(a, b), c, key);
    MergedAt(a, b, key);
    MergedAt(b, c, key);
    MergedAt(a, Merged(b, c), key);
    if key in c.entries && c.entries[key].Mapping? && key in b.entries && key in a.entries && a.entries[key].Mapping? {
      if b.entries[key].Mapping? {
        MergeRegroupsIff(a.entries[key], b.entries[key], c.entries[key]);
      } else {
        MergeDropsBaseIff(a.entries[key], c.entries[key]);
      }
    }
  }

  /** Merging three layers is associative exactly when they regroup. */
  lemma {:induction false} MergeRegroupsIff(a: Dict, b: Dict, c: Dict)
    ensures Merged(Merged(a, b), c) == Merged(a, Merged(b, c)) <==> Regroups(a, b, c)
    decreases c, 1
  {
    forall key
      ensures At(Merged(Merged(a, b), c), key) == At(Merged(a, Merged(b, c)), key) <==>
        (key in c.entries ==> RegroupsAt(a, b, c, key))
    {
      RegroupAt(a, b, c, key);
    }
    if Regroups(a, b, c) {
      SameEntries(Merged(Merged(a, b), c), Merged(a, Merged(b, c)));
    }
  }

  /** No path is a mapping in one layer and something else in the other. */
  predicate SameShape(a: Dict, b: Dict) {
    forall key :: key in a.entries && key in b.entries ==>
      && (a.entries[key].Mapping? <==> b.entries[key].Mapping?)
      && (a.entries[key].Mapping? ==> SameShape(a.entries[key], b.entries[key]))
  }

  lemma {:induction false} SameShapeRegroups(a: Dict, b: Dict, c: Dict)
    requires SameShape(a, b) && NullFree(c)
    ensures Regroups(a, b, c)
    decreases c
  {
    forall key | key in c.entries && c.entries[key].Mapping? && key in b.entries
                 && key in a.entries && a.entries[key].Mapping?
      ensures b.entries[key].Mapping? && Regroups(a.entries[key], b.entries[key], c.entries[key])
    {
      SameShapeRegroups(a.entries[key], b.entries[key], c.entries[key]);
    }
  }

  /** So layers may be merged in either grouping when the first two agree on what is a mapping and
      the last holds no null. */
  lemma MergeIsAssociative(a: Dict, b: Dict, c: Dict)
    requires SameShape(a, b) && NullFree(c)
    ensures Merged(Merged(a, b), c) == Merged(a, Merged(b, c))
  {
    SameShapeRegroups(a, b, c);
    MergeRegroupsIff(a, b, c);
  }

  /** A scalar between two mappings: merged from the left it hides the first, from the right it does not. */
  lemma GroupingMatters(x: string, y: string, v: Yaml)
    requires !v.Null?
    ensures
      var a, b := Mapping(map[x := Mapping(map[y := v])]), Mapping(map[x := Scalar("")]);
      var c := Mapping(map[x := Mapping(map[])]);
      Merged(Merged(a, b), c) != Merged(a, Merged(b, c))
  {
    var a, b := Mapping(map[x := Mapping(map[y := v])]), Mapping(map[x := Scalar("")]);
    var c := Mapping(map[x := Mapping(map[])]);
    assert y in a.entries[x].entries && y !in c.entries[x].entries;
    assert !Covers(c.entries[x], a.entries[x]);
    assert !RegroupsAt(a, b, c, x);
    MergeRegroupsIff(a, b, c);
  }

  // ----- What a reader of the merged configuration finds -----

  /** The value at a path of keys */
  function Get(m: Dict, path: seq<string>): Option<Yaml>
    decreases |path|
  {
    if path == [] then Some(m)
    else if path[0] !in m.entries then None
    else if |path| == 1 then Some(m.entries[path[0]])
    else if m.entries[path[0]].Mapping? then Get(m.entries[path[0]], path[1..])
    else None
  }

  /** The layer says nothing about the path: on the way down a key is missing. */
  predicate Silent(m: Dict, path: seq<string>)
    decreases |path|
  {
    && path != []
    && (path[0] !in m.entries
        || (|path| > 1 && m.entries[path[0]].Mapping? && Silent(m.entries[path[0]], path[1..])))
  }

  predicate IsLeafAt(m: Dict, path: seq<string>) {
    Get(m, path).Some? && !Get(m, path).value.Mapping? && !Get(m, path).value.Null?
  }

  /** A leaf of the overlay is what the merge has there, whatever the base says. */
  lemma {:induction false} LastLayerWins(a: Dict, b: Dict, path: seq<string>)
    requires IsLeafAt(b, path)
    ensures Get(Merged(a, b), path) == Get(b, path)
    decreases |path|
  {
    var key := path[0];
    MergedAt(a, b, key);
    if |path| > 1 && key in a.entries && a.entries[key].Mapping? {
      LastLayerWins(a.entries[key], b.entries[key], path[1..]);
    }
  }

  /** Where the overlay is silent the base shows through. */
  lemma {:induction false} BaseShowsThrough(a: Dict, b: Dict, path: seq<string>)
    requires Silent(b, path)
    ensures Get(Merged(a, b), path) == Get(a, path)
    decreases |path|
  {
    var key := path[0];
    MergedAt(a, b, key);
    if key in b.entries {
      SilentIsAbsent(b.entries[key], path[1..]);
      if key in a.entries && a.entries[key].Mapping? {
        BaseShowsThrough(a.entries[key], b.entries[key], path[1..]);
      }
    }
  }

  lemma {:induction false} SilentIsAbsent(m: Dict, path: seq<string>)
    requires Silent(m, path)
    ensures Get(m, path) == None
    decreases |path|
  {
    if path[0] in m.entries {
      SilentIsAbsent(m.entries[path[0]], path[1..]);
    }
  }

  /** Where the overlay has a null under mappings of the base, nothing is left. */
  lemma {:induction false} NullRemoves(a: Dict, b: Dict, path: seq<string>)
    requires Get(b, path) == Some(Null) && NullsReachBase(a, b)
    ensures Get(Merged(a, b), path) == None
    decreases |path|
  {
    var key := path[0];
    MergedAt(a, b, key);
    if |path| > 1 {
      if key in a.entries && a.entries[key].Mapping? {
        NullRemoves(a.entries[key], b.entries[key], path[1..]);
      } else {
        NullFreeHasNoNull(b.entries[key], path[1..]);
      }
    }
  }

  lemma {:induction false} NullFreeHasNoNull(m: Dict, path: seq<string>)
    requires NullFree(m)
    ensures Get(m, path) != Some(Null)
    decreases |path|
  {
    if |path| > 1 && path[0] in m.entries && m.entries[path[0]].Mapping? {
      NullFreeHasNoNull(m.entries[path[0]], path[1..]);
    }
  }

  /** A layer whose file is missing or empty says nothing. */
  function Layer(layer: Option<Dict>): Dict {
    if layer.Some? then layer.value else Mapping(map[])
  }

  /** What three layers give a reader: a leaf of the profile wins, else where the profile is silent a
      leaf of the overlay, else where both are silent the base. */
  lemma ThreeLayers(raw: Dict, overlay: Dict, profile: Dict, path: seq<string>)
    ensures
      var config := Merged(Merged(raw, overlay), profile);
      && (IsLeafAt(profile, path) ==> Get(config, path) == Get(profile, path))
      && (Silent(profile, path) && IsLeafAt(overlay, path) ==> Get(config, path) == Get(overlay, path))
      && (Silent(profile, path) && Silent(overlay, path) ==> Get(config, path) == Get(raw, path))
  {
    if IsLeafAt(profile, path) {
      LastLayerWins(Merged(raw, overlay), profile, path);
    }
    if Silent(profile, path) {
      BaseShowsThrough(Merged(raw, overlay), profile, path);
      if IsLeafAt(overlay, path) {
        LastLayerWins(raw, overlay, path);
      }
      if Silent(overlay, path) {
        BaseShowsThrough(raw, overlay, path);
      }
    }
  }

  lemma EmptyLayerIsSilent(m: Dict)
    ensures Merged(m, Mapping(map[])) == m
  {
    SameEntries(Merged(m, Mapping(map[])), m);
  }

  /** The file, its environment overlay and its profile, laid over one another as load_config does */
  method LoadLayers(raw: Dict, overlay: Option<Dict>, profile: Option<Dict>) returns (config: Yaml)
    ensures config.Mapping?
    ensures forall path :: IsLeafAt(Layer(profile), path) ==> Get(config, path) == Get(Layer(profile), path)
    ensures forall path :: Silent(Layer(profile), path) && IsLeafAt(Layer(overlay), path) ==>
      Get(config, path) == Get(Layer(overlay), path)
    ensures forall path :: Silent(Layer(profile), path) && Silent(Layer(overlay), path) ==>
      Get(config, path) == Get(raw, path)
    ensures config == Merged(Merged(raw, Layer(overlay)), Layer(profile))
  {
    hide Merged, Get, Silent;
    EmptyLayerIsSilent(raw);
    config := raw;
    if overlay.Some? {
      config := DeepMerge(config, overlay.value);
    }
    EmptyLayerIsSilent(config);
    if profile.Some? {
      config := DeepMerge(config, profile.value);
    }
    forall path {
      ThreeLayers(raw, Layer(overlay), Layer(profile), path);
    }
  }
}
