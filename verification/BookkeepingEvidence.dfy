/**
 Assembly of evidence shards: a partial, recursive merge that changes its target in place and
 refuses ambiguous ownership.  Dictionaries are mutable objects; a merge hands sub-dictionaries of
 the incoming shard over to the target.  Values compare with Python's ==.
 */
module BookkeepingEvidence {
  import opened Options

  datatype Json = Object(fields: map<string, Json>) | Array(items: seq<Json>) | Leaf(text: string)

  // ----- The merge on values -----

  /** Two dictionaries recurse, two lists must share no item, anything else is a conflict. */
  predicate ValuesMergeable(x: Json, y: Json) {
    match (x, y)
    case (Object(_), Object(_)) =>
      forall k :: k in x.fields && k in y.fields ==> ValuesMergeable(x.fields[k], y.fields[k])
    case (Array(xs), Array(ys)) => forall i :: 0 <= i < |ys| ==> ys[i] !in xs
    case _ => false
  }

  function MergedValue(x: Json, y: Json): Json
    requires ValuesMergeable(x, y)
  {
    if x.Object? then
      Object(map k | k in x.fields.Keys + y.fields.Keys ::
        if k !in x.fields then y.fields[k]
        else if k !in y.fields then x.fields[k]
        else MergedValue(x.fields[k], y.fields[k]))
    else Array(x.items + y.items)
  }

  predicate Mergeable(a: map<string, Json>, b: map<string, Json>) {
    ValuesMergeable(Object(a), Object(b))
  }

  function Merged(a: map<string, Json>, b: map<string, Json>): map<string, Json>
    requires Mergeable(a, b)
  {
    MergedValue(Object(a), Object(b)).fields
  }

  function Load(shards: seq<map<string, Json>>): Option<map<string, Json>> {
    if shards == [] then Some(map[])
    else
      var before := Load(shards[..|shards| - 1]);
      var shard := shards[|shards| - 1];
      if before.Some? && Mergeable(before.value, shard) then Some(Merged(before.value, shard)) else None
  }

  // ----- What a tree says at a path -----

  datatype Fact = Absent | IsObject | Items(items: multiset<Json>) | Value(text: string) | Clash

  function At(j: Json, path: seq<string>): (f: Fact)
    ensures f != Clash
  {
    if path == [] then
      match j
      case Object(_) => IsObject
      case Array(xs) => Items(multiset(xs))
      case Leaf(t) => Value(t)
    else if j.Object? && path[0] in j.fields then At(j.fields[path[0]], path[1..])
    else Absent
  }

  /** Two statements about one path, put together; Clash absorbs. */
  function Plus(x: Fact, y: Fact): Fact {
    match (x, y)
    case (Absent, _) => y
    case (_, Absent) => x
    case (IsObject, IsObject) => IsObject
    case (Items(m), Items(n)) => if m !! n then Items(m + n) else Clash
    case _ => Clash
  }

  lemma PlusCommutes(x: Fact, y: Fact)
    ensures Plus(x, y) == Plus(y, x)
  {
    if x.Items? && y.Items? {
      assert x.items + y.items == y.items + x.items;
    }
  }

  lemma PlusAssociates(x: Fact, y: Fact, z: Fact)
    ensures Plus(Plus(x, y), z) == Plus(x, Plus(y, z))
  {
    if x.Items? && y.Items? && z.Items? {
      assert (x.items + y.items) + z.items == x.items + (y.items + z.items);
    }
  }

  /** Three statements agree exactly when each two of them do. */
  lemma PlusIsPairwise(x: Fact, y: Fact, z: Fact)
    ensures Plus(Plus(x, y), z) != Clash <==> Plus(x, y) != Clash && Plus(x, z) != Clash && Plus(y, z) != Clash
  {
  }

  ghost predicate Agree(a: map<string, Json>, b: map<string, Json>) {
    forall path :: Plus(At(Object(a), path), At(Object(b), path)) != Clash
  }

  lemma {:induction false} MergedAt(x: Json, y: Json, path: seq<string>)
    requires ValuesMergeable(x, y)
    ensures At(MergedValue(x, y), path) == Plus(At(x, path), At(y, path))
    decreases |path|
  {
    if path != [] && x.Object? {
      var k := path[0];
      if k in x.fields && k in y.fields {
        assert ValuesMergeable(x.fields[k], y.fields[k]);
        MergedAt(x.fields[k], y.fields[k], path[1..]);
      }
    } else if path == [] && x.Array? {
      forall j | j in multiset(y.items) ensures j !in multiset(x.items) {
        assert j in y.items;
      }
    }
  }

  /** A refused merge has a path where the two trees contradict each other. */
  lemma {:induction false} ClashingPath(x: Json, y: Json) returns (path: seq<string>)
    requires !ValuesMergeable(x, y)
    ensures Plus(At(x, path), At(y, path)) == Clash
    decreases x
  {
    path := [];
    if x.Object? && y.Object? {
      var k :| k in x.fields && k in y.fields && !ValuesMergeable(x.fields[k], y.fields[k]);
      var rest := ClashingPath(x.fields[k], y.fields[k]);
      path := [k] + rest;
      assert path[1..] == rest;
    } else if x.Array? && y.Array? {
      var i :| 0 <= i < |y.items| && y.items[i] in x.items;
      assert y.items[i] in multiset(x.items) && y.items[i] in multiset(y.items);
    }
  }

  lemma MergeableIffAgree(a: map<string, Json>, b: map<string, Json>)
    ensures Mergeable(a, b) <==> Agree(a, b)
  {
    if Mergeable(a, b) {
      forall path ensures Plus(At(Object(a), path), At(Object(b), path)) != Clash {
        MergedAt(Object(a), Object(b), path);
      }
    } else {
      var path := ClashingPath(Object(a), Object(b));
    }
  }

  // ----- Any number of shards, in any order -----

  /** What all shards say at a path, on top of the empty result */
  function SumAt(shards: seq<map<string, Json>>, path: seq<string>): Fact {
    if shards == [] then At(Object(map[]), path)
    else Plus(SumAt(shards[..|shards| - 1], path), At(Object(shards[|shards| - 1]), path))
  }

  /** The load succeeds exactly when no path gets contradictory statements, and then the result
      says at every path what the shards say together. */
  lemma {:induction false} LoadIsSum(shards: seq<map<string, Json>>)
    ensures Load(shards).Some? <==> forall path :: SumAt(shards, path) != Clash
    ensures Load(shards).Some? ==> forall path :: At(Object(Load(shards).value), path) == SumAt(shards, path)
  {
    if shards != [] {
      var prefix, shard := shards[..|shards| - 1], shards[|shards| - 1];
      LoadIsSum(prefix);
      if Load(prefix).Some? {
        var before := Load(prefix).value;
        MergeableIffAgree(before, shard);
        if Mergeable(before, shard) {
          forall path ensures At(Object(Load(shards).value), path) == SumAt(shards, path) != Clash {
            MergedAt(Object(before), Object(shard), path);
          }
        } else {
          var path :| Plus(At(Object(before), path), At(Object(shard), path)) == Clash;
          assert SumAt(shards, path) == Clash;
          assert exists p :: SumAt(shards, p) == Clash;
        }
      } else {
        var path :| SumAt(prefix, path) == Clash;
        assert SumAt(shards, path) == Clash;
      }
    }
  }

  /** Taking one shard out of the middle and adding it last does not change the sum. */
  lemma {:induction false} SumMoves(shards: seq<map<string, Json>>, i: nat, path: seq<string>)
    requires i < |shards|
    ensures SumAt(shards, path) == Plus(SumAt(shards[..i] + shards[i + 1..], path), At(Object(shards[i]), path))
    decreases |shards|
  {
    var n := |shards| - 1;
    var rest := shards[..i] + shards[i + 1..];
    if i == n {
      assert rest == shards[..n];
    } else {
      var x, y := At(Object(shards[i]), path), At(Object(shards[n]), path);
      SumMoves(shards[..n], i, path);
      var short := shards[..n][..i] + shards[..n][i + 1..];
      assert rest[..n - 1] == short && rest[n - 1] == shards[n];
      assert shards[..n][i] == shards[i];
      PlusAssociates(SumAt(short, path), x, y);
      PlusCommutes(x, y);
      PlusAssociates(SumAt(short, path), y, x);
    }
  }

  lemma {:induction false} SumIgnoresOrder(s: seq<map<string, Json>>, t: seq<map<string, Json>>, path: seq<string>)
    requires multiset(s) == multiset(t)
    ensures SumAt(s, path) == SumAt(t, path)
    decreases |s|
  {
    hide Plus, At;
    assert |s| == |multiset(s)| == |multiset(t)| == |t|;
    if s != [] {
      var n := |s| - 1;
      assert s[n] in multiset(t);
      var i :| 0 <= i < |t| && t[i] == s[n];
      SumMoves(t, i, path);
      TakenOut(t, i);
      TakenOut(s, n);
      assert s[..n] + s[n + 1..] == s[..n];
      SumIgnoresOrder(s[..n], t[..i] + t[i + 1..], path);
    }
  }

  lemma TakenOut(s: seq<map<string, Json>>, i: nat)
    requires i < |s|
    ensures multiset(s[..i] + s[i + 1..]) == multiset(s) - multiset{s[i]}
  {
    assert s == s[..i] + [s[i]] + s[i + 1..];
  }

  /** Equal up to the order of list items */
  predicate SameUpToOrder(x: Json, y: Json) {
    match (x, y)
    case (Object(a), Object(b)) => a.Keys == b.Keys && forall k :: k in a && k in b ==> SameUpToOrder(a[k], b[k])
    case (Array(xs), Array(ys)) => multiset(xs) == multiset(ys)
    case (Leaf(s), Leaf(t)) => s == t
    case _ => false
  }

  lemma KeyIsPresent(x: Json, k: string)
    requires x.Object?
    ensures At(x, [k]) != Absent <==> k in x.fields
  {
    if k in x.fields {
      assert [k][1..] == [];
      assert At(x.fields[k], []) != Absent;
    }
  }

  lemma {:induction false} SameEverywhereIsSame(x: Json, y: Json)
    requires forall path :: At(x, path) == At(y, path)
    ensures SameUpToOrder(x, y)
    decreases x
  {
    assert At(x, []) == At(y, []);
    if x.Object? {
      forall k ensures k in x.fields <==> k in y.fields {
        KeyIsPresent(x, k);
        KeyIsPresent(y, k);
        assert At(x, [k]) == At(y, [k]);
      }
      forall k | k in x.fields && k in y.fields ensures SameUpToOrder(x.fields[k], y.fields[k]) {
        forall path ensures At(x.fields[k], path) == At(y.fields[k], path) {
          assert ([k] + path)[1..] == path;
          assert At(x, [k] + path) == At(y, [k] + path);
        }
        SameEverywhereIsSame(x.fields[k], y.fields[k]);
      }
    }
  }

  /** Loading succeeds in one order exactly when it succeeds in every order, with one result up to
      the order of list items. */
  lemma LoadIgnoresOrder(s: seq<map<string, Json>>, t: seq<map<string, Json>>)
    requires multiset(s) == multiset(t)
    ensures Load(s).Some? <==> Load(t).Some?
    ensures Load(s).Some? ==> SameUpToOrder(Object(Load(s).value), Object(Load(t).value))
  {
    LoadIsSum(s);
    LoadIsSum(t);
    forall path ensures SumAt(s, path) == SumAt(t, path) {
      SumIgnoresOrder(s, t, path);
    }
    if Load(s).Some? {
      SameEverywhereIsSame(Object(Load(s).value), Object(Load(t).value));
    }
  }

  ghost predicate PairwiseMergeable(shards: seq<map<string, Json>>) {
    forall i, j :: 0 <= i < j < |shards| ==> Mergeable(shards[i], shards[j])
  }

  lemma {:induction false} SumIsPairwise(shards: seq<map<string, Json>>, x: Fact, path: seq<string>)
    ensures Plus(SumAt(shards, path), x) != Clash <==>
      && SumAt(shards, path) != Clash
      && Plus(At(Object(map[]), path), x) != Clash
      && forall i :: 0 <= i < |shards| ==> Plus(At(Object(shards[i]), path), x) != Clash
  {
    if shards != [] {
      var n := |shards| - 1;
      SumIsPairwise(shards[..n], x, path);
      PlusIsPairwise(SumAt(shards[..n], path), At(Object(shards[n]), path), x);
    }
  }

  lemma EmptyNeverClashes(shard: map<string, Json>, path: seq<string>)
    ensures Plus(At(Object(map[]), path), At(Object(shard), path)) != Clash
  {
  }

  /** No hidden conflict arises from merging: it is enough to look at the shards two by two. */
  lemma {:induction false} LoadsIffPairwiseMergeable(shards: seq<map<string, Json>>)
    ensures Load(shards).Some? <==> PairwiseMergeable(shards)
  {
    hide Agree, ValuesMergeable;
    if shards != [] {
      var n := |shards| - 1;
      var prefix := shards[..n];
      LoadsIffPairwiseMergeable(prefix);
      if Load(prefix).Some? {
        MergeableIffAgree(Load(prefix).value, shards[n]);
        forall i | 0 <= i < n { MergeableIffAgree(shards[i], shards[n]); }
        AgreesWithAll(prefix, shards[n]);
      }
    }
  }

  lemma AgreesWithAll(shards: seq<map<string, Json>>, shard: map<string, Json>)
    requires Load(shards).Some?
    ensures Agree(Load(shards).value, shard) <==> forall i :: 0 <= i < |shards| ==> Agree(shards[i], shard)
  {
    hide Plus, At, SumAt, Load;
    LoadIsSum(shards);
    forall path { SumIsPairwise(shards, At(Object(shard), path), path); }
    forall path { EmptyNeverClashes(shard, path); }
  }

  // ----- Nothing is lost or doubled -----

  /** How often an item, or a leaf, stands at a path */
  function Times(f: Fact, x: Json): nat {
    match f
    case Items(m) => m[x]
    case Value(t) => if x == Leaf(t) then 1 else 0
    case _ => 0
  }

  function TotalTimes(shards: seq<map<string, Json>>, path: seq<string>, x: Json): nat {
    if shards == [] then 0
    else TotalTimes(shards[..|shards| - 1], path, x) + Times(At(Object(shards[|shards| - 1]), path), x)
  }

  lemma {:induction false} SumCounts(shards: seq<map<string, Json>>, path: seq<string>, x: Json)
    requires SumAt(shards, path) != Clash
    ensures Times(SumAt(shards, path), x) == TotalTimes(shards, path, x)
  {
    if shards != [] {
      SumCounts(shards[..|shards| - 1], path, x);
    }
  }

  /** Every leaf and every list item of every shard appears in the result exactly as often as the
      shards gave it. */
  lemma LoadConservesEvidence(shards: seq<map<string, Json>>, path: seq<string>, x: Json)
    requires Load(shards).Some?
    ensures Times(At(Object(Load(shards).value), path), x) == TotalTimes(shards, path, x)
  {
    LoadIsSum(shards);
    SumCounts(shards, path, x);
  }

  // ----- The merge in place -----

  datatype Slot = SubDict(dict: Dict) | ListSlot(items: seq<Json>) | LeafSlot(text: string)

  /** What a slot holds now */
  ghost function SlotValue(s: Slot): Json
    requires s.SubDict? ==> s.dict.Valid()
    reads if s.SubDict? then {s.dict} + s.dict.repr else {}
    decreases if s.SubDict? then s.dict.repr else {}, 1
  {
    match s
    case SubDict(d) => Object(d.Contents())
    case ListSlot(xs) => Array(xs)
    case LeafSlot(t) => Leaf(t)
  }

  ghost function SlotRepr(s: Slot): set<Dict>
    reads if s.SubDict? then {s.dict} else {}
  {
    if s.SubDict? then s.dict.repr else {}
  }

  class Dict {
    var fields: map<string, Slot>
    ghost var repr: set<Dict>

    ghost predicate Valid()
      reads this, repr
      decreases repr, 0
    {
      && this in repr
      && (forall k :: k in fields && fields[k].SubDict? ==>
            && fields[k].dict in repr && fields[k].dict.repr <= repr && this !in fields[k].dict.repr
            && fields[k].dict.Valid())
      && (forall k, l :: k in fields && l in fields && k != l && fields[k].SubDict? && fields[l].SubDict? ==>
            fields[k].dict.repr !! fields[l].dict.repr)
    }

    ghost function Contents(): map<string, Json>
      requires Valid()
      reads this, repr
      decreases repr, 0
    {
      map k | k in fields :: SlotValue(fields[k])
    }

    constructor ()
      ensures Valid() && Contents() == map[] && fresh(repr)
    {
      fields := map[];
      repr := {this};
    }

    /** A key the target does not have: the target takes the shard's own value over. */
    method AddKey(key: string, value: Slot)
      requires Valid() && key !in fields
      requires value.SubDict? ==> value.dict.Valid() && value.dict.repr !! repr
      modifies this
      ensures Valid() && repr == old(repr) + old(SlotRepr(value))
      ensures fields == old(fields)[key := value]
      ensures Contents() == old(Contents())[key := old(SlotValue(value))]
    {
      fields := fields[key := value];
      repr := repr + SlotRepr(value);
    }

    method ExtendList(key: string, more: seq<Json>)
      requires Valid() && key in fields && fields[key].ListSlot?
      modifies this
      ensures Valid() && repr == old(repr)
      ensures fields == old(fields)[key := ListSlot(old(fields)[key].items + more)]
      ensures Contents() == old(Contents())[key := Array(old(fields)[key].items + more)]
    {
      fields := fields[key := ListSlot(fields[key].items + more)];
    }

    /** The sub-dictionary changes in its own footprint, and its siblings do not notice. */
    method MergeSlot(key: string, theirs: Dict) returns (raised: bool)
      requires Valid() && key in fields && fields[key].SubDict?
      requires theirs.Valid() && theirs.repr !! repr
      modifies fields[key].dict.repr
      ensures raised <==> !Mergeable(old(fields[key].dict.Contents()), old(theirs.Contents()))
      ensures forall k :: k in fields && k != key && fields[k].SubDict? ==>
        && fields[k].dict.repr == old(fields[k].dict.repr)
        && fields[k].dict.Valid() && fields[k].dict.Contents() == old(fields[k].dict.Contents())
      ensures !raised ==>
        && fields[key].dict.Valid() && fields[key].dict.repr <= old(fields[key].dict.repr) + theirs.repr
        && fields[key].dict.Contents() == Merged(old(fields[key].dict.Contents()), old(theirs.Contents()))
      decreases theirs.repr, 2
    {
      ghost var mine := fields[key].dict.repr;
      assert forall k :: k in fields && k != key && fields[k].SubDict? ==> fields[k].dict.repr !! mine;
      raised := fields[key].dict.Merge(theirs);
    }

    method MergeSubDict(key: string, theirs: Dict) returns (raised: bool)
      requires Valid() && key in fields && fields[key].SubDict?
      requires theirs.Valid() && theirs.repr !! repr
      modifies this`repr, fields[key].dict.repr
      ensures raised <==> !Mergeable(old(fields[key].dict.Contents()), old(theirs.Contents()))
      ensures !raised ==> Valid() && repr <= old(repr) + theirs.repr
      ensures !raised ==>
        Contents() == old(Contents())[key := Object(Merged(old(fields[key].dict.Contents()), old(theirs.Contents())))]
      ensures !raised ==> forall k :: k in fields && k != key ==> SlotRepr(fields[k]) == old(SlotRepr(fields[k]))
      decreases theirs.repr, 3
    {
      hide ValuesMergeable, MergedValue, Mergeable, Merged;
      raised := MergeSlot(key, theirs);
      if !raised {
        repr := repr + fields[key].dict.repr;
      }
    }

    /** One key of an incoming shard */
    method MergeKey(key: string, value: Slot) returns (raised: bool)
      requires Valid()
      requires value.SubDict? ==> value.dict.Valid() && value.dict.repr !! repr
      modifies this, if key in fields then SlotRepr(fields[key]) else {}
      ensures raised <==> key in old(Contents()) && !ValuesMergeable(old(Contents())[key], old(SlotValue(value)))
      ensures !raised ==> Valid() && repr <= old(repr) + old(SlotRepr(value))
      ensures !raised ==>
        Contents() == old(Contents())[key := if key in old(Contents())
                                             then MergedValue(old(Contents())[key], old(SlotValue(value)))
                                             else old(SlotValue(value))]
      ensures !raised ==> fields.Keys == old(fields).Keys + {key}
      ensures !raised ==> forall k :: k in fields && k != key ==>
        fields[k] == old(fields)[k] && SlotRepr(fields[k]) == old(SlotRepr(fields[k]))
      decreases SlotRepr(value), 4
    {
      if key !in fields {
        AddKey(key, value);
        return false;
      }
      match (fields[key], value)
      case (SubDict(_), SubDict(theirs)) =>
        raised := MergeSubDict(key, theirs);
      case (ListSlot(mine), ListSlot(theirs)) =>
        if exists i :: 0 <= i < |theirs| && theirs[i] in mine { return true; }
        ExtendList(key, theirs);
        return false;
      case _ =>
        return true;
    }

    /** One round of the loop below: the shard itself is never written, only taken over. */
    method MergeNext(incoming: Dict, key: string, ghost todo: set<string>) returns (raised: bool)
      requires Valid() && incoming.Valid() && this !in incoming.repr
      requires key in todo && todo <= incoming.fields.Keys
      requires forall k :: k in todo ==> SlotRepr(incoming.fields[k]) !! repr
      requires key in fields ==> SlotRepr(fields[key]) !! incoming.repr
      modifies this, if key in fields then SlotRepr(fields[key]) else {}
      ensures incoming.Valid() && incoming.repr == old(incoming.repr) && incoming.fields == old(incoming.fields)
      ensures incoming.Contents() == old(incoming.Contents())
      ensures raised <==> key in old(Contents()) && !ValuesMergeable(old(Contents())[key], incoming.Contents()[key])
      ensures !raised ==> Valid() && repr <= old(repr) + incoming.repr
      ensures !raised ==>
        Contents() == old(Contents())[key := if key in old(Contents())
                                             then MergedValue(old(Contents())[key], incoming.Contents()[key])
                                             else incoming.Contents()[key]]
      ensures !raised ==> forall k :: k in todo && k != key ==> SlotRepr(incoming.fields[k]) !! repr
      ensures !raised ==> forall k :: k in fields && k != key ==>
        k in old(fields) && fields[k] == old(fields)[k] && SlotRepr(fields[k]) == old(SlotRepr(fields[k]))
      decreases incoming.repr, 0
    {
      assert SlotValue(incoming.fields[key]) == incoming.Contents()[key];
      raised := MergeKey(key, incoming.fields[key]);
    }

    /** merge. When it raises, the target is left half merged and the caller drops it. */
    method Merge(incoming: Dict) returns (raised: bool)
      requires Valid() && incoming.Valid() && repr !! incoming.repr
      modifies repr
      ensures raised <==> !Mergeable(old(Contents()), old(incoming.Contents()))
      ensures !raised ==> Valid() && Contents() == Merged(old(Contents()), old(incoming.Contents()))
      ensures !raised ==> repr <= old(repr) + old(incoming.repr)
      decreases incoming.repr, 1
    {
      hide ValuesMergeable, MergedValue, SlotValue, MergedExcept;
      ghost var a, b := Contents(), incoming.Contents();
      NothingMergedYet(a, b);
      var todo := incoming.fields.Keys;
      while todo != {}
        invariant todo <= incoming.fields.Keys == b.Keys
        invariant incoming.Valid() && incoming.Contents() == b && incoming.repr == old(incoming.repr)
        invariant Valid() && repr <= old(repr) + incoming.repr && this !in incoming.repr
        invariant forall k :: k in todo && k in fields ==> SlotRepr(fields[k]) <= old(repr)
        invariant forall k :: k in todo ==> SlotRepr(incoming.fields[k]) !! repr
        invariant MergedExcept(Contents(), a, b, todo)
      {
        var key :| key in todo;
        ghost var c := Contents();
        raised := MergeNext(incoming, key, todo);
        if raised {
          NotMergeable(c, a, b, todo, key);
          return true;
        }
        MergedOneMore(c, a, b, todo, key);
        todo := todo - {key};
      }
      MergedAll(Contents(), a, b);
      return false;
    }
  }

  /** c is a with every key of b merged in but those still to do. */
  ghost predicate MergedExcept(c: map<string, Json>, a: map<string, Json>, b: map<string, Json>, todo: set<string>) {
    && c.Keys == a.Keys + (b.Keys - todo)
    && (forall k :: k in c && (k !in b || k in todo) ==> c[k] == a[k])
    && (forall k :: k in a && k in b && k !in todo ==> ValuesMergeable(a[k], b[k]) && c[k] == MergedValue(a[k], b[k]))
    && (forall k :: k in b && k !in a && k !in todo ==> c[k] == b[k])
  }

  lemma NothingMergedYet(a: map<string, Json>, b: map<string, Json>)
    ensures MergedExcept(a, a, b, b.Keys)
  {
  }

  lemma MergedOneMore(c: map<string, Json>, a: map<string, Json>, b: map<string, Json>, todo: set<string>, key: string)
    requires MergedExcept(c, a, b, todo) && key in todo && key in b
    requires key in c ==> ValuesMergeable(c[key], b[key])
    ensures MergedExcept(c[key := if key in c then MergedValue(c[key], b[key]) else b[key]], a, b, todo - {key})
  {
  }

  lemma NotMergeable(c: map<string, Json>, a: map<string, Json>, b: map<string, Json>, todo: set<string>, key: string)
    requires MergedExcept(c, a, b, todo) && key in todo && key in b && key in c
    requires !ValuesMergeable(c[key], b[key])
    ensures !Mergeable(a, b)
  {
    assert c[key] == a[key];
  }

  lemma MergedAll(c: map<string, Json>, a: map<string, Json>, b: map<string, Json>)
    requires MergedExcept(c, a, b, {})
    ensures Mergeable(a, b) && c == Merged(a, b)
  {
    assert c.Keys == Merged(a, b).Keys;
  }

  // ----- Loading the shards -----

  /** What json.loads gave for one file: a dictionary object or something else */
  datatype Payload = DictPayload(dict: Dict) | OtherPayload

  ghost function PayloadRepr(p: Payload): set<Dict>
    reads if p.DictPayload? then {p.dict} else {}
  {
    if p.DictPayload? then p.dict.repr else {}
  }

  /** The payload holds this shard. */
  ghost predicate Holds(p: Payload, shard: map<string, Json>)
    reads if p.DictPayload? then {p.dict} + p.dict.repr else {}
  {
    p.DictPayload? ==> p.dict.Valid() && p.dict.Contents() == shard
  }

  /** Freshly parsed payloads share no object. Merging writes into the first ones, which the result
      has taken over, but never into one still to come. */
  method LoadShards(payloads: seq<Payload>, ghost shards: seq<map<string, Json>>, ghost footprint: set<Dict>)
    returns (result: Option<Dict>)
    requires |shards| == |payloads|
    requires forall i :: 0 <= i < |payloads| ==> PayloadRepr(payloads[i]) <= footprint
    requires forall i :: 0 <= i < |payloads| ==> Holds(payloads[i], shards[i])
    requires forall i, j :: 0 <= i < j < |payloads| ==> PayloadRepr(payloads[i]) !! PayloadRepr(payloads[j])
    modifies footprint
    ensures result.Some? <==>
      && payloads != [] && (forall i :: 0 <= i < |payloads| ==> payloads[i].DictPayload?) && Load(shards).Some?
    ensures result.Some? ==> result.value.Valid() && result.value.Contents() == Load(shards).value
  {
    hide Load, ValuesMergeable, MergedValue;
    NothingLoaded(shards);
    if payloads == [] { return None; }
    var target := new Dict();
    for i := 0 to |payloads|
      invariant target.Valid() && Load(shards[..i]) == Some(target.Contents())
      invariant forall j :: 0 <= j < i ==> payloads[j].DictPayload?
      invariant forall d :: d in target.repr ==> fresh(d) || d in footprint
      invariant forall j :: i <= j < |payloads| ==> PayloadRepr(payloads[j]) == old(PayloadRepr(payloads[j]))
      invariant forall j :: i <= j < |payloads| ==> PayloadRepr(payloads[j]) !! target.repr
      invariant forall j :: i <= j < |payloads| ==> Holds(payloads[j], shards[j])
    {
      if payloads[i].OtherPayload? { return None; }
      LoadNext(shards, i);
      assert forall j :: i < j < |payloads| ==> PayloadRepr(payloads[i]) !! PayloadRepr(payloads[j]);
      var raised := target.Merge(payloads[i].dict);
      if raised {
        LoadFailsEarly(shards, i + 1);
        return None;
      }
    }
    assert shards[..|payloads|] == shards;
    return Some(target);
  }

  lemma NothingLoaded(shards: seq<map<string, Json>>)
    ensures Load(shards[..0]) == Some(map[])
  {
  }

  lemma LoadNext(shards: seq<map<string, Json>>, i: nat)
    requires i < |shards| && Load(shards[..i]).Some?
    ensures
      var before := Load(shards[..i]).value;
      Load(shards[..i + 1]) == if Mergeable(before, shards[i]) then Some(Merged(before, shards[i])) else None
  {
    assert shards[..i + 1][..i] == shards[..i];
  }

  lemma {:induction false} LoadFailsEarly(shards: seq<map<string, Json>>, n: nat)
    requires n <= |shards| && Load(shards[..n]).None?
    ensures Load(shards).None?
    decreases |shards|
  {
    if n < |shards| {
      assert shards[..|shards| - 1][..n] == shards[..n];
      LoadFailsEarly(shards[..|shards| - 1], n);
    } else {
      assert shards[..n] == shards;
    }
  }
}
