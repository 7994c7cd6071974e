/** What `deepMerge` guarantees about the tree it builds. */
module MergeProperties {
  import opened Json
  import opened Utils
  import opened Context

  /** A leaf is anything the walk does not descend into further and the
      merger does not recurse into. */
  predicate IsLeaf(v: Json)
  {
    !v.Arr? && !v.Obj?
  }

  /** Merging a `null` or `undefined` source (what a failed load produces)
      returns the target unchanged. */
  lemma MergeNullSource(target: Json, source: Json, override: bool)
    requires Nullish(source)
    ensures DeepMerge(target, source, override) == target
  {
  }

  /** Merging into a `null` or `undefined` target returns the source. */
  lemma MergeNullTarget(target: Json, source: Json, override: bool)
    requires Nullish(target) && !Nullish(source)
    ensures DeepMerge(target, source, override) == source
  {
  }

  /** Two arrays merge into an array as long as the longer one; past the
      end of the shorter one the longer one's elements follow in order. */
  lemma ArrayMergeShape(t: seq<Json>, s: seq<Json>, override: bool)
    ensures var r := DeepMerge(Arr(t), Arr(s), override);
            && r.Arr? && |r.elems| == Max(|t|, |s|)
            && (|t| <= |s| ==> r.elems[|t|..] == s[|t|..])
            && (|s| <= |t| ==> r.elems[|s|..] == t[|s|..])
  {
  }

  /** Without override, an index holding a defined value that the merger
      does not recurse into keeps the target's element; an `undefined`
      element is filled from the source. */
  lemma ArrayMergeKeepsDefinedElements(t: seq<Json>, s: seq<Json>, i: nat)
    requires i < |t| && i < |s|
    requires !ArraySlotRecurses(t[i], s[i])
    ensures DeepMerge(Arr(t), Arr(s), false).elems[i] == if t[i].Undef? then s[i] else t[i]
  {
  }

  /** Inside arrays `typeof null === 'object'`, so an incoming `null` over
      an object recurses and keeps the object even when overriding. */
  lemma ArrayMergeNullOverObject(t: seq<Json>, s: seq<Json>, i: nat, override: bool)
    requires i < |t| && i < |s|
    requires t[i].Obj? && s[i].Null?
    ensures DeepMerge(Arr(t), Arr(s), override).elems[i] == t[i]
  {
  }

  /** Inside arrays a `null` element of the target also recurses against an
      incoming object, and `deepMerge(null, object)` gives the object, so
      the `null` is replaced even without override. */
  lemma ArrayMergeFillsNullSlot(t: seq<Json>, s: seq<Json>, i: nat, override: bool)
    requires i < |t| && i < |s|
    requires t[i].Null? && s[i].Obj?
    ensures DeepMerge(Arr(t), Arr(s), override).elems[i] == s[i]
  {
    assert ArraySlotRecurses(t[i], s[i]);
    assert DeepMerge(t[i], s[i], override) == s[i];
  }

  /** Inside objects `null` is excluded from recursion, so an incoming
      `null` over an object replaces it when overriding. */
  lemma ObjectMergeNullOverObject(t: map<string, Json>, s: map<string, Json>, k: string)
    requires k in t && k in s
    requires t[k].Obj? && s[k].Null?
    ensures DeepMerge(Obj(t), Obj(s), true).fields[k] == Null
  {
  }

  /** Two objects merge into an object holding every key of both: keys only
      in the target keep their value, keys only in the source are added
      with theirs, whatever the override flag. */
  lemma ObjectMergeKeys(t: map<string, Json>, s: map<string, Json>, override: bool)
    ensures var r := DeepMerge(Obj(t), Obj(s), override);
            && r.Obj? && r.fields.Keys == t.Keys + s.Keys
            && (forall k :: k in t && k !in s ==> r.fields[k] == t[k])
            && (forall k :: k in s && k !in t ==> r.fields[k] == s[k])
  {
  }

  /** A key on both sides whose values are not a pair of non-null objects
      or a pair of arrays takes the source's value when overriding and
      keeps the target's, even `undefined`, otherwise. */
  lemma ObjectMergeConflict(t: map<string, Json>, s: map<string, Json>, k: string, override: bool)
    requires k in t && k in s
    requires !ObjectSlotRecurses(t[k], s[k])
    ensures DeepMerge(Obj(t), Obj(s), override).fields[k] == if override then s[k] else t[k]
  {
  }

  /** Defined values of mismatched shapes (a scalar on either side, or an
      array against an object) are not combined: the flag picks one. */
  lemma MergeShapeMismatch(target: Json, source: Json, override: bool)
    requires !Nullish(target) && !Nullish(source)
    requires !(target.Arr? && source.Arr?) && !(target.Obj? && source.Obj?)
    ensures DeepMerge(target, source, override) == if override then source else target
  {
  }

  /** Merging a tree with itself gives the tree back, under either flag. */
  lemma {:induction false} MergeIdempotent(tree: Json, override: bool)
    ensures DeepMerge(tree, tree, override) == tree
    decreases tree
  {
    match tree
    case Arr(es) =>
      forall i | 0 <= i < |es|
        ensures ArraySlot(es[i], es[i], override) == es[i]
      {
        MergeIdempotent(es[i], override);
      }
      assert DeepMerge(tree, tree, override).elems == es;
    case Obj(m) =>
      forall k | k in m
        ensures ObjectSlot(m[k], m[k], override) == m[k]
      {
        MergeIdempotent(m[k], override);
      }
      assert DeepMerge(tree, tree, override).fields == m;
    case _ =>
  }

  /** Without override, every leaf of the target stays where it is: the
      walk along its path reaches the same value in the merged tree. At the
      root a `null` or `undefined` target is replaced, so the path must be
      non-empty for those. */
  lemma {:induction false} MergeKeepsTargetLeaves(target: Json, source: Json, p: seq<string>, v: Json)
    requires Walk(target, p) == Some(v) && IsLeaf(v)
    requires p == [] ==> !Nullish(v)
    ensures Walk(DeepMerge(target, source, false), p) == Some(v)
    decreases |p|
  {
    if p != [] && target.Obj? && source.Obj? {
      var k := p[0];
      if k in source.fields && ObjectSlotRecurses(target.fields[k], source.fields[k]) {
        MergeKeepsTargetLeaves(target.fields[k], source.fields[k], p[1..], v);
      }
    }
  }

  /** Without override, every path of the target is still a path of the
      merged tree. */
  lemma {:induction false} MergeKeepsTargetPaths(target: Json, source: Json, p: seq<string>)
    requires Walk(target, p).Some?
    ensures Walk(DeepMerge(target, source, false), p).Some?
    decreases |p|
  {
    if p != [] && target.Obj? && source.Obj? {
      var k := p[0];
      if k in source.fields && ObjectSlotRecurses(target.fields[k], source.fields[k]) {
        MergeKeepsTargetPaths(target.fields[k], source.fields[k], p[1..]);
      }
    }
  }

  /** With override, every leaf of the source wins at its path. At the root
      a `null` or `undefined` source is ignored, so the path must be
      non-empty for those. */
  lemma {:induction false} MergeOverrideTakesSourceLeaves(target: Json, source: Json, p: seq<string>, v: Json)
    requires Walk(source, p) == Some(v) && IsLeaf(v)
    requires p == [] ==> !Nullish(v)
    ensures Walk(DeepMerge(target, source, true), p) == Some(v)
    decreases |p|
  {
    if p != [] && target.Obj? && source.Obj? {
      var k := p[0];
      if k in target.fields && ObjectSlotRecurses(target.fields[k], source.fields[k]) {
        MergeOverrideTakesSourceLeaves(target.fields[k], source.fields[k], p[1..], v);
      }
    }
  }

  /** Under either flag, a path of the target that leaves the source's
      objects at segment `i` (the source is an object there without that
      key) keeps the target's whole subtree. */
  lemma {:induction false} MergeKeepsPathsMissingFromSource(target: Json, source: Json, override: bool, p: seq<string>, i: nat)
    requires i < |p| && Walk(target, p).Some?
    requires Walk(source, p[..i]).Some? && Walk(source, p[..i]).value.Obj?
    requires p[i] !in Walk(source, p[..i]).value.fields
    ensures Walk(DeepMerge(target, source, override), p) == Walk(target, p)
    decreases i
  {
    var k := p[0];
    if i > 0 {
      assert p[..i][0] == k && p[..i][1..] == p[1..][..i - 1];
      assert p[1..][i - 1] == p[i];
      var tk, sk := target.fields[k], source.fields[k];
      MergeKeepsPathsMissingFromSource(tk, sk, override, p[1..], i - 1);
      assert ObjectSlotRecurses(tk, sk);
    }
  }

  /** Under either flag, a path of the source that leaves the target's
      objects at segment `i` (the target is an object there without that
      key) brings the source's whole subtree into the merged tree. */
  lemma {:induction false} MergeAddsPathsMissingFromTarget(target: Json, source: Json, override: bool, p: seq<string>, i: nat)
    requires i < |p| && Walk(source, p).Some?
    requires Walk(target, p[..i]).Some? && Walk(target, p[..i]).value.Obj?
    requires p[i] !in Walk(target, p[..i]).value.fields
    ensures Walk(DeepMerge(target, source, override), p) == Walk(source, p)
    decreases i
  {
    var k := p[0];
    if i > 0 {
      assert p[..i][0] == k && p[..i][1..] == p[1..][..i - 1];
      assert p[1..][i - 1] == p[i];
      var tk, sk := target.fields[k], source.fields[k];
      MergeAddsPathsMissingFromTarget(tk, sk, override, p[1..], i - 1);
      assert ObjectSlotRecurses(tk, sk);
    }
  }
}
