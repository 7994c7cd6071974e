/** The path resolver of `src/utils.ts`: `getNestedObject` walks a list of
    segments through own keys of objects and falls back to `{}` on any miss;
    `getNestedValue` splits a dotted key, walks every segment but the last
    and reads the last one as a property of the node it reached. */
module Utils {
  import opened Json
  import Strings

  /** The strict walk: follows each segment as an own key of an object and
      fails as soon as the current node is not an object holding it
      (arrays are not traversed by segment in this model). */
  function Walk(o: Json, keys: seq<string>): Option<Json>
    decreases |keys|
  {
    if keys == [] then Some(o)
    else if o.Obj? && keys[0] in o.fields then Walk(o.fields[keys[0]], keys[1..])
    else None
  }

  /** Walking `p + q` is walking `p`, then walking `q` from where `p` ended. */
  lemma {:induction false} WalkAppend(o: Json, p: seq<string>, q: seq<string>)
    ensures Walk(o, p + q) == match Walk(o, p) case Some(v) => Walk(v, q) case None => None
    decreases |p|
  {
    if p == [] {
      assert p + q == q;
    } else {
      assert (p + q)[0] == p[0];
      assert (p + q)[1..] == p[1..] + q;
      if o.Obj? && p[0] in o.fields {
        WalkAppend(o.fields[p[0]], p[1..], q);
      }
    }
  }

  /** One more step of a successful walk. */
  lemma WalkStep(o: Json, keys: seq<string>, i: nat, v: Json)
    requires i < |keys|
    requires Walk(o, keys[..i]) == Some(v)
    ensures Walk(o, keys[..i + 1]) ==
              if v.Obj? && keys[i] in v.fields then Some(v.fields[keys[i]]) else None
  {
    assert keys[..i + 1] == keys[..i] + [keys[i]];
    WalkAppend(o, keys[..i], [keys[i]]);
  }

  /** A walk that fails on a prefix fails on the whole path. */
  lemma WalkFailsOnPrefix(o: Json, keys: seq<string>, i: nat)
    requires i <= |keys|
    requires Walk(o, keys[..i]) == None
    ensures Walk(o, keys) == None
  {
    assert keys == keys[..i] + keys[i..];
    WalkAppend(o, keys[..i], keys[i..]);
  }

  /** What `getNestedObject` returns: the node at the end of the walk, or
      `{}` when the walk fails. */
  function NestedObject(o: Json, keys: seq<string>): Json
  {
    match Walk(o, keys)
    case Some(v) => v
    case None => EmptyObject
  }

  /** `getNestedObject(obj, keys)`: the loop of src/utils.ts:7-15. */
  method GetNestedObject(obj: Json, keys: seq<string>) returns (r: Json)
    ensures r == NestedObject(obj, keys)
  {
    var current := obj;
    for i := 0 to |keys|
      invariant Walk(obj, keys[..i]) == Some(current)
    {
      WalkStep(obj, keys, i, current);
      if !(current.Obj? && keys[i] in current.fields) {
        WalkFailsOnPrefix(obj, keys, i + 1);
        return EmptyObject;
      }
      current := current.fields[keys[i]];
    }
    assert keys[..|keys|] == keys;
    return current;
  }

  /** With no segments the walk stays at the root. */
  lemma NestedObjectEmptyPath(o: Json)
    ensures NestedObject(o, []) == o
  {
  }

  /** `getNestedObject` composes along a split path, including through the
      `{}` fallback. */
  lemma NestedObjectCompose(o: Json, p: seq<string>, q: seq<string>)
    ensures NestedObject(o, p + q) == NestedObject(NestedObject(o, p), q)
  {
    WalkAppend(o, p, q);
    if Walk(o, p).None? && q != [] {
      assert Walk(EmptyObject, q) == None;
    }
  }

  /** A canonical array index: decimal digits with no leading zero. */
  predicate IsIndexKey(attr: string)
  {
    && |attr| >= 1
    && (forall i :: 0 <= i < |attr| ==> Strings.IsDigit(attr[i]))
    && (|attr| > 1 ==> attr[0] != '0')
  }

  /** `obj[attr]`: an own field of an object; a position or the `length`
      of a string or an array; `undefined` for anything else; and a
      `TypeError` on `null` and `undefined`. */
  function Index(obj: Json, attr: string): (r: Result<Json>)
    ensures r.TypeError? <==> Nullish(obj)
  {
    match obj
    case Undef => TypeError
    case Null => TypeError
    case Obj(m) => Ok(if attr in m then m[attr] else Undef)
    case Str(s) =>
      Ok(if attr == "length" then Num(|s|)
         else if IsIndexKey(attr) && 0 <= Strings.ParseDigits(attr) < |s| then Str([s[Strings.ParseDigits(attr)]])
         else Undef)
    case Arr(es) =>
      Ok(if attr == "length" then Num(|es|)
         else if IsIndexKey(attr) && 0 <= Strings.ParseDigits(attr) < |es| then es[Strings.ParseDigits(attr)]
         else Undef)
    case _ => Ok(Undef)
  }

  /** The decimal name of a position reads that position of a string or an
      array, and `length` reads the length. */
  lemma IndexPosition(node: Json, i: nat)
    requires node.Str? || node.Arr?
    ensures node.Str? && i < |node.s| ==> Index(node, Strings.NatToString(i)) == Ok(Str([node.s[i]]))
    ensures node.Arr? && i < |node.elems| ==> Index(node, Strings.NatToString(i)) == Ok(node.elems[i])
    ensures node.Str? ==> Index(node, "length") == Ok(Num(|node.s|))
    ensures node.Arr? ==> Index(node, "length") == Ok(Num(|node.elems|))
  {
    var key := Strings.NatToString(i);
    Strings.ParseNatToString(i);
    assert key != "length" by {
      assert Strings.IsDigit(key[0]);
    }
    assert IsIndexKey(key);
  }

  /** The segments of a dotted key. */
  function Segments(key: string): (r: seq<string>)
    ensures |r| >= 1
  {
    Strings.Split(key, '.')
  }

  /** `getNestedValue(data, key)`. `split` never yields an empty list, so
      the `attr == null` branch cannot be taken and is not modelled. */
  function GetNestedValue(data: Json, key: string): Result<Json>
  {
    var keys := Segments(key);
    var attr := keys[|keys| - 1];
    var init := keys[..|keys| - 1];
    var obj := if |init| > 0 then NestedObject(data, init) else data;
    Index(obj, attr)
  }

  /** The dotted key made of the given segments. */
  function DottedKey(segs: seq<string>): string
  {
    Strings.Join(segs, '.')
  }

  predicate DotFree(segs: seq<string>)
  {
    forall i :: 0 <= i < |segs| ==> '.' !in segs[i]
  }

  /** A key without a dot is looked up directly on the root. */
  lemma GetNestedValueSingleSegment(data: Json, key: string)
    requires '.' !in key
    ensures GetNestedValue(data, key) == Index(data, key)
  {
    Strings.SplitWithoutSeparator(key, '.');
  }

  /** The lookup reads the last segment of the key from the node the walk
      over the other segments reached. */
  lemma GetNestedValueAtNode(data: Json, segs: seq<string>, node: Json)
    requires |segs| >= 1 && DotFree(segs)
    requires Walk(data, segs[..|segs| - 1]) == Some(node)
    ensures GetNestedValue(data, DottedKey(segs)) == Index(node, segs[|segs| - 1])
  {
    Strings.SplitJoin(segs, '.');
  }

  /** When every segment of the key is an own key along the way, the lookup
      returns the value at the end of the path. */
  lemma GetNestedValueFound(data: Json, segs: seq<string>, v: Json)
    requires |segs| >= 1 && DotFree(segs)
    requires Walk(data, segs) == Some(v)
    ensures GetNestedValue(data, DottedKey(segs)) == Ok(v)
  {
    var n := |segs| - 1;
    assert segs == segs[..n] + [segs[n]];
    WalkAppend(data, segs[..n], [segs[n]]);
    var node := Walk(data, segs[..n]).value;
    assert Walk(node, [segs[n]]) == Some(v);
    GetNestedValueAtNode(data, segs, node);
  }

  /** When an intermediate node is missing, `null`, or not an object, the
      lookup reads from `{}` and yields `undefined`. */
  lemma GetNestedValueMissing(data: Json, segs: seq<string>)
    requires |segs| >= 2 && DotFree(segs)
    requires Walk(data, segs[..|segs| - 1]) == None
    ensures GetNestedValue(data, DottedKey(segs)) == Ok(Undef)
  {
    Strings.SplitJoin(segs, '.');
  }

  /** The node reached by the walk is not checked again: reading the last
      segment throws exactly when that node is `null` or `undefined`, and a
      scalar node yields `undefined`. */
  lemma GetNestedValueReachedNode(data: Json, segs: seq<string>, node: Json)
    requires |segs| >= 1 && DotFree(segs)
    requires Walk(data, segs[..|segs| - 1]) == Some(node)
    ensures GetNestedValue(data, DottedKey(segs)).TypeError? <==> Nullish(node)
    ensures (node.Bool? || node.Num?) ==> GetNestedValue(data, DottedKey(segs)) == Ok(Undef)
  {
    GetNestedValueAtNode(data, segs, node);
  }

  /** A key ending in a position below a string or an array reads that
      position: `title.0` on `{title: "Title"}` is `"T"`. */
  lemma GetNestedValuePosition(data: Json, segs: seq<string>, node: Json, i: nat)
    requires |segs| >= 1 && DotFree(segs) && segs[|segs| - 1] == Strings.NatToString(i)
    requires Walk(data, segs[..|segs| - 1]) == Some(node)
    ensures node.Str? && i < |node.s| ==> GetNestedValue(data, DottedKey(segs)) == Ok(Str([node.s[i]]))
    ensures node.Arr? && i < |node.elems| ==> GetNestedValue(data, DottedKey(segs)) == Ok(node.elems[i])
  {
    GetNestedValueAtNode(data, segs, node);
    if node.Str? || node.Arr? {
      IndexPosition(node, i);
    }
  }

  /** The empty key looks up the empty-named field of the root. */
  lemma GetNestedValueEmptyKey(data: Json)
    ensures GetNestedValue(data, "") == Index(data, "")
  {
    assert Strings.Split("", '.') == [""];
  }
}
