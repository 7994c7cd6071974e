/** The resource store of `src/i18nContext.ts`: the structural merger
    `deepMerge`, and the single `I18nContext` holding the merged resource
    tree and the active language. */
module Context {
  import opened Json
  import opened Utils

  function Max(a: int, b: int): int
  {
    if a >= b then a else b
  }

  /** The test guarding recursion for array slots: both elements are of
      type `object` (which includes `null`) and agree on being arrays. */
  predicate ArraySlotRecurses(t: Json, s: Json)
  {
    TypeofObject(t) && TypeofObject(s) && IsArray(t) == IsArray(s)
  }

  /** The test guarding recursion for object fields: as for arrays, but
      `null` on either side is excluded. */
  predicate ObjectSlotRecurses(t: Json, s: Json)
  {
    TypeofObject(t) && TypeofObject(s) && !t.Null? && !s.Null? && IsArray(t) == IsArray(s)
  }

  /** An index present in both arrays: recurse, or take the incoming
      element when overriding or when the existing one is `undefined`. */
  function ArraySlot(t: Json, s: Json, override: bool): Json
    decreases s, 1
  {
    if ArraySlotRecurses(t, s) then DeepMerge(t, s, override)
    else if override || t.Undef? then s
    else t
  }

  /** A key present in both objects: recurse, or let the override flag
      decide. */
  function ObjectSlot(t: Json, s: Json, override: bool): Json
    decreases s, 1
  {
    if ObjectSlotRecurses(t, s) then DeepMerge(t, s, override)
    else if override then s
    else t
  }

  /** `deepMerge(target, source, override)`, as a value. Arrays align by
      index, objects by key; a key or index only in the source is always
      added. */
  function DeepMerge(target: Json, source: Json, override: bool): Json
    decreases source, 0
  {
    if Nullish(source) then target
    else if Nullish(target) then source
    else if target.Arr? && source.Arr? then
      var t, s := target.elems, source.elems;
      Arr(seq(Max(|t|, |s|), i requires 0 <= i < Max(|t|, |s|) =>
        if i < |t| && i < |s| then ArraySlot(t[i], s[i], override)
        else if i < |t| then t[i]
        else s[i]))
    else if target.Obj? && source.Obj? then
      var t, s := target.fields, source.fields;
      Obj(map k | k in t.Keys + s.Keys ::
        if k !in s then t[k]
        else if k !in t then s[k]
        else ObjectSlot(t[k], s[k], override))
    else if override then source
    else target
  }

  /** `deepMerge(target, source, override)` of src/i18nContext.ts:12-69. */
  method MergeTrees(target: Json, source: Json, override: bool) returns (r: Json)
    ensures r == DeepMerge(target, source, override)
    decreases source, 1
  {
    if Nullish(source) {
      r := target;
    } else if Nullish(target) {
      r := source;
    } else if target.Arr? && source.Arr? {
      r := MergeArrays(target, source, override);
    } else if target.Obj? && source.Obj? {
      r := MergeObjects(target, source, override);
    } else {
      r := if override then source else target;
    }
  }

  /** The array loop of src/i18nContext.ts:20-38, updating a copy of the
      target array index by index. */
  method MergeArrays(target: Json, source: Json, override: bool) returns (r: Json)
    requires target.Arr? && source.Arr?
    ensures r == DeepMerge(target, source, override)
    decreases source, 0
  {
    var t, s := target.elems, source.elems;
    var result := t;
    for i := 0 to |s|
      invariant |result| == Max(|t|, i)
      invariant forall j :: 0 <= j < i && j < |t| ==> result[j] == ArraySlot(t[j], s[j], override)
      invariant forall j :: |t| <= j < i ==> result[j] == s[j]
      invariant forall j :: i <= j < |t| ==> result[j] == t[j]
    {
      if i < |result| {
        if ArraySlotRecurses(result[i], s[i]) {
          var merged := MergeTrees(result[i], s[i], override);
          result := result[i := merged];
        } else if override || result[i].Undef? {
          result := result[i := s[i]];
        }
      } else {
        result := result + [s[i]];
      }
    }
    r := Arr(result);
  }

  /** The key loop of src/i18nContext.ts:40-65, updating a copy of the
      target object key by key. */
  method MergeObjects(target: Json, source: Json, override: bool) returns (r: Json)
    requires target.Obj? && source.Obj?
    ensures r == DeepMerge(target, source, override)
    decreases source, 0
  {
    var t, s := target.fields, source.fields;
    var result := t;
    var pending := s.Keys;
    while pending != {}
      invariant pending <= s.Keys
      invariant result.Keys == t.Keys + (s.Keys - pending)
      invariant forall k :: k in result ==>
                  result[k] == (if k !in s || k in pending then t[k]
                                else if k !in t then s[k]
                                else ObjectSlot(t[k], s[k], override))
      decreases pending
    {
      var key :| key in pending;
      if key in t && ObjectSlotRecurses(t[key], s[key]) {
        var merged := MergeTrees(t[key], s[key], override);
        result := result[key := merged];
      } else if override || key !in t {
        result := result[key := s[key]];
      }
      pending := pending - {key};
    }
    r := Obj(result);
  }

  /** Folds the bundles, in submission order, into a tree. */
  function MergeAll(tree: Json, bundles: seq<(Json, bool)>): Json
    decreases |bundles|
  {
    if bundles == [] then tree
    else MergeAll(DeepMerge(tree, bundles[0].0, bundles[0].1), bundles[1..])
  }

  lemma MergeAllSnoc(tree: Json, bundles: seq<(Json, bool)>, b: (Json, bool))
    ensures MergeAll(tree, bundles + [b]) == DeepMerge(MergeAll(tree, bundles), b.0, b.1)
    decreases |bundles|
  {
    if bundles != [] {
      assert (bundles + [b])[1..] == bundles[1..] + [b];
      MergeAllSnoc(DeepMerge(tree, bundles[0].0, bundles[0].1), bundles[1..], b);
    }
  }

  /** The process-wide store. */
  class I18nContext {
    var resources: Json
    var language: string
    /** Every bundle submitted so far, with its override flag. */
    ghost var bundles: seq<(Json, bool)>

    /** The held tree is the merge of every bundle, in submission order,
        into the initial `{}`. */
    ghost predicate Valid()
      reads this`resources, this`bundles
    {
      resources == MergeAll(EmptyObject, bundles)
    }

    constructor ()
      ensures Valid()
      ensures resources == EmptyObject && language == "" && bundles == []
    {
      resources := EmptyObject;
      language := "";
      bundles := [];
    }

    /** `setResource(langRes, override)`. */
    method SetResource(langRes: Json, override: bool)
      requires Valid()
      modifies this`resources, this`bundles
      ensures Valid()
      ensures resources == DeepMerge(old(resources), langRes, override)
      ensures bundles == old(bundles) + [(langRes, override)]
      ensures Nullish(langRes) ==> resources == old(resources)
    {
      MergeAllSnoc(EmptyObject, bundles, (langRes, override));
      resources := MergeTrees(resources, langRes, override);
      bundles := bundles + [(langRes, override)];
    }

    /** The `language` setter: any string is accepted. */
    method SetLanguage(value: string)
      modifies this`language
      ensures Language() == value
    {
      language := value;
    }

    /** The `language` getter. */
    function Language(): string
      reads this`language
    {
      language
    }

    /** `get(key)`. */
    function Get(key: string): Result<Json>
      reads this`resources
    {
      GetNestedValue(resources, key)
    }

    /** `getText(key, defaultText)`: the resolved string, else a non-empty
        default, else `Invalid key: <key>`. */
    function GetText(key: string, defaultText: Option<string>): Result<string>
      reads this`resources
    {
      match Get(key)
      case TypeError => TypeError
      case Ok(v) =>
        if v.Str? then Ok(v.s)
        else if defaultText.Some? && defaultText.value != "" then Ok(defaultText.value)
        else Ok("Invalid key: " + key)
    }
  }
}
