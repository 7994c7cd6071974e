/** The helpers of `src/I18nUtils.ts`: the language suffix of resource file
    names, the `{{path}}` template interpolator, the lazy resource facade
    and `getI18nText`. */
module I18nUtils {
  import opened Json
  import opened Utils
  import opened Context
  import MergeProperties
  import Strings

  // ---------------------------------------------------------------------
  // appendSuffix

  /** `appendSuffix(filename, suffix)`: `_suffix` goes before the last dot;
      without a dot the suffix is appended with no separator. */
  function AppendSuffix(filename: string, suffix: string): string
  {
    var lastDot := Strings.LastIndexOf(filename, '.');
    if lastDot == -1 then filename + suffix
    else filename[..lastDot] + "_" + suffix + filename[lastDot..]
  }

  /** A name without an extension gets the suffix appended directly. */
  lemma AppendSuffixWithoutExtension(filename: string, suffix: string)
    requires '.' !in filename
    ensures AppendSuffix(filename, suffix) == filename + suffix
  {
  }

  /** Only the last dot counts: the suffix goes between the stem, which may
      hold dots of its own, and the final extension. */
  lemma AppendSuffixBeforeLastDot(stem: string, ext: string, suffix: string)
    requires '.' !in ext
    ensures AppendSuffix(stem + "." + ext, suffix) == stem + "_" + suffix + "." + ext
  {
    var f := stem + "." + ext;
    var r := Strings.LastIndexOf(f, '.');
    assert f[|stem|] == '.';
    assert f[..|stem|] == stem;
    assert f[|stem|..] == "." + ext;
  }

  /** The name grows by the suffix, plus one for the underscore when there
      is an extension. */
  lemma AppendSuffixLength(filename: string, suffix: string)
    ensures |AppendSuffix(filename, suffix)| == |filename| + |suffix| + (if '.' in filename then 1 else 0)
  {
  }

  // ---------------------------------------------------------------------
  // formatText

  /** A match of `{{\s*([^}]+)\s*}}`: the captured path and how many
      characters the whole match spans. */
  datatype Placeholder = Placeholder(path: string, length: nat)

  /** Whether the regular expression matches at the start of `s`, and
      what it captures. After `{{` the group and the trailing `\s*` cannot
      contain `}`, so the closing `}}` must start at the first `}`; the
      greedy group then takes everything up to it, trailing white space
      included. If only white space stands between the braces, the leading
      `\s*` gives its last character back to the group. */
  function MatchPlaceholder(s: string): (r: Option<Placeholder>)
    ensures r.Some? ==> 5 <= r.value.length <= |s|
    ensures r.Some? ==> s[..2] == "{{" && s[r.value.length - 2..r.value.length] == "}}"
    ensures r.Some? ==> |r.value.path| >= 1 && '}' !in r.value.path
  {
    if |s| < 2 || s[0] != '{' || s[1] != '{' then None
    else
      var body := s[2..];
      var close := Strings.IndexOf(body, '}');
      if close < 1 || close + 1 >= |body| || body[close + 1] != '}' then None
      else
        assert s[close + 2] == '}' && s[close + 3] == '}';
        Some(Placeholder(CapturedPath(body[..close]), close + 4))
  }

  /** The group captured from the text between the braces: the leading
      white space is dropped, except the last character of text that is
      all white space. */
  function CapturedPath(inner: string): (path: string)
    requires |inner| >= 1 && '}' !in inner
    ensures |path| >= 1 && '}' !in path
  {
    var lead := Strings.LeadingSpaces(inner);
    if lead < |inner| then inner[lead..] else inner[|inner| - 1..]
  }

  /** The regular expression matches `{{`, a `}`-free text and `}}`. */
  lemma MatchOf(s: string, inner: string, after: string)
    requires s == "{{" + inner + "}}" + after
    requires |inner| >= 1 && '}' !in inner
    ensures MatchPlaceholder(s) == Some(Placeholder(CapturedPath(inner), |inner| + 4))
  {
    assert s[0] == '{' && s[1] == '{';
    var body := s[2..];
    var closing := "}}" + after;
    assert body == inner + closing;
    assert closing[0] == '}' && closing[1] == '}';
    assert Strings.IndexOf(closing, '}') == 0;
    Strings.IndexOfAppend(inner, closing, '}');
    var close := Strings.IndexOf(body, '}');
    assert close == |inner| && body[close + 1] == '}';
    assert body[..close] == inner;
  }

  /** Every match is `{{`, a non-empty `}`-free text and `}}`, and the
      path is the group captured from that text. */
  lemma MatchShape(s: string)
    requires MatchPlaceholder(s).Some?
    ensures var m := MatchPlaceholder(s).value;
            var inner := s[2..m.length - 2];
            && s == "{{" + inner + "}}" + s[m.length..]
            && |inner| >= 1 && '}' !in inner
            && m.path == CapturedPath(inner)
  {
    var m := MatchPlaceholder(s).value;
    var body := s[2..];
    var close := Strings.IndexOf(body, '}');
    assert m.length == close + 4;
    var inner := s[2..m.length - 2];
    assert inner == body[..close];
    assert s[..2] == "{{" && s[m.length - 2..m.length] == "}}";
    assert s == s[..2] + inner + s[m.length - 2..m.length] + s[m.length..];
  }

  /** The replacement for one placeholder: the path is split on dots and
      walked from the parameters (`{}` when they are `null` or
      `undefined`); a segment that cannot be followed gives `Missing`. */
  function Resolve(path: string, params: Json): string
  {
    var root := if Nullish(params) then EmptyObject else params;
    match Walk(root, Segments(path))
    case Some(v) => ToJsString(v)
    case None => "Missing"
  }

  /** One move of the scan over a non-empty text: the replacement of the
      match starting there and its length, else the first character. */
  function Step(s: string, params: Json): (r: (string, nat))
    requires |s| >= 1
    ensures 1 <= r.1 <= |s|
  {
    match MatchPlaceholder(s)
    case Some(m) => (Resolve(m.path, params), m.length)
    case None => ([s[0]], 1)
  }

  /** `formatText(template, params)`: every match is replaced, scanning
      resumes after it, and replacements are not scanned again. */
  function Format(template: string, params: Json): string
    decreases |template|
  {
    if template == [] then ""
    else
      var (piece, n) := Step(template, params);
      piece + Format(template[n..], params)
  }

  /** The replacement callback of src/I18nUtils.ts:88-99, with its loop
      over the segments of the path. */
  method ResolvePlaceholder(path: string, params: Json) returns (text: string)
    ensures text == Resolve(path, params)
  {
    var keys := Segments(path);
    var root := if Nullish(params) then EmptyObject else params;
    var value := root;
    for i := 0 to |keys|
      invariant Walk(root, keys[..i]) == Some(value)
    {
      WalkStep(root, keys, i, value);
      if value.Obj? && keys[i] in value.fields {
        value := value.fields[keys[i]];
      } else {
        WalkFailsOnPrefix(root, keys, i + 1);
        return "Missing";
      }
    }
    assert keys[..|keys|] == keys;
    return ToJsString(value);
  }

  /** One move of the scan over the text not yet scanned. */
  method ScanStep(rest: string, params: Json) returns (piece: string, length: nat)
    requires |rest| >= 1
    ensures (piece, length) == Step(rest, params)
  {
    var m := MatchPlaceholder(rest);
    if m.Some? {
      piece := ResolvePlaceholder(m.value.path, params);
      length := m.value.length;
    } else {
      piece, length := [rest[0]], 1;
    }
  }

  /** The global replace as a left-to-right scan of the template. */
  method FormatText(template: string, params: Json) returns (out: string)
    ensures out == Format(template, params)
  {
    out := "";
    var rest := template;
    while rest != []
      invariant out + Format(rest, params) == Format(template, params)
      decreases |rest|
    {
      var piece, length := ScanStep(rest, params);
      out, rest := out + piece, rest[length..];
    }
  }

  /** Text with no `{` is copied unchanged, and so is text with no `{{`. */
  lemma {:induction false} FormatLiteralPrefix(literal: string, rest: string, params: Json)
    requires '{' !in literal
    ensures Format(literal + rest, params) == literal + Format(rest, params)
    decreases |literal|
  {
    if literal != [] {
      var s := literal + rest;
      assert s[0] == literal[0] && s[1..] == literal[1..] + rest;
      assert '{' !in literal[1..];
      FormatLiteralPrefix(literal[1..], rest, params);
      assert [literal[0]] + literal[1..] == literal;
    } else {
      assert literal + rest == rest;
    }
  }

  predicate HasOpening(s: string)
  {
    exists i :: 0 <= i < |s| - 1 && s[i] == '{' && s[i + 1] == '{'
  }

  /** A template in which `{{` never occurs comes back as it is. */
  lemma {:induction false} FormatWithoutPlaceholders(template: string, params: Json)
    requires !HasOpening(template)
    ensures Format(template, params) == template
    decreases |template|
  {
    if template != [] {
      assert |template| >= 2 ==> !(template[0] == '{' && template[1] == '{');
      assert !HasOpening(template[1..]) by {
        forall i | 0 <= i < |template[1..]| - 1
          ensures !(template[1..][i] == '{' && template[1..][i + 1] == '{')
        {
          assert template[1..][i] == template[i + 1] && template[1..][i + 1] == template[i + 2];
        }
      }
      FormatWithoutPlaceholders(template[1..], params);
      assert [template[0]] + template[1..] == template;
    }
  }

  /** The bookkeeping of one copied character: if formatting from `i` is
      `t[i]` then formatting from `i + 1`, and the latter is `t[i + 1..k]`
      then `after`, then the former is `t[i..k]` then `after`. */
  lemma CopyStep(t: string, i: nat, k: nat, here: string, next: string, after: string)
    requires i < k <= |t|
    requires here == [t[i]] + next && next == t[i + 1..k] + after
    ensures here == t[i..k] + after
  {
    assert t[i..k] == [t[i]] + t[i + 1..k];
  }

  /** No match of the regular expression starts at position `j`. */
  predicate NoMatchAt(t: string, j: nat)
    requires j <= |t|
  {
    MatchPlaceholder(t[j..]).None?
  }

  /** Scanning from `i` over positions up to `k` at none of which a match
      starts copies those characters. */
  lemma {:induction false} FormatScanFree(t: string, i: nat, k: nat, params: Json)
    requires i <= k <= |t|
    requires forall j :: i <= j < k ==> NoMatchAt(t, j)
    ensures Format(t[i..], params) == t[i..k] + Format(t[k..], params)
    decreases k - i
  {
    if i < k {
      FormatScanFree(t, i + 1, k, params);
      assert NoMatchAt(t, i);
      FormatCopiesAt(t, i, params);
      CopyStep(t, i, k, Format(t[i..], params), Format(t[i + 1..], params), Format(t[k..], params));
    } else {
      assert t[i..k] == [];
    }
  }

  /** Text at none of whose positions a match starts is copied unchanged,
      and scanning goes on after it. */
  lemma FormatMatchFreePrefix(literal: string, rest: string, params: Json)
    requires forall j :: 0 <= j < |literal| ==> MatchPlaceholder((literal + rest)[j..]).None?
    ensures Format(literal + rest, params) == literal + Format(rest, params)
  {
    var t := literal + rest;
    assert forall j :: 0 <= j < |literal| ==> NoMatchAt(t, j);
    FormatScanFree(t, 0, |literal|, params);
    assert t[0..] == t && t[..|literal|] == literal && t[|literal|..] == rest;
  }

  /** Where no match starts, the scan copies the character there. */
  lemma FormatCopiesAt(t: string, i: nat, params: Json)
    requires i < |t| && MatchPlaceholder(t[i..]).None?
    ensures Format(t[i..], params) == [t[i]] + Format(t[i + 1..], params)
  {
    assert t[i..][1..] == t[i + 1..];
  }

  /** A template in which no match starts anywhere comes back as it is. */
  lemma FormatNoMatch(template: string, params: Json)
    requires forall j :: 0 <= j < |template| ==> MatchPlaceholder(template[j..]).None?
    ensures Format(template, params) == template
  {
    assert template + [] == template;
    FormatMatchFreePrefix(template, [], params);
  }

  predicate AllSpace(s: string)
  {
    forall i :: 0 <= i < |s| ==> Strings.IsSpace(s[i])
  }

  /** `{{`, white space, a path and `}}`: the leading white space is
      skipped, everything up to `}}` (trailing white space included) is the
      path, and the text after the match is scanned afresh. */
  lemma FormatPlaceholder(spaces: string, path: string, rest: string, params: Json)
    requires AllSpace(spaces)
    requires |path| >= 1 && !Strings.IsSpace(path[0]) && '}' !in path
    ensures Format("{{" + spaces + path + "}}" + rest, params) == Resolve(path, params) + Format(rest, params)
  {
    var s := "{{" + (spaces + path) + "}}" + rest;
    assert s == "{{" + spaces + path + "}}" + rest;
    assert '}' !in spaces + path by {
      assert forall i :: 0 <= i < |spaces| ==> (spaces + path)[i] == spaces[i];
    }
    MatchOf(s, spaces + path, rest);
    Strings.LeadingSpacesAppend(spaces, path);
    assert (spaces + path)[|spaces|..] == path;
    assert s[|spaces + path| + 4..] == rest;
  }

  /** Only white space between the braces: the path is its last character. */
  lemma MatchBlankPlaceholder(spaces: string, rest: string)
    requires |spaces| >= 1 && AllSpace(spaces)
    ensures MatchPlaceholder("{{" + spaces + "}}" + rest) == Some(Placeholder([spaces[|spaces| - 1]], |spaces| + 4))
  {
    assert '}' !in spaces by {
      assert forall i :: 0 <= i < |spaces| ==> spaces[i] != '}';
    }
    MatchOf("{{" + spaces + "}}" + rest, spaces, rest);
    assert spaces + [] == spaces;
    Strings.LeadingSpacesAppend(spaces, []);
    assert CapturedPath(spaces) == spaces[|spaces| - 1..] == [spaces[|spaces| - 1]];
  }

  /** No match can start without `{{`, nor at `{{}}`. */
  lemma NoMatchWithoutPath(s: string)
    requires |s| < 2 || s[0] != '{' || s[1] != '{' || (|s| >= 3 && s[2] == '}')
    ensures MatchPlaceholder(s) == None
  {
  }

  /** `null` or `undefined` parameters turn every placeholder into
      `Missing`: there is always a segment, and `{}` has none. */
  lemma ResolveWithoutParams(path: string, params: Json)
    requires Nullish(params)
    ensures Resolve(path, params) == "Missing"
  {
  }

  /** A path whose every segment is present, object by object, from the
      parameters is replaced by the string form of the value it reaches. */
  lemma ResolveFound(segs: seq<string>, params: Json, v: Json)
    requires |segs| >= 1 && DotFree(segs) && !Nullish(params)
    requires Walk(params, segs) == Some(v)
    ensures Resolve(DottedKey(segs), params) == ToJsString(v)
  {
    Strings.SplitJoin(segs, '.');
  }

  /** A path with a segment that cannot be followed (a falsy or non-object
      value, or a missing key) is replaced by `Missing`. */
  lemma ResolveNotFound(segs: seq<string>, params: Json)
    requires |segs| >= 1 && DotFree(segs)
    requires Walk(params, segs) == None
    ensures Resolve(DottedKey(segs), params) == "Missing"
  {
    Strings.SplitJoin(segs, '.');
    if Nullish(params) {
      assert Walk(EmptyObject, segs) == None;
    }
  }

  /** `null` parameters format like `{}`. */
  lemma {:induction false} FormatNullParams(template: string)
    ensures Format(template, Null) == Format(template, EmptyObject)
    decreases |template|
  {
    if template != [] {
      match MatchPlaceholder(template)
      case Some(m) => FormatNullParams(template[m.length..]);
      case None => FormatNullParams(template[1..]);
    }
  }

  // ---------------------------------------------------------------------
  // createResourceProxy

  /** A facade node: the namespace of its bundle and the path below it
      (`None` when no base path was given). */
  datatype Node = Node(namespace: string, path: Option<string>)

  /** What reading a field of a facade node gives. */
  datatype FieldValue = SubNode(node: Node) | Value(value: Json)

  /** `path ? ... : ...`: the empty string is falsy. */
  predicate Truthy(path: Option<string>)
  {
    path.Some? && path.value != ""
  }

  /** The path of the field below the node's namespace. */
  function CurrentPath(node: Node, field: string): string
  {
    if Truthy(node.path) then node.path.value + "." + field else field
  }

  /** The dotted key the field read looks up. */
  function FullKey(node: Node, field: string): string
  {
    node.namespace + "." + CurrentPath(node, field)
  }

  /** `createResourceProxy(defaultResource, namespace, basePath)`: the
      defaults are merged under the namespace without override, so values
      already in the store win; the result is the node at the base path. */
  method CreateResourceProxy(ctx: I18nContext, defaultResource: Json, namespace: string, basePath: Option<string>)
    returns (root: Node)
    requires ctx.Valid()
    modifies ctx`resources, ctx`bundles
    ensures ctx.Valid()
    ensures ctx.resources == DeepMerge(old(ctx.resources), Obj(map[namespace := defaultResource]), false)
    ensures ctx.bundles == old(ctx.bundles) + [(Obj(map[namespace := defaultResource]), false)]
    ensures root == Node(namespace, basePath)
  {
    ctx.SetResource(Obj(map[namespace := defaultResource]), false);
    root := Node(namespace, basePath);
  }

  /** The walk into the bundle `{namespace: defaultResource}`. */
  lemma WalkNamespaced(namespace: string, defaultResource: Json, p: seq<string>)
    ensures Walk(Obj(map[namespace := defaultResource]), [namespace] + p) == Walk(defaultResource, p)
  {
    assert ([namespace] + p)[0] == namespace && ([namespace] + p)[1..] == p;
  }

  /** The defaults never replace a value the store already holds under the
      namespace: each such leaf is still reached along its path. */
  lemma ProxyKeepsStoredLeaves(store: Json, namespace: string, defaultResource: Json, p: seq<string>, v: Json)
    requires Walk(store, [namespace] + p) == Some(v) && MergeProperties.IsLeaf(v)
    ensures Walk(DeepMerge(store, Obj(map[namespace := defaultResource]), false), [namespace] + p) == Some(v)
  {
    MergeProperties.MergeKeepsTargetLeaves(store, Obj(map[namespace := defaultResource]), [namespace] + p, v);
  }

  /** The defaults fill the gaps: where the store's objects along
      `namespace.p` stop at segment `i`, the whole default subtree at `p`
      becomes reachable. */
  lemma ProxyFillsGaps(store: Json, namespace: string, defaultResource: Json, p: seq<string>, i: nat)
    requires i <= |p| && Walk(defaultResource, p).Some?
    requires Walk(store, ([namespace] + p)[..i]).Some? && Walk(store, ([namespace] + p)[..i]).value.Obj?
    requires ([namespace] + p)[i] !in Walk(store, ([namespace] + p)[..i]).value.fields
    ensures Walk(DeepMerge(store, Obj(map[namespace := defaultResource]), false), [namespace] + p) ==
              Walk(defaultResource, p)
  {
    WalkNamespaced(namespace, defaultResource, p);
    MergeProperties.MergeAddsPathsMissingFromTarget(store, Obj(map[namespace := defaultResource]), false, [namespace] + p, i);
  }

  /** The facade's field read, against the store as it is now: an object
      (or `null`, since `typeof null === 'object'`) yields the node one
      level down, any other defined value is returned, and `undefined`
      yields a `missing key` message naming the full key. */
  function ReadField(ctx: I18nContext, node: Node, field: string): Result<FieldValue>
    reads ctx`resources
  {
    var key := FullKey(node, field);
    match ctx.Get(key)
    case TypeError => TypeError
    case Ok(v) =>
      if v.Undef? then Ok(Value(Str("missing key: [" + key + "]")))
      else if TypeofObject(v) && !IsArray(v) then Ok(SubNode(Node(node.namespace, Some(CurrentPath(node, field)))))
      else Ok(Value(v))
  }

  /** `node.f1.f2...fn` on the facade. A read that throws ends the chain
      with the throw; `None` when an intermediate read gives a plain value,
      so that the expression leaves the facade. */
  function ReadPath(ctx: I18nContext, node: Node, fields: seq<string>): (r: Option<Result<FieldValue>>)
    requires |fields| >= 1
    ensures |fields| == 1 ==> r == Some(ReadField(ctx, node, fields[0]))
    ensures |fields| >= 2 && ReadField(ctx, node, fields[0]).TypeError? ==> r == Some(TypeError)
    ensures |fields| >= 2 && ReadField(ctx, node, fields[0]).Ok? && ReadField(ctx, node, fields[0]).value.Value? ==> r == None
    ensures r.None? ==> |fields| >= 2 && ReadField(ctx, node, fields[0]).Ok?
    ensures |fields| >= 2 && r.Some? ==>
              ReadField(ctx, node, fields[0]).TypeError? || ReadField(ctx, node, fields[0]).value.SubNode?
    reads ctx`resources
    decreases |fields|
  {
    var first := ReadField(ctx, node, fields[0]);
    if |fields| == 1 then Some(first)
    else if first.TypeError? then Some(TypeError)
    else if first.value.SubNode? then ReadPath(ctx, first.value.node, fields[1..])
    else None
  }

  /** The node a chain of field reads from the namespace root reaches. */
  function NodeAt(namespace: string, prefix: seq<string>): Node
  {
    Node(namespace, if prefix == [] then None else Some(DottedKey(prefix)))
  }

  predicate NonEmptyNames(fields: seq<string>)
  {
    forall i :: 0 <= i < |fields| ==> fields[i] != ""
  }

  /** The key a field read below a chain of fields looks up is the dotted
      key of the namespace, the chain and the field. */
  lemma FullKeyAt(namespace: string, prefix: seq<string>, field: string)
    requires NonEmptyNames(prefix)
    ensures FullKey(NodeAt(namespace, prefix), field) == DottedKey([namespace] + prefix + [field])
    ensures CurrentPath(NodeAt(namespace, prefix), field) == DottedKey(prefix + [field])
  {
    assert DottedKey([namespace] + prefix + [field]) == namespace + "." + DottedKey(prefix + [field]);
    if prefix != [] {
      Strings.JoinSnoc(prefix, field, '.');
      assert |DottedKey(prefix)| >= |prefix[0]| by {
        if |prefix| > 1 {
          assert DottedKey(prefix) == prefix[0] + "." + DottedKey(prefix[1..]);
        }
      }
    }
    assert ([namespace] + prefix + [field])[1..] == prefix + [field];
  }

  /** Reading a field below a chain of fields is the lookup of the dotted
      key in the live store: the value the store holds there decides. */
  lemma ReadFieldAt(ctx: I18nContext, namespace: string, prefix: seq<string>, field: string, v: Json)
    requires NonEmptyNames(prefix) && DotFree([namespace] + prefix + [field])
    requires Walk(ctx.resources, [namespace] + prefix + [field]) == Some(v)
    ensures ReadField(ctx, NodeAt(namespace, prefix), field) ==
              if v.Undef? then Ok(Value(Str("missing key: [" + DottedKey([namespace] + prefix + [field]) + "]")))
              else if v.Obj? || v.Null? then Ok(SubNode(NodeAt(namespace, prefix + [field])))
              else Ok(Value(v))
  {
    FullKeyAt(namespace, prefix, field);
    GetNestedValueFound(ctx.resources, [namespace] + prefix + [field], v);
  }

  /** A field the store's object at the chain does not hold reads as the
      `missing key` message. */
  lemma ReadFieldMissingKey(ctx: I18nContext, namespace: string, prefix: seq<string>, field: string, m: map<string, Json>)
    requires NonEmptyNames(prefix) && DotFree([namespace] + prefix + [field])
    requires Walk(ctx.resources, [namespace] + prefix) == Some(Obj(m)) && field !in m
    ensures ReadField(ctx, NodeAt(namespace, prefix), field) ==
              Ok(Value(Str("missing key: [" + DottedKey([namespace] + prefix + [field]) + "]")))
  {
    var segs := [namespace] + prefix + [field];
    assert segs[..|segs| - 1] == [namespace] + prefix;
    FullKeyAt(namespace, prefix, field);
    GetNestedValueAtNode(ctx.resources, segs, Obj(m));
  }

  /** How a chain of fields splits into its first field and the rest. */
  lemma ChainSplit(namespace: string, prefix: seq<string>, fields: seq<string>)
    requires |fields| >= 2 && NonEmptyNames(prefix + fields) && DotFree([namespace] + prefix + fields)
    ensures var f, rest := fields[0], fields[1..];
            && [namespace] + prefix + fields[..|fields| - 1] == ([namespace] + prefix + [f]) + rest[..|rest| - 1]
            && (prefix + [f]) + rest == prefix + fields
            && (prefix + [f]) + rest[..|rest| - 1] == prefix + fields[..|fields| - 1]
            && [namespace] + (prefix + [f]) + rest == [namespace] + prefix + fields
            && [namespace] + (prefix + [f]) + rest[..|rest| - 1] == [namespace] + prefix + fields[..|fields| - 1]
            && NonEmptyNames(prefix) && DotFree([namespace] + prefix + [f])
  {
    var f, rest := fields[0], fields[1..];
    assert fields == [f] + rest;
    assert fields[..|fields| - 1] == [f] + rest[..|rest| - 1];
    assert forall i :: 0 <= i < |prefix| ==> prefix[i] == (prefix + fields)[i];
    var p := [namespace] + prefix + [f];
    assert forall i :: 0 <= i < |p| ==> p[i] == ([namespace] + prefix + fields)[i];
  }

  /** Property access through the facade is key lookup: when the store
      holds objects along `namespace.f1...f(n-1)`, reading `f1...fn` from
      the namespace root is the field read of `fn` at that chain. */
  lemma {:induction false} ReadPathIsKeyLookup(ctx: I18nContext, namespace: string, prefix: seq<string>, fields: seq<string>)
    requires |fields| >= 1 && NonEmptyNames(prefix + fields) && DotFree([namespace] + prefix + fields)
    requires Walk(ctx.resources, [namespace] + prefix + fields[..|fields| - 1]).Some?
    requires Walk(ctx.resources, [namespace] + prefix + fields[..|fields| - 1]).value.Obj?
    ensures ReadPath(ctx, NodeAt(namespace, prefix), fields) ==
              Some(ReadField(ctx, NodeAt(namespace, prefix + fields[..|fields| - 1]), fields[|fields| - 1]))
    decreases |fields|
  {
    if |fields| == 1 {
      assert prefix + fields[..0] == prefix;
    } else {
      var f, rest := fields[0], fields[1..];
      var p := [namespace] + prefix + [f];
      ChainSplit(namespace, prefix, fields);
      WalkAppend(ctx.resources, p, rest[..|rest| - 1]);
      var v := Walk(ctx.resources, p).value;
      assert v.Obj? by {
        if rest[..|rest| - 1] != [] {
          assert Walk(v, rest[..|rest| - 1]).Some?;
        }
      }
      ReadFieldAt(ctx, namespace, prefix, f, v);
      ReadPathIsKeyLookup(ctx, namespace, prefix + [f], rest);
    }
  }

  // ---------------------------------------------------------------------
  // getI18nText

  /** A `{key, text}` token: the key and the optional default text. */
  datatype Token = Token(key: string, text: Option<string>)

  /** `getI18nText(token, params)`: the text for the key, with the token's
      text as default, then formatted. The source defaults `params` to
      `null`. */
  function GetI18nText(ctx: I18nContext, token: Token, params: Json): Result<string>
    reads ctx`resources
  {
    match ctx.GetText(token.key, token.text)
    case TypeError => TypeError
    case Ok(text) => Ok(Format(text, params))
  }

  /** Without parameters every placeholder of the resolved text becomes
      `Missing`, exactly as with `{}`. */
  lemma GetI18nTextWithoutParams(ctx: I18nContext, token: Token)
    ensures GetI18nText(ctx, token, Null) == GetI18nText(ctx, token, EmptyObject)
  {
    var t := ctx.GetText(token.key, token.text);
    if t.Ok? {
      FormatNullParams(t.value);
    }
  }
}
