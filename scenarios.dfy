/** Worked examples of the library's operations on concrete values,
    derived from the general lemmas. Where an example applies a recursive
    function to a string, it takes that string as a parameter required to
    equal the literal: on a literal argument the verifier would unfold the
    recursion character by character. */
module Scenarios {
  import opened Json
  import opened Utils
  import opened Context
  import opened I18nUtils
  import StoreProperties
  import Strings

  /** `appendSuffix("strings.json", "en")` and `appendSuffix("strings", "en")`. */
  lemma AppendSuffixExamples()
    ensures AppendSuffix("strings.json", "en") == "strings_en.json"
    ensures AppendSuffix("strings", "en") == "stringsen"
  {
    var stem, ext := "strings", "json";
    assert '.' !in stem && '.' !in ext;
    AppendSuffixBeforeLastDot(stem, ext, "en");
    assert stem + "." + ext == "strings.json";
    assert stem + "_" + "en" + "." + ext == "strings_en.json";
    AppendSuffixWithoutExtension(stem, "en");
  }

  /** The placeholder path `name` resolves against `{name: "Ada"}` to `Ada`. */
  lemma ResolveNameExample(path: string, params: Json)
    requires path == "name" && params == Obj(map["name" := Str("Ada")])
    ensures Resolve(path, params) == "Ada"
  {
    Strings.SplitWithoutSeparator(path, '.');
    assert [path][1..] == [];
    assert Walk(Str("Ada"), []) == Some(Str("Ada"));
    assert Walk(params, [path]) == Some(Str("Ada"));
  }

  /** Text without `{` followed by one placeholder whose path starts with
      a non-blank character becomes the text followed by the resolved path. */
  lemma FormatOnePlaceholder(literal: string, path: string, params: Json)
    requires '{' !in literal
    requires |path| >= 1 && !Strings.IsSpace(path[0]) && '}' !in path
    ensures Format(literal + "{{" + path + "}}", params) == literal + Resolve(path, params)
  {
    var tail := "{{" + "" + path + "}}" + "";
    assert literal + "{{" + path + "}}" == literal + tail;
    FormatLiteralPrefix(literal, tail, params);
    FormatPlaceholder("", path, "", params);
    assert Format("", params) == "";
  }

  /** The greeting template, cut into its literal text and its path. */
  lemma HelloParts(template: string)
    requires template == "Hello {{name}}"
    ensures template == template[..6] + "{{" + template[8..12] + "}}"
    ensures template[..6] == "Hello " && template[8..12] == "name"
  {
  }

  /** `formatText("Hello {{name}}", {name: "Ada"})` gives `Hello Ada`. The
      template and the parameters are passed in, so that the verifier does
      not unfold the scan on the literal itself. */
  lemma FormatHelloExample(template: string, params: Json)
    requires template == "Hello {{name}}" && params == Obj(map["name" := Str("Ada")])
    ensures Format(template, params) == "Hello Ada"
  {
    HelloParts(template);
    var literal, path := template[..6], template[8..12];
    FormatOnePlaceholder(literal, path, params);
    ResolveNameExample(path, params);
  }

  /** The dotted key of two segments. */
  lemma DottedPair(first: string, second: string)
    ensures DottedKey([first, second]) == first + "." + second
  {
    assert [first, second][1..] == [second];
    assert Strings.Join([second], '.') == second;
  }

  /** On an empty store, `getText("missing.key")` gives
      `Invalid key: missing.key`. */
  lemma MissingKeyExample(ctx: I18nContext, key: string)
    requires ctx.resources == EmptyObject && key == "missing.key"
    ensures ctx.GetText(key, None) == Ok("Invalid key: missing.key")
  {
    assert ctx.GetText(key, None) == Ok("Invalid key: " + key) by {
      var segs := ["missing", "key"];
      assert DotFree(segs);
      assert segs[..1] == ["missing"];
      DottedPair(segs[0], segs[1]);
      assert DottedKey(segs) == key;
      StoreProperties.GetTextMissingPath(ctx, segs, None);
    }
    assert "Invalid key: " + key == "Invalid key: missing.key";
  }

  /** The store `{app: {greeting: "Hello"}}` used by the facade examples. */
  predicate GreetingStore(ctx: I18nContext)
    reads ctx`resources
  {
    ctx.resources == Obj(map["app" := Obj(map["greeting" := Str("Hello")])])
  }

  /** With `{app: {greeting: "Hello"}}` stored, the facade for the `app`
      namespace reads `greeting` as `Hello`. */
  lemma FacadeGreetingExample(ctx: I18nContext, greeting: string)
    requires GreetingStore(ctx) && greeting == "greeting"
    ensures ReadField(ctx, Node("app", None), greeting) == Ok(Value(Str("Hello")))
  {
    var inner := Obj(map[greeting := Str("Hello")]);
    var toGreeting := ["app"] + [] + [greeting];
    assert NodeAt("app", []) == Node("app", None);
    assert toGreeting == ["app", greeting] && DotFree(toGreeting);
    assert Walk(Str("Hello"), []) == Some(Str("Hello"));
    assert [greeting][1..] == [];
    assert Walk(inner, [greeting]) == Some(Str("Hello"));
    assert toGreeting[1..] == [greeting];
    ReadFieldAt(ctx, "app", [], greeting, Str("Hello"));
  }

  /** In the same store, an absent `farewell` reads as
      `missing key: [app.farewell]`. */
  lemma FacadeMissingExample(ctx: I18nContext, farewell: string)
    requires GreetingStore(ctx) && farewell == "farewell"
    ensures ReadField(ctx, Node("app", None), farewell) == Ok(Value(Str("missing key: [app.farewell]")))
  {
    var inner := map["greeting" := Str("Hello")];
    var toFarewell := ["app"] + [] + [farewell];
    assert NodeAt("app", []) == Node("app", None);
    assert toFarewell == ["app", farewell] && DotFree(toFarewell);
    assert farewell !in inner;
    assert ["app"] + [] == ["app"] && ["app"][1..] == [];
    assert Walk(ctx.resources, ["app"] + []) == Some(Obj(inner));
    ReadFieldMissingKey(ctx, "app", [], farewell, inner);
    DottedPair("app", farewell);
    assert "missing key: [" + ("app" + "." + farewell) + "]" == "missing key: [app.farewell]";
  }

  /** With `{app: {x: null}}` stored, `proxy.x` is a node, since
      `typeof null === 'object'`, and `proxy.x.y` reads a property of the
      stored `null`, so the chain `x.y.z` throws. */
  lemma ChainThroughNullExample(ctx: I18nContext, x: string, y: string, z: string)
    requires ctx.resources == Obj(map["app" := Obj(map["x" := Null])])
    requires x == "x" && y == "y" && z == "z"
    ensures ReadPath(ctx, Node("app", None), [x, y, z]) == Some(TypeError)
  {
    var inner := Obj(map[x := Null]);
    var toX := ["app"] + [] + [x];
    assert NodeAt("app", []) == Node("app", None);
    assert toX == ["app", x] && DotFree(toX);
    assert Walk(Null, []) == Some(Null);
    assert [x][1..] == [];
    assert Walk(inner, [x]) == Some(Null);
    assert toX[1..] == [x];
    ReadFieldAt(ctx, "app", [], x, Null);
    assert NodeAt("app", [] + [x]) == NodeAt("app", [x]);
    var toY := ["app"] + [x] + [y];
    assert toY == ["app", x, y] && DotFree(toY);
    assert toY[..|toY| - 1] == toX;
    FullKeyAt("app", [x], y);
    GetNestedValueReachedNode(ctx.resources, toY, Null);
    assert ReadField(ctx, NodeAt("app", [x]), y) == TypeError;
    assert [x, y, z][1..] == [y, z];
  }
}
