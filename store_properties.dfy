/** What the store's lookups `get` and `getText` return for a dotted key,
    stated in terms of the walk through the held tree. */
module StoreProperties {
  import opened Json
  import opened Utils
  import opened Context

  /** A key whose every segment leads, object by object, to a string
      yields that string verbatim, whatever the default. */
  lemma GetTextFound(ctx: I18nContext, segs: seq<string>, s: string, defaultText: Option<string>)
    requires |segs| >= 1 && DotFree(segs)
    requires Walk(ctx.resources, segs) == Some(Str(s))
    ensures ctx.GetText(DottedKey(segs), defaultText) == Ok(s)
  {
    GetNestedValueFound(ctx.resources, segs, Str(s));
  }

  /** A key that resolves to something other than a string falls back to
      a non-empty default, and otherwise to `Invalid key: <key>`. */
  lemma GetTextFallback(ctx: I18nContext, key: string, defaultText: Option<string>)
    requires ctx.Get(key).Ok? && !ctx.Get(key).value.Str?
    ensures defaultText.Some? && defaultText.value != "" ==> ctx.GetText(key, defaultText) == Ok(defaultText.value)
    ensures defaultText.None? || defaultText.value == "" ==> ctx.GetText(key, defaultText) == Ok("Invalid key: " + key)
  {
  }

  /** A key whose path leaves the held tree before its last segment reads
      `undefined` and so falls back. */
  lemma GetTextMissingPath(ctx: I18nContext, segs: seq<string>, defaultText: Option<string>)
    requires |segs| >= 2 && DotFree(segs)
    requires Walk(ctx.resources, segs[..|segs| - 1]) == None
    ensures ctx.GetText(DottedKey(segs), defaultText) ==
              Ok(if defaultText.Some? && defaultText.value != "" then defaultText.value
                 else "Invalid key: " + DottedKey(segs))
  {
    GetNestedValueMissing(ctx.resources, segs);
  }

  /** A default of `""` is falsy and acts as no default at all. */
  lemma GetTextEmptyDefault(ctx: I18nContext, key: string)
    ensures ctx.GetText(key, Some("")) == ctx.GetText(key, None)
  {
  }

  /** `getText` throws exactly when `get` does: when the node reached
      before the last segment is `null` or `undefined`. */
  lemma GetTextThrows(ctx: I18nContext, segs: seq<string>, node: Json, defaultText: Option<string>)
    requires |segs| >= 1 && DotFree(segs)
    requires Walk(ctx.resources, segs[..|segs| - 1]) == Some(node)
    ensures ctx.GetText(DottedKey(segs), defaultText).TypeError? <==> Nullish(node)
  {
    GetNestedValueReachedNode(ctx.resources, segs, node);
  }

  /** The result of `getText` is always a string unless the lookup throws:
      the stored string, the default, or the invalid-key message. */
  lemma GetTextCases(ctx: I18nContext, key: string, defaultText: Option<string>)
    requires ctx.Get(key).Ok?
    ensures ctx.GetText(key, defaultText).Ok?
    ensures var t := ctx.GetText(key, defaultText).value;
            ctx.Get(key).value == Str(t) ||
            (defaultText == Some(t) && t != "") ||
            t == "Invalid key: " + key
  {
  }
}
