/**
 * What `handleMarkdown` guarantees about the document it returns, stated
 * over the specification functions of module Markdown (which the methods
 * there are proved to compute).
 */
module MarkdownProperties {
  import opened Results
  import opened JsValues
  import opened Markdown
  import Patterns

  /** No property name at any depth, array indices included, matches the key pattern. */
  predicate NoKeyMatches(cfg: Config, v: Value)
    decreases v
  {
    match v
    case Obj(fields) =>
      forall i :: 0 <= i < |fields| ==> !KeyMatches(cfg, fields[i].key) && NoKeyMatches(cfg, fields[i].value)
    case Arr(items) =>
      forall i :: 0 <= i < |items| ==> !KeyMatches(cfg, IndexKey(i)) && NoKeyMatches(cfg, items[i])
    case _ => true
  }

  /** `v` is `null` or holds a `null` somewhere below it. */
  predicate HasNull(v: Value)
    decreases v
  {
    match v
    case Null => true
    case Str(_) => false
    case Obj(fields) => exists i :: 0 <= i < |fields| && HasNull(fields[i].value)
    case Arr(items) => exists i :: 0 <= i < |items| && HasNull(items[i])
  }

  /**
   * The guard of gatsby-node.js line 65 read off the entry itself: an object
   * whose `type` is truthy and is "text" or, converted to a string, matches.
   */
  predicate Selected(cfg: Config, entry: Value) {
    entry.Obj? &&
    match Lookup(entry.fields, "type")
    case None => false
    case Some(t) =>
      Truthy(t) && (t == Str("text") || (ToJsString(t).Ok? && KeyMatches(cfg, ToJsString(t).value)))
  }

  // ----- each key, and each entry, is handled on its own -----

  /**
   * The walk over `Object.keys` handles every key independently: it succeeds
   * iff every key does, the result holds each key's own outcome in place, and
   * a failure is the exception of the first key that fails.
   */
  lemma HandleKeysEach(cfg: Config, fields: seq<Property>)
    ensures HandleKeys(cfg, fields).Ok? <==>
      forall i :: 0 <= i < |fields| ==> HandleKey(cfg, fields[i].key, fields[i].value).Ok?
    ensures HandleKeys(cfg, fields).Ok? ==>
      var out := HandleKeys(cfg, fields).value;
      |out| == |fields| &&
      forall i :: 0 <= i < |fields| ==> out[i] == Property(fields[i].key, HandleKey(cfg, fields[i].key, fields[i].value).value)
    ensures HandleKeys(cfg, fields).Err? ==>
      exists i :: 0 <= i < |fields| && HandleKey(cfg, fields[i].key, fields[i].value) == Err(HandleKeys(cfg, fields).error) &&
        forall j :: 0 <= j < i ==> HandleKey(cfg, fields[j].key, fields[j].value).Ok?
  {
    HandleKeysOk(cfg, fields);
    if HandleKeys(cfg, fields).Ok? {
      HandleKeysValues(cfg, fields);
    } else {
      HandleKeysFirstError(cfg, fields);
    }
  }

  lemma {:induction false} HandleKeysOk(cfg: Config, fields: seq<Property>)
    ensures HandleKeys(cfg, fields).Ok? <==>
      forall i :: 0 <= i < |fields| ==> HandleKey(cfg, fields[i].key, fields[i].value).Ok?
    decreases |fields|
  {
    if |fields| > 0 {
      var n := |fields| - 1;
      var init := fields[..n];
      HandleKeysOk(cfg, init);
      assert forall i :: 0 <= i < n ==> init[i] == fields[i];
      var prefix := HandleKeys(cfg, init);
      var last := HandleKey(cfg, fields[n].key, fields[n].value);
      if prefix.Err? {
        assert HandleKeys(cfg, fields) == Err(prefix.error);
        var i :| 0 <= i < n && !HandleKey(cfg, init[i].key, init[i].value).Ok?;
        assert !HandleKey(cfg, fields[i].key, fields[i].value).Ok?;
      } else if last.Err? {
        assert HandleKeys(cfg, fields) == Err(last.error);
      } else {
        assert HandleKeys(cfg, fields) == Ok(prefix.value + [Property(fields[n].key, last.value)]);
      }
    }
  }

  lemma {:induction false} HandleKeysValues(cfg: Config, fields: seq<Property>)
    requires HandleKeys(cfg, fields).Ok?
    ensures
      var out := HandleKeys(cfg, fields).value;
      |out| == |fields| &&
      forall i :: 0 <= i < |fields| ==>
        HandleKey(cfg, fields[i].key, fields[i].value).Ok? &&
        out[i] == Property(fields[i].key, HandleKey(cfg, fields[i].key, fields[i].value).value)
    decreases |fields|
  {
    if |fields| > 0 {
      var n := |fields| - 1;
      var init := fields[..n];
      var prefix := HandleKeys(cfg, init);
      var last := HandleKey(cfg, fields[n].key, fields[n].value);
      assert prefix.Ok? && last.Ok?;
      HandleKeysValues(cfg, init);
      var out := prefix.value + [Property(fields[n].key, last.value)];
      assert HandleKeys(cfg, fields) == Ok(out);
      forall i | 0 <= i < |fields|
        ensures HandleKey(cfg, fields[i].key, fields[i].value).Ok?
        ensures out[i] == Property(fields[i].key, HandleKey(cfg, fields[i].key, fields[i].value).value)
      {
        if i < n {
          assert init[i] == fields[i] && out[i] == prefix.value[i];
        }
      }
    }
  }

  lemma {:induction false} HandleKeysFirstError(cfg: Config, fields: seq<Property>)
    requires HandleKeys(cfg, fields).Err?
    ensures
      exists i :: 0 <= i < |fields| && HandleKey(cfg, fields[i].key, fields[i].value) == Err(HandleKeys(cfg, fields).error) &&
        forall j :: 0 <= j < i ==> HandleKey(cfg, fields[j].key, fields[j].value).Ok?
    decreases |fields|
  {
    var n := |fields| - 1;
    var init := fields[..n];
    var prefix := HandleKeys(cfg, init);
    if prefix.Err? {
      assert HandleKeys(cfg, fields) == prefix;
      HandleKeysFirstError(cfg, init);
      var i :| 0 <= i < n && HandleKey(cfg, init[i].key, init[i].value) == Err(prefix.error) &&
        forall j :: 0 <= j < i ==> HandleKey(cfg, init[j].key, init[j].value).Ok?;
      assert forall j :: 0 <= j < n ==> init[j] == fields[j];
      assert HandleKey(cfg, fields[i].key, fields[i].value) == Err(prefix.error);
    } else {
      HandleKeysOk(cfg, init);
      assert forall j :: 0 <= j < n ==> init[j] == fields[j];
      assert HandleKey(cfg, fields[n].key, fields[n].value) == Err(HandleKeys(cfg, fields).error);
    }
  }

  /** The same for the entries of a freeform array. */
  lemma RenderEntriesEach(cfg: Config, items: seq<Value>)
    ensures RenderEntries(cfg, items).Ok? <==> forall j :: 0 <= j < |items| ==> RenderEntry(cfg, items[j]).Ok?
    ensures RenderEntries(cfg, items).Ok? ==>
      var out := RenderEntries(cfg, items).value;
      |out| == |items| && forall j :: 0 <= j < |items| ==> out[j] == RenderEntry(cfg, items[j]).value
  {
    RenderEntriesOk(cfg, items);
    if RenderEntries(cfg, items).Ok? {
      RenderEntriesValues(cfg, items);
    }
  }

  lemma {:induction false} RenderEntriesOk(cfg: Config, items: seq<Value>)
    ensures RenderEntries(cfg, items).Ok? <==> forall j :: 0 <= j < |items| ==> RenderEntry(cfg, items[j]).Ok?
    decreases |items|
  {
    if |items| > 0 {
      var n := |items| - 1;
      var init := items[..n];
      RenderEntriesOk(cfg, init);
      assert forall j :: 0 <= j < n ==> init[j] == items[j];
      var prefix := RenderEntries(cfg, init);
      var last := RenderEntry(cfg, items[n]);
      if prefix.Err? {
        assert RenderEntries(cfg, items) == Err(prefix.error);
        var j :| 0 <= j < n && !RenderEntry(cfg, init[j]).Ok?;
        assert !RenderEntry(cfg, items[j]).Ok?;
      } else if last.Err? {
        assert RenderEntries(cfg, items) == Err(last.error);
      } else {
        assert RenderEntries(cfg, items) == Ok(prefix.value + [last.value]);
      }
    }
  }

  lemma {:induction false} RenderEntriesValues(cfg: Config, items: seq<Value>)
    requires RenderEntries(cfg, items).Ok?
    ensures
      var out := RenderEntries(cfg, items).value;
      |out| == |items| &&
      forall j :: 0 <= j < |items| ==> RenderEntry(cfg, items[j]).Ok? && out[j] == RenderEntry(cfg, items[j]).value
    decreases |items|
  {
    if |items| > 0 {
      var n := |items| - 1;
      var init := items[..n];
      var prefix := RenderEntries(cfg, init);
      var last := RenderEntry(cfg, items[n]);
      assert prefix.Ok? && last.Ok?;
      RenderEntriesValues(cfg, init);
      var out := prefix.value + [last.value];
      assert RenderEntries(cfg, items) == Ok(out);
      forall j | 0 <= j < |items|
        ensures RenderEntry(cfg, items[j]).Ok? && out[j] == RenderEntry(cfg, items[j]).value
      {
        if j < n {
          assert init[j] == items[j] && out[j] == prefix.value[j];
        }
      }
    }
  }

  /**
   * Under a matching key, an array entry has its `value` replaced by the
   * rendering of that value exactly when the entry is selected; every other
   * entry, objects without a truthy `type` and non-objects included, is left
   * as it was. The rewrite fails exactly when some entry is `null`, has a
   * `type` that cannot be converted, or is selected with a `value` that is
   * not a string.
   */
  lemma FreeformEntries(cfg: Config, key: string, items: seq<Value>)
    requires KeyMatches(cfg, key)
    ensures RewriteMatched(cfg, key, Arr(items)).Ok? <==>
      forall j :: 0 <= j < |items| ==>
        && !items[j].Null?
        && (items[j].Obj? ==> IsTextEntry(cfg, items[j].fields).Ok?)
        && (Selected(cfg, items[j]) ==> Lookup(items[j].fields, "value").Some? && Lookup(items[j].fields, "value").value.Str?)
    ensures RewriteMatched(cfg, key, Arr(items)).Ok? ==>
      var out := RewriteMatched(cfg, key, Arr(items)).value;
      out.Arr? && |out.items| == |items| &&
      forall j :: 0 <= j < |items| ==>
        if Selected(cfg, items[j])
        then out.items[j] == Obj(SetField(items[j].fields, "value", Str(cfg.render(Lookup(items[j].fields, "value").value.s))))
        else out.items[j] == items[j]
  {
    RenderEntriesEach(cfg, items);
    forall j | 0 <= j < |items|
      ensures RenderEntry(cfg, items[j]).Ok? <==> EntryRenders(cfg, items[j])
      ensures RenderEntry(cfg, items[j]).Ok? ==> RenderEntry(cfg, items[j]).value == EntryRendered(cfg, items[j])
    {
      SelectedEntry(cfg, items[j]);
    }
  }

  /** When rendering one freeform entry succeeds. */
  predicate EntryRenders(cfg: Config, e: Value) {
    && !e.Null?
    && (e.Obj? ==> IsTextEntry(cfg, e.fields).Ok?)
    && (Selected(cfg, e) ==> Lookup(e.fields, "value").Some? && Lookup(e.fields, "value").value.Str?)
  }

  /** What one freeform entry becomes when rendering it succeeds. */
  function EntryRendered(cfg: Config, e: Value): Value
    requires EntryRenders(cfg, e)
  {
    if Selected(cfg, e)
    then Obj(SetField(e.fields, "value", Str(cfg.render(Lookup(e.fields, "value").value.s))))
    else e
  }

  /** One entry: the line-65 guard read off the entry decides whether its `value` is rendered. */
  lemma SelectedEntry(cfg: Config, e: Value)
    ensures RenderEntry(cfg, e).Ok? <==> EntryRenders(cfg, e)
    ensures RenderEntry(cfg, e).Ok? ==> RenderEntry(cfg, e).value == EntryRendered(cfg, e)
  {
    if e.Obj? {
      assert Selected(cfg, e) <==> IsTextEntry(cfg, e.fields) == Ok(true);
    }
  }

  // ----- the walk and the properties of a document -----

  /**
   * Every property of an object or array is replaced by the outcome of
   * handling it under its own key, whether or not any key around it matched.
   */
  lemma WalkChild(cfg: Config, v: Value, key: string)
    requires v.IsObjectTyped() && Walk(cfg, v).Ok?
    ensures match Child(v, key)
      case None => Child(Walk(cfg, v).value, key).None?
      case Some(c) => HandleKey(cfg, key, c).Ok? && Child(Walk(cfg, v).value, key) == Some(HandleKey(cfg, key, c).value)
  {
    match v
    case Obj(fields) =>
      HandleKeysEach(cfg, fields);
      var out := HandleKeys(cfg, fields).value;
      KeyIndexOfSameKeys(out, fields, key);
    case Arr(items) =>
      var fields := Indexed(items);
      HandleKeysEach(cfg, fields);
      var out := HandleKeys(cfg, fields).value;
      assert Keys(out) == Keys(fields);
      assert Indexed(ItemsOf(out)) == out by {
        forall i | 0 <= i < |out| ensures Indexed(ItemsOf(out))[i] == out[i] {
          assert out[i].key == Keys(out)[i] == Keys(fields)[i] == IndexKey(i);
        }
      }
      KeyIndexOfSameKeys(out, fields, key);
  }

  /** A rendered entry is the entry itself or the entry with its string `value` rendered. */
  lemma RenderEntryCases(cfg: Config, e: Value)
    requires RenderEntry(cfg, e).Ok?
    ensures var e' := RenderEntry(cfg, e).value;
      e' == e ||
      (e.Obj? && Lookup(e.fields, "value").Some? && Lookup(e.fields, "value").value.Str? &&
       e' == Obj(SetField(e.fields, "value", Str(cfg.render(Lookup(e.fields, "value").value.s)))))
  {
  }

  /** Rendering an entry changes nothing reached by a path other than `[]` and `["value"]`. */
  lemma RenderEntryKeepsAt(cfg: Config, e: Value, q: seq<string>)
    requires RenderEntry(cfg, e).Ok? && |q| > 0 && q != ["value"]
    ensures At(RenderEntry(cfg, e).value, q) == At(e, q)
  {
    var e' := RenderEntry(cfg, e).value;
    RenderEntryCases(cfg, e);
    if e' != e {
      var s0 := Lookup(e.fields, "value").value.s;
      if q[0] != "value" {
        assert Child(e', q[0]) == Child(e, q[0]);
      } else {
        assert |q[1..]| > 0;
        assert Child(e, "value") == Some(Str(s0));
        assert Child(e', "value") == Some(Str(cfg.render(s0)));
      }
    }
  }

  /** The array child named `key` of an array, before and after a length-preserving change. */
  lemma ArrayChildren(items: seq<Value>, out: seq<Value>, key: string)
    requires |out| == |items|
    ensures Child(Arr(items), key).Some? <==> Child(Arr(out), key).Some?
    ensures Child(Arr(items), key).Some? ==>
      exists j :: 0 <= j < |items| && Child(Arr(items), key) == Some(items[j]) && Child(Arr(out), key) == Some(out[j])
  {
    assert Keys(Indexed(items)) == Keys(Indexed(out));
    KeyIndexOfSameKeys(Indexed(items), Indexed(out), key);
  }

  /**
   * The entry at `path` is one whose `value` the freeform pass renders: the
   * key before its index matches, the node above it is an array, and the
   * entry is selected.
   */
  predicate RenderedByFreeform(cfg: Config, v: Value, path: seq<string>) {
    && |path| >= 2
    && KeyMatches(cfg, path[|path| - 2])
    && ArrayNode(At(v, path[..|path| - 1]))
    && SelectedNode(cfg, At(v, path))
  }

  predicate ArrayNode(n: Option<Value>) {
    n.Some? && n.value.Arr?
  }

  predicate SelectedNode(cfg: Config, n: Option<Value>) {
    n.Some? && Selected(cfg, n.value)
  }

  /** Whether an entry is selected depends only on its kind and its `type`. */
  lemma SelectedByType(cfg: Config, a: Value, b: Value)
    requires a.Obj? == b.Obj? && Child(a, "type") == Child(b, "type")
    ensures Selected(cfg, a) == Selected(cfg, b)
  {
  }

  /** A rewrite selects no entry at depth two or more that was not selected before. */
  lemma SelectedKept(cfg: Config, key: string, c: Value, p: seq<string>)
    requires RewriteMatched(cfg, key, c).Ok? && |p| >= 2
    ensures SelectedNode(cfg, At(RewriteMatched(cfg, key, c).value, p)) ==> SelectedNode(cfg, At(c, p))
  {
    var c' := RewriteMatched(cfg, key, c).value;
    RewriteKeepsShape(cfg, key, c, p);
    assert (p + ["type"])[1..] == p[1..] + ["type"];
    RewriteKeepsAt(cfg, key, c, p + ["type"]);
    AtSnoc(c, p, "type");
    AtSnoc(c', p, "type");
    if At(c, p).Some? && At(c', p).Some? {
      SelectedByType(cfg, At(c, p).value, At(c', p).value);
    }
  }

  /** One more step on a path is a property lookup on the node the path reaches. */
  lemma {:induction false} AtSnoc(v: Value, p: seq<string>, k: string)
    ensures At(v, p + [k]) == if At(v, p).Some? then Child(At(v, p).value, k) else None
    decreases |p|
  {
    if |p| == 0 {
      assert p + [k] == [k];
    } else {
      assert (p + [k])[0] == p[0] && (p + [k])[1..] == p[1..] + [k];
      if Child(v, p[0]).Some? {
        AtSnoc(Child(v, p[0]).value, p[1..], k);
      }
    }
  }

  /** Below the entries of a rewritten array, nothing changes but the entries' own `value`. */
  lemma RewriteKeepsAt(cfg: Config, key: string, c: Value, q: seq<string>)
    requires RewriteMatched(cfg, key, c).Ok? && |q| >= 2 && q[1..] != ["value"]
    ensures At(RewriteMatched(cfg, key, c).value, q) == At(c, q)
  {
    if KeyMatches(cfg, key) && c.Arr? {
      var items := c.items;
      var out := RenderEntries(cfg, items).value;
      assert RewriteMatched(cfg, key, c).value == Arr(out);
      RenderEntriesEach(cfg, items);
      ArrayChildren(items, out, q[0]);
      if Child(c, q[0]).Some? {
        var j :| 0 <= j < |items| && Child(c, q[0]) == Some(items[j]) && Child(Arr(out), q[0]) == Some(out[j]);
        assert At(c, q) == At(items[j], q[1..]);
        assert At(Arr(out), q) == At(out[j], q[1..]);
        RenderEntryKeepsAt(cfg, items[j], q[1..]);
      }
    }
  }

  /**
   * The matched-key rewrite keeps every string below it, except the `value`
   * of a selected entry directly under a rewritten array.
   */
  lemma RewriteKeepsStrings(cfg: Config, key: string, c: Value, q: seq<string>, s: string)
    requires RewriteMatched(cfg, key, c).Ok? && At(c, q) == Some(Str(s)) && |q| > 0
    requires !(KeyMatches(cfg, key) && c.Arr? && |q| == 2 && q[1] == "value" &&
               Child(c, q[0]).Some? && Selected(cfg, Child(c, q[0]).value))
    ensures At(RewriteMatched(cfg, key, c).value, q) == Some(Str(s))
  {
    if KeyMatches(cfg, key) && c.Arr? {
      var items := c.items;
      var out := RenderEntries(cfg, items).value;
      assert RewriteMatched(cfg, key, c).value == Arr(out);
      RenderEntriesEach(cfg, items);
      ArrayChildren(items, out, q[0]);
      var j :| 0 <= j < |items| && Child(c, q[0]) == Some(items[j]) && Child(Arr(out), q[0]) == Some(out[j]);
      assert At(c, q) == At(items[j], q[1..]);
      assert At(Arr(out), q) == At(out[j], q[1..]);
      if |q| > 1 && q[1..] != ["value"] {
        RenderEntryKeepsAt(cfg, items[j], q[1..]);
      } else if |q| > 1 {
        assert q[1] == "value" && !Selected(cfg, items[j]);
        SelectedEntry(cfg, items[j]);
      } else {
        RenderEntryCases(cfg, items[j]);
      }
    }
  }

  /** A rewrite creates no selected entry below an array that was not there before. */
  lemma FreeformBeforeRewrite(cfg: Config, key: string, c: Value, rest: seq<string>)
    requires RewriteMatched(cfg, key, c).Ok? && |rest| >= 2
    ensures RenderedByFreeform(cfg, RewriteMatched(cfg, key, c).value, rest) ==> RenderedByFreeform(cfg, c, rest)
  {
    RewriteKeepsShape(cfg, key, c, rest[..|rest| - 1]);
    SelectedKept(cfg, key, c, rest);
  }

  /** A path that starts with a property of `v` continues at that property. */
  lemma AtCons(v: Value, k: string, p: seq<string>)
    requires Child(v, k).Some?
    ensures At(v, [k] + p) == At(Child(v, k).value, p)
  {
    assert ([k] + p)[0] == k && ([k] + p)[1..] == p;
  }

  /** Whether an entry is rendered by the freeform pass does not depend on where the path starts. */
  lemma FreeformUnderChild(cfg: Config, v: Value, k0: string, rest: seq<string>)
    requires Child(v, k0).Some? && |rest| >= 2
    ensures RenderedByFreeform(cfg, v, [k0] + rest) <==> RenderedByFreeform(cfg, Child(v, k0).value, rest)
  {
    var path, n := [k0] + rest, |rest|;
    AtCons(v, k0, rest);
    AtCons(v, k0, rest[..n - 1]);
    assert path[..|path| - 1] == [k0] + rest[..n - 1];
    assert path[|path| - 2] == rest[n - 2];
  }

  /** An entry the freeform pass renders below a rewritten child was one below the parent. */
  lemma FreeformUnderRewrite(cfg: Config, v: Value, k0: string, rest: seq<string>)
    requires Child(v, k0).Some? && RewriteMatched(cfg, k0, Child(v, k0).value).Ok? && |rest| >= 2
    ensures RenderedByFreeform(cfg, RewriteMatched(cfg, k0, Child(v, k0).value).value, rest) ==>
            RenderedByFreeform(cfg, v, [k0] + rest)
  {
    FreeformUnderChild(cfg, v, k0, rest);
    FreeformBeforeRewrite(cfg, k0, Child(v, k0).value, rest);
  }

  /** An entry directly under a property of `v` is rendered by the freeform pass of that property. */
  lemma FreeformDirectlyUnder(cfg: Config, v: Value, k0: string, i: string)
    requires Child(v, k0).Some?
    ensures var c := Child(v, k0).value;
      RenderedByFreeform(cfg, v, [k0, i]) <==>
        KeyMatches(cfg, k0) && c.Arr? && Child(c, i).Some? && Selected(cfg, Child(c, i).value)
  {
    AtSnoc(v, [k0], i);
    assert [k0] + [i] == [k0, i] && [k0, i][..1] == [k0];
  }

  /**
   * A string at any depth stays where it is and is rendered once exactly
   * when its own key matches. The one exception is the `value` of an entry
   * the freeform pass renders, which RenderedValueOrder describes.
   */
  lemma {:induction false} StringsAtAnyDepth(cfg: Config, v: Value, path: seq<string>, key: string, s: string)
    requires v.IsObjectTyped() && Walk(cfg, v).Ok?
    requires At(v, path + [key]) == Some(Str(s))
    requires !(key == "value" && RenderedByFreeform(cfg, v, path))
    ensures At(Walk(cfg, v).value, path + [key]) == Some(Str(if KeyMatches(cfg, key) then cfg.render(s) else s))
    decreases |path|
  {
    if |path| == 0 {
      assert path + [key] == [key];
      WalkChild(cfg, v, key);
    } else {
      var k0, rest := path[0], path[1..];
      assert path + [key] == [k0] + (rest + [key]);
      AtCons(v, k0, rest + [key]);
      WalkIntoChild(cfg, v, k0);
      StringUnderRewrite(cfg, v, path, key, s);
      var c' := RewriteMatched(cfg, k0, Child(v, k0).value).value;
      assert Child(c', (rest + [key])[0]).Some?;
      StringsAtAnyDepth(cfg, c', rest, key, s);
      AtCons(Walk(cfg, v).value, k0, rest + [key]);
    }
  }

  /** The walk replaces a property by the walk of its rewritten value, when that is object-typed. */
  lemma WalkIntoChild(cfg: Config, v: Value, k0: string)
    requires v.IsObjectTyped() && Walk(cfg, v).Ok? && Child(v, k0).Some?
    ensures RewriteMatched(cfg, k0, Child(v, k0).value).Ok?
    ensures var c' := RewriteMatched(cfg, k0, Child(v, k0).value).value;
      c'.IsObjectTyped() ==> Walk(cfg, c').Ok? && Child(Walk(cfg, v).value, k0) == Some(Walk(cfg, c').value)
  {
    WalkChild(cfg, v, k0);
  }

  /** The premises of StringsAtAnyDepth carry over from a node to the rewrite of its child. */
  lemma StringUnderRewrite(cfg: Config, v: Value, path: seq<string>, key: string, s: string)
    requires |path| > 0 && Child(v, path[0]).Some? && RewriteMatched(cfg, path[0], Child(v, path[0]).value).Ok?
    requires At(v, path + [key]) == Some(Str(s))
    requires !(key == "value" && RenderedByFreeform(cfg, v, path))
    ensures var c' := RewriteMatched(cfg, path[0], Child(v, path[0]).value).value;
      At(c', path[1..] + [key]) == Some(Str(s)) && !(key == "value" && RenderedByFreeform(cfg, c', path[1..]))
  {
    var k0, rest := path[0], path[1..];
    var c := Child(v, k0).value;
    assert path == [k0] + rest && path + [key] == [k0] + (rest + [key]);
    AtCons(v, k0, rest + [key]);
    if |rest| == 1 {
      assert path == [k0, rest[0]];
      FreeformDirectlyUnder(cfg, v, k0, rest[0]);
    }
    RewriteKeepsStrings(cfg, k0, c, rest + [key], s);
    if |rest| >= 2 {
      FreeformUnderRewrite(cfg, v, k0, rest);
    }
  }

  /** Rendering one freeform entry keeps the kind, the keys and the lengths at every path. */
  lemma RenderEntryKeepsShape(cfg: Config, e: Value, q: seq<string>)
    requires RenderEntry(cfg, e).Ok?
    ensures SameNodeAt(At(e, q), At(RenderEntry(cfg, e).value, q))
  {
    var e' := RenderEntry(cfg, e).value;
    if |q| > 0 && q != ["value"] {
      RenderEntryKeepsAt(cfg, e, q);
    } else if |q| > 0 {
      RenderEntryCases(cfg, e);
      if e' != e {
        var s0 := Lookup(e.fields, "value").value.s;
        assert At(e, q) == Some(Str(s0));
        assert At(e', q) == Some(Str(cfg.render(s0)));
      }
    }
  }

  /** The rewrite of one key keeps the kind, the keys and the lengths at every path. */
  lemma RewriteKeepsShape(cfg: Config, key: string, c: Value, q: seq<string>)
    requires RewriteMatched(cfg, key, c).Ok?
    ensures SameNodeAt(At(c, q), At(RewriteMatched(cfg, key, c).value, q))
  {
    if KeyMatches(cfg, key) && c.Arr? && |q| > 0 {
      var items := c.items;
      var out := RenderEntries(cfg, items).value;
      assert RewriteMatched(cfg, key, c).value == Arr(out);
      RenderEntriesEach(cfg, items);
      ArrayChildren(items, out, q[0]);
      if Child(c, q[0]).Some? {
        var j :| 0 <= j < |items| && Child(c, q[0]) == Some(items[j]) && Child(Arr(out), q[0]) == Some(out[j]);
        assert At(c, q) == At(items[j], q[1..]);
        assert At(Arr(out), q) == At(out[j], q[1..]);
        RenderEntryKeepsShape(cfg, items[j], q[1..]);
      }
    }
  }

  /** The shape at one path, by induction on the path. */
  lemma {:induction false} ShapeAt(cfg: Config, v: Value, path: seq<string>)
    requires v.IsObjectTyped() && Walk(cfg, v).Ok?
    ensures SameNodeAt(At(v, path), At(Walk(cfg, v).value, path))
    decreases |path|
  {
    if |path| > 0 {
      var r := Walk(cfg, v).value;
      var q := path[1..];
      WalkChild(cfg, v, path[0]);
      if Child(v, path[0]).Some? {
        var c := Child(v, path[0]).value;
        var c' := RewriteMatched(cfg, path[0], c).value;
        var h := HandleKey(cfg, path[0], c).value;
        assert At(v, path) == At(c, q);
        assert At(r, path) == At(h, q);
        RewriteKeepsShape(cfg, path[0], c, q);
        if c'.IsObjectTyped() {
          assert h == Walk(cfg, c').value;
          ShapeAt(cfg, c', q);
          SameNodeAtTransitive(At(c, q), At(c', q), At(h, q));
        } else {
          assert h == c';
        }
      } else {
        assert At(r, path) == None;
      }
    }
  }

  lemma SameNodeAtTransitive(a: Option<Value>, b: Option<Value>, c: Option<Value>)
    requires SameNodeAt(a, b) && SameNodeAt(b, c)
    ensures SameNodeAt(a, c)
  {
  }

  /**
   * Shape preserved: wherever a path leads in the input, it leads in the
   * output to a node of the same kind, with the same keys in the same order
   * or the same length; and it leads nowhere in one iff it leads nowhere in
   * the other.
   */
  lemma ShapePreserved(cfg: Config, v: Value)
    requires v.IsObjectTyped() && Walk(cfg, v).Ok?
    ensures forall path :: SameNodeAt(At(v, path), At(Walk(cfg, v).value, path))
  {
    forall path ensures SameNodeAt(At(v, path), At(Walk(cfg, v).value, path)) {
      ShapeAt(cfg, v, path);
    }
  }

  /** A walk that succeeds leaves no `null` behind: it would have thrown on it. */
  lemma {:induction false} NoNullInResult(cfg: Config, v: Value, path: seq<string>)
    requires v.IsObjectTyped() && Walk(cfg, v).Ok?
    ensures At(Walk(cfg, v).value, path) != Some(Null)
    decreases |path|
  {
    if |path| > 0 {
      WalkChild(cfg, v, path[0]);
      if Child(v, path[0]).Some? {
        var c := Child(v, path[0]).value;
        var c' := RewriteMatched(cfg, path[0], c).value;
        if c'.IsObjectTyped() {
          NoNullInResult(cfg, c', path[1..]);
        }
      }
    }
  }

  /**
   * A `null` anywhere in the document makes the walk throw: `Object.keys(null)`
   * or, inside an array under a matching key, `null.type`.
   */
  lemma NullThrows(cfg: Config, v: Value, path: seq<string>)
    requires v.IsObjectTyped() && At(v, path) == Some(Null)
    ensures Walk(cfg, v).Err?
  {
    if Walk(cfg, v).Ok? {
      ShapeAt(cfg, v, path);
      NoNullInResult(cfg, v, path);
    }
  }

  /** NoMatchNoChange for the value under one key that does not match. */
  lemma {:induction false} NoMatchOneKey(cfg: Config, key: string, c: Value)
    requires !KeyMatches(cfg, key) && NoKeyMatches(cfg, c)
    ensures HandleKey(cfg, key, c) == if HasNull(c) then Err(KeysOfNull) else Ok(c)
    decreases Size(c), 1
  {
    if c.IsObjectTyped() {
      NoMatchNoChange(cfg, c);
    }
  }

  /**
   * No matches, no change: when no key at any depth matches, the walk
   * returns the document unchanged, unless it holds a `null`, in which case
   * `Object.keys(null)` throws.
   */
  lemma {:induction false} NoMatchNoChange(cfg: Config, v: Value)
    requires v.IsObjectTyped() && NoKeyMatches(cfg, v)
    ensures Walk(cfg, v) == if HasNull(v) then Err(KeysOfNull) else Ok(v)
    decreases Size(v), 0
  {
    match v
    case Null =>
    case Obj(fields) =>
      forall i | 0 <= i < |fields|
        ensures HandleKey(cfg, fields[i].key, fields[i].value) == if HasNull(fields[i].value) then Err(KeysOfNull) else Ok(fields[i].value)
      {
        SizeOfFieldBound(fields, i);
        NoMatchOneKey(cfg, fields[i].key, fields[i].value);
      }
      HandleKeysEach(cfg, fields);
      if !HasNull(v) {
        assert HandleKeys(cfg, fields).value == fields;
      }
    case Arr(items) =>
      var fields := Indexed(items);
      SizeOfIndexed(items);
      forall i | 0 <= i < |fields|
        ensures HandleKey(cfg, fields[i].key, fields[i].value) == if HasNull(items[i]) then Err(KeysOfNull) else Ok(items[i])
      {
        SizeOfFieldBound(fields, i);
        NoMatchOneKey(cfg, fields[i].key, fields[i].value);
      }
      HandleKeysEach(cfg, fields);
      if !HasNull(v) {
        assert HandleKeys(cfg, fields).value == fields;
        assert ItemsOf(fields) == items;
      }
  }

  /** After the freeform pass, entry `j`'s `value` is rendered iff the entry is selected. */
  lemma FreeformEntryValue(cfg: Config, key: string, items: seq<Value>, j: nat, s: string)
    requires KeyMatches(cfg, key) && j < |items|
    requires items[j].Obj? && Lookup(items[j].fields, "value") == Some(Str(s))
    requires RewriteMatched(cfg, key, Arr(items)).Ok?
    ensures
      var out := RewriteMatched(cfg, key, Arr(items)).value;
      out.Arr? && j < |out.items| && out.items[j].Obj? &&
      Child(out.items[j], "value") == Some(Str(if Selected(cfg, items[j]) then cfg.render(s) else s))
  {
    RenderEntriesEach(cfg, items);
    SelectedEntry(cfg, items[j]);
  }

  /**
   * The order of the loop body made visible: an entry of an array under a
   * matching key has its `value` rendered first if the entry is selected,
   * and then again by the recursive walk if "value" itself matches.
   */
  lemma RenderedValueOrder(cfg: Config, key: string, items: seq<Value>, j: nat, s: string)
    requires KeyMatches(cfg, key) && j < |items|
    requires items[j].Obj? && Lookup(items[j].fields, "value") == Some(Str(s))
    requires HandleKey(cfg, key, Arr(items)).Ok?
    ensures
      var once := if Selected(cfg, items[j]) then cfg.render(s) else s;
      At(HandleKey(cfg, key, Arr(items)).value, [IndexKey(j), "value"]) ==
        Some(Str(if KeyMatches(cfg, "value") then cfg.render(once) else once))
  {
    var once := if Selected(cfg, items[j]) then cfg.render(s) else s;
    var rewritten := RewriteMatched(cfg, key, Arr(items)).value;
    FreeformEntryValue(cfg, key, items, j, s);
    var out := rewritten.items;
    var entry := out[j];
    assert HandleKey(cfg, key, Arr(items)) == Walk(cfg, rewritten);
    ArrayChild(out, j);
    WalkChild(cfg, rewritten, IndexKey(j));
    assert HandleKey(cfg, IndexKey(j), entry) == Walk(cfg, entry);
    WalkChild(cfg, entry, "value");
    var walked := Walk(cfg, rewritten).value;
    var inner := Walk(cfg, entry).value;
    assert Child(walked, IndexKey(j)) == Some(inner);
    assert Child(inner, "value") == Some(HandleKey(cfg, "value", Str(once)).value);
    assert At(walked, [IndexKey(j), "value"]) == At(inner, ["value"]);
  }
}
