/**
 * `handleMarkdown` (gatsby-node.js): the recursive walk over a parsed
 * ArchieML document that renders Markdown held under matching property
 * names. The functions below state what one call computes; the methods
 * `HandleMarkdown`, `HandleEachKey` and `RenderFreeformEntries` follow the
 * source's nested `forEach` loops and are proved to compute exactly that.
 */
module Markdown {
  import opened Results
  import opened JsValues
  import Patterns

  /**
   * The walk's parameters: `markdownKeyRegex` (absent or falsy: the default
   * `/markdown/`), reduced to its `test` predicate, and `marked.parse` with
   * the plugin's `markdownOptions`, as a function from Markdown to HTML.
   */
  datatype Config = Config(markdownKeyRegex: Option<string -> bool>, render: string -> string)

  /** `(markdownKeyRegex || /markdown/).test(key)`. */
  predicate KeyMatches(cfg: Config, key: string) {
    match cfg.markdownKeyRegex
    case None => Patterns.IsMarkdownKey(key)
    case Some(test) => test(key)
  }

  /**
   * The default `/markdown/` is case-sensitive and matches anywhere in the
   * key: "intro_markdown" matches, "introMarkdown" does not.
   */
  lemma DefaultKeyPattern(render: string -> string)
    ensures KeyMatches(Config(None, render), "markdown")
    ensures KeyMatches(Config(None, render), "intro_markdown")
    ensures !KeyMatches(Config(None, render), "introMarkdown")
    ensures !KeyMatches(Config(None, render), "markd")
  {
    assert Patterns.OccursAt("markdown", "markdown", 0);
    assert Patterns.OccursAt("intro_markdown", "markdown", 6);
    var s := "introMarkdown";
    forall i | 0 <= i <= |s| - 8 ensures !Patterns.OccursAt(s, "markdown", i) {
      assert s[i..i + 8][0] == s[i];
      assert s[i..i + 8][5 - i] == s[5];
    }
  }

  /**
   * The guard of a freeform-array entry that is an object:
   * `entry.type && (entry.type === 'text' || regex.test(entry.type))`.
   */
  function IsTextEntry(cfg: Config, fields: seq<Property>): (r: Result<bool, Exception>)
    ensures Lookup(fields, "type").None? || !Truthy(Lookup(fields, "type").value) ==> r == Ok(false)
    ensures Lookup(fields, "type") == Some(Str("text")) ==> r == Ok(true)
    ensures var t := Lookup(fields, "type");
      t.Some? && t.value.Str? && t.value.s != "" ==> r == Ok(t.value.s == "text" || KeyMatches(cfg, t.value.s))
    ensures r.Err? ==> r == Err(NotConvertible)
  {
    match Lookup(fields, "type")
    case None => Ok(false)
    case Some(t) =>
      if !Truthy(t) then Ok(false)
      else if t == Str("text") then Ok(true)
      else
        var arg :- ToJsString(t);
        Ok(KeyMatches(cfg, arg))
  }

  /**
   * One entry of an array under a matching key: a selected entry gets
   * `value = marked.parse(entry.value)`. Only objects can be selected;
   * `null.type` throws, and so does rendering a `value` that is not a string.
   */
  function RenderEntry(cfg: Config, entry: Value): (r: Result<Value, Exception>)
    ensures r.Ok? ==> Size(r.value) == Size(entry) && SameNode(entry, r.value)
  {
    match entry
    case Null => Err(PropertyOfNull)
    case Obj(fields) =>
      var selected :- IsTextEntry(cfg, fields);
      if !selected then Ok(entry)
      else (
        match Lookup(fields, "value")
        case Some(Str(s)) =>
          SizeOfSetField(fields, "value", Str(cfg.render(s)));
          Ok(Obj(SetField(fields, "value", Str(cfg.render(s)))))
        case _ => Err(RenderInputNotString))
    case _ => Ok(entry)
  }

  /** The inner `forEach`: the entries in index order, stopping at the first exception. */
  function RenderEntries(cfg: Config, items: seq<Value>): (r: Result<seq<Value>, Exception>)
    ensures r.Ok? ==> |r.value| == |items| && SizeOfItems(r.value) == SizeOfItems(items)
  {
    if |items| == 0 then Ok([])
    else
      var done :- RenderEntries(cfg, items[..|items| - 1]);
      var last :- RenderEntry(cfg, items[|items| - 1]);
      assert (done + [last])[..|done|] == done;
      Ok(done + [last])
  }

  /**
   * The first half of the loop body: under a matching key a string is
   * rendered and an array has its selected entries rendered; anything else,
   * and everything under a key that does not match, is left as it is.
   */
  function RewriteMatched(cfg: Config, key: string, v: Value): (r: Result<Value, Exception>)
    ensures r.Ok? ==> Size(r.value) == Size(v) && SameNode(v, r.value)
  {
    if !KeyMatches(cfg, key) then Ok(v)
    else match v
      case Str(s) => Ok(Str(cfg.render(s)))
      case Arr(items) =>
        var rendered :- RenderEntries(cfg, items);
        Ok(Arr(rendered))
      case _ => Ok(v)
  }

  /**
   * The whole loop body for one key: the rewrite, then, if what is now
   * stored under the key is `typeof 'object'`, the recursive walk of it.
   */
  function HandleKey(cfg: Config, key: string, v: Value): (r: Result<Value, Exception>)
    ensures r.Ok? ==> SameNode(v, r.value)
    decreases Size(v), 1
  {
    var v' :- RewriteMatched(cfg, key, v);
    if v'.IsObjectTyped() then Walk(cfg, v') else Ok(v')
  }

  /** The outer `forEach` over `Object.keys(obj)`, in order, stopping at the first exception. */
  function HandleKeys(cfg: Config, fields: seq<Property>): (r: Result<seq<Property>, Exception>)
    ensures r.Ok? ==> Keys(r.value) == Keys(fields)
    decreases SizeOfFields(fields), 2
  {
    if |fields| == 0 then Ok([])
    else
      var n := |fields|;
      var done :- HandleKeys(cfg, fields[..n - 1]);
      var w :- HandleKey(cfg, fields[n - 1].key, fields[n - 1].value);
      assert Keys(done + [Property(fields[n - 1].key, w)]) == Keys(fields[..n - 1]) + [fields[n - 1].key];
      Ok(done + [Property(fields[n - 1].key, w)])
  }

  /**
   * `handleMarkdown(obj)` for a value with `typeof obj === 'object'`: an
   * object is walked over its keys, an array over its index strings, and
   * `null` makes `Object.keys` throw.
   */
  function Walk(cfg: Config, v: Value): (r: Result<Value, Exception>)
    requires v.IsObjectTyped()
    ensures r.Ok? ==> SameNode(v, r.value)
    decreases Size(v), 0
  {
    match v
    case Null => Err(KeysOfNull)
    case Obj(fields) =>
      var out :- HandleKeys(cfg, fields);
      Ok(Obj(out))
    case Arr(items) =>
      SizeOfIndexed(items);
      var out :- HandleKeys(cfg, Indexed(items));
      Ok(Arr(ItemsOf(out)))
  }

  lemma RenderEntriesStep(cfg: Config, items: seq<Value>, j: nat, done: seq<Value>)
    requires j < |items| && RenderEntries(cfg, items[..j]) == Ok(done)
    ensures RenderEntries(cfg, items[..j + 1]) ==
      match RenderEntry(cfg, items[j])
      case Ok(e) => Ok(done + [e])
      case Err(x) => Err(x)
  {
    assert items[..j + 1][..j] == items[..j];
  }

  lemma HandleKeysStep(cfg: Config, fields: seq<Property>, i: nat, done: seq<Property>)
    requires i < |fields| && HandleKeys(cfg, fields[..i]) == Ok(done)
    ensures HandleKeys(cfg, fields[..i + 1]) ==
      match HandleKey(cfg, fields[i].key, fields[i].value)
      case Ok(w) => Ok(done + [Property(fields[i].key, w)])
      case Err(x) => Err(x)
  {
    assert fields[..i + 1][..i] == fields[..i];
  }

  lemma {:induction false} RenderEntriesPrefixFails(cfg: Config, items: seq<Value>, n: nat)
    requires n <= |items| && RenderEntries(cfg, items[..n]).Err?
    ensures RenderEntries(cfg, items) == RenderEntries(cfg, items[..n])
    decreases |items|
  {
    if n < |items| {
      var m := |items| - 1;
      assert items[..m][..n] == items[..n];
      RenderEntriesPrefixFails(cfg, items[..m], n);
      assert RenderEntries(cfg, items[..m]).Err?;
    } else {
      assert items[..n] == items;
    }
  }

  lemma {:induction false} HandleKeysPrefixFails(cfg: Config, fields: seq<Property>, n: nat)
    requires n <= |fields| && HandleKeys(cfg, fields[..n]).Err?
    ensures HandleKeys(cfg, fields) == HandleKeys(cfg, fields[..n])
    decreases |fields|
  {
    if n < |fields| {
      var m := |fields| - 1;
      assert fields[..m][..n] == fields[..n];
      HandleKeysPrefixFails(cfg, fields[..m], n);
    } else {
      assert fields[..n] == fields;
    }
  }

  /**
   * The body of the inner `forEach` for one entry: when the guard holds,
   * the entry's `value` is replaced by its rendering.
   */
  method RenderOneEntry(cfg: Config, entry: Value) returns (r: Result<Value, Exception>)
    ensures r == RenderEntry(cfg, entry)
  {
    if entry.Null? {
      return Err(PropertyOfNull);
    }
    r := Ok(entry);
    if entry.Obj? {
      var selected := IsTextEntry(cfg, entry.fields);
      if selected.Err? {
        return Err(selected.error);
      }
      if selected.value {
        var value := Lookup(entry.fields, "value");
        if !(value.Some? && value.value.Str?) {
          return Err(RenderInputNotString);
        }
        r := Ok(Obj(SetField(entry.fields, "value", Str(cfg.render(value.value.s)))));
      }
    }
  }

  /**
   * `obj[key].forEach((entry, index) => ...)`: the array is updated entry
   * by entry, in index order.
   */
  method RenderFreeformEntries(cfg: Config, items: seq<Value>) returns (r: Result<seq<Value>, Exception>)
    ensures r == RenderEntries(cfg, items)
  {
    var current := items;
    var j := 0;
    while j < |items|
      invariant 0 <= j <= |items| && |current| == |items|
      invariant forall k :: j <= k < |items| ==> current[k] == items[k]
      invariant RenderEntries(cfg, items[..j]) == Ok(current[..j])
    {
      RenderEntriesStep(cfg, items, j, current[..j]);
      var entry := RenderOneEntry(cfg, current[j]);
      if entry.Err? {
        RenderEntriesPrefixFails(cfg, items, j + 1);
        return Err(entry.error);
      }
      ghost var before := current;
      current := current[j := entry.value];
      assert current[..j] == before[..j];
      assert current[..j + 1] == current[..j] + [entry.value];
      j := j + 1;
    }
    assert items[..j] == items && current[..j] == current;
    r := Ok(current);
  }

  /**
   * The `forEach` callback for one key, on `value = obj[key]`: the matched-key
   * rewrite, then the recursive call if the value is now `typeof 'object'`.
   * The result is what `obj[key]` holds when the callback returns.
   */
  method HandleOneKey(cfg: Config, key: string, value: Value) returns (r: Result<Value, Exception>)
    ensures r == HandleKey(cfg, key, value)
    decreases Size(value), 1
  {
    var current := value;
    if KeyMatches(cfg, key) {
      if current.Str? {
        current := Str(cfg.render(current.s));
      }
      if current.Arr? {
        var rendered := RenderFreeformEntries(cfg, current.items);
        if rendered.Err? {
          return Err(rendered.error);
        }
        current := Arr(rendered.value);
      }
    }
    assert RewriteMatched(cfg, key, value) == Ok(current);
    if current.IsObjectTyped() {
      r := HandleMarkdown(cfg, current);
    } else {
      r := Ok(current);
    }
  }

  /**
   * `Object.keys(obj).forEach((key) => ...)`: `current` is the object as the
   * loop leaves it, with the first `i` keys handled.
   */
  method HandleEachKey(cfg: Config, fields: seq<Property>) returns (r: Result<seq<Property>, Exception>)
    ensures r == HandleKeys(cfg, fields)
    decreases SizeOfFields(fields), 2
  {
    var current := fields;
    var i := 0;
    while i < |fields|
      invariant 0 <= i <= |fields| && |current| == |fields|
      invariant forall k :: i <= k < |fields| ==> current[k] == fields[k]
      invariant HandleKeys(cfg, fields[..i]) == Ok(current[..i])
    {
      var key := current[i].key;
      HandleKeysStep(cfg, fields, i, current[..i]);
      SizeOfFieldBound(fields, i);
      var handled := HandleOneKey(cfg, key, current[i].value);
      if handled.Err? {
        HandleKeysPrefixFails(cfg, fields, i + 1);
        return Err(handled.error);
      }
      ghost var before := current;
      current := current[i := Property(key, handled.value)];
      assert current[..i] == before[..i];
      assert current[..i + 1] == current[..i] + [Property(key, handled.value)];
      i := i + 1;
    }
    assert fields[..i] == fields && current[..i] == current;
    r := Ok(current);
  }

  /**
   * `handleMarkdown(obj, markdownKeyRegex, markdownOptions)`; the returned
   * value is the object after every key has been handled.
   */
  method HandleMarkdown(cfg: Config, obj: Value) returns (r: Result<Value, Exception>)
    requires obj.IsObjectTyped()
    ensures r == Walk(cfg, obj)
    decreases Size(obj), 0
  {
    match obj {
      case Null =>
        r := Err(KeysOfNull);
      case Obj(fields) =>
        var out := HandleEachKey(cfg, fields);
        r := if out.Ok? then Ok(Obj(out.value)) else Err(out.error);
      case Arr(items) =>
        SizeOfIndexed(items);
        var out := HandleEachKey(cfg, Indexed(items));
        r := if out.Ok? then Ok(Arr(ItemsOf(out.value))) else Err(out.error);
    }
  }
}
