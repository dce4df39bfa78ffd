/**
 * Whole-document consequences of the walk under the default key pattern
 * `/markdown/`: a document with one matching string key, a freeform array of
 * a `text` entry and an `other` entry, and the walk's lack of idempotence.
 */
module MarkdownExamples {
  import opened Results
  import opened JsValues
  import opened Markdown
  import Patterns

  /** A one-property document whose key matches is replaced by its rendering. */
  lemma OneMatchingString(cfg: Config, key: string, s: string)
    requires KeyMatches(cfg, key)
    ensures Walk(cfg, Obj([Property(key, Str(s))])) == Ok(Obj([Property(key, Str(cfg.render(s)))]))
  {
    assert HandleKey(cfg, key, Str(s)) == Ok(Str(cfg.render(s)));
    OneKeyDocument(cfg, key, Str(s), Str(cfg.render(s)));
  }

  /** `{markdown: "**x**"}` becomes `{markdown: "<strong>x</strong>"}`. */
  lemma MarkdownKeyExample(render: string -> string)
    requires render("**x**") == "<strong>x</strong>"
    ensures Walk(Config(None, render), Obj([Property("markdown", Str("**x**"))]))
            == Ok(Obj([Property("markdown", Str("<strong>x</strong>"))]))
  {
    assert Patterns.OccursAt("markdown", "markdown", 0);
    OneMatchingString(Config(None, render), "markdown", "**x**");
  }

  /** Rendering an already rendered document renders it again. */
  lemma WalkIsNotIdempotent(render: string -> string)
    requires render("a") == "b" && render("b") == "c"
    ensures
      var cfg := Config(None, render);
      var doc := Obj([Property("markdown", Str("a"))]);
      Walk(cfg, doc).Ok? && Walk(cfg, Walk(cfg, doc).value) != Walk(cfg, doc)
  {
    var cfg := Config(None, render);
    assert Patterns.OccursAt("markdown", "markdown", 0);
    OneMatchingString(cfg, "markdown", "a");
    OneMatchingString(cfg, "markdown", "b");
  }

  /** The freeform entry `{type: t, value: v}`. */
  function Entry(t: string, v: string): Value {
    Obj([Property("type", Str(t)), Property("value", Str(v))])
  }

  /** A "value" key outside a freeform array is an ordinary key: `{intro: {value: "x"}}` walks to itself. */
  lemma ValueOutsideFreeform(render: string -> string)
    ensures Walk(Config(None, render), Obj([Property("intro", Obj([Property("value", Str("x"))]))]))
            == Ok(Obj([Property("intro", Obj([Property("value", Str("x"))]))]))
  {
    var cfg := Config(None, render);
    var inner := Obj([Property("value", Str("x"))]);
    assert !KeyMatches(cfg, "value") && !KeyMatches(cfg, "intro");
    assert HandleKey(cfg, "value", Str("x")) == Ok(Str("x"));
    OneKeyDocument(cfg, "value", Str("x"), Str("x"));
    assert HandleKey(cfg, "intro", inner) == Ok(inner);
    OneKeyDocument(cfg, "intro", inner, inner);
  }

  /** `{type: t, value: v}` walks to itself: neither key contains "markdown". */
  lemma ShortKeyedEntryUnchanged(cfg: Config, t: string, v: string)
    requires cfg.markdownKeyRegex.None?
    ensures
      Walk(cfg, Entry(t, v)) == Ok(Entry(t, v))
  {
    var fields := [Property("type", Str(t)), Property("value", Str(v))];
    assert !KeyMatches(cfg, "type") && !KeyMatches(cfg, "value");
    assert HandleKey(cfg, "type", Str(t)) == Ok(Str(t));
    assert HandleKey(cfg, "value", Str(v)) == Ok(Str(v));
    TwoKeysUnchanged(cfg, fields);
  }

  /** Two properties, each of which walks to itself, make up an object or array that walks to itself. */
  lemma TwoKeysUnchanged(cfg: Config, fields: seq<Property>)
    requires |fields| == 2
    requires HandleKey(cfg, fields[0].key, fields[0].value) == Ok(fields[0].value)
    requires HandleKey(cfg, fields[1].key, fields[1].value) == Ok(fields[1].value)
    ensures HandleKeys(cfg, fields) == Ok(fields)
  {
    assert HandleKeys(cfg, fields[..0]) == Ok([]);
    HandleKeysStep(cfg, fields, 0, []);
    assert [] + [fields[0]] == [fields[0]];
    HandleKeysStep(cfg, fields, 1, [fields[0]]);
    assert [fields[0]] + [fields[1]] == fields && fields[..2] == fields;
  }

  lemma TextEntryRendered(render: string -> string)
    ensures RenderEntry(Config(None, render), Entry("text", "*a*")) == Ok(Entry("text", render("*a*")))
  {
    var fields := Entry("text", "*a*").fields;
    assert KeyIndex(fields, "type") == Some(0);
    assert KeyIndex(fields, "value") == Some(1) by {
      assert fields[0].key != "value";
      assert KeyIndex(fields[1..], "value") == Some(0);
    }
    assert IsTextEntry(Config(None, render), fields) == Ok(true);
    assert SetField(fields, "value", Str(render("*a*"))) == fields[1 := Property("value", Str(render("*a*")))];
    assert fields[1 := Property("value", Str(render("*a*")))] == Entry("text", render("*a*")).fields;
  }

  lemma OtherEntryKept(render: string -> string)
    ensures RenderEntry(Config(None, render), Entry("other", "*a*")) == Ok(Entry("other", "*a*"))
  {
    assert !KeyMatches(Config(None, render), "other");
  }

  /** The freeform pass renders the `text` entry and keeps the `other` one. */
  lemma FreeformPass(render: string -> string)
    ensures RenderEntries(Config(None, render), [Entry("text", "*a*"), Entry("other", "*a*")])
            == Ok([Entry("text", render("*a*")), Entry("other", "*a*")])
  {
    var cfg := Config(None, render);
    var text, other, rendered := Entry("text", "*a*"), Entry("other", "*a*"), Entry("text", render("*a*"));
    TextEntryRendered(render);
    OtherEntryKept(render);
    var items := [text, other];
    assert RenderEntries(cfg, items[..0]) == Ok([]);
    RenderEntriesStep(cfg, items, 0, []);
    assert [] + [rendered] == [rendered];
    RenderEntriesStep(cfg, items, 1, [rendered]);
    assert [rendered] + [other] == [rendered, other] && items[..2] == items;
  }

  /** Walking an array of two short-keyed entries changes nothing. */
  lemma WalkEntryPair(cfg: Config, a: string, b: string, c: string, d: string)
    requires cfg.markdownKeyRegex.None?
    ensures Walk(cfg, Arr([Entry(a, b), Entry(c, d)])) == Ok(Arr([Entry(a, b), Entry(c, d)]))
  {
    var items := [Entry(a, b), Entry(c, d)];
    var entries := Indexed(items);
    Patterns.IndexKeyIsNeverMarkdownKey(0);
    Patterns.IndexKeyIsNeverMarkdownKey(1);
    ShortKeyedEntryUnchanged(cfg, a, b);
    ShortKeyedEntryUnchanged(cfg, c, d);
    assert HandleKey(cfg, entries[0].key, entries[0].value) == Ok(entries[0].value);
    assert HandleKey(cfg, entries[1].key, entries[1].value) == Ok(entries[1].value);
    TwoKeysUnchanged(cfg, entries);
    assert ItemsOf(entries) == items;
  }

  /**
   * Under a matching key, `[{type: "text", value: "*a*"}, {type: "other", value: "*a*"}]`
   * has only its first element's `value` rendered.
   */
  lemma FreeformExample(render: string -> string)
    ensures Walk(Config(None, render), Obj([Property("markdown", Arr([Entry("text", "*a*"), Entry("other", "*a*")]))]))
            == Ok(Obj([Property("markdown", Arr([Entry("text", render("*a*")), Entry("other", "*a*")]))]))
  {
    var cfg := Config(None, render);
    assert Patterns.OccursAt("markdown", "markdown", 0);
    var before := Arr([Entry("text", "*a*"), Entry("other", "*a*")]);
    var after := Arr([Entry("text", render("*a*")), Entry("other", "*a*")]);
    FreeformPass(render);
    assert RewriteMatched(cfg, "markdown", before) == Ok(after);
    WalkEntryPair(cfg, "text", render("*a*"), "other", "*a*");
    assert HandleKey(cfg, "markdown", before) == Ok(after);
    OneKeyDocument(cfg, "markdown", before, after);
  }

  /** A one-property document is walked to the outcome of handling its one key. */
  lemma OneKeyDocument(cfg: Config, key: string, v: Value, w: Value)
    requires HandleKey(cfg, key, v) == Ok(w)
    ensures Walk(cfg, Obj([Property(key, v)])) == Ok(Obj([Property(key, w)]))
  {
    var fields := [Property(key, v)];
    assert HandleKeys(cfg, fields[..0]) == Ok([]);
    HandleKeysStep(cfg, fields, 0, []);
    assert [] + [Property(key, w)] == [Property(key, w)] && fields[..1] == fields;
    assert HandleKeys(cfg, fields) == Ok([Property(key, w)]);
  }
}
