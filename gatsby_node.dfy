/**
 * The Gatsby hooks of gatsby-node.js: `unstable_shouldOnCreateNode`, which
 * picks the file nodes to transform, and `onCreateNode`, which walks the
 * parsed ArchieML document with `handleMarkdown`, names the new node's type
 * and hands the new node and its parent link to Gatsby.
 *
 * The host's helpers (`path.basename`, `JSON.stringify`, `createNodeId`,
 * `createContentDigest`) are parameters; the two actions are returned as a
 * list in the order they are called.
 */
module GatsbyNode {
  import opened Results
  import opened JsValues
  import Patterns
  import Markdown

  /** The fields of Gatsby's file node that the plugin reads. */
  datatype FileNode = FileNode(id: string, base: string, dir: string)

  /** The options object passed to `unstable_shouldOnCreateNode`. */
  datatype FilterOptions = FilterOptions(filenameRegex: Option<string -> bool>)

  /**
   * The `typeName` option: a function of `{ node, object }`, a string, or
   * anything else (absent included), which leaves the default in place.
   */
  datatype TypeNameOption =
    | TypeNameFunction(f: (FileNode, Value) -> string)
    | TypeNameString(name: string)
    | NoTypeName

  /**
   * The plugin options read by `onCreateNode`. `None` stands for an option
   * that is `undefined`; `render` is `marked.parse` with `markdownOptions`.
   */
  datatype PluginOptions = PluginOptions(
    typeName: TypeNameOption,
    filenameRegex: Option<string -> bool>,
    gatsbyKey: Option<string>,
    serialized: Option<bool>,
    markdownKeyRegex: Option<string -> bool>,
    render: string -> string)

  /** What is stored under `gatsbyKey` and digested: the JSON text or the tree. */
  datatype Payload = Serialized(json: string) | Unserialized(tree: Value)

  /** The host's helpers, left uninterpreted. */
  datatype Helpers = Helpers(
    basename: string -> string,
    stringify: Value -> string,
    createNodeId: string -> string,
    createContentDigest: Payload -> string)

  /** The three kinds of property of the node the plugin creates. */
  datatype OutputField =
    | PayloadField(payload: Payload)
    | IdField(id: string)
    | InternalField(contentDigest: string, typeName: string)

  datatype OutputNode = OutputNode(fields: map<string, OutputField>)

  /** The calls `onCreateNode` makes on Gatsby's `actions`, in order. */
  datatype Action =
    | CreateNode(node: OutputNode)
    | CreateParentChildLink(parent: FileNode, child: OutputNode)

  /** `(filenameRegex || /\.aml$/).test(node.base)`, with `options || {}`. */
  predicate ShouldOnCreateNode(node: FileNode, options: Option<FilterOptions>)
    ensures options.Some? && options.value.filenameRegex.Some? ==>
      (ShouldOnCreateNode(node, options) <==> options.value.filenameRegex.value(node.base))
    ensures options.None? || options.value.filenameRegex.None? ==>
      (ShouldOnCreateNode(node, options) <==> |node.base| >= 4 && node.base[|node.base| - 4..] == ".aml")
  {
    var regex := if options.Some? then options.value.filenameRegex else None;
    match regex
    case None => Patterns.IsAmlFileName(node.base)
    case Some(test) => test(node.base)
  }

  /** Without a `filenameRegex`, or without options, only `.aml` files are taken. */
  lemma FilenameDefault(node: FileNode, options: Option<FilterOptions>)
    requires options.None? || options.value.filenameRegex.None?
    ensures ShouldOnCreateNode(node, options) <==> Patterns.EndsWith(node.base, ".aml")
    ensures ShouldOnCreateNode(FileNode(node.id, "test.aml", node.dir), options)
    ensures !ShouldOnCreateNode(FileNode(node.id, "test.json", node.dir), options)
  {
    assert "test.aml"[4..] == ".aml";
    assert "test.json"[5..] != ".aml" by { assert "test.json"[5..][0] != '.'; }
  }

  /** A given `filenameRegex` decides alone; the `.aml` suffix plays no part. */
  lemma FilenameCustom(node: FileNode, test: string -> bool)
    ensures ShouldOnCreateNode(node, Some(FilterOptions(Some(test)))) == test(node.base)
    ensures ShouldOnCreateNode(FileNode(node.id, "test.json", node.dir), Some(FilterOptions(Some(test))))
            == test("test.json")
  {
  }

  /** The configuration `onCreateNode` hands to `handleMarkdown`. */
  function MarkdownConfig(opts: PluginOptions): (cfg: Markdown.Config)
    ensures cfg.markdownKeyRegex == opts.markdownKeyRegex && cfg.render == opts.render
  {
    Markdown.Config(opts.markdownKeyRegex, opts.render)
  }

  /** The type given to the new node: the function, else the string, else `<basename of dir>ArchieML`. */
  function TypeName(opts: PluginOptions, helpers: Helpers, node: FileNode, doc: Value): (t: string)
    ensures opts.typeName.TypeNameFunction? ==> t == opts.typeName.f(node, doc)
    ensures opts.typeName.TypeNameString? ==> t == opts.typeName.name
    ensures opts.typeName.NoTypeName? ==>
      Patterns.EndsWith(t, "ArchieML") && t[..|t| - 8] == helpers.basename(node.dir)
  {
    match opts.typeName
    case TypeNameFunction(f) => f(node, doc)
    case TypeNameString(name) => name
    case NoTypeName => helpers.basename(node.dir) + "ArchieML"
  }

  /**
   * A `typeName` function takes priority over everything, a string over the
   * default; only without either does the directory name count, and then
   * two nodes in directories of the same base name get the same type.
   */
  lemma TypeNamePriority(opts: PluginOptions, helpers: Helpers, node: FileNode, doc: Value, other: FileNode)
    ensures opts.typeName.TypeNameFunction? ==> TypeName(opts, helpers, node, doc) == opts.typeName.f(node, doc)
    ensures opts.typeName.TypeNameString? ==> TypeName(opts, helpers, node, doc) == opts.typeName.name
    ensures opts.typeName.NoTypeName? ==>
      var t := TypeName(opts, helpers, node, doc);
      |t| >= 8 && t[|t| - 8..] == "ArchieML" && t[..|t| - 8] == helpers.basename(node.dir)
    ensures !opts.typeName.TypeNameFunction? && helpers.basename(other.dir) == helpers.basename(node.dir) ==>
      TypeName(opts, helpers, other, doc) == TypeName(opts, helpers, node, doc)
  {
  }

  /** `gatsbyKey = 'object'`: the default applies only when the option is `undefined`. */
  function GatsbyKey(opts: PluginOptions): (key: string)
    ensures opts.gatsbyKey.None? ==> key == "object"
    ensures opts.gatsbyKey.Some? ==> key == opts.gatsbyKey.value
  {
    if opts.gatsbyKey.Some? then opts.gatsbyKey.value else "object"
  }

  /** `serialized = true`. */
  predicate IsSerialized(opts: PluginOptions) {
    opts.serialized != Some(false)
  }

  /** `serialized ? JSON.stringify(object) : object`. */
  function PayloadOf(opts: PluginOptions, helpers: Helpers, doc: Value): (p: Payload)
    ensures p.Serialized? <==> opts.serialized != Some(false)
    ensures p.Serialized? ==> p.json == helpers.stringify(doc)
    ensures p.Unserialized? ==> p.tree == doc
  {
    if IsSerialized(opts) then Serialized(helpers.stringify(doc)) else Unserialized(doc)
  }

  /**
   * The object literal built at the end of `onCreateNode`. Its properties are
   * written in literal order, so a `gatsbyKey` of "id" or "internal" is
   * overwritten by the later property of that name.
   */
  function OutputRecord(opts: PluginOptions, helpers: Helpers, node: FileNode, doc: Value, typeName: string): (out: OutputNode)
    ensures out.fields.Keys == {GatsbyKey(opts), "id", "internal"}
    ensures out.fields["internal"] == InternalField(helpers.createContentDigest(PayloadOf(opts, helpers, doc)), typeName)
    ensures GatsbyKey(opts) != "id" && GatsbyKey(opts) != "internal" ==>
      out.fields[GatsbyKey(opts)] == PayloadField(PayloadOf(opts, helpers, doc))
  {
    var payload := PayloadOf(opts, helpers, doc);
    OutputNode(map[GatsbyKey(opts) := PayloadField(payload)]
                  ["id" := IdField(helpers.createNodeId(node.id + " >>> ArchieML"))]
                  ["internal" := InternalField(helpers.createContentDigest(payload), typeName)])
  }

  /**
   * The new node has exactly the keys `gatsbyKey`, "id" and "internal"; its
   * id is derived from the file node's id alone; its digest is taken of the
   * same payload that is stored; the payload is the JSON text by default.
   */
  lemma OutputRecordFields(opts: PluginOptions, helpers: Helpers, node: FileNode, doc: Value, typeName: string)
    ensures
      var out := OutputRecord(opts, helpers, node, doc, typeName);
      var key := GatsbyKey(opts);
      out.fields.Keys == {key, "id", "internal"} &&
      out.fields["id"] == IdField(helpers.createNodeId(node.id + " >>> ArchieML")) &&
      out.fields["internal"].typeName == typeName &&
      (key != "id" && key != "internal" ==>
        out.fields[key].payload == PayloadOf(opts, helpers, doc) &&
        out.fields["internal"].contentDigest == helpers.createContentDigest(out.fields[key].payload)) &&
      (opts.serialized.None? ==> PayloadOf(opts, helpers, doc) == Serialized(helpers.stringify(doc)))
  {
  }

  /** Two file nodes with the same id get new nodes with the same id, whatever the document. */
  lemma OutputIdDependsOnNodeIdOnly(opts: PluginOptions, helpers: Helpers, node: FileNode, other: FileNode,
                                     a: Value, b: Value, s: string, t: string)
    requires node.id == other.id
    ensures OutputRecord(opts, helpers, node, a, s).fields["id"] == OutputRecord(opts, helpers, other, b, t).fields["id"]
  {
  }

  /** A `gatsbyKey` of "id" or "internal" loses the document: no property holds the payload. */
  lemma GatsbyKeyCollision(opts: PluginOptions, helpers: Helpers, node: FileNode, doc: Value, typeName: string)
    requires GatsbyKey(opts) == "id" || GatsbyKey(opts) == "internal"
    ensures
      var out := OutputRecord(opts, helpers, node, doc, typeName);
      |out.fields.Keys| == 2 && forall k | k in out.fields :: !out.fields[k].PayloadField?
  {
    var out := OutputRecord(opts, helpers, node, doc, typeName);
    assert out.fields.Keys == {"id", "internal"};
  }

  /**
   * `onCreateNode`, given the document `archieml.load` produced from the
   * node's content. A node that is not selected yields no action; an error of
   * the walk aborts the call before any action; otherwise the new node is
   * created and then linked to its parent.
   */
  method OnCreateNode(node: FileNode, document: Value, opts: PluginOptions, helpers: Helpers)
    returns (r: Result<seq<Action>, Exception>)
    requires document.Obj?
    ensures !ShouldOnCreateNode(node, Some(FilterOptions(opts.filenameRegex))) ==> r == Ok([])
    ensures ShouldOnCreateNode(node, Some(FilterOptions(opts.filenameRegex))) ==>
      var walked := Markdown.Walk(MarkdownConfig(opts), document);
      if walked.Err? then r == Err(walked.error)
      else
        var out := OutputRecord(opts, helpers, node, walked.value, TypeName(opts, helpers, node, walked.value));
        r == Ok([CreateNode(out), CreateParentChildLink(node, out)])
  {
    if !ShouldOnCreateNode(node, Some(FilterOptions(opts.filenameRegex))) {
      return Ok([]);
    }
    var doc :- Markdown.HandleMarkdown(MarkdownConfig(opts), document);
    var typeName := helpers.basename(node.dir) + "ArchieML";
    match opts.typeName {
      case TypeNameFunction(f) => typeName := f(node, doc);
      case TypeNameString(name) => typeName := name;
      case NoTypeName =>
    }
    var output := OutputRecord(opts, helpers, node, doc, typeName);
    r := Ok([CreateNode(output), CreateParentChildLink(node, output)]);
  }
}
