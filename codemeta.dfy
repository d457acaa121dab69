/** The schema-to-expression tree of the client generator (lib/src/CodeMeta.ts).
    One `CodeMeta` node is made per occurrence of a schema or reference
    while a schema is translated into a validator expression. A node
    remembers the `$ref` it stands for, the chain of reference nodes that
    led to it (which the generator consults to notice reference cycles), the
    expression text assigned to it, and the nodes attached to it as children. */
module ExpressionTree {
  import opened Js
  import opened OpenApi

  /** `ConversionTypeContext`: the state of one translation pass. */
  datatype ConversionTypeContext = ConversionTypeContext(
    resolver: DocumentResolver,
    zodSchemaByName: map<string, string>,
    schemaByName: map<string, string>,
    schemasByName: Option<map<string, seq<string>>>)

  /** `CodeMetaData`, the optional settings a caller passes to the constructor. */
  datatype CodeMetaData = CodeMetaData(
    isRequired: Option<bool>,
    name: Option<string>,
    parent: Option<CodeMeta>,
    referencedBy: Option<JsArray<CodeMeta>>)

  /** The default argument `{}`. */
  const NoMeta: CodeMetaData := CodeMetaData(None, None, None, None)

  /** `DefinedCodeMetaData`: the node's own copy of the settings, in which
      `referencedBy` is always present. */
  datatype DefinedCodeMetaData = DefinedCodeMetaData(
    isRequired: Option<bool>,
    name: Option<string>,
    parent: Option<CodeMeta>,
    referencedBy: JsArray<CodeMeta>)

  /** The chain the caller hands over, `meta.referencedBy ?? []`. */
  function CallerChain(meta: CodeMetaData): seq<CodeMeta>
    reads if meta.referencedBy.Some? then {meta.referencedBy.value} else {}
  {
    match meta.referencedBy
    case None => []
    case Some(chain) => chain.elems
  }

  /** The chain a node keeps: the caller's chain, followed by the node itself
      when the node stands for a (non-empty) reference. */
  function ExtendedChain(chain: seq<CodeMeta>, node: CodeMeta): (r: seq<CodeMeta>)
    ensures |chain| <= |r| <= |chain| + 1
    ensures r[..|chain|] == chain
    ensures |r| == |chain| + 1 <==> Truthy(node.ref)
    ensures Truthy(node.ref) ==> r[|chain|] == node
    ensures WellFormedChain(chain) && node !in chain ==> WellFormedChain(r)
  {
    if Truthy(node.ref) then chain + [node] else chain
  }

  /** What every chain built by the constructor satisfies: it holds only
      nodes that stand for a non-empty reference, each at most once. */
  ghost predicate WellFormedChain(chain: seq<CodeMeta>)
  {
    && (forall i :: 0 <= i < |chain| ==> Truthy(chain[i].ref))
    && (forall i, j :: 0 <= i < j < |chain| ==> chain[i] != chain[j])
  }

  class CodeMeta {
    /** The expression text assigned to this node, if any (private in the source). */
    var code: Option<string>
    /** The `$ref` of the wrapped schema when it is a reference object. */
    const ref: Option<string>
    /** The nodes that attached themselves to this one with `Inherit`. Each
        node creates its own array and never hands it out for sharing, so it
        is a field holding a sequence. */
    var children: seq<CodeMeta>
    const meta: DefinedCodeMetaData
    const schema: Schema
    const ctx: Option<ConversionTypeContext>

    /** Wraps one occurrence of `schema`. The node copies the caller's
        settings and chain into arrays of its own, so that later pushes on
        either side never reach the other, and puts itself at the end of its
        chain when it stands for a reference. */
    constructor (schema: Schema, ctx: Option<ConversionTypeContext> := None, meta: CodeMetaData := NoMeta)
      ensures this.schema == schema && this.ctx == ctx
      ensures ref == if schema.ReferenceObject? then Some(schema.ref) else None
      ensures code == None
      ensures children == []
      ensures this.meta.isRequired == meta.isRequired
      ensures this.meta.name == meta.name
      ensures this.meta.parent == meta.parent
      ensures fresh(this.meta.referencedBy)
      ensures meta.referencedBy.Some? ==> unchanged(meta.referencedBy.value)
      ensures this !in CallerChain(meta)
      ensures this.meta.referencedBy.elems == ExtendedChain(CallerChain(meta), this)
      ensures WellFormedChain(CallerChain(meta)) ==> WellFormedChain(this.meta.referencedBy.elems)
      ensures ref.Some? ==> CodeString() == ReferenceText()
    {
      this.schema := schema;
      this.ctx := ctx;
      ref := if schema.ReferenceObject? then Some(schema.ref) else None;
      code := None;
      children := [];
      var chain := new JsArray(CallerChain(meta));
      this.meta := DefinedCodeMetaData(meta.isRequired, meta.name, meta.parent, chain);
      new;
      if Truthy(ref) {
        var length := this.meta.referencedBy.Push(this);
      }
    }

    /** The text of the referenced schema, used when no code was assigned:
        the resolver's normalised text when there is a context, the raw
        reference otherwise. The source dereferences `ref` unchecked here. */
    function ReferenceText(): (r: string)
      requires ref.Some?
      ensures ctx.None? ==> r == ref.value
      ensures ctx.Some? ==> r == ctx.value.resolver.normalized(ref.value)
    {
      match ctx
      case None => ref.value
      case Some(c) => c.resolver.normalized(ref.value)
    }

    /** The getter `codeString`: the assigned code unless it is absent or
        empty, and the referenced schema's text otherwise. */
    function CodeString(): (r: string)
      reads this
      requires Truthy(code) || ref.Some?
      ensures Truthy(code) ==> r == code.value
      ensures !Truthy(code) ==> r == ReferenceText()
    {
      if Truthy(code) then code.value else ReferenceText()
    }

    /** The getter `complexity`: the external scorer applied to the wrapped
        schema, starting from a current cost of 0. */
    function Complexity(schemaComplexity: (int, Schema) -> int): int
    {
      schemaComplexity(0, schema)
    }

    /** `assign(code)`: caches `code` as this node's expression and returns
        the node. Only the cache changes; the latest call wins, and assigning
        the empty string is the same as never assigning. */
    method Assign(code: string) returns (self: CodeMeta)
      modifies this`code
      ensures self == this
      ensures this.code == Some(code)
      ensures code != "" ==> CodeString() == code && ToString() == code && ToJSON() == code
      ensures code == "" && ref.Some? ==> CodeString() == ReferenceText()
    {
      this.code := Some(code);
      self := this;
    }

    /** `inherit(parent)`: attaches this node at the end of the parent's
        children and returns this node; without a parent nothing changes.
        Only the parent's children are in the frame, so this node's own
        children (when it is not the parent), every other node's children and
        every chain stay as they were. */
    method Inherit(parent: Option<CodeMeta>) returns (self: CodeMeta)
      modifies (if parent.Some? then {parent.value} else {})`children
      ensures self == this
      ensures parent.Some? ==> parent.value.children == old(parent.value.children) + [this]
      ensures parent.Some? && parent.value != this ==> children == old(children)
      ensures meta.referencedBy.elems == old(meta.referencedBy.elems)
      ensures parent.Some? ==>
                parent.value.meta.referencedBy.elems == old(parent.value.meta.referencedBy.elems)
    {
      if parent.Some? {
        parent.value.children := parent.value.children + [this];
      }
      self := this;
    }

    /** `toString()`: the node renders as its code string. */
    function ToString(): (r: string)
      reads this
      requires Truthy(code) || ref.Some?
      ensures r == CodeString()
    {
      CodeString()
    }

    /** `toJSON()`: the node serialises as its code string. */
    function ToJSON(): (r: string)
      reads this
      requires Truthy(code) || ref.Some?
      ensures r == CodeString()
    {
      CodeString()
    }
  }
}
