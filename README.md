# CodeMeta: the schema-to-expression tree node of openapi-zod-client

The generator turns every schema of an OpenAPI document into a zod validator
expression. Each occurrence of a schema or `$ref` it meets is wrapped in a
`CodeMeta` node (`lib/src/CodeMeta.ts`). A node

- records the `$ref` string when the wrapped schema is a reference object;
- keeps its own copy of the caller's settings (`isRequired`, `name`, `parent`)
  and of the caller's `referencedBy` chain, and appends itself to that chain
  when it stands for a non-empty reference — the generator reads the chain to
  notice that a `$ref` is being entered a second time (a reference cycle);
- caches the expression text assigned to it (`assign`), read back through
  `codeString`, which falls back to the resolver's normalised text of the
  reference (or the raw reference without a context) when nothing truthy was
  assigned;
- can attach itself at the end of a parent's `children` (`inherit`);
- renders as its `codeString` in `toString` and `toJSON`.

Files:

- `js.dfy` (module `Js`): optional properties, JavaScript truthiness of
  `string | undefined`, and `JsArray`, a JavaScript array as a heap object so
  that sharing, copying and `push` are modelled as they happen.
- `openapi.dfy` (module `OpenApi`): the schema occurrence (reference object or
  inline schema object) and the document resolver, given by interface only.
- `codemeta.dfy` (module `ExpressionTree`): the `CodeMeta` class, its settings
  records and the one-step chain extension `ExtendedChain`.
- `chains.dfy` (module `ReferenceChains`): what the chains say along a descent
  in which every new node is given the chain of the node it came from, which
  is how the generator uses the constructor. The lemmas are about that
  hand-over pattern; the generator's own traversal is not part of this model.
  Three client methods exercise the class contracts: a self-referencing schema
  walked twice, attaching children and reassigning code, and attaching a child
  while any other node's children and chain stay unchanged.

## Model

| member | source | states |
|---|---|---|
| ExpressionTree.CodeMeta.constructor | lib/src/CodeMeta.ts:32-48 | `ref` is the schema's `$ref` exactly when it is a reference object and unset otherwise; no code is cached; `children` starts empty; `isRequired`, `name`, `parent` are copied; the chain is a new array, the caller's array is left unchanged, and its contents are the caller's chain (empty when absent) extended by the node when its ref is truthy; the new node was not on the caller's chain, so a well-formed caller chain gives a well-formed chain; a node built from a reference object reads back its reference text as `codeString` |
| ExpressionTree.ExtendedChain | lib/src/CodeMeta.ts:43-47 | the caller's chain is a prefix of the result; the result is longer by exactly one exactly when the node's ref is a non-empty string, and that extra last element is the node; a well-formed chain not containing the node stays well formed (only reference nodes, none twice) |
| ExpressionTree.CodeMeta.ReferenceText | lib/src/CodeMeta.ts:53 | the fallback text of a node with a ref: the resolver's normalised text of the ref when a context is present, the raw ref otherwise |
| ExpressionTree.CodeMeta.CodeString | lib/src/CodeMeta.ts:50-54 | a truthy cached code is returned as is; an absent or empty cached code gives the reference's fallback text |
| ExpressionTree.CodeMeta.Assign | lib/src/CodeMeta.ts:60-64 | returns the same node and changes only the cached code, which becomes the argument; afterwards `codeString`, `toString` and `toJSON` are all the argument when it is non-empty, whatever was assigned before (last write wins), and the reference's fallback text when it is empty |
| ExpressionTree.CodeMeta.Inherit | lib/src/CodeMeta.ts:66-72 | returns the same node; with a parent, the parent's children become the old children followed by this node, and nothing else changes: only the parent's `children` field is in the frame, so this node's own children (when it is not the parent), the children of every other node and every chain, including the two nodes' own, stay as they were; without a parent nothing changes |
| ExpressionTree.CodeMeta.ToString | lib/src/CodeMeta.ts:74-76 | renders exactly the `codeString` text |
| ExpressionTree.CodeMeta.ToJSON | lib/src/CodeMeta.ts:77-79 | serialises to exactly the `codeString` text |
| ReferenceChains.RefNodes | lib/src/CodeMeta.ts:45-47 | the nodes of a descent that get appended to chains: at most as many as the descent has, each one a node of the descent with a non-empty ref, and every such node among them |
| ReferenceChains.ChainAlongIsStartThenRefNodes | lib/src/CodeMeta.ts:43-47 | after a descent in which each node is constructed from its predecessor's chain, the last chain is the starting chain followed by exactly the reference nodes of the descent, in order |
| ReferenceChains.ChainAlongBounds | lib/src/CodeMeta.ts:43-47 | along a descent the chain keeps the starting chain as its prefix, grows by at most one node per step, and so by at most as many nodes as the descent has |
| ReferenceChains.MentionedIffMetOnTheWay | lib/src/CodeMeta.ts:37-47 | a `$ref` is on the last chain of a descent if and only if it was on the starting chain or is the non-empty ref of some node of the descent — so a reference entered twice is visible when it is entered the second time |
| ReferenceChains.ChainAlongWellFormed | lib/src/CodeMeta.ts:43-47 | when the nodes of a descent are distinct and new to the starting chain, every chain built along it holds only reference nodes, none twice |

## Left out

- ExpressionTree.CodeMeta.CodeString: requires a truthy cached code or a ref, because the source dereferences `ref` with an unchecked non-null assertion; what the getter yields for a node with neither (`undefined` without a context, whatever `resolveRef` does with `undefined` with one) is not modelled. The same precondition holds for ExpressionTree.CodeMeta.ReferenceText, ExpressionTree.CodeMeta.ToString and ExpressionTree.CodeMeta.ToJSON.
- ExpressionTree.CodeMeta.Complexity: `getSchemaComplexity` (`lib/src/schema-complexity`) is not part of this model; the scorer is a parameter, applied to the wrapped schema with a starting cost of 0, and nothing is stated about it.
- `isReferenceObject` is not part of this model: a schema is a reference object exactly when it is the `ReferenceObject` variant.
- `DocumentResolver.resolveRef` is not part of this model: only the `normalized` text of its result is used, as a function of the ref; a resolver that throws on an unknown ref is not modelled.
- `schema`, `ctx`, `ref` and `meta` are public and reassignable in TypeScript, but the class itself never reassigns them after construction; the model fixes them at construction, so outside code that reassigns them is not modelled (the contents of the chain arrays do change, through `push`, and `children` grows only through `Inherit`).
- Properties of the caller's settings object beyond the four declared ones, which the object spread would also copy, are not modelled.
- The generator that creates and chains the nodes, the dependency-graph builder (only its declaration is available), the test files and the bundled distribution file are not part of this model.
- `children` is a sequence-valued field rather than a shared array: each node creates its own array literal and the class never hands it out, so aliasing of a `children` array by outside code is not modelled. The chain arrays, which are copied and pushed across nodes, are modelled as shared arrays (`JsArray`).
