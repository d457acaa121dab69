/** What the `referencedBy` chains say about a descent through nested
    schemas. When the generator translates a schema it creates a node for
    each nested occurrence, handing the node it came from's chain to the new
    node's constructor. The chain of the deepest node is then the starting
    chain followed by every reference node met on the way down, so a `$ref`
    that is met a second time is visible on the chain: that is how a
    reference cycle shows. */
module ReferenceChains {
  import opened Js
  import opened OpenApi
  import opened ExpressionTree

  /** The nodes of a descent that stand for a non-empty reference, in order. */
  function RefNodes(path: seq<CodeMeta>): (r: seq<CodeMeta>)
    ensures |r| <= |path|
    ensures forall n :: n in r ==> n in path && Truthy(n.ref)
    ensures forall n :: n in path && Truthy(n.ref) ==> n in r
  {
    if path == [] then []
    else (if Truthy(path[0].ref) then [path[0]] else []) + RefNodes(path[1..])
  }

  /** The chain the last node of `path` ends up with, when the first node
      was given `start` and each later node was given its predecessor's
      chain: one constructor step per node. */
  function ChainAlong(start: seq<CodeMeta>, path: seq<CodeMeta>): seq<CodeMeta>
    decreases |path|
  {
    if path == [] then start
    else ExtendedChain(ChainAlong(start, path[..|path| - 1]), path[|path| - 1])
  }

  /** Some node of `chain` stands for the reference `r`. */
  ghost predicate Mentions(chain: seq<CodeMeta>, r: string)
  {
    exists n :: n in chain && n.ref == Some(r)
  }

  lemma {:induction false} RefNodesAppend(path: seq<CodeMeta>, n: CodeMeta)
    ensures RefNodes(path + [n]) == RefNodes(path) + (if Truthy(n.ref) then [n] else [])
    decreases |path|
  {
    if path == [] {
      assert path + [n] == [n];
    } else {
      assert (path + [n])[0] == path[0];
      assert (path + [n])[1..] == path[1..] + [n];
      RefNodesAppend(path[1..], n);
    }
  }

  /** Descending never drops an ancestor: the deepest chain is the starting
      chain followed by exactly the reference nodes met on the way. */
  lemma {:induction false} ChainAlongIsStartThenRefNodes(start: seq<CodeMeta>, path: seq<CodeMeta>)
    ensures ChainAlong(start, path) == start + RefNodes(path)
    decreases |path|
  {
    if path != [] {
      var prefix, last := path[..|path| - 1], path[|path| - 1];
      assert path == prefix + [last];
      ChainAlongIsStartThenRefNodes(start, prefix);
      RefNodesAppend(prefix, last);
    }
  }

  /** The chain grows by at most one node per step and keeps the starting
      chain as its prefix. */
  lemma {:induction false} ChainAlongBounds(start: seq<CodeMeta>, path: seq<CodeMeta>)
    ensures |start| <= |ChainAlong(start, path)| <= |start| + |path|
    ensures ChainAlong(start, path)[..|start|] == start
    ensures path != [] ==> |ChainAlong(start, path)| <= |ChainAlong(start, path[..|path| - 1])| + 1
  {
    ChainAlongIsStartThenRefNodes(start, path);
  }

  /** A reference is on the deepest chain exactly when it was on the
      starting chain or is the non-empty `$ref` of some node of the descent.
      In particular a `$ref` that recurs along a descent is visible there. */
  lemma {:induction false} MentionedIffMetOnTheWay(start: seq<CodeMeta>, path: seq<CodeMeta>, r: string)
    ensures Mentions(ChainAlong(start, path), r)
        <==> Mentions(start, r) || (r != "" && exists n :: n in path && n.ref == Some(r))
  {
    ChainAlongIsStartThenRefNodes(start, path);
    var chain := ChainAlong(start, path);
    if Mentions(chain, r) {
      var n :| n in chain && n.ref == Some(r);
      assert n in start || n in RefNodes(path);
    }
    if r != "" && exists n :: n in path && n.ref == Some(r) {
      var n :| n in path && n.ref == Some(r);
      assert n in RefNodes(path);
      assert n in chain;
    }
    if Mentions(start, r) {
      var n :| n in start && n.ref == Some(r);
      assert n in chain;
    }
  }

  /** Nodes of a descent are all distinct new nodes, none of them already on
      the starting chain, so every chain built along it stays well formed. */
  lemma {:induction false} ChainAlongWellFormed(start: seq<CodeMeta>, path: seq<CodeMeta>)
    requires WellFormedChain(start)
    requires forall i, j :: 0 <= i < j < |path| ==> path[i] != path[j]
    requires forall n :: n in path ==> n !in start
    ensures WellFormedChain(ChainAlong(start, path))
    decreases |path|
  {
    if path != [] {
      var prefix, last := path[..|path| - 1], path[|path| - 1];
      ChainAlongWellFormed(start, prefix);
      ChainAlongIsStartThenRefNodes(start, prefix);
      assert last !in prefix by {
        forall i | 0 <= i < |prefix| ensures prefix[i] != last {
          assert path[i] == prefix[i];
        }
      }
      assert last !in ChainAlong(start, prefix);
    }
  }

  /** A self-referencing schema walked twice: the chain of the inner
      reference node shows the same `$ref` twice, and the copy made for each
      new node leaves the chains it was given untouched. */
  method SelfReferenceWalk()
  {
    var node := "#/components/schemas/Node";
    var outer := new CodeMeta(ReferenceObject(node));
    assert outer.meta.referencedBy.elems == [outer];

    var body := new CodeMeta(SchemaObject("{ type: object }"), None,
                             CodeMetaData(None, Some("next"), Some(outer), Some(outer.meta.referencedBy)));
    assert body.meta.referencedBy.elems == [outer];

    var inner := new CodeMeta(ReferenceObject(node), None,
                              CodeMetaData(None, None, Some(body), Some(body.meta.referencedBy)));
    assert inner.meta.referencedBy.elems == [outer, inner];
    assert outer.meta.referencedBy.elems == [outer];
    assert body.meta.referencedBy.elems == [outer];
  }

  /** Attaching nodes to parents keeps the order of attachment, and the
      expression cache of a node is last-write-wins, with the empty string
      falling back to the reference text. */
  method AttachAndAssign()
  {
    var node := "#/components/schemas/Node";
    var parent := new CodeMeta(SchemaObject("{ type: array }"));
    var first := new CodeMeta(ReferenceObject(node));
    var second := new CodeMeta(SchemaObject("{ type: string }"));

    var same := first.Inherit(Some(parent));
    same := second.Inherit(Some(parent));
    assert parent.children == [first, second];
    same := second.Inherit(None);
    assert parent.children == [first, second];

    same := first.Assign("z.lazy(() => Node)");
    assert first.ToString() == "z.lazy(() => Node)";
    same := first.Assign("Node");
    assert first.ToJSON() == "Node";
    same := first.Assign("");
    assert first.CodeString() == node;
  }

  /** Attaching a child to a parent leaves the chain of every node, and the
      children of every node other than the parent, as they were. */
  method AttachKeepsChains(child: CodeMeta, parent: CodeMeta, other: CodeMeta)
    requires other != parent
    modifies parent`children
  {
    var chain, children := other.meta.referencedBy.elems, other.children;
    var same := child.Inherit(Some(parent));
    assert other.meta.referencedBy.elems == chain;
    assert other.children == children;
  }
}
