/** The tree behind expat's content scaffold.  The scaffold array stores nodes in the order in which they
    were met; a Node adds to each cell what its links mean: its children, in order, and its parent.
    Spine relates the nodes to the stack of open groups of the specification parser. */
module Scaffold {
  import opened ContentModel

  // CONTENT_SCAFFOLD
  datatype Cell = Cell(ctype: CType, quant: Quant, name: string,
                       firstchild: nat, lastchild: nat, childcnt: nat, nextsib: nat)

  // parent and pos say where the node hangs; the root's are not used.
  datatype Node = Node(ctype: CType, quant: Quant, name: string, kids: seq<nat>, parent: nat, pos: nat)

  // Children come after their parent.
  ghost predicate Ordered(nodes: seq<Node>) {
    forall i, j {:trigger nodes[i].kids[j]} :: 0 <= i < |nodes| && 0 <= j < |nodes[i].kids| ==>
      i < nodes[i].kids[j] < |nodes|
  }

  ghost predicate KidsKnowParent(nodes: seq<Node>)
    requires Ordered(nodes)
  {
    forall i, j {:trigger nodes[i].kids[j]} :: 0 <= i < |nodes| && 0 <= j < |nodes[i].kids| ==>
      nodes[nodes[i].kids[j]].parent == i && nodes[nodes[i].kids[j]].pos == j
  }

  ghost predicate ParentsKnowKid(nodes: seq<Node>) {
    forall c {:trigger nodes[c].parent} :: 0 < c < |nodes| ==>
      && nodes[c].parent < c
      && nodes[c].pos < |nodes[nodes[c].parent].kids|
      && nodes[nodes[c].parent].kids[nodes[c].pos] == c
  }

  ghost predicate Increasing(nodes: seq<Node>) {
    forall i, j, k {:trigger nodes[i].kids[j], nodes[i].kids[k]} ::
      0 <= i < |nodes| && 0 <= j < k < |nodes[i].kids| ==> nodes[i].kids[j] < nodes[i].kids[k]
  }

  ghost predicate LeafNames(nodes: seq<Node>) {
    forall i {:trigger nodes[i].ctype} :: 0 <= i < |nodes| && nodes[i].ctype == NameType ==>
      nodes[i].kids == [] && '\0' !in nodes[i].name
  }

  ghost predicate Tree(nodes: seq<Node>) {
    Ordered(nodes) && KidsKnowParent(nodes) && ParentsKnowKid(nodes) && Increasing(nodes) && LeafNames(nodes)
  }

  // The link fields of a cell say what the node says.
  ghost predicate CellFits(c: Cell, nd: Node) {
    && c.ctype == nd.ctype
    && c.quant == nd.quant
    && c.name == nd.name
    && c.childcnt == |nd.kids|
    && c.firstchild == (if nd.kids == [] then 0 else nd.kids[0])
    && c.lastchild == (if nd.kids == [] then 0 else nd.kids[|nd.kids| - 1])
  }

  ghost predicate Chained(cells: seq<Cell>, nodes: seq<Node>)
    requires Ordered(nodes) && |cells| == |nodes|
  {
    forall i, j {:trigger nodes[i].kids[j]} :: 0 <= i < |nodes| && 0 <= j < |nodes[i].kids| - 1 ==>
      cells[nodes[i].kids[j]].nextsib == nodes[i].kids[j + 1]
  }

  ghost predicate Linked(cells: seq<Cell>, nodes: seq<Node>)
    requires Ordered(nodes)
  {
    && |cells| == |nodes|
    && (forall i {:trigger cells[i]} {:trigger nodes[i]} :: 0 <= i < |cells| ==> CellFits(cells[i], nodes[i]))
    && Chained(cells, nodes)
  }

  // The content tree under node i.
  ghost function TreeOf(nodes: seq<Node>, i: nat): Content
    requires Ordered(nodes) && i < |nodes|
    decreases |nodes| - i
  {
    var nd := nodes[i];
    Content(nd.ctype, nd.quant, if nd.ctype == NameType then nd.name else "",
            seq(|nd.kids|, j requires 0 <= j < |nd.kids| => TreeOf(nodes, nd.kids[j])))
  }

  // The bytes that the names of the tree take, terminators included (contentStringLen).
  ghost function NameBytes(nodes: seq<Node>): nat {
    if nodes == [] then 0
    else NameBytes(nodes[..|nodes| - 1]) + NameSize(nodes[|nodes| - 1])
  }

  ghost function NameSize(nd: Node): nat {
    if nd.ctype == NameType then |nd.name| + 1 else 0
  }

  // ---------- changes to the tree ----------

  ghost function AppendNode(nodes: seq<Node>, parent: nat, ctype: CType, quant: Quant, name: string): (r: seq<Node>)
    requires parent < |nodes|
    ensures |r| == |nodes| + 1
    ensures forall i {:trigger r[i]} :: 0 <= i < |nodes| && i != parent ==> r[i] == nodes[i]
    ensures r[parent] == nodes[parent].(kids := nodes[parent].kids + [|nodes|])
    ensures r[|nodes|] == Node(ctype, quant, name, [], parent, |nodes[parent].kids|)
  {
    nodes[parent := nodes[parent].(kids := nodes[parent].kids + [|nodes|])]
    + [Node(ctype, quant, name, [], parent, |nodes[parent].kids|)]
  }

  lemma {:induction false} AppendKeepsOrder(nodes: seq<Node>, parent: nat, ctype: CType, quant: Quant, name: string)
    requires Ordered(nodes) && KidsKnowParent(nodes) && Increasing(nodes) && parent < |nodes|
    ensures var nodes' := AppendNode(nodes, parent, ctype, quant, name);
            Ordered(nodes') && KidsKnowParent(nodes') && Increasing(nodes')
  {
    hide AppendNode;
    var nodes' := AppendNode(nodes, parent, ctype, quant, name);
    forall i, j | 0 <= i < |nodes'| && 0 <= j < |nodes'[i].kids|
      ensures i < nodes'[i].kids[j] < |nodes'|
      ensures nodes'[nodes'[i].kids[j]].parent == i && nodes'[nodes'[i].kids[j]].pos == j
      ensures j < |nodes'[i].kids| - 1 ==> nodes'[i].kids[j] < |nodes|
    {
      if i < |nodes| && j < |nodes[i].kids| {
        assert nodes'[i].kids[j] == nodes[i].kids[j];
        assert nodes'[nodes[i].kids[j]].parent == nodes[nodes[i].kids[j]].parent;
      }
    }
    forall i, j, k | 0 <= i < |nodes'| && 0 <= j < k < |nodes'[i].kids|
      ensures nodes'[i].kids[j] < nodes'[i].kids[k]
    {
      assert nodes'[i].kids[j] == nodes[i].kids[j];
      if k < |nodes[i].kids| {
        assert nodes'[i].kids[k] == nodes[i].kids[k];
      }
    }
  }

  lemma {:induction false} AppendKeepsParents(nodes: seq<Node>, parent: nat, ctype: CType, quant: Quant, name: string)
    requires ParentsKnowKid(nodes) && parent < |nodes|
    ensures ParentsKnowKid(AppendNode(nodes, parent, ctype, quant, name))
  {
    hide AppendNode;
    var nodes' := AppendNode(nodes, parent, ctype, quant, name);
    forall c | 0 < c < |nodes'|
      ensures && nodes'[c].parent < c
              && nodes'[c].pos < |nodes'[nodes'[c].parent].kids|
              && nodes'[nodes'[c].parent].kids[nodes'[c].pos] == c
    {
      if c < |nodes| {
        var p := nodes[c].parent;
        assert nodes'[c].parent == p && nodes'[c].pos == nodes[c].pos;
        assert nodes[p].kids <= nodes'[p].kids;
      }
    }
  }

  lemma {:induction false} AppendKeepsLeaves(nodes: seq<Node>, parent: nat, ctype: CType, quant: Quant, name: string)
    requires LeafNames(nodes) && parent < |nodes| && nodes[parent].ctype != NameType
    requires ctype == NameType ==> '\0' !in name
    ensures LeafNames(AppendNode(nodes, parent, ctype, quant, name))
  {
    hide AppendNode;
  }

  lemma {:induction false} AppendKeepsTree(nodes: seq<Node>, parent: nat, ctype: CType, quant: Quant, name: string)
    requires Tree(nodes) && parent < |nodes| && nodes[parent].ctype != NameType
    requires ctype == NameType ==> '\0' !in name
    ensures Tree(AppendNode(nodes, parent, ctype, quant, name))
  {
    hide AppendNode, Ordered, KidsKnowParent, ParentsKnowKid, Increasing, LeafNames;
    AppendKeepsOrder(nodes, parent, ctype, quant, name);
    AppendKeepsParents(nodes, parent, ctype, quant, name);
    AppendKeepsLeaves(nodes, parent, ctype, quant, name);
  }

  lemma {:induction false} NameBytesUpdate(nodes: seq<Node>, i: nat, nd: Node)
    requires i < |nodes| && NameSize(nd) == NameSize(nodes[i])
    ensures NameBytes(nodes[i := nd]) == NameBytes(nodes)
  {
    var n := |nodes|;
    if i < n - 1 {
      assert nodes[i := nd][..n - 1] == nodes[..n - 1][i := nd];
      NameBytesUpdate(nodes[..n - 1], i, nd);
    } else {
      assert nodes[i := nd][..n - 1] == nodes[..n - 1];
    }
  }

  lemma {:induction false} AppendNameBytes(nodes: seq<Node>, parent: nat, ctype: CType, quant: Quant, name: string)
    requires parent < |nodes|
    ensures NameBytes(AppendNode(nodes, parent, ctype, quant, name))
            == NameBytes(nodes) + (if ctype == NameType then |name| + 1 else 0)
  {
    var nd := nodes[parent].(kids := nodes[parent].kids + [|nodes|]);
    NameBytesUpdate(nodes, parent, nd);
    assert AppendNode(nodes, parent, ctype, quant, name)[..|nodes|] == nodes[parent := nd];
  }

  // ---------- subtrees that a change does not reach ----------

  // The nodes strictly between lo and hi have no children at or after hi.
  ghost predicate ClosedRange(nodes: seq<Node>, lo: int, hi: nat) {
    forall i, j {:trigger nodes[i].kids[j]} ::
      lo < i < hi && 0 <= i < |nodes| && 0 <= j < |nodes[i].kids| ==> nodes[i].kids[j] < hi
  }

  lemma {:induction false} SubtreeFrame(nodes: seq<Node>, nodes': seq<Node>, lo: nat, hi: nat, i: nat)
    requires Ordered(nodes) && Ordered(nodes') && lo < i < hi <= |nodes| && hi <= |nodes'|
    requires forall k {:trigger nodes[k]} {:trigger nodes'[k]} :: lo < k < hi ==> nodes[k] == nodes'[k]
    requires ClosedRange(nodes, lo, hi)
    ensures TreeOf(nodes, i) == TreeOf(nodes', i)
    decreases hi - i
  {
    var kids := nodes[i].kids;
    forall j | 0 <= j < |kids|
      ensures TreeOf(nodes, kids[j]) == TreeOf(nodes', kids[j])
    {
      assert nodes[i].kids[j] < hi;
      SubtreeFrame(nodes, nodes', lo, hi, kids[j]);
    }
    assert TreeOf(nodes, i).children == TreeOf(nodes', i).children;
  }

  // ---------- the open groups ----------

  ghost predicate FrameAt(nodes: seq<Node>, idx: seq<int>, stack: seq<Frame>, k: nat)
    requires Ordered(nodes) && |idx| == |stack| && k < |stack|
    requires forall i {:trigger idx[i]} :: 0 <= i < |idx| ==> 0 <= idx[i] < |nodes|
  {
    var nd := nodes[idx[k]];
    var items := stack[k].items;
    && nd.ctype != NameType
    && |nd.kids| == |items| + (if k + 1 < |stack| then 1 else 0)
    && (forall j {:trigger items[j]} {:trigger nd.kids[j]} :: 0 <= j < |items| ==> TreeOf(nodes, nd.kids[j]) == items[j])
    && (k + 1 < |stack| ==> nd.kids[|items|] == idx[k + 1] && ClosedRange(nodes, idx[k], idx[k + 1]))
  }

  ghost predicate InRange(nodes: seq<Node>, idx: seq<int>) {
    forall i {:trigger idx[i]} :: 0 <= i < |idx| ==> 0 <= idx[i] < |nodes|
  }

  // idx lists the open groups from the outermost in; each holds its completed items and then the next one.
  ghost predicate Spine(nodes: seq<Node>, idx: seq<int>, stack: seq<Frame>) {
    && Tree(nodes)
    && |idx| == |stack| >= 1
    && InRange(nodes, idx)
    && idx[0] == 0
    && (forall k {:trigger idx[k]} :: 0 <= k < |idx| - 1 ==> idx[k] < idx[k + 1])
    && (forall k {:trigger FrameAt(nodes, idx, stack, k)} :: 0 <= k < |stack| ==> FrameAt(nodes, idx, stack, k))
  }

  lemma {:induction false} SpineIncreases(idx: seq<int>, j: nat, k: nat)
    requires forall i {:trigger idx[i]} :: 0 <= i < |idx| - 1 ==> idx[i] < idx[i + 1]
    requires j < k < |idx|
    ensures idx[j] < idx[k]
    decreases k - j
  {
    if j + 1 < k {
      assert idx[j] < idx[j + 1];
      SpineIncreases(idx, j + 1, k);
    }
  }

  // A frame below the top survives a change that leaves the nodes up to the next open group alone.
  lemma {:induction false} LowerFrameKept(nodes: seq<Node>, nodes': seq<Node>, idx: seq<int>, stack: seq<Frame>,
                                          idx': seq<int>, stack': seq<Frame>, k: nat)
    requires Spine(nodes, idx, stack) && k + 1 < |stack|
    requires Ordered(nodes') && |idx'| == |stack'| && k + 1 < |stack'| && InRange(nodes', idx')
    requires idx'[k] == idx[k] && idx'[k + 1] == idx[k + 1] && stack'[k] == stack[k]
    requires |nodes| <= |nodes'|
    requires forall i {:trigger nodes[i]} {:trigger nodes'[i]} :: 0 <= i < idx[k + 1] ==> nodes[i] == nodes'[i]
    ensures FrameAt(nodes', idx', stack', k)
  {
    hide KidsKnowParent, ParentsKnowKid, LeafNames;
    assert FrameAt(nodes, idx, stack, k);
    assert idx[k] < idx[k + 1];
    var nd := nodes[idx[k]];
    var items := stack[k].items;
    forall j | 0 <= j < |items|
      ensures TreeOf(nodes', nd.kids[j]) == items[j]
    {
      assert nd.kids[j] < nd.kids[|items|];
      SubtreeFrame(nodes, nodes', idx[k], idx[k + 1], nd.kids[j]);
    }
    assert nodes'[idx'[k]] == nd;
  }

  // The children of node i are the trees in items.
  ghost predicate HasItems(nodes: seq<Node>, i: nat, items: seq<Content>)
    requires Ordered(nodes) && i < |nodes|
  {
    && |items| <= |nodes[i].kids|
    && forall j {:trigger items[j]} {:trigger nodes[i].kids[j]} :: 0 <= j < |items| ==> TreeOf(nodes, nodes[i].kids[j]) == items[j]
  }

  // The completed items of a group survive the appending of a node to it.
  lemma {:induction false} ItemsKept(nodes: seq<Node>, nodes': seq<Node>, top: nat, items: seq<Content>)
    requires Ordered(nodes) && Ordered(nodes') && top < |nodes| <= |nodes'|
    requires HasItems(nodes, top, items)
    requires forall i {:trigger nodes'[i]} :: 0 <= i < |nodes| && i != top ==> nodes'[i] == nodes[i]
    requires nodes[top].kids <= nodes'[top].kids
    ensures HasItems(nodes', top, items)
  {
    forall j | 0 <= j < |items|
      ensures TreeOf(nodes', nodes'[top].kids[j]) == items[j]
    {
      assert nodes'[top].kids[j] == nodes[top].kids[j];
      assert ClosedRange(nodes, top, |nodes|);
      SubtreeFrame(nodes, nodes', top, |nodes|, nodes[top].kids[j]);
    }
  }

  // The frames below the top survive a change at the innermost open group or after it.
  lemma {:induction false} LowerFramesKept(nodes: seq<Node>, nodes': seq<Node>, idx: seq<int>, stack: seq<Frame>,
                                           idx': seq<int>, stack': seq<Frame>)
    requires Spine(nodes, idx, stack)
    requires Ordered(nodes') && |idx'| == |stack'| >= |idx| && InRange(nodes', idx') && |nodes| <= |nodes'|
    requires idx <= idx' && stack[..|stack| - 1] <= stack'
    requires forall i {:trigger nodes'[i]} :: 0 <= i < idx[|idx| - 1] ==> nodes[i] == nodes'[i]
    ensures forall k {:trigger FrameAt(nodes', idx', stack', k)} :: 0 <= k < |stack| - 1 ==> FrameAt(nodes', idx', stack', k)
  {
    hide KidsKnowParent, ParentsKnowKid, Increasing, LeafNames, ClosedRange, TreeOf, FrameAt;
    var t := |idx| - 1;
    forall k | 0 <= k < t
      ensures FrameAt(nodes', idx', stack', k)
    {
      if k + 1 < t {
        SpineIncreases(idx, k + 1, t);
      }
      assert stack'[k] == stack[..t][k];
      LowerFrameKept(nodes, nodes', idx, stack, idx', stack', k);
    }
  }

  lemma {:induction false} TopFrame(nodes: seq<Node>, idx: seq<int>, stack: seq<Frame>)
    requires Spine(nodes, idx, stack)
    ensures var top := idx[|idx| - 1];
            && 0 <= top < |nodes| && nodes[top].ctype != NameType
            && |nodes[top].kids| == |stack[|stack| - 1].items|
            && HasItems(nodes, top, stack[|stack| - 1].items)
  {
    hide KidsKnowParent, ParentsKnowKid, Increasing, LeafNames, ClosedRange, TreeOf;
    assert FrameAt(nodes, idx, stack, |stack| - 1);
  }

  // A completed particle becomes the last child of the innermost open group.
  lemma {:induction false} AddLeafKeepsSpine(nodes: seq<Node>, idx: seq<int>, stack: seq<Frame>, quant: Quant,
                                             name: string)
    requires Spine(nodes, idx, stack) && '\0' !in name
    ensures Spine(AppendNode(nodes, idx[|idx| - 1], NameType, quant, name), idx, AddItem(stack, Leaf(name, quant)))
  {
    hide KidsKnowParent, ParentsKnowKid, Increasing, LeafNames, ClosedRange, AppendNode;
    var t := |idx| - 1;
    var top := idx[t];
    var items := stack[t].items;
    TopFrame(nodes, idx, stack);
    AppendKeepsTree(nodes, top, NameType, quant, name);
    var nodes' := AppendNode(nodes, top, NameType, quant, name);
    var stack' := AddItem(stack, Leaf(name, quant));
    LowerFramesKept(nodes, nodes', idx, stack, idx, stack');
    ItemsKept(nodes, nodes', top, items);
    assert TreeOf(nodes', |nodes|) == Leaf(name, quant);
    assert FrameAt(nodes', idx, stack', t) by {
      assert stack'[t].items == items + [Leaf(name, quant)];
    }
  }

  lemma {:induction false} OldNodesStayClosed(nodes: seq<Node>, nodes': seq<Node>, top: nat)
    requires Ordered(nodes) && top < |nodes| <= |nodes'|
    requires forall i {:trigger nodes'[i]} :: 0 <= i < |nodes| && i != top ==> nodes'[i] == nodes[i]
    ensures ClosedRange(nodes', top, |nodes|)
  {
    forall i, j | top < i < |nodes| && 0 <= j < |nodes'[i].kids|
      ensures nodes'[i].kids[j] < |nodes|
    {
      assert nodes'[i].kids[j] == nodes[i].kids[j];
    }
  }

  // A group opens inside the innermost open group.
  lemma {:induction false} OpenKeepsSpine(nodes: seq<Node>, idx: seq<int>, stack: seq<Frame>, quant: Quant,
                                          name: string)
    requires Spine(nodes, idx, stack)
    ensures Spine(AppendNode(nodes, idx[|idx| - 1], SeqType, quant, name), idx + [|nodes|], stack + [NEW_FRAME])
  {
    hide KidsKnowParent, ParentsKnowKid, Increasing, LeafNames, AppendNode, ClosedRange, TreeOf;
    var t := |idx| - 1;
    var top := idx[t];
    var n := |nodes|;
    TopFrame(nodes, idx, stack);
    AppendKeepsTree(nodes, top, SeqType, quant, name);
    var nodes' := AppendNode(nodes, top, SeqType, quant, name);
    var idx' := idx + [n];
    var stack' := stack + [NEW_FRAME];
    LowerFramesKept(nodes, nodes', idx, stack, idx', stack');
    ItemsKept(nodes, nodes', top, stack[t].items);
    OldNodesStayClosed(nodes, nodes', top);
    assert FrameAt(nodes', idx', stack', t);
    assert FrameAt(nodes', idx', stack', t + 1);
    assert forall k {:trigger idx'[k]} :: 0 <= k < |idx'| - 1 ==> idx'[k] < idx'[k + 1] by {
      forall k | 0 <= k < |idx'| - 1
        ensures idx'[k] < idx'[k + 1]
      {
        assert idx'[k] == idx[k];
        if k < t { assert idx[k] < idx[k + 1]; }
      }
    }
  }

  // The first group of a declaration.
  lemma {:induction false} RootIsSpine(quant: Quant, name: string)
    ensures Spine([Node(SeqType, quant, name, [], 0, 0)], [0], [NEW_FRAME])
  {
    var nodes, idx, stack := [Node(SeqType, quant, name, [], 0, 0)], [0], [NEW_FRAME];
    assert Tree(nodes);
    assert FrameAt(nodes, idx, stack, 0);
  }

  // The type or the quantifier of the innermost open group is set.
  lemma {:induction false} RelabelKeepsSpine(nodes: seq<Node>, idx: seq<int>, stack: seq<Frame>, ctype: CType,
                                             quant: Quant)
    requires Spine(nodes, idx, stack) && ctype != NameType
    ensures var top := idx[|idx| - 1];
            Spine(nodes[top := nodes[top].(ctype := ctype, quant := quant)], idx, stack)
  {
    hide KidsKnowParent, ParentsKnowKid, Increasing, LeafNames, ClosedRange;
    var t := |idx| - 1;
    var top := idx[t];
    var nodes' := nodes[top := nodes[top].(ctype := ctype, quant := quant)];
    TopFrame(nodes, idx, stack);
    RelabelKeepsTree(nodes, top, ctype, quant);
    LowerFramesKept(nodes, nodes', idx, stack, idx, stack);
    ItemsKept(nodes, nodes', top, stack[t].items);
    assert FrameAt(nodes', idx, stack, t);
  }

  lemma {:induction false} RelabelKeepsTree(nodes: seq<Node>, i: nat, ctype: CType, quant: Quant)
    requires Tree(nodes) && i < |nodes| && ctype != NameType && nodes[i].ctype != NameType
    ensures Tree(nodes[i := nodes[i].(ctype := ctype, quant := quant)])
    ensures NameBytes(nodes[i := nodes[i].(ctype := ctype, quant := quant)]) == NameBytes(nodes)
  {
    var nd := nodes[i].(ctype := ctype, quant := quant);
    NameBytesUpdate(nodes, i, nd);
    SameShapeKeepsTree(nodes, nodes[i := nd]);
  }

  lemma {:induction false} SameShapeKeepsTree(nodes: seq<Node>, nodes': seq<Node>)
    requires Tree(nodes) && |nodes'| == |nodes|
    requires forall i {:trigger nodes'[i]} :: 0 <= i < |nodes| ==>
      && nodes'[i].kids == nodes[i].kids && nodes'[i].parent == nodes[i].parent && nodes'[i].pos == nodes[i].pos
      && nodes'[i].name == nodes[i].name && (nodes'[i].ctype == NameType ==> nodes[i].ctype == NameType)
    ensures Tree(nodes')
  {
    assert Ordered(nodes') && KidsKnowParent(nodes') by {
      hide ParentsKnowKid, LeafNames, Increasing;
    }
    assert ParentsKnowKid(nodes') by {
      hide LeafNames, Increasing, Ordered, KidsKnowParent;
    }
    assert Increasing(nodes') by {
      hide LeafNames, Ordered, KidsKnowParent, ParentsKnowKid;
    }
  }

  // What the innermost open group amounts to.
  lemma {:induction false} TopTree(nodes: seq<Node>, idx: seq<int>, stack: seq<Frame>)
    requires Spine(nodes, idx, stack)
    ensures var top := nodes[idx[|idx| - 1]];
            TreeOf(nodes, idx[|idx| - 1]) == Content(top.ctype, top.quant, "", stack[|stack| - 1].items)
  {
    hide KidsKnowParent, ParentsKnowKid, Increasing, LeafNames, ClosedRange;
    TopFrame(nodes, idx, stack);
    assert TreeOf(nodes, idx[|idx| - 1]).children == stack[|stack| - 1].items;
  }

  // The innermost open group closes into its parent.
  lemma {:induction false} CloseKeepsSpine(nodes: seq<Node>, idx: seq<int>, stack: seq<Frame>)
    requires Spine(nodes, idx, stack) && |stack| >= 2
    ensures var t := |stack| - 1;
            var top := nodes[idx[t]];
            Spine(nodes, idx[..t], AddItem(stack[..t], Content(top.ctype, top.quant, "", stack[t].items)))
  {
    hide KidsKnowParent, ParentsKnowKid, Increasing, LeafNames, ClosedRange, TreeOf;
    var t := |stack| - 1;
    var idx' := idx[..t];
    TopTree(nodes, idx, stack);
    var stack' := AddItem(stack[..t], TreeOf(nodes, idx[t]));
    forall k | 0 <= k < |stack'|
      ensures FrameAt(nodes, idx', stack', k)
    {
      assert FrameAt(nodes, idx, stack, k);
      if k < t - 1 {
        assert stack'[k] == stack[k] && idx'[k + 1] == idx[k + 1];
      } else {
        assert stack'[k].items == stack[k].items + [TreeOf(nodes, idx[t])];
      }
    }
    forall k | 0 <= k < |idx'| - 1
      ensures idx'[k] < idx'[k + 1]
    {
      assert idx'[k] == idx[k] && idx'[k + 1] == idx[k + 1] && idx[k] < idx[k + 1];
    }
  }
}
