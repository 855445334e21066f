/** Element declarations in doProlog: the roles of the prolog state machine build the content scaffold, and the
    close of the outer group turns it into a content model.  The parser is a class over the arrays that expat
    reallocates; Represents ties it to the specification parser of ContentModel. */
module ElementDecl {
  import opened ContentModel
  import opened Counting
  import opened Scaffold
  import opened BuildModel
  import opened PrologRole
  import Heap

  const INT_MAX: nat := 0x7FFF_FFFF
  const UINT_MAX: nat := 0xFFFF_FFFF
  const INIT_GROUP_SIZE: nat := 32
  const INIT_SCAFFOLD_ELEMENTS: nat := 32
  const SIZEOF_INT: nat := 4
  const SIZEOF_CONTENT_SCAFFOLD: nat := 28

  datatype Outcome = Success | Error(error: ContentModel.Error) | NoMemory

  // What nextScaffoldPart does to the cells in use when the cell after them becomes the last child of parent.
  ghost function LinkParent(cells: seq<Cell>, parent: nat): (r: seq<Cell>)
    requires parent < |cells| && cells[parent].lastchild < |cells|
    ensures |r| == |cells|
  {
    var next := |cells|;
    var last := cells[parent].lastchild;
    var cells1 := if last != 0 then cells[last := cells[last].(nextsib := next)] else cells;
    var p := cells1[parent];
    cells1[parent := p.(firstchild := if p.childcnt == 0 then next else p.firstchild, lastchild := next, childcnt := p.childcnt + 1)]
  }

  predicate Unlinked(c: Cell) {
    c.firstchild == c.lastchild == c.childcnt == 0
  }

  lemma {:induction false} LastChildInRange(cells: seq<Cell>, nodes: seq<Node>, i: nat)
    requires Ordered(nodes) && Linked(cells, nodes) && i < |nodes|
    ensures cells[i].lastchild < |cells|
    ensures cells[i].lastchild != 0 <==> nodes[i].kids != []
    ensures cells[i].lastchild != 0 ==> cells[i].lastchild == nodes[i].kids[|nodes[i].kids| - 1] != i
  {
    if nodes[i].kids != [] {
      assert nodes[i].kids[|nodes[i].kids| - 1] > i;
    }
  }

  // Two neighbouring children of node i are both older than the new node.
  lemma {:induction false} OldLinkKept(cells: seq<Cell>, nodes: seq<Node>, parent: nat, i: nat, j: nat)
    requires Tree(nodes) && Linked(cells, nodes) && parent < |nodes| && cells[parent].lastchild < |cells|
    requires i < |nodes| && j < |nodes[i].kids| - 1
    ensures nodes[i].kids[j] < |nodes|
    ensures LinkParent(cells, parent)[nodes[i].kids[j]].nextsib == nodes[i].kids[j + 1]
  {
    hide ParentsKnowKid, Increasing, LeafNames, CellFits;
    LastChildInRange(cells, nodes, parent);
    var kid := nodes[i].kids[j];
    assert nodes[kid].parent == i && nodes[kid].pos == j;
    if nodes[parent].kids != [] {
      var last := nodes[parent].kids[|nodes[parent].kids| - 1];
      assert nodes[last].parent == parent && nodes[last].pos == |nodes[parent].kids| - 1;
      assert kid != last;
    }
  }

  lemma {:induction false} AppendChains(cells: seq<Cell>, nodes: seq<Node>, parent: nat, cell: Cell)
    requires Tree(nodes) && Linked(cells, nodes) && parent < |nodes|
    requires cells[parent].lastchild < |cells| && Unlinked(cell)
    requires Ordered(AppendNode(nodes, parent, cell.ctype, cell.quant, cell.name))
    ensures Chained(LinkParent(cells, parent) + [cell], AppendNode(nodes, parent, cell.ctype, cell.quant, cell.name))
  {
    hide AppendNode, KidsKnowParent, ParentsKnowKid, Increasing, LeafNames, CellFits;
    var nodes' := AppendNode(nodes, parent, cell.ctype, cell.quant, cell.name);
    var cells' := LinkParent(cells, parent) + [cell];
    LastChildInRange(cells, nodes, parent);
    forall i, j | 0 <= i < |nodes'| && 0 <= j < |nodes'[i].kids| - 1
      ensures cells'[nodes'[i].kids[j]].nextsib == nodes'[i].kids[j + 1]
    {
      assert nodes'[i].kids[j] == nodes[i].kids[j];
      if j < |nodes[i].kids| - 1 {
        OldLinkKept(cells, nodes, parent, i, j);
        assert nodes'[i].kids[j + 1] == nodes[i].kids[j + 1];
      }
    }
  }

  lemma {:induction false} AppendLinks(cells: seq<Cell>, nodes: seq<Node>, parent: nat, cell: Cell)
    requires Tree(nodes) && Linked(cells, nodes) && parent < |nodes|
    requires cells[parent].lastchild < |cells| && Unlinked(cell)
    requires Ordered(AppendNode(nodes, parent, cell.ctype, cell.quant, cell.name))
    ensures Linked(LinkParent(cells, parent) + [cell], AppendNode(nodes, parent, cell.ctype, cell.quant, cell.name))
  {
    hide AppendNode, KidsKnowParent, ParentsKnowKid, Increasing, LeafNames, Chained;
    var nodes' := AppendNode(nodes, parent, cell.ctype, cell.quant, cell.name);
    var cells' := LinkParent(cells, parent) + [cell];
    AppendChains(cells, nodes, parent, cell);
    LastChildInRange(cells, nodes, parent);
    forall i | 0 <= i < |cells'|
      ensures CellFits(cells'[i], nodes'[i])
    {
      if i < |cells| {
        assert CellFits(cells[i], nodes[i]);
      }
    }
  }

  lemma {:induction false} ChainedKept(cells: seq<Cell>, nodes: seq<Node>, cells': seq<Cell>, nodes': seq<Node>)
    requires Ordered(nodes) && Ordered(nodes') && |cells| == |nodes| == |cells'| == |nodes'| && Chained(cells, nodes)
    requires forall i {:trigger nodes'[i]} :: 0 <= i < |nodes| ==> nodes'[i].kids == nodes[i].kids
    requires forall i {:trigger cells'[i]} :: 0 <= i < |cells| ==> cells'[i].nextsib == cells[i].nextsib
    ensures Chained(cells', nodes')
  {
    forall i, j | 0 <= i < |nodes'| && 0 <= j < |nodes'[i].kids| - 1
      ensures cells'[nodes'[i].kids[j]].nextsib == nodes'[i].kids[j + 1]
    {
      assert nodes'[i].kids[j] == nodes[i].kids[j];
    }
  }

  lemma {:induction false} RelabelLinks(cells: seq<Cell>, nodes: seq<Node>, i: nat, ctype: CType, quant: Quant)
    requires Ordered(nodes) && Linked(cells, nodes) && i < |nodes|
    requires Ordered(nodes[i := nodes[i].(ctype := ctype, quant := quant)])
    ensures Linked(cells[i := cells[i].(ctype := ctype, quant := quant)], nodes[i := nodes[i].(ctype := ctype, quant := quant)])
  {
    hide Ordered, Chained;
    var nodes' := nodes[i := nodes[i].(ctype := ctype, quant := quant)];
    var cells' := cells[i := cells[i].(ctype := ctype, quant := quant)];
    assert CellFits(cells[i], nodes[i]);
    ChainedKept(cells, nodes, cells', nodes');
  }

  // The scaffold of the declaration under way: its cells and, per open group, its index and its connector.
  ghost predicate Builds(cells: seq<Cell>, nodes: seq<Node>, idx: seq<int>, conns: seq<Connector>, stack: seq<Frame>,
                         mixed: bool) {
    && Spine(nodes, idx, stack)
    && Linked(cells, nodes)
    && |conns| == |stack|
    && forall k {:trigger stack[k]} :: 0 <= k < |stack| ==>
         && conns[k] == stack[k].conn
         && nodes[idx[k]].ctype == (if mixed then MixedType else GroupType(stack[k].conn))
  }

  lemma {:induction false} BuildsRoot(cell: Cell)
    requires cell.ctype == SeqType && Unlinked(cell)
    ensures Ordered([Node(SeqType, cell.quant, cell.name, [], 0, 0)])
    ensures Builds([cell], [Node(SeqType, cell.quant, cell.name, [], 0, 0)], [0], [Unset], [NEW_FRAME], false)
    ensures NameBytes([Node(SeqType, cell.quant, cell.name, [], 0, 0)]) == 0
  {
    hide Spine;
    RootIsSpine(cell.quant, cell.name);
  }

  lemma {:induction false} BuildsLeaf(cells: seq<Cell>, nodes: seq<Node>, idx: seq<int>, conns: seq<Connector>,
                                      stack: seq<Frame>,
                                      mixed: bool, cell: Cell)
    requires Builds(cells, nodes, idx, conns, stack, mixed) && cell.ctype == NameType && '\0' !in cell.name
    requires cells[idx[|idx| - 1]].lastchild < |cells| && Unlinked(cell)
    ensures var top := idx[|idx| - 1];
            && Builds(LinkParent(cells, top) + [cell], AppendNode(nodes, top, NameType, cell.quant, cell.name), idx, conns,
                      AddItem(stack, Leaf(cell.name, cell.quant)), mixed)
            && NameBytes(AppendNode(nodes, top, NameType, cell.quant, cell.name)) == NameBytes(nodes) + |cell.name| + 1
  {
    hide KidsKnowParent, ParentsKnowKid, Increasing, LeafNames, FrameAt, AppendNode, LinkParent, Linked;
    var top := idx[|idx| - 1];
    AddLeafKeepsSpine(nodes, idx, stack, cell.quant, cell.name);
    AppendLinks(cells, nodes, top, cell);
    AppendNameBytes(nodes, top, NameType, cell.quant, cell.name);
    var nodes' := AppendNode(nodes, top, NameType, cell.quant, cell.name);
    var stack' := AddItem(stack, Leaf(cell.name, cell.quant));
    forall k | 0 <= k < |stack'|
      ensures conns[k] == stack'[k].conn && nodes'[idx[k]].ctype == (if mixed then MixedType else GroupType(stack'[k].conn))
    {
      assert conns[k] == stack[k].conn && nodes'[idx[k]].ctype == nodes[idx[k]].ctype;
    }
  }

  lemma {:induction false} BuildsOpen(cells: seq<Cell>, nodes: seq<Node>, idx: seq<int>, conns: seq<Connector>,
                                      stack: seq<Frame>, cell: Cell)
    requires Builds(cells, nodes, idx, conns, stack, false) && cell.ctype == SeqType
    requires cells[idx[|idx| - 1]].lastchild < |cells| && Unlinked(cell)
    ensures var top := idx[|idx| - 1];
            && Builds(LinkParent(cells, top) + [cell], AppendNode(nodes, top, SeqType, cell.quant, cell.name), idx + [|nodes|],
                      conns + [Unset], stack + [NEW_FRAME], false)
            && NameBytes(AppendNode(nodes, top, SeqType, cell.quant, cell.name)) == NameBytes(nodes)
  {
    hide KidsKnowParent, ParentsKnowKid, Increasing, LeafNames, FrameAt, AppendNode, LinkParent, Linked;
    var top := idx[|idx| - 1];
    OpenKeepsSpine(nodes, idx, stack, cell.quant, cell.name);
    AppendLinks(cells, nodes, top, cell);
    AppendNameBytes(nodes, top, SeqType, cell.quant, cell.name);
    var nodes' := AppendNode(nodes, top, SeqType, cell.quant, cell.name);
    var idx', conns', stack' := idx + [|nodes|], conns + [Unset], stack + [NEW_FRAME];
    forall k | 0 <= k < |stack'|
      ensures conns'[k] == stack'[k].conn && nodes'[idx'[k]].ctype == GroupType(stack'[k].conn)
    {
      if k < |stack| {
        assert conns[k] == stack[k].conn && nodes'[idx[k]].ctype == nodes[idx[k]].ctype;
      }
    }
  }

  ghost function NodesAfterOpen(nodes: seq<Node>, idx: seq<int>, cell: Cell): seq<Node>
    requires idx != [] ==> 0 <= idx[|idx| - 1] < |nodes|
  {
    if idx == [] then [Node(SeqType, cell.quant, cell.name, [], 0, 0)]
    else AppendNode(nodes, idx[|idx| - 1], SeqType, cell.quant, cell.name)
  }

  // GROUP_OPEN, for the first group and for the others; front is what nextScaffoldPart made of the cells.
  lemma {:induction false} BuildsPush(cells: seq<Cell>, front: seq<Cell>, nodes: seq<Node>, idx: seq<int>,
                                      conns: seq<Connector>,
                                      stack: seq<Frame>, cell: Cell)
    requires cell.ctype == SeqType && Unlinked(cell) && |idx| == |conns| == |stack|
    requires stack == [] ==> cells == front == []
    requires stack != [] ==>
      && Builds(cells, nodes, idx, conns, stack, false)
      && 0 <= idx[|idx| - 1] < |cells| == |nodes| && cells[idx[|idx| - 1]].lastchild < |cells|
      && front == LinkParent(cells, idx[|idx| - 1])
    ensures Builds(front + [cell], NodesAfterOpen(nodes, idx, cell), idx + [|cells|], conns + [Unset], stack + [NEW_FRAME], false)
    ensures NameBytes(NodesAfterOpen(nodes, idx, cell)) == (if stack == [] then 0 else NameBytes(nodes))
  {
    hide LinkParent, AppendNode, Spine, Linked, NameBytes, Builds;
    if stack == [] {
      BuildsRoot(cell);
      assert front + [cell] == [cell] && idx + [|cells|] == [0];
      assert conns + [Unset] == [Unset] && stack + [NEW_FRAME] == [NEW_FRAME];
    } else {
      BuildsOpen(cells, nodes, idx, conns, stack, cell);
    }
  }

  // A connector is seen, or the group turns out to be mixed.
  lemma {:induction false} BuildsRelabel(cells: seq<Cell>, nodes: seq<Node>, idx: seq<int>, conns: seq<Connector>,
                                         stack: seq<Frame>,
                                         mixed: bool, conn: Connector, mixed': bool)
    requires Builds(cells, nodes, idx, conns, stack, mixed)
    requires mixed' != mixed ==> |stack| == 1 && mixed' && conn == stack[0].conn
    ensures var t := |stack| - 1;
            var top := idx[t];
            var ctype := if mixed' then MixedType else GroupType(conn);
            && Builds(cells[top := cells[top].(ctype := ctype)], nodes[top := nodes[top].(ctype := ctype)], idx,
                      conns[t := conn], SetConn(stack, conn), mixed')
            && NameBytes(nodes[top := nodes[top].(ctype := ctype)]) == NameBytes(nodes)
  {
    hide KidsKnowParent, ParentsKnowKid, Increasing, LeafNames, Linked, FrameAt;
    var t := |stack| - 1;
    var top := idx[t];
    var ctype := if mixed' then MixedType else GroupType(conn);
    TopFrame(nodes, idx, stack);
    RelabelKeepsSpine(nodes, idx, stack, ctype, nodes[top].quant);
    RelabelKeepsTree(nodes, top, ctype, nodes[top].quant);
    LinkedNode(cells, nodes, top);
    RelabelLinks(cells, nodes, top, ctype, nodes[top].quant);
    var nodes' := nodes[top := nodes[top].(ctype := ctype)];
    SetConnKeepsSpine(nodes', idx, stack, conn);
    var stack' := SetConn(stack, conn);
    forall k | 0 <= k < |stack'|
      ensures conns[t := conn][k] == stack'[k].conn
      ensures nodes'[idx[k]].ctype == (if mixed' then MixedType else GroupType(stack'[k].conn))
    {
      if k < t {
        SpineIncreases(idx, k, t);
        assert conns[k] == stack[k].conn;
      }
    }
  }

  lemma {:induction false} SetConnKeepsSpine(nodes: seq<Node>, idx: seq<int>, stack: seq<Frame>, conn: Connector)
    requires Spine(nodes, idx, stack)
    ensures Spine(nodes, idx, SetConn(stack, conn))
  {
    hide KidsKnowParent, ParentsKnowKid, Increasing, LeafNames, ClosedRange, TreeOf;
    var stack' := SetConn(stack, conn);
    forall k | 0 <= k < |stack'|
      ensures FrameAt(nodes, idx, stack', k)
    {
      assert FrameAt(nodes, idx, stack, k);
      assert stack'[k].items == stack[k].items;
    }
  }

  // The quantifier of the innermost open group is set.
  lemma {:induction false} BuildsQuant(cells: seq<Cell>, nodes: seq<Node>, idx: seq<int>, conns: seq<Connector>,
                                       stack: seq<Frame>,
                                       mixed: bool, quant: Quant)
    requires Builds(cells, nodes, idx, conns, stack, mixed)
    ensures var top := idx[|stack| - 1];
            var nodes' := nodes[top := nodes[top].(quant := quant)];
            && Builds(cells[top := cells[top].(quant := quant)], nodes', idx, conns, stack, mixed)
            && NameBytes(nodes') == NameBytes(nodes)
            && TreeOf(nodes', top)
               == Content(if mixed then MixedType else GroupType(stack[|stack| - 1].conn), quant, "", stack[|stack| - 1].items)
  {
    hide KidsKnowParent, ParentsKnowKid, Increasing, LeafNames, Linked, FrameAt, TreeOf;
    var t := |stack| - 1;
    var top := idx[t];
    TopFrame(nodes, idx, stack);
    RelabelKeepsSpine(nodes, idx, stack, nodes[top].ctype, quant);
    RelabelKeepsTree(nodes, top, nodes[top].ctype, quant);
    LinkedNode(cells, nodes, top);
    RelabelLinks(cells, nodes, top, nodes[top].ctype, quant);
    var nodes' := nodes[top := nodes[top].(quant := quant)];
    assert stack[t].conn == conns[t];
    forall k | 0 <= k < |stack|
      ensures conns[k] == stack[k].conn && nodes'[idx[k]].ctype == (if mixed then MixedType else GroupType(stack[k].conn))
    {
      assert nodes'[idx[k]].ctype == nodes[idx[k]].ctype;
    }
    TopTree(nodes', idx, stack);
  }

  lemma {:induction false} BuildsClose(cells: seq<Cell>, nodes: seq<Node>, idx: seq<int>, conns: seq<Connector>,
                                       stack: seq<Frame>)
    requires Builds(cells, nodes, idx, conns, stack, false) && |stack| >= 2
    ensures var t := |stack| - 1;
            Builds(cells, nodes, idx[..t], conns[..t], AddItem(stack[..t], GroupOf(stack[t], nodes[idx[t]].quant)), false)
  {
    hide KidsKnowParent, ParentsKnowKid, Increasing, LeafNames, Linked, FrameAt, TreeOf;
    var t := |stack| - 1;
    assert conns[t] == stack[t].conn;
    CloseKeepsSpine(nodes, idx, stack);
    var stack' := AddItem(stack[..t], GroupOf(stack[t], nodes[idx[t]].quant));
    forall k | 0 <= k < |stack'|
      ensures conns[..t][k] == stack'[k].conn && nodes[idx[..t][k]].ctype == GroupType(stack'[k].conn)
    {
      assert conns[k] == stack[k].conn;
    }
  }

  lemma {:induction false} BuildsRange(cells: seq<Cell>, nodes: seq<Node>, idx: seq<int>, conns: seq<Connector>,
                                       stack: seq<Frame>, mixed: bool)
    requires Builds(cells, nodes, idx, conns, stack, mixed)
    ensures |idx| == |conns| == |stack| >= 1 && |cells| == |nodes|
    ensures var top := idx[|stack| - 1];
            && 0 <= top < |cells| && cells[top].lastchild < |cells|
            && cells[top].ctype == (if mixed then MixedType else GroupType(stack[|stack| - 1].conn))
            && conns[|stack| - 1] == stack[|stack| - 1].conn
  {
    hide KidsKnowParent, ParentsKnowKid, Increasing, LeafNames, FrameAt, Chained;
    var top := idx[|stack| - 1];
    LastChildInRange(cells, nodes, top);
    assert CellFits(cells[top], nodes[top]);
    assert conns[|stack| - 1] == stack[|stack| - 1].conn;
  }

  // The group turns out to be mixed.
  lemma {:induction false} BuildsMixed(cells: seq<Cell>, nodes: seq<Node>, idx: seq<int>, conns: seq<Connector>,
                                       cells': seq<Cell>)
    requires Builds(cells, nodes, idx, conns, [NEW_FRAME], false)
    requires |idx| == 1 && 0 <= idx[0] < |cells| == |nodes| && cells' == cells[idx[0] := cells[idx[0]].(ctype := MixedType)]
    ensures var nodes' := nodes[idx[0] := nodes[idx[0]].(ctype := MixedType)];
            Builds(cells', nodes', idx, conns, [NEW_FRAME], true) && NameBytes(nodes') == NameBytes(nodes)
  {
    hide Spine, Linked, NameBytes;
    BuildsRelabel(cells, nodes, idx, conns, [NEW_FRAME], false, Unset, true);
    assert SetConn([NEW_FRAME], Unset) == [NEW_FRAME];
    assert conns[0 := Unset] == conns;
  }

  // A connector is seen; the type is set by the first "|" only.
  lemma {:induction false} BuildsConn(cells: seq<Cell>, nodes: seq<Node>, idx: seq<int>, conns: seq<Connector>,
                                      stack: seq<Frame>,
                                      conn: Connector, cells': seq<Cell>)
    requires Builds(cells, nodes, idx, conns, stack, false) && conn != Unset
    requires |idx| == |conns| == |stack| >= 1 && |cells| == |nodes|
    requires var t := |stack| - 1;
             && (stack[t].conn == Unset || stack[t].conn == conn)
             && 0 <= idx[t] < |cells|
             && cells' == cells[idx[t] := cells[idx[t]].(ctype := GroupType(conn))]
    ensures var t := |stack| - 1;
            var nodes' := nodes[idx[t] := nodes[idx[t]].(ctype := GroupType(conn))];
            && Builds(cells', nodes', idx, conns[t := conn], SetConn(stack, conn), false)
            && NameBytes(nodes') == NameBytes(nodes)
  {
    hide Spine, Linked, NameBytes;
    BuildsRelabel(cells, nodes, idx, conns, stack, false, conn, false);
  }

  lemma {:induction false} BuildsTree(cells: seq<Cell>, nodes: seq<Node>, idx: seq<int>, conns: seq<Connector>,
                                      stack: seq<Frame>, mixed: bool)
    requires Builds(cells, nodes, idx, conns, stack, mixed)
    ensures Tree(nodes) && Ordered(nodes) && Linked(cells, nodes) && 0 < |nodes| == |cells|
    ensures |stack| == 1 ==> idx == [0]
  {
    hide KidsKnowParent, ParentsKnowKid, Increasing, LeafNames, FrameAt, Chained;
  }

  // EMPTY and ANY are reported as a single cell.
  lemma {:induction false} SingleCellReads(cells: seq<ContentCell>, strs: seq<char>, ctype: CType)
    requires ctype != NameType && cells == [ContentCell(ctype, Once, NO_POINTER, 0, NO_POINTER)]
    ensures ModelIs(cells, strs, Content(ctype, Once, "", []))
  {
    assert cells[..0] == [];
    assert Read(cells, strs, 0).children == [];
  }

  // One parser and the DTD it owns, with an element declaration handler set.  mem tells the outcome of the n-th
  // allocation.  The buffers that expat reallocates are sequences; the empty one stands for a null pointer.
  class Parser {
    const mem: nat -> bool
    var allocs: nat
    const prologState: PrologState
    var groupConnector: seq<Connector>
    var groupSize: nat
    var scaffold: seq<Cell>
    var scaffSize: nat
    var scaffCount: nat
    var scaffIndex: seq<int>
    var scaffLevel: nat
    var inEldecl: bool
    var contentStringLen: nat
    var declElementType: string
    // what the element declaration handler was last called with
    var reported: bool
    var reportedName: string
    var model: array<ContentCell>
    var modelNames: array<char>

    ghost var nodes: seq<Node>
    ghost var levelBefore: int

    constructor (mem: nat -> bool)
      ensures Represents(START) && this.mem == mem
      ensures fresh(prologState) && fresh(model) && fresh(modelNames)
    {
      this.mem := mem;
      allocs := 0;
      prologState := new PrologState();
      groupConnector, groupSize := [], 0;
      scaffold, scaffSize, scaffCount, scaffLevel := [], 0, 0, 0;
      scaffIndex := [];
      inEldecl := false;
      contentStringLen := 0;
      declElementType := "";
      reported := false;
      reportedName := "";
      model := new ContentCell[0];
      modelNames := new char[0];
      nodes := [];
      levelBefore := 0;
    }

    ghost predicate Sizes()
      reads this
    {
      && |scaffold| == scaffSize && scaffCount <= scaffSize <= UINT_MAX
      && |groupConnector| == groupSize <= UINT_MAX
      && (scaffIndex == [] || |scaffIndex| == groupSize)
      && contentStringLen <= UINT_MAX
    }

    // A declaration whose outer group is open; groupConnector is indexed from 1.
    ghost predicate InContent(stack: seq<Frame>, mixed: bool)
      reads this
    {
      && Sizes()
      && 1 <= scaffLevel == |stack| < groupSize == |scaffIndex|
      && Builds(scaffold[..scaffCount], nodes, scaffIndex[..|stack|], groupConnector[1..|stack| + 1], stack, mixed)
      && contentStringLen == NameBytes(nodes)
    }

    ghost predicate Reported(name: string, m: Content)
      reads this, model, modelNames
    {
      reported && reportedName == name && ModelIs(model[..], modelNames[..], m)
    }

    ghost predicate Represents(s: State)
      reads this, prologState, model, modelNames
    {
      Sane(s) && Tracks(s, prologState.handler, prologState.level, levelBefore) && Holds(s)
    }

    // The data of the declaration, the prolog state aside.
    ghost predicate Holds(s: State)
      reads this, model, modelNames
    {
      match s
      case Parsing(h, d, stack) =>
        && (h != Element0 ==> inEldecl && declElementType == d)
        && (if stack != [] then InContent(stack, InMixedModel(h)) else Idle() && (h == Element1 ==> scaffCount == 0 && scaffLevel == 0))
      case Complete(d, m) => !inEldecl && Idle() && Reported(d, m)
      case Closed(d, m) => !inEldecl && Idle() && Reported(d, m)
      case Failed(_) => true
    }

    // No group is open.
    ghost predicate Idle()
      reads this
    {
      Sizes() && contentStringLen == 0
    }

    // ---------- allocation ----------

    ghost predicate AllocFailed(since: nat)
      reads this
    {
      exists k {:trigger mem(k)} :: since <= k < allocs && !mem(k)
    }

    // The sizes at which the overflow checks may refuse to go on.
    ghost predicate NearLimit()
      reads this
    {
      || groupSize > SIZE_MAX / SIZEOF_INT / 2
      || scaffSize > SIZE_MAX / 2 / SIZEOF_CONTENT_SCAFFOLD
      || ModelTooLarge(scaffCount, contentStringLen)
    }

    method Alloc() returns (ok: bool)
      modifies this`allocs
      ensures allocs == old(allocs) + 1 && ok == mem(old(allocs))
    {
      ok := mem(allocs);
      allocs := allocs + 1;
    }

    // Room for the connector and the scaffold index of one more group.
    method GrowGroups() returns (ok: bool)
      requires Sizes() && 0 <= prologState.level <= (if groupSize == 0 then 1 else groupSize)
      modifies this`allocs, this`groupConnector, this`groupSize, this`scaffIndex
      ensures old(allocs) <= allocs
      ensures !ok ==> AllocFailed(old(allocs)) || groupSize > SIZE_MAX / SIZEOF_INT / 2
      ensures ok ==> Sizes() && prologState.level < groupSize
      ensures ok ==> groupSize <= INIT_GROUP_SIZE || groupSize <= 2 * old(groupSize)
      ensures ok ==> old(groupConnector) <= groupConnector && old(scaffIndex) <= scaffIndex
      ensures ok ==> (scaffIndex == [] <==> old(scaffIndex) == [])
    {
      ok := true;
      if prologState.level >= groupSize {
        if groupSize != 0 {
          if groupSize > UINT_MAX / 2 {
            ok := false;
            return;
          }
          ok := Alloc();
          if !ok {
            return;
          }
          groupSize := groupSize * 2;
          groupConnector := Heap.Realloc(groupConnector, groupSize);
          if scaffIndex != [] {
            if groupSize > SIZE_MAX / SIZEOF_INT {
              groupSize := groupSize / 2;
              ok := false;
              return;
            }
            ok := Alloc();
            if !ok {
              groupSize := groupSize / 2;
              return;
            }
            scaffIndex := Heap.Realloc(scaffIndex, groupSize);
          }
        } else {
          ok := Alloc();
          if !ok {
            return;
          }
          groupSize := INIT_GROUP_SIZE;
          groupConnector := Heap.Malloc(groupSize);
        }
      }
    }

    // The first half of nextScaffoldPart: the buffers exist and have room for one more cell.
    method ReserveCell() returns (ok: bool)
      requires Sizes() && groupSize > 0
      modifies this`allocs, this`scaffold, this`scaffSize, this`scaffIndex
      ensures old(allocs) <= allocs
      ensures !ok ==>
        AllocFailed(old(allocs)) || groupSize > SIZE_MAX / SIZEOF_INT || scaffSize > SIZE_MAX / 2 / SIZEOF_CONTENT_SCAFFOLD
      ensures ok ==> Sizes() && scaffCount < scaffSize && |scaffIndex| == groupSize
      ensures ok ==> old(scaffold) <= scaffold && old(scaffIndex) <= scaffIndex
    {
      ok := true;
      if scaffIndex == [] {
        if groupSize > SIZE_MAX / SIZEOF_INT {
          ok := false;
          return;
        }
        ok := Alloc();
        if !ok {
          return;
        }
        scaffIndex := Heap.Malloc(groupSize);
        scaffIndex := scaffIndex[0 := 0];
      }
      if scaffCount > INT_MAX {
        ok := false;
        return;
      }
      if scaffCount >= scaffSize {
        if scaffSize != 0 {
          if scaffSize > UINT_MAX / 2 || scaffSize > SIZE_MAX / 2 / SIZEOF_CONTENT_SCAFFOLD {
            ok := false;
            return;
          }
          ok := Alloc();
          if !ok {
            return;
          }
          scaffSize := scaffSize * 2;
          scaffold := Heap.Realloc(scaffold, scaffSize);
        } else {
          ok := Alloc();
          if !ok {
            return;
          }
          scaffSize := INIT_SCAFFOLD_ELEMENTS;
          scaffold := Heap.Malloc(scaffSize);
        }
      }
    }

    ghost predicate ParentOk()
      reads this
    {
      scaffLevel > 0 ==>
        && scaffLevel <= |scaffIndex|
        && 0 <= scaffIndex[scaffLevel - 1] < scaffCount <= |scaffold|
        && scaffold[scaffIndex[scaffLevel - 1]].lastchild < scaffCount
    }

    // nextScaffoldPart: the index of a new cell, the last child of the innermost open group, or -1.
    method NextScaffoldPart() returns (index: int)
      requires Sizes() && groupSize > 0 && ParentOk()
      requires scaffLevel == 0 ==> scaffCount == 0
      modifies this`allocs, this`scaffold, this`scaffSize, this`scaffCount, this`scaffIndex
      ensures old(allocs) <= allocs
      ensures index == -1 || index == old(scaffCount)
      ensures index == -1 ==>
        AllocFailed(old(allocs)) || groupSize > SIZE_MAX / SIZEOF_INT || scaffSize > SIZE_MAX / 2 / SIZEOF_CONTENT_SCAFFOLD
      ensures index >= 0 ==> Sizes() && |scaffIndex| == groupSize && scaffCount == old(scaffCount) + 1
      ensures index >= 0 ==> old(scaffIndex) <= scaffIndex
      ensures index >= 0 && scaffLevel > 0 ==>
        scaffold[..index] == LinkParent(old(scaffold[..scaffCount]), old(scaffIndex[scaffLevel - 1]))
      ensures index >= 0 ==> Unlinked(scaffold[index])
    {
      var ok := ReserveCell();
      if !ok {
        return -1;
      }
      assert scaffold[..scaffCount] == old(scaffold[..scaffCount]);
      index := LinkCell();
    }

    method LinkCell() returns (next: int)
      requires ParentOk() && scaffCount < |scaffold|
      modifies this`scaffCount, this`scaffold
      ensures next == old(scaffCount) && scaffCount == old(scaffCount) + 1 && |scaffold| == |old(scaffold)|
      ensures scaffLevel > 0 ==> scaffold[..next] == LinkParent(old(scaffold[..scaffCount]), scaffIndex[scaffLevel - 1])
      ensures Unlinked(scaffold[next])
    {
      next := scaffCount;
      scaffCount := scaffCount + 1;
      if scaffLevel != 0 {
        var parent := scaffIndex[scaffLevel - 1];
        var lastchild := scaffold[parent].lastchild;
        if lastchild != 0 {
          scaffold := scaffold[lastchild := scaffold[lastchild].(nextsib := next)];
        }
        if scaffold[parent].childcnt == 0 {
          scaffold := scaffold[parent := scaffold[parent].(firstchild := next)];
        }
        scaffold := scaffold[parent := scaffold[parent].(lastchild := next)];
        scaffold := scaffold[parent := scaffold[parent].(childcnt := scaffold[parent].childcnt + 1)];
      }
      scaffold := scaffold[next := scaffold[next].(firstchild := 0, lastchild := 0, childcnt := 0, nextsib := 0)];
    }

    // ---------- the roles of doProlog ----------

    method OnElementName(name: string) returns (ok: bool)
      requires Idle()
      modifies this`allocs, this`declElementType, this`scaffLevel, this`scaffCount, this`inEldecl
      ensures old(allocs) <= allocs && (!ok ==> AllocFailed(old(allocs)))
      ensures ok ==> declElementType == name && scaffLevel == 0 && scaffCount == 0 && inEldecl && Idle()
    {
      ok := Alloc();  // getElementType
      if ok {
        declElementType := name;
        scaffLevel := 0;
        scaffCount := 0;
        inEldecl := true;
      }
    }

    method OnEmptyOrAny(role: Role) returns (ok: bool)
      requires inEldecl && Idle() && (role == ContentAny || role == ContentEmpty)
      modifies this`allocs, this`inEldecl, this`reported, this`reportedName, this`model, this`modelNames
      ensures old(allocs) <= allocs && (!ok ==> AllocFailed(old(allocs)))
      ensures Idle()
      ensures if ok then !inEldecl && fresh(model) && fresh(modelNames) else model == old(model) && modelNames == old(modelNames)
      ensures ok ==> Reported(declElementType, Content(if role == ContentAny then AnyType else EmptyType, Once, "", []))
    {
      hide ModelIs;
      ok := Alloc();
      if ok {
        var ctype := if role == ContentAny then AnyType else EmptyType;
        model, modelNames := SingleCell(ctype);
        reported := true;
        reportedName := declElementType;
        inEldecl := false;
      }
    }

    static method SingleCell(ctype: CType) returns (content: array<ContentCell>, names: array<char>)
      requires ctype != NameType
      ensures fresh(content) && fresh(names)
      ensures ModelIs(content[..], names[..], Content(ctype, Once, "", []))
    {
      hide ModelIs;
      var cell := ContentCell(ctype, Once, NO_POINTER, 0, NO_POINTER);
      content := new ContentCell[1](_ => cell);
      names := new char[0];
      assert content[..] == [cell];
      SingleCellReads(content[..], names[..], ctype);
    }

    method OnPcdata(ghost stack: seq<Frame>)
      requires stack == [NEW_FRAME] && InContent(stack, false) && inEldecl
      modifies this`nodes, this`scaffold
      ensures InContent(stack, true)
    {
      hide Builds, NameBytes;
      ghost var cells, idx, conns := scaffold[..scaffCount], scaffIndex[..1], groupConnector[1..2];
      BuildsRange(cells, nodes, idx, conns, stack, false);
      if inEldecl {
        var top := scaffIndex[scaffLevel - 1];
        scaffold := scaffold[top := scaffold[top].(ctype := MixedType)];
        BuildsMixed(cells, nodes, idx, conns, scaffold[..scaffCount]);
        nodes := nodes[idx[0] := nodes[idx[0]].(ctype := MixedType)];
      }
    }

    // A cell for an element name, the last child of the innermost open group, or -1.
    method NewNameCell(name: string, quant: Quant) returns (myindex: int)
      requires Sizes() && groupSize > 0 && ParentOk() && scaffLevel > 0
      modifies this`allocs, this`scaffold, this`scaffSize, this`scaffCount, this`scaffIndex, this`contentStringLen
      ensures old(allocs) <= allocs
      ensures myindex == -1 || myindex == old(scaffCount)
      ensures myindex < 0 ==> AllocFailed(old(allocs)) || NearLimit() || |name| + 1 > UINT_MAX - contentStringLen
      ensures myindex >= 0 ==>
        && Sizes() && |scaffIndex| == groupSize && scaffCount == myindex + 1 && old(scaffIndex) <= scaffIndex
        && contentStringLen == old(contentStringLen) + |name| + 1
        && scaffold[..myindex] == LinkParent(old(scaffold[..scaffCount]), old(scaffIndex[scaffLevel - 1]))
        && Unlinked(scaffold[myindex])
        && scaffold[myindex].ctype == NameType && scaffold[myindex].quant == quant && scaffold[myindex].name == name
    {
      hide LinkParent, ModelTooLarge;
      myindex := NextScaffoldPart();
      if myindex < 0 {
        return;
      }
      ghost var before := scaffold;
      scaffold := scaffold[myindex := scaffold[myindex].(ctype := NameType)];
      scaffold := scaffold[myindex := scaffold[myindex].(quant := quant)];
      var ok := Alloc();  // getElementType
      if !ok {
        return -1;
      }
      scaffold := scaffold[myindex := scaffold[myindex].(name := name)];
      assert scaffold[..myindex] == before[..myindex];
      if |name| + 1 > UINT_MAX - contentStringLen {
        return -1;
      }
      contentStringLen := contentStringLen + |name| + 1;
    }

    method OnContentElement(name: string, quant: Quant, ghost stack: seq<Frame>, ghost mixed: bool) returns (ok: bool)
      requires InContent(stack, mixed) && inEldecl && '\0' !in name
      modifies this`allocs, this`scaffold, this`scaffSize, this`scaffCount, this`scaffIndex, this`contentStringLen, this`nodes
      ensures old(allocs) <= allocs
      ensures !ok ==> AllocFailed(old(allocs)) || NearLimit() || |name| + 1 > UINT_MAX - contentStringLen
      ensures ok ==> InContent(AddItem(stack, Leaf(name, quant)), mixed)
    {
      hide Builds, NameBytes, ModelTooLarge, LinkParent, AppendNode;
      ghost var cells, idx, conns := scaffold[..scaffCount], scaffIndex[..|stack|], groupConnector[1..|stack| + 1];
      BuildsRange(cells, nodes, idx, conns, stack, mixed);
      assert idx[|stack| - 1] == scaffIndex[scaffLevel - 1];
      var myindex := NewNameCell(name, quant);
      if myindex < 0 {
        return false;
      }
      ok := true;
      BuildsLeaf(cells, nodes, idx, conns, stack, mixed, scaffold[myindex]);
      assert scaffold[..scaffCount] == scaffold[..myindex] + [scaffold[myindex]];
      nodes := AppendNode(nodes, idx[|stack| - 1], NameType, quant, name);
      assert scaffIndex[..|stack|] == idx;
    }

    method OnGroupOpen(ghost stack: seq<Frame>) returns (ok: bool)
      requires inEldecl && prologState.level == |stack| + 1
      requires stack == [] ==> Idle() && scaffCount == 0 && scaffLevel == 0
      requires stack != [] ==> InContent(stack, false)
      modifies this`allocs, this`groupConnector, this`groupSize, this`scaffold, this`scaffSize, this`scaffCount, this`scaffIndex,
        this`scaffLevel, this`nodes
      ensures old(allocs) <= allocs
      ensures !ok ==> AllocFailed(old(allocs)) || NearLimit()
      ensures ok ==> InContent(stack + [NEW_FRAME], false)
    {
      hide Builds, NameBytes, ModelTooLarge, LinkParent, AppendNode;
      ghost var n := |stack|;
      ghost var conns, idx := if n == 0 then [] else groupConnector[1..n + 1], if n == 0 then [] else scaffIndex[..n];
      if stack != [] {
        BuildsRange(scaffold[..scaffCount], nodes, idx, conns, stack, false);
      }
      ok := GrowGroups();
      if !ok {
        return;
      }
      groupConnector := groupConnector[prologState.level := Unset];
      assert groupConnector[1..n + 2] == conns + [Unset];
      assert idx <= scaffIndex;
      if inEldecl {
        ok := PushGroup(stack, idx, conns);
      }
    }

    // The part of GROUP_OPEN that is done while an element declaration is read.
    method PushGroup(ghost stack: seq<Frame>, ghost idx: seq<int>, ghost conns: seq<Connector>) returns (ok: bool)
      requires Sizes() && |stack| + 1 < groupSize
      requires groupConnector[1..|stack| + 2] == conns + [Unset]
      requires scaffLevel == |idx| == |conns| == |stack| && idx <= scaffIndex
      requires stack == [] ==> scaffCount == 0 && contentStringLen == 0
      requires stack != [] ==> |scaffIndex| == groupSize && contentStringLen == NameBytes(nodes)
      requires stack != [] ==> Builds(scaffold[..scaffCount], nodes, idx, conns, stack, false)
      modifies this`allocs, this`scaffold, this`scaffSize, this`scaffCount, this`scaffIndex, this`scaffLevel, this`nodes
      ensures old(allocs) <= allocs
      ensures !ok ==>
        AllocFailed(old(allocs)) || groupSize > SIZE_MAX / SIZEOF_INT || scaffSize > SIZE_MAX / 2 / SIZEOF_CONTENT_SCAFFOLD
      ensures ok ==> InContent(stack + [NEW_FRAME], false)
    {
      hide Builds, NameBytes, LinkParent, NodesAfterOpen;
      ghost var cells := scaffold[..scaffCount];
      if stack != [] {
        BuildsRange(cells, nodes, idx, conns, stack, false);
      }
      var myindex := NextScaffoldPart();
      if myindex < 0 {
        return false;
      }
      ok := true;
      scaffIndex := scaffIndex[scaffLevel := myindex];
      scaffLevel := scaffLevel + 1;
      scaffold := scaffold[myindex := scaffold[myindex].(ctype := SeqType)];
      BuildsPush(cells, scaffold[..myindex], nodes, idx, conns, stack, scaffold[myindex]);
      nodes := NodesAfterOpen(nodes, idx, scaffold[myindex]);
      assert scaffIndex[..scaffLevel] == idx + [myindex];
      assert scaffold[..scaffCount] == scaffold[..myindex] + [scaffold[myindex]];
    }

    method OnGroupSequence(ghost stack: seq<Frame>) returns (ok: bool)
      requires InContent(stack, false) && prologState.level == |stack|
      modifies this`groupConnector, this`nodes
      ensures ok <==> stack[|stack| - 1].conn != BarSep
      ensures ok ==> InContent(SetConn(stack, CommaSep), false)
    {
      hide Builds, NameBytes;
      ghost var t := |stack| - 1;
      ghost var cells, idx, conns := scaffold[..scaffCount], scaffIndex[..|stack|], groupConnector[1..|stack| + 1];
      BuildsRange(cells, nodes, idx, conns, stack, false);
      assert conns[t] == groupConnector[prologState.level];
      if groupConnector[prologState.level] == BarSep {
        return false;
      }
      groupConnector := groupConnector[prologState.level := CommaSep];
      ok := true;
      assert groupConnector[1..|stack| + 1] == conns[t := CommaSep];
      BuildsConn(cells, nodes, idx, conns, stack, CommaSep, cells);
      nodes := nodes[idx[t] := nodes[idx[t]].(ctype := SeqType)];
    }

    method OnGroupChoice(ghost stack: seq<Frame>) returns (ok: bool)
      requires InContent(stack, false) && prologState.level == |stack| && inEldecl
      modifies this`groupConnector, this`nodes, this`scaffold
      ensures ok <==> stack[|stack| - 1].conn != CommaSep
      ensures ok ==> InContent(SetConn(stack, BarSep), false)
    {
      hide Builds, NameBytes;
      ghost var t := |stack| - 1;
      ghost var cells, idx, conns := scaffold[..scaffCount], scaffIndex[..|stack|], groupConnector[1..|stack| + 1];
      BuildsRange(cells, nodes, idx, conns, stack, false);
      assert conns[t] == groupConnector[prologState.level];
      assert idx[t] == scaffIndex[scaffLevel - 1];
      if groupConnector[prologState.level] == CommaSep {
        return false;
      }
      var top := scaffIndex[scaffLevel - 1];
      if inEldecl && groupConnector[prologState.level] == Unset && scaffold[top].ctype != MixedType {
        scaffold := scaffold[top := scaffold[top].(ctype := ChoiceType)];
      }
      groupConnector := groupConnector[prologState.level := BarSep];
      ok := true;
      assert groupConnector[1..|stack| + 1] == conns[t := BarSep];
      BuildsConn(cells, nodes, idx, conns, stack, BarSep, scaffold[..scaffCount]);
      nodes := nodes[idx[t] := nodes[idx[t]].(ctype := ChoiceType)];
    }

    // The quantifier is set; the last group to close is reported.
    method LeaveGroup(quant: Quant) returns (top: int)
      requires Sizes() && 0 < scaffLevel <= |scaffIndex| && 0 <= scaffIndex[scaffLevel - 1] < scaffCount
      modifies this`scaffLevel, this`scaffold
      ensures Sizes() && scaffLevel == old(scaffLevel) - 1 && top == scaffIndex[scaffLevel]
      ensures scaffold[..scaffCount] == old(scaffold[..scaffCount])[top := old(scaffold[top]).(quant := quant)]
    {
      scaffLevel := scaffLevel - 1;
      top := scaffIndex[scaffLevel];
      scaffold := scaffold[top := scaffold[top].(quant := quant)];
    }

    method OnGroupClose(quant: Quant, ghost stack: seq<Frame>, ghost mixed: bool) returns (ok: bool)
      requires InContent(stack, mixed) && inEldecl && (mixed ==> |stack| == 1)
      modifies this`allocs, this`scaffold, this`scaffLevel, this`inEldecl, this`contentStringLen, this`nodes,
        this`reported, this`reportedName, this`model, this`modelNames
      ensures old(allocs) <= allocs
      ensures !ok ==> AllocFailed(old(allocs)) || NearLimit()
      ensures !ok || |stack| > 1 ==> model == old(model) && modelNames == old(modelNames)
      ensures ok && |stack| > 1 ==> inEldecl
      ensures ok && |stack| > 1 ==> InContent(AddItem(stack[..|stack| - 1], GroupOf(stack[|stack| - 1], quant)), false)
      ensures ok && |stack| == 1 ==> !inEldecl && Idle()
      ensures ok && |stack| == 1 ==> fresh(model) && fresh(modelNames) && Reported(declElementType,
          if mixed then Content(MixedType, quant, "", stack[0].items) else GroupOf(stack[0], quant))
    {
      hide Builds, NameBytes, ModelIs, TreeOf, Tree, Linked;
      ghost var t := |stack| - 1;
      ghost var cells, idx, conns := scaffold[..scaffCount], scaffIndex[..|stack|], groupConnector[1..|stack| + 1];
      BuildsRange(cells, nodes, idx, conns, stack, mixed);
      BuildsTree(cells, nodes, idx, conns, stack, mixed);
      assert idx[t] == scaffIndex[scaffLevel - 1];
      var top := LeaveGroup(quant);
      BuildsQuant(cells, nodes, idx, conns, stack, mixed, quant);
      nodes := nodes[top := nodes[top].(quant := quant)];
      if scaffLevel == 0 {
        ok := ReportModel(stack, mixed, idx, conns);
      } else {
        ok := true;
        BuildsClose(scaffold[..scaffCount], nodes, idx, conns, stack);
        assert scaffIndex[..t] == idx[..t] && groupConnector[1..t + 1] == conns[..t];
      }
    }

    method ReportModel(ghost stack: seq<Frame>, ghost mixed: bool, ghost idx: seq<int>, ghost conns: seq<Connector>)
      returns (ok: bool)
      requires Sizes() && |stack| == 1 && contentStringLen == NameBytes(nodes)
      requires Builds(scaffold[..scaffCount], nodes, idx, conns, stack, mixed)
      modifies this`allocs, this`inEldecl, this`contentStringLen, this`reported, this`reportedName, this`model, this`modelNames
      ensures old(allocs) <= allocs
      ensures !ok ==> AllocFailed(old(allocs)) || ModelTooLarge(scaffCount, contentStringLen)
      ensures ok ==> !inEldecl && contentStringLen == 0 && fresh(model) && fresh(modelNames)
      ensures !ok ==> model == old(model) && modelNames == old(modelNames)
      ensures ok ==> Ordered(nodes) && nodes != [] && Reported(declElementType, TreeOf(nodes, 0))
    {
      hide Linked, Spine, NameBytes, ModelIs, TreeOf;
      BuildsTree(scaffold[..scaffCount], nodes, idx, conns, stack, mixed);
      var mallocOk := true;
      if !ModelTooLarge(scaffCount, contentStringLen) {
        mallocOk := Alloc();
      }
      var content, names;
      ok, content, names := Build(scaffold, scaffCount, contentStringLen, mallocOk, nodes);
      if !ok {
        return;
      }
      model, modelNames := content, names;
      reported := true;
      reportedName := declElementType;
      inEldecl := false;
      contentStringLen := 0;
    }

    // ---------- one token, one declaration ----------

    // Why token t could not be handled.
    ghost predicate OutOfMemory(since: nat, t: Token)
      reads this
    {
      AllocFailed(since) || NearLimit() || (t.NameTok? && |t.name| + 1 > UINT_MAX - contentStringLen)
    }

    // doProlog's switch, for the roles outside groups
    method HandleRole(role: Role, t: Token, ghost s: State, ghost s': State) returns (ok: bool)
      requires Sane(s) && Sane(s') && Holds(s) && RoleMeans(role, s, t, s')
      requires role in {ElementNone, ElementName, ContentAny, ContentEmpty, ContentPcdata}
      modifies this
      ensures old(allocs) <= allocs && levelBefore == old(levelBefore)
      ensures (model == old(model) || fresh(model)) && (modelNames == old(modelNames) || fresh(modelNames))
      ensures if ok then Holds(s') else AllocFailed(old(allocs))
    {
      hide InContent, Reported, Idle, AllocFailed;
      ok := true;
      match role {
        case ElementName => ok := OnElementName(t.name);
        case ContentAny => ok := OnEmptyOrAny(role);
        case ContentEmpty => ok := OnEmptyOrAny(role);
        case ContentPcdata => OnPcdata(s.stack);
        case ElementNone =>
      }
    }

    // doProlog's switch, for the roles that concern groups
    method HandleGroupRole(role: Role, t: Token, ghost s: State, ghost s': State) returns (r: Outcome)
      requires Sane(s) && Sane(s') && s.Parsing? && Holds(s) && GroupRoleMeans(role, prologState.level, s, t, s')
      requires role.ContentElement? || role == GroupOpen || role == GroupSequence || role == GroupChoice || role.GroupClose?
      requires t.NameTok? ==> '\0' !in t.name
      modifies this
      ensures old(allocs) <= allocs && levelBefore == old(levelBefore)
      ensures (model == old(model) || fresh(model)) && (modelNames == old(modelNames) || fresh(modelNames))
      ensures r == Success ==> Holds(s') && !s'.Failed?
      ensures r.Error? ==> s' == Failed(r.error)
      ensures r == NoMemory ==> OutOfMemory(old(allocs), t)
    {
      hide InContent, Reported, Idle, NearLimit, AllocFailed, AddItem, SetConn, GroupOf;
      var ok := true;
      match role {
        case ContentElement(quant) => ok := OnContentElement(t.name, quant, s.stack, InMixedModel(s.handler));
        case GroupOpen => ok := OnGroupOpen(s.stack);
        case GroupSequence =>
          ok := OnGroupSequence(s.stack);
          if !ok { return Error(SyntaxError); }
        case GroupChoice =>
          ok := OnGroupChoice(s.stack);
          if !ok { return Error(SyntaxError); }
        case GroupClose(quant) => ok := OnGroupClose(quant, s.stack, InMixedModel(s.handler));
      }
      return if ok then Success else NoMemory;
    }

    // doProlog's loop body for one token of an element declaration; a token's name has no terminator in it.
    method ProcessToken(t: Token, ghost s: State) returns (r: Outcome)
      requires Represents(s) && (s.Parsing? || s.Complete?)
      requires t.NameTok? ==> '\0' !in t.name
      modifies this, prologState
      ensures old(allocs) <= allocs
      ensures (model == old(model) || fresh(model)) && (modelNames == old(modelNames) || fresh(modelNames))
      ensures r == Success ==> Represents(Step(s, t)) && !Step(s, t).Failed?
      ensures r.Error? ==> Step(s, t) == Failed(r.error)
      ensures r == NoMemory ==> OutOfMemory(old(allocs), t)
    {
      hide Step, React, Tracks, Holds, NearLimit, AllocFailed, GroupRoleMeans;
      ReactFollowsStep(s, prologState.handler, prologState.level, levelBefore, t);
      RoleMeaning(s, prologState.handler, prologState.level, levelBefore, t);
      if s.Parsing? {
        GroupRoleMeaning(s, prologState.handler, prologState.level, levelBefore, t);
      }
      var role := prologState.TokenRole(t);
      match role {
        case ErrorRole => r := Error(ErrorOf(t));
        case ContentElement(_) => r := HandleGroupRole(role, t, s, Step(s, t));
        case GroupOpen => r := HandleGroupRole(role, t, s, Step(s, t));
        case GroupSequence => r := HandleGroupRole(role, t, s, Step(s, t));
        case GroupChoice => r := HandleGroupRole(role, t, s, Step(s, t));
        case GroupClose(_) => r := HandleGroupRole(role, t, s, Step(s, t));
        case _ =>
          var ok := HandleRole(role, t, s, Step(s, t));
          r := if ok then Success else NoMemory;
      }
    }

    // A declaration begins: "<!ELEMENT" has just been read.
    method Begin()
      requires Idle()
      modifies prologState`handler, this`levelBefore
      ensures Represents(START)
    {
      prologState.handler := InElement(Element0);
      levelBefore := prologState.level;
    }

    /** The tokens of one declaration, up to its ">" or to the first error.  Unless memory runs out, the declaration
        is over exactly when a legal model has been printed, and then the handler has been given that model. */
    method Declaration(tokens: seq<Token>) returns (r: Outcome, read: nat, closed: bool)
      requires Idle()
      requires forall i {:trigger tokens[i]} :: 0 <= i < |tokens| && tokens[i].NameTok? ==> '\0' !in tokens[i].name
      modifies this, prologState
      ensures read <= |tokens| && (r == Success ==> read == |tokens| || closed)
      ensures r == Success ==> Represents(Run(START, tokens[..read])) && closed == Run(START, tokens[..read]).Closed?
      ensures r.Error? ==> Run(START, tokens[..read]) == Failed(r.error)
      ensures r == NoMemory ==> read > 0 && OutOfMemory(old(allocs), tokens[read - 1])
      ensures r == Success && closed ==>
        Readable(model[..], modelNames[..]) && model.Length > 0 && Gapless(model[..])
      ensures r == Success && closed ==>
        var m := Read(model[..], modelNames[..], 0);
        IsModel(m) && Strip(tokens[..read]) == PrintDeclaration(reportedName, m)
      ensures forall name, m {:trigger PrintDeclaration(name, m)} :: IsModel(m) && Strip(tokens) == PrintDeclaration(name, m) ==>
        !r.Error? && (r == Success ==> closed && Reported(name, m))
    {
      hide Step, Represents, NearLimit;
      ghost var s;
      r, read, closed, s := ReadTokens(tokens);
      forall name, m | IsModel(m) && Strip(tokens) == PrintDeclaration(name, m)
        ensures !r.Error? && (r == Success ==> closed && s == Closed(name, m))
      {
        PrefixDecides(tokens, read, name, m);
        AcceptsExactlyPrintedModels(tokens, name, m);
        assert tokens[..|tokens|] == tokens;
      }
      if r == Success && closed {
        ReportIsRight(s);
        AcceptsExactlyPrintedModels(tokens[..read], s.decl, s.model);
      }
    }

    lemma {:induction false} ReportIsRight(s: State)
      requires Represents(s) && s.Closed?
      ensures Reported(s.decl, s.model) && ModelIs(model[..], modelNames[..], s.model)
      ensures reportedName == s.decl
    {
    }

    method ReadTokens(tokens: seq<Token>) returns (r: Outcome, read: nat, closed: bool, ghost s: State)
      requires Idle()
      requires forall i {:trigger tokens[i]} :: 0 <= i < |tokens| && tokens[i].NameTok? ==> '\0' !in tokens[i].name
      modifies this, prologState
      ensures read <= |tokens| && s == Run(START, tokens[..read])
      ensures r == Success ==> Represents(s) && closed == s.Closed? && (closed || read == |tokens|)
      ensures r.Error? ==> s == Failed(r.error)
      ensures r == NoMemory ==> read > 0 && OutOfMemory(old(allocs), tokens[read - 1])
    {
      hide Step, Represents, NearLimit;
      Begin();
      r, read, closed, s := Success, 0, false, START;
      while read < |tokens| && !closed
        invariant 0 <= read <= |tokens|
        invariant Represents(s) && s == Run(START, tokens[..read]) && !s.Failed?
        invariant (model == old(model) || fresh(model)) && (modelNames == old(modelNames) || fresh(modelNames))
        invariant r == Success && closed == s.Closed? && old(allocs) <= allocs
      {
        var t := tokens[read];
        assert tokens[..read + 1][..read] == tokens[..read];
        assert Run(START, tokens[..read + 1]) == Step(s, t);
        r := ProcessToken(t, s);
        read := read + 1;
        s := Step(s, t);
        if r != Success {
          return;
        }
        closed := HandlerIsTop(s);
      }
    }

    method HandlerIsTop(ghost s: State) returns (b: bool)
      requires Represents(s) && !s.Failed?
      ensures b == s.Closed?
    {
      b := prologState.handler == TopLevel;
    }
  }
}
