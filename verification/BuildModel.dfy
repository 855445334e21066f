/** build_model: the scaffold becomes an array of content cells in which the children of every node lie
    side by side, followed by the names.  One pointer (dest) fills in nodes; the other (jobDest) leads it and
    leaves, in the numchildren field, the scaffold index of the node to be filled in there. */
module BuildModel {
  import opened ContentModel
  import opened Scaffold
  import opened Counting

  const SIZE_MAX: nat := 0xFFFF_FFFF
  const SIZEOF_XML_CONTENT: nat := 20
  const NO_POINTER := -1

  // XML_Content; name is an offset into the string area and children an index, or NO_POINTER.
  datatype ContentCell = ContentCell(ctype: CType, quant: Quant, name: int, numchildren: nat, children: int)

  predicate ModelTooLarge(scaffCount: nat, contentStringLen: nat) {
    || scaffCount > SIZE_MAX / SIZEOF_XML_CONTENT
    || contentStringLen > SIZE_MAX
    || scaffCount * SIZEOF_XML_CONTENT > SIZE_MAX - contentStringLen
  }

  // ---------- what a reader of the result sees ----------

  function CString(strs: seq<char>, from: nat): string
    decreases |strs| - from
  {
    if from >= |strs| || strs[from] == '\0' then "" else [strs[from]] + CString(strs, from + 1)
  }

  // Children follow their parent and lie inside the array; a name node has none.
  ghost predicate Readable(cells: seq<ContentCell>, strs: seq<char>) {
    forall i {:trigger cells[i]} :: 0 <= i < |cells| ==>
      if cells[i].ctype == NameType then
        cells[i].numchildren == 0 && cells[i].children == NO_POINTER && 0 <= cells[i].name < |strs|
      else
        && cells[i].name == NO_POINTER
        && (if cells[i].children == NO_POINTER then cells[i].numchildren == 0
            else i < cells[i].children && cells[i].children + cells[i].numchildren <= |cells|)
  }

  // The tree found by following the children pointers from cell i.
  ghost function Read(cells: seq<ContentCell>, strs: seq<char>, i: nat): Content
    requires Readable(cells, strs) && i < |cells|
    decreases |cells| - i
  {
    var c := cells[i];
    if c.ctype == NameType then Content(NameType, c.quant, CString(strs, c.name), [])
    else Content(c.ctype, c.quant, "",
                 seq(c.numchildren, j requires 0 <= j < c.numchildren => Read(cells, strs, c.children + j)))
  }

  ghost function ChildTotal(cells: seq<ContentCell>): nat {
    if cells == [] then 0 else ChildTotal(cells[..|cells| - 1]) + cells[|cells| - 1].numchildren
  }

  // No gap and no overlap: the slices of the groups follow each other, in order, from cell 1 to the end.
  ghost predicate Gapless(cells: seq<ContentCell>) {
    && |cells| == 1 + ChildTotal(cells)
    && forall i {:trigger cells[i]} :: 0 <= i < |cells| && cells[i].children != NO_POINTER ==>
         cells[i].children == 1 + ChildTotal(cells[..i])
  }

  // What the element declaration handler receives: cells that read as m.
  ghost predicate ModelIs(cells: seq<ContentCell>, strs: seq<char>, m: Content) {
    cells != [] && Readable(cells, strs) && Read(cells, strs, 0) == m && Gapless(cells)
  }

  // ---------- jobs ----------

  // The first slot of the children of the node filled in at slot d.
  ghost function FirstJob(nodes: seq<Node>, src: seq<nat>, d: nat): nat
    requires d <= |src| && Below(src, |nodes|)
  {
    if d == 0 then 1 else FirstJob(nodes, src, d - 1) + |nodes[src[d - 1]].kids|
  }

  // The node at slot i has left its children as jobs, side by side and in order.
  ghost predicate SliceAt(nodes: seq<Node>, src: seq<nat>, i: nat)
    requires Below(src, |nodes|) && i < |src|
  {
    var first := FirstJob(nodes, src, i);
    var kids := nodes[src[i]].kids;
    first + |kids| <= |src| && src[first..first + |kids|] == kids
  }

  ghost predicate Sliced(nodes: seq<Node>, src: seq<nat>, d: nat)
    requires Below(src, |nodes|) && d <= |src|
  {
    forall i {:trigger SliceAt(nodes, src, i)} :: 0 <= i < d ==> SliceAt(nodes, src, i)
  }

  // Every job before slot end, but the first, was left by one of the first d nodes.
  ghost predicate Parented(nodes: seq<Node>, src: seq<nat>, end: nat, d: nat)
    requires Below(src, |nodes|) && d <= |src| && end <= |src|
  {
    forall p {:trigger src[p]} :: 0 < p < end ==> 0 < src[p] && nodes[src[p]].parent in src[..d]
  }

  lemma {:induction false} FirstJobGrows(nodes: seq<Node>, src: seq<nat>, i: nat, d: nat)
    requires i < d <= |src| && Below(src, |nodes|)
    ensures FirstJob(nodes, src, i) + |nodes[src[i]].kids| <= FirstJob(nodes, src, d)
    decreases d
  {
    if i + 1 < d {
      FirstJobGrows(nodes, src, i, d - 1);
    }
  }

  lemma {:induction false} FirstJobPrefix(nodes: seq<Node>, src: seq<nat>, src': seq<nat>, d: nat)
    requires d <= |src| && src <= src' && Below(src', |nodes|) && Below(src, |nodes|)
    ensures FirstJob(nodes, src', d) == FirstJob(nodes, src, d)
  {
    if d > 0 {
      FirstJobPrefix(nodes, src, src', d - 1);
    }
  }

  lemma {:induction false} SlotOf(nodes: seq<Node>, src: seq<nat>, i: nat, j: nat)
    requires Below(src, |nodes|) && i < |src| && SliceAt(nodes, src, i) && j < |nodes[src[i]].kids|
    ensures FirstJob(nodes, src, i) + j < |src| && src[FirstJob(nodes, src, i) + j] == nodes[src[i]].kids[j]
  {
    var first := FirstJob(nodes, src, i);
    assert src[first..first + |nodes[src[i]].kids|][j] == src[first + j];
  }

  // When the leader has stopped, no node is missing: every node hangs below the root.
  lemma {:induction false} Reached(nodes: seq<Node>, src: seq<nat>, x: nat)
    requires Tree(nodes) && x < |nodes| && src != [] && src[0] == 0
    requires Below(src, |nodes|) && Sliced(nodes, src, |src|)
    ensures x in src
  {
    if x > 0 {
      var p := nodes[x].parent;
      Reached(nodes, src, p);
      var i :| 0 <= i < |src| && src[i] == p;
      assert SliceAt(nodes, src, i);
      SlotOf(nodes, src, i, nodes[x].pos);
    }
  }

  // So the follower never meets a slot without a job.
  lemma {:induction false} LeaderIsAhead(nodes: seq<Node>, src: seq<nat>, d: nat)
    requires Tree(nodes) && src != [] && src[0] == 0 && Below(src, |nodes|) && Distinct(src)
    requires d <= |src| && d < |nodes| && Sliced(nodes, src, d)
    ensures d < |src|
  {
    if d == |src| {
      forall x: nat | x < |nodes|
        ensures x in src
      {
        Reached(nodes, src, x);
      }
      CoveringIsLong(src, |nodes|);
    }
  }

  // The next child of the node at slot d has not been given a slot yet.
  lemma {:induction false} FreshJob(nodes: seq<Node>, src: seq<nat>, d: nat, k: nat)
    requires JobsInProgress(nodes, src, d, k) && k < |nodes[src[d]].kids|
    ensures nodes[src[d]].kids[k] !in src
  {
    hide ParentsKnowKid, Increasing, LeafNames, FirstJob, Sliced;
    var c := nodes[src[d]].kids[k];
    var first := |src| - k;
    forall q | 0 <= q < |src|
      ensures src[q] != c
    {
      assert nodes[c].parent == src[d] && nodes[c].pos == k;
      if 0 < q < first {
        assert nodes[src[q]].parent in src[..d];
        assert src[d] !in src[..d];
      } else if q >= first {
        assert src[first..][q - first] == src[q];
        assert nodes[nodes[src[d]].kids[q - first]].pos == q - first;
      }
    }
  }

  // ---------- the string area ----------

  // Bytes of the names of the nodes below k that are in s.
  ghost function BytesOf(nodes: seq<Node>, s: set<nat>, k: nat): nat
    requires k <= |nodes|
  {
    if k == 0 then 0 else BytesOf(nodes, s, k - 1) + (if k - 1 in s then NameSize(nodes[k - 1]) else 0)
  }

  lemma {:induction false} BytesOfInsert(nodes: seq<Node>, s: set<nat>, x: nat, k: nat)
    requires k <= |nodes| && x < |nodes| && x !in s
    ensures BytesOf(nodes, s + {x}, k) == BytesOf(nodes, s, k) + (if x < k then NameSize(nodes[x]) else 0)
  {
    if k > 0 {
      BytesOfInsert(nodes, s, x, k - 1);
    }
  }

  lemma {:induction false} BytesOfAll(nodes: seq<Node>, s: set<nat>, k: nat)
    requires k <= |nodes|
    ensures BytesOf(nodes, s, k) <= NameBytes(nodes[..k])
    ensures (forall x: nat | x < k :: x in s) ==> BytesOf(nodes, s, k) == NameBytes(nodes[..k])
  {
    if k > 0 {
      BytesOfAll(nodes, s, k - 1);
      assert nodes[..k][..k - 1] == nodes[..k - 1];
    }
  }

  lemma {:induction false} BytesOfEmpty(nodes: seq<Node>, k: nat)
    requires k <= |nodes|
    ensures BytesOf(nodes, {}, k) == 0
  {
    if k > 0 { BytesOfEmpty(nodes, k - 1); }
  }

  // The string area so far has room for the name of one more node.
  lemma {:induction false} RoomForName(nodes: seq<Node>, src: seq<nat>, d: nat)
    requires d < |src| && Below(src, |nodes|) && Distinct(src)
    ensures BytesOf(nodes, Members(src[..d + 1]), |nodes|)
            == BytesOf(nodes, Members(src[..d]), |nodes|) + NameSize(nodes[src[d]])
    ensures BytesOf(nodes, Members(src[..d + 1]), |nodes|) <= NameBytes(nodes)
  {
    assert src[..d + 1][..d] == src[..d];
    assert src[d] !in src[..d];
    BytesOfInsert(nodes, Members(src[..d]), src[d], |nodes|);
    BytesOfAll(nodes, Members(src[..d + 1]), |nodes|);
    assert nodes[..|nodes|] == nodes;
  }

  lemma {:induction false} AllNamesWritten(nodes: seq<Node>, src: seq<nat>)
    requires |src| == |nodes| && Below(src, |nodes|) && Distinct(src)
    ensures BytesOf(nodes, Members(src), |nodes|) == NameBytes(nodes)
  {
    DistinctFits(src, |nodes|);
    BytesOfAll(nodes, Members(src), |nodes|);
    assert nodes[..|nodes|] == nodes;
  }

  ghost predicate HoldsName(strs: seq<char>, from: int, name: string) {
    && 0 <= from && from + |name| < |strs|
    && strs[from..from + |name|] == name
    && strs[from + |name|] == '\0'
  }

  lemma {:induction false} CStringReads(strs: seq<char>, from: nat, name: string)
    requires HoldsName(strs, from, name) && '\0' !in name
    ensures CString(strs, from) == name
    decreases |name|
  {
    if name != "" {
      assert strs[from] == name[0];
      assert strs[from + 1..from + 1 + |name[1..]|] == name[1..];
      CStringReads(strs, from + 1, name[1..]);
    } else {
      assert strs[from] == '\0';
    }
  }

  // ---------- the result ----------

  // Slot i has been filled in with the node it was left for.
  ghost predicate Filled(cell: ContentCell, strs: seq<char>, nodes: seq<Node>, src: seq<nat>, i: nat)
    requires i < |src| && Below(src, |nodes|)
  {
    var nd := nodes[src[i]];
    && cell.ctype == nd.ctype
    && cell.quant == nd.quant
    && (if nd.ctype == NameType then
          cell.numchildren == 0 && cell.children == NO_POINTER && HoldsName(strs, cell.name, nd.name)
        else
          cell.name == NO_POINTER && cell.numchildren == |nd.kids| && cell.children == FirstJob(nodes, src, i))
  }

  ghost predicate AllFilled(cells: seq<ContentCell>, strs: seq<char>, nodes: seq<Node>, src: seq<nat>) {
    && Tree(nodes) && |cells| == |nodes| == |src| && Below(src, |nodes|) && Distinct(src) && src != [] && src[0] == 0
    && Sliced(nodes, src, |src|)
    && FirstJob(nodes, src, |src|) == |src|
    && forall i {:trigger cells[i]} :: 0 <= i < |cells| ==> Filled(cells[i], strs, nodes, src, i)
  }

  lemma {:induction false} FirstJobAhead(nodes: seq<Node>, src: seq<nat>, i: nat)
    requires Tree(nodes) && Below(src, |nodes|) && Distinct(src) && src != [] && src[0] == 0
    requires i < |src| && |src| == |nodes|
    requires Sliced(nodes, src, |src|) && FirstJob(nodes, src, |src|) == |src|
    ensures i < FirstJob(nodes, src, i)
  {
    hide KidsKnowParent, ParentsKnowKid, Increasing, LeafNames, Ordered, Sliced;
    var first := FirstJob(nodes, src, i);
    if first <= i {
      FirstJobPositive(nodes, src, i);
      PrefixSliced(nodes, src, i, first);
      LeaderIsAhead(nodes, src[..first], first);
    }
  }

  // If the leader were behind slot i, the nodes before it would be closed under children.
  lemma {:induction false} PrefixSliced(nodes: seq<Node>, src: seq<nat>, i: nat, first: nat)
    requires Below(src, |nodes|) && i < |src| && first == FirstJob(nodes, src, i) <= i
    requires Sliced(nodes, src, |src|)
    ensures Sliced(nodes, src[..first], first)
  {
    var front := src[..first];
    forall a | 0 <= a < first
      ensures SliceAt(nodes, front, a)
    {
      FirstJobPrefix(nodes, front, src, a);
      FirstJobGrows(nodes, src, a, i);
      assert SliceAt(nodes, src, a);
      var from, to := FirstJob(nodes, src, a), FirstJob(nodes, src, a) + |nodes[src[a]].kids|;
      assert front[from..to] == src[from..to];
    }
  }

  lemma {:induction false} FirstJobPositive(nodes: seq<Node>, src: seq<nat>, d: nat)
    requires d <= |src| && Below(src, |nodes|)
    ensures FirstJob(nodes, src, d) >= 1
  {
    if d > 0 { FirstJobPositive(nodes, src, d - 1); }
  }

  lemma {:induction false} FilledIsReadable(cells: seq<ContentCell>, strs: seq<char>, nodes: seq<Node>, src: seq<nat>)
    requires AllFilled(cells, strs, nodes, src)
    ensures Readable(cells, strs)
  {
    hide KidsKnowParent, ParentsKnowKid, Increasing, Sliced;
    forall i | 0 <= i < |cells|
      ensures cells[i].ctype == NameType ==>
          cells[i].numchildren == 0 && cells[i].children == NO_POINTER && 0 <= cells[i].name < |strs|
      ensures cells[i].ctype != NameType ==>
        cells[i].name == NO_POINTER && i < cells[i].children && cells[i].children + cells[i].numchildren <= |cells|
    {
      assert Filled(cells[i], strs, nodes, src, i);
      FirstJobAhead(nodes, src, i);
      FirstJobGrows(nodes, src, i, |src|);
    }
  }

  lemma {:induction false} FilledReadsName(cells: seq<ContentCell>, strs: seq<char>, nodes: seq<Node>, src: seq<nat>,
                                           i: nat)
    requires AllFilled(cells, strs, nodes, src) && Readable(cells, strs) && i < |cells| && cells[i].ctype == NameType
    ensures Read(cells, strs, i) == TreeOf(nodes, src[i])
  {
    assert Filled(cells[i], strs, nodes, src, i);
    CStringReads(strs, cells[i].name, nodes[src[i]].name);
  }

  /** Following the pointers gives back the scaffold's tree. */
  lemma {:induction false} FilledReadsTree(cells: seq<ContentCell>, strs: seq<char>, nodes: seq<Node>, src: seq<nat>,
                                           i: nat)
    requires AllFilled(cells, strs, nodes, src) && Readable(cells, strs) && i < |cells|
    ensures Read(cells, strs, i) == TreeOf(nodes, src[i])
    decreases |cells| - i
  {
    hide KidsKnowParent, ParentsKnowKid, Increasing, LeafNames, FirstJob, HoldsName, Distinct;
    assert Filled(cells[i], strs, nodes, src, i);
    var nd := nodes[src[i]];
    if nd.ctype == NameType {
      FilledReadsName(cells, strs, nodes, src, i);
    } else {
      forall j | 0 <= j < |nd.kids|
        ensures Read(cells, strs, cells[i].children + j) == TreeOf(nodes, nd.kids[j])
      {
        assert SliceAt(nodes, src, i);
        SlotOf(nodes, src, i, j);
        FilledReadsTree(cells, strs, nodes, src, cells[i].children + j);
      }
      assert Read(cells, strs, i).children == TreeOf(nodes, src[i]).children;
    }
  }

  lemma {:induction false} ChildTotalIsFirstJob(cells: seq<ContentCell>, strs: seq<char>, nodes: seq<Node>,
                                                src: seq<nat>, d: nat)
    requires AllFilled(cells, strs, nodes, src) && d <= |cells|
    ensures FirstJob(nodes, src, d) == 1 + ChildTotal(cells[..d])
  {
    hide KidsKnowParent, ParentsKnowKid, Increasing, Sliced, HoldsName;
    if d > 0 {
      ChildTotalIsFirstJob(cells, strs, nodes, src, d - 1);
      assert cells[..d][..d - 1] == cells[..d - 1];
      assert Filled(cells[d - 1], strs, nodes, src, d - 1);
    }
  }

  lemma {:induction false} FilledIsGapless(cells: seq<ContentCell>, strs: seq<char>, nodes: seq<Node>, src: seq<nat>)
    requires AllFilled(cells, strs, nodes, src)
    ensures Gapless(cells)
  {
    hide KidsKnowParent, ParentsKnowKid, Increasing, Sliced, HoldsName, FirstJob;
    ChildTotalIsFirstJob(cells, strs, nodes, src, |cells|);
    assert cells[..|cells|] == cells;
    forall i | 0 <= i < |cells| && cells[i].children != NO_POINTER
      ensures cells[i].children == 1 + ChildTotal(cells[..i])
    {
      assert Filled(cells[i], strs, nodes, src, i);
      ChildTotalIsFirstJob(cells, strs, nodes, src, i);
    }
  }

  // ---------- the two pointers at work ----------

  // The state between two steps of the loop: d nodes are filled in, the jobs written so far are src.
  ghost predicate JobsWritten(nodes: seq<Node>, src: seq<nat>, d: nat) {
    && Tree(nodes) && nodes != []
    && src != [] && src[0] == 0 && Below(src, |nodes|) && Distinct(src)
    && d <= |src| == FirstJob(nodes, src, d)
    && Sliced(nodes, src, d)
    && Parented(nodes, src, |src|, d)
  }

  // The state inside the inner loop: k children of the node at slot d have been given slots.
  ghost predicate JobsInProgress(nodes: seq<Node>, src: seq<nat>, d: nat, k: nat) {
    && Tree(nodes) && nodes != []
    && src != [] && src[0] == 0 && Below(src, |nodes|) && Distinct(src)
    && d < |src| - k && k <= |nodes[src[d]].kids|
    && |src| == FirstJob(nodes, src, d) + k
    && Sliced(nodes, src, d)
    && Parented(nodes, src, |src| - k, d)
    && src[|src| - k..] == nodes[src[d]].kids[..k]
  }

  lemma {:induction false} StartChildren(nodes: seq<Node>, src: seq<nat>, d: nat)
    requires JobsWritten(nodes, src, d) && d < |nodes|
    ensures JobsInProgress(nodes, src, d, 0)
  {
    LeaderIsAhead(nodes, src, d);
  }

  lemma {:induction false} DistinctSnoc(src: seq<nat>, c: nat)
    requires Distinct(src) && c !in src
    ensures Distinct(src + [c])
  {
  }

  lemma {:induction false} ParentedPrefix(nodes: seq<Node>, src: seq<nat>, src': seq<nat>, end: nat, d: nat)
    requires Below(src, |nodes|) && Below(src', |nodes|) && d <= |src| && end <= |src| && src <= src'
    requires Parented(nodes, src, end, d)
    ensures Parented(nodes, src', end, d)
  {
    assert src'[..d] == src[..d];
  }

  lemma {:induction false} OneMoreFits(nodes: seq<Node>, src: seq<nat>, d: nat, k: nat)
    requires JobsInProgress(nodes, src, d, k) && k < |nodes[src[d]].kids|
    ensures var c := nodes[src[d]].kids[k];
            |src| < |nodes| && Below(src + [c], |nodes|) && Distinct(src + [c])
  {
    hide FirstJob, Sliced, Parented, ParentsKnowKid, Increasing, KidsKnowParent, LeafNames;
    var c := nodes[src[d]].kids[k];
    FreshJob(nodes, src, d, k);
    DistinctSnoc(src, c);
    DistinctFits(src + [c], |nodes|);
  }

  lemma {:induction false} OneMoreChild(nodes: seq<Node>, src: seq<nat>, d: nat, k: nat)
    requires JobsInProgress(nodes, src, d, k) && k < |nodes[src[d]].kids|
    ensures |src| < |nodes|
    ensures JobsInProgress(nodes, src + [nodes[src[d]].kids[k]], d, k + 1)
  {
    hide Tree, FirstJob, Sliced, Parented, Distinct;
    var first := |src| - k;
    var c := nodes[src[d]].kids[k];
    var src' := src + [c];
    OneMoreFits(nodes, src, d, k);
    FirstJobPrefix(nodes, src, src', d);
    SlicedPrefix(nodes, src, src', d);
    ParentedPrefix(nodes, src, src', first, d);
    assert src'[first..] == src[first..] + [c];
  }

  lemma {:induction false} SlicedPrefix(nodes: seq<Node>, src: seq<nat>, src': seq<nat>, d: nat)
    requires Below(src, |nodes|) && Below(src', |nodes|) && src <= src' && d <= |src| && Sliced(nodes, src, d)
    ensures Sliced(nodes, src', d)
  {
    forall i | 0 <= i < d
      ensures SliceAt(nodes, src', i)
    {
      assert SliceAt(nodes, src, i);
      FirstJobPrefix(nodes, src, src', i);
      var from, to := FirstJob(nodes, src, i), FirstJob(nodes, src, i) + |nodes[src[i]].kids|;
      assert src'[from..to] == src[from..to];
    }
  }

  lemma {:induction false} ChildrenParented(nodes: seq<Node>, src: seq<nat>, d: nat)
    requires Ordered(nodes) && KidsKnowParent(nodes) && Below(src, |nodes|) && d < |src|
    requires |nodes[src[d]].kids| <= |src|
    requires Parented(nodes, src, |src| - |nodes[src[d]].kids|, d)
    requires src[|src| - |nodes[src[d]].kids|..] == nodes[src[d]].kids
    ensures Parented(nodes, src, |src|, d + 1)
  {
    var first := |src| - |nodes[src[d]].kids|;
    assert src[..d + 1] == src[..d] + [src[d]];
    forall p | 0 < p < |src|
      ensures 0 < src[p] && nodes[src[p]].parent in src[..d + 1]
    {
      if p >= first {
        assert src[first..][p - first] == src[p];
        assert nodes[src[d]].kids[p - first] == src[p];
      }
    }
  }

  lemma {:induction false} ChildrenDone(nodes: seq<Node>, src: seq<nat>, d: nat)
    requires d < |src| && Below(src, |nodes|) && JobsInProgress(nodes, src, d, |nodes[src[d]].kids|)
    ensures JobsWritten(nodes, src, d + 1)
  {
    hide KidsKnowParent, ParentsKnowKid, Increasing, LeafNames, Ordered, Parented;
    var kids := nodes[src[d]].kids;
    var first := |src| - |kids|;
    assert kids[..|kids|] == kids;
    ChildrenParented(nodes, src, d);
    assert src[first..first + |kids|] == src[first..];
    assert SliceAt(nodes, src, d);
  }

  lemma {:induction false} LinkedNode(cells: seq<Cell>, nodes: seq<Node>, i: nat)
    requires Ordered(nodes) && Linked(cells, nodes) && i < |nodes|
    ensures |cells| == |nodes|
    ensures cells[i].ctype == nodes[i].ctype && cells[i].quant == nodes[i].quant && cells[i].name == nodes[i].name
    ensures cells[i].childcnt == |nodes[i].kids|
    ensures nodes[i].kids != [] ==> cells[i].firstchild == nodes[i].kids[0]
  {
  }

  lemma {:induction false} LinkedSibling(cells: seq<Cell>, nodes: seq<Node>, i: nat, j: nat)
    requires Ordered(nodes) && Linked(cells, nodes) && i < |nodes| && j < |nodes[i].kids|
    ensures |cells| == |nodes| && nodes[i].kids[j] < |nodes|
    ensures j + 1 < |nodes[i].kids| ==> cells[nodes[i].kids[j]].nextsib == nodes[i].kids[j + 1]
  {
    assert nodes[i].kids[j] < |nodes|;
  }

  lemma {:induction false} NameHasNoKids(nodes: seq<Node>, i: nat)
    requires Tree(nodes) && i < |nodes| && nodes[i].ctype == NameType
    ensures nodes[i].kids == [] && '\0' !in nodes[i].name
  {
  }

  lemma {:induction false} FirstJobs(nodes: seq<Node>)
    requires Tree(nodes) && nodes != []
    ensures JobsWritten(nodes, [0], 0) && BytesOf(nodes, Members([0][..0]), |nodes|) == 0
  {
    BytesOfEmpty(nodes, |nodes|);
  }

  ghost predicate FilledUpTo(cells: seq<ContentCell>, strs: seq<char>, nodes: seq<Node>, src: seq<nat>) {
    && |cells| <= |src| && Below(src, |nodes|)
    && forall i {:trigger cells[i]} :: 0 <= i < |cells| ==> Filled(cells[i], strs, nodes, src, i)
  }

  // The state of the loop: dest nodes are filled in, jobs are left in the slots up to jobDest.
  ghost predicate Progress(ret: seq<ContentCell>, strs: seq<char>, nodes: seq<Node>, src: seq<nat>,
                           dest: nat, jobDest: nat, str: nat) {
    && dest <= jobDest == |src| <= |ret| == |nodes| && str <= |strs|
    && JobsWritten(nodes, src, dest)
    && str == BytesOf(nodes, Members(src[..dest]), |nodes|)
    && (forall p {:trigger ret[p]} :: dest <= p < jobDest ==> ret[p].numchildren == src[p])
    && FilledUpTo(ret[..dest], strs[..str], nodes, src)
  }

  lemma {:induction false} HoldsNamePrefix(strs: seq<char>, part: seq<char>, from: int, name: string)
    requires part <= strs && HoldsName(strs, from, name) && from + |name| < |part|
    ensures HoldsName(part, from, name)
  {
    assert part[from..from + |name|] == strs[from..from + |name|];
  }

  lemma {:induction false} FilledKept(cells: seq<ContentCell>, strs: seq<char>, strs': seq<char>, nodes: seq<Node>,
                                      src: seq<nat>, src': seq<nat>)
    requires FilledUpTo(cells, strs, nodes, src) && strs <= strs' && src <= src' && Below(src', |nodes|)
    ensures FilledUpTo(cells, strs', nodes, src')
  {
    forall i | 0 <= i < |cells|
      ensures Filled(cells[i], strs', nodes, src', i)
    {
      assert Filled(cells[i], strs, nodes, src, i);
      FirstJobPrefix(nodes, src, src', i);
      if nodes[src[i]].ctype == NameType {
        var from, to := cells[i].name, cells[i].name + |nodes[src[i]].name|;
        assert strs'[from..to] == strs[from..to];
      }
    }
  }

  lemma {:induction false} FilledSnoc(cells: seq<ContentCell>, cell: ContentCell, strs: seq<char>, nodes: seq<Node>,
                                      src: seq<nat>)
    requires FilledUpTo(cells, strs, nodes, src) && |cells| < |src| && Filled(cell, strs, nodes, src, |cells|)
    ensures FilledUpTo(cells + [cell], strs, nodes, src)
  {
  }

  lemma {:induction false} ProgressStart(ret: seq<ContentCell>, strs: seq<char>, nodes: seq<Node>)
    requires Tree(nodes) && nodes != [] && |ret| == |nodes| && ret[0].numchildren == 0
    ensures Progress(ret, strs, nodes, [0], 0, 1, 0)
  {
    FirstJobs(nodes);
  }

  // What the follower finds in its slot.
  lemma {:induction false} ProgressAhead(ret: seq<ContentCell>, strs: seq<char>, nodes: seq<Node>, src: seq<nat>,
                                         dest: nat, start: nat, strStart: nat)
    requires Progress(ret, strs, nodes, src, dest, start, strStart) && dest < |nodes| && |strs| == NameBytes(nodes)
    ensures dest < |src| && JobsInProgress(nodes, src, dest, 0)
    ensures ret[dest].numchildren == src[dest]
    ensures strStart + NameSize(nodes[src[dest]]) <= |strs|
    ensures BytesOf(nodes, Members(src[..dest + 1]), |nodes|) == strStart + NameSize(nodes[src[dest]])
  {
    hide FirstJob, Sliced, FilledUpTo;
    StartChildren(nodes, src, dest);
    RoomForName(nodes, src, dest);
  }

  lemma {:induction false} ProgressNext(ret: seq<ContentCell>, ret': seq<ContentCell>, strs: seq<char>,
                                        strs': seq<char>,
                                        nodes: seq<Node>, src: seq<nat>, src': seq<nat>,
                                        dest: nat, start: nat, jobDest: nat, strStart: nat, str: nat)
    requires Progress(ret, strs, nodes, src, dest, start, strStart) && dest < |nodes| && |strs| == NameBytes(nodes)
    requires Below(src', |nodes|) && JobsWritten(nodes, src', dest + 1) && src <= src' && |src'| == jobDest <= |ret'| == |ret|
    requires ret'[..dest] == ret[..dest]
    requires forall p {:trigger ret'[p]} :: dest < p < jobDest ==> ret'[p].numchildren == src'[p]
    requires |strs'| == |strs| && str == strStart + NameSize(nodes[src'[dest]]) <= |strs'|
    requires strs'[..strStart] == strs[..strStart]
    requires Filled(ret'[dest], strs'[..str], nodes, src', dest)
    ensures Progress(ret', strs', nodes, src', dest + 1, jobDest, str)
  {
    hide JobsWritten, JobsInProgress, FilledUpTo, Filled, NameSize, NameBytes, Tree, BytesOf;
    ProgressAhead(ret, strs, nodes, src, dest, start, strStart);
    assert src[dest] == src'[dest];
    assert src'[..dest + 1] == src[..dest + 1];
    assert strs'[..str][..strStart] == strs[..strStart];
    FilledKept(ret[..dest], strs[..strStart], strs'[..str], nodes, src, src');
    FilledSnoc(ret'[..dest], ret'[dest], strs'[..str], nodes, src');
    assert ret'[..dest + 1] == ret'[..dest] + [ret'[dest]];
  }

  lemma {:induction false} NameFilled(cell: ContentCell, strs: seq<char>, nodes: seq<Node>, src: seq<nat>, d: nat,
                                      str: nat)
    requires d < |src| && Below(src, |nodes|) && nodes[src[d]].ctype == NameType
    requires str <= |strs| && 0 <= cell.name && cell.name + |nodes[src[d]].name| < str
    requires HoldsName(strs, cell.name, nodes[src[d]].name)
    requires cell.ctype == NameType && cell.quant == nodes[src[d]].quant
    requires cell.numchildren == 0 && cell.children == NO_POINTER
    ensures Filled(cell, strs[..str], nodes, src, d)
  {
    HoldsNamePrefix(strs, strs[..str], cell.name, nodes[src[d]].name);
  }

  lemma {:induction false} GroupFilled(cell: ContentCell, strs: seq<char>, nodes: seq<Node>, src: seq<nat>,
                                       src': seq<nat>, d: nat)
    requires JobsInProgress(nodes, src, d, 0) && src <= src' && Below(src', |nodes|) && nodes[src[d]].ctype != NameType
    requires cell.ctype == nodes[src[d]].ctype && cell.quant == nodes[src[d]].quant
    requires cell.name == NO_POINTER && cell.numchildren == |nodes[src[d]].kids| && cell.children == |src|
    ensures Filled(cell, strs, nodes, src', d)
  {
    FirstJobPrefix(nodes, src, src', d);
  }

  lemma {:induction false} BuildDone(cells: seq<ContentCell>, strs: seq<char>, nodes: seq<Node>, src: seq<nat>,
                                     jobDest: nat, str: nat)
    requires |cells| == |nodes| && |strs| == NameBytes(nodes)
    requires Progress(cells, strs, nodes, src, |nodes|, jobDest, str)
    ensures ModelIs(cells, strs, TreeOf(nodes, 0))
    ensures jobDest == |nodes| && str == |strs|
  {
    hide KidsKnowParent, ParentsKnowKid, Increasing, LeafNames, FirstJob, Sliced, Parented, Filled;
    assert src[..|src|] == src;
    assert cells[..|nodes|] == cells;
    AllNamesWritten(nodes, src);
    assert strs[..str] == strs;
    FilledIsReadable(cells, strs, nodes, src);
    FilledReadsTree(cells, strs, nodes, src, 0);
    FilledIsGapless(cells, strs, nodes, src);
  }

  // The name at the source, terminator included, is copied to the string area at str.
  method CopyName(name: string, strs: array<char>, str: nat) returns (next: nat)
    requires '\0' !in name && str + |name| < strs.Length
    modifies strs
    ensures next == str + |name| + 1
    ensures HoldsName(strs[..], str, name)
    ensures strs[..str] == old(strs[..str])
  {
    var k := 0;
    next := str;
    while true
      invariant 0 <= k <= |name| && next == str + k
      invariant strs[str..next] == name[..k]
      invariant strs[..str] == old(strs[..str])
      decreases |name| - k
    {
      strs[next] := if k < |name| then name[k] else '\0';
      next := next + 1;
      if k == |name| {
        break;
      }
      k := k + 1;
    }
    assert strs[..][str..str + |name|] == strs[str..str + |name|] == name;
  }

  // build_model: on success the result reads as the scaffold's tree; it fails only when the allocation does
  // or the sizes do not fit in 32 bits.
  method Build(scaffold: seq<Cell>, scaffCount: nat, contentStringLen: nat, allocOk: bool, ghost nodes: seq<Node>)
      returns (ok: bool, ret: array<ContentCell>, strs: array<char>)
    requires 0 < scaffCount == |nodes| <= |scaffold|
    requires Tree(nodes) && Ordered(nodes) && Linked(scaffold[..scaffCount], nodes)
    requires contentStringLen == NameBytes(nodes)
    ensures fresh(ret) && fresh(strs)
    ensures ok <==> allocOk && !ModelTooLarge(scaffCount, contentStringLen)
    ensures ok ==> ret.Length == scaffCount && strs.Length == contentStringLen
    ensures ok ==> ModelIs(ret[..], strs[..], TreeOf(nodes, 0))
  {
    hide Tree, Ordered, Linked, Progress, TreeOf, ModelIs;
    if ModelTooLarge(scaffCount, contentStringLen) || !allocOk {
      ok := false;
      ret := new ContentCell[0];
      strs := new char[0];
      return;
    }
    ok := true;
    var blank := ContentCell(EmptyType, Once, NO_POINTER, 0, NO_POINTER);
    ret := new ContentCell[scaffCount](_ => blank);
    strs := new char[contentStringLen](_ => ' ');
    var dest: nat, jobDest: nat, str: nat := 0, 0, 0;
    ret[jobDest] := ret[jobDest].(numchildren := 0);
    jobDest := jobDest + 1;
    ghost var src: seq<nat> := [0];
    ProgressStart(ret[..], strs[..], nodes);
    while dest < scaffCount
      invariant 0 <= dest <= scaffCount
      invariant Progress(ret[..], strs[..], nodes, src, dest, jobDest, str)
    {
      jobDest, str, src := FillSlot(scaffold, scaffCount, ret, strs, dest, jobDest, str, nodes, src);
      dest := dest + 1;
    }
    BuildDone(ret[..], strs[..], nodes, src, jobDest, str);
  }

  // One step of the slower pointer.
  method FillSlot(scaffold: seq<Cell>, scaffCount: nat, ret: array<ContentCell>, strs: array<char>,
                  dest: nat, start: nat, strStart: nat, ghost nodes: seq<Node>, ghost src: seq<nat>)
      returns (jobDest: nat, str: nat, ghost src': seq<nat>)
    requires dest < scaffCount == ret.Length <= |scaffold| && strs.Length == NameBytes(nodes)
    requires Tree(nodes) && Ordered(nodes) && Linked(scaffold[..scaffCount], nodes)
    requires Progress(ret[..], strs[..], nodes, src, dest, start, strStart)
    modifies ret, strs
    ensures Progress(ret[..], strs[..], nodes, src', dest + 1, jobDest, str)
  {
    hide KidsKnowParent, ParentsKnowKid, Increasing, LeafNames, FirstJob, Sliced, Parented, Distinct, Linked, FilledUpTo, Filled, BytesOf, NameBytes, HoldsName;
    jobDest, str, src' := start, strStart, src;
    ghost var ret0, strs0 := ret[..], strs[..];
    ProgressAhead(ret0, strs0, nodes, src, dest, start, strStart);
    var srcNode := ret[dest].numchildren;
    LinkedNode(scaffold[..scaffCount], nodes, srcNode);
    ret[dest] := ret[dest].(ctype := scaffold[srcNode].ctype, quant := scaffold[srcNode].quant);
    if ret[dest].ctype == NameType {
      NameHasNoKids(nodes, srcNode);
      ret[dest] := ret[dest].(name := str);
      str := CopyName(scaffold[srcNode].name, strs, str);
      ret[dest] := ret[dest].(numchildren := 0, children := NO_POINTER);
      ChildrenDone(nodes, src, dest);
      NameFilled(ret[dest], strs[..], nodes, src, dest, str);
      assert strs[..][..strStart] == strs[..strStart];
      assert strs0[..strStart] == old(strs[..strStart]);
    } else {
      ret[dest] := ret[dest].(name := NO_POINTER, numchildren := scaffold[srcNode].childcnt, children := jobDest);
      ghost var cell := ret[dest];
      jobDest, src' := AppendJobs(scaffold, scaffCount, ret, dest, srcNode, jobDest, nodes, src);
      assert ret[dest] == ret[..start][dest] == cell;
      GroupFilled(cell, strs[..][..str], nodes, src, src', dest);
    }
    assert ret[..][..dest] == ret0[..dest] by {
      assert ret[..][..dest] == ret[..start][..dest];
    }
    ProgressNext(ret0, ret[..], strs0, strs[..], nodes, src, src', dest, start, jobDest, strStart, str);
  }

  // The inner loop: walk the sibling chain and leave a job for every child.
  method AppendJobs(scaffold: seq<Cell>, scaffCount: nat, ret: array<ContentCell>, dest: nat, srcNode: nat, start: nat,
                    ghost nodes: seq<Node>, ghost src: seq<nat>)
      returns (jobDest: nat, ghost src': seq<nat>)
    requires 0 < scaffCount == ret.Length <= |scaffold| && dest < start
    requires Tree(nodes) && Ordered(nodes) && Linked(scaffold[..scaffCount], nodes)
    requires JobsInProgress(nodes, src, dest, 0) && start == |src| <= scaffCount
    requires srcNode == src[dest] && ret[dest].numchildren == scaffold[srcNode].childcnt
    modifies ret
    ensures jobDest == |src'| <= scaffCount && src <= src' && JobsWritten(nodes, src', dest + 1)
    ensures ret[..start] == old(ret[..start])
    ensures forall p {:trigger ret[p]} :: start <= p < jobDest ==> ret[p].numchildren == src'[p]
  {
    jobDest, src' := start, src;
    hide KidsKnowParent, ParentsKnowKid, Increasing, LeafNames, FirstJob, Sliced, Parented, Distinct, Linked;
    ghost var cells := scaffold[..scaffCount];
    ghost var kids := nodes[srcNode].kids;
    LinkedNode(cells, nodes, srcNode);
    var cn := scaffold[srcNode].firstchild;
    var i := 0;
    while i < ret[dest].numchildren
      invariant ret[dest].numchildren == |kids|
      invariant 0 <= i <= |kids|
      invariant src <= src' && jobDest == |src'| == start + i <= scaffCount
      invariant JobsInProgress(nodes, src', dest, i)
      invariant i < |kids| ==> cn == kids[i]
      invariant ret[..start] == old(ret[..start])
      invariant forall p {:trigger ret[p]} :: start <= p < jobDest ==> ret[p].numchildren == src'[p]
    {
      OneMoreChild(nodes, src', dest, i);
      LinkedSibling(cells, nodes, srcNode, i);
      ret[jobDest] := ret[jobDest].(numchildren := cn);
      jobDest := jobDest + 1;
      src' := src' + [kids[i]];
      i, cn := i + 1, scaffold[cn].nextsib;
    }
    ChildrenDone(nodes, src', dest);
  }
}
