/**
 * `buildFileTree(items)` from `utils/file-tree-builder.ts`: one pass over a
 * flat GitHub tree listing that turns it into nested `FileNode`s.
 *
 * The source builds JavaScript objects that alias each other: the path map
 * and the parents' `children` arrays hold the same node objects. The model
 * keeps every node created in an arena `slots` (a slot number is a node's
 * identity) and the path map as a map from paths to slot numbers. Slot 0 is
 * the root placeholder registered under `""`; its children list is the `root`
 * array the function returns.
 */
module FileTreeBuilder {
  import opened Wrappers
  import opened Strings
  import opened Types

  /** `FileNode.type`. */
  datatype NodeType = File | Dir

  /** A `FileNode` as returned: files carry no `children`, dirs always do. */
  datatype FileNode = FileNode(path: string, nodeType: NodeType, children: Option<seq<FileNode>>)

  /** One node object of the source: its path, whether it has a `children` array, and that array as slot numbers. */
  datatype Slot = Slot(path: string, isDir: bool, children: seq<nat>)

  /** The builder's state: every node created so far, and `nodeMap`. */
  datatype State = State(slots: seq<Slot>, nodeMap: map<string, nat>)

  /** The slot of the root placeholder. */
  const ROOT: nat := 0

  /** Before the first item: only the root placeholder, registered under `""`. */
  const INITIAL := State([Slot("", true, [])], map["" := ROOT])

  /** Every child is created after its parent and before the end of the arena. */
  ghost predicate ChildrenAfter(slots: seq<Slot>)
  {
    forall s, k :: 0 <= s < |slots| && 0 <= k < |slots[s].children| ==> s < slots[s].children[k] < |slots|
  }

  /** Children are listed in creation order. */
  ghost predicate ChildrenIncreasing(slots: seq<Slot>)
  {
    forall s, a, b :: 0 <= s < |slots| && 0 <= a < b < |slots[s].children| ==>
      slots[s].children[a] < slots[s].children[b]
  }

  /** A node is a child of at most one node. */
  ghost predicate SingleParent(slots: seq<Slot>)
  {
    forall s1, s2, x :: 0 <= s1 < |slots| && 0 <= s2 < |slots| && x in slots[s1].children && x in slots[s2].children ==> s1 == s2
  }

  /** Files never have children. */
  ghost predicate FilesAreLeaves(slots: seq<Slot>)
  {
    forall s :: 0 <= s < |slots| && !slots[s].isDir ==> slots[s].children == []
  }

  /** The shape of the node objects: a forest hanging below slot 0. */
  ghost predicate Forest(slots: seq<Slot>)
  {
    |slots| >= 1 && slots[ROOT].path == "" && slots[ROOT].isDir &&
    ChildrenAfter(slots) && ChildrenIncreasing(slots) && SingleParent(slots) && FilesAreLeaves(slots)
  }

  /** `nodeMap` maps each path to a node with that path; `""` is always mapped. */
  ghost predicate Valid(st: State)
  {
    Forest(st.slots) && "" in st.nodeMap && MapValid(st.slots, st.nodeMap)
  }

  /** Every mapped slot exists, and so does the root placeholder. */
  ghost predicate Indexable(st: State)
  {
    |st.slots| >= 1 && forall p :: p in st.nodeMap ==> st.nodeMap[p] < |st.slots|
  }

  /** `x.children.push(c)` on the node in slot `p`. */
  function AddChild(slots: seq<Slot>, p: nat, c: nat): (r: seq<Slot>)
    requires p < |slots|
    ensures |r| == |slots| && r[p].children == slots[p].children + [c]
    ensures r[p].path == slots[p].path && r[p].isDir == slots[p].isDir
  {
    slots[p := slots[p].(children := slots[p].children + [c])]
  }

  /**
   * Hang a parent just created in slot `|st.slots|` of `slots` below its own
   * parent: below the node mapped to the grandparent path when that node is a
   * dir, else below the root when the parent path has no `/`, else nowhere.
   */
  function AttachParent(st: State, slots: seq<Slot>, parentPath: string): seq<Slot>
    requires Indexable(st) && |slots| == |st.slots| + 2
  {
    var n := |st.slots|;
    var grandParentPath := DropLastSegment(parentPath, '/');
    if grandParentPath in st.nodeMap && slots[st.nodeMap[grandParentPath]].isDir then
      AddChild(slots, st.nodeMap[grandParentPath], n)
    else if '/' !in parentPath then
      AddChild(slots, ROOT, n)
    else
      slots
  }

  /**
   * One round of the `forEach`: create the item's node, register it, and hang
   * it below the root (no `/` in the path) or below the node of its parent
   * path, creating that parent first when the path map lacks it. (The arena
   * numbers a created parent before the item's node; nothing in the source
   * observes that order.)
   */
  function Step(st: State, item: TreeItem): (r: State)
    requires Indexable(st)
    ensures Indexable(r)
  {
    var n := |st.slots|;
    var node := Slot(item.path, item.kind != "blob", []);
    if '/' !in item.path then
      State(AddChild(st.slots + [node], ROOT, n), st.nodeMap[item.path := n])
    else
      var parentPath := DropLastSegment(item.path, '/');
      if parentPath in st.nodeMap then
        var p := st.nodeMap[parentPath];
        var slots := st.slots + [node];
        State(if slots[p].isDir then AddChild(slots, p, n) else slots, st.nodeMap[item.path := n])
      else
        NewParentRound(st, parentPath, node)
  }

  /**
   * The rest of a round whose parent path is not mapped: create a dir for the
   * parent path and the item's node, hang the parent where `AttachParent`
   * says, push the node into the parent, and map both paths.
   */
  function NewParentRound(st: State, parentPath: string, node: Slot): (r: State)
    requires Indexable(st)
    ensures Indexable(r)
  {
    var n := |st.slots|;
    var slots := AttachParent(st, st.slots + [Slot(parentPath, true, []), node], parentPath);
    State(AddChild(slots, n, n + 1), st.nodeMap[node.path := n + 1][parentPath := n])
  }

  /** Creating a node without children keeps the forest shape. */
  lemma AppendLeafKeepsForest(slots: seq<Slot>, node: Slot)
    requires Forest(slots) && node.children == []
    ensures Forest(slots + [node])
  {
    var r := slots + [node];
    assert forall s :: 0 <= s < |slots| ==> r[s] == slots[s];
  }

  /** Every listed child was created before slot `c`. */
  ghost predicate ChildrenBelow(slots: seq<Slot>, c: nat)
  {
    forall s, k :: 0 <= s < |slots| && 0 <= k < |slots[s].children| ==> slots[s].children[k] < c
  }

  /** In a forest, every listed child lies inside the arena. */
  lemma ForestChildrenBelow(slots: seq<Slot>, node: Slot, extra: Slot)
    requires Forest(slots)
    ensures ChildrenBelow(slots, |slots|)
    ensures node.children == [] ==> ChildrenBelow(slots + [node], |slots|)
    ensures node.children == [] && extra.children == [] ==> ChildrenBelow(slots + [node, extra], |slots|)
  {
    var r1 := slots + [node];
    var r2 := slots + [node, extra];
    assert forall s :: 0 <= s < |slots| ==> r1[s] == slots[s] && r2[s] == slots[s];
  }

  /** Pushing a node created after every listed child into a dir keeps the forest shape. */
  lemma AddChildKeepsForest(slots: seq<Slot>, p: nat, c: nat)
    requires Forest(slots) && p < c < |slots| && slots[p].isDir && ChildrenBelow(slots, c)
    ensures Forest(AddChild(slots, p, c)) && ChildrenBelow(AddChild(slots, p, c), c + 1)
  {
    var r := AddChild(slots, p, c);
    assert forall s :: 0 <= s < |slots| ==> c !in slots[s].children;
    forall s1, s2, x | 0 <= s1 < |r| && 0 <= s2 < |r| && x in r[s1].children && x in r[s2].children
      ensures s1 == s2
    {
      if x == c {
        assert s1 == p && s2 == p;
      } else {
        assert x in slots[s1].children && x in slots[s2].children;
      }
    }
  }

  /** `nodeMap` maps each path to a node with that path. */
  ghost predicate MapValid(slots: seq<Slot>, nodeMap: map<string, nat>)
  {
    forall p :: p in nodeMap ==> nodeMap[p] < |slots| && slots[nodeMap[p]].path == p
  }

  /** A map valid for some slots stays valid once the arena grows without renaming nodes. */
  lemma MapValidGrows(slots: seq<Slot>, slots': seq<Slot>, nodeMap: map<string, nat>)
    requires MapValid(slots, nodeMap) && |slots| <= |slots'|
    requires forall s :: 0 <= s < |slots| ==> slots'[s].path == slots[s].path
    ensures MapValid(slots', nodeMap)
  {
  }

  /** The round of a top-level item keeps the state valid. */
  lemma StepTopLevelValid(st: State, item: TreeItem)
    requires Valid(st) && '/' !in item.path
    ensures Valid(Step(st, item))
  {
    var n := |st.slots|;
    var node := Slot(item.path, item.kind != "blob", []);
    AppendLeafKeepsForest(st.slots, node);
    ForestChildrenBelow(st.slots, node, node);
    var slots := st.slots + [node];
    AddChildKeepsForest(slots, ROOT, n);
    MapValidGrows(st.slots, AddChild(slots, ROOT, n), st.nodeMap);
  }

  /** The round of an item whose parent path is mapped keeps the state valid. */
  lemma StepKnownParentValid(st: State, item: TreeItem)
    requires Valid(st) && '/' in item.path && DropLastSegment(item.path, '/') in st.nodeMap
    ensures Valid(Step(st, item))
  {
    var n := |st.slots|;
    var node := Slot(item.path, item.kind != "blob", []);
    AppendLeafKeepsForest(st.slots, node);
    ForestChildrenBelow(st.slots, node, node);
    var slots := st.slots + [node];
    var p := st.nodeMap[DropLastSegment(item.path, '/')];
    if slots[p].isDir {
      AddChildKeepsForest(slots, p, n);
      MapValidGrows(st.slots, AddChild(slots, p, n), st.nodeMap);
    } else {
      MapValidGrows(st.slots, slots, st.nodeMap);
    }
  }

  /** Hanging a parent just created where the source does keeps the forest shape. */
  lemma AttachParentKeepsForest(st: State, parentPath: string, node: Slot)
    requires Valid(st) && node.children == []
    ensures var n := |st.slots|;
      var slots := st.slots + [Slot(parentPath, true, []), node];
      var attached := AttachParent(st, slots, parentPath);
      Forest(attached) && ChildrenBelow(attached, n + 1) && |attached| == n + 2 &&
      attached[n] == Slot(parentPath, true, []) &&
      forall s :: 0 <= s < |attached| ==> attached[s].path == slots[s].path
  {
    var n := |st.slots|;
    var grandParentPath := DropLastSegment(parentPath, '/');
    var parent := Slot(parentPath, true, []);
    AppendLeafKeepsForest(st.slots, parent);
    AppendLeafKeepsForest(st.slots + [parent], node);
    ForestChildrenBelow(st.slots, parent, node);
    var slots := st.slots + [parent, node];
    assert st.slots + [parent] + [node] == slots;
    if grandParentPath in st.nodeMap && slots[st.nodeMap[grandParentPath]].isDir {
      AddChildKeepsForest(slots, st.nodeMap[grandParentPath], n);
    } else if '/' !in parentPath {
      AddChildKeepsForest(slots, ROOT, n);
    }
  }

  /** A round whose parent path is not mapped keeps the forest shape. */
  lemma NewParentForest(st: State, parentPath: string, node: Slot)
    requires Valid(st) && node.children == []
    ensures Forest(NewParentRound(st, parentPath, node).slots)
  {
    var n := |st.slots|;
    var attached := AttachParent(st, st.slots + [Slot(parentPath, true, []), node], parentPath);
    AttachParentKeepsForest(st, parentPath, node);
    AddChildKeepsForest(attached, n, n + 1);
  }

  /** A round whose parent path is not mapped keeps the path map pointing at nodes with that path. */
  lemma NewParentMapValid(st: State, parentPath: string, node: Slot)
    requires Valid(st) && node.children == []
    ensures MapValid(NewParentRound(st, parentPath, node).slots, NewParentRound(st, parentPath, node).nodeMap)
  {
    var n := |st.slots|;
    var attached := AttachParent(st, st.slots + [Slot(parentPath, true, []), node], parentPath);
    AttachParentKeepsForest(st, parentPath, node);
    MapValidGrows(st.slots, AddChild(attached, n, n + 1), st.nodeMap);
  }

  /** Every round keeps the forest shape and the path map pointing at nodes with that path. */
  lemma StepValid(st: State, item: TreeItem)
    requires Valid(st)
    ensures Valid(Step(st, item))
  {
    if '/' !in item.path {
      StepTopLevelValid(st, item);
    } else if DropLastSegment(item.path, '/') in st.nodeMap {
      StepKnownParentValid(st, item);
    } else {
      var node := Slot(item.path, item.kind != "blob", []);
      NewParentForest(st, DropLastSegment(item.path, '/'), node);
      NewParentMapValid(st, DropLastSegment(item.path, '/'), node);
    }
  }

  /** The state after the rounds for the first `i` items, in input order. */
  function After(items: seq<TreeItem>, i: nat): (st: State)
    requires i <= |items|
    ensures Indexable(st)
  {
    if i == 0 then INITIAL else Step(After(items, i - 1), items[i - 1])
  }

  /** Every state along the way is valid. */
  lemma {:induction false} AfterValid(items: seq<TreeItem>, i: nat)
    requires i <= |items|
    ensures Valid(After(items, i))
  {
    if i > 0 {
      AfterValid(items, i - 1);
      RoundValid(items, i);
    } else {
      InitialValid();
    }
  }

  /** The state before the first item is valid. */
  lemma InitialValid()
    ensures Valid(INITIAL)
  {
  }

  /** Round `i` takes a valid state to a valid state. */
  lemma RoundValid(items: seq<TreeItem>, i: nat)
    requires 0 < i <= |items|
    ensures Valid(After(items, i - 1)) ==> Valid(After(items, i))
  {
    var before := After(items, i - 1);
    if Valid(before) {
      StepValid(before, items[i - 1]);
      assert After(items, i) == Step(before, items[i - 1]);
    }
  }

  /** The `FileNode` object in slot `id`, with everything below it. */
  function Tree(slots: seq<Slot>, id: nat): (t: FileNode)
    requires ChildrenAfter(slots) && id < |slots|
    decreases |slots| - id, 1, 0
  {
    var slot := slots[id];
    FileNode(slot.path, if slot.isDir then Dir else File,
      if slot.isDir then Some(Subtrees(slots, id, slot.children)) else None)
  }

  /** The `FileNode` objects in slots `ids`, children of slot `parent`, in order. */
  function Subtrees(slots: seq<Slot>, parent: nat, ids: seq<nat>): (ts: seq<FileNode>)
    requires ChildrenAfter(slots) && parent < |slots|
    requires forall k :: 0 <= k < |ids| ==> parent < ids[k] < |slots|
    decreases |slots| - parent, 0, |ids|
    ensures |ts| == |ids| && forall k :: 0 <= k < |ids| ==> ts[k] == Tree(slots, ids[k])
  {
    if |ids| == 0 then [] else [Tree(slots, ids[0])] + Subtrees(slots, parent, ids[1..])
  }

  /** The `root` array: the trees hanging below the root placeholder. */
  function Output(st: State): seq<FileNode>
    requires Valid(st)
  {
    Subtrees(st.slots, ROOT, st.slots[ROOT].children)
  }

  /**
   * The body of the `forEach` callback: create the item's node, register it,
   * and push it (and a created parent) into `children` arrays.
   */
  method AddItem(slots0: seq<Slot>, nodeMap0: map<string, nat>, item: TreeItem)
    returns (slots: seq<Slot>, nodeMap: map<string, nat>)
    requires Indexable(State(slots0, nodeMap0))
    ensures State(slots, nodeMap) == Step(State(slots0, nodeMap0), item)
  {
    slots, nodeMap := slots0, nodeMap0;
    var isFile := item.kind == "blob";
    var path := item.path;
    var node := Slot(path, !isFile, []);
    if '/' !in path {
      var id := |slots|;
      slots := slots + [node];
      nodeMap := nodeMap[path := id];
      slots := AddChild(slots, ROOT, id);
    } else {
      var parentPath := DropLastSegment(path, '/');
      if parentPath in nodeMap {
        var id := |slots|;
        slots := slots + [node];
        var p := nodeMap[parentPath];
        nodeMap := nodeMap[path := id];
        if slots[p].isDir {
          slots := AddChild(slots, p, id);
        }
      } else {
        var parentId := |slots|;
        var id := parentId + 1;
        slots := slots + [Slot(parentPath, true, []), node];
        var grandParentPath := DropLastSegment(parentPath, '/');
        if grandParentPath in nodeMap && slots[nodeMap[grandParentPath]].isDir {
          var g := nodeMap[grandParentPath];
          slots := AddChild(slots, g, parentId);
        } else if '/' !in parentPath {
          slots := AddChild(slots, ROOT, parentId);
        }
        slots := AddChild(slots, parentId, id);
        nodeMap := nodeMap[path := id][parentPath := parentId];
      }
    }
  }

  /** `buildFileTree`: one round per item, in input order; returns `root`. */
  method BuildFileTree(items: seq<TreeItem>) returns (root: seq<FileNode>)
    ensures Valid(After(items, |items|)) && root == Output(After(items, |items|))
  {
    var slots: seq<Slot> := [Slot("", true, [])];
    var nodeMap: map<string, nat> := map["" := ROOT];
    for i := 0 to |items|
      invariant State(slots, nodeMap) == After(items, i)
    {
      slots, nodeMap := AddItem(slots, nodeMap, items[i]);
    }
    AfterValid(items, |items|);
    root := Subtrees(slots, ROOT, slots[ROOT].children);
  }

  /**
   * `b` extends the arena `a`: nodes are only added, a node keeps its path and
   * kind, and children arrays only grow at the end, by nodes numbered `bound`
   * or above.
   */
  ghost predicate SlotsGrow(a: seq<Slot>, b: seq<Slot>, bound: nat)
  {
    |a| <= |b| &&
    (forall s :: 0 <= s < |a| ==>
      b[s].path == a[s].path && b[s].isDir == a[s].isDir && a[s].children <= b[s].children) &&
    (forall s, k :: 0 <= s < |a| && |a[s].children| <= k < |b[s].children| ==> b[s].children[k] >= bound)
  }

  /** `b` is a later state than `a`: the arena grows by new nodes only, and mapped paths stay mapped. */
  ghost predicate Grows(a: State, b: State)
  {
    SlotsGrow(a.slots, b.slots, |a.slots|) && forall p :: p in a.nodeMap ==> p in b.nodeMap
  }

  /** Creating nodes extends the arena. */
  lemma AppendGrows(a: seq<Slot>, extra: seq<Slot>, bound: nat)
    ensures SlotsGrow(a, a + extra, bound)
  {
    var b := a + extra;
    assert forall s :: 0 <= s < |a| ==> b[s] == a[s];
  }

  /** Pushing a new node into a children array extends the arena. */
  lemma AddChildGrows(a: seq<Slot>, b: seq<Slot>, p: nat, c: nat, bound: nat)
    requires SlotsGrow(a, b, bound) && p < |b| && c >= bound
    ensures SlotsGrow(a, AddChild(b, p, c), bound)
  {
    var r := AddChild(b, p, c);
    forall s | 0 <= s < |a|
      ensures a[s].children <= r[s].children
    {
      assert a[s].children <= b[s].children <= r[s].children;
    }
    forall s, k | 0 <= s < |a| && |a[s].children| <= k < |r[s].children|
      ensures r[s].children[k] >= bound
    {
      if s == p && k == |b[s].children| {
      } else {
        assert r[s].children[k] == b[s].children[k];
      }
    }
  }

  /** The round of a top-level item only adds to the state. */
  lemma StepTopLevelGrows(st: State, item: TreeItem)
    requires Valid(st) && '/' !in item.path
    ensures Grows(st, Step(st, item))
  {
    var n := |st.slots|;
    var node := Slot(item.path, item.kind != "blob", []);
    AppendGrows(st.slots, [node], n);
    AddChildGrows(st.slots, st.slots + [node], ROOT, n, n);
  }

  /** The round of an item whose parent path is mapped only adds to the state. */
  lemma StepKnownParentGrows(st: State, item: TreeItem)
    requires Valid(st) && '/' in item.path && DropLastSegment(item.path, '/') in st.nodeMap
    ensures Grows(st, Step(st, item))
  {
    var n := |st.slots|;
    var node := Slot(item.path, item.kind != "blob", []);
    var p := st.nodeMap[DropLastSegment(item.path, '/')];
    AppendGrows(st.slots, [node], n);
    if (st.slots + [node])[p].isDir {
      AddChildGrows(st.slots, st.slots + [node], p, n, n);
    }
  }

  /** Hanging a created parent only adds to the arena. */
  lemma AttachParentGrows(st: State, parentPath: string, node: Slot)
    requires Valid(st)
    ensures var slots := st.slots + [Slot(parentPath, true, []), node];
      SlotsGrow(st.slots, AttachParent(st, slots, parentPath), |st.slots|)
  {
    var n := |st.slots|;
    var grandParentPath := DropLastSegment(parentPath, '/');
    var slots := st.slots + [Slot(parentPath, true, []), node];
    AppendGrows(st.slots, [Slot(parentPath, true, []), node], n);
    if grandParentPath in st.nodeMap && slots[st.nodeMap[grandParentPath]].isDir {
      AddChildGrows(st.slots, slots, st.nodeMap[grandParentPath], n, n);
    } else if '/' !in parentPath {
      AddChildGrows(st.slots, slots, ROOT, n, n);
    }
  }

  /** The round of an item whose parent path is not mapped only adds to the state. */
  lemma StepNewParentGrows(st: State, item: TreeItem)
    requires Valid(st) && '/' in item.path && DropLastSegment(item.path, '/') !in st.nodeMap
    ensures Grows(st, Step(st, item))
  {
    var n := |st.slots|;
    var parentPath := DropLastSegment(item.path, '/');
    var node := Slot(item.path, item.kind != "blob", []);
    var attached := AttachParent(st, st.slots + [Slot(parentPath, true, []), node], parentPath);
    AttachParentGrows(st, parentPath, node);
    AttachParentKeepsForest(st, parentPath, node);
    AddChildGrows(st.slots, attached, n, n + 1, n);
  }

  /** A round only adds to the state. */
  lemma StepGrows(st: State, item: TreeItem)
    requires Valid(st)
    ensures Grows(st, Step(st, item))
  {
    if '/' !in item.path {
      StepTopLevelGrows(st, item);
    } else if DropLastSegment(item.path, '/') in st.nodeMap {
      StepKnownParentGrows(st, item);
    } else {
      StepNewParentGrows(st, item);
    }
  }

  /** Growth is transitive. */
  lemma GrowsTransitive(a: State, b: State, c: State)
    requires Grows(a, b) && Grows(b, c)
    ensures Grows(a, c)
  {
    forall s | 0 <= s < |a.slots|
      ensures a.slots[s].children <= c.slots[s].children
    {
      assert a.slots[s].children <= b.slots[s].children <= c.slots[s].children;
    }
    forall s, k | 0 <= s < |a.slots| && |a.slots[s].children| <= k < |c.slots[s].children|
      ensures c.slots[s].children[k] >= |a.slots|
    {
      if k < |b.slots[s].children| {
        assert c.slots[s].children[k] == b.slots[s].children[k];
      }
    }
  }

  /** Every state grows into itself. */
  lemma GrowsReflexive(a: State)
    ensures Grows(a, a)
  {
  }

  /** One round grows the state. */
  lemma RoundGrows(items: seq<TreeItem>, i: nat)
    requires i < |items|
    ensures Grows(After(items, i), After(items, i + 1))
  {
    AfterValid(items, i);
    StepGrows(After(items, i), items[i]);
  }

  /** The state after a prefix of the items grows into the state after a longer prefix. */
  lemma {:induction false} AfterGrows(items: seq<TreeItem>, i: nat, j: nat)
    requires i <= j <= |items|
    decreases j - i
    ensures Grows(After(items, i), After(items, j))
  {
    var a := After(items, i);
    if i < j {
      var b := After(items, i + 1);
      RoundGrows(items, i);
      AfterGrows(items, i + 1, j);
      GrowsTransitive(a, b, After(items, j));
    } else {
      GrowsReflexive(a);
    }
  }

  /** A child stays a child as the state grows. */
  lemma GrowsKeepsChild(a: State, b: State, s: nat, x: nat)
    requires Grows(a, b) && s < |a.slots| && x in a.slots[s].children
    ensures x in b.slots[s].children
  {
    assert a.slots[s].children <= b.slots[s].children;
    var k :| 0 <= k < |a.slots[s].children| && a.slots[s].children[k] == x;
    assert b.slots[s].children[k] == x;
  }

  /** A node that is nobody's child stays so as the state grows: later pushes only push new nodes. */
  lemma GrowsKeepsOrphan(a: State, b: State, x: nat)
    requires Grows(a, b) && Valid(b) && x < |a.slots|
    requires forall s :: 0 <= s < |a.slots| ==> x !in a.slots[s].children
    ensures forall s :: 0 <= s < |b.slots| ==> x !in b.slots[s].children
  {
    forall s | 0 <= s < |b.slots|
      ensures x !in b.slots[s].children
    {
      if s < |a.slots| {
        forall k | 0 <= k < |b.slots[s].children|
          ensures b.slots[s].children[k] != x
        {
          if k < |a.slots[s].children| {
            assert b.slots[s].children[k] == a.slots[s].children[k];
          }
        }
      }
    }
  }

  /** Every state along the way grows into the final one. */
  lemma GrowsToEnd(items: seq<TreeItem>, i: nat)
    requires i <= |items|
    ensures Grows(After(items, i), After(items, |items|))
  {
    AfterGrows(items, i, |items|);
  }

  /** A child in the state after round `j` is still that node's child at the end (membership only). */
  lemma MemberToEnd(items: seq<TreeItem>, j: nat, s: nat, x: nat)
    requires j <= |items| && s < |After(items, j).slots| && x in After(items, j).slots[s].children
    ensures s < |After(items, |items|).slots| && x in After(items, |items|).slots[s].children
  {
    GrowsToEnd(items, j);
    GrowsKeepsChild(After(items, j), After(items, |items|), s, x);
  }

  /** A child in the state after round `i` is still that node's child at the end. */
  lemma ChildToEnd(items: seq<TreeItem>, i: nat, s: nat, x: nat)
    requires i <= |items| && s < |After(items, i).slots| && x in After(items, i).slots[s].children
    ensures var last := After(items, |items|);
      s < |last.slots| && x in last.slots[s].children &&
      last.slots[s].path == After(items, i).slots[s].path && last.slots[s].isDir == After(items, i).slots[s].isDir
  {
    GrowsToEnd(items, i);
    GrowsKeepsChild(After(items, i), After(items, |items|), s, x);
  }

  /** The slot of the node created for `items[i]`: the last slot its round creates. */
  function ItemSlot(items: seq<TreeItem>, i: nat): nat
    requires i < |items|
  {
    |After(items, i + 1).slots| - 1
  }

  /** What one round does to the arena, for an item without `/`: its node goes at the end of `root`. */
  lemma StepTopLevel(st: State, item: TreeItem)
    requires Indexable(st) && '/' !in item.path
    ensures var r := Step(st, item); var n := |st.slots|;
      |r.slots| == n + 1 && r.slots[n] == Slot(item.path, item.kind != "blob", []) &&
      r.slots[ROOT].children == st.slots[ROOT].children + [n]
  {
  }

  /** What one round does for an item whose parent path is mapped: push into that node if it is a dir. */
  lemma StepKnownParent(st: State, item: TreeItem)
    requires Indexable(st) && '/' in item.path && DropLastSegment(item.path, '/') in st.nodeMap
    ensures var r := Step(st, item); var n := |st.slots|;
      var p := st.nodeMap[DropLastSegment(item.path, '/')];
      |r.slots| == n + 1 && r.slots[n] == Slot(item.path, item.kind != "blob", []) &&
      (st.slots[p].isDir ==> r.slots[p].children == st.slots[p].children + [n]) &&
      (!st.slots[p].isDir ==> r.slots[..n] == st.slots)
  {
    var n := |st.slots|;
    var node := Slot(item.path, item.kind != "blob", []);
    assert (st.slots + [node])[..n] == st.slots;
  }

  /**
   * What one round does for an item whose parent path is not mapped: a dir
   * with the parent path is created, holding the item's node, and hung below
   * the grandparent's node if that is a dir, else below the root if the parent
   * path has no `/`, else nowhere.
   */
  lemma StepNewParent(st: State, item: TreeItem)
    requires Indexable(st) && '/' in item.path && DropLastSegment(item.path, '/') !in st.nodeMap
    ensures var r := Step(st, item); var n := |st.slots|;
      var parentPath := DropLastSegment(item.path, '/');
      var grandParentPath := DropLastSegment(parentPath, '/');
      var gpDir := grandParentPath in st.nodeMap && st.slots[st.nodeMap[grandParentPath]].isDir;
      |r.slots| == n + 2 && r.slots[n + 1] == Slot(item.path, item.kind != "blob", []) &&
      r.slots[n] == Slot(parentPath, true, [n + 1]) &&
      (gpDir ==> r.slots[st.nodeMap[grandParentPath]].children == st.slots[st.nodeMap[grandParentPath]].children + [n]) &&
      (!gpDir && '/' !in parentPath ==> r.slots[ROOT].children == st.slots[ROOT].children + [n]) &&
      (!gpDir && '/' in parentPath ==> r.slots[..n] == st.slots) &&
      parentPath in r.nodeMap && r.nodeMap[parentPath] == n
  {
    var n := |st.slots|;
    var parentPath := DropLastSegment(item.path, '/');
    var node := Slot(item.path, item.kind != "blob", []);
    var slots := st.slots + [Slot(parentPath, true, []), node];
    assert slots[..n] == st.slots;
  }

  /** Going from `before` to `after` added two nodes, the first a dir for `parentPath` holding the second. */
  ghost predicate ParentCreated(before: State, after: State, parentPath: string)
  {
    var n := |before.slots|;
    |after.slots| == n + 2 && after.slots[n] == Slot(parentPath, true, [n + 1]) &&
    parentPath in after.nodeMap && after.nodeMap[parentPath] == n
  }

  /**
   * The dir a round creates for a parent path that is not mapped: it sits in
   * the first new slot, holds the item's node, and the parent path maps to it.
   */
  lemma StepCreatesParent(st: State, item: TreeItem)
    requires Indexable(st) && '/' in item.path && DropLastSegment(item.path, '/') !in st.nodeMap
    ensures ParentCreated(st, Step(st, item), DropLastSegment(item.path, '/'))
  {
  }

  /** An item whose parent path is mapped to a file gets a node that is nobody's child. */
  lemma StepUnderFileOrphan(st: State, item: TreeItem)
    requires Valid(st) && '/' in item.path && DropLastSegment(item.path, '/') in st.nodeMap
    requires !st.slots[st.nodeMap[DropLastSegment(item.path, '/')]].isDir
    ensures var r := Step(st, item);
      |r.slots| == |st.slots| + 1 &&
      forall s :: 0 <= s < |r.slots| ==> |st.slots| !in r.slots[s].children
  {
    var n := |st.slots|;
    var r := Step(st, item);
    StepKnownParent(st, item);
    forall s | 0 <= s < |r.slots|
      ensures n !in r.slots[s].children
    {
      if s < n {
        assert r.slots[s] == r.slots[..n][s] == st.slots[s];
        assert forall k :: 0 <= k < |st.slots[s].children| ==> st.slots[s].children[k] < n;
      }
    }
  }

  /**
   * The node a round creates for its item is the last slot, and the item's
   * path now maps to it, whatever it mapped to before.
   */
  lemma StepItemNode(st: State, item: TreeItem)
    requires Indexable(st)
    ensures var r := Step(st, item); var id := |r.slots| - 1;
      |st.slots| <= id && r.slots[id] == Slot(item.path, item.kind != "blob", []) &&
      item.path in r.nodeMap && r.nodeMap[item.path] == id
  {
    if '/' !in item.path {
      StepTopLevel(st, item);
    } else if DropLastSegment(item.path, '/') in st.nodeMap {
      StepKnownParent(st, item);
    } else {
      StepNewParent(st, item);
    }
  }

  /** The round of `items[i]` creates its node in slot `ItemSlot(items, i)`. */
  lemma RoundItemNode(items: seq<TreeItem>, i: nat)
    requires i < |items|
    ensures var item := items[i]; var id := ItemSlot(items, i);
      |After(items, i).slots| <= id && After(items, i + 1).slots[id] == Slot(item.path, item.kind != "blob", [])
  {
    var before := After(items, i);
    StepItemNode(before, items[i]);
  }

  /**
   * Every item gets a node of its own, created in its round, with the item's
   * path; a `blob` becomes a file without children, anything else a dir.
   * Nodes are created in input order.
   */
  lemma ItemNode(items: seq<TreeItem>, i: nat)
    requires i < |items|
    ensures var id := ItemSlot(items, i);
      |After(items, i).slots| <= id < |After(items, |items|).slots| &&
      After(items, |items|).slots[id].path == items[i].path &&
      After(items, |items|).slots[id].isDir == (items[i].kind != "blob") &&
      (items[i].kind == "blob" ==> After(items, |items|).slots[id].children == [])
  {
    var id := ItemSlot(items, i);
    RoundItemNode(items, i);
    GrowsToEnd(items, i + 1);
    var after := After(items, i + 1);
    var last := After(items, |items|);
    assert after.slots[id].children <= last.slots[id].children;
    if items[i].kind == "blob" {
      AfterValid(items, |items|);
      assert !last.slots[id].isDir;
    }
  }

  /** Later items get later slots. */
  lemma ItemSlotsIncrease(items: seq<TreeItem>, i: nat, j: nat)
    requires i < j < |items|
    ensures ItemSlot(items, i) < ItemSlot(items, j)
  {
    AfterGrows(items, i + 1, j);
    ItemNode(items, j);
  }

  /** An item without `/` in its path is pushed into `root`. */
  lemma TopLevelItemAtRoot(items: seq<TreeItem>, i: nat)
    requires i < |items| && '/' !in items[i].path
    ensures ItemSlot(items, i) in After(items, |items|).slots[ROOT].children
  {
    RoundTopLevel(items, i);
    GrowsToEnd(items, i + 1);
    GrowsKeepsChild(After(items, i + 1), After(items, |items|), ROOT, ItemSlot(items, i));
  }

  /** The round of an item without `/` in its path pushes its node into `root`. */
  lemma RoundTopLevel(items: seq<TreeItem>, i: nat)
    requires i < |items| && '/' !in items[i].path
    ensures ItemSlot(items, i) in After(items, i + 1).slots[ROOT].children
  {
    var before := After(items, i);
    StepTopLevel(before, items[i]);
  }

  /** The round of an item whose parent path is mapped to a dir pushes its node into that dir. */
  lemma RoundUnderMappedDir(items: seq<TreeItem>, i: nat)
    requires i < |items| && '/' in items[i].path
    requires var before := After(items, i);
      var parentPath := DropLastSegment(items[i].path, '/');
      parentPath in before.nodeMap && before.slots[before.nodeMap[parentPath]].isDir
    ensures var p := After(items, i).nodeMap[DropLastSegment(items[i].path, '/')];
      p < |After(items, i + 1).slots| && ItemSlot(items, i) in After(items, i + 1).slots[p].children
  {
    var before := After(items, i);
    StepKnownParent(before, items[i]);
    var p := before.nodeMap[DropLastSegment(items[i].path, '/')];
    var after := After(items, i + 1);
    assert after.slots[p].children == before.slots[p].children + [|before.slots|];
  }

  /** An item whose parent path is mapped to a dir when its round starts is pushed into that dir's children. */
  lemma ItemUnderMappedDir(items: seq<TreeItem>, i: nat)
    requires i < |items| && '/' in items[i].path
    requires var before := After(items, i);
      var parentPath := DropLastSegment(items[i].path, '/');
      parentPath in before.nodeMap && before.slots[before.nodeMap[parentPath]].isDir
    ensures var p := After(items, i).nodeMap[DropLastSegment(items[i].path, '/')];
      p < |After(items, |items|).slots| && ItemSlot(items, i) in After(items, |items|).slots[p].children
  {
    var before := After(items, i);
    var p := before.nodeMap[DropLastSegment(items[i].path, '/')];
    RoundUnderMappedDir(items, i);
    GrowsToEnd(items, i + 1);
    GrowsKeepsChild(After(items, i + 1), After(items, |items|), p, ItemSlot(items, i));
  }

  /** An item whose parent path is mapped to a file is attached nowhere, now or later. */
  lemma ItemUnderFileDropped(items: seq<TreeItem>, i: nat)
    requires i < |items| && '/' in items[i].path
    requires var before := After(items, i);
      var parentPath := DropLastSegment(items[i].path, '/');
      parentPath in before.nodeMap && !before.slots[before.nodeMap[parentPath]].isDir
    ensures forall s :: 0 <= s < |After(items, |items|).slots| ==> ItemSlot(items, i) !in After(items, |items|).slots[s].children
  {
    AfterValid(items, i);
    StepUnderFileOrphan(After(items, i), items[i]);
    OrphanToEnd(items, i + 1, ItemSlot(items, i));
  }

  /** Once the round of `items[i]` has run, its path maps to its node (a repeated path is remapped). */
  lemma ItemMapped(items: seq<TreeItem>, i: nat)
    requires i < |items|
    ensures items[i].path in After(items, i + 1).nodeMap &&
      After(items, i + 1).nodeMap[items[i].path] == ItemSlot(items, i)
  {
    var before := After(items, i);
    StepItemNode(before, items[i]);
  }

  /** A node that is nobody's child in the state after a round stays so to the end. */
  lemma OrphanToEnd(items: seq<TreeItem>, i: nat, x: nat)
    requires i <= |items| && x < |After(items, i).slots|
    requires forall s :: 0 <= s < |After(items, i).slots| ==> x !in After(items, i).slots[s].children
    ensures forall s :: 0 <= s < |After(items, |items|).slots| ==> x !in After(items, |items|).slots[s].children
  {
    AfterValid(items, |items|);
    GrowsToEnd(items, i);
    GrowsKeepsOrphan(After(items, i), After(items, |items|), x);
  }

  /**
   * The round of an item whose parent path is not mapped, where the
   * grandparent path is not mapped to a dir either and the parent path holds a
   * `/`: the created parent is nobody's child.
   */
  lemma StepNewParentUnattached(st: State, item: TreeItem)
    requires Valid(st) && '/' in item.path && DropLastSegment(item.path, '/') !in st.nodeMap
    requires var parentPath := DropLastSegment(item.path, '/');
      var grandParentPath := DropLastSegment(parentPath, '/');
      '/' in parentPath && !(grandParentPath in st.nodeMap && st.slots[st.nodeMap[grandParentPath]].isDir)
    ensures var r := Step(st, item);
      |r.slots| == |st.slots| + 2 &&
      forall s :: 0 <= s < |r.slots| ==> |st.slots| !in r.slots[s].children
  {
    var n := |st.slots|;
    var r := Step(st, item);
    StepNewParent(st, item);
    forall s | 0 <= s < |r.slots|
      ensures n !in r.slots[s].children
    {
      if s < n {
        assert r.slots[s] == r.slots[..n][s] == st.slots[s];
        assert forall k :: 0 <= k < |st.slots[s].children| ==> st.slots[s].children[k] < n;
      } else if s == n {
        assert r.slots[s].children == [n + 1];
      }
    }
  }

  /**
   * The round of an item whose parent path is not mapped creates a dir for the
   * parent path, holding the item's node, and maps the parent path to it.
   */
  lemma RoundNewParent(items: seq<TreeItem>, i: nat)
    requires i < |items| && '/' in items[i].path && DropLastSegment(items[i].path, '/') !in After(items, i).nodeMap
    ensures ParentCreated(After(items, i), After(items, i + 1), DropLastSegment(items[i].path, '/'))
    ensures ItemSlot(items, i) == |After(items, i).slots| + 1
  {
    StepCreatesParent(After(items, i), items[i]);
  }

  /** A round that creates a parent below a grandparent mapped to a dir pushes the parent there. */
  lemma StepParentUnderGrandparent(st: State, item: TreeItem, g: nat)
    requires Indexable(st) && '/' in item.path && DropLastSegment(item.path, '/') !in st.nodeMap
    requires var grandParentPath := DropLastSegment(DropLastSegment(item.path, '/'), '/');
      grandParentPath in st.nodeMap && g == st.nodeMap[grandParentPath] && st.slots[g].isDir
    ensures var r := Step(st, item);
      |r.slots| == |st.slots| + 2 && |st.slots| in r.slots[g].children
  {
    var n := |st.slots|;
    var r := Step(st, item);
    assert r.slots[g].children == st.slots[g].children + [n];
  }

  /**
   * The round of an item whose parent path is not mapped, where the
   * grandparent path is mapped to a dir, hangs the created parent below it.
   */
  lemma RoundParentUnderGrandparent(items: seq<TreeItem>, i: nat, g: nat)
    requires i < |items| && '/' in items[i].path && DropLastSegment(items[i].path, '/') !in After(items, i).nodeMap
    requires var grandParentPath := DropLastSegment(DropLastSegment(items[i].path, '/'), '/');
      grandParentPath in After(items, i).nodeMap && g == After(items, i).nodeMap[grandParentPath] &&
      After(items, i).slots[g].isDir
    ensures var after := After(items, i + 1); var id := ItemSlot(items, i);
      id == |After(items, i).slots| + 1 && g < |after.slots| && id - 1 in after.slots[g].children
  {
    var before := After(items, i);
    StepParentUnderGrandparent(before, items[i], g);
  }

  /** A round that creates a parent without `/` in its path, and no dir for the grandparent, pushes the parent into `root`. */
  lemma StepParentAtRoot(st: State, item: TreeItem)
    requires Indexable(st) && '/' in item.path && DropLastSegment(item.path, '/') !in st.nodeMap
    requires var parentPath := DropLastSegment(item.path, '/');
      var grandParentPath := DropLastSegment(parentPath, '/');
      '/' !in parentPath && !(grandParentPath in st.nodeMap && st.slots[st.nodeMap[grandParentPath]].isDir)
    ensures var r := Step(st, item);
      |r.slots| == |st.slots| + 2 && |st.slots| in r.slots[ROOT].children
  {
    var n := |st.slots|;
    var r := Step(st, item);
    assert r.slots[ROOT].children == st.slots[ROOT].children + [n];
  }

  /**
   * The round of an item whose parent path is not mapped, where the
   * grandparent path is not mapped to a dir and the parent path has no `/`,
   * hangs the created parent below the root.
   */
  lemma RoundParentAtRoot(items: seq<TreeItem>, i: nat)
    requires i < |items| && '/' in items[i].path && DropLastSegment(items[i].path, '/') !in After(items, i).nodeMap
    requires var before := After(items, i);
      var parentPath := DropLastSegment(items[i].path, '/');
      var grandParentPath := DropLastSegment(parentPath, '/');
      '/' !in parentPath && !(grandParentPath in before.nodeMap && before.slots[before.nodeMap[grandParentPath]].isDir)
    ensures var id := ItemSlot(items, i);
      id == |After(items, i).slots| + 1 && id - 1 in After(items, i + 1).slots[ROOT].children
  {
    var before := After(items, i);
    StepParentAtRoot(before, items[i]);
  }

  /**
   * A missing parent is made up as a dir with the parent path, and it holds
   * the item's node to the end.
   */
  lemma ItemUnderMissingParent(items: seq<TreeItem>, i: nat)
    requires i < |items| && '/' in items[i].path && DropLastSegment(items[i].path, '/') !in After(items, i).nodeMap
    ensures var last := After(items, |items|); var q := ItemSlot(items, i) - 1;
      q < |last.slots| && last.slots[q].path == DropLastSegment(items[i].path, '/') && last.slots[q].isDir &&
      ItemSlot(items, i) in last.slots[q].children
  {
    RoundNewParent(items, i);
    CreatedParentToEnd(items, i + 1, After(items, i), DropLastSegment(items[i].path, '/'));
  }

  /** A parent made up in some round keeps its path, its kind and the node it was made for to the end. */
  lemma CreatedParentToEnd(items: seq<TreeItem>, j: nat, before: State, parentPath: string)
    requires j <= |items| && ParentCreated(before, After(items, j), parentPath)
    ensures var last := After(items, |items|); var n := |before.slots|;
      n < |last.slots| && last.slots[n].path == parentPath && last.slots[n].isDir && n + 1 in last.slots[n].children
  {
    var n := |before.slots|;
    ChildToEnd(items, j, n, n + 1);
  }

  /**
   * The made-up parent hangs below the grandparent path's node when, at the
   * time, that path is mapped to a dir (the root placeholder `""` included).
   */
  lemma MissingParentUnderGrandparent(items: seq<TreeItem>, i: nat, g: nat)
    requires i < |items| && '/' in items[i].path && DropLastSegment(items[i].path, '/') !in After(items, i).nodeMap
    requires var grandParentPath := DropLastSegment(DropLastSegment(items[i].path, '/'), '/');
      grandParentPath in After(items, i).nodeMap && g == After(items, i).nodeMap[grandParentPath] &&
      After(items, i).slots[g].isDir
    ensures g < |After(items, |items|).slots| && ItemSlot(items, i) - 1 in After(items, |items|).slots[g].children
  {
    RoundParentUnderGrandparent(items, i, g);
    MemberToEnd(items, i + 1, g, ItemSlot(items, i) - 1);
  }

  /**
   * Otherwise a made-up parent whose path has no `/` hangs below the root
   * (this only differs from the case above once `""` has been remapped).
   */
  lemma MissingParentAtRoot(items: seq<TreeItem>, i: nat)
    requires i < |items| && '/' in items[i].path && DropLastSegment(items[i].path, '/') !in After(items, i).nodeMap
    requires var before := After(items, i);
      var parentPath := DropLastSegment(items[i].path, '/');
      var grandParentPath := DropLastSegment(parentPath, '/');
      '/' !in parentPath && !(grandParentPath in before.nodeMap && before.slots[before.nodeMap[grandParentPath]].isDir)
    ensures ItemSlot(items, i) - 1 in After(items, |items|).slots[ROOT].children
  {
    var q := ItemSlot(items, i) - 1;
    RoundParentAtRoot(items, i);
    GrowsToEnd(items, i + 1);
    GrowsKeepsChild(After(items, i + 1), After(items, |items|), ROOT, q);
  }

  /** The round that makes up a parent it cannot hang anywhere leaves it nobody's child. */
  lemma RoundNewParentUnattached(items: seq<TreeItem>, i: nat)
    requires i < |items| && '/' in items[i].path && DropLastSegment(items[i].path, '/') !in After(items, i).nodeMap
    requires var before := After(items, i);
      var parentPath := DropLastSegment(items[i].path, '/');
      var grandParentPath := DropLastSegment(parentPath, '/');
      '/' in parentPath && !(grandParentPath in before.nodeMap && before.slots[before.nodeMap[grandParentPath]].isDir)
    ensures var after := After(items, i + 1); var q := ItemSlot(items, i) - 1;
      0 <= q < |after.slots| && forall s :: 0 <= s < |after.slots| ==> q !in after.slots[s].children
  {
    AfterValid(items, i);
    StepNewParentUnattached(After(items, i), items[i]);
  }

  /**
   * Otherwise the made-up parent hangs nowhere, now or later: only one level
   * of missing ancestors is made up, and everything below it is cut off.
   */
  lemma MissingParentUnattached(items: seq<TreeItem>, i: nat)
    requires i < |items| && '/' in items[i].path && DropLastSegment(items[i].path, '/') !in After(items, i).nodeMap
    requires var before := After(items, i);
      var parentPath := DropLastSegment(items[i].path, '/');
      var grandParentPath := DropLastSegment(parentPath, '/');
      '/' in parentPath && !(grandParentPath in before.nodeMap && before.slots[before.nodeMap[grandParentPath]].isDir)
    ensures forall s :: 0 <= s < |After(items, |items|).slots| ==> ItemSlot(items, i) - 1 !in After(items, |items|).slots[s].children
  {
    var after := After(items, i + 1);
    var q := ItemSlot(items, i) - 1;
    assert 0 <= q < |after.slots| && forall s :: 0 <= s < |after.slots| ==> q !in after.slots[s].children by {
      RoundNewParentUnattached(items, i);
    }
    OrphanToEnd(items, i + 1, q);
  }

  /**
   * Children arrays list nodes in input order, never sorted: when the nodes of
   * two items sit in the same children array, the earlier item comes first.
   */
  lemma SiblingsInInputOrder(items: seq<TreeItem>, i: nat, j: nat, s: nat, a: nat, b: nat)
    requires i < j < |items| && s < |After(items, |items|).slots|
    requires a < |After(items, |items|).slots[s].children| && b < |After(items, |items|).slots[s].children|
    requires After(items, |items|).slots[s].children[a] == ItemSlot(items, i)
    requires After(items, |items|).slots[s].children[b] == ItemSlot(items, j)
    ensures a < b
  {
    AfterValid(items, |items|);
    ItemSlotsIncrease(items, i, j);
  }

  /**
   * The output object of an item's node: its path is the item's path, and a
   * `blob` becomes a `file` without `children`, anything else a `dir` with them.
   */
  lemma ItemFileNode(items: seq<TreeItem>, i: nat)
    requires i < |items|
    ensures var last := After(items, |items|);
      Valid(last) && ItemSlot(items, i) < |last.slots| &&
      Tree(last.slots, ItemSlot(items, i)).path == items[i].path &&
      (items[i].kind == "blob" <==> Tree(last.slots, ItemSlot(items, i)).nodeType == File) &&
      (items[i].kind == "blob" <==> Tree(last.slots, ItemSlot(items, i)).children == None)
  {
    AfterValid(items, |items|);
    ItemNode(items, i);
  }

  /** An item without `/` shows up in the returned `root` array. */
  lemma TopLevelItemInOutput(items: seq<TreeItem>, i: nat)
    requires i < |items| && '/' !in items[i].path
    ensures var last := After(items, |items|);
      Valid(last) && ItemSlot(items, i) < |last.slots| && Tree(last.slots, ItemSlot(items, i)) in Output(last)
  {
    var last := After(items, |items|);
    AfterValid(items, |items|);
    ItemNode(items, i);
    TopLevelItemAtRoot(items, i);
    var k :| 0 <= k < |last.slots[ROOT].children| && last.slots[ROOT].children[k] == ItemSlot(items, i);
    assert Output(last)[k] == Tree(last.slots, ItemSlot(items, i));
  }

  /** The parent and grandparent paths of `a/b/c.txt`. */
  lemma DeepPathParents()
    ensures '/' in "a/b/c.txt" && DropLastSegment("a/b/c.txt", '/') == "a/b"
    ensures '/' in "a/b" && DropLastSegment("a/b", '/') == "a"
  {
    LastSegmentAfter("a/b", '/', "c.txt");
    assert "a/b" + ['/'] + "c.txt" == "a/b/c.txt";
    LastSegmentAfter("a", '/', "b");
    assert "a" + ['/'] + "b" == "a/b";
  }

  /** The parent and grandparent paths of `a/x`. */
  lemma ShallowPathParents()
    ensures '/' in "a/x" && DropLastSegment("a/x", '/') == "a"
    ensures '/' !in "a" && DropLastSegment("a", '/') == ""
  {
    LastSegmentAfter("a", '/', "x");
    assert "a" + ['/'] + "x" == "a/x";
  }

  /**
   * `a/b/c.txt` alone: the parent `a/b` is made up, but `a` is not mapped, so
   * nothing reaches the root and the returned array is empty.
   */
  lemma DeepOrphanExample()
    ensures var last := After([TreeItem("a/b/c.txt", "blob")], 1);
      Valid(last) && Output(last) == []
  {
    var items := [TreeItem("a/b/c.txt", "blob")];
    AfterValid(items, 0);
    AfterValid(items, 1);
    DeepPathParents();
    assert After(items, 0) == INITIAL;
    StepNewParent(INITIAL, items[0]);
    var last := After(items, 1);
    assert last.slots[..1][ROOT] == INITIAL.slots[ROOT];
  }

  /**
   * `a/x` then `a`, node by node: a dir `a` is made up below the root holding
   * `a/x`, then a second dir `a` is added to the root and `a` remapped to it.
   */
  lemma DuplicateDirArena()
    ensures var last := After([TreeItem("a/x", "blob"), TreeItem("a", "tree")], 2);
      Valid(last) && |last.slots| == 4 && last.slots[ROOT].children == [1, 3] &&
      last.slots[1] == Slot("a", true, [2]) && last.slots[2] == Slot("a/x", false, []) &&
      last.slots[3] == Slot("a", true, []) && last.nodeMap["a"] == 3
  {
    var items := [TreeItem("a/x", "blob"), TreeItem("a", "tree")];
    AfterValid(items, 0);
    AfterValid(items, 1);
    AfterValid(items, 2);
    ShallowPathParents();
    assert After(items, 0) == INITIAL;
    StepNewParent(INITIAL, items[0]);
    var mid := After(items, 1);
    assert mid.slots[ROOT].children == [1];
    StepTopLevel(mid, items[1]);
    StepItemNode(mid, items[1]);
  }

  /** The output of an arena shaped like the one `a/x` then `a` builds. */
  lemma DuplicateDirOutput(st: State)
    requires Valid(st) && |st.slots| == 4 && st.slots[ROOT].children == [1, 3]
    requires st.slots[1] == Slot("a", true, [2]) && st.slots[2] == Slot("a/x", false, []) && st.slots[3] == Slot("a", true, [])
    ensures Output(st) == [FileNode("a", Dir, Some([FileNode("a/x", File, None)])), FileNode("a", Dir, Some([]))]
  {
    var slots := st.slots;
    assert Tree(slots, 2) == FileNode("a/x", File, None);
    assert Subtrees(slots, 1, [2]) == [Tree(slots, 2)];
    assert Tree(slots, 1) == FileNode("a", Dir, Some([FileNode("a/x", File, None)]));
    assert Tree(slots, 3) == FileNode("a", Dir, Some([]));
    assert Subtrees(slots, ROOT, [1, 3]) == [Tree(slots, 1), Tree(slots, 3)];
  }

  /**
   * `a/x` then `a`: the returned array holds two sibling dirs named `a`, the
   * first holding the file `a/x`, the second empty.
   */
  lemma DuplicateDirExample()
    ensures var last := After([TreeItem("a/x", "blob"), TreeItem("a", "tree")], 2);
      Valid(last) &&
      Output(last) == [FileNode("a", Dir, Some([FileNode("a/x", File, None)])), FileNode("a", Dir, Some([]))]
  {
    DuplicateDirArena();
    DuplicateDirOutput(After([TreeItem("a/x", "blob"), TreeItem("a", "tree")], 2));
  }
}
