/**
 Whole extent trees (src/readwrite.rs:241-289): recursive flattening into a list of leaves, and the blocks a tree uses.
 A tree is read through `blocks`, the readable blocks of the device by number.
 */
module ExtentTree {
  import opened Bytes
  import opened Wrappers
  import opened Extent
  import opened InodeRecord

  type Blocks = map<nat, seq<byte>>

  function Resolve(blocks: Blocks, node: seq<byte>, depth: nat): Result<seq<ExtentLeaf>>
    decreases depth, 0
  {
    if depth == 0 then Ok(Leaves(node)) else ResolveChildren(blocks, Indices(node), depth - 1)
  }

  function ResolveChildren(blocks: Blocks, indices: seq<ExtentIndex>, depth: nat): Result<seq<ExtentLeaf>>
    decreases depth, 1 + |indices|
  {
    if indices == [] then Ok([])
    else
      var last := |indices| - 1;
      match ResolveChildren(blocks, indices[..last], depth)
      case Err(e) => Err(e)
      case Ok(before) =>
        var child := indices[last].PhysicalBlock();
        if child !in blocks then Err(IoError)
        else
          match Resolve(blocks, blocks[child], depth)
          case Err(e) => Err(e)
          case Ok(leaves) => Ok(before + leaves)
  }

  function ResolveExtents(blocks: Blocks, n: Inode): Result<seq<ExtentLeaf>> {
    if !n.UsesExtents() then Err(UnsupportedFeature)
    else match n.Header()
    case None => Err(Corrupt)
    case Some(h) => if h.IsLeaf() then Ok(Leaves(n.iBlock)) else Resolve(blocks, n.iBlock, h.depth)
  }

  /** Children are resolved in order, up to the first that fails. */
  lemma {:induction false} ChildErrorSticks(blocks: Blocks, indices: seq<ExtentIndex>, n: nat, depth: nat)
    requires n <= |indices|
    ensures ResolveChildren(blocks, indices[..n], depth).Err? ==>
      ResolveChildren(blocks, indices, depth) == ResolveChildren(blocks, indices[..n], depth)
    decreases |indices|
  {
    hide Resolve;
    if n == |indices| {
      assert indices[..n] == indices;
    } else {
      assert indices[..|indices| - 1][..n] == indices[..n];
      ChildErrorSticks(blocks, indices[..|indices| - 1], n, depth);
    }
  }

  lemma {:induction false} OnlyIoErrors(blocks: Blocks, node: seq<byte>, depth: nat)
    ensures Resolve(blocks, node, depth).Err? ==> Resolve(blocks, node, depth).error == IoError
    decreases depth, 0
  {
    hide Leaves, Indices;
    if depth > 0 {
      OnlyIoErrorsBelow(blocks, Indices(node), depth - 1);
    }
  }

  lemma {:induction false} OnlyIoErrorsBelow(blocks: Blocks, indices: seq<ExtentIndex>, depth: nat)
    ensures ResolveChildren(blocks, indices, depth).Err? ==> ResolveChildren(blocks, indices, depth).error == IoError
    decreases depth, 1 + |indices|
  {
    hide ExtentIndex.PhysicalBlock;
    if indices != [] {
      var last := |indices| - 1;
      OnlyIoErrorsBelow(blocks, indices[..last], depth);
      if indices[last].PhysicalBlock() in blocks {
        OnlyIoErrors(blocks, blocks[indices[last].PhysicalBlock()], depth);
      }
    }
  }

  /** Which error means what: no extents flag, no header, a node that cannot be read. `NotFound` is none of them. */
  lemma ResolveErrors(blocks: Blocks, n: Inode)
    ensures ResolveExtents(blocks, n) == Err(UnsupportedFeature) <==> !n.UsesExtents()
    ensures ResolveExtents(blocks, n) == Err(Corrupt) <==> n.UsesExtents() && HeaderAt(n.iBlock, 0) == None
    ensures ResolveExtents(blocks, n).Err? ==> ResolveExtents(blocks, n).error in [UnsupportedFeature, Corrupt, IoError]
  {
    hide Resolve, Leaves, HeaderAt;
    match n.Header()
    case Some(h) => OnlyIoErrors(blocks, n.iBlock, h.depth);
    case None =>
  }

  /** The blocks that hold the nodes below `node`. */
  ghost function Nodes(blocks: Blocks, node: seq<byte>, depth: nat): set<nat>
    decreases depth, 0
  {
    if depth == 0 then {} else ChildNodes(blocks, Indices(node), depth - 1)
  }

  ghost function ChildNodes(blocks: Blocks, indices: seq<ExtentIndex>, depth: nat): set<nat>
    decreases depth, 1 + |indices|
  {
    if indices == [] then {}
    else
      var last := |indices| - 1;
      var child := indices[last].PhysicalBlock();
      ChildNodes(blocks, indices[..last], depth) + {child} + if child in blocks then Nodes(blocks, blocks[child], depth)
        else {}
  }

  ghost predicate SameOn(a: Blocks, b: Blocks, s: set<nat>) {
    forall k | k in s :: (k in a <==> k in b) && (k in a ==> a[k] == b[k])
  }

  /** A tree depends on nothing but the blocks of its nodes. */
  lemma {:induction false} ResolveFrame(a: Blocks, b: Blocks, node: seq<byte>, depth: nat)
    requires SameOn(a, b, Nodes(a, node, depth))
    ensures Resolve(a, node, depth) == Resolve(b, node, depth) && Nodes(a, node, depth) == Nodes(b, node, depth)
    decreases depth, 0
  {
    if depth > 0 {
      ChildrenFrame(a, b, Indices(node), depth - 1);
    }
  }

  lemma {:induction false} ChildrenFrame(a: Blocks, b: Blocks, indices: seq<ExtentIndex>, depth: nat)
    requires SameOn(a, b, ChildNodes(a, indices, depth))
    ensures ResolveChildren(a, indices, depth) == ResolveChildren(b, indices, depth)
    ensures ChildNodes(a, indices, depth) == ChildNodes(b, indices, depth)
    decreases depth, 1 + |indices|
  {
    if indices != [] {
      var last := |indices| - 1;
      var child := indices[last].PhysicalBlock();
      ChildrenFrame(a, b, indices[..last], depth);
      assert child in ChildNodes(a, indices, depth);
      if child in a {
        ResolveFrame(a, b, a[child], depth);
      }
    }
  }

  // --- Well-formed trees ---

  /** Leaves in order, without overlap, and inside the logical range [lo, hi). */
  ghost predicate OrderedLeaves(leaves: seq<ExtentLeaf>, lo: nat, hi: nat) {
    && (forall k :: 0 <= k < |leaves| ==>
      lo <= leaves[k].block && leaves[k].block + leaves[k].BlockCount() <= hi && hi < TWO32)
    && (forall j, k :: 0 <= j < k < |leaves| ==> leaves[j].block + leaves[j].BlockCount() <= leaves[k].block)
  }

  /** Where the range of child `k` ends: at the next key, or where the node's own range ends. */
  ghost function ChildEnd(indices: seq<ExtentIndex>, k: nat, hi: nat): nat
    requires k < |indices|
  {
    if k + 1 < |indices| then indices[k + 1].block else hi
  }

  ghost predicate WellFormed(blocks: Blocks, node: seq<byte>, depth: nat, lo: nat, hi: nat)
    decreases depth
  {
    if depth == 0 then OrderedLeaves(Leaves(node), lo, hi)
    else
      var indices := Indices(node);
      && SortedIndices(indices)
      && lo <= hi < TWO32
      && forall k :: 0 <= k < |indices| ==>
        && lo <= indices[k].block <= hi
        && indices[k].PhysicalBlock() in blocks
        && WellFormed(blocks, blocks[indices[k].PhysicalBlock()], depth - 1, indices[k].block, ChildEnd(indices, k, hi))
  }

  lemma EmptyOrdered(lo: nat, hi: nat)
    ensures OrderedLeaves([], lo, hi)
  {
  }

  lemma OrderedConcat(a: seq<ExtentLeaf>, b: seq<ExtentLeaf>, lo: nat, mid: nat, hi: nat)
    requires OrderedLeaves(a, lo, mid) && OrderedLeaves(b, mid, hi) && lo <= mid <= hi < TWO32
    ensures OrderedLeaves(a + b, lo, hi)
  {
    var c := a + b;
    forall k | 0 <= k < |c|
      ensures lo <= c[k].block && c[k].block + c[k].BlockCount() <= hi
    {
      assert c[k] == if k < |a| then a[k] else b[k - |a|];
    }
    forall j, k | 0 <= j < k < |c|
      ensures c[j].block + c[j].BlockCount() <= c[k].block
    {
      assert c[j] == if j < |a| then a[j] else b[j - |a|];
      assert c[k] == if k < |a| then a[k] else b[k - |a|];
    }
  }

  /** Flattening a well-formed tree succeeds and yields its leaves in order and disjoint, whatever the depth. */
  lemma {:induction false} FlattenOrdered(blocks: Blocks, node: seq<byte>, depth: nat, lo: nat, hi: nat)
    requires WellFormed(blocks, node, depth, lo, hi)
    ensures Resolve(blocks, node, depth).Ok? && OrderedLeaves(Resolve(blocks, node, depth).value, lo, hi)
    decreases depth, 0
  {
    if depth > 0 {
      FlattenChildren(blocks, node, depth, lo, hi, |Indices(node)|);
      assert Indices(node)[..|Indices(node)|] == Indices(node);
    }
  }

  /** One more child appends its leaves. */
  lemma ResolveOneMore(blocks: Blocks, indices: seq<ExtentIndex>, n: nat, depth: nat)
    requires n < |indices| && indices[n].PhysicalBlock() in blocks
    requires ResolveChildren(blocks, indices[..n], depth).Ok?
    requires Resolve(blocks, blocks[indices[n].PhysicalBlock()], depth).Ok?
    ensures ResolveChildren(blocks, indices[..n + 1], depth)
            == Ok(ResolveChildren(blocks, indices[..n], depth).value
              + Resolve(blocks, blocks[indices[n].PhysicalBlock()], depth).value)
  {
    hide Indices, Leaves, Resolve;
    assert indices[..n + 1][..n] == indices[..n];
  }

  lemma ChildIsWellFormed(blocks: Blocks, node: seq<byte>, depth: nat, lo: nat, hi: nat, k: nat)
    requires depth > 0 && WellFormed(blocks, node, depth, lo, hi) && k < |Indices(node)|
    ensures Indices(node)[k].PhysicalBlock() in blocks
      && lo <= Indices(node)[k].block <= ChildEnd(Indices(node), k, hi) <= hi < TWO32
    ensures WellFormed(blocks, blocks[Indices(node)[k].PhysicalBlock()], depth - 1, Indices(node)[k].block,
                       ChildEnd(Indices(node), k, hi))
    ensures k > 0 ==> ChildEnd(Indices(node), k - 1, hi) == Indices(node)[k].block
    ensures forall j :: k < j < |Indices(node)| ==> ChildEnd(Indices(node), k, hi) <= Indices(node)[j].block
  {
    hide Indices, Leaves, OrderedLeaves;
    assert SortedIndices(Indices(node));
  }

  lemma {:induction false} FlattenChildren(blocks: Blocks, node: seq<byte>, depth: nat, lo: nat, hi: nat, n: nat)
    requires depth > 0 && WellFormed(blocks, node, depth, lo, hi) && n <= |Indices(node)|
    ensures ResolveChildren(blocks, Indices(node)[..n], depth - 1).Ok?
    ensures OrderedLeaves(ResolveChildren(blocks, Indices(node)[..n], depth - 1).value, lo,
                          if n == 0 then lo else ChildEnd(Indices(node), n - 1, hi))
    decreases depth - 1, 1 + n
  {
    hide Indices, Leaves, OrderedLeaves, WellFormed, Resolve, ResolveChildren, ChildEnd;
    var indices := Indices(node);
    NoChildren(blocks, indices, depth - 1);
    EmptyOrdered(lo, lo);
    if n > 0 {
      var k := n - 1;
      FlattenChildren(blocks, node, depth, lo, hi, k);
      ChildIsWellFormed(blocks, node, depth, lo, hi, k);
      var child := blocks[indices[k].PhysicalBlock()];
      FlattenOrdered(blocks, child, depth - 1, indices[k].block, ChildEnd(indices, k, hi));
      ResolveOneMore(blocks, indices, k, depth - 1);
      var before := ResolveChildren(blocks, indices[..k], depth - 1).value;
      if k == 0 {
        EmptyOrdered(lo, indices[0].block);
        assert OrderedLeaves(before, lo, indices[k].block);
      }
      OrderedConcat(before, Resolve(blocks, child, depth - 1).value, lo, indices[k].block, ChildEnd(indices, k, hi));
    }
  }

  lemma NoChildren(blocks: Blocks, indices: seq<ExtentIndex>, depth: nat)
    ensures ResolveChildren(blocks, indices[..0], depth) == Ok([])
  {
  }

  /** Descending one child per level, the way `find_index_for_block` is meant to be used. */
  ghost function Descend(blocks: Blocks, node: seq<byte>, depth: nat, b: u32): Option<ExtentLeaf>
    decreases depth
  {
    if depth == 0 then FindLeaf(Leaves(node), b)
    else
      match IndexFor(Indices(node), b)
      case None => None
      case Some(k) =>
        var child := Indices(node)[k].PhysicalBlock();
        if child in blocks then Descend(blocks, blocks[child], depth - 1, b) else None
  }

  lemma NoLeaf(b: u32)
    ensures FindLeaf([], b) == None
  {
  }

  lemma NotCovered(leaves: seq<ExtentLeaf>, lo: nat, hi: nat, b: u32)
    requires OrderedLeaves(leaves, lo, hi) && (b < lo || hi <= b)
    ensures FindLeaf(leaves, b) == None
  {
    forall k | 0 <= k < |leaves|
      ensures !leaves[k].ContainsBlock(b)
    {
      assert lo <= leaves[k].block;
    }
  }

  /** In a well-formed tree, descending by index finds the leaf that scanning all flattened leaves finds. */
  lemma {:induction false} DescentAgreesWithScan(blocks: Blocks, node: seq<byte>, depth: nat, lo: nat, hi: nat, b: u32)
    requires WellFormed(blocks, node, depth, lo, hi)
    ensures Resolve(blocks, node, depth).Ok?
    ensures Descend(blocks, node, depth, b) == FindLeaf(Resolve(blocks, node, depth).value, b)
    decreases depth, 0
  {
    FlattenOrdered(blocks, node, depth, lo, hi);
    if depth > 0 {
      ScanOfChildren(blocks, node, depth, lo, hi, b, |Indices(node)|);
      assert Indices(node)[..|Indices(node)|] == Indices(node);
    }
  }

  /** Among the leaves under the first `n` children only those of the child chosen for `b` can cover it. */
  lemma {:induction false} ScanOfChildren(blocks: Blocks, node: seq<byte>, depth: nat, lo: nat, hi: nat, b: u32, n: nat)
    requires depth > 0 && WellFormed(blocks, node, depth, lo, hi) && n <= |Indices(node)|
    ensures ResolveChildren(blocks, Indices(node)[..n], depth - 1).Ok?
    ensures FindLeaf(ResolveChildren(blocks, Indices(node)[..n], depth - 1).value, b)
            == match IndexFor(Indices(node), b)
               case Some(k) =>
                 if k < n then Descend(blocks, blocks[Indices(node)[k].PhysicalBlock()], depth - 1, b) else None
               case None => None
    decreases depth - 1, 1 + n
  {
    hide Indices, Leaves, OrderedLeaves, FindLeaf, IndexFor, WellFormed, Resolve, ResolveChildren, Descend, ChildEnd;
    var indices := Indices(node);
    NoChildren(blocks, indices, depth - 1);
    NoLeaf(b);
    if n > 0 {
      var k := n - 1;
      FlattenChildren(blocks, node, depth, lo, hi, k);
      ScanOfChildren(blocks, node, depth, lo, hi, b, k);
      ChildIsWellFormed(blocks, node, depth, lo, hi, k);
      var child := blocks[indices[k].PhysicalBlock()];
      FlattenOrdered(blocks, child, depth - 1, indices[k].block, ChildEnd(indices, k, hi));
      ResolveOneMore(blocks, indices, k, depth - 1);
      var before := ResolveChildren(blocks, indices[..k], depth - 1).value;
      var leaves := Resolve(blocks, child, depth - 1).value;
      FindLeafConcat(before, leaves, b);
      if IndexFor(indices, b) == Some(k) {
        DescentAgreesWithScan(blocks, child, depth - 1, indices[k].block, ChildEnd(indices, k, hi), b);
      } else {
        NotCovered(leaves, indices[k].block, ChildEnd(indices, k, hi), b);
      }
    }
  }

  /** In ordered leaves at most one leaf covers a block, so the first match is the tree's logical-to-physical map. */
  lemma {:induction false} FirstMatchIsOnlyMatch(leaves: seq<ExtentLeaf>, lo: nat, hi: nat, k: nat, b: u32)
    requires OrderedLeaves(leaves, lo, hi) && k < |leaves| && leaves[k].ContainsBlock(b)
    ensures FindLeaf(leaves, b) == Some(leaves[k])
    ensures MapLogical(leaves, b) == Some(leaves[k].PhysicalStart() + (b - leaves[k].block))
  {
    hide ExtentLeaf.PhysicalStart, ExtentLeaf.BlockCount;
    if k > 0 {
      assert leaves[0].block + leaves[0].BlockCount() <= leaves[k].block;
      assert !leaves[0].ContainsBlock(b);
      FirstMatchIsOnlyMatch(leaves[1..], lo, hi, k - 1, b);
    }
  }
}
