/**
 * The point octree: internal nodes hold a split point and eight child
 * links, leaves hold a point. Nodes live in an arena (a sequence) and a
 * child link is an arena index, `None` being the null pointer. Every node
 * carries a ghost depth so that the arena can be checked to be layered,
 * its internal levels above the leaf level (`ValidArena`); `TreeShaped`
 * states that its links form a tree rooted at node 0.
 */
module Octrees {
  import opened Wrappers
  import opened Matrix

  /** A node: the `Internal` arm of the union (split point, eight children) or the `Leaf` arm (a point). */
  datatype Node = Internal(split: Vec3, children: seq<Option<nat>>) | Leaf(point: Vec3)

  /** Eight null child links. */
  const NoChildren: seq<Option<nat>> := [None, None, None, None, None, None, None, None]

  /** `Node::Node`: a node whose eight child links are all null; its split is set by the caller. */
  method NewNode() returns (n: Node)
    ensures n.Internal? && |n.children| == 8
    ensures forall k :: 0 <= k < 8 ==> n.children[k] == None
  {
    var slots := new Option<nat>[8];
    for i := 0 to 8
      invariant forall k :: 0 <= k < i ==> slots[k] == None
    {
      slots[i] := None;
    }
    var unset: Vec3 := *;
    n := Internal(unset, slots[..]);
  }

  // ---------------------------------------------------------------------
  // Octant addressing
  // ---------------------------------------------------------------------

  /** The octant of `p` around `s`: bit 0b100 for x, 0b010 for y, 0b001 for z, set when `p` is not below. */
  function Address(p: Vec3, s: Vec3): (a: bv8)
    ensures a < 8
    ensures a & 4 != 0 <==> p.x >= s.x
    ensures a & 2 != 0 <==> p.y >= s.y
    ensures a & 1 != 0 <==> p.z >= s.z
  {
    (if p.x >= s.x then 4 else 0) | (if p.y >= s.y then 2 else 0) | (if p.z >= s.z then 1 else 0)
  }

  /**
   * The child split as the code writes it: `address && 0b100` is a logical
   * and, true whenever the address is nonzero, so all three axes move the
   * same way: down for octant 0, up for every other octant.
   */
  function ChildSplitAsWritten(s: Vec3, a: bv8, shift: real): (r: Vec3)
    ensures r.x - s.x == r.y - s.y == r.z - s.z == (if a == 0 then -shift else shift)
  {
    var d := if a != 0 then shift else -shift;
    Vec3(s.x + d, s.y + d, s.z + d)
  }

  /** The child split as intended: each axis moves by `shift` towards the side its address bit names. */
  function ChildSplit(s: Vec3, a: bv8, shift: real): (r: Vec3)
    ensures r.x - s.x == (if a & 4 != 0 then shift else -shift)
    ensures r.y - s.y == (if a & 2 != 0 then shift else -shift)
    ensures r.z - s.z == (if a & 1 != 0 then shift else -shift)
  {
    Vec3(s.x + (if a & 4 != 0 then shift else -shift),
         s.y + (if a & 2 != 0 then shift else -shift),
         s.z + (if a & 1 != 0 then shift else -shift))
  }

  /** The intended child centre lies in the octant of the point that created it, on every axis. */
  lemma ChildSplitSameOctant(p: Vec3, s: Vec3, shift: real)
    requires shift > 0.0
    ensures var c := ChildSplit(s, Address(p, s), shift);
            (c.x > s.x <==> p.x >= s.x) && (c.y > s.y <==> p.y >= s.y) && (c.z > s.z <==> p.z >= s.z)
  {
  }

  /**
   * The code as written puts the child of octant 0b001 (below on x and y,
   * above on z) at +shift on all three axes, so its centre is above the
   * split on x and y although the point is below.
   */
  lemma AsWrittenMisplacesChild()
    ensures var p, s := Vec3(-1.0, -1.0, 1.0), Zero3;
            Address(p, s) == 1 &&
            ChildSplitAsWritten(s, Address(p, s), 1.0) == Vec3(1.0, 1.0, 1.0) &&
            p.x < s.x && ChildSplitAsWritten(s, Address(p, s), 1.0).x > s.x &&
            ChildSplit(s, Address(p, s), 1.0) == Vec3(-1.0, -1.0, 1.0)
  {
    var p, s := Vec3(-1.0, -1.0, 1.0), Zero3;
    assert Address(p, s) == 1;
  }

  // ---------------------------------------------------------------------
  // The arena and the insertion it specifies
  // ---------------------------------------------------------------------

  /**
   * A well-formed arena: the root is node 0 at depth 0; internal nodes have
   * eight links; every link points to a node one level deeper, never below
   * the leaf level `levels`; every node above the leaf level is internal.
   */
  predicate ValidArena(nodes: seq<Node>, depth: seq<nat>, levels: int)
  {
    |nodes| == |depth| && 0 < |nodes| && depth[0] == 0 &&
    (forall i :: 0 <= i < |nodes| && depth[i] < levels ==> nodes[i].Internal?) &&
    (forall i :: 0 <= i < |nodes| && nodes[i].Internal? ==> |nodes[i].children| == 8) &&
    (forall i, k :: 0 <= i < |nodes| && nodes[i].Internal? && 0 <= k < |nodes[i].children| && nodes[i].children[k].Some? ==>
       nodes[i].children[k].value < |nodes| && depth[nodes[i].children[k].value] == depth[i] + 1 <= levels)
  }

  /** `side / 2^i`: the cube side after `i` halvings. */
  function Pow2(i: nat): (r: real)
    ensures r > 0.0
  {
    if i == 0 then 1.0 else 2.0 * Pow2(i - 1)
  }

  /** The side length at level `i` of a tree whose root cube has side `side`. */
  function SideAt(side: real, i: nat): real
  {
    side / Pow2(i)
  }

  lemma HalveSide(side: real, i: nat)
    ensures SideAt(side, i) / 2.0 == SideAt(side, i + 1)
  {
    var q := Pow2(i);
    assert Pow2(i + 1) == 2.0 * q;
    assert side / q / 2.0 == side / (2.0 * q);
  }

  /** The arena after linking a fresh child of `n` in slot `a` and appending it. */
  function Attach(nodes: seq<Node>, n: nat, a: nat, child: Node): seq<Node>
    requires n < |nodes| && nodes[n].Internal? && a < |nodes[n].children|
  {
    nodes[n := nodes[n].(children := nodes[n].children[a := Some(|nodes|)])] + [child]
  }

  /** Attaching a fresh internal child one level below an internal node above the leaf level keeps the arena well formed. */
  lemma AttachValid(nodes: seq<Node>, depth: seq<nat>, levels: int, n: nat, a: nat, split: Vec3)
    requires ValidArena(nodes, depth, levels) && n < |nodes| && depth[n] < levels && a < 8
    requires nodes[n].Internal? && nodes[n].children[a].None?
    ensures ValidArena(Attach(nodes, n, a, Internal(split, NoChildren)), depth + [depth[n] + 1], levels)
  {
    var nodes' := Attach(nodes, n, a, Internal(split, NoChildren));
    var depth' := depth + [depth[n] + 1];
    assert nodes'[|nodes|].children == NoChildren;
    forall i, k | 0 <= i < |nodes'| && nodes'[i].Internal? && 0 <= k < |nodes'[i].children| && nodes'[i].children[k].Some?
      ensures nodes'[i].children[k].value < |nodes'| && depth'[nodes'[i].children[k].value] == depth'[i] + 1 <= levels
    {
      if i < |nodes| && (i != n || k != a) {
        assert nodes'[i].children[k] == nodes[i].children[k];
      }
    }
  }

  /** What one insertion leaves: the new arena and depths, and the arena index of the leaf it wrote. */
  datatype Insertion = Insertion(nodes: seq<Node>, depth: seq<nat>, terminal: nat)

  /**
   * The insertion `add_point` performs, from node `n` at level `i`: above
   * the leaf level, pick the octant, create its child when the link is
   * null (split shifted by a quarter of the current side, by the rule the
   * code writes, `ChildSplitAsWritten`), and descend
   * with the side halved; at the leaf level, the node becomes `Leaf(p)`.
   */
  function InsertFrom(nodes: seq<Node>, depth: seq<nat>, levels: int, n: nat, i: nat, p: Vec3, side: real): Insertion
    requires ValidArena(nodes, depth, levels) && n < |nodes| && depth[n] == i
    decreases levels - i
  {
    if i >= levels then Insertion(nodes[n := Leaf(p)], depth, n)
    else
      var a := Address(p, nodes[n].split);
      match nodes[n].children[a as int]
      case Some(c) => InsertFrom(nodes, depth, levels, c, i + 1, p, side)
      case None =>
        var split := ChildSplitAsWritten(nodes[n].split, a, SideAt(side, i) / 4.0);
        AttachValid(nodes, depth, levels, n, a as int, split);
        InsertFrom(Attach(nodes, n, a as int, Internal(split, NoChildren)), depth + [i + 1], levels, |nodes|, i + 1, p, side)
  }

  /** The child `InsertFrom` creates below `n` when the octant's link is null. */
  function NewChild(nodes: seq<Node>, n: nat, i: nat, p: Vec3, side: real): Node
    requires n < |nodes| && nodes[n].Internal?
  {
    Internal(ChildSplitAsWritten(nodes[n].split, Address(p, nodes[n].split), SideAt(side, i) / 4.0), NoChildren)
  }

  /**
   * Through a null link, the insertion from `n` is the insertion from the
   * child it attaches, in a well-formed arena one node longer.
   */
  lemma InsertCreates(nodes: seq<Node>, depth: seq<nat>, levels: int, n: nat, i: nat, p: Vec3, side: real)
    requires ValidArena(nodes, depth, levels) && n < |nodes| && depth[n] == i && i < levels
    requires nodes[n].children[Address(p, nodes[n].split) as int].None?
    ensures var a := Address(p, nodes[n].split) as int;
            var nodes' := Attach(nodes, n, a, NewChild(nodes, n, i, p, side));
            ValidArena(nodes', depth + [i + 1], levels) &&
            InsertFrom(nodes, depth, levels, n, i, p, side) == InsertFrom(nodes', depth + [i + 1], levels, |nodes|, i + 1, p, side)
  {
    var a := Address(p, nodes[n].split);
    AttachValid(nodes, depth, levels, n, a as int, NewChild(nodes, n, i, p, side).split);
  }

  /** Turning a node on or below the leaf level into a leaf keeps the arena well formed. */
  lemma LeafValid(nodes: seq<Node>, depth: seq<nat>, levels: int, n: nat, p: Vec3)
    requires ValidArena(nodes, depth, levels) && n < |nodes| && depth[n] >= levels
    ensures ValidArena(nodes[n := Leaf(p)], depth, levels)
  {
    var nodes' := nodes[n := Leaf(p)];
    assert forall j, k :: 0 <= j < |nodes'| && nodes'[j].Internal? && 0 <= k < |nodes'[j].children| ==>
      j != n && nodes'[j].children[k] == nodes[j].children[k];
  }

  /** An insertion keeps the arena well formed, only appends nodes, and ends on the leaf level at a node holding `p`. */
  lemma {:induction false} InsertWellFormed(nodes: seq<Node>, depth: seq<nat>, levels: int, n: nat, i: nat, p: Vec3, side: real)
    requires ValidArena(nodes, depth, levels) && n < |nodes| && depth[n] == i
    ensures InsertShape(nodes, depth, levels, n, i, p, side)
    decreases levels - i, 1
  {
    if i >= levels {
      LeafValid(nodes, depth, levels, n, p);
    } else {
      var a := Address(p, nodes[n].split);
      match nodes[n].children[a as int]
      case Some(c) =>
        InsertWellFormed(nodes, depth, levels, c, i + 1, p, side);
      case None =>
        InsertWellFormedCreating(nodes, depth, levels, n, i, p, side);
    }
  }

  /** The shape of an insertion result: well formed, grown only at the end, with `p` in a leaf on the leaf level. */
  predicate InsertShape(nodes: seq<Node>, depth: seq<nat>, levels: int, n: nat, i: nat, p: Vec3, side: real)
    requires ValidArena(nodes, depth, levels) && n < |nodes| && depth[n] == i
  {
    var r := InsertFrom(nodes, depth, levels, n, i, p, side);
    ValidArena(r.nodes, r.depth, levels) &&
    |nodes| <= |r.nodes| && r.depth[..|depth|] == depth &&
    r.terminal < |r.nodes| && r.nodes[r.terminal] == Leaf(p) &&
    r.depth[r.terminal] == (if levels > i then levels else i)
  }

  /** The shape step through a child the insertion creates. */
  lemma {:induction false} InsertWellFormedCreating(nodes: seq<Node>, depth: seq<nat>, levels: int, n: nat, i: nat, p: Vec3, side: real)
    requires ValidArena(nodes, depth, levels) && n < |nodes| && depth[n] == i && i < levels
    requires nodes[n].children[Address(p, nodes[n].split) as int].None?
    ensures InsertShape(nodes, depth, levels, n, i, p, side)
    decreases levels - i, 0
  {
    var nodes' := Attach(nodes, n, Address(p, nodes[n].split) as int, NewChild(nodes, n, i, p, side));
    var depth' := depth + [i + 1];
    InsertCreates(nodes, depth, levels, n, i, p, side);
    InsertWellFormed(nodes', depth', levels, |nodes|, i + 1, p, side);
    var r := InsertFrom(nodes', depth', levels, |nodes|, i + 1, p, side);
    assert r.depth[..|depth|] == (r.depth[..|depth'|])[..|depth|];
  }

  /** Attaching a child to `n` changes no other node and keeps every link `n` already had. */
  lemma AttachKeeps(nodes: seq<Node>, n: nat, a: nat, child: Node)
    requires n < |nodes| && nodes[n].Internal? && a < |nodes[n].children| && nodes[n].children[a].None?
    ensures var r := Attach(nodes, n, a, child);
            |r| == |nodes| + 1 && r[n].split == nodes[n].split && r[n].children[a] == Some(|nodes|) &&
            (forall j :: 0 <= j < |nodes| && j != n ==> r[j] == nodes[j]) &&
            (forall j, k :: 0 <= j < |nodes| && nodes[j].Internal? && 0 <= k < |nodes[j].children| && nodes[j].children[k].Some? ==>
               r[j].Internal? && |r[j].children| == |nodes[j].children| && r[j].children[k] == nodes[j].children[k])
  {
  }

  /**
   * An insertion from level `i` leaves every node above level `i` as it
   * was, and never replaces or removes an existing child link.
   */
  lemma {:induction false} InsertFrame(nodes: seq<Node>, depth: seq<nat>, levels: int, n: nat, i: nat, p: Vec3, side: real)
    requires ValidArena(nodes, depth, levels) && n < |nodes| && depth[n] == i
    ensures InsertKeeps(nodes, depth, levels, n, i, p, side)
    decreases levels - i, 1
  {
    if i < levels {
      var a := Address(p, nodes[n].split);
      match nodes[n].children[a as int]
      case Some(c) =>
        InsertFrame(nodes, depth, levels, c, i + 1, p, side);
      case None =>
        InsertFrameCreating(nodes, depth, levels, n, i, p, side);
    } else {
      // The node that becomes a leaf is on the leaf level, where no link starts.
      forall j, k | 0 <= j < |nodes| && nodes[j].Internal? && 0 <= k < |nodes[j].children| && nodes[j].children[k].Some?
        ensures j != n
      {
        assert depth[nodes[j].children[k].value] == depth[j] + 1 <= levels;
      }
    }
  }

  /** The frame of an insertion from `n` at level `i`: nodes above level `i` and existing links stay. */
  predicate InsertKeeps(nodes: seq<Node>, depth: seq<nat>, levels: int, n: nat, i: nat, p: Vec3, side: real)
    requires ValidArena(nodes, depth, levels) && n < |nodes| && depth[n] == i
  {
    var r := InsertFrom(nodes, depth, levels, n, i, p, side);
    |nodes| <= |r.nodes| &&
    (forall j :: 0 <= j < |nodes| && depth[j] < i ==> r.nodes[j] == nodes[j]) &&
    (forall j, k :: 0 <= j < |nodes| && nodes[j].Internal? && 0 <= k < |nodes[j].children| && nodes[j].children[k].Some? ==>
       r.nodes[j].Internal? && |r.nodes[j].children| == |nodes[j].children| && r.nodes[j].children[k] == nodes[j].children[k])
  }

  /** The frame step through a child the insertion creates. */
  lemma {:induction false} InsertFrameCreating(nodes: seq<Node>, depth: seq<nat>, levels: int, n: nat, i: nat, p: Vec3, side: real)
    requires ValidArena(nodes, depth, levels) && n < |nodes| && depth[n] == i && i < levels
    requires nodes[n].children[Address(p, nodes[n].split) as int].None?
    ensures InsertKeeps(nodes, depth, levels, n, i, p, side)
    decreases levels - i, 0
  {
    var a := Address(p, nodes[n].split) as int;
    var nodes' := Attach(nodes, n, a, NewChild(nodes, n, i, p, side));
    var depth' := depth + [i + 1];
    InsertCreates(nodes, depth, levels, n, i, p, side);
    AttachKeeps(nodes, n, a, NewChild(nodes, n, i, p, side));
    InsertFrame(nodes', depth', levels, |nodes|, i + 1, p, side);
    assert forall j :: 0 <= j < |nodes| ==> depth'[j] == depth[j];
  }

  /**
   * One level of the idempotence argument: when node `n` already links the
   * octant of `p` to `c`, an insertion from `c` leaves `n` and that link in
   * place, so inserting again from `n` takes the same step down to `c`.
   */
  lemma RevisitStep(nodes: seq<Node>, depth: seq<nat>, levels: int, n: nat, i: nat, c: nat, p: Vec3, side: real)
    requires ValidArena(nodes, depth, levels) && n < |nodes| && depth[n] == i && i < levels
    requires nodes[n].children[Address(p, nodes[n].split) as int] == Some(c)
    requires var r := InsertFrom(nodes, depth, levels, c, i + 1, p, side);
             InsertWellFormedFacts(r, levels, c, i + 1) &&
             InsertFrom(r.nodes, r.depth, levels, c, i + 1, p, side).nodes == r.nodes &&
             InsertFrom(r.nodes, r.depth, levels, c, i + 1, p, side).depth == r.depth
    ensures var r := InsertFrom(nodes, depth, levels, c, i + 1, p, side);
            InsertWellFormedFacts(r, levels, n, i) &&
            InsertFrom(r.nodes, r.depth, levels, n, i, p, side).nodes == r.nodes &&
            InsertFrom(r.nodes, r.depth, levels, n, i, p, side).depth == r.depth
  {
    var r := InsertFrom(nodes, depth, levels, c, i + 1, p, side);
    InsertFrame(nodes, depth, levels, c, i + 1, p, side);
    assert InsertKeeps(nodes, depth, levels, c, i + 1, p, side);
    InsertWellFormed(nodes, depth, levels, c, i + 1, p, side);
    assert r.nodes[n] == nodes[n];
    assert r.depth[n] == i by {
      assert r.depth[..|depth|][n] == depth[n];
    }
  }

  /** A second insertion of `p` from node `n` at level `i` reproduces the result of the first. */
  predicate InsertsStable(nodes: seq<Node>, depth: seq<nat>, levels: int, n: nat, i: nat, p: Vec3, side: real)
    requires ValidArena(nodes, depth, levels) && n < |nodes| && depth[n] == i
  {
    var r := InsertFrom(nodes, depth, levels, n, i, p, side);
    InsertWellFormedFacts(r, levels, n, i) &&
    InsertFrom(r.nodes, r.depth, levels, n, i, p, side).nodes == r.nodes &&
    InsertFrom(r.nodes, r.depth, levels, n, i, p, side).depth == r.depth
  }

  /** Inserting the same point again changes nothing: the path exists and its leaf already holds `p`. */
  lemma {:induction false} InsertIdempotent(nodes: seq<Node>, depth: seq<nat>, levels: int, n: nat, i: nat, p: Vec3, side: real)
    requires ValidArena(nodes, depth, levels) && n < |nodes| && depth[n] == i
    ensures InsertsStable(nodes, depth, levels, n, i, p, side)
    decreases levels - i, 1
  {
    if i >= levels {
      InsertWellFormed(nodes, depth, levels, n, i, p, side);
    } else {
      var a := Address(p, nodes[n].split);
      match nodes[n].children[a as int]
      case Some(c) =>
        IdempotentExisting(nodes, depth, levels, n, i, c, p, side);
      case None =>
        IdempotentCreating(nodes, depth, levels, n, i, p, side);
    }
  }

  /** The idempotence step through an existing child. */
  lemma {:induction false} IdempotentExisting(nodes: seq<Node>, depth: seq<nat>, levels: int, n: nat, i: nat, c: nat, p: Vec3, side: real)
    requires ValidArena(nodes, depth, levels) && n < |nodes| && depth[n] == i && i < levels
    requires nodes[n].children[Address(p, nodes[n].split) as int] == Some(c)
    ensures InsertsStable(nodes, depth, levels, n, i, p, side)
    decreases levels - i, 0
  {
    assert InsertFrom(nodes, depth, levels, n, i, p, side) == InsertFrom(nodes, depth, levels, c, i + 1, p, side);
    InsertIdempotent(nodes, depth, levels, c, i + 1, p, side);
    RevisitStep(nodes, depth, levels, n, i, c, p, side);
  }

  /** The idempotence step through a child the first insertion creates. */
  lemma {:induction false} IdempotentCreating(nodes: seq<Node>, depth: seq<nat>, levels: int, n: nat, i: nat, p: Vec3, side: real)
    requires ValidArena(nodes, depth, levels) && n < |nodes| && depth[n] == i && i < levels
    requires nodes[n].children[Address(p, nodes[n].split) as int].None?
    ensures InsertsStable(nodes, depth, levels, n, i, p, side)
    decreases levels - i, 0
  {
    var a := Address(p, nodes[n].split) as int;
    var nodes' := Attach(nodes, n, a, NewChild(nodes, n, i, p, side));
    var depth' := depth + [i + 1];
    InsertCreates(nodes, depth, levels, n, i, p, side);
    AttachKeeps(nodes, n, a, NewChild(nodes, n, i, p, side));
    InsertIdempotent(nodes', depth', levels, |nodes|, i + 1, p, side);
    RevisitStep(nodes', depth', levels, n, i, |nodes|, p, side);
  }

  /** Slot `k` of node `j` links node `c`. */
  predicate LinksTo(nodes: seq<Node>, j: int, k: int, c: nat)
  {
    0 <= j < |nodes| && nodes[j].Internal? && 0 <= k < |nodes[j].children| && nodes[j].children[k] == Some(c)
  }

  /**
   * The links form a tree rooted at node 0: no link reaches the root, no
   * node is linked from two slots, and every other node is linked from one.
   */
  ghost predicate TreeShaped(nodes: seq<Node>)
  {
    (forall j, k :: !LinksTo(nodes, j, k, 0)) &&
    (forall j, k, j', k', c :: LinksTo(nodes, j, k, c) && LinksTo(nodes, j', k', c) ==> j == j' && k == k') &&
    (forall c :: 0 < c < |nodes| ==> HasParent(nodes, c))
  }

  /** Some slot of some node links node `c`. */
  ghost predicate HasParent(nodes: seq<Node>, c: nat)
  {
    exists j, k :: LinksTo(nodes, j, k, c)
  }

  /** Linking a fresh childless node from one null slot keeps the arena a tree. */
  lemma AttachTree(nodes: seq<Node>, depth: seq<nat>, levels: int, n: nat, a: nat, split: Vec3)
    requires ValidArena(nodes, depth, levels) && TreeShaped(nodes) && n < |nodes| && a < 8
    requires nodes[n].Internal? && nodes[n].children[a].None?
    ensures TreeShaped(Attach(nodes, n, a, Internal(split, NoChildren)))
  {
    var nodes' := Attach(nodes, n, a, Internal(split, NoChildren));
    // A link of the new arena is the new one, or one the old arena had.
    forall j, k, c: nat | LinksTo(nodes', j, k, c)
      ensures (j == n && k == a && c == |nodes|) || (LinksTo(nodes, j, k, c) && c < |nodes|)
    {
      assert j < |nodes|;
      if j != n || k != a {
        assert nodes'[j].children[k] == nodes[j].children[k];
      }
    }
    forall c | 0 < c < |nodes'|
      ensures HasParent(nodes', c)
    {
      if c == |nodes| {
        assert LinksTo(nodes', n, a, c);
      } else {
        assert HasParent(nodes, c);
        var j, k :| LinksTo(nodes, j, k, c);
        assert nodes'[j].children[k] == nodes[j].children[k];
        assert LinksTo(nodes', j, k, c);
      }
    }
  }

  /** Turning a node on or below the leaf level into a leaf removes no link, so the arena stays a tree. */
  lemma LeafTree(nodes: seq<Node>, depth: seq<nat>, levels: int, n: nat, p: Vec3)
    requires ValidArena(nodes, depth, levels) && TreeShaped(nodes) && n < |nodes| && depth[n] >= levels
    ensures TreeShaped(nodes[n := Leaf(p)])
  {
    var nodes' := nodes[n := Leaf(p)];
    forall j, k, c: nat | LinksTo(nodes, j, k, c)
      ensures LinksTo(nodes', j, k, c)
    {
      assert depth[c] == depth[j] + 1 <= levels;
    }
    forall j, k, c: nat | LinksTo(nodes', j, k, c)
      ensures LinksTo(nodes, j, k, c)
    {
    }
    forall c | 0 < c < |nodes'|
      ensures HasParent(nodes', c)
    {
      assert HasParent(nodes, c);
      var j, k :| LinksTo(nodes, j, k, c);
      assert LinksTo(nodes', j, k, c);
    }
  }

  /** An insertion keeps the arena a tree. */
  lemma {:induction false} InsertTree(nodes: seq<Node>, depth: seq<nat>, levels: int, n: nat, i: nat, p: Vec3, side: real)
    requires ValidArena(nodes, depth, levels) && TreeShaped(nodes) && n < |nodes| && depth[n] == i
    ensures TreeShaped(InsertFrom(nodes, depth, levels, n, i, p, side).nodes)
    decreases levels - i
  {
    if i >= levels {
      LeafTree(nodes, depth, levels, n, p);
    } else {
      var a := Address(p, nodes[n].split);
      match nodes[n].children[a as int]
      case Some(c) =>
        InsertTree(nodes, depth, levels, c, i + 1, p, side);
      case None =>
        var child := NewChild(nodes, n, i, p, side);
        InsertCreates(nodes, depth, levels, n, i, p, side);
        AttachTree(nodes, depth, levels, n, a as int, child.split);
        InsertTree(Attach(nodes, n, a as int, child), depth + [i + 1], levels, |nodes|, i + 1, p, side);
    }
  }

  /** The facts about an insertion result that make a second insertion from the same node well defined. */
  predicate InsertWellFormedFacts(r: Insertion, levels: int, n: nat, i: nat)
  {
    ValidArena(r.nodes, r.depth, levels) && n < |r.nodes| && r.depth[n] == i
  }

  /**
   * One level of the `add_point` loop at node `n` of level `i`, whose cube
   * has side `l`: computes the octant address of `p` bit by bit, creates the
   * child there when the link is null (its split shifted by `l / 4`), and
   * returns the child to descend to. The insertion from the child is the
   * insertion from `n`.
   */
  method Descend(arena: seq<Node>, ghost depths: seq<nat>, levels: int, n: nat, i: nat, p: Vec3, l: real, ghost side: real)
    returns (arena': seq<Node>, ghost depths': seq<nat>, next: nat)
    requires ValidArena(arena, depths, levels) && n < |arena| && depths[n] == i < levels && l == SideAt(side, i)
    ensures ValidArena(arena', depths', levels) && next < |arena'| && depths'[next] == i + 1
    ensures InsertFrom(arena', depths', levels, next, i + 1, p, side) == InsertFrom(arena, depths, levels, n, i, p, side)
  {
    var address: bv8 := 0x0;
    if p.x >= arena[n].split.x { address := address | 0x4; }
    if p.y >= arena[n].split.y { address := address | 0x2; }
    if p.z >= arena[n].split.z { address := address | 0x1; }
    assert address == Address(p, arena[n].split);
    arena', depths' := arena, depths;
    match arena[n].children[address]
    case Some(c) =>
      next := c;
    case None =>
      var child := NewNode();
      var shift := l / 4.0;
      child := child.(split := ChildSplitAsWritten(arena[n].split, address, shift));
      assert child == NewChild(arena, n, i, p, side);
      InsertCreates(arena, depths, levels, n, i, p, side);
      next := |arena|;
      arena' := Attach(arena, n, address as int, child);
      depths' := depths + [i + 1];
  }

  // ---------------------------------------------------------------------
  // The octree object
  // ---------------------------------------------------------------------

  class Octree {
    /** The arena; node 0 is `root`. */
    var nodes: seq<Node>
    /** The depth of each arena node. */
    ghost var depth: seq<nat>
    /** The bounding box `min`/`max` of the tree. */
    var bbMin: Vec3
    var bbMax: Vec3
    /** `MAX_DEPTH`: the leaves sit `MAX_DEPTH - 1` levels below the root. */
    const maxDepth: int

    /** The leaf level, `MAX_DEPTH - 1`. */
    function Levels(): int
    {
      maxDepth - 1
    }

    ghost predicate Valid()
      reads this
    {
      ValidArena(nodes, depth, Levels()) && TreeShaped(nodes)
    }

    /**
     * An empty tree over the box `lo`..`hi` whose root splits at `split`:
     * what the tree holds once its bounding box has been set.
     */
    constructor (lo: Vec3, hi: Vec3, split: Vec3, maxDepth: int)
      ensures Valid() && this.maxDepth == maxDepth && bbMin == lo && bbMax == hi
      ensures nodes == [Internal(split, NoChildren)]
    {
      this.maxDepth := maxDepth;
      bbMin, bbMax := lo, hi;
      var root := NewNode();
      assert root.children == NoChildren;
      nodes := [root.(split := split)];
      depth := [0];
    }

    /**
     * `add_point`: walk `MAX_DEPTH - 1` levels from the root, creating each
     * missing child on the way, and store `p` in the node reached.
     */
    method AddPoint(p: Vec3)
      requires Valid()
      modifies this
      ensures Valid()
      ensures var r := InsertFrom(old(nodes), old(depth), Levels(), 0, 0, p, bbMax.x - bbMin.x);
              nodes == r.nodes && depth == r.depth
      ensures bbMin == old(bbMin) && bbMax == old(bbMax)
    {
      ghost var side := bbMax.x - bbMin.x;
      var arena, levels := nodes, maxDepth - 1;
      ghost var depths: seq<nat> := depth;
      ghost var target := InsertFrom(arena, depths, levels, 0, 0, p, side);
      InsertWellFormed(arena, depths, levels, 0, 0, p, side);
      InsertTree(arena, depths, levels, 0, 0, p, side);
      var n: nat := 0;
      var l := bbMax.x - bbMin.x;
      var i: nat := 0;
      while i < levels
        invariant ValidArena(arena, depths, levels) && n < |arena| && depths[n] == i
        invariant l == SideAt(side, i)
        invariant InsertFrom(arena, depths, levels, n, i, p, side) == target
        modifies {}
        decreases levels - i
      {
        arena, depths, n := Descend(arena, depths, levels, n, i, p, l, side);
        HalveSide(side, i);
        l := l / 2.0;
        i := i + 1;
      }
      arena := arena[n := Leaf(p)];
      nodes, depth := arena, depths;
    }
  }
}
