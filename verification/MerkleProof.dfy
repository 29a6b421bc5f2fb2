/** Audit paths of `crypto/merkle/proof.go` (section 2.1.1 of RFC 6962):
    construction over linked nodes, verification, completeness, soundness. */
module MerkleProof {
  import opened Basics
  import opened MerkleTree

  datatype Proof = Proof(total: int, index: int, leafHash: Bytes, aunts: seq<Bytes>)

  /** The sibling hashes from the leaf up to the children of the root. */
  function Aunts(h: Hasher, items: seq<Bytes>, i: nat): seq<Bytes>
    requires i < |items|
    decreases |items|
  {
    if |items| == 1 then []
    else
      var k := SplitPoint(|items|);
      if i < k then Aunts(h, items[..k], i) + [HashFromByteSlices(h, items[k..])]
      else Aunts(h, items[k..], i - k) + [HashFromByteSlices(h, items[..k])]
  }

  /** `computeHashFromAunts`; `None` is the nil result. */
  function ComputeHashFromAunts(h: Hasher, index: int, total: int, leafHash: Bytes, aunts: seq<Bytes>): Option<Bytes>
    decreases |aunts|
  {
    if index >= total || index < 0 || total <= 0 then None
    else if total == 1 then (if |aunts| != 0 then None else Some(leafHash))
    else if |aunts| == 0 then None
    else
      var n := |aunts| - 1;
      var numLeft := SplitPoint(total);
      if index < numLeft then
        var l := ComputeHashFromAunts(h, index, numLeft, leafHash, aunts[..n]);
        if l.None? then None else Some(Inner(h, l.value, aunts[n]))
      else
        var r := ComputeHashFromAunts(h, index - numLeft, total - numLeft, leafHash, aunts[..n]);
        if r.None? then None else Some(Inner(h, aunts[n], r.value))
  }

  /** `bytes.Equal`, for which nil is the empty slice. */
  predicate EqualsOrNil(a: Option<Bytes>, b: Bytes) {
    if a.Some? then a.value == b else b == []
  }

  /** `Proof.Verify` */
  predicate Verify(h: Hasher, p: Proof, root: Bytes, leaf: Bytes) {
    && p.total >= 0 && p.index >= 0
    && p.leafHash == Leaf(h, leaf)
    && EqualsOrNil(ComputeHashFromAunts(h, p.index, p.total, p.leafHash, p.aunts), root)
  }

  // ---- Completeness ----

  lemma {:induction false} AuntsLeadToRoot(h: Hasher, items: seq<Bytes>, i: nat)
    requires i < |items|
    ensures ComputeHashFromAunts(h, i, |items|, Leaf(h, items[i]), Aunts(h, items, i)) == Some(HashFromByteSlices(h, items))
    decreases |items|
  {
    if |items| > 1 {
      var k := SplitPoint(|items|);
      var aunts := Aunts(h, items, i);
      var n := |aunts| - 1;
      if i < k {
        AuntsLeadToRoot(h, items[..k], i);
        assert aunts[..n] == Aunts(h, items[..k], i);
      } else {
        AuntsLeadToRoot(h, items[k..], i - k);
        assert aunts[..n] == Aunts(h, items[k..], i - k);
      }
    }
  }

  // ---- Soundness ----

  /** Two different inputs with the same digest. */
  predicate Collides(h: Hasher, c: (Bytes, Bytes)) {
    c.0 != c.1 && h.sum(c.0) == h.sum(c.1)
  }

  lemma LeafInjective(h: Hasher, a: Bytes, b: Bytes) returns (c: (Bytes, Bytes))
    requires Leaf(h, a) == Leaf(h, b)
    ensures a == b || Collides(h, c)
  {
    c := ([0] + a, [0] + b);
    assert c.0[1..] == a && c.1[1..] == b;
  }

  lemma LeafIsNotInner(h: Hasher, x: Bytes, a: Bytes, b: Bytes) returns (c: (Bytes, Bytes))
    requires Leaf(h, x) == Inner(h, a, b)
    ensures Collides(h, c)
  {
    c := ([0] + x, [1] + a + b);
    assert c.0[0] == 0 && c.1[0] == 1;
  }

  /** One known 32-byte side on each hand makes the concatenation unambiguous. */
  lemma InnerInjective(h: Hasher, a: Bytes, b: Bytes, l: Bytes, r: Bytes) returns (c: (Bytes, Bytes))
    requires Inner(h, a, b) == Inner(h, l, r)
    requires |l| == |r| == DigestSize && (|a| == DigestSize || |b| == DigestSize)
    ensures (a == l && b == r) || Collides(h, c)
  {
    var x, y := [1] + a + b, [1] + l + r;
    c := (x, y);
    if x == y {
      assert |x| == 1 + |a| + |b| && |y| == 1 + |l| + |r|;
      assert x[1..1 + |a|] == a && y[1..1 + |l|] == l;
      assert x[1 + |a|..] == b && y[1 + |l|..] == r;
    }
  }

  lemma RootSize(h: Hasher, items: seq<Bytes>)
    requires DigestSized(h)
    ensures |HashFromByteSlices(h, items)| == DigestSize
  {}

  /** The turns from the root towards an index: true is left. */
  function Turns(index: nat, total: nat): seq<bool>
    requires index < total
    decreases total
  {
    if total == 1 then []
    else
      var m := SplitPoint(total);
      if index < m then [true] + Turns(index, m) else [false] + Turns(index - m, total - m)
  }

  /** The hash that a path with these turns leads to. */
  function Fold(h: Hasher, turns: seq<bool>, leafHash: Bytes, aunts: seq<Bytes>): Bytes
    requires |turns| == |aunts|
  {
    if |turns| == 0 then leafHash
    else
      var n := |aunts| - 1;
      var x := Fold(h, turns[1..], leafHash, aunts[..n]);
      if turns[0] then Inner(h, x, aunts[n]) else Inner(h, aunts[n], x)
  }

  /** Only the turns of index and total matter, and the number of aunts. */
  lemma {:induction false} ComputeIsFold(h: Hasher, index: int, total: int, leafHash: Bytes, aunts: seq<Bytes>)
    ensures ComputeHashFromAunts(h, index, total, leafHash, aunts) ==
      if 0 <= index < total && |aunts| == |Turns(index, total)| then Some(Fold(h, Turns(index, total), leafHash, aunts)) else None
    decreases |aunts|
  {
    if 0 <= index < total && total > 1 && |aunts| > 0 {
      var m, up := SplitPoint(total), aunts[..|aunts| - 1];
      if index < m {
        ComputeIsFold(h, index, m, leafHash, up);
        assert Turns(index, total)[1..] == Turns(index, m);
      } else {
        ComputeIsFold(h, index - m, total - m, leafHash, up);
        assert Turns(index, total)[1..] == Turns(index - m, total - m);
      }
    }
  }

  /** The leaf that the turns reach in a tree of n leaves, if they end at one. */
  function Reach(turns: seq<bool>, n: nat): (r: Option<nat>)
    ensures r.Some? ==> r.value < n
  {
    if n == 0 then None
    else if |turns| == 0 || n == 1 then (if |turns| == 0 && n == 1 then Some(0) else None)
    else
      var k := SplitPoint(n);
      if turns[0] then Reach(turns[1..], k)
      else
        var r := Reach(turns[1..], n - k);
        if r.None? then None else Some(k + r.value)
  }

  /** The leaf of a tree of n leaves that a proof with this index and total
      speaks about. */
  function Landing(index: int, total: int, n: nat): (r: Option<nat>)
    ensures r.Some? ==> r.value < n
  {
    if 0 <= index < total then Reach(Turns(index, total), n) else None
  }

  /** With the right total that is the index. */
  lemma {:induction false} LandsAtIndex(i: nat, n: nat)
    requires i < n
    ensures Landing(i, n, n) == Some(i)
    decreases n
  {
    if n > 1 {
      var k := SplitPoint(n);
      if i < k {
        LandsAtIndex(i, k);
        assert Turns(i, n)[1..] == Turns(i, k);
      } else {
        LandsAtIndex(i - k, n - k);
        assert Turns(i, n)[1..] == Turns(i - k, n - k);
      }
    }
  }

  lemma FoldSize(h: Hasher, turns: seq<bool>, leafHash: Bytes, aunts: seq<Bytes>)
    requires DigestSized(h) && |leafHash| == DigestSize && |turns| == |aunts|
    ensures |Fold(h, turns, leafHash, aunts)| == DigestSize
  {}

  predicate Holds(items: seq<Bytes>, at: Option<nat>, leaf: Bytes)
    requires at.Some? ==> at.value < |items|
  {
    at.Some? && items[at.value] == leaf
  }

  /** A path that leads to the root of a list proves the item its turns reach. */
  lemma {:induction false} FoldProves(h: Hasher, turns: seq<bool>, items: seq<Bytes>, leaf: Bytes, aunts: seq<Bytes>)
    returns (c: (Bytes, Bytes))
    requires DigestSized(h) && |turns| == |aunts|
    requires Fold(h, turns, Leaf(h, leaf), aunts) == HashFromByteSlices(h, items)
    ensures Collides(h, c) || Holds(items, Reach(turns, |items|), leaf)
    decreases |turns|
  {
    if |turns| == 0 {
      c := SingleLeafPath(h, items, leaf);
    } else if |items| < 2 {
      c := LongPathToShortTree(h, items, turns, Leaf(h, leaf), aunts);
    } else {
      var k, n := SplitPoint(|items|), |aunts| - 1;
      var sub := if turns[0] then items[..k] else items[k..];
      c := DescendPath(h, turns, items[..k], items[k..], Leaf(h, leaf), aunts);
      if !Collides(h, c) {
        c := FoldProves(h, turns[1..], sub, leaf, aunts[..n]);
      }
    }
  }

  /** One step down: the rest of the path leads to the root of the half that the
      first turn takes. */
  lemma DescendPath(h: Hasher, turns: seq<bool>, l: seq<Bytes>, r: seq<Bytes>, leafHash: Bytes, aunts: seq<Bytes>)
    returns (c: (Bytes, Bytes))
    requires DigestSized(h) && |leafHash| == DigestSize && |turns| == |aunts| > 0
    requires Fold(h, turns, leafHash, aunts) == Inner(h, HashFromByteSlices(h, l), HashFromByteSlices(h, r))
    ensures Collides(h, c) ||
      Fold(h, turns[1..], leafHash, aunts[..|aunts| - 1]) == HashFromByteSlices(h, if turns[0] then l else r)
  {
    var n := |aunts| - 1;
    var x := Fold(h, turns[1..], leafHash, aunts[..n]);
    RootSize(h, l);
    RootSize(h, r);
    FoldSize(h, turns[1..], leafHash, aunts[..n]);
    if turns[0] {
      c := InnerInjective(h, x, aunts[n], HashFromByteSlices(h, l), HashFromByteSlices(h, r));
    } else {
      c := InnerInjective(h, aunts[n], x, HashFromByteSlices(h, l), HashFromByteSlices(h, r));
    }
  }

  lemma SingleLeafPath(h: Hasher, items: seq<Bytes>, leaf: Bytes) returns (c: (Bytes, Bytes))
    requires Leaf(h, leaf) == HashFromByteSlices(h, items)
    ensures items == [leaf] || Collides(h, c)
  {
    if |items| == 0 { c := ([], [0] + leaf); }
    else if |items| == 1 { c := LeafInjective(h, leaf, items[0]); }
    else {
      var k := SplitPoint(|items|);
      c := LeafIsNotInner(h, leaf, HashFromByteSlices(h, items[..k]), HashFromByteSlices(h, items[k..]));
    }
  }

  lemma LongPathToShortTree(h: Hasher, items: seq<Bytes>, turns: seq<bool>, leafHash: Bytes, aunts: seq<Bytes>) returns (c: (Bytes, Bytes))
    requires |items| < 2 && |turns| == |aunts| > 0
    requires Fold(h, turns, leafHash, aunts) == HashFromByteSlices(h, items)
    ensures Collides(h, c)
  {
    var n := |aunts| - 1;
    var x := Fold(h, turns[1..], leafHash, aunts[..n]);
    var (a, b) := if turns[0] then (x, aunts[n]) else (aunts[n], x);
    if |items| == 0 { c := ([], [1] + a + b); }
    else { c := LeafIsNotInner(h, items[0], a, b); }
  }

  /** Conversely the audit path of the item that the turns reach leads to the
      root. */
  lemma {:induction false} ReachHasPath(h: Hasher, turns: seq<bool>, items: seq<Bytes>, j: nat)
    requires Reach(turns, |items|) == Some(j)
    ensures Leads(h, turns, items, j)
    decreases |turns|
  {
    if |turns| > 0 {
      var k := SplitPoint(|items|);
      if turns[0] {
        ReachHasPath(h, turns[1..], items[..k], j);
        LeadsUp(h, turns, items, j);
      } else {
        ReachHasPath(h, turns[1..], items[k..], j - k);
        LeadsUp(h, turns, items, j);
      }
    }
  }

  predicate Leads(h: Hasher, turns: seq<bool>, items: seq<Bytes>, j: nat) {
    j < |items| && |Aunts(h, items, j)| == |turns|
    && Fold(h, turns, Leaf(h, items[j]), Aunts(h, items, j)) == HashFromByteSlices(h, items)
  }

  lemma LeadsUp(h: Hasher, turns: seq<bool>, items: seq<Bytes>, j: nat)
    requires |items| > 1 && |turns| > 0 && j < |items| && turns[0] == (j < SplitPoint(|items|))
    requires var k := SplitPoint(|items|);
      if turns[0] then Leads(h, turns[1..], items[..k], j) else Leads(h, turns[1..], items[k..], j - k)
    ensures Leads(h, turns, items, j)
  {
    var k := SplitPoint(|items|);
    var l, r := items[..k], items[k..];
    if turns[0] {
      FoldOne(h, turns, Leaf(h, items[j]), Aunts(h, l, j), HashFromByteSlices(h, r));
    } else {
      FoldOne(h, turns, Leaf(h, items[j]), Aunts(h, r, j - k), HashFromByteSlices(h, l));
    }
  }

  lemma FoldOne(h: Hasher, turns: seq<bool>, leafHash: Bytes, path: seq<Bytes>, aunt: Bytes)
    requires |turns| == |path| + 1
    ensures var x := Fold(h, turns[1..], leafHash, path);
      Fold(h, turns, leafHash, path + [aunt]) == if turns[0] then Inner(h, x, aunt) else Inner(h, aunt, x)
  {
    assert (path + [aunt])[..|path|] == path;
  }

  /** A path of any index and total proves the item it lands on. */
  lemma PathProvesLanding(h: Hasher, items: seq<Bytes>, index: int, total: int, leaf: Bytes, aunts: seq<Bytes>)
    returns (c: (Bytes, Bytes))
    requires DigestSized(h)
    requires ComputeHashFromAunts(h, index, total, Leaf(h, leaf), aunts) == Some(HashFromByteSlices(h, items))
    ensures Collides(h, c) || Holds(items, Landing(index, total, |items|), leaf)
  {
    ComputeIsFold(h, index, total, Leaf(h, leaf), aunts);
    c := FoldProves(h, Turns(index, total), items, leaf, aunts);
  }

  /** A path of the right shape proves the item at its index. */
  lemma PathProvesIndex(h: Hasher, items: seq<Bytes>, index: int, leaf: Bytes, aunts: seq<Bytes>) returns (c: (Bytes, Bytes))
    requires DigestSized(h)
    requires ComputeHashFromAunts(h, index, |items|, Leaf(h, leaf), aunts) == Some(HashFromByteSlices(h, items))
    ensures (0 <= index < |items| && leaf == items[index]) || Collides(h, c)
  {
    c := PathProvesLanding(h, items, index, |items|, leaf, aunts);
    LandsAtIndex(index, |items|);
  }

  /** An accepted proof, whatever total it claims, proves the item it lands on,
      and with the list length as total the item at its index; if not, the lemma
      exhibits two different inputs of the digest function with the same
      digest. */
  lemma VerifySound(h: Hasher, items: seq<Bytes>, p: Proof, leaf: Bytes) returns (c: (Bytes, Bytes))
    requires DigestSized(h) && Verify(h, p, HashFromByteSlices(h, items), leaf)
    ensures Collides(h, c) || Holds(items, Landing(p.index, p.total, |items|), leaf)
    ensures p.total == |items| ==> Collides(h, c) || (p.index < |items| && leaf == items[p.index])
  {
    RootSize(h, items);
    c := PathProvesLanding(h, items, p.index, p.total, leaf, p.aunts);
    if p.total == |items| && p.index < |items| { LandsAtIndex(p.index, |items|); }
  }

  /** Conversely every index and total that land on an item have an accepted
      proof for it. */
  lemma LandingIsAccepted(h: Hasher, items: seq<Bytes>, index: nat, total: nat, j: nat)
    requires Landing(index, total, |items|) == Some(j)
    ensures Verify(h, ProofFor(h, items, index, total, j), HashFromByteSlices(h, items), items[j])
  {
    ComputeIsFold(h, index, total, Leaf(h, items[j]), Aunts(h, items, j));
    ReachHasPath(h, Turns(index, total), items, j);
  }

  /** The audit path of item j under another index and total. */
  function ProofFor(h: Hasher, items: seq<Bytes>, index: nat, total: nat, j: nat): Proof
    requires j < |items|
  {
    Proof(total, index, Leaf(h, items[j]), Aunts(h, items, j))
  }

  // ---- Construction over linked nodes ----

  class ProofNode {
    const hash: Bytes
    var parent: ProofNode?
    var left: ProofNode?
    var right: ProofNode?

    constructor (hash: Bytes)
      ensures this.hash == hash && parent == null && left == null && right == null
    {
      this.hash := hash;
      parent, left, right := null, null, null;
    }
  }

  /** `below` are the nodes from a leaf up to, and not including, the root; the
      one sibling of each has the corresponding hash. */
  ghost predicate Climbs(below: seq<ProofNode>, root: ProofNode, aunts: seq<Bytes>)
    reads below
  {
    && |below| == |aunts|
    && forall j :: 0 <= j < |aunts| ==> StepsUp(below[j], Next(below, root, j), aunts[j])
  }

  ghost function Next(below: seq<ProofNode>, root: ProofNode, j: nat): ProofNode {
    if j + 1 < |below| then below[j + 1] else root
  }

  ghost predicate StepsUp(n: ProofNode, up: ProofNode, aunt: Bytes)
    reads n
  {
    n.parent == up && (if n.left != null then n.left.hash == aunt else n.right != null && n.right.hash == aunt)
  }

  ghost predicate IsTop(n: ProofNode)
    reads n
  {
    n.parent == null && n.left == null && n.right == null
  }

  /** `FlattenAunts` */
  method FlattenAunts(leaf: ProofNode, ghost below: seq<ProofNode>, ghost root: ProofNode, ghost aunts: seq<Bytes>) returns (r: seq<Bytes>)
    requires Climbs(below, root, aunts) && IsTop(root) && leaf == (below + [root])[0]
    ensures r == aunts
  {
    r := [];
    var spn: ProofNode? := leaf;
    ghost var path := below + [root];
    ghost var j := 0;
    while spn != null
      invariant 0 <= j <= |path|
      invariant spn == if j < |path| then path[j] else null
      invariant r == aunts[..if j < |aunts| then j else |aunts|]
      decreases |path| - j
    {
      assert j < |aunts| ==> StepsUp(below[j], Next(below, root, j), aunts[j]);
      if spn.left != null {
        r := r + [spn.left.hash];
      } else if spn.right != null {
        r := r + [spn.right.hash];
      }
      spn := spn.parent;
      j := j + 1;
    }
  }

  /** The trail of leaf i leads to the root along the audit path of item i. */
  ghost predicate Trail(h: Hasher, items: seq<Bytes>, i: nat, trail: ProofNode, root: ProofNode, below: seq<ProofNode>)
    requires i < |items|
    reads below
  {
    && Climbs(below, root, Aunts(h, items, i))
    && trail == (below + [root])[0]
    && trail.hash == Leaf(h, items[i])
  }

  /** One trail for each item, over the given nodes below the root. */
  ghost predicate Trails(h: Hasher, items: seq<Bytes>, trails: seq<ProofNode>, root: ProofNode,
                         nodes: set<ProofNode>, paths: seq<seq<ProofNode>>)
    reads nodes
  {
    && |trails| == |paths| == |items|
    && forall i :: 0 <= i < |items| ==> Among(paths[i], nodes) && Trail(h, items, i, trails[i], root, paths[i])
  }

  ghost predicate Among(path: seq<ProofNode>, nodes: set<ProofNode>) {
    forall n :: n in path ==> n in nodes
  }

  ghost function Extended(paths: seq<seq<ProofNode>>, n: ProofNode): (r: seq<seq<ProofNode>>)
    ensures |r| == |paths| && forall i :: 0 <= i < |paths| ==> r[i] == paths[i] + [n]
  {
    seq(|paths|, i requires 0 <= i < |paths| => paths[i] + [n])
  }

  /** Once a subtree's root hangs under a new one, each of its trails goes on. */
  lemma ClimbGrows(below: seq<ProofNode>, top: ProofNode, root: ProofNode, aunts: seq<Bytes>, aunt: Bytes)
    requires Climbs(below, top, aunts) && StepsUp(top, root, aunt)
    ensures Climbs(below + [top], root, aunts + [aunt])
  {
    var b, a := below + [top], aunts + [aunt];
    forall m | 0 <= m < |a| ensures StepsUp(b[m], Next(b, root, m), a[m]) {
      if m < |below| {
        assert StepsUp(below[m], Next(below, top, m), aunts[m]);
      }
    }
  }

  lemma TrailsJoin(h: Hasher, items: seq<Bytes>, root: ProofNode, nodes: set<ProofNode>,
                   lefts: seq<ProofNode>, leftRoot: ProofNode, leftNodes: set<ProofNode>, leftPaths: seq<seq<ProofNode>>,
                   rights: seq<ProofNode>, rightRoot: ProofNode, rightNodes: set<ProofNode>, rightPaths: seq<seq<ProofNode>>)
    requires |items| >= 2 && nodes == leftNodes + rightNodes + {leftRoot, rightRoot}
    requires Trails(h, items[..SplitPoint(|items|)], lefts, leftRoot, leftNodes, leftPaths)
    requires Trails(h, items[SplitPoint(|items|)..], rights, rightRoot, rightNodes, rightPaths)
    requires StepsUp(leftRoot, root, HashFromByteSlices(h, items[SplitPoint(|items|)..]))
    requires StepsUp(rightRoot, root, HashFromByteSlices(h, items[..SplitPoint(|items|)]))
    ensures Trails(h, items, lefts + rights, root, nodes, Extended(leftPaths, leftRoot) + Extended(rightPaths, rightRoot))
  {
    var k, paths := SplitPoint(|items|), Extended(leftPaths, leftRoot) + Extended(rightPaths, rightRoot);
    var trails := lefts + rights;
    forall i | 0 <= i < |items| ensures Among(paths[i], nodes) && Trail(h, items, i, trails[i], root, paths[i]) {
      if i < k {
        assert Trail(h, items[..k], i, lefts[i], leftRoot, leftPaths[i]) && Among(leftPaths[i], leftNodes);
        ClimbGrows(leftPaths[i], leftRoot, root, Aunts(h, items[..k], i), HashFromByteSlices(h, items[k..]));
      } else {
        assert Trail(h, items[k..], i - k, rights[i - k], rightRoot, rightPaths[i - k]) && Among(rightPaths[i - k], rightNodes);
        ClimbGrows(rightPaths[i - k], rightRoot, root, Aunts(h, items[k..], i - k), HashFromByteSlices(h, items[..k]));
      }
    }
  }

  /** `trailsFromByteSlices` */
  method TrailsFromByteSlices(h: Hasher, items: seq<Bytes>)
    returns (trails: seq<ProofNode>, root: ProofNode, ghost nodes: set<ProofNode>, ghost paths: seq<seq<ProofNode>>)
    ensures fresh(nodes) && fresh(root) && root !in nodes && IsTop(root)
    ensures root.hash == HashFromByteSlices(h, items)
    ensures Trails(h, items, trails, root, nodes, paths)
    decreases |items|
  {
    if |items| == 0 {
      root := new ProofNode(Empty(h));
      return [], root, {}, [];
    } else if |items| == 1 {
      root := new ProofNode(Leaf(h, items[0]));
      return [root], root, {}, [[]];
    }
    var k := SplitPoint(|items|);
    var lefts, leftRoot, leftNodes, leftPaths := TrailsFromByteSlices(h, items[..k]);
    var rights, rightRoot, rightNodes, rightPaths := TrailsFromByteSlices(h, items[k..]);
    root := LinkRoots(h, leftRoot, rightRoot, leftNodes + rightNodes);
    nodes := leftNodes + rightNodes + {leftRoot, rightRoot};
    TrailsJoin(h, items, root, nodes, lefts, leftRoot, leftNodes, leftPaths, rights, rightRoot, rightNodes, rightPaths);
    trails, paths := lefts + rights, Extended(leftPaths, leftRoot) + Extended(rightPaths, rightRoot);
  }

  /** Makes two subtree roots siblings under a new root. */
  method LinkRoots(h: Hasher, leftRoot: ProofNode, rightRoot: ProofNode, ghost others: set<ProofNode>) returns (root: ProofNode)
    requires leftRoot != rightRoot && IsTop(leftRoot) && IsTop(rightRoot)
    modifies leftRoot, rightRoot
    ensures fresh(root) && root !in others && IsTop(root)
    ensures root.hash == Inner(h, leftRoot.hash, rightRoot.hash)
    ensures StepsUp(leftRoot, root, rightRoot.hash) && StepsUp(rightRoot, root, leftRoot.hash)
  {
    root := new ProofNode(Inner(h, leftRoot.hash, rightRoot.hash));
    leftRoot.parent := root;
    leftRoot.right := rightRoot;
    rightRoot.parent := root;
    rightRoot.left := leftRoot;
  }

  /** `ProofsFromByteSlices`: the root is the hash of the items, and every
      proof it returns is accepted. */
  method ProofsFromByteSlices(h: Hasher, items: seq<Bytes>) returns (root: Bytes, proofs: seq<Proof>)
    ensures root == HashFromByteSlices(h, items)
    ensures |proofs| == |items|
    ensures forall i :: 0 <= i < |items| ==> proofs[i].total == |items| && proofs[i].index == i && Verify(h, proofs[i], root, items[i])
  {
    var trails, rootNode, nodes, paths := TrailsFromByteSlices(h, items);
    root := rootNode.hash;
    proofs := [];
    for i := 0 to |trails|
      modifies {}
      invariant |proofs| == i
      invariant forall j :: 0 <= j < i ==> proofs[j] == AuditProof(h, items, j)
    {
      var p := ProofOfTrail(h, items, i, trails, rootNode, nodes, paths);
      proofs := proofs + [p];
    }
    AuditProofsVerify(h, items, proofs);
  }

  method ProofOfTrail(h: Hasher, items: seq<Bytes>, i: nat, trails: seq<ProofNode>, ghost root: ProofNode,
                      ghost nodes: set<ProofNode>, ghost paths: seq<seq<ProofNode>>) returns (p: Proof)
    requires i < |items| && Trails(h, items, trails, root, nodes, paths) && IsTop(root)
    ensures p == AuditProof(h, items, i)
  {
    assert Trail(h, items, i, trails[i], root, paths[i]);
    var aunts := FlattenAunts(trails[i], paths[i], root, Aunts(h, items, i));
    p := Proof(|items|, i, trails[i].hash, aunts);
  }

  lemma AuditProofsVerify(h: Hasher, items: seq<Bytes>, proofs: seq<Proof>)
    requires |proofs| == |items| && forall j :: 0 <= j < |items| ==> proofs[j] == AuditProof(h, items, j)
    ensures forall i :: 0 <= i < |items| ==>
      proofs[i].total == |items| && proofs[i].index == i && Verify(h, proofs[i], HashFromByteSlices(h, items), items[i])
  {
    forall i | 0 <= i < |items| ensures Verify(h, proofs[i], HashFromByteSlices(h, items), items[i]) {
      AuditProofVerifies(h, items, i);
    }
  }

  function AuditProof(h: Hasher, items: seq<Bytes>, i: nat): Proof
    requires i < |items|
  {
    Proof(|items|, i, Leaf(h, items[i]), Aunts(h, items, i))
  }

  lemma AuditProofVerifies(h: Hasher, items: seq<Bytes>, i: nat)
    requires i < |items|
    ensures Verify(h, AuditProof(h, items, i), HashFromByteSlices(h, items), items[i])
  {
    AuntsLeadToRoot(h, items, i);
  }
}
