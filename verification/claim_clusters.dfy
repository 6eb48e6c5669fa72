/** Clusters of duplicate claims: an independent definition by chains of duplicates, and the
    union-find with path halving that computes the same clusters in place. */
module ClaimClusters {
  import opened ClaimTables

  // ---- Reference definition ---------------------------------------------------------

  /** Two rows of one bucket (category and polarity) that the rule calls the same claim. */
  predicate MergePair(a: Claim, b: Claim) {
    a.category == b.category && DuplicateKind(a.text, b.text).Duplicate?
  }

  /** A chain of duplicates that stays inside `rows`. */
  ghost predicate Chain(rows: seq<Claim>, p: seq<Claim>) {
    && p != []
    && (forall k | 0 <= k < |p| :: p[k] in rows)
    && (forall k | 0 < k < |p| :: MergePair(p[k - 1], p[k]))
  }

  ghost predicate ChainFrom(rows: seq<Claim>, a: Claim, b: Claim, p: seq<Claim>) {
    Chain(rows, p) && p[0] == a && p[|p| - 1] == b
  }

  ghost predicate Linked(rows: seq<Claim>, a: Claim, b: Claim) {
    exists p :: ChainFrom(rows, a, b, p)
  }

  lemma LinkedStep(rows: seq<Claim>, a: Claim, b: Claim)
    requires a in rows && b in rows && MergePair(a, b)
    ensures Linked(rows, a, b)
  {
    assert ChainFrom(rows, a, b, [a, b]);
  }

  lemma LinkedReflexive(rows: seq<Claim>, a: Claim)
    requires a in rows
    ensures Linked(rows, a, a)
  {
    assert ChainFrom(rows, a, a, [a]);
  }

  lemma LinkedTransitive(rows: seq<Claim>, a: Claim, b: Claim, c: Claim)
    requires Linked(rows, a, b) && Linked(rows, b, c)
    ensures Linked(rows, a, c)
  {
    var p: seq<Claim> :| ChainFrom(rows, a, b, p);
    var q: seq<Claim> :| ChainFrom(rows, b, c, q);
    var r := p + q[1..];
    assert forall k | 0 < k < |r| :: MergePair(r[k - 1], r[k]) by {
      forall k | 0 < k < |r| ensures MergePair(r[k - 1], r[k]) {
        if k >= |p| {
          assert r[k] == q[k - |p| + 1];
          assert r[k - 1] == q[k - |p|];
        }
      }
    }
    assert ChainFrom(rows, a, c, r);
  }

  lemma LinkedSymmetric(rows: seq<Claim>, a: Claim, b: Claim)
    requires Linked(rows, a, b)
    ensures Linked(rows, b, a)
  {
    var p: seq<Claim> :| ChainFrom(rows, a, b, p);
    var r := seq(|p|, k requires 0 <= k < |p| => p[|p| - 1 - k]);
    forall k | 0 < k < |r| ensures MergePair(r[k - 1], r[k]) {
      DuplicateKindSymmetric(p[|p| - 1 - k].text, p[|p| - k].text);
      assert MergePair(p[|p| - 1 - k], p[|p| - k]);
    }
    assert ChainFrom(rows, b, a, r);
  }

  /** A chain never leaves the bucket it starts in. */
  lemma {:induction false} ChainStaysInBucket(rows: seq<Claim>, p: seq<Claim>, k: nat)
    requires Chain(rows, p) && k < |p|
    ensures p[k].category == p[0].category && p[k].text.negative == p[0].text.negative
  {
    if k > 0 {
      ChainStaysInBucket(rows, p, k - 1);
      assert MergePair(p[k - 1], p[k]);
    }
  }

  lemma LinkedSameBucket(rows: seq<Claim>, a: Claim, b: Claim)
    requires Linked(rows, a, b)
    ensures a in rows && b in rows && a.category == b.category && a.text.negative == b.text.negative
  {
    var p: seq<Claim> :| ChainFrom(rows, a, b, p);
    ChainStaysInBucket(rows, p, |p| - 1);
  }

  // ---- Union-find -------------------------------------------------------------------

  /** Node `i` agrees with its parent on the root, its root is a fixed point, and `height`
      strictly falls along its parent edge. */
  ghost predicate Node(parent: seq<nat>, rep: seq<nat>, height: seq<nat>, i: nat)
    requires |rep| == |parent| == |height| && i < |parent|
  {
    && parent[i] < |parent| && rep[i] < |parent|
    && parent[rep[i]] == rep[i]
    && rep[parent[i]] == rep[i]
    && (parent[i] == i ==> rep[i] == i)
    && (parent[i] != i ==> height[parent[i]] < height[i])
  }

  /** `parent` is a forest whose roots are named by `rep`; the heights exclude loops. */
  ghost predicate Forest(parent: seq<nat>, rep: seq<nat>, height: seq<nat>) {
    && |rep| == |parent| == |height|
    && forall i: nat | i < |parent| :: Node(parent, rep, height, i)
  }

  lemma HalvingKeepsForest(parent: seq<nat>, rep: seq<nat>, height: seq<nat>, i: nat)
    requires Forest(parent, rep, height) && i < |parent| && parent[i] != i
    ensures parent[i] < |parent| && parent[parent[i]] < |parent|
    ensures height[parent[parent[i]]] < height[i] && rep[parent[parent[i]]] == rep[i]
    ensures Forest(parent[i := parent[parent[i]]], rep, height)
  {
    assert Node(parent, rep, height, i);
    assert Node(parent, rep, height, parent[i]);
    var halved := parent[i := parent[parent[i]]];
    forall j: nat | j < |parent| ensures Node(halved, rep, height, j) {
      assert Node(parent, rep, height, j);
    }
  }

  method Find(parent: array<nat>, start: nat, ghost rep: seq<nat>, ghost height: seq<nat>) returns (root: nat)
    requires start < parent.Length && Forest(parent[..], rep, height)
    modifies parent
    ensures Forest(parent[..], rep, height)
    ensures root == rep[start] && root < parent.Length && parent[root] == root
  {
    var index: nat := start;
    assert Node(parent[..], rep, height, start);
    while parent[index] != index
      invariant index < parent.Length && parent[index] < parent.Length && Forest(parent[..], rep, height)
      invariant rep[index] == rep[start]
      decreases height[index]
    {
      ghost var before := parent[..];
      HalvingKeepsForest(before, rep, height, index);
      ghost var halved := before[index := before[before[index]]];
      parent[index] := parent[parent[index]];
      assert parent[..] == halved;
      index := parent[index];
      assert Node(parent[..], rep, height, index);
    }
    assert Node(parent[..], rep, height, index);
    root := index;
  }

  /** The root labelling after the class of `loser` joins the class of `winner`. */
  ghost function Relabel(rep: seq<nat>, winner: nat, loser: nat): (r: seq<nat>)
    ensures |r| == |rep|
    ensures forall i | 0 <= i < |rep| :: r[i] == if rep[i] == loser then winner else rep[i]
  {
    seq(|rep|, i requires 0 <= i < |rep| => if rep[i] == loser then winner else rep[i])
  }

  /** Heights of the losing class are lifted above the winner's root. */
  ghost function Lift(rep: seq<nat>, height: seq<nat>, winner: nat, loser: nat): (h: seq<nat>)
    requires |rep| == |height| && winner < |height|
    ensures |h| == |height|
    ensures forall i | 0 <= i < |h| :: h[i] == if rep[i] == loser then height[i] + height[winner] + 1 else height[i]
  {
    seq(|height|, i requires 0 <= i < |height| =>
      if rep[i] == loser then height[i] + height[winner] + 1 else height[i])
  }

  lemma LinkingKeepsForest(parent: seq<nat>, rep: seq<nat>, height: seq<nat>, winner: nat, loser: nat)
    requires Forest(parent, rep, height) && winner < |parent| && loser < |parent|
    requires parent[winner] == winner && parent[loser] == loser && winner != loser
    ensures Forest(parent[loser := winner], Relabel(rep, winner, loser), Lift(rep, height, winner, loser))
  {
    var p, r, h := parent[loser := winner], Relabel(rep, winner, loser), Lift(rep, height, winner, loser);
    assert Node(parent, rep, height, winner) && Node(parent, rep, height, loser);
    forall j: nat | j < |parent| ensures Node(p, r, h, j) {
      assert Node(parent, rep, height, j);
    }
  }

  method Union(parent: array<nat>, left: nat, right: nat, ghost rep: seq<nat>, ghost height: seq<nat>)
    returns (ghost newRep: seq<nat>, ghost newHeight: seq<nat>)
    requires left < parent.Length && right < parent.Length && Forest(parent[..], rep, height)
    modifies parent
    ensures Forest(parent[..], newRep, newHeight)
    ensures newRep == Relabel(rep, rep[left], rep[right])
  {
    var leftRoot := Find(parent, left, rep, height);
    var rightRoot := Find(parent, right, rep, height);
    assert Node(parent[..], rep, height, left);
    newRep, newHeight := Relabel(rep, rep[left], rep[right]), height;
    if leftRoot != rightRoot {
      LinkingKeepsForest(parent[..], rep, height, leftRoot, rightRoot);
      ghost var linked := parent[..][rightRoot := leftRoot];
      parent[rightRoot] := leftRoot;
      assert parent[..] == linked;
      newHeight := Lift(rep, height, leftRoot, rightRoot);
    } else {
      assert newRep == rep;
    }
  }

  /** Roots agree exactly on linked rows: soundness and completeness of the partition. */
  ghost predicate Partition(group: seq<Claim>, rep: seq<nat>) {
    && |rep| == |group|
    && forall i, j | 0 <= i < |group| && 0 <= j < |group| ::
         rep[i] == rep[j] <==> Linked(group, group[i], group[j])
  }

  ghost predicate Sound(group: seq<Claim>, rep: seq<nat>) {
    && |rep| == |group|
    && forall i, j | 0 <= i < |group| && 0 <= j < |group| && rep[i] == rep[j] ::
         Linked(group, group[i], group[j])
  }

  /** Row `i` has been compared with every later row, for all `i` below `left`, and row
      `left` with the rows below `right`. */
  predicate Compared(left: nat, right: nat, i: nat, j: nat) {
    i < j && (i < left || (i == left && j < right))
  }

  ghost predicate Merged(group: seq<Claim>, rep: seq<nat>, left: nat, right: nat) {
    && |rep| == |group|
    && forall i: nat, j: nat | i < |group| && j < |group| && Compared(left, right, i, j) && MergePair(group[i], group[j]) ::
         rep[i] == rep[j]
  }

  lemma RelabelSound(group: seq<Claim>, rep: seq<nat>, left: nat, right: nat)
    requires Sound(group, rep) && left < |group| && right < |group| && MergePair(group[left], group[right])
    ensures Sound(group, Relabel(rep, rep[left], rep[right]))
  {
    var r := Relabel(rep, rep[left], rep[right]);
    LinkedStep(group, group[left], group[right]);
    LinkedSymmetric(group, group[left], group[right]);
    forall i, j | 0 <= i < |group| && 0 <= j < |group| && r[i] == r[j]
      ensures Linked(group, group[i], group[j])
    {
      if rep[i] != rep[j] {
        if rep[i] == rep[right] {
          LinkedTransitive(group, group[i], group[right], group[left]);
          LinkedTransitive(group, group[i], group[left], group[j]);
        } else {
          LinkedTransitive(group, group[i], group[left], group[right]);
          LinkedTransitive(group, group[i], group[right], group[j]);
        }
      }
    }
  }

  /** Once every pair has been compared, the labelling is exactly the linked relation. */
  lemma SoundAndMergedIsPartition(group: seq<Claim>, rep: seq<nat>)
    requires forall i, j | 0 <= i < j < |group| :: group[i] != group[j]
    requires Sound(group, rep) && Merged(group, rep, |group|, 0)
    ensures Partition(group, rep)
  {
    forall i, j | 0 <= i < |group| && 0 <= j < |group| && Linked(group, group[i], group[j])
      ensures rep[i] == rep[j]
    {
      var p: seq<Claim> :| ChainFrom(group, group[i], group[j], p);
      ChainKeepsRoot(group, rep, p, i, j);
    }
  }

  lemma {:induction false} ChainKeepsRoot(group: seq<Claim>, rep: seq<nat>, p: seq<Claim>, i: nat, j: nat)
    requires forall a, b | 0 <= a < b < |group| :: group[a] != group[b]
    requires Merged(group, rep, |group|, 0)
    requires i < |group| && j < |group| && ChainFrom(group, group[i], group[j], p)
    ensures rep[i] == rep[j]
    decreases |p|
  {
    if |p| > 1 {
      var q := p[..|p| - 1];
      var m :| 0 <= m < |group| && group[m] == p[|p| - 2];
      assert ChainFrom(group, group[i], group[m], q);
      ChainKeepsRoot(group, rep, q, i, m);
      assert MergePair(p[|p| - 2], p[|p| - 1]);
      DuplicateKindSymmetric(group[m].text, group[j].text);
      if m < j {
        assert Compared(|group|, 0, m, j);
      } else if j < m {
        assert Compared(|group|, 0, j, m);
      }
    }
  }
}
