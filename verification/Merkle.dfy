/**
 The Merkle inclusion proof of a transparency log. The tree hash and the audit path are
 the recursive definitions of sections 2.1 and 2.1.1 of RFC 6962; the verifier walks the
 path bottom-up with two shifting counters (section 2.1.3.2 of RFC 9162).
 */
module Merkle {
  import opened Text

  /** Every digest has 32 bytes. */
  ghost predicate Digests(H: Hash) { forall x {:trigger H(x)} :: |H(x)| == 32 }

  ghost predicate All32(hs: seq<string>) { forall i :: 0 <= i < |hs| ==> |hs[i]| == 32 }

  function NodeText(left: string, right: string): string { [1 as char] + left + right }

  function LeafText(entry: string): string { [0 as char] + entry }

  /** hashChildren */
  function Node(H: Hash, left: string, right: string): string { H(NodeText(left, right)) }

  function LeafHashes(H: Hash, entries: seq<string>): (hs: seq<string>)
    ensures |hs| == |entries|
  {
    seq(|entries|, i requires 0 <= i < |entries| => H(LeafText(entries[i])))
  }

  // ----- Halving: fn / 2 and fn % 2 by recursion, which the solver follows without division -----

  function Half(n: nat): nat { if n <= 1 then 0 else 1 + Half(n - 2) }

  predicate Odd(n: nat) { n == 1 || (n > 1 && Odd(n - 2)) }

  lemma {:induction false} HalfIsDivision(n: nat)
    ensures Half(n) == n / 2 && (Odd(n) <==> n % 2 == 1)
  {
    if n > 1 { HalfIsDivision(n - 2); }
  }

  lemma {:induction false} Parity(n: nat) returns (j: nat)
    ensures j == Half(n) && n == (if Odd(n) then j + j + 1 else j + j)
  {
    if n <= 1 { j := 0; } else { j := Parity(n - 2); j := j + 1; }
  }

  lemma {:induction false} Doubles(j: nat)
    ensures Half(j + j) == j && !Odd(j + j) && Half(j + j + 1) == j && Odd(j + j + 1)
  {
    if j > 0 { Doubles(j - 1); }
  }

  // ----- The recursive definitions -----

  /** Doubles k until 2k reaches n. */
  function SplitFrom(k: nat, n: nat): (r: nat)
    requires 1 <= k < n
    ensures k <= r < n <= r + r
    decreases n - k
  {
    if k + k < n then SplitFrom(k + k, n) else k
  }

  /** The largest power of two smaller than n, where RFC 6962 splits a tree. */
  function SplitPoint(n: nat): (k: nat)
    requires n >= 2
    ensures 1 <= k < n <= k + k
  {
    SplitFrom(1, n)
  }

  /** The Merkle tree hash MTH over a non-empty list of leaf hashes. */
  function TreeHash(H: Hash, hs: seq<string>): string
    requires |hs| >= 1
    decreases |hs|
  {
    if |hs| == 1 then hs[0]
    else
      var k := SplitPoint(|hs|);
      Node(H, TreeHash(H, hs[..k]), TreeHash(H, hs[k..]))
  }

  /** The audit path PATH for leaf i. */
  function AuditPath(H: Hash, i: nat, hs: seq<string>): seq<string>
    requires i < |hs|
    decreases |hs|
  {
    if |hs| == 1 then []
    else
      var k := SplitPoint(|hs|);
      if i < k then AuditPath(H, i, hs[..k]) + [TreeHash(H, hs[k..])]
      else AuditPath(H, i - k, hs[k..]) + [TreeHash(H, hs[..k])]
  }

  ghost function PowerOfTwo(e: nat): (p: nat)
    ensures p > e
  {
    if e == 0 then 1 else PowerOfTwo(e - 1) + PowerOfTwo(e - 1)
  }

  lemma {:induction false} PowersApart(d: nat, e: nat)
    ensures d < e ==> PowerOfTwo(d) + PowerOfTwo(d) <= PowerOfTwo(e)
  {
    if d + 1 < e { PowersApart(d, e - 1); }
  }

  lemma {:induction false} SplitFromIsPower(d: nat, n: nat) returns (e: nat)
    requires PowerOfTwo(d) < n
    ensures SplitFrom(PowerOfTwo(d), n) == PowerOfTwo(e)
    decreases n - PowerOfTwo(d)
  {
    e := d;
    if PowerOfTwo(d) + PowerOfTwo(d) < n { e := SplitFromIsPower(d + 1, n); }
  }

  /** The split point is the largest power of two below n, and the only one with n at most its double. */
  lemma {:induction false} SplitPointIsLargestPower(n: nat, d: nat)
    requires n >= 2
    ensures exists e :: SplitPoint(n) == PowerOfTwo(e)
    ensures PowerOfTwo(d) < n ==> PowerOfTwo(d) <= SplitPoint(n)
    ensures PowerOfTwo(d) < n <= PowerOfTwo(d) + PowerOfTwo(d) ==> SplitPoint(n) == PowerOfTwo(d)
  {
    var e := SplitFromIsPower(0, n);
    PowersApart(d, e);
    PowersApart(e, d);
  }

  // ----- The tree these definitions build -----

  datatype Tree = Leaf(hash: string) | Fork(left: Tree, right: Tree)

  function Count(t: Tree): (n: nat)
    ensures n >= 1
  {
    match t case Leaf(_) => 1 case Fork(l, r) => Count(l) + Count(r)
  }

  function HashOf(H: Hash, t: Tree): string {
    match t case Leaf(h) => h case Fork(l, r) => Node(H, HashOf(H, l), HashOf(H, r))
  }

  function LeafAt(t: Tree, i: nat): string
    requires i < Count(t)
  {
    match t case Leaf(h) => h case Fork(l, r) => if i < Count(l) then LeafAt(l, i) else LeafAt(r, i - Count(l))
  }

  function PathIn(H: Hash, t: Tree, i: nat): seq<string>
    requires i < Count(t)
  {
    match t
    case Leaf(_) => []
    case Fork(l, r) => if i < Count(l) then PathIn(H, l, i) + [HashOf(H, r)]
        else PathIn(H, r, i - Count(l)) + [HashOf(H, l)]
  }

  /** A complete tree of 2^e leaves. */
  ghost predicate Perfect(t: Tree, e: nat)
    decreases e
  {
    if e == 0 then t.Leaf? else t.Fork? && Perfect(t.left, e - 1) && Perfect(t.right, e - 1)
  }

  /** A tree of at most 2^e leaves in which every fork has a complete left side no lower than its right. */
  ghost predicate Fits(t: Tree, e: nat)
    decreases e
  {
    if e == 0 then t.Leaf? else Fits(t, e - 1) || (t.Fork? && Perfect(t.left, e - 1) && Fits(t.right, e - 1))
  }

  ghost function Build(hs: seq<string>): (t: Tree)
    requires |hs| >= 1
    ensures Count(t) == |hs|
    decreases |hs|
  {
    if |hs| == 1 then Leaf(hs[0])
    else var k := SplitPoint(|hs|); Fork(Build(hs[..k]), Build(hs[k..]))
  }

  /** Splitting at the largest power of two gives complete left sides. */
  lemma {:induction false} BuildFits(hs: seq<string>, e: nat)
    requires 1 <= |hs| <= PowerOfTwo(e)
    ensures Fits(Build(hs), e) && (|hs| == PowerOfTwo(e) ==> Perfect(Build(hs), e))
    decreases e
  {
    if e > 0 {
      if |hs| <= PowerOfTwo(e - 1) {
        BuildFits(hs, e - 1);
      } else {
        SplitPointIsLargestPower(|hs|, e - 1);
        BuildFits(hs[..SplitPoint(|hs|)], e - 1);
        BuildFits(hs[SplitPoint(|hs|)..], e - 1);
      }
    }
  }

  lemma {:induction false} BuildHash(H: Hash, hs: seq<string>)
    requires |hs| >= 1
    ensures HashOf(H, Build(hs)) == TreeHash(H, hs)
    decreases |hs|
  {
    if |hs| > 1 {
      var k := SplitPoint(|hs|);
      BuildHash(H, hs[..k]);
      BuildHash(H, hs[k..]);
    }
  }

  lemma {:induction false} BuildPath(H: Hash, i: nat, hs: seq<string>)
    requires i < |hs|
    ensures PathIn(H, Build(hs), i) == AuditPath(H, i, hs) && LeafAt(Build(hs), i) == hs[i]
    decreases |hs|
  {
    hide HashOf, TreeHash, SplitPoint;
    if |hs| > 1 {
      var k := SplitPoint(|hs|);
      BuildHash(H, hs[..k]);
      BuildHash(H, hs[k..]);
      if i < k { BuildPath(H, i, hs[..k]); } else { BuildPath(H, i - k, hs[k..]); }
    }
  }

  // ----- One level up -----

  ghost predicate TwoLeaves(t: Tree) { t.Fork? && t.left.Leaf? && t.right.Leaf? }

  /** The same tree with its lowest pairs of leaves hashed together; a last odd leaf is carried up. */
  ghost function Up(H: Hash, t: Tree): Tree {
    if t.Leaf? then t
    else if TwoLeaves(t) then Leaf(Node(H, t.left.hash, t.right.hash))
    else Fork(Up(H, t.left), Up(H, t.right))
  }

  lemma {:induction false} UpPerfect(H: Hash, t: Tree, e: nat)
    requires e > 0 && Perfect(t, e)
    ensures Perfect(Up(H, t), e - 1) && Count(t) == Count(Up(H, t)) + Count(Up(H, t))
        && HashOf(H, Up(H, t)) == HashOf(H, t)
  {
    if e > 1 {
      UpPerfect(H, t.left, e - 1);
      UpPerfect(H, t.right, e - 1);
    }
  }

  lemma {:induction false} UpFits(H: Hash, t: Tree, e: nat)
    requires e > 0 && Fits(t, e)
    ensures Fits(Up(H, t), e - 1) && HashOf(H, Up(H, t)) == HashOf(H, t)
    ensures Count(t) <= Count(Up(H, t)) + Count(Up(H, t)) <= Count(t) + 1
    decreases e
  {
    if e > 1 {
      if Fits(t, e - 1) {
        UpFits(H, t, e - 1);
      } else {
        UpPerfect(H, t.left, e - 1);
        UpFits(H, t.right, e - 1);
      }
    }
  }

  /** A tree with three leaves or more has a complete left side with an even number of leaves. */
  lemma {:induction false} Sides(H: Hash, t: Tree, e: nat) returns (d: nat)
    requires Fits(t, e) && t.Fork? && !TwoLeaves(t)
    ensures 0 < d < e && Perfect(t.left, d) && Fits(t.left, d) && Fits(t.right, d)
    ensures Up(H, t) == Fork(Up(H, t.left), Up(H, t.right))
        && Count(t.left) == Count(Up(H, t.left)) + Count(Up(H, t.left))
    ensures Count(Up(H, t)) == Count(Up(H, t.left)) + Count(Up(H, t.right))
    decreases e
  {
    if Fits(t, e - 1) {
      d := Sides(H, t, e - 1);
    } else {
      d := e - 1;
      UpPerfect(H, t.left, d);
      PerfectFits(t.left, d);
    }
  }

  lemma {:induction false} PerfectFits(t: Tree, e: nat)
    requires Perfect(t, e)
    ensures Fits(t, e)
    decreases e
  {
    if e > 0 { PerfectFits(t.right, e - 1); }
  }

  ghost predicate Parents(H: Hash, t: Tree, up: Tree, j: nat)
    requires j + j < Count(t) && j < Count(up)
  {
    LeafAt(up, j) == if j + j + 1 < Count(t) then Node(H, LeafAt(t, j + j), LeafAt(t, j + j + 1)) else LeafAt(t, j + j)
  }

  lemma {:induction false} ParentsInSide(H: Hash, t: Tree, up: Tree, j: nat, m: nat)
    requires t.Fork? && up.Fork? && Count(t.left) == m + m && Count(up.left) == m && j + j < Count(t) && j < Count(up)
    requires if j < m then Parents(H, t.left, up.left, j) else Parents(H, t.right, up.right, j - m)
    ensures Parents(H, t, up, j)
  {
  }

  /** Leaf j one level up is the parent of leaves 2j and 2j + 1, or a last odd leaf 2j. */
  lemma {:induction false} UpLeaf(H: Hash, t: Tree, e: nat, j: nat)
    requires e > 0 && Fits(t, e) && j + j < Count(t)
    ensures j < Count(Up(H, t)) && Parents(H, t, Up(H, t), j)
    decreases e
  {
    if t.Fork? && !TwoLeaves(t) {
      var d := Sides(H, t, e);
      var m := Count(Up(H, t.left));
      UpFits(H, t.right, d);
      if j < m { UpLeaf(H, t.left, d, j); } else { UpLeaf(H, t.right, d, j - m); }
      ParentsInSide(H, t, Up(H, t), j, m);
    } else {
      assert j == 0;
    }
  }

  /** The neighbour of leaf i, when it has one: leaf i - 1 of an odd leaf, leaf i + 1 of an even one. */
  ghost function Neighbour(t: Tree, i: nat): seq<string>
    requires i < Count(t)
  {
    if Odd(i) then [LeafAt(t, i - 1)] else if i + 1 < Count(t) then [LeafAt(t, i + 1)] else []
  }

  /** A leaf of a side with an even number of leaves has its neighbour there too. */
  lemma {:induction false} NeighbourInSide(t: Tree, i: nat, j: nat, m: nat)
    requires t.Fork? && Count(t.left) == m + m && i < Count(t) && i == (if Odd(i) then j + j + 1 else j + j)
    ensures j < m ==> i < m + m && Neighbour(t, i) == Neighbour(t.left, i)
    ensures j >= m ==> m + m <= i && Odd(i - m - m) == Odd(i) && Neighbour(t, i) == Neighbour(t.right, i - m - m)
  {
    if j >= m { Doubles(j - m); }
  }

  lemma {:induction false} PathsAlike(H: Hash, t: Tree, i: nat, up: Tree, j: nat, first: seq<string>)
    requires t.Fork? && up.Fork? && i < Count(t) && j < Count(up) && (i < Count(t.left) <==> j < Count(up.left))
    requires HashOf(H, up.left) == HashOf(H, t.left) && HashOf(H, up.right) == HashOf(H, t.right)
    requires i < Count(t.left) ==> PathIn(H, t.left, i) == first + PathIn(H, up.left, j)
    requires i >= Count(t.left) ==>
        PathIn(H, t.right, i - Count(t.left)) == first + PathIn(H, up.right, j - Count(up.left))
    ensures PathIn(H, t, i) == first + PathIn(H, up, j)
  {
  }

  lemma {:induction false} UpPathSmall(H: Hash, t: Tree, i: nat)
    requires (t.Leaf? || TwoLeaves(t)) && i < Count(t)
    ensures Count(Up(H, t)) == 1 && Count(t) <= 2
    ensures PathIn(H, t, i) == Neighbour(t, i) + PathIn(H, Up(H, t), 0)
  {
    if t.Fork? {
      assert PathIn(H, t.left, 0) == [] && PathIn(H, t.right, 0) == [];
      assert PathIn(H, t, i) == [if i == 0 then t.right.hash else t.left.hash];
      assert LeafAt(t, 0) == t.left.hash && LeafAt(t, 1) == t.right.hash;
    }
  }

  /** An audit path is the neighbour, then the audit path one level up. */
  lemma {:induction false} UpPath(H: Hash, t: Tree, e: nat, i: nat, j: nat)
    requires e > 0 && Fits(t, e) && i < Count(t) && i == (if Odd(i) then j + j + 1 else j + j)
    ensures j < Count(Up(H, t)) && PathIn(H, t, i) == Neighbour(t, i) + PathIn(H, Up(H, t), j)
    decreases e
  {
    hide HashOf, LeafAt, PathIn, Perfect, Fits, Up, Parents, Neighbour, Odd, Half, Node, TwoLeaves;
    if t.Fork? && !TwoLeaves(t) {
      var d := Sides(H, t, e);
      var m := Count(Up(H, t.left));
      UpFits(H, t.left, d);
      UpFits(H, t.right, d);
      NeighbourInSide(t, i, j, m);
      if j < m { UpPath(H, t.left, d, i, j); } else { UpPath(H, t.right, d, i - m - m, j - m); }
      PathsAlike(H, t, i, Up(H, t), j, Neighbour(t, i));
    } else {
      UpPathSmall(H, t, i);
    }
  }

  // ----- The verifier's walk -----

  datatype Walk = Root(hash: string) | TooShort | TooLong | OutOfRange

  /** The walk by levels: node fn of a level whose last node is sn, with the siblings still unused. */
  function Climb(H: Hash, h: string, fn: nat, sn: nat, path: seq<string>): Walk
    requires fn <= sn
    decreases sn
  {
    if sn == 0 then (if path == [] then Root(h) else TooLong)
    else
      HalfIsDivision(fn); HalfIsDivision(sn);
      if !Odd(fn) && fn == sn then Climb(H, h, Half(fn), Half(sn), path)
      else if path == [] then TooShort
      else Climb(H, if Odd(fn) then Node(H, path[0], h) else Node(H, h, path[0]), Half(fn), Half(sn), path[1..])
  }

  /** recomputeRootRFC6962 */
  method RecomputeRoot(H: Hash, leafHash: string, logIndex: int, treeSize: int, siblings: seq<string>)
    returns (r: Walk)
    ensures r.OutOfRange? <==> !(0 <= logIndex < treeSize)
    ensures 0 <= logIndex < treeSize ==> r == Climb(H, leafHash, logIndex, treeSize - 1, siblings)
  {
    if logIndex < 0 || logIndex >= treeSize {
      return OutOfRange;
    }
    var hash, fn, sn, pathPos := leafHash, logIndex, treeSize - 1, 0;
    ghost var goal := Climb(H, leafHash, logIndex, treeSize - 1, siblings);
    while sn > 0
      invariant 0 <= fn <= sn && 0 <= pathPos <= |siblings|
      invariant Climb(H, hash, fn, sn, siblings[pathPos..]) == goal
      decreases sn
    {
      if pathPos >= |siblings| {
        NothingLeft(H, hash, fn, sn);
        return TooShort;
      }
      var sibling := siblings[pathPos];
      ghost var top := sn;
      ghost var left := siblings[pathPos..];
      assert left[1..] == siblings[pathPos + 1..];
      pathPos := pathPos + 1;
      if fn % 2 == 1 || fn == sn {
        ghost var below := hash;
        hash := Node(H, sibling, hash);
        while fn % 2 == 0 && fn != 0
          invariant 0 < fn <= sn && sn <= top && (fn % 2 == 1 || fn == sn)
          invariant Climb(H, below, fn, sn, left) == goal
          decreases fn
        {
          HalfIsDivision(fn);
          HalfIsDivision(sn);
          fn, sn := fn / 2, sn / 2;
        }
      } else {
        hash := Node(H, hash, sibling);
      }
      HalfIsDivision(fn);
      HalfIsDivision(sn);
      fn, sn := fn / 2, sn / 2;
    }
    if pathPos != |siblings| {
      return TooLong;
    }
    return Root(hash);
  }

  /** With no sibling left above a single-node level the walk ends short. */
  lemma {:induction false} NothingLeft(H: Hash, h: string, fn: nat, sn: nat)
    requires fn <= sn && sn > 0
    ensures Climb(H, h, fn, sn, []) == TooShort
    decreases sn
  {
    HalfIsDivision(sn);
    if !Odd(fn) && fn == sn { NothingLeft(H, h, Half(fn), Half(sn)); }
  }

  // ----- Completeness and soundness -----

  // One step of the walk, by the parity of the node.

  lemma {:induction false} ClimbCarried(H: Hash, h: string, j: nat, path: seq<string>)
    requires j > 0
    ensures Climb(H, h, j + j, j + j, path) == Climb(H, h, j, j, path)
    ensures WalkTexts(H, h, j + j, j + j, path) == WalkTexts(H, h, j, j, path)
  {
    Doubles(j);
  }

  lemma {:induction false} ClimbHashed(H: Hash, h: string, fn: nat, j: nat, sn: nat, m: nat, sibling: string,
      rest: seq<string>)
    requires (fn == j + j || fn == j + j + 1) && (sn == m + m || sn == m + m + 1) && fn <= sn && j <= m
        && !(fn == sn == j + j)
    ensures var text := if fn == j + j then NodeText(h, sibling) else NodeText(sibling, h);
            && Climb(H, h, fn, sn, [sibling] + rest) == Climb(H, H(text), j, m, rest)
            && WalkTexts(H, h, fn, sn, [sibling] + rest) == {text} + WalkTexts(H, H(text), j, m, rest)
  {
    Doubles(j);
    Doubles(m);
    assert ([sibling] + rest)[1..] == rest;
  }

  ghost function StepText(i: nat, h: string, near: seq<string>): set<string> {
    if near == [] then {} else {if Odd(i) then NodeText(near[0], h) else NodeText(h, near[0])}
  }

  /** One step up from node i of n to node j of m, over its neighbour when it has one. */
  lemma {:induction false} ClimbStep(H: Hash, h: string, i: nat, n: nat, near: seq<string>, up: string, j: nat,
      m: nat, rest: seq<string>)
    requires n >= 2 && n <= m + m <= n + 1 && i < n && i == (if Odd(i) then j + j + 1 else j + j)
    requires if !Odd(i) && i == n - 1 then near == [] && up == h
             else |near| == 1 && forall x :: x in StepText(i, h, near) ==> up == H(x)
    ensures j < m && Climb(H, h, i, n - 1, near + rest) == Climb(H, up, j, m - 1, rest)
    ensures WalkTexts(H, h, i, n - 1, near + rest) == StepText(i, h, near) + WalkTexts(H, up, j, m - 1, rest)
  {
    if near == [] {
      assert near + rest == rest;
      ClimbCarried(H, h, j, rest);
    } else {
      ClimbHashed(H, h, i, j, n - 1, m - 1, near[0], rest);
      assert near == [near[0]];
    }
  }

  lemma {:induction false} ForkCounts(t: Tree, e: nat)
    requires t.Fork? && Fits(t, e)
    ensures e > 0 && Count(t) >= 2
  {
  }

  /** A node with its neighbour is one pair of leaves, whose parent is one level up. */
  lemma {:induction false} StepIsPair(H: Hash, t: Tree, i: nat, j: nat, up: Tree)
    requires i < Count(t) && i == (if Odd(i) then j + j + 1 else j + j) && j < Count(up) && Parents(H, t, up, j)
    requires j + j + 1 < Count(t) ==> NodeText(LeafAt(t, j + j), LeafAt(t, j + j + 1)) in TreeTexts(H, t)
    ensures var near, h := Neighbour(t, i), LeafAt(t, i);
            && (if !Odd(i) && i == Count(t) - 1 then near == [] && LeafAt(up, j) == h
                else |near| == 1 && forall x :: x in StepText(i, h, near) ==> LeafAt(up, j) == H(x))
            && StepText(i, h, near) <= TreeTexts(H, t)
  {
    hide LeafAt, NodeText, TreeTexts, Count, Odd;
  }

  lemma {:induction false} UpStep(H: Hash, t: Tree, e: nat, i: nat, j: nat)
      returns (h: string, n: nat, near: seq<string>, up: string, m: nat)
    requires t.Fork? && Fits(t, e) && i < Count(t) && i == (if Odd(i) then j + j + 1 else j + j)
    ensures e > 0 && n == Count(t) >= 2 && m == Count(Up(H, t)) && n <= m + m <= n + 1 && j < m
    ensures near == Neighbour(t, i) && h == LeafAt(t, i) && up == LeafAt(Up(H, t), j)
    ensures if !Odd(i) && i == n - 1 then near == [] && up == h
            else |near| == 1 && forall x :: x in StepText(i, h, near) ==> up == H(x)
    ensures StepText(i, h, near) <= TreeTexts(H, t) && TreeTexts(H, Up(H, t)) <= TreeTexts(H, t)
  {
    hide Fits, Perfect, HashOf, LeafAt, TreeTexts, Up, NodeText, Half, Node, TwoLeaves;
    ForkCounts(t, e);
    UpFits(H, t, e);
    UpLeaf(H, t, e, j);
    UpTexts(H, t, e);
    if j + j + 1 < Count(t) { PairTextInTree(H, t, e, j); }
    StepIsPair(H, t, i, j, Up(H, t));
    h, n, near, up, m := LeafAt(t, i), Count(t), Neighbour(t, i), LeafAt(Up(H, t), j), Count(Up(H, t));
  }

  lemma {:induction false} ClimbLeaf(H: Hash, t: Tree)
    requires t.Leaf?
    ensures Count(t) == 1 && Climb(H, LeafAt(t, 0), 0, 0, PathIn(H, t, 0)) == Root(HashOf(H, t))
    ensures WalkTexts(H, LeafAt(t, 0), 0, 0, PathIn(H, t, 0)) == {}
  {
  }

  lemma {:induction false} ClimbTree(H: Hash, t: Tree, e: nat, i: nat)
    requires Fits(t, e) && i < Count(t)
    ensures Climb(H, LeafAt(t, i), i, Count(t) - 1, PathIn(H, t, i)) == Root(HashOf(H, t))
    ensures WalkTexts(H, LeafAt(t, i), i, Count(t) - 1, PathIn(H, t, i)) <= TreeTexts(H, t)
    decreases e
  {
    hide *;
    if t.Leaf? {
      ClimbLeaf(H, t);
    } else {
      var j := Parity(i);
      var h, n, near, up, m := UpStep(H, t, e, i, j);
      UpFits(H, t, e);
      UpPath(H, t, e, i, j);
      ClimbTree(H, Up(H, t), e - 1, j);
      ClimbStep(H, h, i, n, near, up, j, m, PathIn(H, Up(H, t), j));
    }
  }

  lemma {:induction false} ClimbLength(H: Hash, h: string, t: Tree, e: nat, i: nat, path: seq<string>)
    requires Fits(t, e) && i < Count(t)
    ensures Climb(H, h, i, Count(t) - 1, path).Root? <==> |path| == |PathIn(H, t, i)|
    ensures Climb(H, h, i, Count(t) - 1, path).TooShort? <==> |path| < |PathIn(H, t, i)|
    ensures Climb(H, h, i, Count(t) - 1, path).TooLong? <==> |path| > |PathIn(H, t, i)|
    decreases e
  {
    hide *;
    if t.Leaf? {
      LengthLeaf(H, h, t, path);
    } else {
      var j := Parity(i);
      var _, n, near, _, m := UpStep(H, t, e, i, j);
      UpFits(H, t, e);
      UpPath(H, t, e, i, j);
      if near == [] {
        ClimbCarried(H, h, j, path);
        ClimbLength(H, h, Up(H, t), e - 1, j, path);
      } else if path == [] {
        NothingLeft(H, h, i, n - 1);
      } else {
        var text := if i == j + j then NodeText(h, path[0]) else NodeText(path[0], h);
        ClimbHashed(H, h, i, j, n - 1, m - 1, path[0], path[1..]);
        assert path == [path[0]] + path[1..];
        ClimbLength(H, H(text), Up(H, t), e - 1, j, path[1..]);
      }
    }
  }

  lemma {:induction false} LengthLeaf(H: Hash, h: string, t: Tree, path: seq<string>)
    requires t.Leaf?
    ensures Count(t) == 1 && PathIn(H, t, 0) == [] && Climb(H, h, 0, 0, path) == if path == [] then Root(h) else TooLong
  {
  }

  lemma {:induction false} UpTexts(H: Hash, t: Tree, e: nat)
    requires e > 0 && Fits(t, e)
    ensures TreeTexts(H, Up(H, t)) <= TreeTexts(H, t)
    decreases e
  {
    if t.Fork? && !TwoLeaves(t) {
      var d := Sides(H, t, e);
      UpFits(H, t.left, d);
      UpFits(H, t.right, d);
      UpTexts(H, t.left, d);
      UpTexts(H, t.right, d);
    }
  }

  lemma {:induction false} PairTextInTree(H: Hash, t: Tree, e: nat, j: nat)
    requires e > 0 && Fits(t, e) && j + j + 1 < Count(t)
    ensures NodeText(LeafAt(t, j + j), LeafAt(t, j + j + 1)) in TreeTexts(H, t)
    decreases e
  {
    hide Fits, Perfect, LeafAt, TreeTexts, Up, NodeText, HashOf, Odd, Half, TwoLeaves;
    if t.Fork? && !TwoLeaves(t) {
      var d := Sides(H, t, e);
      var m := Count(Up(H, t.left));
      if j < m { PairTextInTree(H, t.left, d, j); } else { PairTextInTree(H, t.right, d, j - m); }
      PairInSide(H, t, j, m);
    } else {
      SmallPair(H, t, j);
    }
  }

  lemma {:induction false} SmallPair(H: Hash, t: Tree, j: nat)
    requires (t.Leaf? || TwoLeaves(t)) && j + j + 1 < Count(t)
    ensures NodeText(LeafAt(t, j + j), LeafAt(t, j + j + 1)) in TreeTexts(H, t)
  {
    assert j == 0 && LeafAt(t, 0) == t.left.hash && LeafAt(t, 1) == t.right.hash;
  }

  lemma {:induction false} PairInSide(H: Hash, t: Tree, j: nat, m: nat)
    requires t.Fork? && Count(t.left) == m + m && j + j + 1 < Count(t)
    requires if j < m then NodeText(LeafAt(t.left, j + j), LeafAt(t.left, j + j + 1)) in TreeTexts(H, t.left)
             else NodeText(LeafAt(t.right, j + j - m - m), LeafAt(t.right, j + j + 1 - m - m)) in TreeTexts(H, t.right)
    ensures NodeText(LeafAt(t, j + j), LeafAt(t, j + j + 1)) in TreeTexts(H, t)
  {
    hide NodeText;
  }

  /** The walk over the audit path of any leaf of any tree reaches the tree hash. */
  lemma {:induction false} InclusionComplete(H: Hash, i: nat, hs: seq<string>)
    requires i < |hs|
    ensures Climb(H, hs[i], i, |hs| - 1, AuditPath(H, i, hs)) == Root(TreeHash(H, hs))
  {
    hide *;
    BuildFits(hs, |hs|);
    ClimbTree(H, Build(hs), |hs|, i);
    BuildHash(H, hs);
    BuildPath(H, i, hs);
  }

  /** A path is used up to a root exactly when it has the audit path's length. */
  lemma {:induction false} WalkLength(H: Hash, h: string, i: nat, hs: seq<string>, path: seq<string>)
    requires i < |hs|
    ensures Climb(H, h, i, |hs| - 1, path).Root? <==> |path| == |AuditPath(H, i, hs)|
    ensures Climb(H, h, i, |hs| - 1, path).TooShort? <==> |path| < |AuditPath(H, i, hs)|
    ensures Climb(H, h, i, |hs| - 1, path).TooLong? <==> |path| > |AuditPath(H, i, hs)|
  {
    hide *;
    BuildFits(hs, |hs|);
    ClimbLength(H, h, Build(hs), |hs|, i, path);
    BuildPath(H, i, hs);
  }

  /** The strings hashed to form the inner nodes of a tree. */
  ghost function TreeTexts(H: Hash, t: Tree): set<string> {
    match t
    case Leaf(_) => {}
    case Fork(l, r) => {NodeText(HashOf(H, l), HashOf(H, r))} + TreeTexts(H, l) + TreeTexts(H, r)
  }

  /** The strings the walk hashes. */
  ghost function WalkTexts(H: Hash, h: string, fn: nat, sn: nat, path: seq<string>): set<string>
    requires fn <= sn
    decreases sn
  {
    if sn == 0 then {}
    else
      HalfIsDivision(fn); HalfIsDivision(sn);
      if !Odd(fn) && fn == sn then WalkTexts(H, h, Half(fn), Half(sn), path)
      else if path == [] then {}
      else
        var text := if Odd(fn) then NodeText(path[0], h) else NodeText(h, path[0]);
        {text} + WalkTexts(H, H(text), Half(fn), Half(sn), path[1..])
  }

  /** Two pairs of children with one parent digest are the same pair. */
  lemma {:induction false} NodeInjective(H: Hash, a: string, b: string, c: string, d: string, S: set<string>)
    requires InjectiveOn(H, S) && NodeText(a, b) in S && NodeText(c, d) in S
    requires |a| == |c| && Node(H, a, b) == Node(H, c, d)
    ensures a == c && b == d
  {
    assert SameDigest(H, NodeText(a, b), NodeText(c, d));
    assert NodeText(a, b)[1..] == a + b && NodeText(c, d)[1..] == c + d;
    PrefixUnique(a, b, c, d);
  }

  /** For one index, size and root at most one leaf and path are accepted, whatever the tree. */
  lemma {:induction false} InclusionUnique(H: Hash, h: string, p: seq<string>, h': string, p': seq<string>,
                                           fn: nat, sn: nat, S: set<string>)
    requires Digests(H) && fn <= sn && |h| == 32 && |h'| == 32 && All32(p) && All32(p')
    requires WalkTexts(H, h, fn, sn, p) <= S && WalkTexts(H, h', fn, sn, p') <= S && InjectiveOn(H, S)
    requires Climb(H, h, fn, sn, p).Root? && Climb(H, h, fn, sn, p) == Climb(H, h', fn, sn, p')
    ensures h == h' && p == p'
    decreases sn
  {
    if sn > 0 {
      HalfIsDivision(fn);
      HalfIsDivision(sn);
      if !Odd(fn) && fn == sn {
        InclusionUnique(H, h, p, h', p', Half(fn), Half(sn), S);
      } else {
        var text := if Odd(fn) then NodeText(p[0], h) else NodeText(h, p[0]);
        var text' := if Odd(fn) then NodeText(p'[0], h') else NodeText(h', p'[0]);
        InclusionUnique(H, H(text), p[1..], H(text'), p'[1..], Half(fn), Half(sn), S);
        if Odd(fn) { NodeInjective(H, p[0], h, p'[0], h', S); } else { NodeInjective(H, h, p[0], h', p'[0], S); }
        assert p == [p[0]] + p[1..] && p' == [p'[0]] + p'[1..];
      }
    }
  }

  lemma {:induction false} PathIn32(H: Hash, t: Tree, i: nat)
    requires Digests(H) && i < Count(t) && Leaves32(t)
    ensures |HashOf(H, t)| == 32 && All32(PathIn(H, t, i))
  {
    if t.Fork? {
      var n := Count(t.left);
      PathIn32(H, t.left, if i < n then i else 0);
      PathIn32(H, t.right, if i < n then 0 else i - n);
    }
  }

  ghost predicate Leaves32(t: Tree) {
    match t case Leaf(h) => |h| == 32 case Fork(l, r) => Leaves32(l) && Leaves32(r)
  }

  lemma {:induction false} Build32(hs: seq<string>)
    requires |hs| >= 1 && All32(hs)
    ensures Leaves32(Build(hs))
    decreases |hs|
  {
    if |hs| > 1 {
      Build32(hs[..SplitPoint(|hs|)]);
      Build32(hs[SplitPoint(|hs|)..]);
    }
  }

  /** A walk that reaches the tree hash started at that very leaf and followed that very audit path. */
  lemma {:induction false} InclusionSound(H: Hash, h: string, i: nat, hs: seq<string>, path: seq<string>,
      S: set<string>)
    requires Digests(H) && i < |hs| && |h| == 32 && All32(path) && All32(hs)
    requires TreeTexts(H, Build(hs)) <= S && WalkTexts(H, h, i, |hs| - 1, path) <= S && InjectiveOn(H, S)
    requires Climb(H, h, i, |hs| - 1, path) == Root(TreeHash(H, hs))
    ensures h == hs[i] && path == AuditPath(H, i, hs)
  {
    hide *;
    At32(hs, i);
    TreeFacts(H, i, hs);
    InclusionUnique(H, h, path, hs[i], AuditPath(H, i, hs), i, |hs| - 1, S);
  }

  lemma {:induction false} At32(hs: seq<string>, i: nat)
    requires All32(hs) && i < |hs|
    ensures |hs[i]| == 32
  {
  }

  lemma {:induction false} TreeFacts(H: Hash, i: nat, hs: seq<string>)
    requires Digests(H) && i < |hs| && All32(hs)
    ensures Climb(H, hs[i], i, |hs| - 1, AuditPath(H, i, hs)) == Root(TreeHash(H, hs))
    ensures WalkTexts(H, hs[i], i, |hs| - 1, AuditPath(H, i, hs)) <= TreeTexts(H, Build(hs))
    ensures All32(AuditPath(H, i, hs))
  {
    hide *;
    BuildFits(hs, |hs|);
    BuildHash(H, hs);
    BuildPath(H, i, hs);
    Build32(hs);
    ClimbTree(H, Build(hs), |hs|, i);
    PathIn32(H, Build(hs), i);
  }

  /** The hashes of one, two and three entries, as section 2.1 of RFC 6962 spells them out. */
  lemma {:induction false} SmallTrees(H: Hash, a: string, b: string, c: string)
    ensures TreeHash(H, LeafHashes(H, [a])) == H("\U{0}" + a)
    ensures TreeHash(H, LeafHashes(H, [a, b])) == H("\U{1}" + H("\U{0}" + a) + H("\U{0}" + b))
    ensures TreeHash(H, LeafHashes(H, [a, b, c])) ==
            H("\U{1}" + H("\U{1}" + H("\U{0}" + a) + H("\U{0}" + b)) + H("\U{0}" + c))
  {
    assert "\U{0}" == [0 as char] && "\U{1}" == [1 as char];
    var x, y, z := H("\U{0}" + a), H("\U{0}" + b), H("\U{0}" + c);
    assert LeafText(a) == "\U{0}" + a && LeafText(b) == "\U{0}" + b && LeafText(c) == "\U{0}" + c;
    assert LeafHashes(H, [a]) == [x] && LeafHashes(H, [a, b]) == [x, y] && LeafHashes(H, [a, b, c]) == [x, y, z];
    assert [x, y][..1] == [x] && [x, y][1..] == [y];
    assert [x, y, z][..2] == [x, y] && [x, y, z][2..] == [z];
    assert SplitPoint(2) == 1 && SplitPoint(3) == 2;
    assert TreeHash(H, [x, y]) == Node(H, x, y);
  }
}
