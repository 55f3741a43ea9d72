/**
 * Parent links: each node names at most one parent. Both the role hierarchy and the
 * department tree are stored this way; a forest is a link map without cycles.
 */
module Forest {
  import opened Prelude

  type Links = map<string, string>

  /** The n-th ancestor of x. */
  ghost function Up(p: Links, x: string, n: nat): Option<string>
    decreases n
  {
    if n == 0 then Some(x) else if x in p then Up(p, p[x], n - 1) else None
  }

  /** a is a strict ancestor of x. */
  ghost predicate Above(p: Links, x: string, a: string) {
    exists n: nat :: n > 0 && Up(p, x, n) == Some(a)
  }

  ghost predicate Acyclic(p: Links) {
    forall x :: !Above(p, x, x)
  }

  lemma {:induction false} UpCompose(p: Links, x: string, n: nat, m: nat)
    requires Up(p, x, n).Some?
    ensures Up(p, x, n + m) == Up(p, Up(p, x, n).value, m)
    decreases n
  {
    if n > 0 {
      UpCompose(p, p[x], n - 1, m);
    }
  }

  /** The ancestors of x are its parent and the ancestors of its parent. */
  lemma AboveFirst(p: Links, x: string, a: string)
    ensures Above(p, x, a) <==> x in p && (p[x] == a || Above(p, p[x], a))
  {
    if Above(p, x, a) {
      var n: nat :| n > 0 && Up(p, x, n) == Some(a);
      assert Up(p, p[x], n - 1) == Some(a);
      if n == 1 {
        assert p[x] == a;
      }
    }
    if x in p && p[x] == a {
      assert Up(p, a, 0) == Some(a);
      assert Up(p, x, 1) == Some(a);
    }
    if x in p && Above(p, p[x], a) {
      var n: nat :| n > 0 && Up(p, p[x], n) == Some(a);
      assert Up(p, x, n + 1) == Some(a);
    }
  }

  lemma AboveTransitive(p: Links, x: string, y: string, z: string)
    requires Above(p, x, y) && Above(p, y, z)
    ensures Above(p, x, z)
  {
    var n: nat :| n > 0 && Up(p, x, n) == Some(y);
    var m: nat :| m > 0 && Up(p, y, m) == Some(z);
    UpCompose(p, x, n, m);
  }

  /** a is above x iff some child of a is x or above x. */
  lemma AboveLast(p: Links, x: string, a: string)
    ensures Above(p, x, a) <==> exists y :: y in p && p[y] == a && (x == y || Above(p, x, y))
  {
    if Above(p, x, a) {
      var n: nat :| n > 0 && Up(p, x, n) == Some(a);
      LastStep(p, x, n);
      var y := Up(p, x, n - 1).value;
      assert y in p && p[y] == a;
      if n == 1 {
        assert x == y;
      }
    }
    forall y | y in p && p[y] == a && (x == y || Above(p, x, y)) ensures Above(p, x, a) {
      AboveFirst(p, y, a);
      if x != y {
        AboveTransitive(p, x, y, a);
      }
    }
  }

  lemma {:induction false} LastStep(p: Links, x: string, n: nat)
    requires n > 0 && Up(p, x, n).Some?
    ensures Up(p, x, n - 1).Some? && Up(p, x, n - 1).value in p && p[Up(p, x, n - 1).value] == Up(p, x, n).value
    decreases n
  {
    if n == 1 {
      assert Up(p, x, 0) == Some(x) && Up(p, p[x], 0) == Some(p[x]);
    } else {
      LastStep(p, p[x], n - 1);
    }
  }

  lemma NoLinksAcyclic()
    ensures Acyclic(map[])
  {
    var none: Links := map[];
    forall x ensures !Above(none, x, x) {
      AboveFirst(none, x, x);
    }
  }

  // ------------------------------------------------------------------ adding a leaf

  /** Hanging a new leaf x below a leaves every other node's ancestors as they were. */
  lemma {:induction false} LeafKeepsUp(p: Links, x: string, a: string, y: string, n: nat)
    requires x !in p && x !in p.Values && x != y
    ensures Up(p[x := a], y, n) == Up(p, y, n)
    decreases n
  {
    if n > 0 && y in p {
      assert p[y] in p.Values;
      LeafKeepsUp(p, x, a, p[y], n - 1);
    }
  }

  lemma LeafKeepsOthers(p: Links, x: string, a: string, y: string, b: string)
    requires x !in p && x !in p.Values && x != y
    ensures Above(p[x := a], y, b) <==> Above(p, y, b)
  {
    if Above(p[x := a], y, b) {
      var n: nat :| n > 0 && Up(p[x := a], y, n) == Some(b);
      LeafKeepsUp(p, x, a, y, n);
    }
    if Above(p, y, b) {
      var n: nat :| n > 0 && Up(p, y, n) == Some(b);
      LeafKeepsUp(p, x, a, y, n);
    }
  }

  lemma LeafKeepsAbove(p: Links, x: string, a: string, y: string, b: string)
    requires x !in p && x !in p.Values && x != a
    ensures y != x ==> (Above(p[x := a], y, b) <==> Above(p, y, b))
    ensures y == x ==> (Above(p[x := a], y, b) <==> b == a || Above(p, a, b))
  {
    if y != x {
      LeafKeepsOthers(p, x, a, y, b);
    } else {
      AboveFirst(p[x := a], x, b);
      LeafKeepsOthers(p, x, a, a, b);
    }
  }

  /** An unlinked node is nobody's ancestor. */
  lemma UnlinkedIsNotAbove(p: Links, x: string, y: string)
    requires x !in p.Values
    ensures !Above(p, y, x)
  {
    AboveLast(p, y, x);
    forall z | z in p ensures p[z] != x {
      assert p[z] in p.Values;
    }
  }

  lemma LeafKeepsAcyclic(p: Links, x: string, a: string)
    requires Acyclic(p) && x !in p && x !in p.Values && x != a
    ensures Acyclic(p[x := a])
  {
    var p' := p[x := a];
    forall y ensures !Above(p', y, y) {
      LeafKeepsAbove(p, x, a, y, y);
      UnlinkedIsNotAbove(p, x, a);
    }
  }

  // ------------------------------------------------------------------ moving a node

  /** Until a walk meets x it does not notice that x was moved. */
  lemma {:induction false} WalkMissesMove(p: Links, x: string, a: string, y: string, n: nat)
    requires forall k: nat | k < n :: Up(p, y, k) != Some(x)
    ensures Up(p[x := a], y, n) == Up(p, y, n)
    decreases n
  {
    if n > 0 && y in p {
      assert Up(p, y, 0) == Some(y);
      forall k: nat | k < n - 1 ensures Up(p, p[y], k) != Some(x) {
        assert Up(p, y, k + 1) == Up(p, p[y], k);
      }
      WalkMissesMove(p, x, a, p[y], n - 1);
    } else if n > 0 {
      assert Up(p, y, 0) == Some(y);
    }
  }

  /** A walk that reached x before the move still reaches it. */
  lemma {:induction false} MoveKeepsReaching(p: Links, x: string, a: string, y: string, n: nat)
    requires Up(p, y, n) == Some(x) && y != x
    ensures Above(p[x := a], y, x)
    decreases n
  {
    var q := p[x := a];
    AboveFirst(q, y, x);
    if n > 1 && p[y] != x {
      MoveKeepsReaching(p, x, a, p[y], n - 1);
    } else if n == 1 {
      assert Up(p, p[y], 0) == Some(p[y]);
    }
  }

  /** A loop can be walked past any length. */
  lemma {:induction false} LongLoop(p: Links, y: string, n: nat, k: nat) returns (m: nat)
    requires n > 0 && Up(p, y, n) == Some(y)
    ensures m > k && Up(p, y, m) == Some(y)
    decreases k
  {
    if k < n {
      m := n;
    } else {
      var m' := LongLoop(p, y, n, k - n);
      UpCompose(p, y, n, m');
      m := n + m';
    }
  }

  /** Whatever a loop meets is on a loop. */
  lemma LoopThrough(p: Links, y: string, n: nat, k: nat, x: string)
    requires n > 0 && Up(p, y, n) == Some(y) && Up(p, y, k) == Some(x)
    ensures Above(p, x, x)
  {
    var m := LongLoop(p, y, n, k);
    UpCompose(p, y, k, m - k);
    assert Above(p, x, y);
    if k > 0 {
      assert Above(p, y, x);
      AboveTransitive(p, x, y, x);
    } else {
      assert Up(p, y, 0) == Some(y);
    }
  }

  /** A loop introduced by moving x runs through x. */
  lemma LoopMeetsMoved(p: Links, x: string, a: string, y: string)
    requires Acyclic(p) && Above(p[x := a], y, y)
    ensures Above(p[x := a], x, x)
  {
    var q := p[x := a];
    var n: nat :| n > 0 && Up(q, y, n) == Some(y);
    if k: nat :| k < n && Up(q, y, k) == Some(x) {
      LoopThrough(q, y, n, k, x);
    } else {
      if x in p {
        WalkMissesMove(q, x, p[x], y, n);
        assert q[x := p[x]] == p;
      } else {
        WalkWithoutLink(q, x, y, n);
        assert q - {x} == p;
      }
      assert Above(p, y, y);
    }
  }

  lemma {:induction false} WalkWithoutLink(p: Links, x: string, y: string, n: nat)
    requires forall k: nat | k < n :: Up(p, y, k) != Some(x)
    ensures Up(p - {x}, y, n) == Up(p, y, n)
    decreases n
  {
    if n > 0 {
      assert Up(p, y, 0) == Some(y);
      if y in p {
        forall k: nat | k < n - 1 ensures Up(p, p[y], k) != Some(x) {
          assert Up(p, y, k + 1) == Up(p, p[y], k);
        }
        WalkWithoutLink(p, x, p[y], n - 1);
      }
    }
  }

  /** Without the link of x there is no walk that was not there before. */
  lemma {:induction false} UnlinkedWalk(p: Links, x: string, y: string, n: nat)
    requires Up(p - {x}, y, n).Some?
    ensures Up(p, y, n) == Up(p - {x}, y, n)
    decreases n
  {
    if n > 0 {
      UnlinkedWalk(p, x, p[y], n - 1);
    }
  }

  /** A node that is on no loop may lose its link: the others have a cycle with it iff without it. */
  lemma UnlinkKeepsAcyclicIff(p: Links, x: string)
    requires !Above(p, x, x)
    ensures Acyclic(p) <==> Acyclic(p - {x})
  {
    var q := p - {x};
    if y :| Above(q, y, y) {
      var n: nat :| n > 0 && Up(q, y, n) == Some(y);
      UnlinkedWalk(p, x, y, n);
      assert Above(p, y, y);
    }
    if y :| Above(p, y, y) {
      var n: nat :| n > 0 && Up(p, y, n) == Some(y);
      if k: nat :| k < n && Up(p, y, k) == Some(x) {
        LoopThrough(p, y, n, k, x);
      } else {
        WalkWithoutLink(p, x, y, n);
        assert Above(q, y, y);
      }
    }
  }

  /** Moving x below a keeps a forest a forest iff a is neither x nor below x. */
  lemma MoveKeepsAcyclicIff(p: Links, x: string, a: string)
    requires Acyclic(p)
    ensures Acyclic(p[x := a]) <==> a != x && !Above(p, a, x)
  {
    var q := p[x := a];
    AboveFirst(q, x, x);
    if a != x && Above(p, a, x) {
      var n: nat :| n > 0 && Up(p, a, n) == Some(x);
      MoveKeepsReaching(p, x, a, a, n);
      assert Above(q, x, x);
    }
    if a != x && !Above(p, a, x) {
      forall k: nat ensures Up(p, a, k) != Some(x) && Up(q, a, k) != Some(x) {
        NeverMeets(p, x, a, k);
      }
      assert !Above(q, a, x);
      forall y ensures !Above(q, y, y) {
        if Above(q, y, y) {
          LoopMeetsMoved(p, x, a, y);
        }
      }
    }
  }

  lemma NeverMeets(p: Links, x: string, a: string, k: nat)
    requires a != x && !Above(p, a, x)
    ensures Up(p, a, k) != Some(x) && Up(p[x := a], a, k) == Up(p, a, k)
  {
    assert Up(p, a, 0) == Some(a);
    assert forall i: nat :: Up(p, a, i) != Some(x);
    WalkMissesMove(p, x, a, a, k);
  }

  /** A node that is not above y keeps y's ancestors when it is moved. */
  lemma MoveKeepsAbove(p: Links, x: string, a: string, y: string, b: string)
    requires y != x && !Above(p, y, x)
    ensures Above(p[x := a], y, b) <==> Above(p, y, b)
  {
    assert Up(p, y, 0) == Some(y);
    assert forall i: nat :: Up(p, y, i) != Some(x);
    forall n: nat ensures Up(p[x := a], y, n) == Up(p, y, n) {
      WalkMissesMove(p, x, a, y, n);
    }
    if Above(p[x := a], y, b) {
      var n: nat :| n > 0 && Up(p[x := a], y, n) == Some(b);
      assert Up(p, y, n) == Some(b);
    }
    if Above(p, y, b) {
      var n: nat :| n > 0 && Up(p, y, n) == Some(b);
      assert Up(p[x := a], y, n) == Some(b);
    }
  }
}
