/** Walks and shortest distances in a directed graph, given as a set of pairs. */
module Paths {
  type Graph = set<(string, string)>

  ghost predicate IsWalk(g: Graph, p: seq<string>) {
    |p| > 0 && forall i :: 0 <= i < |p| - 1 ==> (p[i], p[i + 1]) in g
  }

  /** p goes from a to b in n hops. */
  ghost predicate Joins(g: Graph, a: string, b: string, p: seq<string>, n: nat) {
    IsWalk(g, p) && |p| == n + 1 && p[0] == a && p[n] == b
  }

  ghost predicate ReachesIn(g: Graph, a: string, b: string, n: nat) {
    exists p :: Joins(g, a, b, p, n)
  }

  ghost predicate Distance(g: Graph, a: string, b: string, n: nat) {
    ReachesIn(g, a, b, n) && forall m: nat :: m < n ==> !ReachesIn(g, a, b, m)
  }

  ghost function Succ(g: Graph, s: set<string>): set<string> {
    set e | e in g && e.0 in s :: e.1
  }

  /** The nodes within n hops of a. */
  ghost function Ball(g: Graph, a: string, n: nat): set<string> {
    if n == 0 then {a} else Ball(g, a, n - 1) + Succ(g, Ball(g, a, n - 1))
  }

  ghost function Elements(s: seq<string>): set<string> {
    set v | v in s
  }

  ghost function Reversed(g: Graph): Graph {
    set e | e in g :: (e.1, e.0)
  }

  lemma Trivial(g: Graph, a: string)
    ensures ReachesIn(g, a, a, 0) && Distance(g, a, a, 0)
  {
    assert Joins(g, a, a, [a], 0);
  }

  lemma ZeroHops(g: Graph, a: string, b: string)
    ensures ReachesIn(g, a, b, 0) <==> a == b
  {
    Trivial(g, a);
  }

  lemma ReachesStep(g: Graph, a: string, b: string, c: string, n: nat)
    requires ReachesIn(g, a, b, n) && (b, c) in g
    ensures ReachesIn(g, a, c, n + 1)
  {
    var p :| Joins(g, a, b, p, n);
    assert Joins(g, a, c, p + [c], n + 1);
  }

  lemma ReachesUnstep(g: Graph, a: string, c: string, n: nat)
    requires ReachesIn(g, a, c, n + 1)
    ensures exists b :: ReachesIn(g, a, b, n) && (b, c) in g
  {
    var p :| Joins(g, a, c, p, n + 1);
    assert Joins(g, a, p[n], p[..n + 1], n);
    assert (p[n], p[n + 1]) in g;
  }

  lemma BallReaches(g: Graph, a: string, v: string, n: nat)
    requires v in Ball(g, a, n)
    ensures exists m: nat :: m <= n && ReachesIn(g, a, v, m)
    decreases n
  {
    if n == 0 {
      ZeroHops(g, a, v);
    } else if v in Ball(g, a, n - 1) {
      BallReaches(g, a, v, n - 1);
    } else {
      var e :| e in g && e.0 in Ball(g, a, n - 1) && e.1 == v;
      BallReaches(g, a, e.0, n - 1);
      var m: nat :| m <= n - 1 && ReachesIn(g, a, e.0, m);
      ReachesStep(g, a, e.0, v, m);
    }
  }

  lemma ReachInBall(g: Graph, a: string, v: string, n: nat)
    requires ReachesIn(g, a, v, n)
    ensures v in Ball(g, a, n)
    decreases n
  {
    if n == 0 {
      ZeroHops(g, a, v);
    } else {
      ReachesUnstep(g, a, v, n - 1);
      var b :| ReachesIn(g, a, b, n - 1) && (b, v) in g;
      ReachInBall(g, a, b, n - 1);
      assert v in Succ(g, Ball(g, a, n - 1));
    }
  }

  lemma BallIsReach(g: Graph, a: string, v: string, n: nat)
    ensures v in Ball(g, a, n) <==> exists m: nat :: m <= n && ReachesIn(g, a, v, m)
  {
    if v in Ball(g, a, n) {
      BallReaches(g, a, v, n);
    }
    if m: nat :| m <= n && ReachesIn(g, a, v, m) {
      ReachInBall(g, a, v, m);
      BallGrows(g, a, m, n);
    }
  }

  lemma DistanceIsSphere(g: Graph, a: string, v: string, n: nat)
    ensures Distance(g, a, v, n) <==> v in Ball(g, a, n) && (n > 0 ==> v !in Ball(g, a, n - 1))
  {
    BallIsReach(g, a, v, n);
    if n > 0 {
      BallIsReach(g, a, v, n - 1);
    }
  }

  lemma BallGrows(g: Graph, a: string, m: nat, n: nat)
    requires m <= n
    ensures Ball(g, a, m) <= Ball(g, a, n)
    decreases n
  {
    if m < n {
      BallGrows(g, a, m, n - 1);
    }
  }

  lemma DistanceUnique(g: Graph, a: string, v: string, m: nat, n: nat)
    requires Distance(g, a, v, m) && Distance(g, a, v, n)
    ensures m == n
  {
  }

  lemma ReachHasDistance(g: Graph, a: string, v: string, n: nat)
    requires ReachesIn(g, a, v, n)
    ensures exists m: nat :: m <= n && Distance(g, a, v, m)
    decreases n
  {
    if m: nat :| m < n && ReachesIn(g, a, v, m) {
      ReachHasDistance(g, a, v, m);
    } else {
      assert Distance(g, a, v, n);
    }
  }

  /** Once a layer is empty there are no further nodes. */
  lemma BallStable(g: Graph, a: string, n: nat, m: nat)
    requires Ball(g, a, n) == Ball(g, a, n + 1) && n <= m
    ensures Ball(g, a, m) == Ball(g, a, n)
    decreases m
  {
    if n < m {
      BallStable(g, a, n, m - 1);
      assert Ball(g, a, m) == Ball(g, a, m - 1) + Succ(g, Ball(g, a, m - 1));
      assert Ball(g, a, n + 1) == Ball(g, a, n) + Succ(g, Ball(g, a, n));
    }
  }

  ghost predicate NoRepeats(p: seq<string>) {
    forall i, j :: 0 <= i < j < |p| ==> p[i] != p[j]
  }

  lemma CutLoop(g: Graph, a: string, b: string, p: seq<string>, n: nat, i: nat, j: nat)
    requires Joins(g, a, b, p, n) && i < j <= n && p[i] == p[j]
    ensures ReachesIn(g, a, b, n - (j - i))
  {
    var q := p[..i] + p[j..];
    forall k | 0 <= k < |q| - 1 ensures (q[k], q[k + 1]) in g {
      if k < i {
        assert q[k] == p[k] && q[k + 1] == p[k + 1];
      } else {
        assert q[k] == p[k - i + j] && q[k + 1] == p[k - i + j + 1];
      }
    }
    assert Joins(g, a, b, q, n - (j - i));
  }

  /** A shortest walk visits no node twice: a loop could be cut out. */
  lemma ShortestIsSimple(g: Graph, a: string, b: string, p: seq<string>, n: nat)
    requires Joins(g, a, b, p, n) && Distance(g, a, b, n)
    ensures NoRepeats(p)
  {
    forall i, j | 0 <= i < j < |p| ensures p[i] != p[j] {
      if p[i] == p[j] {
        CutLoop(g, a, b, p, n, i, j);
      }
    }
  }

  lemma PrefixJoins(g: Graph, a: string, b: string, p: seq<string>, n: nat, k: nat)
    requires Joins(g, a, b, p, n) && k <= n
    ensures Joins(g, a, p[k], p[..k + 1], k)
  {
  }

  lemma AppendNew(s: seq<string>, x: string)
    requires NoRepeats(s) && x !in Elements(s)
    ensures NoRepeats(s + [x]) && Elements(s + [x]) == Elements(s) + {x}
  {
  }

  ghost function Backwards(p: seq<string>): (r: seq<string>)
    ensures |r| == |p| && forall i :: 0 <= i < |p| ==> r[i] == p[|p| - 1 - i]
  {
    seq(|p|, i requires 0 <= i < |p| => p[|p| - 1 - i])
  }

  lemma JoinsBackwards(g: Graph, a: string, b: string, p: seq<string>, n: nat)
    requires Joins(g, a, b, p, n)
    ensures Joins(Reversed(g), b, a, Backwards(p), n)
  {
    var r := Backwards(p);
    forall i | 0 <= i < n ensures (r[i], r[i + 1]) in Reversed(g) {
      assert (p[n - 1 - i], p[n - i]) in g;
    }
  }

  /** Against the edges the distances are the same. */
  lemma DistanceBackwards(g: Graph, a: string, b: string, n: nat)
    ensures Distance(Reversed(g), b, a, n) <==> Distance(g, a, b, n)
  {
    forall m: nat ensures ReachesIn(Reversed(g), b, a, m) <==> ReachesIn(g, a, b, m) {
      if p :| Joins(g, a, b, p, m) {
        JoinsBackwards(g, a, b, p, m);
      }
      if p :| Joins(Reversed(g), b, a, p, m) {
        JoinsBackwards(Reversed(g), b, a, p, m);
        assert Reversed(Reversed(g)) == g;
      }
    }
  }
}
