/** Facts about control-flow paths: dominance as "every path passes through", and the splicing
    argument that bounds what can re-execute between a dominator and its uses. */
module ClifPaths {
  import opened Clif

  lemma {:induction false} PrefixIsPath(f: Func, path: seq<Point>, k: nat)
    requires IsPath(f, path) && k < |path|
    ensures PathTo(f, path[..k + 1], path[k])
  {
  }

  /** The last position before `k` at which `path` stands at `d`. */
  ghost function LastBefore(path: seq<Point>, d: Point, k: nat): (l: nat)
    requires k <= |path| && d in path[..k]
    ensures l < k && path[l] == d && forall j :: l < j < k ==> path[j] != d
  {
    if path[k - 1] == d then k - 1 else LastBefore(path, d, k - 1)
  }

  ghost function FirstAt(path: seq<Point>, p: Point): (j: nat)
    requires p in path
    ensures j < |path| && path[j] == p && p !in path[..j]
  {
    if path[0] == p then 0 else FirstAt(path[1..], p) + 1
  }

  /** A dominator other than the point itself was passed strictly before. */
  lemma {:induction false} DominatorBefore(f: Func, path: seq<Point>, d: Point, k: nat)
    requires IsPath(f, path) && k < |path| && Dominates(f, d, path[k]) && d != path[k]
    ensures d in path[..k]
  {
    PrefixIsPath(f, path, k);
    assert d in path[..k + 1];
  }

  /** Cutting out the stretch between two visits of one point leaves a path. */
  lemma {:induction false} SpliceIsPath(f: Func, path: seq<Point>, a: nat, b: nat, k: nat)
    requires IsPath(f, path) && a < |path| && b <= k < |path| && path[a] == path[b]
    ensures PathTo(f, path[..a + 1] + path[b + 1..k + 1], path[k])
  {
    hide CodeOk, Succs, IsLast;
    var spliced := path[..a + 1] + path[b + 1..k + 1];
    forall i | 0 < i < |spliced| ensures Next(f, spliced[i - 1], spliced[i]) {
      if i == a + 1 {
        assert Next(f, path[b], path[b + 1]);
      } else if i > a + 1 {
        var q := i - a + b;
        assert spliced[i] == path[q] && spliced[i - 1] == path[q - 1] && Next(f, path[q - 1], path[q]);
      }
    }
  }

  /** Up to its first visit, a strict dominator of `d` has not been preceded by `d`. */
  lemma {:induction false} FirstVisitAvoids(f: Func, path: seq<Point>, d: Point, p: Point, first: nat, q: nat)
    requires IsPath(f, path) && Dominates(f, p, d) && p != d
    requires first < |path| && path[first] == p && p !in path[..first] && q <= first
    ensures path[q] != d
  {
    hide CodeOk;
    if path[q] == d {
      PrefixIsPath(f, path, q);
    }
  }

  /** Between the last visit of `d` and a point it dominates, nothing that strictly dominates `d`
      is visited again: otherwise a path could be spliced together that avoids `d`. */
  lemma {:induction false} NoReentry(f: Func, path: seq<Point>, d: Point, p: Point, l: nat, k: nat, j: nat)
    requires IsPath(f, path) && l < j <= k < |path|
    requires path[l] == d && forall i :: l < i <= k ==> path[i] != d
    requires Dominates(f, d, path[k]) && Dominates(f, p, d) && p != d
    ensures path[j] != p
  {
    hide CodeOk;
    if path[j] == p {
      var first := FirstAt(path, p);
      SpliceIsPath(f, path, first, j, k);
      var spliced := path[..first + 1] + path[j + 1..k + 1];
      forall q | 0 <= q < |spliced| ensures spliced[q] != d {
        if q <= first { FirstVisitAvoids(f, path, d, p, first, q); }
      }
      assert false;
    }
  }

  lemma {:induction false} DominatesTransitive(f: Func, a: Point, b: Point, c: Point)
    requires Dominates(f, a, b) && Dominates(f, b, c)
    ensures Dominates(f, a, c)
  {
    forall path | PathTo(f, path, c) ensures a in path {
      var k := FirstAt(path, b);
      PrefixIsPath(f, path, k);
    }
  }

  /** Dominance is antisymmetric on reachable points. */
  lemma {:induction false} DominatesAntisymmetric(f: Func, a: Point, b: Point)
    requires Reachable(f, b) && Dominates(f, a, b) && Dominates(f, b, a)
    ensures a == b
  {
    var path :| PathTo(f, path, b);
    var i, j := FirstAt(path, a), FirstAt(path, b);
    PrefixIsPath(f, path, i);
    PrefixIsPath(f, path, j);
    assert path[i] in path[..j + 1] && path[j] in path[..i + 1];
  }

  lemma {:induction false} AvailableAt(f: Func, v: Value, p: Point, q: Point)
    requires WellFormed(f) && v < |f.values|
    requires Available(f, v, p) && Dominates(f, p, q) && Reachable(f, q)
    ensures Available(f, v, q)
  {
    DominatesTransitive(f, DefPoint(f, v), p, q);
    if DefPoint(f, v) == q {
      DominatesAntisymmetric(f, p, q);
    }
  }
}
