/** The chunks of a bundle, and which files they statically reach. */
module ChunkGraph {
  type FileName = string

  datatype Output = Chunk(imports: seq<FileName>, modules: seq<string>) | Asset

  type Outputs = map<FileName, Output>

  predicate Imports(g: Outputs, a: FileName, b: FileName) {
    a in g && g[a].Chunk? && b in g[a].imports
  }

  /** One or more imports, end to end. */
  ghost predicate IsPath(g: Outputs, p: seq<FileName>) {
    |p| >= 2 && forall i :: 0 <= i < |p| - 1 ==> Imports(g, p[i], p[i + 1])
  }

  ghost predicate Connects(g: Outputs, p: seq<FileName>, a: FileName, b: FileName) {
    IsPath(g, p) && p[0] == a && p[|p| - 1] == b
  }

  ghost predicate Reaches(g: Outputs, a: FileName, b: FileName) {
    exists p :: Connects(g, p, a, b)
  }

  lemma ImportReaches(g: Outputs, a: FileName, b: FileName)
    requires Imports(g, a, b)
    ensures Reaches(g, a, b)
  {
    assert Connects(g, [a, b], a, b);
  }

  lemma ReachesIsTransitive(g: Outputs, a: FileName, b: FileName, c: FileName)
    requires Reaches(g, a, b) && Reaches(g, b, c)
    ensures Reaches(g, a, c)
  {
    var p :| Connects(g, p, a, b);
    var q :| Connects(g, q, b, c);
    var pq := p + q[1..];
    forall i | 0 <= i < |pq| - 1
      ensures Imports(g, pq[i], pq[i + 1])
    {
      if i < |p| - 1 {
        assert Imports(g, p[i], p[i + 1]);
      } else {
        assert Imports(g, q[i - |p| + 1], q[i - |p| + 2]);
      }
    }
    assert Connects(g, pq, a, c);
  }

  /** A property that holds of what `a` imports and is passed on by imports holds of all it reaches. */
  lemma {:induction false} ReachesStaysInside(g: Outputs, a: FileName, b: FileName, inside: set<FileName>)
    requires Reaches(g, a, b)
    requires forall x :: Imports(g, a, x) ==> x in inside
    requires forall x, y :: x in inside && Imports(g, x, y) ==> y in inside
    ensures b in inside
  {
    var p :| Connects(g, p, a, b);
    PathStaysInside(g, p, inside, |p| - 1);
  }

  lemma {:induction false} PathStaysInside(g: Outputs, p: seq<FileName>, inside: set<FileName>, i: nat)
    requires IsPath(g, p) && 1 <= i < |p|
    requires forall x :: Imports(g, p[0], x) ==> x in inside
    requires forall x, y :: x in inside && Imports(g, x, y) ==> y in inside
    ensures p[i] in inside
  {
    assert Imports(g, p[i - 1], p[i - 1 + 1]);
    if i > 1 {
      PathStaysInside(g, p, inside, i - 1);
    }
  }

  /** Between the original graph and its closure: import lists may have been widened in place. */
  ghost predicate IsWidened(original: Outputs, g: Outputs) {
    && g.Keys == original.Keys
    && (forall a, b :: Imports(original, a, b) ==> Imports(g, a, b))
    && (forall a, b :: Imports(g, a, b) ==> Reaches(original, a, b))
  }

  /** Widening some chunks does not change what any file reaches. */
  lemma WidenedReachesTheSame(original: Outputs, g: Outputs, a: FileName, b: FileName)
    requires IsWidened(original, g)
    ensures Reaches(g, a, b) <==> Reaches(original, a, b)
  {
    if Reaches(original, a, b) {
      var p :| Connects(original, p, a, b);
      assert Connects(g, p, a, b);
    }
    if Reaches(g, a, b) {
      var p :| Connects(g, p, a, b);
      WidenedPathReaches(original, g, p, |p| - 1);
    }
  }

  lemma {:induction false} WidenedPathReaches(original: Outputs, g: Outputs, p: seq<FileName>, i: nat)
    requires IsWidened(original, g) && IsPath(g, p) && 1 <= i < |p|
    ensures Reaches(original, p[0], p[i])
  {
    assert Imports(g, p[i - 1], p[i - 1 + 1]);
    if i > 1 {
      WidenedPathReaches(original, g, p, i - 1);
      ReachesIsTransitive(original, p[0], p[i - 1], p[i]);
    }
  }
}
