/** Keeping library chunks apart from app chunks (apps/web/scripts/vendor-chunks.ts:82-113). */
module VendorChunks {
  import opened ChunkGraph
  import opened Text

  predicate IsAppModule(id: string) {
    !Contains(id, "node_modules") && !StartsWith(id, "\0")
  }

  predicate IsAppChunk(g: Outputs, name: FileName) {
    name in g && g[name].Chunk? && exists id :: id in g[name].modules && IsAppModule(id)
  }

  predicate IsLibraryChunk(g: Outputs, name: FileName) {
    name in g && g[name].Chunk? && !IsAppChunk(g, name)
  }

  /** The check: the pairs of a library chunk and an app chunk it imports. */
  method FindViolations(g: Outputs, order: seq<FileName>) returns (violations: seq<(FileName, FileName)>)
    requires forall a :: a in order <==> a in g
    ensures forall a, b :: (a, b) in violations <==> IsLibraryChunk(g, a) && IsAppChunk(g, b) && Imports(g, a, b)
    ensures violations == [] <==> !exists a, b :: IsLibraryChunk(g, a) && IsAppChunk(g, b) && Reaches(g, a, b)
  {
    var appChunks: set<FileName> := {};
    for i := 0 to |order|
      invariant forall a :: a in appChunks <==> a in order[..i] && IsAppChunk(g, a)
    {
      if IsAppChunk(g, order[i]) {
        appChunks := appChunks + {order[i]};
      }
    }
    assert order[..|order|] == order;
    violations := [];
    for i := 0 to |order|
      invariant forall a, b :: (a, b) in violations <==>
                  a in order[..i] && IsLibraryChunk(g, a) && IsAppChunk(g, b) && Imports(g, a, b)
    {
      var name := order[i];
      if !g[name].Chunk? || name in appChunks {
        continue;
      }
      var imports := g[name].imports;
      for n := 0 to |imports|
        invariant forall a, b :: (a, b) in violations <==>
                    || (a in order[..i] && IsLibraryChunk(g, a) && IsAppChunk(g, b) && Imports(g, a, b))
                    || (a == name && b in imports[..n] && IsAppChunk(g, b))
      {
        if imports[n] in appChunks {
          violations := violations + [(name, imports[n])];
        }
      }
    }
    DirectCheckIsEnough(g);
    if violations != [] {
      var (a, b) := violations[0];
      assert (a, b) in violations;
    }
  }

  /**
   * No library chunk reaches an app chunk along any chain of imports exactly when none imports one
   * directly: where such a chain first leaves the library chunks, it is already a violation.
   */
  lemma DirectCheckIsEnough(g: Outputs)
    ensures (exists a, b :: IsLibraryChunk(g, a) && IsAppChunk(g, b) && Imports(g, a, b)) <==>
            (exists a, b :: IsLibraryChunk(g, a) && IsAppChunk(g, b) && Reaches(g, a, b))
  {
    if a, b :| IsLibraryChunk(g, a) && IsAppChunk(g, b) && Imports(g, a, b) {
      ImportReaches(g, a, b);
    }
    if a, b :| IsLibraryChunk(g, a) && IsAppChunk(g, b) && Reaches(g, a, b) {
      var p :| Connects(g, p, a, b);
      FirstAppChunk(g, p, |p| - 1);
    }
  }

  lemma {:induction false} FirstAppChunk(g: Outputs, p: seq<FileName>, i: nat)
    requires IsPath(g, p) && IsLibraryChunk(g, p[0]) && i < |p| && IsAppChunk(g, p[i])
    ensures exists a, b :: IsLibraryChunk(g, a) && IsAppChunk(g, b) && Imports(g, a, b)
  {
    assert i > 0;
    assert Imports(g, p[i - 1], p[i - 1 + 1]);
    if IsAppChunk(g, p[i - 1]) {
      FirstAppChunk(g, p, i - 1);
    } else {
      assert IsLibraryChunk(g, p[i - 1]);
    }
  }

  /** A bundle that passes has no import cycle through both kinds of chunk. */
  lemma PassingBundleHasNoMixedCycle(g: Outputs, a: FileName, b: FileName)
    requires !exists a, b :: IsLibraryChunk(g, a) && IsAppChunk(g, b) && Imports(g, a, b)
    requires IsLibraryChunk(g, a) && IsAppChunk(g, b)
    ensures !(Reaches(g, a, b) && Reaches(g, b, a))
  {
    DirectCheckIsEnough(g);
  }
}
