/**
 * Replacing each chunk's import list by its static closure, and putting the lists back
 * (apps/web/scripts/hoist-transitive-chunk-imports.ts).
 *
 * A bundle's outputs are keyed by their file name, and `order` lists the keys as `Object.values`
 * visits them.
 */
module HoistImports {
  import opened ChunkGraph
  import opened Sequences

  /** The elements in order of first occurrence, as a `Set` built from a list keeps them. */
  function Dedup(xs: seq<FileName>): (ys: seq<FileName>)
    ensures IsDistinct(ys)
    ensures forall x :: x in ys <==> x in xs
  {
    if xs == [] then []
    else
      var rest, last := xs[..|xs| - 1], xs[|xs| - 1];
      assert xs == rest + [last];
      if last in rest then Dedup(rest) else Dedup(rest) + [last]
  }

  /** Everything `name` reaches in one or more steps, once, the direct imports first. */
  ghost predicate IsClosure(g: Outputs, name: FileName, imports: seq<FileName>)
    requires name in g && g[name].Chunk?
  {
    && IsDistinct(imports)
    && Dedup(g[name].imports) <= imports
    && forall b :: b in imports <==> Reaches(g, name, b)
  }

  function ImportedNames(g: Outputs): set<FileName> {
    set a, b | a in g.Keys && g[a].Chunk? && b in g[a].imports :: b
  }

  lemma {:induction false} DistinctIsNotLonger(xs: seq<FileName>, universe: set<FileName>)
    requires IsDistinct(xs) && forall x :: x in xs ==> x in universe
    ensures |xs| <= |universe|
  {
    if xs != [] {
      var last := xs[|xs| - 1];
      DistinctIsNotLonger(xs[..|xs| - 1], universe - {last});
    }
  }

  /** What the walk has collected: reached names, with what the first `done` of them import. */
  ghost predicate IsWalking(g: Outputs, name: FileName, closure: seq<FileName>, done: nat)
    requires name in g && g[name].Chunk?
  {
    && done <= |closure|
    && IsDistinct(closure)
    && Dedup(g[name].imports) <= closure
    && (forall x :: x in closure ==> x in ImportedNames(g) && Reaches(g, name, x))
    && (forall k, y :: 0 <= k < done && Imports(g, closure[k], y) ==> y in closure)
  }

  lemma StartWalking(g: Outputs, name: FileName)
    requires name in g && g[name].Chunk?
    ensures IsWalking(g, name, Dedup(g[name].imports), 0)
  {
    forall x | x in g[name].imports
      ensures Reaches(g, name, x)
    {
      ImportReaches(g, name, x);
    }
  }

  lemma FinishWalking(g: Outputs, name: FileName, closure: seq<FileName>)
    requires name in g && g[name].Chunk?
    requires IsWalking(g, name, closure, |closure|)
    ensures IsClosure(g, name, closure)
  {
    var inside := set x | x in closure;
    forall x | Imports(g, name, x)
      ensures x in inside
    {
      assert x in Dedup(g[name].imports);
    }
    forall b | Reaches(g, name, b)
      ensures b in closure
    {
      ReachesStaysInside(g, name, b, inside);
    }
  }

  /** Adds what one collected file imports to the set that is being iterated. */
  method AddImports(ghost g: Outputs, ghost name: FileName, closure: seq<FileName>, ghost done: nat, next: seq<FileName>)
    returns (larger: seq<FileName>)
    requires name in g && g[name].Chunk? && IsWalking(g, name, closure, done) && done < |closure|
    requires closure[done] in g && g[closure[done]].Chunk? && next == g[closure[done]].imports
    ensures IsWalking(g, name, larger, done + 1) && closure <= larger
  {
    larger := closure;
    for n := 0 to |next|
      invariant IsWalking(g, name, larger, done) && closure <= larger
      invariant forall y :: y in next[..n] ==> y in larger
    {
      if next[n] !in larger {
        ImportReaches(g, closure[done], next[n]);
        ReachesIsTransitive(g, name, closure[done], next[n]);
        larger := larger + [next[n]];
      }
    }
  }

  /** The closure of one chunk: a set that grows while it is iterated. */
  method Walk(outputs: Outputs, name: FileName) returns (closure: seq<FileName>)
    requires name in outputs && outputs[name].Chunk?
    ensures IsClosure(outputs, name, closure)
  {
    closure := Dedup(outputs[name].imports);
    StartWalking(outputs, name);
    var i := 0;
    while i < |closure|
      invariant IsWalking(outputs, name, closure, i)
      decreases |ImportedNames(outputs)| - i
    {
      DistinctIsNotLonger(closure, ImportedNames(outputs));
      var fileName := closure[i];
      if fileName in outputs && outputs[fileName].Chunk? {
        closure := AddImports(outputs, name, closure, i, outputs[fileName].imports);
      }
      i := i + 1;
    }
    FinishWalking(outputs, name, closure);
  }

  lemma ClosureOfOriginal(original: Outputs, g: Outputs, name: FileName, closure: seq<FileName>)
    requires IsWidened(original, g)
    requires name in original && original[name].Chunk? && g[name] == original[name]
    requires IsClosure(g, name, closure)
    ensures IsClosure(original, name, closure)
    ensures IsWidened(original, g[name := original[name].(imports := closure)])
  {
    forall b
      ensures Reaches(g, name, b) <==> Reaches(original, name, b)
    {
      WidenedReachesTheSame(original, g, name, b);
    }
    forall b | Imports(original, name, b)
      ensures b in closure
    {
      ImportReaches(original, name, b);
    }
  }

  lemma OriginalIsWidened(original: Outputs)
    ensures IsWidened(original, original)
  {
    forall a, b | Imports(original, a, b)
      ensures Reaches(original, a, b)
    {
      ImportReaches(original, a, b);
    }
  }

  /** Only import lists of chunks differ. */
  ghost predicate SameApartFromImports(g: Outputs, h: Outputs) {
    && g.Keys == h.Keys
    && forall a :: a in g ==>
         && g[a].Chunk? == h[a].Chunk?
         && (g[a].Chunk? ==> g[a].modules == h[a].modules)
         && (g[a].Asset? ==> g[a] == h[a])
  }

  /** What `widen` keeps for `restore`: the list of every chunk, over what it kept before. */
  function ImportLists(g: Outputs): map<FileName, seq<FileName>> {
    map a | a in g && g[a].Chunk? :: g[a].imports
  }

  /** The output has its closure. */
  ghost predicate IsHoisted(original: Outputs, g: Outputs, a: FileName) {
    a in original && original[a].Chunk? ==> a in g && g[a].Chunk? && IsClosure(original, a, g[a].imports)
  }

  /** The lists of the chunks among `names` are kept, over what was kept before. */
  ghost predicate Keeps(
    before: map<FileName, seq<FileName>>, saved: map<FileName, seq<FileName>>, original: Outputs, names: seq<FileName>)
  {
    saved == before + map a | a in names && a in original && original[a].Chunk? :: original[a].imports
  }

  /** The state of `widen` after the first `i` outputs. */
  ghost predicate IsHoisting(original: Outputs, g: Outputs, order: seq<FileName>, i: nat) {
    && i <= |order|
    && SameApartFromImports(original, g)
    && IsWidened(original, g)
    && (forall a :: a in order[i..] && a in original ==> g[a] == original[a])
    && (forall a :: a in order[..i] ==> IsHoisted(original, g, a))
  }

  lemma NextOutput(order: seq<FileName>, i: nat)
    requires IsDistinct(order) && i < |order|
    ensures order[i] !in order[..i] && order[i] !in order[i + 1..]
    ensures forall a :: a in order[..i + 1] <==> a in order[..i] || a == order[i]
    ensures forall a :: a in order[i..] <==> a == order[i] || a in order[i + 1..]
  {
    assert order[i..] == [order[i]] + order[i + 1..];
    assert order[..i + 1] == order[..i] + [order[i]];
  }

  lemma HoistChunk(original: Outputs, g: Outputs, order: seq<FileName>, i: nat, closure: seq<FileName>)
    requires i < |order| && IsDistinct(order) && order[i] in original && IsHoisting(original, g, order, i)
    requires g[order[i]].Chunk? && IsClosure(g, order[i], closure)
    ensures IsHoisting(original, g[order[i] := g[order[i]].(imports := closure)], order, i + 1)
  {
    var name := order[i];
    NextOutput(order, i);
    assert g[name] == original[name];
    ClosureOfOriginal(original, g, name, closure);
    var later, done := g[name := g[name].(imports := closure)], order[..i + 1];
    forall a | a in done
      ensures IsHoisted(original, later, a)
    {
      assert a in order[..i] ==> IsHoisted(original, g, a);
    }
  }

  lemma HoistAsset(original: Outputs, g: Outputs, order: seq<FileName>, i: nat)
    requires i < |order| && IsDistinct(order) && order[i] in original && IsHoisting(original, g, order, i)
    requires g[order[i]].Asset?
    ensures IsHoisting(original, g, order, i + 1)
  {
    NextOutput(order, i);
    assert g[order[i]] == original[order[i]];
  }

  lemma KeepOne(
    before: map<FileName, seq<FileName>>, saved: map<FileName, seq<FileName>>, original: Outputs, order: seq<FileName>, i: nat)
    requires i < |order| && order[i] in original && Keeps(before, saved, original, order[..i])
    ensures
      var name := order[i];
      Keeps(before, if original[name].Chunk? then saved[name := original[name].imports] else saved, original, order[..i + 1])
  {
    assert order[..i + 1] == order[..i] + [order[i]];
  }

  lemma StartHoisting(before: map<FileName, seq<FileName>>, original: Outputs, order: seq<FileName>)
    ensures IsHoisting(original, original, order, 0) && Keeps(before, before, original, order[..0])
  {
    OriginalIsWidened(original);
  }

  lemma FinishHoisting(
    before: map<FileName, seq<FileName>>, saved: map<FileName, seq<FileName>>, original: Outputs, g: Outputs,
    order: seq<FileName>)
    requires forall a :: a in order <==> a in original
    requires IsHoisting(original, g, order, |order|) && Keeps(before, saved, original, order[..|order|])
    ensures saved == before + ImportLists(original)
    ensures forall a :: a in original && original[a].Chunk? ==> a in g && g[a].Chunk? && IsClosure(original, a, g[a].imports)
  {
    assert order[..|order|] == order;
    assert forall a :: a in order ==> IsHoisted(original, g, a);
  }

  class Bundle {
    const order: seq<FileName>
    var outputs: Outputs

    constructor (order: seq<FileName>, outputs: Outputs)
      ensures this.order == order && this.outputs == outputs
    {
      this.order := order;
      this.outputs := outputs;
    }

    ghost predicate Valid()
      reads this
    {
      IsDistinct(order) && forall a :: a in order <==> a in outputs
    }
  }

  class Hoisting {
    var directImports: map<FileName, seq<FileName>>

    constructor ()
      ensures directImports == map[]
    {
      directImports := map[];
    }

    /**
     * Leaves every chunk's imports as the closure of the graph it was given, in whatever order the
     * chunks come, although later chunks walk through lists that are already widened. Whatever an
     * earlier build left behind is kept, except that lists of its own chunks are new.
     */
    method Widen(bundle: Bundle)
      requires bundle.Valid()
      modifies this`directImports, bundle`outputs
      ensures bundle.Valid()
      ensures SameApartFromImports(old(bundle.outputs), bundle.outputs)
      ensures forall a :: a in old(bundle.outputs) && old(bundle.outputs)[a].Chunk? ==>
                IsClosure(old(bundle.outputs), a, bundle.outputs[a].imports)
      ensures directImports == old(directImports) + ImportLists(old(bundle.outputs))
    {
      ghost var original := bundle.outputs;
      StartHoisting(directImports, original, bundle.order);
      for i := 0 to |bundle.order|
        invariant IsHoisting(original, bundle.outputs, bundle.order, i)
        invariant Keeps(old(directImports), directImports, original, bundle.order[..i])
      {
        WidenOne(bundle, original, old(directImports), i);
      }
      FinishHoisting(old(directImports), directImports, original, bundle.outputs, bundle.order);
    }

    method WidenOne(bundle: Bundle, ghost original: Outputs, ghost before: map<FileName, seq<FileName>>, i: nat)
      requires i < |bundle.order| && IsDistinct(bundle.order) && forall a :: a in bundle.order <==> a in original
      requires IsHoisting(original, bundle.outputs, bundle.order, i)
      requires Keeps(before, directImports, original, bundle.order[..i])
      modifies this`directImports, bundle`outputs
      ensures IsHoisting(original, bundle.outputs, bundle.order, i + 1)
      ensures Keeps(before, directImports, original, bundle.order[..i + 1])
    {
      var fileName := bundle.order[i];
      NextOutput(bundle.order, i);
      KeepOne(before, directImports, original, bundle.order, i);
      var output := bundle.outputs[fileName];
      if output.Chunk? {
        directImports := directImports[fileName := output.imports];
        var closure := Walk(bundle.outputs, fileName);
        HoistChunk(original, bundle.outputs, bundle.order, i, closure);
        bundle.outputs := bundle.outputs[fileName := output.(imports := closure)];
      } else {
        HoistAsset(original, bundle.outputs, bundle.order, i);
      }
    }

    /** Puts back every list `widen` replaced, and forgets them. */
    method Restore(bundle: Bundle)
      modifies this`directImports, bundle`outputs
      ensures directImports == map[]
      ensures SameApartFromImports(old(bundle.outputs), bundle.outputs)
      ensures forall a :: a in old(bundle.outputs) && old(bundle.outputs)[a].Chunk? ==>
                bundle.outputs[a].imports ==
                (if a in old(directImports) then old(directImports)[a] else old(bundle.outputs)[a].imports)
    {
      var rest := directImports.Keys;
      while rest != {}
        invariant rest <= directImports.Keys && directImports == old(directImports)
        invariant SameApartFromImports(old(bundle.outputs), bundle.outputs)
        invariant forall a :: a in old(bundle.outputs) && old(bundle.outputs)[a].Chunk? ==>
                    bundle.outputs[a].imports ==
                    (if a in directImports && a !in rest then directImports[a] else old(bundle.outputs)[a].imports)
        decreases rest
      {
        var fileName :| fileName in rest;
        rest := rest - {fileName};
        if fileName in bundle.outputs && bundle.outputs[fileName].Chunk? {
          bundle.outputs := bundle.outputs[fileName := bundle.outputs[fileName].(imports := directImports[fileName])];
        }
      }
      directImports := map[];
    }
  }

  /**
   * `widen`, whatever reads the bundle in between, and `restore` leave it as it was, also after a build
   * that failed between the two.
   */
  method WidenThenRestore(hoisting: Hoisting, bundle: Bundle)
    requires bundle.Valid()
    modifies hoisting, bundle
    ensures bundle.outputs == old(bundle.outputs) && hoisting.directImports == map[]
  {
    hoisting.Widen(bundle);
    hoisting.Restore(bundle);
    ghost var original := old(bundle.outputs);
    forall a | a in original
      ensures bundle.outputs[a] == original[a]
    {
      assert a in bundle.order;
    }
    assert bundle.outputs == original;
  }
}
