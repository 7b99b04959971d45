/** Triangle extraction in `Renderer::RenderRasterizer`: the index buffer is
    walked by topology and each step yields one index triple (or none). */
module Assembly {
  import opened Mesh

  /** One index triple: the vertices A, B, C of a triangle, in drawing order. */
  datatype Triangle = Triangle(a: U32, b: U32, c: U32)

  /** `size_t` arithmetic wraps modulo 2^64. */
  const SizeModulus: int := 0x1_0000_0000_0000_0000

  /** The loop bound as written, `indices.size() - 2`, computed on the unsigned
      `size_t`: fewer than two indices wrap around to a huge bound. */
  function LoopBoundAsWritten(n: nat): nat
    requires n < SizeModulus
  {
    (n - 2) % SizeModulus
  }

  /** The reads of the iteration at `i`, `indices[i]` to `indices[i + 2]`,
      all lie inside a buffer of `n` indices. */
  predicate WindowInBounds(n: nat, i: nat) {
    i + 2 < n
  }

  /** With fewer than two indices the as-written bound lets the first
      iteration, `i = 0`, run, and that iteration reads `indices[2]`, past
      the end of the buffer. */
  lemma ShortIndexBufferOverruns(n: nat)
    requires n < 2
    ensures 0 < LoopBoundAsWritten(n) && !WindowInBounds(n, 0)
  {
    assert n - 2 < 0;
    assert (n - 2) % SizeModulus == SizeModulus + n - 2;
  }

  /** From two indices on, the as-written bound and the in-bounds guard
      `i + 2 < n` used by this model admit exactly the same positions. */
  lemma LoopGuardsAgree(n: nat, i: nat)
    requires 2 <= n < SizeModulus
    ensures i < LoopBoundAsWritten(n) <==> WindowInBounds(n, i)
  {
    assert (n - 2) % SizeModulus == n - 2;
  }

  /** How far the loop advances per step. */
  function Increment(topology: PrimitiveTopology): nat {
    match topology
    case TriangleList => 3
    case TriangleStrip => 1
  }

  /** A triangle with two equal indices. The test order mirrors the source's
      three `continue`s (A == B, B == C, C == A). */
  predicate Degenerate(t: Triangle) {
    t.a == t.b || t.b == t.c || t.c == t.a
  }

  /** The triangle a strip step reads at position `i`: the window
      `indices[i..i+3]`, with B and C swapped on odd `i` so that every
      triangle of the zig-zag keeps the winding of the first one. */
  function StripTriangle(indices: seq<U32>, i: nat): (t: Triangle)
    requires WindowInBounds(|indices|, i)
    ensures t.a == indices[i] && {t.b, t.c} == {indices[i + 1], indices[i + 2]}
    ensures t.b == indices[i + 1] && t.c == indices[i + 2] <== i % 2 == 0
    ensures t.b == indices[i + 2] && t.c == indices[i + 1] <== i % 2 == 1
  {
    if i % 2 != 0 then Triangle(indices[i], indices[i + 2], indices[i + 1])
    else Triangle(indices[i], indices[i + 1], indices[i + 2])
  }

  /** Reference reading of list mode: the k-th triangle is the k-th complete
      triple; a trailing one or two indices form no triangle. */
  function ListTriangles(indices: seq<U32>): seq<Triangle> {
    seq(|indices| / 3, k requires 0 <= k < |indices| / 3 =>
      Triangle(indices[3 * k], indices[3 * k + 1], indices[3 * k + 2]))
  }

  /** Reference reading of strip mode before the degenerate test: one
      candidate per window position. */
  function StripCandidates(indices: seq<U32>): seq<Triangle> {
    if |indices| < 2 then []
    else seq(|indices| - 2, i requires 0 <= i < |indices| - 2 => StripTriangle(indices, i))
  }

  /** The non-degenerate triangles of `ts`, in order. */
  function Drawable(ts: seq<Triangle>): seq<Triangle> {
    if |ts| == 0 then []
    else Drawable(ts[..|ts| - 1]) + (if Degenerate(ts[|ts| - 1]) then [] else [ts[|ts| - 1]])
  }

  lemma {:induction false} DrawableMembership(ts: seq<Triangle>, t: Triangle)
    ensures t in Drawable(ts) <==> t in ts && !Degenerate(t)
  {
    if |ts| > 0 {
      var front := ts[..|ts| - 1];
      DrawableMembership(front, t);
      assert ts == front + [ts[|ts| - 1]];
    }
  }

  /** The triangles the rasterizer draws, by topology. List mode never applies
      the degenerate test; strip mode drops every degenerate window. */
  function TrianglesOf(indices: seq<U32>, topology: PrimitiveTopology): seq<Triangle> {
    match topology
    case TriangleList => ListTriangles(indices)
    case TriangleStrip => Drawable(StripCandidates(indices))
  }

  /** A triangle is drawn in strip mode exactly when it is some window's
      (swapped) triangle and no two of its indices coincide. */
  lemma StripMembership(indices: seq<U32>, t: Triangle)
    ensures t in TrianglesOf(indices, TriangleStrip) <==>
      !Degenerate(t) && exists i :: 0 <= i && i + 2 < |indices| && t == StripTriangle(indices, i)
  {
    DrawableMembership(StripCandidates(indices), t);
    if t in StripCandidates(indices) {
      var i :| 0 <= i < |StripCandidates(indices)| && StripCandidates(indices)[i] == t;
      assert t == StripTriangle(indices, i);
    }
    if exists i :: 0 <= i && i + 2 < |indices| && t == StripTriangle(indices, i) {
      var i :| 0 <= i && i + 2 < |indices| && t == StripTriangle(indices, i);
      assert StripCandidates(indices)[i] == t;
    }
  }

  /** Every index a drawn triangle uses comes from the index buffer, so with
      indices in range every vertex lookup is in range. */
  lemma TrianglesUseBufferIndices(indices: seq<U32>, topology: PrimitiveTopology, vertexCount: nat)
    requires IndicesInRange(indices, vertexCount)
    ensures forall t :: t in TrianglesOf(indices, topology) ==>
      t.a < vertexCount && t.b < vertexCount && t.c < vertexCount
  {
    forall t | t in TrianglesOf(indices, topology)
      ensures t.a < vertexCount && t.b < vertexCount && t.c < vertexCount
    {
      MembersAreIndices(indices, topology, t);
    }
  }

  /** A repeated index is drawn in list mode but skipped in strip mode. */
  lemma DegenerateOnlySkippedInStrips()
    ensures TrianglesOf([5, 5, 7], TriangleList) == [Triangle(5, 5, 7)]
    ensures TrianglesOf([5, 5, 7], TriangleStrip) == []
  {
    assert StripCandidates([5, 5, 7]) == [Triangle(5, 5, 7)];
    assert Drawable([Triangle(5, 5, 7)]) == Drawable([]) + [];
  }

  /** The extraction loop. It runs while `i + 2 < size()`, advancing by the
      topology's increment; in strip mode it swaps B and C on odd `i` and
      skips degenerate triangles. */
  method AssembleTriangles(indices: seq<U32>, topology: PrimitiveTopology) returns (tris: seq<Triangle>)
    ensures tris == TrianglesOf(indices, topology)
    ensures topology == TriangleList ==> |tris| == |indices| / 3
    ensures forall t :: t in tris ==> t.a in indices && t.b in indices && t.c in indices
  {
    var step := Increment(topology);
    ghost var candidates := StripCandidates(indices);
    ghost var triples := ListTriangles(indices);
    tris := [];
    var i := 0;
    while i + 2 < |indices|
      invariant topology == TriangleList ==> i % 3 == 0 && i <= |indices| && tris == triples[..i / 3]
      invariant topology == TriangleStrip ==> i <= |candidates| && tris == Drawable(candidates[..i])
    {
      var a := indices[i];
      var b := indices[i + 1];
      var c := indices[i + 2];
      if topology == TriangleStrip {
        if i % 2 != 0 {
          b, c := c, b;
        }
        StripStep(indices, i);
        if a == b || b == c || c == a {
          i := i + step;
          continue;
        }
      } else {
        ListStep(indices, i);
      }
      tris := tris + [Triangle(a, b, c)];
      i := i + step;
    }
    if topology == TriangleStrip {
      assert candidates[..i] == candidates;
    } else {
      assert triples[..i / 3] == triples;
    }
    forall t | t in tris
      ensures t.a in indices && t.b in indices && t.c in indices
    {
      MembersAreIndices(indices, topology, t);
    }
  }

  /** One strip iteration extends the drawn prefix by the window's triangle
      unless it is degenerate. */
  lemma StripStep(indices: seq<U32>, i: nat)
    requires WindowInBounds(|indices|, i)
    ensures var cs := StripCandidates(indices);
      i < |cs| && cs[i] == StripTriangle(indices, i) &&
      Drawable(cs[..i + 1]) == Drawable(cs[..i]) + (if Degenerate(cs[i]) then [] else [cs[i]])
  {
    var cs := StripCandidates(indices);
    assert cs[..i + 1] == cs[..i] + [cs[i]];
    DrawableSnoc(cs[..i], cs[i]);
  }

  /** One list iteration appends the next complete triple. */
  lemma ListStep(indices: seq<U32>, i: nat)
    requires i % 3 == 0 && WindowInBounds(|indices|, i)
    ensures var ts := ListTriangles(indices);
      i / 3 < |ts| && ts[..i / 3 + 1] == ts[..i / 3] + [Triangle(indices[i], indices[i + 1], indices[i + 2])]
  {
    var ts := ListTriangles(indices);
    assert ts[i / 3] == Triangle(indices[i], indices[i + 1], indices[i + 2]);
    assert ts[..i / 3 + 1] == ts[..i / 3] + [ts[i / 3]];
  }

  lemma DrawableSnoc(ts: seq<Triangle>, t: Triangle)
    ensures Drawable(ts + [t]) == Drawable(ts) + (if Degenerate(t) then [] else [t])
  {
    assert (ts + [t])[..|ts + [t]| - 1] == ts;
  }

  /** The indices of a drawn triangle are entries of the buffer. */
  lemma MembersAreIndices(indices: seq<U32>, topology: PrimitiveTopology, t: Triangle)
    requires t in TrianglesOf(indices, topology)
    ensures t.a in indices && t.b in indices && t.c in indices
  {
    match topology
    case TriangleList => ListMembersAreIndices(indices, t);
    case TriangleStrip => StripMembersAreIndices(indices, t);
  }

  lemma ListMembersAreIndices(indices: seq<U32>, t: Triangle)
    requires t in ListTriangles(indices)
    ensures t.a in indices && t.b in indices && t.c in indices
  {
    var k :| 0 <= k < |indices| / 3 && ListTriangles(indices)[k] == t;
    assert indices[3 * k] == t.a;
    assert indices[3 * k + 1] == t.b;
    assert indices[3 * k + 2] == t.c;
  }

  lemma StripMembersAreIndices(indices: seq<U32>, t: Triangle)
    requires t in Drawable(StripCandidates(indices))
    ensures t.a in indices && t.b in indices && t.c in indices
  {
    DrawableMembership(StripCandidates(indices), t);
    var i :| 0 <= i < |StripCandidates(indices)| && StripCandidates(indices)[i] == t;
    assert t == StripTriangle(indices, i);
    assert indices[i] == t.a;
    assert t.b == indices[i + 1] || t.b == indices[i + 2];
    assert t.c == indices[i + 1] || t.c == indices[i + 2];
  }
}
