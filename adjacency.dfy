/** `PGPEncoder.build_adj_mat`: the dense boolean adjacency matrix the GAT
    layers attend over, built from the successor-edge table `s_next` and the
    edge-type table, both `[batch][max_nodes][max_edges]`.

    An edge type of 0 means "no edge in this slot". The destination stored in
    such a slot is rewritten, in the caller's table, to the slot's own source
    node. The last slot of every node never contributes an edge. */
module Adjacency {

  /** A `[batch][max_nodes][max_edges]` table of integers. */
  type Table = seq<seq<seq<int>>>

  /** `t` has shape `[B][N][E]`. */
  predicate Shaped<T>(t: seq<seq<seq<T>>>, B: nat, N: nat, E: nat)
  {
    && |t| == B
    && (forall b :: 0 <= b < B ==> |t[b]| == N)
    && (forall b, n :: 0 <= b < B && 0 <= n < N ==> |t[b][n]| == E)
  }

  /** The contents of a `[B][N][E]` array as nested sequences. */
  function View<T>(a: array3<T>): (t: seq<seq<seq<T>>>)
    reads a
    ensures Shaped(t, a.Length0, a.Length1, a.Length2)
    ensures forall b, n, e :: 0 <= b < a.Length0 && 0 <= n < a.Length1 && 0 <= e < a.Length2 ==> t[b][n][e] == a[b, n, e]
  {
    seq(a.Length0, b requires 0 <= b < a.Length0 reads a =>
      seq(a.Length1, n requires 0 <= n < a.Length1 reads a =>
        seq(a.Length2, e requires 0 <= e < a.Length2 reads a => a[b, n, e])))
  }

  /** What the caller demands of the tables: equal shapes, and every slot that
      will be scattered (a typed slot other than the last) names a node. */
  predicate ValidTables(sNext: Table, edgeType: Table, B: nat, N: nat, E: nat)
  {
    && Shaped(sNext, B, N, E)
    && Shaped(edgeType, B, N, E)
    && forall b, n, e :: 0 <= b < B && 0 <= n < N && 0 <= e < E - 1 && edgeType[b][n][e] != 0 ==>
         0 <= sNext[b][n][e] < N
  }

  /** Line 275: every untyped slot (edge type 0) points back at its source node;
      every other slot keeps its destination. */
  function WithDummies(sNext: Table, edgeType: Table): (r: Table)
    requires |edgeType| == |sNext|
    requires forall b :: 0 <= b < |sNext| ==> |edgeType[b]| == |sNext[b]|
    requires forall b, n :: 0 <= b < |sNext| && 0 <= n < |sNext[b]| ==> |edgeType[b][n]| == |sNext[b][n]|
    ensures |r| == |sNext| && forall b :: 0 <= b < |sNext| ==> |r[b]| == |sNext[b]|
    ensures forall b, n :: 0 <= b < |sNext| && 0 <= n < |sNext[b]| ==> |r[b][n]| == |sNext[b][n]|
  {
    seq(|sNext|, b requires 0 <= b < |sNext| =>
      seq(|sNext[b]|, n requires 0 <= n < |sNext[b]| =>
        seq(|sNext[b][n]|, e requires 0 <= e < |sNext[b][n]| =>
          if edgeType[b][n][e] == 0 then n else sNext[b][n][e])))
  }

  /** Lines 261-266 and 288-290, before symmetrisation: the self-loop, and an
      edge `i -> j` for every slot of node `i` except the last that holds `j`. */
  predicate Marked(s: Table, b: nat, i: nat, j: nat)
    requires b < |s| && i < |s[b]|
  {
    i == j || exists e :: 0 <= e < |s[b][i]| - 1 && s[b][i][e] == j
  }

  /** Line 291: `adj_mat | adj_mat.transpose(1, 2)`. */
  predicate Adjacent(s: Table, b: nat, i: nat, j: nat)
    requires b < |s| && i < |s[b]| && j < |s[b]|
  {
    Marked(s, b, i, j) || Marked(s, b, j, i)
  }

  /** Node `i` has a typed edge to `j` in one of its slots other than the last. */
  predicate TypedEdge(sNext: Table, edgeType: Table, b: nat, i: nat, j: int)
    requires b < |sNext| && i < |sNext[b]| && b < |edgeType| && i < |edgeType[b]|
    requires |edgeType[b][i]| == |sNext[b][i]|
  {
    exists e :: 0 <= e < |sNext[b][i]| - 1 && edgeType[b][i][e] != 0 && sNext[b][i][e] == j
  }

  /** The full adjacency matrix of a table, entry by entry. */
  function AdjacencyOf(s: Table): (r: seq<seq<seq<bool>>>)
    ensures |r| == |s| && (forall b :: 0 <= b < |s| ==> |r[b]| == |s[b]|)
    ensures forall b, i :: 0 <= b < |s| && 0 <= i < |s[b]| ==> |r[b][i]| == |s[b]|
    ensures forall b, i, j :: 0 <= b < |s| && 0 <= i < |s[b]| && 0 <= j < |s[b]| ==> r[b][i][j] == Adjacent(s, b, i, j)
  {
    seq(|s|, b requires 0 <= b < |s| =>
      seq(|s[b]|, i requires 0 <= i < |s[b]| =>
        seq(|s[b]|, j requires 0 <= j < |s[b]| => Adjacent(s, b, i, j))))
  }

  /** Two tables of the same shape with the same entries are equal. */
  lemma TableExtensionality<T>(s: seq<seq<seq<T>>>, t: seq<seq<seq<T>>>, B: nat, N: nat, E: nat)
    requires Shaped(s, B, N, E) && Shaped(t, B, N, E)
    requires forall b, n, e :: 0 <= b < B && 0 <= n < N && 0 <= e < E ==> s[b][n][e] == t[b][n][e]
    ensures s == t
  {
    forall b | 0 <= b < B
      ensures s[b] == t[b]
    {
      forall n | 0 <= n < N
        ensures s[b][n] == t[b][n]
      {
      }
    }
  }

  /** The adjacency matrix is symmetric. */
  lemma AdjacentSymmetric(s: Table, b: nat, i: nat, j: nat)
    requires b < |s| && i < |s[b]| && j < |s[b]|
    ensures Adjacent(s, b, i, j) == Adjacent(s, b, j, i)
  {
  }

  /** Every node is adjacent to itself, whatever the tables hold. */
  lemma AdjacentReflexive(s: Table, b: nat, i: nat)
    requires b < |s| && i < |s[b]|
    ensures Adjacent(s, b, i, i)
  {
  }

  /** Between distinct nodes, the matrix built from the rewritten table has an
      edge iff one of the two nodes has a typed edge, in a slot other than its
      last, to the other in the original table. */
  lemma AdjacentIffTypedEdge(sNext: Table, edgeType: Table, B: nat, N: nat, E: nat, b: nat, i: nat, j: nat)
    requires Shaped(sNext, B, N, E) && Shaped(edgeType, B, N, E)
    requires b < B && i < N && j < N && i != j
    ensures Adjacent(WithDummies(sNext, edgeType), b, i, j) <==>
              TypedEdge(sNext, edgeType, b, i, j) || TypedEdge(sNext, edgeType, b, j, i)
  {
    var s := WithDummies(sNext, edgeType);
    if Marked(s, b, i, j) {
      var e :| 0 <= e < E - 1 && s[b][i][e] == j;
      assert edgeType[b][i][e] != 0;
    }
    if Marked(s, b, j, i) {
      var e :| 0 <= e < E - 1 && s[b][j][e] == i;
      assert edgeType[b][j][e] != 0;
    }
    if TypedEdge(sNext, edgeType, b, i, j) {
      var e :| 0 <= e < E - 1 && edgeType[b][i][e] != 0 && sNext[b][i][e] == j;
      assert s[b][i][e] == j;
    }
    if TypedEdge(sNext, edgeType, b, j, i) {
      var e :| 0 <= e < E - 1 && edgeType[b][j][e] != 0 && sNext[b][j][e] == i;
      assert s[b][j][e] == i;
    }
  }

  /** The last slot of every node never contributes an edge: two pairs of
      tables that agree on every other slot give the same matrix. */
  lemma LastSlotIgnored(sNext: Table, edgeType: Table, sNext': Table, edgeType': Table,
                        B: nat, N: nat, E: nat, b: nat, i: nat, j: nat)
    requires Shaped(sNext, B, N, E) && Shaped(edgeType, B, N, E)
    requires Shaped(sNext', B, N, E) && Shaped(edgeType', B, N, E)
    requires forall b', n, e :: 0 <= b' < B && 0 <= n < N && 0 <= e < E - 1 ==>
               sNext[b'][n][e] == sNext'[b'][n][e] && edgeType[b'][n][e] == edgeType'[b'][n][e]
    requires b < B && i < N && j < N
    ensures Adjacent(WithDummies(sNext, edgeType), b, i, j) == Adjacent(WithDummies(sNext', edgeType'), b, i, j)
  {
    var s, s' := WithDummies(sNext, edgeType), WithDummies(sNext', edgeType');
    assert forall n, e :: 0 <= n < N && 0 <= e < E - 1 ==> s[b][n][e] == s'[b][n][e];
  }

  /** The rewrite is idempotent: the rewritten table that the encoder passes
      on is left unchanged by rewriting it again with the same edge types. */
  lemma WithDummiesIdempotent(sNext: Table, edgeType: Table, B: nat, N: nat, E: nat)
    requires Shaped(sNext, B, N, E) && Shaped(edgeType, B, N, E)
    ensures WithDummies(WithDummies(sNext, edgeType), edgeType) == WithDummies(sNext, edgeType)
  {
    var once := WithDummies(sNext, edgeType);
    TableExtensionality(WithDummies(once, edgeType), once, B, N, E);
  }

  /** Line 275, `s_next[edge_type == 0] = dummy_vals[edge_type == 0]`:
      in place, every untyped slot is pointed at its own source node. */
  method RewriteUntypedSlots(sNext: array3<int>, edgeType: Table)
    requires Shaped(edgeType, sNext.Length0, sNext.Length1, sNext.Length2)
    modifies sNext
    ensures View(sNext) == WithDummies(old(View(sNext)), edgeType)
  {
    var B, N, E := sNext.Length0, sNext.Length1, sNext.Length2;
    ghost var s0 := View(sNext);
    forall b, n, e | 0 <= b < B && 0 <= n < N && 0 <= e < E && edgeType[b][n][e] == 0 {
      sNext[b, n, e] := n;
    }
    TableExtensionality(View(sNext), WithDummies(s0, edgeType), B, N, E);
  }

  /** Lines 261-266 and 288-290: a fresh matrix holding the self-loops and one
      edge per slot of `s_next`, the last slot of each node excepted. */
  method MarkEdges(sNext: array3<int>) returns (adj: array3<bool>)
    requires forall b, n, e :: 0 <= b < sNext.Length0 && 0 <= n < sNext.Length1 && 0 <= e < sNext.Length2 - 1 ==>
               0 <= sNext[b, n, e] < sNext.Length1
    ensures fresh(adj)
    ensures adj.Length0 == sNext.Length0 && adj.Length1 == sNext.Length1 && adj.Length2 == sNext.Length1
    ensures forall b, i, j :: 0 <= b < adj.Length0 && 0 <= i < adj.Length1 && 0 <= j < adj.Length2 ==>
              adj[b, i, j] == Marked(View(sNext), b, i, j)
  {
    var B, N, E := sNext.Length0, sNext.Length1, sNext.Length2;
    adj := new bool[B, N, N]((b, i, j) => i == j);
    forall b, n, e | 0 <= b < B && 0 <= n < N && 0 <= e < E - 1 {
      adj[b, n, sNext[b, n, e]] := true;
    }
    ghost var s := View(sNext);
    forall b, i, j | 0 <= b < B && 0 <= i < N && 0 <= j < N
      ensures adj[b, i, j] == Marked(s, b, i, j)
    {
      if Marked(s, b, i, j) && i != j {
        var e :| 0 <= e < E - 1 && s[b][i][e] == j;
        assert adj[b, i, sNext[b, i, e]];
      }
    }
  }

  /** Line 291: a fresh matrix `adj | adj.transpose(1, 2)`. */
  method Symmetrise(marked: array3<bool>) returns (adj: array3<bool>)
    requires marked.Length1 == marked.Length2
    ensures fresh(adj)
    ensures adj.Length0 == marked.Length0 && adj.Length1 == marked.Length1 && adj.Length2 == marked.Length2
    ensures forall b, i, j :: 0 <= b < adj.Length0 && 0 <= i < adj.Length1 && 0 <= j < adj.Length2 ==>
              adj[b, i, j] == (marked[b, i, j] || marked[b, j, i])
  {
    var B, N := marked.Length0, marked.Length1;
    adj := new bool[B, N, N]((b, i, j) reads marked requires 0 <= b < B && 0 <= i < N && 0 <= j < N =>
      marked[b, i, j] || marked[b, j, i]);
  }

  /** `build_adj_mat(s_next, edge_type)`. Rewrites the untyped slots of the
      caller's `s_next` in place and returns a fresh `[B][N][N]` matrix. */
  method BuildAdjMat(sNext: array3<int>, edgeType: Table) returns (adj: array3<bool>)
    requires ValidTables(View(sNext), edgeType, sNext.Length0, sNext.Length1, sNext.Length2)
    modifies sNext
    ensures fresh(adj)
    ensures adj.Length0 == sNext.Length0 && adj.Length1 == sNext.Length1 && adj.Length2 == sNext.Length1
    ensures View(sNext) == WithDummies(old(View(sNext)), edgeType)
    ensures forall b, i, j :: 0 <= b < adj.Length0 && 0 <= i < adj.Length1 && 0 <= j < adj.Length2 ==>
              adj[b, i, j] == Adjacent(View(sNext), b, i, j)
    ensures View(adj) == AdjacencyOf(View(sNext))
  {
    RewriteUntypedSlots(sNext, edgeType);
    var marked := MarkEdges(sNext);
    adj := Symmetrise(marked);
    TableExtensionality(View(adj), AdjacencyOf(View(sNext)), adj.Length0, adj.Length1, adj.Length2);
  }
}
