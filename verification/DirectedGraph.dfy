/** Directed graphs: an edge is recorded in the adjacency set of its first end only. */
module DirectedGraphs {
  import opened Outcomes
  import opened Pools
  import opened ValueRepos
  import opened GraphElements
  import opened GraphBases

  /** u's set is exactly the pairs (e, y) of live edges from u to y, and every live edge has
      a live first end. Nothing is said of second ends. */
  ghost predicate AgreeDirected<VV, EV>(vs: map<nat, Vertex<VV>>, es: map<nat, Edge<EV>>) {
    && SortedSets(vs)
    && (forall e :: e in es ==> Entry(vs, es[e].first, e, es[e].second))
    && (forall u, e, y :: Entry(vs, u, e, y) ==> e in es && es[e].first == u && es[e].second == y)
  }

  /** No live edge points at a dead vertex. */
  ghost predicate NoneDangling<VV, EV>(vs: map<nat, Vertex<VV>>, es: map<nat, Edge<EV>>) {
    forall e :: e in es ==> es[e].second in vs
  }

  /** e is the least live edge from x to y. */
  ghost predicate LeastFrom<EV>(es: map<nat, Edge<EV>>, x: nat, y: nat, e: nat) {
    && e in es && es[e].first == x && es[e].second == y
    && forall d :: d in es && es[d].first == x && es[d].second == y ==> e <= d
  }

  /** ws and fs are vs and es without the edge e and its entry. */
  ghost predicate EdgeGoneFrom<VV, EV>(vs: map<nat, Vertex<VV>>, es: map<nat, Edge<EV>>, e: nat,
                                       ws: map<nat, Vertex<VV>>, fs: map<nat, Edge<EV>>)
  {
    && e in es && fs == es - {e} && SortedSets(vs)
    && es[e].first in vs && HasKey(vs[es[e].first].edges, e)
    && ws == vs[es[e].first := DropRef(vs[es[e].first], e)]
  }

  /** remove_edge(e) erases no entry that is missing. */
  ghost predicate RemovalDefined<VV, EV>(vs: map<nat, Vertex<VV>>, es: map<nat, Edge<EV>>, e: nat) {
    e in es && es[e].first in vs ==> HasKey(vs[es[e].first].edges, e)
  }

  lemma DirectedAdd<VV, EV>(vs: map<nat, Vertex<VV>>, es: map<nat, Edge<EV>>, e: nat, edge: Edge<EV>)
    requires AgreeDirected(vs, es) && e !in es && edge.first in vs
    ensures !HasKey(vs[edge.first].edges, e)
    ensures AgreeDirected(vs[edge.first := AddRef(vs[edge.first], EdgeRef(e, edge.second))], es[e := edge])
  {
    FreshKey(vs, es, edge.first, e);
    EntriesAfterAdd(vs, edge.first, e, edge.second);
    hide Entry, SortedSets;
    var ws, fs := vs[edge.first := AddRef(vs[edge.first], EdgeRef(e, edge.second))], es[e := edge];
    forall d | d in fs ensures Entry(ws, fs[d].first, d, fs[d].second) {
      if d == e {
        assert fs[d] == edge && Entry(ws, edge.first, e, edge.second);
      } else {
        assert fs[d] == es[d] && Entry(vs, es[d].first, d, es[d].second);
      }
    }
    forall u, d, y | Entry(ws, u, d, y) ensures d in fs && fs[d].first == u && fs[d].second == y {
      if Entry(vs, u, d, y) {
        assert d in es && fs[d] == es[d];
      } else {
        assert u == edge.first && d == e && y == edge.second && fs[d] == edge;
      }
    }
  }

  /** Adding an edge to a graph where none dangles leaves none dangling if its second end is
      live, and only then. */
  lemma DanglesIff<VV, EV>(vs: map<nat, Vertex<VV>>, es: map<nat, Edge<EV>>, e: nat, edge: Edge<EV>,
                           ws: map<nat, Vertex<VV>>)
    requires NoneDangling(vs, es) && ws.Keys == vs.Keys && e !in es
    ensures NoneDangling(ws, es[e := edge]) <==> edge.second in vs
  {
    var fs := es[e := edge];
    assert e in fs && fs[e] == edge;
    forall d | d in fs && d != e ensures fs[d].second in ws { assert fs[d] == es[d]; }
  }

  lemma DirectedRemove<VV, EV>(vs: map<nat, Vertex<VV>>, es: map<nat, Edge<EV>>, e: nat)
    requires AgreeDirected(vs, es) && e in es
    ensures es[e].first in vs && HasKey(vs[es[e].first].edges, e)
    ensures AgreeDirected(vs[es[e].first := DropRef(vs[es[e].first], e)], es - {e})
  {
    assert Entry(vs, es[e].first, e, es[e].second);
    assert EdgeRef(e, es[e].second).edge == e;
    EntriesAfterDrop(vs, es[e].first, e);
    hide Entry, SortedSets;
    var ws, fs := vs[es[e].first := DropRef(vs[es[e].first], e)], es - {e};
    forall d | d in fs ensures Entry(ws, fs[d].first, d, fs[d].second) {
      assert Entry(vs, es[d].first, d, es[d].second);
    }
    forall u, d, y | Entry(ws, u, d, y) ensures d in fs && fs[d].first == u && fs[d].second == y {
      assert Entry(vs, u, d, y);
    }
  }

  /** The edges at v's entries are exactly the live edges out of v. */
  lemma OutgoingEdges<VV, EV>(vs: map<nat, Vertex<VV>>, es: map<nat, Edge<EV>>, v: nat)
    requires AgreeDirected(vs, es) && v in vs
    ensures forall e :: e in Keys(vs[v].edges) <==> e in es && es[e].first == v
    ensures AgreeDirected(vs - {v}, es - Keys(vs[v].edges))
  {
    var gone := Keys(vs[v].edges);
    forall e ensures e in gone <==> e in es && es[e].first == v {
      if e in gone {
        var r :| r in vs[v].edges && r.edge == e;
        assert r == EdgeRef(e, r.opposite);
        assert Entry(vs, v, e, r.opposite);
      }
      if e in es && es[e].first == v { assert EdgeRef(e, es[e].second).edge == e; }
    }
    forall u, e, y ensures Entry(vs - {v}, u, e, y) <==> Entry(vs, u, e, y) && u != v {}
  }

  class DirectedGraph<VV, EV> {
    const base: GraphBase<VV, EV>

    ghost predicate Valid()
      reads this, base, base.Repr
    {
      base.Valid() && SortedSets(base.Vs())
    }

    ghost predicate Consistent()
      reads this, base, base.Repr
    {
      Valid() && AgreeDirected(base.Vs(), base.Es())
    }

    constructor (top: nat)
      requires top >= 1
      ensures Consistent() && fresh(base) && fresh(base.Repr) && base.Vs() == map[] && base.Es() == map[]
      ensures !base.vertices.Full() && !base.edges.Full()
      ensures base.vertices.NextFree() == base.edges.NextFree() == 0
    {
      base := new GraphBase(top);
    }

    method AddVertex(value: VV) returns (r: Result<nat, GraphError>)
      requires Valid()
      modifies base.Repr
      ensures Valid() && (old(Consistent()) ==> Consistent()) && base.Es() == old(base.Es())
      ensures r == if old(base.vertices.Full()) then Err(PoolFailure(SizeTooLarge))
                   else Ok(old(base.vertices.NextFree()))
      ensures r.Ok? ==> r.value !in old(base.Vs()) && base.Vs() == old(base.Vs())[r.value := Vertex([], value)]
      ensures r.Err? ==> base.Vs() == old(base.Vs())
    {
      hide ValueRepo.Valid, ValueRepo.Objects;
      ghost var vs := base.Vs();
      r := base.AddVertex(value);
      assert forall u, e, y :: Entry(base.Vs(), u, e, y) <==> Entry(vs, u, e, y);
    }

    /** The second end is not looked up, so the edge dangles from the start unless that end is
        live. When the first end is dead the lookup throws after the edge was allocated, and
        the edge stays behind: sets and edges agree afterwards exactly when the edge pool is
        full or the first end is live. */
    method AddEdge(x: nat, y: nat, value: EV) returns (r: Result<nat, GraphError>)
      requires Consistent()
      modifies base.Repr
      ensures Valid()
      ensures r.Ok? <==> !old(base.edges.Full()) && x in old(base.Vs())
      ensures r.Ok? ==> r.value == old(base.edges.NextFree()) && r.value !in old(base.Es())
                        && base.Es() == old(base.Es())[r.value := Edge(x, y, value)]
                        && base.Vs() == old(base.Vs())[x := AddRef(old(base.Vs())[x], EdgeRef(r.value, y))]
      ensures r.Err? ==> base.Vs() == old(base.Vs())
      ensures base.vertices.Full() == old(base.vertices.Full())
      ensures base.vertices.NextFree() == old(base.vertices.NextFree())
      ensures old(base.edges.Full()) ==> r == Err(PoolFailure(SizeTooLarge)) && base.Es() == old(base.Es())
      ensures r.Err? && !old(base.edges.Full()) ==> r.error == old(base.VertexError(x))
      ensures r.Err? && !old(base.edges.Full()) ==>
        var e := old(base.edges.NextFree());
        e !in old(base.Es()) && base.Es() == old(base.Es())[e := Edge(x, y, value)]
      ensures Consistent() <==> old(base.edges.Full()) || x in old(base.Vs())
      ensures r.Ok? && NoneDangling(old(base.Vs()), old(base.Es())) ==>
        (NoneDangling(base.Vs(), base.Es()) <==> y in old(base.Vs()))
    {
      hide ValueRepo.Valid, ValueRepo.Objects, ValueRepo.Full, ValueRepo.NextFree;
      var e := base.NewEdge(x, y, value);
      if e.Err? {
        return Err(e.error);
      }
      var atX := base.AddAssociatedEdge(x, EdgeRef(e.value, y));
      if atX.Err? {
        assert !Entry(base.Vs(), base.Es()[e.value].first, e.value, base.Es()[e.value].second);
        return Err(atX.error);
      }
      DirectedAdd(old(base.Vs()), old(base.Es()), e.value, Edge(x, y, value));
      if NoneDangling(old(base.Vs()), old(base.Es())) {
        DanglesIff(old(base.Vs()), old(base.Es()), e.value, Edge(x, y, value), base.Vs());
      }
      r := Ok(e.value);
    }

    /** Erases the entry at the first end and then the edge. It may be called in any state in
        which that entry is not missing; while sets and edges agree, that is always so. */
    method RemoveEdge(e: nat) returns (r: Result<(), GraphError>)
      requires Valid() && RemovalDefined(base.Vs(), base.Es(), e)
      modifies base.Repr
      ensures Valid() && (old(Consistent()) ==> Consistent())
      ensures r.Ok? <==> e in old(base.Es()) && old(base.Es())[e].first in old(base.Vs())
      ensures old(Consistent()) ==> (r.Ok? <==> e in old(base.Es()))
      ensures r.Ok? ==> EdgeGoneFrom(old(base.Vs()), old(base.Es()), e, base.Vs(), base.Es())
      ensures r.Err? ==> base.Vs() == old(base.Vs()) && base.Es() == old(base.Es())
      ensures r.Err? ==> r.error == if e !in old(base.Es()) then old(base.EdgeError(e))
                                    else old(base.VertexError(base.Es()[e].first))
    {
      hide ValueRepo.Valid, ValueRepo.Objects, AgreeDirected, HasKey;
      ghost var vs, es := base.Vs(), base.Es();
      if AgreeDirected(vs, es) && e in es { DirectedRemove(vs, es, e); }
      var ends := base.AssociatedVertices(e);
      if ends.Err? {
        return Err(ends.error);
      }
      var first := base.RemoveAssociatedEdge(ends.value.0, e);
      if first.Err? {
        return Err(first.error);
      }
      EntriesAfterDrop(vs, ends.value.0, e);
      var removed := base.edges.RemoveObject(e);
      r := Ok(());
    }

    method GetEdge(x: nat, y: nat) returns (r: Result<nat, GraphError>)
      requires Consistent()
      ensures r.Ok? ==> LeastFrom(base.Es(), x, y, r.value)
      ensures r.Err? ==> forall e :: e in base.Es() ==> base.Es()[e].first != x || base.Es()[e].second != y
      ensures r.Err? ==> r.error == if x in base.Vs() then NoSuchEdge else base.VertexError(x)
    {
      hide ValueRepo.Valid, ValueRepo.Objects;
      ghost var vs, es := base.Vs(), base.Es();
      assert forall d :: d in es ==> Entry(vs, es[d].first, d, es[d].second);
      var vertex := base.vertices.GetObject(x);
      if vertex.Err? {
        return Err(PoolFailure(vertex.error));
      }
      r := AssociatedEdge(vertex.value.edges, y);
      if r.Ok? { assert Entry(vs, x, r.value, y); }
      forall d | d in es && es[d].first == x && es[d].second == y ensures r.Ok? && r.value <= d {
        assert EdgeRef(d, y) in vs[x].edges && EdgeRef(d, y).opposite == y;
      }
    }

    method RemoveEdgeBetween(x: nat, y: nat) returns (r: Result<(), GraphError>)
      requires Consistent()
      modifies base.Repr
      ensures Consistent()
      ensures r.Ok? ==> exists e ::
        LeastFrom(old(base.Es()), x, y, e) && EdgeGoneFrom(old(base.Vs()), old(base.Es()), e, base.Vs(), base.Es())
      ensures r.Err? ==> base.Vs() == old(base.Vs()) && base.Es() == old(base.Es()) &&
                         forall e :: e in base.Es() ==> base.Es()[e].first != x || base.Es()[e].second != y
    {
      hide ValueRepo.Valid, ValueRepo.Objects;
      var e := GetEdge(x, y);
      if e.Err? {
        return Err(e.error);
      }
      DirectedRemove(base.Vs(), base.Es(), e.value);
      r := RemoveEdge(e.value);
    }

    /** Removes exactly the edges out of v. Edges into v from elsewhere stay live, so no edge
        dangles afterwards exactly when there was none of those. */
    method RemoveVertex(v: nat) returns (r: Result<(), GraphError>)
      requires Consistent()
      modifies base.Repr
      ensures Consistent()
      ensures r.Ok? <==> v in old(base.Vs())
      ensures r.Err? ==> r.error == old(base.VertexError(v))
      ensures r.Ok? ==> base.Vs() == old(base.Vs()) - {v}
      ensures r.Ok? ==> !base.vertices.Full() && base.vertices.NextFree() == v
      ensures r.Ok? ==> forall e :: e in base.Es() <==> e in old(base.Es()) && old(base.Es())[e].first != v
      ensures r.Ok? ==> forall e :: e in base.Es() ==> base.Es()[e] == old(base.Es())[e]
      ensures r.Ok? && NoneDangling(old(base.Vs()), old(base.Es())) ==>
        (NoneDangling(base.Vs(), base.Es()) <==>
           forall e :: e in old(base.Es()) && old(base.Es())[e].second == v ==> old(base.Es())[e].first == v)
      ensures r.Err? ==> base.Vs() == old(base.Vs()) && base.Es() == old(base.Es())
    {
      hide ValueRepo.Valid, ValueRepo.Objects, AgreeDirected, Keys;
      var vertex := base.vertices.GetObject(v);
      if vertex.Err? {
        return Err(PoolFailure(vertex.error));
      }
      ghost var vs, es := base.Vs(), base.Es();
      OutgoingEdges(vs, es, v);
      var edges := vertex.value.edges;
      NoKeys(es);
      assert edges[..0] == [];
      for i := 0 to |edges|
        invariant Valid() && base.Vs() == vs && base.Es() == es - Keys(edges[..i])
      {
        NextKey(edges, i);
        KeyOf(edges, edges[i]);
        var removed := base.edges.RemoveObject(edges[i].edge);
        assert base.Es() == es - Keys(edges[..i + 1]);
      }
      assert edges[..|edges|] == edges;
      var removed := base.vertices.RemoveObject(v);
      r := Ok(());
    }

    lemma NoKeys(es: map<nat, Edge<EV>>)
      ensures es - Keys([]) == es
    {
    }

    lemma KeyOf(s: seq<EdgeRef>, r: EdgeRef)
      ensures r in s ==> r.edge in Keys(s)
    {
    }
  }

  /** The leak, in an empty graph: add_edge throws because its first end is not live, but edge
      0 is live afterwards and no adjacency set knows it. */
  method DeadEndLeaks<VV, EV>(top: nat, value: EV) returns (g: DirectedGraph<VV, EV>, r: Result<nat, GraphError>)
    requires top >= 1
    ensures fresh(g) && g.Valid() && r.Err? && !g.Consistent()
    ensures g.base.Vs() == map[] && g.base.Es() == map[0 := Edge(0, 1, value)]
  {
    hide ValueRepo.Valid, ValueRepo.Objects, AgreeDirected;
    g := new DirectedGraph(top);
    r := g.AddEdge(0, 1, value);
  }

  /** An edge into v from elsewhere survives the removal of v, and the next vertex added, which
      takes over the id, finds it pointing at itself. */
  method NextVertexInheritsEdge<VV, EV>(g: DirectedGraph<VV, EV>, v: nat, e: nat, value: VV)
    returns (w: Result<nat, GraphError>)
    requires g.Consistent() && v in g.base.Vs()
    requires e in g.base.Es() && g.base.Es()[e].second == v && g.base.Es()[e].first != v
    modifies g.base.Repr
    ensures g.Consistent() && w == Ok(v) && g.base.Vs() == old(g.base.Vs())[v := Vertex([], value)]
    ensures e in g.base.Es() && g.base.Es()[e] == old(g.base.Es())[e]
  {
    hide ValueRepo.Valid, ValueRepo.Objects, AgreeDirected;
    var removed := g.RemoveVertex(v);
    w := g.AddVertex(value);
  }

  /** After a leak, the vertex that takes over the dead id makes the leaked edge look whole,
      but remove_edge would erase an entry that is not there. */
  method RecycledEndBreaksRemoval<VV, EV>(g: DirectedGraph<VV, EV>, y: nat, value: EV, v: VV)
    returns (e: nat, x: nat)
    requires g.Consistent() && !g.base.vertices.Full() && !g.base.edges.Full()
    modifies g.base.Repr
    ensures g.Valid() && x in g.base.Vs()
    ensures e == old(g.base.edges.NextFree()) && x == old(g.base.vertices.NextFree())
    ensures e in g.base.Es() && g.base.Es()[e] == Edge(x, y, value)
    ensures !RemovalDefined(g.base.Vs(), g.base.Es(), e)
  {
    g.base.vertices.NextFreeIsDead();
    hide ValueRepo.Valid, ValueRepo.Objects, AgreeDirected;
    e, x := g.base.edges.NextFree(), g.base.vertices.NextFree();
    var leaked := g.AddEdge(x, y, value);
    var added := g.AddVertex(v);
    assert g.base.Vs()[x].edges == [];
  }

  /** The same in a graph that was empty: edge 0 leaves vertex 0. */
  method FirstEdgeBreaksRemoval<VV, EV>(top: nat, y: nat, value: EV, v: VV) returns (g: DirectedGraph<VV, EV>)
    requires top >= 1
    ensures fresh(g) && g.Valid() && 0 in g.base.Vs()
    ensures 0 in g.base.Es() && g.base.Es()[0] == Edge(0, y, value)
    ensures !RemovalDefined(g.base.Vs(), g.base.Es(), 0)
  {
    hide ValueRepo.Valid, ValueRepo.Objects, AgreeDirected, RemovalDefined;
    g := new DirectedGraph(top);
    var e, x := RecycledEndBreaksRemoval(g, y, value, v);
  }
}
