/** Undirected graphs: each edge is recorded in the adjacency sets of both its ends. */
module UndirectedGraphs {
  import opened Outcomes
  import opened Pools
  import opened GraphElements
  import opened GraphBases
  import opened ValueRepos

  /** e is the least live edge between x and y; symmetric in x and y. */
  ghost predicate LeastJoining<EV>(es: map<nat, Edge<EV>>, x: nat, y: nat, e: nat) {
    && e in es && Joins(es[e], x, y)
    && forall d :: d in es && Joins(es[d], x, y) ==> e <= d
  }

  /** ws and fs are vs and es without the edge e and its two entries. */
  ghost predicate EdgeGone<VV, EV>(vs: map<nat, Vertex<VV>>, es: map<nat, Edge<EV>>, e: nat,
                                   ws: map<nat, Vertex<VV>>, fs: map<nat, Edge<EV>>)
  {
    && e in es && fs == es - {e}
    && SortedSets(vs) && es[e].first in vs && es[e].second in vs && es[e].first != es[e].second
    && HasKey(vs[es[e].first].edges, e) && HasKey(vs[es[e].second].edges, e)
    && ws == WithoutEdge(vs, e, es[e].first, es[e].second) && SameVertices(vs, ws)
    && forall u, d, z :: Entry(ws, u, d, z)
                    <==> Entry(vs, u, d, z) && !(d == e && (u == es[e].first || u == es[e].second))
  }

  /** ws is vs with the two entries of edge e between x and y. */
  ghost predicate EdgeEntered<VV>(vs: map<nat, Vertex<VV>>, e: nat, x: nat, y: nat, ws: map<nat, Vertex<VV>>) {
    && SameVertices(vs, ws)
    && forall u, d, z :: Entry(ws, u, d, z)
                    <==> Entry(vs, u, d, z) || (d == e && ((u == x && z == y) || (u == y && z == x)))
  }

  /** remove_edge(e) erases no entry that is missing: each end that it looks up and finds live
      has one, and a loop, entered once, is not erased twice. */
  ghost predicate RemovalDefined<VV, EV>(vs: map<nat, Vertex<VV>>, es: map<nat, Edge<EV>>, e: nat) {
    e in es && es[e].first in vs ==>
      && HasKey(vs[es[e].first].edges, e)
      && (es[e].second in vs ==> es[e].second != es[e].first && HasKey(vs[es[e].second].edges, e))
  }

  /** add_edge with a dead end: the new edge is live, entered at x at most. */
  ghost predicate EdgeLeaked<VV, EV>(vs: map<nat, Vertex<VV>>, es: map<nat, Edge<EV>>, e: nat, edge: Edge<EV>,
                                     ws: map<nat, Vertex<VV>>, fs: map<nat, Edge<EV>>)
    requires SortedSets(vs)
  {
    && e !in es && fs == es[e := edge]
    && ws == if edge.first in vs
             then vs[edge.first := AddRef(vs[edge.first], EdgeRef(e, edge.second))] else vs
  }

  class UndirectedGraph<VV, EV> {
    const base: GraphBase<VV, EV>

    ghost predicate Valid()
      reads this, base, base.Repr
    {
      base.Valid() && SortedSets(base.Vs())
    }

    /** The two copies of the relation agree. */
    ghost predicate Consistent()
      reads this, base, base.Repr
    {
      Valid() && Agree(base.Vs(), base.Es())
    }

    constructor (top: nat)
      requires top >= 1
      ensures Consistent() && fresh(base) && fresh(base.Repr) && base.Vs() == map[] && base.Es() == map[]
      ensures !base.vertices.Full() && !base.edges.Full()
      ensures base.vertices.NextFree() == base.edges.NextFree() == 0
      ensures base.vertices.View() == Pool([], [], []) && base.vertices.top == top
    {
      base := new GraphBase(top);
    }

    method AddVertex(value: VV) returns (r: Result<nat, GraphError>)
      requires Valid()
      modifies base.Repr
      ensures Valid() && (old(Consistent()) ==> Consistent()) && base.Es() == old(base.Es())
      ensures r == if old(base.vertices.Full()) then Err(PoolFailure(SizeTooLarge))
                   else Ok(old(base.vertices.NextFree()))
      ensures base.vertices.View() == Assign(old(base.vertices.View()), base.vertices.top, Vertex([], value)).0
      ensures base.edges.Full() == old(base.edges.Full()) && base.edges.NextFree() == old(base.edges.NextFree())
      ensures r.Ok? ==> r.value !in old(base.Vs()) && base.Vs() == old(base.Vs())[r.value := Vertex([], value)]
      ensures r.Err? ==> base.Vs() == old(base.Vs())
    {
      hide ValueRepo.Valid, ValueRepo.Objects;
      r := base.AddVertex(value);
      ghost var vs, ws, es := old(base.Vs()), base.Vs(), base.Es();
      if Agree(vs, es) { AgreeAddVertex(vs, es, ws); }
    }

    lemma AgreeAddVertex(vs: map<nat, Vertex<VV>>, es: map<nat, Edge<EV>>, ws: map<nat, Vertex<VV>>)
      requires Agree(vs, es)
      requires ws == vs || exists v: nat, value :: v !in vs && ws == vs[v := Vertex([], value)]
      ensures Agree(ws, es)
    {
      forall e | e in es ensures EnteredTwice(ws, e, es[e]) {
        assert EnteredTwice(vs, e, es[e]);
      }
      forall v, e, y | Entry(ws, v, e, y) ensures e in es && Joins(es[e], v, y) {
        assert Entry(vs, v, e, y);
      }
    }

    /** Allocates the edge first and looks up its ends afterwards. When an end is not live the
        lookup throws and the edge stays behind, so the sets and the edges agree afterwards
        exactly when the edge pool is full or both ends are live and different. */
    method AddEdge(x: nat, y: nat, value: EV) returns (r: Result<nat, GraphError>)
      requires Consistent()
      modifies base.Repr
      ensures Valid()
      ensures r.Ok? <==> !old(base.edges.Full()) && x in old(base.Vs()) && y in old(base.Vs())
      ensures r.Ok? ==> r.value == old(base.edges.NextFree()) && r.value !in old(base.Es())
                        && base.Es() == old(base.Es())[r.value := Edge(x, y, value)]
      ensures r.Ok? && x != y ==> base.Vs() == WithEdge(old(base.Vs()), r.value, x, y)
                                  && EdgeEntered(old(base.Vs()), r.value, x, y, base.Vs())
      ensures r.Ok? && x == y ==> base.Vs() == old(base.Vs())[x := AddRef(old(base.Vs())[x], EdgeRef(r.value, x))]
      ensures old(base.edges.Full()) ==>
        r == Err(PoolFailure(SizeTooLarge)) && base.Vs() == old(base.Vs()) && base.Es() == old(base.Es())
      ensures r.Err? && !old(base.edges.Full()) ==>
        r.error == old(base.VertexError(if x in base.Vs() then y else x))
      ensures r.Err? && !old(base.edges.Full()) ==>
        EdgeLeaked(old(base.Vs()), old(base.Es()), old(base.edges.NextFree()), Edge(x, y, value), base.Vs(), base.Es())
      ensures base.vertices.Full() == old(base.vertices.Full())
      ensures base.vertices.NextFree() == old(base.vertices.NextFree())
      ensures Consistent() <==>
        old(base.edges.Full()) || (x in old(base.Vs()) && y in old(base.Vs()) && x != y)
    {
      hide ValueRepo.Valid, ValueRepo.Objects, ValueRepo.Full, ValueRepo.NextFree, Agree, AddRef, SortedSets;
      hide SameVertices, Entry;
      ghost var vs, es := base.Vs(), base.Es();
      var e := base.NewEdge(x, y, value);
      if e.Err? {
        return Err(e.error);
      }
      FreshIn(vs, es, e.value);
      var atX := base.AddAssociatedEdge(x, EdgeRef(e.value, y));
      if atX.Err? {
        EdgeUnknown(base.Vs(), base.Es(), e.value);
        return Err(atX.error);
      }
      SortedAfterAdd(vs, x, EdgeRef(e.value, y));
      var atY := base.AddAssociatedEdge(y, EdgeRef(e.value, x));
      if atY.Err? {
        EdgeUnknown(base.Vs(), base.Es(), e.value);
        return Err(atY.error);
      }
      SortedAfterAdd(vs[x := AddRef(vs[x], EdgeRef(e.value, y))], y, EdgeRef(e.value, x));
      if x != y {
        AgreeAddEdge(vs, es, e.value, Edge(x, y, value));
        EntriesWithEdge(vs, e.value, x, y);
        SameWithEdge(vs, e.value, x, y);
      } else {
        LoopOnce(vs, x, e.value);
        EdgeUnknown(base.Vs(), base.Es(), e.value);
      }
      r := Ok(e.value);
    }

    lemma SortedAfterAdd(vs: map<nat, Vertex<VV>>, x: nat, r: EdgeRef)
      requires SortedSets(vs) && x in vs
      ensures SortedSets(vs[x := AddRef(vs[x], r)])
      ensures forall u :: u in vs ==> Sorted(vs[u].edges) && Sorted(vs[x := AddRef(vs[x], r)][u].edges)
    {
    }

    /** An edge that is a loop or has a dead end breaks the agreement. */
    lemma EdgeUnknown(vs: map<nat, Vertex<VV>>, es: map<nat, Edge<EV>>, e: nat)
      requires e in es && (es[e].first !in vs || es[e].second !in vs || es[e].first == es[e].second)
      ensures !Agree(vs, es)
    {
      assert !EnteredTwice(vs, e, es[e]);
    }

    lemma LoopOnce(vs: map<nat, Vertex<VV>>, x: nat, e: nat)
      requires SortedSets(vs) && x in vs
      ensures var us := vs[x := AddRef(vs[x], EdgeRef(e, x))];
        SortedSets(us) && us[x := AddRef(us[x], EdgeRef(e, x))] == us
    {
      InsertTwice(vs[x].edges, EdgeRef(e, x));
    }

    lemma FreshIn(vs: map<nat, Vertex<VV>>, es: map<nat, Edge<EV>>, e: nat)
      requires Agree(vs, es) && e !in es
      ensures forall v :: v in vs ==> !HasKey(vs[v].edges, e)
    {
      forall v | v in vs ensures !HasKey(vs[v].edges, e) { FreshKey(vs, es, v, e); }
    }

    /** Erases the entry at each end and then the edge. It may be called in any state in which
        it erases nothing that is missing; while sets and edges agree, that is always so. With
        a dead end it throws, and with only the second end dead it has erased half by then. */
    method RemoveEdge(e: nat) returns (r: Result<(), GraphError>)
      requires Valid() && RemovalDefined(base.Vs(), base.Es(), e)
      modifies base.Repr
      ensures Valid() && (old(Consistent()) ==> Consistent())
      ensures var vs, es := old(base.Vs()), old(base.Es());
        && (r.Ok? <==> e in es && es[e].first in vs && es[e].second in vs)
        && (old(Consistent()) ==> (r.Ok? <==> e in es))
        && (r.Ok? ==> EdgeGone(vs, es, e, base.Vs(), base.Es()))
        && (r.Err? ==> base.Es() == es && r.error == old(RemovalError(e)))
        && (r.Err? ==> base.Vs() == if e in es && es[e].first in vs
                                    then vs[es[e].first := DropRef(vs[es[e].first], e)] else vs)
    {
      hide ValueRepo.Valid, ValueRepo.Objects, Agree, HasKey, Entry, DropRef, EdgeGone;
      ghost var vs, es := base.Vs(), base.Es();
      if Agree(vs, es) { AgreeRemoves(vs, es, e); }
      var ends := base.AssociatedVertices(e);
      if ends.Err? {
        return Err(ends.error);
      }
      var first := base.RemoveAssociatedEdge(ends.value.0, e);
      if first.Err? {
        return Err(first.error);
      }
      EntriesAfterDrop(vs, ends.value.0, e);
      var second := base.RemoveAssociatedEdge(ends.value.1, e);
      if second.Err? {
        return Err(second.error);
      }
      BothEntriesGone(vs, es, e);
      var removed := base.edges.RemoveObject(e);
      r := Ok(());
    }

    lemma BothEntriesGone(vs: map<nat, Vertex<VV>>, es: map<nat, Edge<EV>>, e: nat)
      requires e in es && SortedSets(vs) && es[e].first in vs && es[e].second in vs && es[e].first != es[e].second
      requires HasKey(vs[es[e].first].edges, e) && HasKey(vs[es[e].second].edges, e)
      ensures SortedSets(WithoutEdge(vs, e, es[e].first, es[e].second))
      ensures EdgeGone(vs, es, e, WithoutEdge(vs, e, es[e].first, es[e].second), es - {e})
    {
      EntriesWithoutEdge(vs, e, es[e].first, es[e].second);
      SameWithoutEdge(vs, e, es[e].first, es[e].second);
    }

    /** The first lookup that fails, of the edge and then of its ends in order. */
    ghost function RemovalError(e: nat): GraphError
      reads this, base, base.Repr
      requires Valid()
    {
      if e !in base.Es() then base.EdgeError(e)
      else base.VertexError(if base.Es()[e].first in base.Vs() then base.Es()[e].second else base.Es()[e].first)
    }

    lemma AgreeRemoves(vs: map<nat, Vertex<VV>>, es: map<nat, Edge<EV>>, e: nat)
      requires Agree(vs, es)
      ensures RemovalDefined(vs, es, e)
      ensures e in es ==> es[e].first in vs && es[e].second in vs && es[e].first != es[e].second
      ensures e in es ==> HasKey(vs[es[e].first].edges, e) && HasKey(vs[es[e].second].edges, e)
      ensures e in es ==> Agree(WithoutEdge(vs, e, es[e].first, es[e].second), es - {e})
    {
      if e in es { AgreeRemoveEdge(vs, es, e); }
    }

    /** Scans the smaller adjacency set; the answer is the least edge either way. */
    method GetEdge(x: nat, y: nat) returns (r: Result<nat, GraphError>)
      requires Consistent()
      ensures r.Ok? ==> LeastJoining(base.Es(), x, y, r.value)
      ensures r.Err? ==> forall e :: e in base.Es() ==> !Joins(base.Es()[e], x, y)
      ensures r.Err? ==> r.error == if x !in base.Vs() then base.VertexError(x)
                                    else if y !in base.Vs() then base.VertexError(y) else NoSuchEdge
    {
      hide ValueRepo.Valid, ValueRepo.Objects;
      var vx := base.vertices.GetObject(x);
      if vx.Err? {
        NoEdgeAtDeadVertex(x);
        return Err(PoolFailure(vx.error));
      }
      var vy := base.vertices.GetObject(y);
      if vy.Err? {
        NoEdgeAtDeadVertex(y);
        return Err(PoolFailure(vy.error));
      }
      if |vx.value.edges| < |vy.value.edges| {
        r := AssociatedEdge(vx.value.edges, y);
        ScanFindsLeast(x, y, r);
      } else {
        r := AssociatedEdge(vy.value.edges, x);
        ScanFindsLeast(y, x, r);
      }
    }

    /** get_edge(x, y) and get_edge(y, x), whichever sets they scan, find the same edge or none;
        between live vertices they fail in the same way as well. */
    method GetEdgeFromBothEnds(x: nat, y: nat) returns (r: Result<nat, GraphError>, s: Result<nat, GraphError>)
      requires Consistent()
      ensures r.Ok? || s.Ok? || (x in base.Vs() && y in base.Vs()) ==> r == s
      ensures r.Ok? ==> LeastJoining(base.Es(), x, y, r.value)
    {
      hide ValueRepo.Valid, ValueRepo.Objects, Agree;
      r := GetEdge(x, y);
      s := GetEdge(y, x);
      ghost var es := base.Es();
      assert forall e :: e in es ==> Joins(es[e], x, y) == Joins(es[e], y, x);
    }

    lemma NoEdgeAtDeadVertex(x: nat)
      requires Consistent() && x !in base.Vs()
      ensures forall e, y :: e in base.Es() ==> !Joins(base.Es()[e], x, y) && !Joins(base.Es()[e], y, x)
    {
      forall e | e in base.Es() ensures base.Es()[e].first != x && base.Es()[e].second != x {
        assert EnteredTwice(base.Vs(), e, base.Es()[e]);
      }
    }

    lemma ScanFindsLeast(x: nat, y: nat, r: Result<nat, GraphError>)
      requires Consistent() && x in base.Vs()
      requires var refs := base.Vs()[x].edges;
        if r.Ok? then EdgeRef(r.value, y) in refs && forall s :: s in refs && s.opposite == y ==> r.value <= s.edge
        else forall s :: s in refs ==> s.opposite != y
      ensures r.Ok? ==> LeastJoining(base.Es(), x, y, r.value)
      ensures r.Err? ==> forall e :: e in base.Es() ==> !Joins(base.Es()[e], x, y)
    {
      var vs, es := base.Vs(), base.Es();
      if r.Ok? { assert Entry(vs, x, r.value, y); }
      forall d | d in es && Joins(es[d], x, y) ensures r.Ok? && r.value <= d {
        assert EnteredTwice(vs, d, es[d]);
        assert EdgeRef(d, y) in vs[x].edges && EdgeRef(d, y).opposite == y;
      }
    }

    method RemoveEdgeBetween(x: nat, y: nat) returns (r: Result<(), GraphError>)
      requires Consistent()
      modifies base.Repr
      ensures Consistent()
      ensures r.Ok? ==> exists e ::
        LeastJoining(old(base.Es()), x, y, e) && EdgeGone(old(base.Vs()), old(base.Es()), e, base.Vs(), base.Es())
      ensures r.Err? ==> (forall e :: e in old(base.Es()) ==> !Joins(old(base.Es())[e], x, y))
                         && base.Vs() == old(base.Vs()) && base.Es() == old(base.Es())
    {
      hide ValueRepo.Valid, ValueRepo.Objects;
      var e := GetEdge(x, y);
      if e.Err? {
        return Err(e.error);
      }
      AgreeRemoves(base.Vs(), base.Es(), e.value);
      r := RemoveEdge(e.value);
    }

    /** One iteration of that loop: the i-th edge leaves its other end and the edge pool. */
    method DetachNext(ghost vs: map<nat, Vertex<VV>>, ghost es: map<nat, Edge<EV>>, ghost v: nat,
                      edges: seq<EdgeRef>, i: nat)
      requires Valid() && Agree(vs, es) && v in vs && edges == vs[v].edges && i < |edges|
      requires Detached(vs, es, v, Keys(edges[..i]), base.Vs(), base.Es())
      modifies base.Repr
      ensures Valid() && Detached(vs, es, v, Keys(edges[..i + 1]), base.Vs(), base.Es())
    {
      hide ValueRepo.Valid, ValueRepo.Objects, Detached, Agree, Keys, EraseRef;
      var e := edges[i];
      NextKeyOf(vs, es, v, i);
      DetachOne(vs, es, v, Keys(edges[..i]), base.Vs(), base.Es(), e);
      var erased := base.RemoveAssociatedEdge(e.opposite, e.edge);
      var removed := base.edges.RemoveObject(e.edge);
    }

    lemma NextKeyOf(vs: map<nat, Vertex<VV>>, es: map<nat, Edge<EV>>, v: nat, i: nat)
      requires Agree(vs, es) && v in vs && i < |vs[v].edges|
      ensures vs[v].edges[i].edge !in Keys(vs[v].edges[..i])
      ensures Keys(vs[v].edges[..i + 1]) == Keys(vs[v].edges[..i]) + {vs[v].edges[i].edge}
    {
      NextKey(vs[v].edges, i);
    }

    /** Removes every edge at v from its other end and from the edge pool, then v itself. */
    method RemoveVertex(v: nat) returns (r: Result<(), GraphError>)
      requires Consistent()
      modifies base.Repr
      ensures Consistent()
      ensures r.Ok? <==> v in old(base.Vs())
      ensures r.Err? ==> r.error == old(base.VertexError(v))
      ensures r.Ok? ==> VertexGone(old(base.Vs()), old(base.Es()), v, base.Vs(), base.Es())
      ensures r.Ok? ==> !base.vertices.Full() && base.vertices.NextFree() == v
      ensures r.Err? ==> base.Vs() == old(base.Vs()) && base.Es() == old(base.Es())
    {
      hide ValueRepo.Valid, ValueRepo.Objects, Detached, Agree, VertexGone, Keys, EraseRef;
      var vertex := base.vertices.GetObject(v);
      if vertex.Err? {
        return Err(PoolFailure(vertex.error));
      }
      ghost var vs, es := base.Vs(), base.Es();
      var edges := vertex.value.edges;
      NothingDetached(vs, es, v);
      assert edges[..0] == [];
      for i := 0 to |edges|
        invariant Valid() && Detached(vs, es, v, Keys(edges[..i]), base.Vs(), base.Es())
      {
        DetachNext(vs, es, v, edges, i);
      }
      assert edges[..|edges|] == edges;
      AllDetached(vs, es, v, base.Vs(), base.Es());
      AgreeRemoveVertex(vs, es, v, base.Vs() - {v}, base.Es());
      var removed := base.vertices.RemoveObject(v);
      r := Ok(());
    }

    /** Counting the walk over all vertices, the degrees add up to twice the live edges. */
    lemma Handshake()
      requires Consistent()
      ensures forall x :: x in base.vertices.used <==> x in base.Vs()
      ensures DegreeSum(base.Vs(), base.vertices.used) == 2 * |base.Es()|
    {
      base.vertices.UsedIsLive();
      DegreesSumToTwiceEdges(base.Vs(), base.Es(), base.vertices.used);
    }
  }

  /** The leak, in an empty graph: add_edge throws because its first end is not live, but edge
      0 is live afterwards and no adjacency set knows it. */
  method DeadEndLeaks<VV, EV>(top: nat, value: EV) returns (g: UndirectedGraph<VV, EV>, r: Result<nat, GraphError>)
    requires top >= 1
    ensures fresh(g) && g.Valid() && r.Err? && !g.Consistent()
    ensures g.base.Vs() == map[] && g.base.Es() == map[0 := Edge(0, 1, value)]
  {
    hide ValueRepo.Valid, ValueRepo.Objects, Agree;
    g := new UndirectedGraph(top);
    r := g.AddEdge(0, 1, value);
  }

  /** After a leak, the vertex that takes over the dead id makes the leaked edge look whole:
      both its ends are live, but remove_edge would erase an entry that is not there. */
  method RecycledEndBreaksRemoval<VV, EV>(g: UndirectedGraph<VV, EV>, x: nat, value: EV, v: VV)
    returns (e: nat, y: nat)
    requires g.Consistent() && x in g.base.Vs() && !g.base.vertices.Full() && !g.base.edges.Full()
    modifies g.base.Repr
    ensures g.Valid() && x in g.base.Vs() && y in g.base.Vs() && x != y
    ensures e == old(g.base.edges.NextFree()) && y == old(g.base.vertices.NextFree())
    ensures e in g.base.Es() && g.base.Es()[e] == Edge(x, y, value)
    ensures !RemovalDefined(g.base.Vs(), g.base.Es(), e)
  {
    g.base.vertices.NextFreeIsDead();
    hide ValueRepo.Valid, ValueRepo.Objects, Agree;
    e, y := g.base.edges.NextFree(), g.base.vertices.NextFree();
    var leaked := g.AddEdge(x, y, value);
    var added := g.AddVertex(v);
    assert g.base.Vs()[y].edges == [];
  }

  /** The same in a graph that had one vertex: edge 0 between vertices 0 and 1. */
  method FirstEdgeBreaksRemoval<VV, EV>(top: nat, value: EV, v: VV) returns (g: UndirectedGraph<VV, EV>)
    requires top >= 4
    ensures fresh(g) && g.Valid() && 0 in g.base.Vs() && 1 in g.base.Vs()
    ensures 0 in g.base.Es() && g.base.Es()[0] == Edge(0, 1, value)
    ensures !RemovalDefined(g.base.Vs(), g.base.Es(), 0)
  {
    hide ValueRepo.Valid, ValueRepo.Objects, Agree, RemovalDefined;
    g := new UndirectedGraph(top);
    FirstAssigned(g.base.vertices.View(), top, Vertex([], v));
    var first := g.AddVertex(v);
    assert g.base.vertices.View() == Pool([0], [], [Some(Vertex([], v))]);
    var e, y := RecycledEndBreaksRemoval(g, 0, value, v);
  }
}
