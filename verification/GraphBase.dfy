/** What both kinds of graph share: a pool of vertices and a pool of edges. */
module GraphBases {
  import opened Outcomes
  import opened Pools
  import opened ValueRepos
  import opened GraphElements

  class GraphBase<VV, EV> {
    const vertices: ValueRepo<Vertex<VV>>
    const edges: ValueRepo<Edge<EV>>

    ghost const Repr: set<object>

    ghost predicate Valid()
      reads this, Repr
    {
      && Repr == {vertices, vertices.list, edges, edges.list}
      && vertices as object != edges && vertices.list as object != edges.list
      && vertices.Valid() && edges.Valid()
    }

    /** The live vertices and edges. */
    ghost function Vs(): map<nat, Vertex<VV>>
      requires Valid()
      reads this, Repr
    {
      vertices.Objects()
    }

    ghost function Es(): map<nat, Edge<EV>>
      requires Valid()
      reads this, Repr
    {
      edges.Objects()
    }

    /** What looking up a dead vertex or edge throws. */
    function VertexError(v: nat): GraphError
      reads this, Repr
      requires Valid()
    {
      PoolFailure(if v >= |vertices.list.data| then IndexOutOfRange else UseUnused)
    }

    function EdgeError(e: nat): GraphError
      reads this, Repr
      requires Valid()
    {
      PoolFailure(if e >= |edges.list.data| then IndexOutOfRange else UseUnused)
    }

    constructor (top: nat)
      requires top >= 1
      ensures Valid() && fresh(Repr) && Vs() == map[] && Es() == map[]
      ensures !vertices.Full() && !edges.Full() && vertices.NextFree() == edges.NextFree() == 0
      ensures vertices.View() == Pool([], [], []) && vertices.top == top
    {
      var vs := new ValueRepo<Vertex<VV>>(top);
      var es := new ValueRepo<Edge<EV>>(top);
      vertices, edges := vs, es;
      Repr := {vs, vs.list, es, es.list};
    }

    method AddVertex(value: VV) returns (r: Result<nat, GraphError>)
      requires Valid()
      modifies vertices, vertices.list
      ensures Valid() && Es() == old(Es())
      ensures r == if old(vertices.Full()) then Err(PoolFailure(SizeTooLarge)) else Ok(old(vertices.NextFree()))
      ensures vertices.View() == Assign(old(vertices.View()), vertices.top, Vertex([], value)).0
      ensures r.Ok? ==> r.value !in old(Vs()) && Vs() == old(Vs())[r.value := Vertex([], value)]
      ensures r.Err? ==> Vs() == old(Vs())
    {
      hide ValueRepo.Valid, ValueRepo.Objects;
      var id := vertices.AssignObject(Vertex([], value));
      r := Lift(id);
    }

    static function Lift<T>(r: Result<T, PoolError>): Result<T, GraphError> {
      if r.Ok? then Ok(r.value) else Err(PoolFailure(r.error))
    }

    /** Inserts an entry into the adjacency set of x. */
    method AddAssociatedEdge(x: nat, ref: EdgeRef) returns (r: Result<(), GraphError>)
      requires Valid() && SortedSets(Vs())
      modifies vertices.list
      ensures Valid() && Es() == old(Es())
      ensures vertices.Full() == old(vertices.Full()) && vertices.NextFree() == old(vertices.NextFree())
      ensures r.Ok? <==> x in old(Vs())
      ensures r.Ok? ==> Vs() == old(Vs())[x := AddRef(old(Vs())[x], ref)]
      ensures r.Err? ==> Vs() == old(Vs()) && r.error == old(VertexError(x))
      ensures forall v :: VertexError(v) == old(VertexError(v))
    {
      hide ValueRepo.Valid, ValueRepo.Objects;
      var vertex := vertices.GetObject(x);
      if vertex.Err? {
        return Err(PoolFailure(vertex.error));
      }
      vertices.SetObject(x, AddRef(vertex.value, ref));
      r := Ok(());
    }

    /** Erases the entry for edge e, which must be there, from the adjacency set of x. */
    method RemoveAssociatedEdge(x: nat, e: nat) returns (r: Result<(), GraphError>)
      requires Valid() && SortedSets(Vs()) && (x in Vs() ==> HasKey(Vs()[x].edges, e))
      modifies vertices.list
      ensures Valid() && Es() == old(Es())
      ensures vertices.Full() == old(vertices.Full()) && vertices.NextFree() == old(vertices.NextFree())
      ensures r.Ok? <==> x in old(Vs())
      ensures r.Ok? ==> Vs() == old(Vs())[x := DropRef(old(Vs())[x], e)]
      ensures r.Err? ==> Vs() == old(Vs()) && r.error == old(VertexError(x))
      ensures forall v :: VertexError(v) == old(VertexError(v))
    {
      hide ValueRepo.Valid, ValueRepo.Objects;
      var vertex := vertices.GetObject(x);
      if vertex.Err? {
        return Err(PoolFailure(vertex.error));
      }
      vertices.SetObject(x, DropRef(vertex.value, e));
      r := Ok(());
    }

    /** A new live edge between x and y, not yet in any adjacency set. */
    method NewEdge(x: nat, y: nat, value: EV) returns (r: Result<nat, GraphError>)
      requires Valid()
      modifies edges, edges.list
      ensures Valid() && Vs() == old(Vs())
      ensures r == if old(edges.Full()) then Err(PoolFailure(SizeTooLarge)) else Ok(old(edges.NextFree()))
      ensures r.Ok? ==> r.value !in old(Es()) && Es() == old(Es())[r.value := Edge(x, y, value)]
      ensures r.Err? ==> Es() == old(Es())
    {
      hide ValueRepo.Valid, ValueRepo.Objects;
      var id := edges.AssignObject(Edge(edges.top, edges.top, value));
      if id.Err? {
        return Err(PoolFailure(id.error));
      }
      edges.SetObject(id.value, Edge(x, y, value));
      r := Ok(id.value);
    }

    function AssociatedVertices(e: nat): (r: Result<(nat, nat), GraphError>)
      requires Valid()
      reads this, Repr
      ensures r.Ok? <==> e in Es()
      ensures r.Ok? ==> r.value == (Es()[e].first, Es()[e].second)
      ensures r.Err? ==> r.error == EdgeError(e)
    {
      var edge := edges.GetObject(e);
      if edge.Ok? then Ok((edge.value.first, edge.value.second)) else Err(PoolFailure(edge.error))
    }

    /** The opposite ends of v's edges, in increasing order of edge id. */
    method Neighbors(v: nat) returns (r: Result<seq<nat>, GraphError>)
      requires Valid()
      ensures r.Ok? <==> v in Vs()
      ensures r.Ok? ==> |r.value| == |Vs()[v].edges|
      ensures r.Ok? ==> forall i :: 0 <= i < |r.value| ==> r.value[i] == Vs()[v].edges[i].opposite
    {
      hide ValueRepo.Valid, ValueRepo.Objects;
      var vertex := vertices.GetObject(v);
      if vertex.Err? {
        return Err(PoolFailure(vertex.error));
      }
      var refs, found := vertex.value.edges, [];
      for i := 0 to |refs|
        invariant |found| == i && forall k :: 0 <= k < i ==> found[k] == refs[k].opposite
      {
        found := found + [refs[i].opposite];
      }
      r := Ok(found);
    }
  }
}
