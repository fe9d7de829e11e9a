/** Vertices with their adjacency sets, edges, and the relation between the two. */
module GraphElements {
  import opened Outcomes
  import opened Sequences
  import opened Pools

  /** An entry of an adjacency set; entries are ordered by edge id alone. */
  datatype EdgeRef = EdgeRef(edge: nat, opposite: nat)

  /** edges is the adjacency set in increasing order of edge id. */
  datatype Vertex<VV> = Vertex(edges: seq<EdgeRef>, value: VV)

  datatype Edge<EV> = Edge(first: nat, second: nat, value: EV)

  datatype GraphError = PoolFailure(error: PoolError) | NoSuchEdge

  predicate Sorted(s: seq<EdgeRef>) {
    forall i, j :: 0 <= i < j < |s| ==> s[i].edge < s[j].edge
  }

  ghost predicate HasKey(s: seq<EdgeRef>, e: nat) {
    exists r :: r in s && r.edge == e
  }

  lemma SortedTail(s: seq<EdgeRef>)
    requires Sorted(s) && s != []
    ensures Sorted(s[1..])
    ensures forall x :: x in s <==> x == s[0] || x in s[1..]
    ensures forall x :: x in s[1..] ==> s[0].edge < x.edge
  {
    assert s == [s[0]] + s[1..];
  }

  lemma SortedCons(r: EdgeRef, s: seq<EdgeRef>)
    requires Sorted(s) && forall x :: x in s ==> r.edge < x.edge
    ensures Sorted([r] + s)
    ensures forall x :: x in [r] + s <==> x == r || x in s
  {
  }

  /** Set insertion: dropped when an entry with this edge id is there already. */
  function InsertRef(s: seq<EdgeRef>, r: EdgeRef): (t: seq<EdgeRef>)
    requires Sorted(s)
    ensures Sorted(t)
    ensures forall x :: x in t <==> x in s || (x == r && !HasKey(s, r.edge))
    ensures |t| == |s| + if HasKey(s, r.edge) then 0 else 1
  {
    if s == [] || r.edge < s[0].edge then [r] + s
    else if r.edge == s[0].edge then s
    else
      SortedTail(s);
      var rest := InsertRef(s[1..], r);
      SortedCons(s[0], rest);
      [s[0]] + rest
  }

  /** The second insertion of the same edge id is dropped. */
  lemma {:induction false} InsertTwice(s: seq<EdgeRef>, r: EdgeRef)
    requires Sorted(s)
    ensures InsertRef(InsertRef(s, r), r) == InsertRef(s, r)
  {
    if s != [] && r.edge > s[0].edge {
      SortedTail(s);
      InsertTwice(s[1..], r);
      assert InsertRef(s, r)[1..] == InsertRef(s[1..], r);
    }
  }

  /** Erases the entry with this edge id, which must be there. */
  function EraseRef(s: seq<EdgeRef>, e: nat): (t: seq<EdgeRef>)
    requires Sorted(s) && HasKey(s, e)
    ensures Sorted(t) && |t| == |s| - 1
    ensures forall x :: x in t <==> x in s && x.edge != e
  {
    SortedTail(s);
    if s[0].edge == e then s[1..]
    else
      var rest := EraseRef(s[1..], e);
      SortedCons(s[0], rest);
      [s[0]] + rest
  }

  /** The first entry, hence the one with the least edge id, whose other end is y. */
  method AssociatedEdge(s: seq<EdgeRef>, y: nat) returns (r: Result<nat, GraphError>)
    requires Sorted(s)
    ensures r.Ok? ==> EdgeRef(r.value, y) in s && forall x :: x in s && x.opposite == y ==> r.value <= x.edge
    ensures r.Err? ==> r.error == NoSuchEdge && forall x :: x in s ==> x.opposite != y
  {
    for i := 0 to |s|
      invariant forall k :: 0 <= k < i ==> s[k].opposite != y
    {
      if s[i].opposite == y {
        assert s[i] == EdgeRef(s[i].edge, y);
        return Ok(s[i].edge);
      }
    }
    return Err(NoSuchEdge);
  }

  // ---- undirected: both ends record the edge ----

  predicate Joins<EV>(edge: Edge<EV>, x: nat, y: nat) {
    (edge.first == x && edge.second == y) || (edge.first == y && edge.second == x)
  }

  /** Vertex v is live and its adjacency set holds (e, y). */
  ghost predicate Entry<VV>(vs: map<nat, Vertex<VV>>, v: nat, e: nat, y: nat) {
    v in vs && EdgeRef(e, y) in vs[v].edges
  }

  ghost predicate SortedSets<VV>(vs: map<nat, Vertex<VV>>) {
    forall v :: v in vs ==> Sorted(vs[v].edges)
  }

  /** Every live edge is entered at both ends, which are live and different. */
  ghost predicate EnteredTwice<VV, EV>(vs: map<nat, Vertex<VV>>, e: nat, edge: Edge<EV>) {
    edge.first != edge.second && Entry(vs, edge.first, e, edge.second) && Entry(vs, edge.second, e, edge.first)
  }

  /** Adjacency sets and live edges are the same relation, without loops. */
  ghost predicate Agree<VV, EV>(vs: map<nat, Vertex<VV>>, es: map<nat, Edge<EV>>) {
    && SortedSets(vs)
    && (forall e :: e in es ==> EnteredTwice(vs, e, es[e]))
    && (forall v, e, y :: Entry(vs, v, e, y) ==> e in es && Joins(es[e], v, y))
  }

  function AddRef<VV>(v: Vertex<VV>, r: EdgeRef): Vertex<VV>
    requires Sorted(v.edges)
  {
    v.(edges := InsertRef(v.edges, r))
  }

  function DropRef<VV>(v: Vertex<VV>, e: nat): Vertex<VV>
    requires Sorted(v.edges) && HasKey(v.edges, e)
  {
    v.(edges := EraseRef(v.edges, e))
  }

  /** Entries of a dead edge id cannot exist, so inserting a recycled id is never dropped. */
  lemma FreshKey<VV, EV>(vs: map<nat, Vertex<VV>>, es: map<nat, Edge<EV>>, v: nat, e: nat)
    requires forall u, d, y :: Entry(vs, u, d, y) ==> d in es
    requires v in vs && e !in es
    ensures !HasKey(vs[v].edges, e)
  {
    forall r | r in vs[v].edges ensures r.edge != e {
      assert r == EdgeRef(r.edge, r.opposite);
      assert Entry(vs, v, r.edge, r.opposite);
    }
  }

  lemma EntryAfterAdd<VV>(vs: map<nat, Vertex<VV>>, v: nat, r: EdgeRef, u: nat, d: nat, z: nat)
    requires v in vs && Sorted(vs[v].edges) && !HasKey(vs[v].edges, r.edge)
    ensures Entry(vs[v := AddRef(vs[v], r)], u, d, z) <==> Entry(vs, u, d, z) || (u == v && EdgeRef(d, z) == r)
  {
    var ws := vs[v := AddRef(vs[v], r)];
    if u == v {
      assert ws[u].edges == InsertRef(vs[v].edges, r);
    } else if u in vs {
      assert ws[u] == vs[u];
    }
  }

  lemma EntriesAfterAdd<VV>(vs: map<nat, Vertex<VV>>, v: nat, e: nat, y: nat)
    requires SortedSets(vs) && v in vs && !HasKey(vs[v].edges, e)
    ensures SortedSets(vs[v := AddRef(vs[v], EdgeRef(e, y))])
    ensures forall u, d, z :: Entry(vs[v := AddRef(vs[v], EdgeRef(e, y))], u, d, z)
                         <==> Entry(vs, u, d, z) || (u == v && d == e && z == y)
  {
    var r := EdgeRef(e, y);
    var ws := vs[v := AddRef(vs[v], r)];
    forall u | u in ws ensures Sorted(ws[u].edges) {
      if u == v { assert ws[u].edges == InsertRef(vs[v].edges, r); } else { assert ws[u] == vs[u]; }
    }
    hide Entry, AddRef, HasKey, SortedSets;
    forall u, d, z ensures Entry(ws, u, d, z) <==> Entry(vs, u, d, z) || (u == v && d == e && z == y) {
      assert r.edge == e;
      EntryAfterAdd(vs, v, r, u, d, z);
    }
  }

  lemma EntryAfterDrop<VV>(vs: map<nat, Vertex<VV>>, v: nat, e: nat, u: nat, d: nat, z: nat)
    requires v in vs && Sorted(vs[v].edges) && HasKey(vs[v].edges, e)
    ensures Entry(vs[v := DropRef(vs[v], e)], u, d, z) <==> Entry(vs, u, d, z) && !(u == v && d == e)
  {
    var ws := vs[v := DropRef(vs[v], e)];
    if u == v {
      assert ws[u].edges == EraseRef(vs[v].edges, e) && EdgeRef(d, z).edge == d;
    } else if u in vs {
      assert ws[u] == vs[u];
    }
  }

  lemma EntriesAfterDrop<VV>(vs: map<nat, Vertex<VV>>, v: nat, e: nat)
    requires SortedSets(vs) && v in vs && HasKey(vs[v].edges, e)
    ensures SortedSets(vs[v := DropRef(vs[v], e)])
    ensures forall u, d, z :: Entry(vs[v := DropRef(vs[v], e)], u, d, z) <==> Entry(vs, u, d, z) && !(u == v && d == e)
  {
    var ws := vs[v := DropRef(vs[v], e)];
    forall u | u in ws ensures Sorted(ws[u].edges) {
      if u == v { assert ws[u].edges == EraseRef(vs[v].edges, e); } else { assert ws[u] == vs[u]; }
    }
    hide Entry, DropRef, HasKey, SortedSets;
    forall u, d, z ensures Entry(ws, u, d, z) <==> Entry(vs, u, d, z) && !(u == v && d == e) {
      EntryAfterDrop(vs, v, e, u, d, z);
    }
  }

  ghost function WithEdge<VV>(vs: map<nat, Vertex<VV>>, e: nat, x: nat, y: nat): map<nat, Vertex<VV>>
    requires x in vs && y in vs && x != y && SortedSets(vs)
  {
    vs[x := AddRef(vs[x], EdgeRef(e, y))][y := AddRef(vs[y], EdgeRef(e, x))]
  }

  /** The same vertices with the same values; only adjacency sets may differ. */
  ghost predicate SameVertices<VV>(vs: map<nat, Vertex<VV>>, ws: map<nat, Vertex<VV>>) {
    ws.Keys == vs.Keys && forall v :: v in vs ==> ws[v].value == vs[v].value
  }

  /** Inserting at x and at y adds exactly the two entries of the edge. */
  lemma EntriesWithEdge<VV>(vs: map<nat, Vertex<VV>>, e: nat, x: nat, y: nat)
    requires x in vs && y in vs && x != y && SortedSets(vs) && !HasKey(vs[x].edges, e) && !HasKey(vs[y].edges, e)
    ensures SortedSets(WithEdge(vs, e, x, y))
    ensures forall u, d, z :: Entry(WithEdge(vs, e, x, y), u, d, z)
                         <==> Entry(vs, u, d, z) || (d == e && ((u == x && z == y) || (u == y && z == x)))
  {
    var us := vs[x := AddRef(vs[x], EdgeRef(e, y))];
    EntriesAfterAdd(vs, x, e, y);
    EntriesAfterAdd(us, y, e, x);
    hide Entry, SortedSets, AddRef;
    forall u, d, z ensures Entry(WithEdge(vs, e, x, y), u, d, z)
      <==> Entry(vs, u, d, z) || (d == e && ((u == x && z == y) || (u == y && z == x)))
    {
      assert Entry(WithEdge(vs, e, x, y), u, d, z) <==> Entry(us, u, d, z) || (u == y && d == e && z == x);
    }
  }

  lemma SameWithEdge<VV>(vs: map<nat, Vertex<VV>>, e: nat, x: nat, y: nat)
    requires x in vs && y in vs && x != y && SortedSets(vs)
    ensures SameVertices(vs, WithEdge(vs, e, x, y))
  {
  }

  lemma AgreeAddEdge<VV, EV>(vs: map<nat, Vertex<VV>>, es: map<nat, Edge<EV>>, e: nat, edge: Edge<EV>)
    requires Agree(vs, es) && e !in es
    requires edge.first in vs && edge.second in vs && edge.first != edge.second
    ensures Agree(WithEdge(vs, e, edge.first, edge.second), es[e := edge])
  {
    FreshKey(vs, es, edge.first, e);
    FreshKey(vs, es, edge.second, e);
    EntriesWithEdge(vs, e, edge.first, edge.second);
    hide Agree, Entry, SortedSets, WithEdge;
    AgreeWithEntries(vs, es, e, edge, WithEdge(vs, e, edge.first, edge.second));
  }

  /** Agreement after an edge and its two entries have been added, told by entries alone. */
  lemma AgreeWithEntries<VV, EV>(vs: map<nat, Vertex<VV>>, es: map<nat, Edge<EV>>, e: nat, edge: Edge<EV>,
                                 ws: map<nat, Vertex<VV>>)
    requires Agree(vs, es) && e !in es && edge.first != edge.second && SortedSets(ws)
    requires forall u, d, z :: Entry(ws, u, d, z)
                          <==> Entry(vs, u, d, z) || (d == e && ((u == edge.first && z == edge.second)
                                                                 || (u == edge.second && z == edge.first)))
    ensures Agree(ws, es[e := edge])
  {
    hide Entry, SortedSets;
    var x, y, fs := edge.first, edge.second, es[e := edge];
    forall d | d in fs ensures EnteredTwice(ws, d, fs[d]) {
      if d == e {
        assert fs[d] == edge && Entry(ws, x, e, y) && Entry(ws, y, e, x);
      } else {
        assert fs[d] == es[d] && EnteredTwice(vs, d, es[d]);
        assert Entry(vs, es[d].first, d, es[d].second) && Entry(vs, es[d].second, d, es[d].first);
      }
    }
    forall v, d, z | Entry(ws, v, d, z) ensures d in fs && Joins(fs[d], v, z) {
      if Entry(vs, v, d, z) {
        assert d in es && fs[d] == es[d] && Joins(es[d], v, z);
      } else {
        assert d == e && fs[d] == edge && Joins(edge, v, z);
      }
    }
  }

  lemma EdgeKeys<VV, EV>(vs: map<nat, Vertex<VV>>, e: nat, edge: Edge<EV>)
    requires EnteredTwice(vs, e, edge)
    ensures HasKey(vs[edge.first].edges, e) && HasKey(vs[edge.second].edges, e)
  {
    assert EdgeRef(e, edge.second).edge == e && EdgeRef(e, edge.first).edge == e;
  }

  ghost function WithoutEdge<VV>(vs: map<nat, Vertex<VV>>, e: nat, x: nat, y: nat): map<nat, Vertex<VV>>
    requires x in vs && y in vs && x != y && SortedSets(vs) && HasKey(vs[x].edges, e) && HasKey(vs[y].edges, e)
  {
    vs[x := DropRef(vs[x], e)][y := DropRef(vs[y], e)]
  }

  /** Erasing at x and at y drops exactly their entries for the edge. */
  lemma EntriesWithoutEdge<VV>(vs: map<nat, Vertex<VV>>, e: nat, x: nat, y: nat)
    requires x in vs && y in vs && x != y && SortedSets(vs) && HasKey(vs[x].edges, e) && HasKey(vs[y].edges, e)
    ensures SortedSets(WithoutEdge(vs, e, x, y))
    ensures forall u, d, z :: Entry(WithoutEdge(vs, e, x, y), u, d, z)
                         <==> Entry(vs, u, d, z) && !(d == e && (u == x || u == y))
  {
    var us := vs[x := DropRef(vs[x], e)];
    EntriesAfterDrop(vs, x, e);
    EntriesAfterDrop(us, y, e);
    hide Entry, SortedSets, DropRef;
    forall u, d, z ensures Entry(WithoutEdge(vs, e, x, y), u, d, z)
      <==> Entry(vs, u, d, z) && !(d == e && (u == x || u == y))
    {
      assert Entry(WithoutEdge(vs, e, x, y), u, d, z) <==> Entry(us, u, d, z) && !(u == y && d == e);
    }
  }

  lemma SameWithoutEdge<VV>(vs: map<nat, Vertex<VV>>, e: nat, x: nat, y: nat)
    requires x in vs && y in vs && x != y && SortedSets(vs) && HasKey(vs[x].edges, e) && HasKey(vs[y].edges, e)
    ensures SameVertices(vs, WithoutEdge(vs, e, x, y))
  {
  }

  lemma AgreeRemoveEdge<VV, EV>(vs: map<nat, Vertex<VV>>, es: map<nat, Edge<EV>>, e: nat)
    requires Agree(vs, es) && e in es
    ensures EnteredTwice(vs, e, es[e]) && HasKey(vs[es[e].first].edges, e) && HasKey(vs[es[e].second].edges, e)
    ensures Agree(WithoutEdge(vs, e, es[e].first, es[e].second), es - {e})
  {
    EdgeKeys(vs, e, es[e]);
    EntriesWithoutEdge(vs, e, es[e].first, es[e].second);
    hide Agree, Entry, SortedSets, WithoutEdge;
    AgreeWithoutEntries(vs, es, e, WithoutEdge(vs, e, es[e].first, es[e].second));
  }

  /** Agreement after an edge and its two entries have been dropped, told by entries alone. */
  lemma AgreeWithoutEntries<VV, EV>(vs: map<nat, Vertex<VV>>, es: map<nat, Edge<EV>>, e: nat, ws: map<nat, Vertex<VV>>)
    requires Agree(vs, es) && e in es && SortedSets(ws)
    requires forall u, d, z :: Entry(ws, u, d, z)
                          <==> Entry(vs, u, d, z) && !(d == e && (u == es[e].first || u == es[e].second))
    ensures Agree(ws, es - {e})
  {
    hide Entry, SortedSets;
    var fs := es - {e};
    forall d | d in fs ensures EnteredTwice(ws, d, fs[d]) {
      assert d != e && fs[d] == es[d] && EnteredTwice(vs, d, es[d]);
      assert Entry(vs, es[d].first, d, es[d].second) && Entry(vs, es[d].second, d, es[d].first);
    }
    forall v, d, z | Entry(ws, v, d, z) ensures d in fs && Joins(fs[d], v, z) {
      assert Entry(vs, v, d, z) && Joins(es[d], v, z);
      assert d != e;
    }
  }

  /** ws and fs are what is left of vs and es once v and everything at v is gone. */
  ghost predicate VertexGone<VV, EV>(vs: map<nat, Vertex<VV>>, es: map<nat, Edge<EV>>, v: nat,
                                     ws: map<nat, Vertex<VV>>, fs: map<nat, Edge<EV>>)
  {
    && SortedSets(ws) && ws.Keys == vs.Keys - {v}
    && (forall u :: u in ws ==> ws[u].value == vs[u].value)
    && (forall e :: e in fs <==> e in es && es[e].first != v && es[e].second != v)
    && (forall e :: e in fs ==> fs[e] == es[e])
    && (forall u, d, z :: Entry(ws, u, d, z) <==> Entry(vs, u, d, z) && u != v && z != v)
  }

  lemma AgreeRemoveVertex<VV, EV>(vs: map<nat, Vertex<VV>>, es: map<nat, Edge<EV>>, v: nat,
                                  ws: map<nat, Vertex<VV>>, fs: map<nat, Edge<EV>>)
    requires Agree(vs, es) && v in vs && VertexGone(vs, es, v, ws, fs)
    ensures Agree(ws, fs)
  {
    forall d | d in fs ensures EnteredTwice(ws, d, fs[d]) {
      assert EnteredTwice(vs, d, es[d]);
    }
    forall u, d, z | Entry(ws, u, d, z) ensures d in fs && Joins(fs[d], u, z) {
      assert Entry(vs, u, d, z);
    }
  }

  // ---- the loop of remove_vertex ----

  ghost function Keys(s: seq<EdgeRef>): set<nat> {
    set r | r in s :: r.edge
  }

  /** ws and fs after the edges in gone, all of them at v, have been dropped from the edge
      pool and from their other ends; v keeps its own set. */
  ghost predicate Detached<VV, EV>(vs: map<nat, Vertex<VV>>, es: map<nat, Edge<EV>>, v: nat, gone: set<nat>,
                                   ws: map<nat, Vertex<VV>>, fs: map<nat, Edge<EV>>)
  {
    && SortedSets(ws) && ws.Keys == vs.Keys
    && (forall u :: u in ws ==> ws[u].value == vs[u].value)
    && v in ws && ws[v] == vs[v]
    && fs == es - gone
    && (forall u, d, z :: Entry(ws, u, d, z) <==> Entry(vs, u, d, z) && (u == v || d !in gone))
  }

  /** One iteration: the entry r of v is detached at its other end. */
  lemma DetachOne<VV, EV>(vs: map<nat, Vertex<VV>>, es: map<nat, Edge<EV>>, v: nat, gone: set<nat>,
                          ws: map<nat, Vertex<VV>>, fs: map<nat, Edge<EV>>, r: EdgeRef)
    requires Agree(vs, es) && Detached(vs, es, v, gone, ws, fs)
    requires r in vs[v].edges && r.edge !in gone
    ensures r.edge in fs && r.opposite in ws && r.opposite != v && HasKey(ws[r.opposite].edges, r.edge)
    ensures Detached(vs, es, v, gone + {r.edge}, ws[r.opposite := DropRef(ws[r.opposite], r.edge)], fs - {r.edge})
  {
    hide Agree, Entry, SortedSets, Sorted, EraseRef;
    OtherEnd(vs, es, v, gone, ws, fs, r);
    var e, y := r.edge, r.opposite;
    EntriesAfterDrop(ws, y, e);
    var xs := ws[y := DropRef(ws[y], e)];
    forall u, d, z ensures Entry(xs, u, d, z) <==> Entry(vs, u, d, z) && (u == v || d !in gone + {e}) {
      assert Entry(xs, u, d, z) <==> Entry(ws, u, d, z) && !(u == y && d == e);
    }
    assert fs - {e} == es - (gone + {e});
  }

  /** The other end of an entry still has its own entry for the edge. */
  lemma OtherEnd<VV, EV>(vs: map<nat, Vertex<VV>>, es: map<nat, Edge<EV>>, v: nat, gone: set<nat>,
                         ws: map<nat, Vertex<VV>>, fs: map<nat, Edge<EV>>, r: EdgeRef)
    requires Agree(vs, es) && Detached(vs, es, v, gone, ws, fs)
    requires r in vs[v].edges && r.edge !in gone
    ensures r.edge in fs && r.opposite != v
    ensures forall u, z :: Entry(vs, u, r.edge, z) ==> u == v || u == r.opposite
    ensures r.opposite in ws && Sorted(ws[r.opposite].edges) && HasKey(ws[r.opposite].edges, r.edge)
  {
    var e, y := r.edge, r.opposite;
    assert r == EdgeRef(e, y);
    assert Entry(vs, v, e, y);
    assert EnteredTwice(vs, e, es[e]);
    assert Entry(ws, y, e, v);
    assert EdgeRef(e, v).edge == e;
    forall u, z | Entry(vs, u, e, z) ensures u == v || u == y { assert Joins(es[e], u, z); }
  }

  lemma NothingDetached<VV, EV>(vs: map<nat, Vertex<VV>>, es: map<nat, Edge<EV>>, v: nat)
    requires SortedSets(vs) && v in vs
    ensures Detached(vs, es, v, Keys([]), vs, es)
  {
  }

  lemma NextKey(s: seq<EdgeRef>, i: nat)
    requires Sorted(s) && i < |s|
    ensures s[i].edge !in Keys(s[..i]) && Keys(s[..i + 1]) == Keys(s[..i]) + {s[i].edge}
  {
    assert s[..i + 1] == s[..i] + [s[i]];
  }

  /** When the loop is through, v can go. */
  lemma AllDetached<VV, EV>(vs: map<nat, Vertex<VV>>, es: map<nat, Edge<EV>>, v: nat,
                            ws: map<nat, Vertex<VV>>, fs: map<nat, Edge<EV>>)
    requires Agree(vs, es) && v in vs && Detached(vs, es, v, Keys(vs[v].edges), ws, fs)
    ensures v in ws && VertexGone(vs, es, v, ws - {v}, fs)
  {
    var gone, xs := Keys(vs[v].edges), ws - {v};
    forall e | e in es ensures e in gone <==> es[e].first == v || es[e].second == v {
      assert EnteredTwice(vs, e, es[e]);
      if e in gone {
        var r :| r in vs[v].edges && r.edge == e;
        assert r == EdgeRef(e, r.opposite);
        assert Entry(vs, v, e, r.opposite);
      }
      if es[e].first == v { assert EdgeRef(e, es[e].second).edge == e; }
      if es[e].second == v { assert EdgeRef(e, es[e].first).edge == e; }
    }
    forall u, d, z ensures Entry(xs, u, d, z) <==> Entry(vs, u, d, z) && u != v && z != v {
      assert Entry(xs, u, d, z) <==> u != v && Entry(ws, u, d, z);
      if Entry(vs, u, d, z) { assert d in es && Joins(es[d], u, z); }
    }
  }

  // ---- counting ----

  /** The sum of the degrees of the vertices in ids. */
  function DegreeSum<VV>(vs: map<nat, Vertex<VV>>, ids: seq<nat>): nat
    requires forall x :: x in ids ==> x in vs
  {
    if ids == [] then 0 else |vs[ids[0]].edges| + DegreeSum(vs, ids[1..])
  }

  lemma {:induction false} DegreeUpdate<VV>(vs: map<nat, Vertex<VV>>, ids: seq<nat>, x: nat, w: Vertex<VV>)
    requires Distinct(ids) && forall u :: u in ids ==> u in vs
    ensures forall u :: u in ids ==> u in vs[x := w]
    ensures x in vs && x in ids ==> DegreeSum(vs[x := w], ids) + |vs[x].edges| == DegreeSum(vs, ids) + |w.edges|
    ensures x !in ids ==> DegreeSum(vs[x := w], ids) == DegreeSum(vs, ids)
  {
    if ids != [] {
      var rest := ids[1..];
      assert ids == [ids[0]] + rest;
      assert Distinct(rest) && ids[0] !in rest;
      DegreeUpdate(vs, rest, x, w);
    }
  }

  /** The degrees of all vertices add up to twice the number of edges. */
  lemma {:induction false} DegreesSumToTwiceEdges<VV, EV>(vs: map<nat, Vertex<VV>>, es: map<nat, Edge<EV>>,
                                                          ids: seq<nat>)
    requires Agree(vs, es) && Distinct(ids) && forall x :: x in ids <==> x in vs
    ensures DegreeSum(vs, ids) == 2 * |es|
    decreases |es|
  {
    if es.Keys == {} {
      NoEntries(vs, es);
      NoDegrees(vs, ids);
    } else {
      var e :| e in es;
      AgreeRemoveEdge(vs, es, e);
      assert SortedSets(vs);
      hide Agree, SortedSets, Entry, WithoutEdge, HasKey, DegreeSum;
      var x, y := es[e].first, es[e].second;
      assert (es - {e}).Keys == es.Keys - {e} && |es| == |(es - {e})| + 1;
      DegreeDropsByTwo(vs, ids, e, x, y);
      DegreesSumToTwiceEdges(WithoutEdge(vs, e, x, y), es - {e}, ids);
    }
  }

  lemma NoEntries<VV, EV>(vs: map<nat, Vertex<VV>>, es: map<nat, Edge<EV>>)
    requires Agree(vs, es) && es.Keys == {}
    ensures forall v :: v in vs ==> vs[v].edges == []
  {
    forall v | v in vs ensures vs[v].edges == [] {
      assert forall r :: r in vs[v].edges ==> r == EdgeRef(r.edge, r.opposite) && Entry(vs, v, r.edge, r.opposite);
      SomeMember(vs[v].edges);
    }
  }

  lemma SomeMember(s: seq<EdgeRef>)
    ensures s != [] ==> exists r :: r in s
  {
    if s != [] { assert s[0] in s; }
  }

  lemma DegreeDropsByTwo<VV>(vs: map<nat, Vertex<VV>>, ids: seq<nat>, e: nat, x: nat, y: nat)
    requires SortedSets(vs) && Distinct(ids) && forall u :: u in ids <==> u in vs
    requires x in vs && y in vs && x != y && HasKey(vs[x].edges, e) && HasKey(vs[y].edges, e)
    ensures WithoutEdge(vs, e, x, y).Keys == vs.Keys && forall u :: u in ids <==> u in WithoutEdge(vs, e, x, y)
    ensures DegreeSum(WithoutEdge(vs, e, x, y), ids) + 2 == DegreeSum(vs, ids)
  {
    var us := vs[x := DropRef(vs[x], e)];
    DegreeUpdate(vs, ids, x, DropRef(vs[x], e));
    DegreeUpdate(us, ids, y, DropRef(us[y], e));
  }

  lemma {:induction false} NoDegrees<VV>(vs: map<nat, Vertex<VV>>, ids: seq<nat>)
    requires forall x :: x in ids ==> x in vs
    requires forall v :: v in vs ==> vs[v].edges == []
    ensures DegreeSum(vs, ids) == 0
  {
    if ids != [] { NoDegrees(vs, ids[1..]); }
  }
}
