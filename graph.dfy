/** A graph: a vertex pool and an edge pool, each a property container. Every
    vertex keeps the list of its incident edges in "v:connectivity", in the
    order they were added, and every edge keeps its two end vertices in
    "e:connectivity". Deletion and garbage collection are not implemented for
    graphs: those operations only warn, so no vertex or edge is ever flagged. */
module Graphs {
  import opened PropertyStore
  import opened Attributes

  /** Positions of the standard vertex properties, in registration order. */
  const VConnCol := 0
  const VPointCol := 1
  const VDeletedCol := 2

  /** Positions of the standard edge properties, in registration order. */
  const EConnCol := 0
  const EDeletedCol := 1

  /** The vertex container of a new graph: the standard vertex properties, no vertices. */
  function StandardVertices(): Container<Value>
  {
    Container([Column("v:connectivity", Links([]), []),
               Column("v:point", Point(Origin), []),
               Column("v:deleted", Flag(false), [])], 0)
  }

  /** The edge container of a new graph: the standard edge properties, no edges. */
  function StandardEdges(): Container<Value>
  {
    Container([Column("e:connectivity", Ends(Invalid, Invalid), []),
               Column("e:deleted", Flag(false), [])], 0)
  }

  /** Both containers hold the standard properties first, with their standard defaults. */
  ghost predicate HasStandardColumns(vprops: Container<Value>, eprops: Container<Value>)
  {
    && WellFormed(vprops) && |vprops.columns| >= 3
    && vprops.columns[VConnCol].name == "v:connectivity" && vprops.columns[VConnCol].default == Links([])
    && vprops.columns[VPointCol].name == "v:point" && vprops.columns[VPointCol].default == Point(Origin)
    && vprops.columns[VDeletedCol].name == "v:deleted" && vprops.columns[VDeletedCol].default == Flag(false)
    && WellFormed(eprops) && |eprops.columns| >= 2
    && eprops.columns[EConnCol].name == "e:connectivity" && eprops.columns[EConnCol].default == Ends(Invalid, Invalid)
    && eprops.columns[EDeletedCol].name == "e:deleted" && eprops.columns[EDeletedCol].default == Flag(false)
  }

  /** The connectivity of a graph: the incidence list of every vertex and the
      two ends of every edge. */
  datatype Topology = Topology(vconn: seq<Value>, econn: seq<Value>)

  function TopologyOf(vprops: Container<Value>, eprops: Container<Value>): Topology
    requires VConnCol < |vprops.columns| && EConnCol < |eprops.columns|
  {
    Topology(vprops.columns[VConnCol].data, eprops.columns[EConnCol].data)
  }

  /** Edge `e` has `v` as one of its two ends. */
  predicate Touches(t: Topology, e: int, v: int)
  {
    0 <= e < |t.econn| && t.econn[e].Ends? && (t.econn[e].source == v || t.econn[e].target == v)
  }

  /** Edge `e` joins `s` and `u`, in either orientation. */
  predicate Joins(t: Topology, e: int, s: int, u: int)
  {
    0 <= e < |t.econn| && t.econn[e].Ends?
    && ((t.econn[e].source == s && t.econn[e].target == u) || (t.econn[e].source == u && t.econn[e].target == s))
  }

  /** Some edge joins `s` and `u`. */
  ghost predicate Adjacent(t: Topology, s: int, u: int)
  {
    exists e :: 0 <= e < |t.econn| && Joins(t, e, s, u)
  }

  /** The incidence list of vertex `v`. */
  function EdgesOf(t: Topology, v: nat): seq<int>
    requires v < |t.vconn| && t.vconn[v].Links?
  {
    t.vconn[v].edges
  }

  /** The edges that have `v` as an end. */
  ghost function Incident(t: Topology, v: int): set<int>
  {
    set e | 0 <= e < |t.econn| && Touches(t, e, v)
  }

  /** Every vertex has an incidence list. */
  ghost predicate VerticesHaveLists(t: Topology)
  {
    forall v :: 0 <= v < |t.vconn| ==> t.vconn[v].Links?
  }

  /** Every edge has two distinct existing ends. */
  ghost predicate EdgesHaveEnds(t: Topology)
  {
    forall e :: 0 <= e < |t.econn| ==>
      && t.econn[e].Ends?
      && 0 <= t.econn[e].source < |t.vconn| && 0 <= t.econn[e].target < |t.vconn|
      && t.econn[e].source != t.econn[e].target
  }

  /** A vertex lists only edges it is an end of. */
  ghost predicate ListsTouch(t: Topology)
    requires VerticesHaveLists(t)
  {
    forall v, i :: 0 <= v < |t.vconn| && 0 <= i < |t.vconn[v].edges| ==> Touches(t, t.vconn[v].edges[i], v)
  }

  /** No incidence list repeats an edge. */
  ghost predicate ListsDistinct(t: Topology)
    requires VerticesHaveLists(t)
  {
    forall v, i, j :: 0 <= v < |t.vconn| && 0 <= i < j < |t.vconn[v].edges| ==>
      t.vconn[v].edges[i] != t.vconn[v].edges[j]
  }

  /** Every edge is listed by both its ends. */
  ghost predicate EdgesListed(t: Topology)
    requires VerticesHaveLists(t) && EdgesHaveEnds(t)
  {
    forall e :: 0 <= e < |t.econn| ==>
      e in t.vconn[t.econn[e].source].edges && e in t.vconn[t.econn[e].target].edges
  }

  /** No two edges join the same two vertices. */
  ghost predicate NoParallel(t: Topology)
    requires EdgesHaveEnds(t)
  {
    forall e, f :: 0 <= e < f < |t.econn| ==> !Joins(t, f, t.econn[e].source, t.econn[e].target)
  }

  /** The incidence lists and the edge ends agree: every edge has two distinct
      existing ends and is listed, once, by each of them; a vertex lists only
      edges it is an end of; and no two edges join the same two vertices. */
  ghost predicate WellLinked(t: Topology)
  {
    && VerticesHaveLists(t) && EdgesHaveEnds(t)
    && ListsTouch(t) && ListsDistinct(t) && EdgesListed(t) && NoParallel(t)
  }

  /** A vertex with no edges added to a graph. */
  function AddIsolated(t: Topology): (r: Topology)
    ensures |r.vconn| == |t.vconn| + 1 && r.vconn[..|t.vconn|] == t.vconn
    ensures r.vconn[|t.vconn|] == Links([]) && r.econn == t.econn
  {
    Topology(t.vconn + [Links([])], t.econn)
  }

  /** The new edge |econn| from `s` to `u` added to a graph: recorded with its
      two ends and appended to the incidence lists of both. */
  function Connect(t: Topology, s: nat, u: nat): (r: Topology)
    requires s < |t.vconn| && u < |t.vconn| && t.vconn[s].Links? && t.vconn[u].Links?
    ensures |r.vconn| == |t.vconn| && r.econn == t.econn + [Ends(s, u)]
    ensures r.vconn[s].Links? && r.vconn[u].Links?
    ensures r.vconn[s].edges != [] && r.vconn[s].edges[|r.vconn[s].edges| - 1] == |t.econn|
    ensures r.vconn[u].edges != [] && r.vconn[u].edges[|r.vconn[u].edges| - 1] == |t.econn|
    ensures forall v :: 0 <= v < |t.vconn| && v != s && v != u ==> r.vconn[v] == t.vconn[v]
  {
    var e := |t.econn|;
    var vconn := t.vconn[s := Links(t.vconn[s].edges + [e])];
    Topology(vconn[u := Links(vconn[u].edges + [e])], t.econn + [Ends(s, u)])
  }

  lemma AddIsolatedKeepsWellLinked(t: Topology)
    requires WellLinked(t)
    ensures WellLinked(AddIsolated(t))
    ensures forall v :: 0 <= v < |t.vconn| ==> Incident(AddIsolated(t), v) == Incident(t, v)
    ensures Incident(AddIsolated(t), |t.vconn|) == {}
  {
    var r := AddIsolated(t);
    assert forall e :: 0 <= e < |t.econn| ==> !Touches(r, e, |t.vconn|);
    assert forall e :: e !in Incident(r, |t.vconn|);
    forall v, i | 0 <= v < |r.vconn| && 0 <= i < |r.vconn[v].edges|
      ensures Touches(r, r.vconn[v].edges[i], v)
    {
      assert v < |t.vconn|;
      assert Touches(t, t.vconn[v].edges[i], v);
    }
    forall e | 0 <= e < |r.econn|
      ensures e in r.vconn[r.econn[e].source].edges && e in r.vconn[r.econn[e].target].edges
    {
      assert e in t.vconn[t.econn[e].source].edges;
    }
    forall e, f | 0 <= e < f < |r.econn|
      ensures !Joins(r, f, r.econn[e].source, r.econn[e].target)
    {
      assert !Joins(t, f, t.econn[e].source, t.econn[e].target);
    }
  }

  /** Connecting two distinct vertices that no edge joins yet keeps the graph
      well linked; the new edge joins them, and exactly the two of them gain
      one incident edge. */
  lemma ConnectKeepsWellLinked(t: Topology, s: nat, u: nat)
    requires WellLinked(t) && s < |t.vconn| && u < |t.vconn| && s != u && !Adjacent(t, s, u)
    ensures WellLinked(Connect(t, s, u))
    ensures Joins(Connect(t, s, u), |t.econn|, s, u)
    ensures Incident(Connect(t, s, u), s) == Incident(t, s) + {|t.econn|}
    ensures Incident(Connect(t, s, u), u) == Incident(t, u) + {|t.econn|}
    ensures forall v :: 0 <= v < |t.vconn| && v != s && v != u ==> Incident(Connect(t, s, u), v) == Incident(t, v)
  {
    ConnectShape(t, s, u);
    ConnectListsTouch(t, s, u);
    ConnectListsDistinct(t, s, u);
    ConnectEdgesListed(t, s, u);
    ConnectNoParallel(t, s, u);
    ConnectIncident(t, s, u);
  }

  /** How Connect changes the lists and the ends. */
  lemma ConnectShape(t: Topology, s: nat, u: nat)
    requires VerticesHaveLists(t) && EdgesHaveEnds(t) && s < |t.vconn| && u < |t.vconn| && s != u
    ensures |Connect(t, s, u).vconn| == |t.vconn| && |Connect(t, s, u).econn| == |t.econn| + 1
    ensures VerticesHaveLists(Connect(t, s, u)) && EdgesHaveEnds(Connect(t, s, u))
    ensures forall v :: 0 <= v < |t.vconn| && v != s && v != u ==> Connect(t, s, u).vconn[v] == t.vconn[v]
    ensures Connect(t, s, u).vconn[s].edges == t.vconn[s].edges + [|t.econn|]
    ensures Connect(t, s, u).vconn[u].edges == t.vconn[u].edges + [|t.econn|]
    ensures forall e :: 0 <= e < |t.econn| ==> Connect(t, s, u).econn[e] == t.econn[e]
    ensures Connect(t, s, u).econn[|t.econn|] == Ends(s, u)
  {
  }

  lemma ConnectListsTouch(t: Topology, s: nat, u: nat)
    requires VerticesHaveLists(t) && EdgesHaveEnds(t) && ListsTouch(t)
    requires s < |t.vconn| && u < |t.vconn| && s != u
    ensures VerticesHaveLists(Connect(t, s, u)) && ListsTouch(Connect(t, s, u))
  {
    var r := Connect(t, s, u);
    ConnectShape(t, s, u);
    forall v, i | 0 <= v < |r.vconn| && 0 <= i < |r.vconn[v].edges|
      ensures Touches(r, r.vconn[v].edges[i], v)
    {
      if i < |t.vconn[v].edges| {
        assert r.vconn[v].edges[i] == t.vconn[v].edges[i];
        assert Touches(t, t.vconn[v].edges[i], v);
      }
    }
  }

  lemma ConnectListsDistinct(t: Topology, s: nat, u: nat)
    requires VerticesHaveLists(t) && EdgesHaveEnds(t) && ListsTouch(t) && ListsDistinct(t)
    requires s < |t.vconn| && u < |t.vconn| && s != u
    ensures VerticesHaveLists(Connect(t, s, u)) && ListsDistinct(Connect(t, s, u))
  {
    var r := Connect(t, s, u);
    ConnectShape(t, s, u);
    forall v, i, j | 0 <= v < |r.vconn| && 0 <= i < j < |r.vconn[v].edges|
      ensures r.vconn[v].edges[i] != r.vconn[v].edges[j]
    {
      if j == |t.vconn[v].edges| {
        assert Touches(t, t.vconn[v].edges[i], v);
      } else {
        assert r.vconn[v].edges[i] == t.vconn[v].edges[i] && r.vconn[v].edges[j] == t.vconn[v].edges[j];
      }
    }
  }

  lemma ConnectEdgesListed(t: Topology, s: nat, u: nat)
    requires VerticesHaveLists(t) && EdgesHaveEnds(t) && EdgesListed(t)
    requires s < |t.vconn| && u < |t.vconn| && s != u
    ensures VerticesHaveLists(Connect(t, s, u)) && EdgesHaveEnds(Connect(t, s, u))
    ensures EdgesListed(Connect(t, s, u))
  {
    var r := Connect(t, s, u);
    var n := |t.econn|;
    ConnectShape(t, s, u);
    forall e | 0 <= e < |r.econn|
      ensures e in r.vconn[r.econn[e].source].edges && e in r.vconn[r.econn[e].target].edges
    {
      if e < n {
        var a, b := t.econn[e].source, t.econn[e].target;
        assert e in t.vconn[a].edges && e in t.vconn[b].edges;
        assert forall x :: x in t.vconn[a].edges ==> x in r.vconn[a].edges;
        assert forall x :: x in t.vconn[b].edges ==> x in r.vconn[b].edges;
      } else {
        assert r.vconn[s].edges[|t.vconn[s].edges|] == e;
        assert r.vconn[u].edges[|t.vconn[u].edges|] == e;
      }
    }
  }

  lemma ConnectNoParallel(t: Topology, s: nat, u: nat)
    requires VerticesHaveLists(t) && EdgesHaveEnds(t) && NoParallel(t) && !Adjacent(t, s, u)
    requires s < |t.vconn| && u < |t.vconn| && s != u
    ensures EdgesHaveEnds(Connect(t, s, u)) && NoParallel(Connect(t, s, u))
    ensures Joins(Connect(t, s, u), |t.econn|, s, u)
  {
    var r := Connect(t, s, u);
    var n := |t.econn|;
    ConnectShape(t, s, u);
    forall e, f | 0 <= e < f < |r.econn|
      ensures !Joins(r, f, r.econn[e].source, r.econn[e].target)
    {
      if f == n {
        if Joins(r, f, r.econn[e].source, r.econn[e].target) {
          assert Joins(t, e, s, u);
        }
      } else {
        assert !Joins(t, f, t.econn[e].source, t.econn[e].target);
      }
    }
  }

  lemma ConnectIncident(t: Topology, s: nat, u: nat)
    requires VerticesHaveLists(t) && EdgesHaveEnds(t) && s < |t.vconn| && u < |t.vconn| && s != u
    ensures Incident(Connect(t, s, u), s) == Incident(t, s) + {|t.econn|}
    ensures Incident(Connect(t, s, u), u) == Incident(t, u) + {|t.econn|}
    ensures forall v :: 0 <= v < |t.vconn| && v != s && v != u ==> Incident(Connect(t, s, u), v) == Incident(t, v)
  {
    ConnectShape(t, s, u);
  }

  /** Adding an edge raises the number of incident edges of each of its two
      ends by exactly one and leaves that of every other vertex as it was. */
  lemma ConnectValence(t: Topology, s: nat, u: nat)
    requires WellLinked(t) && s < |t.vconn| && u < |t.vconn| && s != u && !Adjacent(t, s, u)
    ensures |Incident(Connect(t, s, u), s)| == |Incident(t, s)| + 1
    ensures |Incident(Connect(t, s, u), u)| == |Incident(t, u)| + 1
    ensures forall v :: 0 <= v < |t.vconn| && v != s && v != u ==>
              |Incident(Connect(t, s, u), v)| == |Incident(t, v)|
  {
    ConnectIncident(t, s, u);
    assert |t.econn| !in Incident(t, s) && |t.econn| !in Incident(t, u);
  }

  /** The incidence list of a vertex holds exactly its incident edges. */
  lemma ListedAreIncident(t: Topology, v: nat)
    requires WellLinked(t) && v < |t.vconn|
    ensures forall e :: e in EdgesOf(t, v) <==> e in Incident(t, v)
  {
    forall e | e in Incident(t, v)
      ensures e in EdgesOf(t, v)
    {
      assert e in t.vconn[t.econn[e].source].edges && e in t.vconn[t.econn[e].target].edges;
    }
  }

  /** A list without repeats has as many elements as the set of its elements. */
  lemma {:induction false} DistinctCard(s: seq<int>)
    requires forall i, j :: 0 <= i < j < |s| ==> s[i] != s[j]
    ensures |set x | x in s| == |s|
  {
    if s != [] {
      var rest := s[1..];
      DistinctCard(rest);
      assert (set x | x in s) == (set x | x in rest) + {s[0]};
      assert forall k :: 0 <= k < |rest| ==> rest[k] == s[k + 1];
      assert s[0] !in rest;
    }
  }

  /** Some edge listed by `s` has `u` as an end exactly when an edge joins
      `s` and `u`; for `s != u` the edge found joins them. */
  lemma {:induction false} TouchingIffAdjacent(t: Topology, s: nat, u: nat)
    requires WellLinked(t) && s < |t.vconn| && u < |t.vconn| && s != u
    ensures (exists x :: x in EdgesOf(t, s) && Touches(t, x, u)) <==> Adjacent(t, s, u)
    ensures forall x :: x in EdgesOf(t, s) && Touches(t, x, u) ==> Joins(t, x, s, u)
  {
    ListedAreIncident(t, s);
    if Adjacent(t, s, u) {
      var e :| 0 <= e < |t.econn| && Joins(t, e, s, u);
      assert e in Incident(t, s);
      assert e in EdgesOf(t, s) && Touches(t, e, u);
    }
    forall x | x in EdgesOf(t, s) && Touches(t, x, u)
      ensures Joins(t, x, s, u)
    {
      assert x in Incident(t, s);
    }
  }

  /** The standard properties are in place, the connectivity is well linked,
      and nothing is flagged deleted: the counters are zero and the garbage
      flag is clear, since no operation of the graph deletes anything. */
  ghost predicate GraphState(vprops: Container<Value>, eprops: Container<Value>, mprops: Container<Value>,
                             deletedVertices: nat, deletedEdges: nat, garbage: bool)
  {
    && HasStandardColumns(vprops, eprops)
    && WellFormed(mprops)
    && WellLinked(TopologyOf(vprops, eprops))
    && (forall v :: 0 <= v < vprops.size ==> vprops.columns[VDeletedCol].data[v] == Flag(false))
    && (forall e :: 0 <= e < eprops.size ==> eprops.columns[EDeletedCol].data[e] == Flag(false))
    && deletedVertices == 0 && deletedEdges == 0 && !garbage
  }

  /** The loop of find_edge: the first edge of `edges` that has `end` as an
      end, or the invalid handle when there is none. Every listed edge is an
      edge of `start`. */
  method FirstTouching(t: Topology, edges: seq<int>, start: int, end: int) returns (e: int)
    requires forall k :: 0 <= k < |edges| ==> Touches(t, edges[k], start)
    ensures e == Invalid <==> forall x :: x in edges ==> !Touches(t, x, end)
    ensures e != Invalid ==> e in edges && Touches(t, e, end)
    ensures e != Invalid ==>
      exists i :: 0 <= i < |edges| && edges[i] == e && (forall k :: 0 <= k < i ==> !Touches(t, edges[k], end))
  {
    var i := 0;
    while i < |edges|
      invariant 0 <= i <= |edges|
      invariant forall k :: 0 <= k < i ==> !Touches(t, edges[k], end)
    {
      var x := edges[i];
      assert Touches(t, x, start);
      var ends := t.econn[x];
      if ends.source == end || ends.target == end {
        assert x in edges && Touches(t, x, end);
        return x;
      }
      i := i + 1;
    }
    return Invalid;
  }

  /** Adding an edge between two distinct vertices that no edge joins yet
      keeps the graph's invariant. */
  lemma ConnectKeepsState(vprops: Container<Value>, eprops: Container<Value>, mprops: Container<Value>, s: nat, u: nat)
    requires GraphState(vprops, eprops, mprops, 0, 0, false)
    requires s < vprops.size && u < vprops.size && s != u && !Adjacent(TopologyOf(vprops, eprops), s, u)
    ensures GraphState(SetArray(vprops, VConnCol, Connect(TopologyOf(vprops, eprops), s, u).vconn),
                       SetArray(PushBack(eprops), EConnCol, Connect(TopologyOf(vprops, eprops), s, u).econn),
                       mprops, 0, 0, false)
    ensures TopologyOf(SetArray(vprops, VConnCol, Connect(TopologyOf(vprops, eprops), s, u).vconn),
                       SetArray(PushBack(eprops), EConnCol, Connect(TopologyOf(vprops, eprops), s, u).econn))
            == Connect(TopologyOf(vprops, eprops), s, u)
  {
    var t := TopologyOf(vprops, eprops);
    ConnectKeepsWellLinked(t, s, u);
    var vp := SetArray(vprops, VConnCol, Connect(t, s, u).vconn);
    var ep := SetArray(PushBack(eprops), EConnCol, Connect(t, s, u).econn);
    assert TopologyOf(vp, ep) == Connect(t, s, u);
  }

  class Graph {
    var vprops: Container<Value>
    var eprops: Container<Value>
    var mprops: Container<Value>
    var deletedVertices: nat
    var deletedEdges: nat
    var garbage: bool

    function Topo(): Topology
      reads this
      requires VConnCol < |vprops.columns| && EConnCol < |eprops.columns|
    {
      TopologyOf(vprops, eprops)
    }

    /** See GraphState. */
    ghost predicate Valid()
      reads this
    {
      GraphState(vprops, eprops, mprops, deletedVertices, deletedEdges, garbage)
    }

    predicate IsVertex(v: int)
      reads this
    {
      0 <= v < vprops.size
    }

    constructor ()
      ensures Valid()
      ensures vprops == StandardVertices() && eprops == StandardEdges() && mprops == Container([], 1)
    {
      var v0 := Add(Empty(), "v:connectivity", Links([]));
      var e0 := Add(Empty(), "e:connectivity", Ends(Invalid, Invalid));
      var v1 := Add(v0.value, "v:point", Point(Origin));
      var v2 := Add(v1.value, "v:deleted", Flag(false));
      var e1 := Add(e0.value, "e:deleted", Flag(false));
      vprops := v2.value;
      eprops := e1.value;
      mprops := PushBack(Empty());
      deletedVertices, deletedEdges := 0, 0;
      garbage := false;
      new;
      assert vprops.columns == StandardVertices().columns;
      assert eprops.columns == StandardEdges().columns;
      EmptyIsValid();
    }

    /** operator=: a deep copy of the three property containers and of the counters. */
    method CopyAssign(rhs: Graph)
      requires rhs.Valid()
      modifies this
      ensures Valid()
      ensures rhs != this ==>
        && vprops == rhs.vprops && eprops == rhs.eprops && mprops == rhs.mprops
        && deletedVertices == rhs.deletedVertices && deletedEdges == rhs.deletedEdges
        && garbage == rhs.garbage
      ensures rhs == this ==> unchanged(this)
    {
      if rhs != this {
        vprops := rhs.vprops;
        eprops := rhs.eprops;
        mprops := rhs.mprops;
        deletedVertices := rhs.deletedVertices;
        deletedEdges := rhs.deletedEdges;
        garbage := rhs.garbage;
      }
    }

    /** Replaces the contents by the vertices and edges of `rhs` with only the
        standard properties; the model properties are dropped. */
    method Assign(rhs: Graph)
      requires rhs.Valid()
      modifies this
      ensures Valid()
      ensures rhs != this ==>
        && vprops == KeepFirst(rhs.vprops, 3) && eprops == KeepFirst(rhs.eprops, 2)
        && mprops == Container([], 1)
        && deletedVertices == rhs.deletedVertices && deletedEdges == rhs.deletedEdges
        && garbage == rhs.garbage
      ensures rhs == this ==> unchanged(this)
    {
      if rhs != this {
        // start again from fresh standard arrays and an empty model slot
        var vstandard := StandardVertices();
        var estandard := StandardEdges();
        mprops := Empty();
        // copy the standard arrays from the other graph
        vstandard := SetArray(vstandard, VConnCol, rhs.vprops.columns[VConnCol].data);
        estandard := SetArray(estandard, EConnCol, rhs.eprops.columns[EConnCol].data);
        vstandard := SetArray(vstandard, VPointCol, rhs.vprops.columns[VPointCol].data);
        vstandard := SetArray(vstandard, VDeletedCol, rhs.vprops.columns[VDeletedCol].data);
        estandard := SetArray(estandard, EDeletedCol, rhs.eprops.columns[EDeletedCol].data);
        // resize (the arrays already hold rhs's entries)
        VerticesCopied(rhs.vprops, vstandard);
        EdgesCopied(rhs.eprops, estandard);
        vprops := Resize(vstandard, rhs.vprops.size);
        eprops := Resize(estandard, rhs.eprops.size);
        mprops := Resize(mprops, 1);
        deletedVertices := rhs.deletedVertices;
        deletedEdges := rhs.deletedEdges;
        garbage := rhs.garbage;
      }
    }

    /** Removes every vertex, every edge and every non-standard property. */
    method Clear()
      requires Valid()
      modifies this
      ensures Valid()
      ensures vprops == StandardVertices() && eprops == StandardEdges() && mprops == Container([], 1)
      ensures deletedVertices == 0 && deletedEdges == 0 && !garbage
    {
      vprops := Resize(vprops, 0);
      eprops := Resize(eprops, 0);
      mprops := Resize(mprops, 0);
      deletedVertices, deletedEdges := 0, 0;
      garbage := false;
      // keep the standard properties and remove all the others
      vprops := KeepFirst(vprops, 3);
      eprops := KeepFirst(eprops, 2);
      mprops := Resize(Empty(), 1);
      Cleared(old(vprops), old(eprops));
      EmptyIsValid();
    }

    /** Capacity is not modelled: reserving changes nothing observable. */
    method Reserve(nvertices: nat, nedges: nat)
      modifies this
      ensures unchanged(this)
    {
    }

    method AddVertex(p: Vec3) returns (v: nat)
      requires Valid()
      modifies this
      ensures Valid()
      ensures v == old(vprops.size) && vprops.size == v + 1
      ensures vprops == SetCell(PushBack(old(vprops)), VPointCol, v, Point(p))
      ensures Topo() == AddIsolated(old(Topo()))
      ensures eprops == old(eprops) && mprops == old(mprops)
      ensures forall col, k :: 0 <= col < |vprops.columns| && 0 <= k < v ==>
                vprops.columns[col].data[k] == old(vprops.columns[col].data[k])
    {
      // new_vertex(): one more row holding every property's default
      vprops := PushBack(vprops);
      v := vprops.size - 1;
      vprops := SetCell(vprops, VPointCol, v, Point(p));
      assert Topo() == AddIsolated(old(Topo()));
      AddIsolatedKeepsWellLinked(old(Topo()));
    }

    /** The first edge in the incidence list of `start` that has `end` as an
        end, or the invalid handle when there is none. */
    method FindEdge(start: int, end: int) returns (e: int)
      requires Valid() && IsVertex(start) && IsVertex(end)
      ensures e == Invalid <==> forall x :: x in EdgesOf(Topo(), start) ==> !Touches(Topo(), x, end)
      ensures e != Invalid ==> e in EdgesOf(Topo(), start) && Touches(Topo(), e, end)
      ensures e != Invalid ==>
        exists i :: 0 <= i < |EdgesOf(Topo(), start)| && EdgesOf(Topo(), start)[i] == e &&
          (forall k :: 0 <= k < i ==> !Touches(Topo(), EdgesOf(Topo(), start)[k], end))
      ensures start != end ==> (e == Invalid <==> !Adjacent(Topo(), start, end))
      ensures start != end && e != Invalid ==> Joins(Topo(), e, start, end)
    {
      var t := Topo();
      if start != end {
        TouchingIffAdjacent(t, start, end);
      }
      e := FirstTouching(t, EdgesOf(t, start), start, end);
    }

    /** The number of edges incident to `v`. */
    function Valence(v: int): (n: nat)
      reads this
      requires Valid() && IsVertex(v)
      ensures n == |Incident(Topo(), v)|
    {
      var edges := vprops.columns[VConnCol].data[v].edges;
      ListedAreIncident(Topo(), v);
      DistinctCard(edges);
      assert Incident(Topo(), v) == set x | x in edges;
      |edges|
    }

    /** Adds an edge from `start` to `end`, unless an edge already joins them,
        in which case that edge is returned and nothing changes. */
    method AddEdge(start: int, end: int) returns (e: int)
      requires Valid() && IsVertex(start) && IsVertex(end) && start != end
      modifies this
      ensures Valid()
      ensures Joins(Topo(), e, start, end)
      ensures Adjacent(old(Topo()), start, end) ==> unchanged(this)
      ensures !Adjacent(old(Topo()), start, end) ==>
        && e == old(eprops.size) && eprops.size == e + 1
        && Topo() == Connect(old(Topo()), start, end)
        && vprops == SetArray(old(vprops), VConnCol, Topo().vconn)
        && eprops == SetArray(PushBack(old(eprops)), EConnCol, Topo().econn)
        && mprops == old(mprops)
    {
      e := FindEdge(start, end);
      if e != Invalid {
        return;
      }
      ghost var t := Topo();
      // new_edge(): one more row holding every property's default
      var edges := PushBack(eprops);
      e := edges.size - 1;
      var conn := edges.columns[EConnCol].data[e];
      conn := conn.(source := start);
      conn := conn.(target := end);
      edges := SetCell(edges, EConnCol, e, conn);
      var vconn := vprops.columns[VConnCol].data;
      vconn := vconn[start := Links(vconn[start].edges + [e])];
      vconn := vconn[end := Links(vconn[end].edges + [e])];
      ConnectKeepsState(vprops, eprops, mprops, start, end);
      assert edges.columns[EConnCol].data == Connect(t, start, end).econn;
      assert edges == SetArray(PushBack(eprops), EConnCol, Connect(t, start, end).econn);
      vprops := SetArray(vprops, VConnCol, vconn);
      eprops := edges;
    }

    /** Not implemented for graphs: only warns. */
    method DeleteVertex(v: int)
      modifies this
      ensures unchanged(this)
    {
    }

    /** Not implemented for graphs: only warns. */
    method DeleteEdge(e: int)
      modifies this
      ensures unchanged(this)
    {
    }

    /** Not implemented for graphs: only warns. */
    method CollectGarbage()
      modifies this
      ensures unchanged(this)
    {
    }
  }

  /** The containers of a new graph have the standard properties and a well
      linked, empty connectivity. */
  lemma EmptyIsValid()
    ensures GraphState(StandardVertices(), StandardEdges(), Container([], 1), 0, 0, false)
  {
    assert Names(StandardVertices()) == ["v:connectivity", "v:point", "v:deleted"];
  }

  /** Emptying the containers and keeping their standard properties gives the
      containers of a new graph. */
  lemma Cleared(vprops: Container<Value>, eprops: Container<Value>)
    requires HasStandardColumns(vprops, eprops)
    ensures KeepFirst(Resize(vprops, 0), 3) == StandardVertices()
    ensures KeepFirst(Resize(eprops, 0), 2) == StandardEdges()
  {
    assert KeepFirst(Resize(vprops, 0), 3).columns == StandardVertices().columns;
    assert KeepFirst(Resize(eprops, 0), 2).columns == StandardEdges().columns;
  }

  /** The standard vertex arrays of `c`, copied into a container with only the
      standard vertex properties and resized to `c`'s size, give `c` without
      its other property arrays. */
  lemma VerticesCopied(c: Container<Value>, copy: Container<Value>)
    requires HasStandardColumns(c, StandardEdges())
    requires copy == SetArray(SetArray(SetArray(StandardVertices(), VConnCol, c.columns[VConnCol].data),
                                       VPointCol, c.columns[VPointCol].data),
                              VDeletedCol, c.columns[VDeletedCol].data)
    ensures Resize(copy, c.size) == KeepFirst(c, 3)
  {
    var r := Resize(copy, c.size);
    forall k | 0 <= k < 3
      ensures r.columns[k] == c.columns[k]
    {
      assert copy.columns[k].data == c.columns[k].data;
      assert copy.columns[k].data[..c.size] == copy.columns[k].data;
    }
    assert r.columns == c.columns[..3];
  }

  /** The same for the standard edge arrays. */
  lemma EdgesCopied(c: Container<Value>, copy: Container<Value>)
    requires HasStandardColumns(StandardVertices(), c)
    requires copy == SetArray(SetArray(StandardEdges(), EConnCol, c.columns[EConnCol].data),
                              EDeletedCol, c.columns[EDeletedCol].data)
    ensures Resize(copy, c.size) == KeepFirst(c, 2)
  {
    var r := Resize(copy, c.size);
    forall k | 0 <= k < 2
      ensures r.columns[k] == c.columns[k]
    {
      assert copy.columns[k].data == c.columns[k].data;
      assert copy.columns[k].data[..c.size] == copy.columns[k].data;
    }
    assert r.columns == c.columns[..2];
  }
}
