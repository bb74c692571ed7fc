/** The tour service (internal/services/services.go): the per-session and per-ID
    tour stores, and the node edits that change a tour in place and then save it. */
module TourServices {
  import opened Wrappers
  import opened Models

  /** Why a save did not happen; the validator's field errors are not modelled. */
  datatype ServiceError = InvalidNode | InvalidTour

  // ---------------------------------------------------------------------------
  // What the edits do to the node and edge lists
  // ---------------------------------------------------------------------------

  /** SaveNode's edit: the first node with the same ID is overwritten at its index;
      without one the node is appended (append turns a nil slice into a made one). */
  function Upsert(nodes: Slice<Node>, n: Node): Slice<Node> {
    match FindNode(nodes.Items(), n.id)
    case Some(i) => Made(nodes.Items()[i := n])
    case None => Made(nodes.Items() + [n])
  }

  /** DeleteNode's first edit: the first node with this ID is spliced out; without
      one the slice is left as it was. */
  function RemoveFirst(nodes: Slice<Node>, id: int): Slice<Node> {
    match FindNode(nodes.Items(), id)
    case Some(i) => Made(nodes.Items()[..i] + nodes.Items()[i + 1..])
    case None => nodes
  }

  /** The edges touching neither end at `id`, in their original order. */
  function KeepEdges(edges: seq<Edge>, id: int): (kept: seq<Edge>)
    ensures |kept| <= |edges|
  {
    if edges == [] then []
    else
      var rest := KeepEdges(edges[1..], id);
      if edges[0].from != id && edges[0].to != id then [edges[0]] + rest else rest
  }

  /** The edge list DeleteNode stores, as written: it starts from a nil slice and
      appends, so it stays nil when no edge survives. */
  function EdgesAfterDelete(edges: Slice<Edge>, id: int): Slice<Edge> {
    var kept := KeepEdges(edges.Items(), id);
    if kept == [] then Nil else Made(kept)
  }

  /** The edge list evidently intended: the surviving edges, as a made slice even
      when there are none. */
  function EdgesAfterDeleteIntended(edges: Slice<Edge>, id: int): Slice<Edge> {
    Made(KeepEdges(edges.Items(), id))
  }

  // ---------------------------------------------------------------------------
  // Properties of the edits
  // ---------------------------------------------------------------------------

  /** Upsert overwrites the first node with the ID in place, keeping the length and
      every other position; without such a node it appends at the end. */
  lemma UpsertShape(nodes: Slice<Node>, n: Node)
    ensures var r := Upsert(nodes, n).Items();
      match FindNode(nodes.Items(), n.id)
      case Some(i) =>
        |r| == |nodes.Items()| && r[i] == n &&
        forall j :: 0 <= j < |r| && j != i ==> r[j] == nodes.Items()[j]
      case None => r == nodes.Items() + [n]
  {
  }

  /** After an upsert, looking the ID up finds the saved node. */
  lemma UpsertThenFind(nodes: Slice<Node>, n: Node)
    ensures var r := Upsert(nodes, n).Items();
      FindNode(r, n.id).Some? && r[FindNode(r, n.id).value] == n
  {
    var items := nodes.Items();
    var r := Upsert(nodes, n).Items();
    match FindNode(items, n.id)
    case Some(i) =>
      assert forall j :: 0 <= j < i ==> r[j].id != n.id;
      assert FindNode(r, n.id) == Some(i) by {
        FindFirstAt(r, n.id, i);
      }
    case None =>
      assert forall j :: 0 <= j < |items| ==> r[j].id != n.id;
      FindFirstAt(r, n.id, |items|);
  }

  /** FindNode answers `i` when `i` holds the ID and nothing before it does. */
  lemma FindFirstAt(nodes: seq<Node>, id: int, i: nat)
    requires i < |nodes| && nodes[i].id == id
    requires forall j :: 0 <= j < i ==> nodes[j].id != id
    ensures FindNode(nodes, id) == Some(i)
  {
  }

  /** Saving a node twice in a row is the same as saving it once. */
  lemma UpsertIdempotent(nodes: Slice<Node>, n: Node)
    ensures Upsert(Upsert(nodes, n), n) == Upsert(nodes, n)
  {
    UpsertThenFind(nodes, n);
    var r := Upsert(nodes, n).Items();
    assert r[FindNode(r, n.id).value := n] == r;
  }

  /** Upserting a valid node into valid nodes keeps the `required,dive` rule. */
  lemma UpsertKeepsNodesValid(chk: Checks, nodes: Slice<Node>, n: Node)
    requires ValidNodes(chk, nodes) && ValidNode(chk, n)
    ensures ValidNodes(chk, Upsert(nodes, n))
  {
  }

  /** RemoveFirst drops exactly the first node with the ID and keeps the others in
      order; without such a node nothing changes. */
  lemma RemoveFirstShape(nodes: Slice<Node>, id: int)
    ensures match FindNode(nodes.Items(), id)
      case Some(i) =>
        var r := RemoveFirst(nodes, id).Items();
        |r| == |nodes.Items()| - 1 &&
        (forall j :: 0 <= j < i ==> r[j] == nodes.Items()[j]) &&
        (forall j :: i <= j < |r| ==> r[j] == nodes.Items()[j + 1])
      case None => RemoveFirst(nodes, id) == nodes
  {
  }

  /** With unique IDs, the deleted ID is gone afterwards. */
  lemma RemoveFirstRemovesUniqueId(nodes: Slice<Node>, id: int)
    requires forall a, b :: 0 <= a < b < |nodes.Items()| ==> nodes.Items()[a].id != nodes.Items()[b].id
    ensures FindNode(RemoveFirst(nodes, id).Items(), id).None?
  {
    var items := nodes.Items();
    match FindNode(items, id)
    case Some(i) =>
      var r := RemoveFirst(nodes, id).Items();
      forall j | 0 <= j < |r|
        ensures r[j].id != id
      {
        if j < i {
          assert r[j] == items[j];
        } else {
          assert r[j] == items[j + 1];
        }
      }
    case None =>
  }

  /** Removing nodes keeps the `required,dive` rule on the node list. */
  lemma RemoveFirstKeepsNodesValid(chk: Checks, nodes: Slice<Node>, id: int)
    requires ValidNodes(chk, nodes)
    ensures ValidNodes(chk, RemoveFirst(nodes, id))
  {
    RemoveFirstShape(nodes, id);
  }

  /** Filtering distributes over concatenation; the appending loop relies on it. */
  lemma {:induction false} KeepEdgesAppend(a: seq<Edge>, b: seq<Edge>, id: int)
    ensures KeepEdges(a + b, id) == KeepEdges(a, id) + KeepEdges(b, id)
  {
    if a == [] {
      assert a + b == b;
    } else {
      assert (a + b)[0] == a[0];
      assert (a + b)[1..] == a[1..] + b;
      KeepEdgesAppend(a[1..], b, id);
      var head := if a[0].from != id && a[0].to != id then [a[0]] else [];
      calc {
        KeepEdges(a + b, id);
        head + KeepEdges(a[1..] + b, id);
        head + (KeepEdges(a[1..], id) + KeepEdges(b, id));
        (head + KeepEdges(a[1..], id)) + KeepEdges(b, id);
        KeepEdges(a, id) + KeepEdges(b, id);
      }
    }
  }

  /** An edge survives exactly when it was there and touches neither end at `id`. */
  lemma {:induction false} KeepEdgesMembership(edges: seq<Edge>, id: int, e: Edge)
    ensures e in KeepEdges(edges, id) <==> e in edges && e.from != id && e.to != id
  {
    if edges != [] {
      KeepEdgesMembership(edges[1..], id, e);
      assert edges == [edges[0]] + edges[1..];
    }
  }

  /** Deleting the same ID's edges again removes nothing more. */
  lemma {:induction false} KeepEdgesIdempotent(edges: seq<Edge>, id: int)
    ensures KeepEdges(KeepEdges(edges, id), id) == KeepEdges(edges, id)
  {
    if edges != [] {
      KeepEdgesIdempotent(edges[1..], id);
      var rest := KeepEdges(edges[1..], id);
      if edges[0].from != id && edges[0].to != id {
        assert ([edges[0]] + rest)[1..] == rest;
      }
    }
  }

  /** Surviving edges stay valid. */
  lemma KeepEdgesKeepsValidity(chk: Checks, edges: seq<Edge>, id: int)
    requires forall i :: 0 <= i < |edges| ==> ValidEdge(chk, edges[i])
    ensures forall i :: 0 <= i < |KeepEdges(edges, id)| ==> ValidEdge(chk, KeepEdges(edges, id)[i])
  {
    var kept := KeepEdges(edges, id);
    forall i | 0 <= i < |kept|
      ensures ValidEdge(chk, kept[i])
    {
      KeepEdgesMembership(edges, id, kept[i]);
    }
  }

  /** As written, DeleteNode leaves Edges nil whenever no edge survives, among
      others on every tour without edges, and `required` then rejects the tour. */
  lemma DeleteNodeNilsEdges(chk: Checks, edges: Slice<Edge>, id: int)
    requires forall i :: 0 <= i < |edges.Items()| ==> edges.Items()[i].from == id || edges.Items()[i].to == id
    ensures EdgesAfterDelete(edges, id) == Nil
    ensures !ValidEdges(chk, EdgesAfterDelete(edges, id))
  {
    var kept := KeepEdges(edges.Items(), id);
    if kept != [] {
      KeepEdgesMembership(edges.Items(), id, kept[0]);
    }
  }

  /** The same input made concrete: a valid edge-free tour loses its edge list. */
  lemma DeleteNodeOnEdgeFreeTour(chk: Checks, id: int)
    ensures ValidEdges(chk, Made([]))
    ensures EdgesAfterDelete(Made([]), id) == Nil
  {
  }

  /** With the intended edit, deleting a node keeps a valid node and edge list valid. */
  lemma DeleteNodeIntendedKeepsValidity(chk: Checks, nodes: Slice<Node>, edges: Slice<Edge>, id: int)
    requires ValidNodes(chk, nodes) && ValidEdges(chk, edges)
    ensures ValidNodes(chk, RemoveFirst(nodes, id))
    ensures ValidEdges(chk, EdgesAfterDeleteIntended(edges, id))
  {
    RemoveFirstKeepsNodesValid(chk, nodes, id);
    KeepEdgesKeepsValidity(chk, edges.Items(), id);
  }

  // ---------------------------------------------------------------------------
  // The service
  // ---------------------------------------------------------------------------

  /** TourService. The two sync.Maps are plain maps of shared tour pointers; the
      configured validator is the checks it validates with. */
  class TourService {
    const checks: Checks
    var tourStore: map<string, Tour>
    var activeTour: map<string, Tour>

    constructor (checks: Checks)
      ensures this.checks == checks
      ensures tourStore == map[] && activeTour == map[]
    {
      this.checks := checks;
      tourStore := map[];
      activeTour := map[];
    }

    /** GetCurrentTour: the tour last saved for the session, or nil. */
    method GetCurrentTour(sessionID: string) returns (t: Tour?)
      ensures sessionID in activeTour ==> t == activeTour[sessionID]
      ensures sessionID !in activeTour ==> t == null
    {
      if sessionID in activeTour {
        t := activeTour[sessionID];
      } else {
        t := null;
      }
    }

    /** SaveTour: a valid tour becomes the session's active tour and is stored under
        its ID; an invalid one is reported and neither map changes. */
    method SaveTour(sessionID: string, tour: Tour) returns (err: Option<ServiceError>)
      modifies this
      ensures tour.Valid(checks) ==> (err == None &&
        activeTour == old(activeTour)[sessionID := tour] &&
        tourStore == old(tourStore)[tour.id := tour])
      ensures !tour.Valid(checks) ==> (err == Some(InvalidTour) &&
        activeTour == old(activeTour) && tourStore == old(tourStore))
    {
      if !tour.Valid(checks) {
        return Some(InvalidTour);
      }
      activeTour := activeTour[sessionID := tour];
      tourStore := tourStore[tour.id := tour];
      return None;
    }

    /** SaveNode: an invalid node is reported and nothing changes. Otherwise the
        node list is edited in place (the first node with the ID is overwritten,
        or the node is appended) and the tour is then saved, so a tour that fails
        validation keeps the edit while the stores do not record it. */
    method SaveNode(sessionID: string, tour: Tour, node: Node) returns (err: Option<ServiceError>)
      modifies this, tour
      ensures !ValidNode(checks, node) ==> (err == Some(InvalidNode) &&
        tour.nodes == old(tour.nodes) &&
        activeTour == old(activeTour) && tourStore == old(tourStore))
      ensures ValidNode(checks, node) ==> tour.nodes == Upsert(old(tour.nodes), node)
      ensures ValidNode(checks, node) && tour.Valid(checks) ==> (err == None &&
        activeTour == old(activeTour)[sessionID := tour] &&
        tourStore == old(tourStore)[tour.id := tour])
      ensures ValidNode(checks, node) && !tour.Valid(checks) ==> (err == Some(InvalidTour) &&
        activeTour == old(activeTour) && tourStore == old(tourStore))
      ensures tour.id == old(tour.id) && tour.edges == old(tour.edges)
      ensures tour.name == old(tour.name) && tour.description == old(tour.description)
      ensures tour.startDate == old(tour.startDate) && tour.endDate == old(tour.endDate)
      ensures tour.version == old(tour.version) && tour.heroImage == old(tour.heroImage)
      ensures tour.author == old(tour.author) && tour.price == old(tour.price)
      ensures tour.HeaderValid(checks) == old(tour.HeaderValid(checks))
    {
      if !ValidNode(checks, node) {
        return Some(InvalidNode);
      }
      var items := tour.nodes.Items();
      var i := 0;
      while i < |items|
        invariant 0 <= i <= |items|
        invariant forall j :: 0 <= j < i ==> items[j].id != node.id
      {
        if items[i].id == node.id {
          break;
        }
        i := i + 1;
      }
      if i < |items| {
        FindFirstAt(items, node.id, i);
        tour.nodes := Made(items[i := node]);
      } else {
        tour.nodes := Made(items + [node]);
      }
      err := SaveTour(sessionID, tour);
    }

    /** DeleteNode: the first node with the ID is spliced out, the edge list is
        rebuilt with the edges not touching the node, and the tour is then saved.
        The rebuilt list is a made slice even when it is empty (the Go code leaves
        it nil then; see EdgesAfterDelete), so deleting a node keeps a valid tour
        valid and the save succeeds. */
    method DeleteNode(sessionID: string, tour: Tour, nodeID: int) returns (err: Option<ServiceError>)
      modifies this, tour
      ensures tour.nodes == RemoveFirst(old(tour.nodes), nodeID)
      ensures tour.edges == EdgesAfterDeleteIntended(old(tour.edges), nodeID)
      ensures tour.id == old(tour.id)
      ensures tour.name == old(tour.name) && tour.description == old(tour.description)
      ensures tour.startDate == old(tour.startDate) && tour.endDate == old(tour.endDate)
      ensures tour.version == old(tour.version) && tour.heroImage == old(tour.heroImage)
      ensures tour.author == old(tour.author) && tour.price == old(tour.price)
      ensures tour.HeaderValid(checks) == old(tour.HeaderValid(checks))
      ensures old(tour.Valid(checks)) ==> tour.Valid(checks)
      ensures tour.Valid(checks) ==> (err == None &&
        activeTour == old(activeTour)[sessionID := tour] &&
        tourStore == old(tourStore)[tour.id := tour])
      ensures !tour.Valid(checks) ==> (err == Some(InvalidTour) &&
        activeTour == old(activeTour) && tourStore == old(tourStore))
    {
      ghost var wasValid := tour.Valid(checks);
      ghost var oldNodes, oldEdges := tour.nodes, tour.edges;
      var items := tour.nodes.Items();
      var i := 0;
      while i < |items|
        invariant 0 <= i <= |items|
        invariant forall j :: 0 <= j < i ==> items[j].id != nodeID
      {
        if items[i].id == nodeID {
          break;
        }
        i := i + 1;
      }
      if i < |items| {
        FindFirstAt(items, nodeID, i);
        tour.nodes := Made(items[..i] + items[i + 1..]);
      }

      var edges := tour.edges.Items();
      var newEdges: seq<Edge> := [];
      var k := 0;
      label Filtering:
      while k < |edges|
        invariant 0 <= k <= |edges|
        invariant unchanged@Filtering(this, tour)
        invariant newEdges == KeepEdges(edges[..k], nodeID)
      {
        KeepEdgesAppend(edges[..k], [edges[k]], nodeID);
        assert edges[..k + 1] == edges[..k] + [edges[k]];
        if edges[k].from != nodeID && edges[k].to != nodeID {
          newEdges := newEdges + [edges[k]];
        }
        k := k + 1;
      }
      assert edges[..k] == edges;
      tour.edges := Made(newEdges);
      if wasValid {
        DeleteNodeIntendedKeepsValidity(checks, oldNodes, oldEdges, nodeID);
      }
      err := SaveTour(sessionID, tour);
    }
  }
}
