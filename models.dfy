/** The tour data model (internal/models/tour.go, internal/models/node.go): the
    entities, the validity rules their struct tags declare for the validator
    library, node lookup and the default node. */
module Models {
  import opened Wrappers
  import opened Text
  import opened Validators

  /** A time.Time as nanoseconds after Go's zero time (00:00 UTC, 1 January of year
      1), so the zero value that `required` rejects is 0. */
  type Instant = int

  /** A Go slice whose nil-ness matters: `required` rejects a nil slice and accepts
      an empty one made with make or a literal. */
  datatype Slice<T> = Nil | Made(items: seq<T>)
  {
    function Items(): seq<T> {
      if Nil? then [] else items
    }
  }

  datatype Author = Author(name: string, profileLink: string)

  datatype Location = Location(lat: real, lon: real)

  datatype MediaFile = MediaFile(kind: string, uri: string, sendDelay: int, narrative: string)

  /** A *Condition is held as Option<Condition>: None is the nil pointer. */
  datatype Condition = Condition(
    kind: string,
    strict: bool,
    question: string,
    correctAnswer: string,
    hints: seq<string>,
    options: seq<string>,
    mediaLink: string)

  datatype Node = Node(
    id: int,
    location: Location,
    shortDesc: string,
    narrative: string,
    audioNarrative: string,
    mediaFiles: seq<MediaFile>,
    entryCondition: Option<Condition>,
    exitCondition: Option<Condition>)

  datatype Edge = Edge(
    from: int,
    to: int,
    mediaFiles: seq<MediaFile>,
    condition: Option<Condition>,
    instructions: string,
    silent: bool)

  /** The library checks the tags name but whose definitions are not part of this
      model: `url` and the floating-point `latitude`/`longitude` ranges. */
  datatype Checks = Checks(isUrl: string -> bool, isLatitude: real -> bool, isLongitude: real -> bool)

  // ---------------------------------------------------------------------------
  // Tag-level validity
  // ---------------------------------------------------------------------------

  /** `required,url` on a string. */
  predicate RequiredUrl(chk: Checks, s: string) {
    s != "" && chk.isUrl(s)
  }

  /** Author: Name `required`; ProfileLink `required,url`. */
  predicate ValidAuthor(chk: Checks, a: Author) {
    a.name != "" && RequiredUrl(chk, a.profileLink)
  }

  /** Location: Lat `required,latitude`, Lon `required,longitude`; `required`
      rejects 0.0. The `required` on the Location field itself is skipped by the
      library for a non-pointer struct. */
  predicate ValidLocation(chk: Checks, l: Location) {
    l.lat != 0.0 && chk.isLatitude(l.lat) && l.lon != 0.0 && chk.isLongitude(l.lon)
  }

  /** MediaFile: Type `required,oneof=image audio video`; URI `required,url`;
      SendDelay `min=0`; Narrative `omitempty`. */
  predicate ValidMediaFile(chk: Checks, m: MediaFile) {
    m.kind != "" && m.kind in ["image", "audio", "video"] &&
    RequiredUrl(chk, m.uri) &&
    m.sendDelay >= 0
  }

  predicate AllMediaValid(chk: Checks, ms: seq<MediaFile>) {
    forall i :: 0 <= i < |ms| ==> ValidMediaFile(chk, ms[i])
  }

  /** The Condition as the parent struct that `required_if` inspects by field name. */
  function ConditionFields(c: Condition): (fields: map<string, FieldValue>)
    ensures fields.Keys == {"Type", "Strict", "Question", "CorrectAnswer", "Hints", "Options", "MediaLink"}
  {
    map["Type" := Text(c.kind), "Strict" := OtherKind, "Question" := Text(c.question),
        "CorrectAnswer" := Text(c.correctAnswer), "Hints" := Strings(c.hints),
        "Options" := Strings(c.options), "MediaLink" := Text(c.mediaLink)]
  }

  /** Condition: Type `required,oneof=quiz q&a puzzle`; Question and CorrectAnswer
      `required`; Hints `omitempty`; Options `required_if=Type quiz,min=2`;
      MediaLink `omitempty,required_if=Type puzzle,url`. `required_if` is the
      project's own rule. */
  predicate ValidCondition(chk: Checks, c: Condition) {
    c.kind != "" && c.kind in ["quiz", "q&a", "puzzle"] &&
    c.question != "" &&
    c.correctAnswer != "" &&
    RequiredIf("Type quiz", ConditionFields(c), Strings(c.options)) == Pass && |c.options| >= 2 &&
    (c.mediaLink == "" ||
      (RequiredIf("Type puzzle", ConditionFields(c), Text(c.mediaLink)) == Pass && chk.isUrl(c.mediaLink)))
  }

  /** A *Condition tagged `omitempty`: nil passes, otherwise the struct is checked. */
  predicate OptionalConditionValid(chk: Checks, c: Option<Condition>) {
    c.None? || ValidCondition(chk, c.value)
  }

  /** Node: ID `required` (non-zero); Location checked field by field; ShortDesc and
      Narrative `required`; AudioNarrative `omitempty,url`; MediaFiles `dive`; both
      conditions `omitempty`. */
  predicate ValidNode(chk: Checks, n: Node) {
    n.id != 0 &&
    ValidLocation(chk, n.location) &&
    n.shortDesc != "" &&
    n.narrative != "" &&
    (n.audioNarrative == "" || chk.isUrl(n.audioNarrative)) &&
    AllMediaValid(chk, n.mediaFiles) &&
    OptionalConditionValid(chk, n.entryCondition) &&
    OptionalConditionValid(chk, n.exitCondition)
  }

  /** Edge: From `required`; To `required,nefield=From`; MediaFiles `dive`;
      Condition and Instructions `omitempty`. */
  predicate ValidEdge(chk: Checks, e: Edge) {
    e.from != 0 &&
    e.to != 0 && e.to != e.from &&
    AllMediaValid(chk, e.mediaFiles) &&
    OptionalConditionValid(chk, e.condition)
  }

  /** Nodes `required,dive`: a non-nil slice whose every node is valid. */
  predicate ValidNodes(chk: Checks, nodes: Slice<Node>) {
    nodes.Made? && forall i :: 0 <= i < |nodes.items| ==> ValidNode(chk, nodes.items[i])
  }

  /** Edges `required,dive`. */
  predicate ValidEdges(chk: Checks, edges: Slice<Edge>) {
    edges.Made? && forall i :: 0 <= i < |edges.items| ==> ValidEdge(chk, edges.items[i])
  }

  /** What the custom `required_if` amounts to on a Condition: its params name no
      field ("Type quiz" is not a field name), so only `min=2` constrains Options
      and only `url` constrains a non-empty MediaLink. */
  lemma ConditionRules(chk: Checks, c: Condition)
    ensures ValidCondition(chk, c) <==>
      c.kind in ["quiz", "q&a", "puzzle"] &&
      c.question != "" && c.correctAnswer != "" &&
      |c.options| >= 2 &&
      (c.mediaLink == "" || chk.isUrl(c.mediaLink))
  {
    var fields := ConditionFields(c);
    assert "Type quiz" !in fields;
    assert "Type puzzle" !in fields;
  }

  // ---------------------------------------------------------------------------
  // The tour
  // ---------------------------------------------------------------------------

  /** A tour. Services and handlers share it by pointer and edit it in place. */
  class Tour {
    var id: string
    var name: string
    var description: string
    var startDate: Instant
    var endDate: Instant
    var version: string
    var heroImage: string
    var author: Author
    var price: int
    var nodes: Slice<Node>
    var edges: Slice<Edge>

    constructor (id: string, name: string, description: string, startDate: Instant, endDate: Instant,
                 version: string, heroImage: string, author: Author, price: int,
                 nodes: Slice<Node>, edges: Slice<Edge>)
      ensures this.id == id && this.name == name && this.description == description
      ensures this.startDate == startDate && this.endDate == endDate
      ensures this.version == version && this.heroImage == heroImage && this.author == author
      ensures this.price == price && this.nodes == nodes && this.edges == edges
    {
      this.id := id;
      this.name := name;
      this.description := description;
      this.startDate := startDate;
      this.endDate := endDate;
      this.version := version;
      this.heroImage := heroImage;
      this.author := author;
      this.price := price;
      this.nodes := nodes;
      this.edges := edges;
    }

    /** The scalar tags of Tour: ID, Name, Description, Version `required`; both
        dates `required` (not the zero time) with EndDate `gtfield=StartDate`;
        HeroImage `required,url`; Price `required,min=0`, so 0 and negatives fail. */
    predicate HeaderValid(chk: Checks)
      reads this
    {
      id != "" && name != "" && description != "" &&
      startDate != 0 && endDate != 0 && endDate > startDate &&
      version != "" &&
      RequiredUrl(chk, heroImage) &&
      ValidAuthor(chk, author) &&
      price != 0 && price >= 0
    }

    /** validator.Struct(tour): the header, then Nodes and Edges `required,dive`. */
    predicate Valid(chk: Checks)
      reads this
    {
      HeaderValid(chk) && ValidNodes(chk, nodes) && ValidEdges(chk, edges)
    }

    /** GetNode: the index of the first node with this ID, or None. The Go method
        returns &t.Nodes[i], a pointer into the slice; the index is that reference. */
    method GetNode(id: int) returns (r: Option<nat>)
      ensures r.Some? ==> r.value < |nodes.Items()| && nodes.Items()[r.value].id == id
      ensures r.Some? ==> forall j :: 0 <= j < r.value ==> nodes.Items()[j].id != id
      ensures r.None? <==> forall j :: 0 <= j < |nodes.Items()| ==> nodes.Items()[j].id != id
      ensures r == FindNode(nodes.Items(), id)
    {
      var items := nodes.Items();
      var i := 0;
      while i < |items|
        invariant 0 <= i <= |items|
        invariant forall j :: 0 <= j < i ==> items[j].id != id
        invariant FindNode(items, id) == FindFrom(items, id, i)
      {
        if items[i].id == id {
          return Some(i);
        }
        i := i + 1;
      }
      return None;
    }
  }

  /** The tour's scalar and nested validity rules, one by one. */
  lemma TourRules(chk: Checks, t: Tour)
    requires t.Valid(chk)
    ensures t.endDate > t.startDate
    ensures t.price > 0
    ensures forall i :: 0 <= i < |t.nodes.Items()| ==>
      t.nodes.Items()[i].id != 0 && AllMediaValid(chk, t.nodes.Items()[i].mediaFiles)
    ensures forall i :: 0 <= i < |t.edges.Items()| ==> t.edges.Items()[i].to != t.edges.Items()[i].from
  {
  }

  // ---------------------------------------------------------------------------
  // Node lookup
  // ---------------------------------------------------------------------------

  /** The first index at or after `from` holding a node with this ID. */
  function FindFrom(nodes: seq<Node>, id: int, from: nat): (r: Option<nat>)
    requires from <= |nodes|
    ensures r.Some? ==> from <= r.value < |nodes| && nodes[r.value].id == id
    ensures r.Some? ==> forall j :: from <= j < r.value ==> nodes[j].id != id
    ensures r.None? <==> forall j :: from <= j < |nodes| ==> nodes[j].id != id
    decreases |nodes| - from
  {
    if from == |nodes| then None
    else if nodes[from].id == id then Some(from)
    else FindFrom(nodes, id, from + 1)
  }

  /** The index of the first node with this ID. */
  function FindNode(nodes: seq<Node>, id: int): (r: Option<nat>)
    ensures r.Some? ==> r.value < |nodes| && nodes[r.value].id == id
    ensures r.Some? ==> forall j :: 0 <= j < r.value ==> nodes[j].id != id
    ensures r.None? <==> forall j :: 0 <= j < |nodes| ==> nodes[j].id != id
  {
    FindFrom(nodes, id, 0)
  }

  // ---------------------------------------------------------------------------
  // The default node
  // ---------------------------------------------------------------------------

  /** The condition NewNode attaches on entry and on exit. */
  function DefaultCondition(): Condition {
    Condition("q&a", false, "", "", [], [], "")
  }

  /** NewNode, given the clock reading time.Now().UnixNano() (an int64): the ID is
      that reading modulo 10000 with Go's truncating `%`, the location is (0, 0),
      there are no media files, and both conditions are "q&a" with nothing filled
      in. */
  function NewNode(nowUnixNano: int): (n: Node)
    requires MinInt64 <= nowUnixNano <= MaxInt64
    ensures nowUnixNano >= 0 ==> 0 <= n.id <= 9999
    ensures -9999 <= n.id <= 9999
    ensures n.id == TruncRem(nowUnixNano, 10000)
    ensures n.location == Location(0.0, 0.0) && n.mediaFiles == []
    ensures n.shortDesc == "" && n.narrative == "" && n.audioNarrative == ""
    ensures n.entryCondition == Some(DefaultCondition()) && n.exitCondition == Some(DefaultCondition())
    ensures DefaultCondition().kind == "q&a" && !DefaultCondition().strict
    ensures DefaultCondition().options == [] && DefaultCondition().hints == []
  {
    Node(TruncRem(nowUnixNano, 10000), Location(0.0, 0.0), "", "", "", [],
         Some(DefaultCondition()), Some(DefaultCondition()))
  }

  /** A fresh node never passes validation as it stands: its descriptions are empty
      and its default conditions have neither a question nor two options. */
  lemma NewNodeIsIncomplete(chk: Checks, nowUnixNano: int)
    requires MinInt64 <= nowUnixNano <= MaxInt64
    ensures !ValidNode(chk, NewNode(nowUnixNano))
    ensures !ValidCondition(chk, DefaultCondition())
  {
  }
}
