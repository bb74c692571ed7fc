/** The editor's form-to-node mapping (internal/handlers/editor_handler.go). The
    submitted form is a map from field name to its first value; an absent field
    reads as "". Indexed fields such as `media_files[3].uri` are collected from
    index 0 up to the first index whose value is empty. */
module EditorForms {
  import opened Wrappers
  import opened Text
  import opened Models

  type Form = map<string, string>

  /** r.FormValue(key): the submitted value, or "" when the field is absent. */
  function FormValue(form: Form, key: string): (v: string)
    ensures key in form ==> v == form[key]
    ensures key !in form ==> v == ""
  {
    if key in form then form[key] else ""
  }

  /** fmt.Sprintf("<field>[%d]<member>", i) */
  function IndexedKey(field: string, i: nat, member: string): string {
    field + "[" + NatToString(i) + "]" + member
  }

  /** In `digits + "]" + rest` the first ']' stands right after the digits. */
  lemma FirstBracket(digits: string, rest: string)
    requires AllDigits(digits)
    ensures (digits + "]" + rest)[|digits|] == ']'
    ensures forall k :: 0 <= k < |digits| ==> (digits + "]" + rest)[k] != ']'
    ensures (digits + "]" + rest)[..|digits|] == digits
  {
    var s := digits + "]" + rest;
    forall k | 0 <= k < |digits|
      ensures s[k] != ']'
    {
      assert s[k] == digits[k];
    }
  }

  /** A digit string is recovered from what follows it up to the first ']'. */
  lemma DigitsBeforeBracket(a: string, b: string, x: string, y: string)
    requires AllDigits(a) && AllDigits(b)
    requires a + "]" + x == b + "]" + y
    ensures a == b
  {
    FirstBracket(a, x);
    FirstBracket(b, y);
  }

  /** Distinct indices give distinct keys. */
  lemma IndexedKeyInjective(field: string, i: nat, j: nat, member: string)
    requires IndexedKey(field, i, member) == IndexedKey(field, j, member)
    ensures i == j
  {
    var p := field + "[";
    var a, b := NatToString(i), NatToString(j);
    var ki, kj := IndexedKey(field, i, member), IndexedKey(field, j, member);
    assert ki == p + (a + "]" + member);
    assert kj == p + (b + "]" + member);
    assert ki[|p|..] == a + "]" + member;
    assert kj[|p|..] == b + "]" + member;
    DigitsBeforeBracket(a, b, member, member);
    NatToStringInjective(i, j);
  }

  /** `vals` is what the loop over `<field>[i]<member>` collects: the values at
      indices 0, 1, ... before the first index whose value is empty. */
  predicate IndexedRun(form: Form, field: string, member: string, vals: seq<string>) {
    (forall k :: 0 <= k < |vals| ==> vals[k] == FormValue(form, IndexedKey(field, k, member)) && vals[k] != "") &&
    FormValue(form, IndexedKey(field, |vals|, member)) == ""
  }

  /** The collected run is determined by the form: later indices past the gap are
      never looked at. */
  lemma IndexedRunUnique(form: Form, field: string, member: string, a: seq<string>, b: seq<string>)
    requires IndexedRun(form, field, member, a) && IndexedRun(form, field, member, b)
    ensures a == b
  {
  }

  /** The media file entry for index `k`: uri, send_delay (Atoi's value, which is 0
      or a clamped bound when it does not parse) and type; no narrative. */
  function MediaEntry(form: Form, k: nat): MediaFile {
    MediaFile(
      FormValue(form, IndexedKey("media_files", k, ".type")),
      FormValue(form, IndexedKey("media_files", k, ".uri")),
      Atoi(FormValue(form, IndexedKey("media_files", k, ".send_delay"))).value,
      "")
  }

  /** `files` is what the media loop collects: one entry per index before the first
      index whose uri is empty. */
  predicate MediaRun(form: Form, files: seq<MediaFile>) {
    (forall k :: 0 <= k < |files| ==> files[k] == MediaEntry(form, k) && files[k].uri != "") &&
    FormValue(form, IndexedKey("media_files", |files|, ".uri")) == ""
  }

  /** The result of updateConditionFromForm on `cond`: nothing changes when
      `<prefix>.type` is empty or the pointer is nil (the fresh Condition then only
      lives in a local variable); otherwise every field is replaced from the form. */
  predicate ConditionUpdated(cond: Option<Condition>, prefix: string, form: Form, updated: Option<Condition>) {
    var kind := FormValue(form, prefix + ".type");
    if kind == "" || cond.None? then updated == cond
    else
      updated.Some? &&
      var c := updated.value;
      c.kind == kind &&
      c.question == FormValue(form, prefix + ".question") &&
      c.correctAnswer == FormValue(form, prefix + ".correct_answer") &&
      (c.strict <==> FormValue(form, prefix + ".strict") == "on") &&
      c.mediaLink == FormValue(form, prefix + ".media_link") &&
      IndexedRun(form, prefix + ".options", "", c.options) &&
      IndexedRun(form, prefix + ".hints", "", c.hints)
  }

  /** The loop `for i := 0; ; i++` over `<field>[i]<member>`, stopping at the first
      empty value. It ends because the form has finitely many keys and each index
      reads a different key. */
  method ReadIndexed(form: Form, field: string, member: string) returns (vals: seq<string>)
    ensures IndexedRun(form, field, member, vals)
  {
    vals := [];
    var i := 0;
    ghost var unseen := form.Keys;
    while true
      invariant |vals| == i
      invariant forall k :: 0 <= k < i ==> vals[k] == FormValue(form, IndexedKey(field, k, member)) && vals[k] != ""
      invariant forall j: nat :: j >= i && IndexedKey(field, j, member) in form ==> IndexedKey(field, j, member) in unseen
      decreases unseen
    {
      var v := FormValue(form, IndexedKey(field, i, member));
      if v == "" {
        break;
      }
      forall j: nat | j > i
        ensures IndexedKey(field, j, member) != IndexedKey(field, i, member)
      {
        if IndexedKey(field, j, member) == IndexedKey(field, i, member) {
          IndexedKeyInjective(field, i, j, member);
        }
      }
      unseen := unseen - {IndexedKey(field, i, member)};
      vals := vals + [v];
      i := i + 1;
    }
  }

  /** The media-file loop of updateNodeFromForm. */
  method ReadMediaFiles(form: Form) returns (files: seq<MediaFile>)
    ensures MediaRun(form, files)
  {
    files := [];
    var i := 0;
    ghost var unseen := form.Keys;
    while true
      invariant |files| == i
      invariant forall k :: 0 <= k < i ==> files[k] == MediaEntry(form, k) && files[k].uri != ""
      invariant forall j: nat :: j >= i && IndexedKey("media_files", j, ".uri") in form ==>
        IndexedKey("media_files", j, ".uri") in unseen
      decreases unseen
    {
      var uri := FormValue(form, IndexedKey("media_files", i, ".uri"));
      if uri == "" {
        break;
      }
      var delay := Atoi(FormValue(form, IndexedKey("media_files", i, ".send_delay"))).value;
      var mediaType := FormValue(form, IndexedKey("media_files", i, ".type"));
      forall j: nat | j > i
        ensures IndexedKey("media_files", j, ".uri") != IndexedKey("media_files", i, ".uri")
      {
        if IndexedKey("media_files", j, ".uri") == IndexedKey("media_files", i, ".uri") {
          IndexedKeyInjective("media_files", i, j, ".uri");
        }
      }
      unseen := unseen - {IndexedKey("media_files", i, ".uri")};
      files := files + [MediaFile(mediaType, uri, delay, "")];
      i := i + 1;
    }
  }

  /** updateConditionFromForm. The Go function assigns through the pointer it is
      given; here the pointed-to value comes in and the value the pointer then
      refers to comes out. It never reports an error. */
  method UpdateConditionFromForm(cond: Option<Condition>, prefix: string, form: Form)
    returns (updated: Option<Condition>, err: Option<string>)
    ensures ConditionUpdated(cond, prefix, form, updated)
    ensures err == None
  {
    var kind := FormValue(form, prefix + ".type");
    if kind == "" {
      return cond, None;
    }
    var c := if cond.Some? then cond.value else Condition("", false, "", "", [], [], "");
    var options := ReadIndexed(form, prefix + ".options", "");
    var hints := ReadIndexed(form, prefix + ".hints", "");
    c := c.(
      kind := kind,
      question := FormValue(form, prefix + ".question"),
      correctAnswer := FormValue(form, prefix + ".correct_answer"),
      strict := FormValue(form, prefix + ".strict") == "on",
      mediaLink := FormValue(form, prefix + ".media_link"),
      options := options,
      hints := hints);
    // A nil pointer was only replaced in the local variable: the caller's stays nil.
    updated := if cond.Some? then Some(c) else None;
    err := None;
  }

  /** The *models.Node the editor hands to updateNodeFromForm: a heap cell holding
      a node, edited field by field. */
  class NodeCell {
    var node: Node

    constructor (node: Node)
      ensures this.node == node
    {
      this.node := node;
    }
  }

  /** updateNodeFromForm, with strconv.ParseFloat as a parameter. The ID changes
      only when `id` parses; the descriptions are always replaced; a coordinate
      changes only when it parses; the media files are rebuilt from the form; both
      conditions are updated; the audio narrative is kept; no error is ever
      reported. */
  method UpdateNodeFromForm(target: NodeCell, form: Form, parseFloat: string -> Option<real>)
    returns (err: Option<string>)
    modifies target
    ensures var id := Atoi(FormValue(form, "id"));
      target.node.id == (if id.ok then id.value else old(target.node.id))
    ensures target.node.shortDesc == FormValue(form, "short_description")
    ensures target.node.narrative == FormValue(form, "narrative")
    ensures var lat := parseFloat(FormValue(form, "location.lat"));
      target.node.location.lat == (if lat.Some? then lat.value else old(target.node.location.lat))
    ensures var lon := parseFloat(FormValue(form, "location.lon"));
      target.node.location.lon == (if lon.Some? then lon.value else old(target.node.location.lon))
    ensures target.node.audioNarrative == old(target.node.audioNarrative)
    ensures MediaRun(form, target.node.mediaFiles)
    ensures ConditionUpdated(old(target.node.entryCondition), "entry_condition", form, target.node.entryCondition)
    ensures ConditionUpdated(old(target.node.exitCondition), "exit_condition", form, target.node.exitCondition)
    ensures err == None
  {
    var id := Atoi(FormValue(form, "id"));
    if id.ok {
      target.node := target.node.(id := id.value);
    }
    target.node := target.node.(shortDesc := FormValue(form, "short_description"));
    target.node := target.node.(narrative := FormValue(form, "narrative"));

    var lat := parseFloat(FormValue(form, "location.lat"));
    if lat.Some? {
      target.node := target.node.(location := target.node.location.(lat := lat.value));
    }
    var lon := parseFloat(FormValue(form, "location.lon"));
    if lon.Some? {
      target.node := target.node.(location := target.node.location.(lon := lon.value));
    }

    var files := ReadMediaFiles(form);
    target.node := target.node.(mediaFiles := files);

    var entry, entryErr := UpdateConditionFromForm(target.node.entryCondition, "entry_condition", form);
    target.node := target.node.(entryCondition := entry);
    if entryErr.Some? {
      return entryErr;
    }
    var exit, exitErr := UpdateConditionFromForm(target.node.exitCondition, "exit_condition", form);
    target.node := target.node.(exitCondition := exit);
    if exitErr.Some? {
      return exitErr;
    }
    err := None;
  }

  /** The parse error of send_delay is dropped: a delay that does not parse reads
      as 0, or as the nearest int64 bound when it is a number out of range. */
  lemma UnparsableDelayIsZero(form: Form, k: nat)
    requires !Atoi(FormValue(form, IndexedKey("media_files", k, ".send_delay"))).ok
    ensures MediaEntry(form, k).sendDelay in {0, MinInt64, MaxInt64}
  {
  }
}
