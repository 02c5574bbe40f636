/** The JSON document of a tree: `to_dict`, `from_dict`, and that reading back gives the same tree. */
module FileDoc {
  import opened Wrappers
  import opened FileTree

  datatype Json = JString(text: string) | JArray(items: seq<Json>) | JObject(fields: map<string, Json>)

  /** `to_dict`; sizes, times and permissions are left out. */
  function ToDoc(t: Tree): Json {
    JObject(map[
      "name" := JString(t.name),
      "type" := JString(t.kind),
      "content" := JString(t.content),
      "children" := JArray(seq(|t.children|, i requires 0 <= i < |t.children| => ToDoc(t.children[i])))])
  }

  datatype DocError = MissingField(name: string) | WrongType

  function TextField(fields: map<string, Json>, name: string): Result<string, DocError> {
    if name !in fields then Err(MissingField(name))
    else if fields[name].JString? then Ok(fields[name].text)
    else Err(WrongType)
  }

  /** The node of an object's own fields: name and type are required, content defaults to empty. */
  function HeadFromDoc(fields: map<string, Json>): (r: Result<Tree, DocError>)
    ensures r.Ok? ==> r.value.children == []
  {
    var name := TextField(fields, "name");
    var kind := TextField(fields, "type");
    var content := if "content" in fields then TextField(fields, "content") else Ok("");
    if name.Err? then Err(name.error)
    else if kind.Err? then Err(kind.error)
    else if content.Err? then Err(content.error)
    else Ok(Tree(name.value, kind.value, content.value, []))
  }

  /** `from_dict`: children default to none. */
  function FromDoc(d: Json): Result<Tree, DocError> {
    if !d.JObject? then Err(WrongType)
    else
      match HeadFromDoc(d.fields)
      case Err(e) => Err(e)
      case Ok(head) =>
        if "children" !in d.fields then Ok(head)
        else if !d.fields["children"].JArray? then Err(WrongType)
        else
          match FromDocs(d.fields["children"].items)
          case Err(e) => Err(e)
          case Ok(children) => Ok(head.(children := children))
  }

  function FromDocs(ds: seq<Json>): Result<seq<Tree>, DocError> {
    if ds == [] then Ok([])
    else
      match FromDoc(ds[0])
      case Err(e) => Err(e)
      case Ok(first) =>
        match FromDocs(ds[1..])
        case Err(e) => Err(e)
        case Ok(rest) => Ok([first] + rest)
  }

  /** The documents of the children of a node. */
  function ToDocs(ts: seq<Tree>): seq<Json> {
    seq(|ts|, i requires 0 <= i < |ts| => ToDoc(ts[i]))
  }

  /** Reading a written document gives the tree back, whatever it holds. */
  lemma {:induction false} WriteThenRead(t: Tree)
    ensures FromDoc(ToDoc(t)) == Ok(t)
  {
    WriteThenReadAll(t.children);
    assert ToDoc(t).fields["children"].items == ToDocs(t.children);
  }

  lemma {:induction false} WriteThenReadAll(ts: seq<Tree>)
    ensures FromDocs(ToDocs(ts)) == Ok(ts)
  {
    if ts != [] {
      WriteThenRead(ts[0]);
      WriteThenReadAll(ts[1..]);
      assert ToDocs(ts)[1..] == ToDocs(ts[1..]);
      assert [ts[0]] + ts[1..] == ts;
    }
  }

  // ---------------------------------------------------------------------
  // The fields of a document
  // ---------------------------------------------------------------------

  /** A written node has exactly these fields, and the documents of its children in order. */
  lemma WritesFields(t: Tree)
    ensures ToDoc(t).JObject?
    ensures var fields := ToDoc(t).fields;
      && fields.Keys == {"name", "type", "content", "children"}
      && fields["name"] == JString(t.name) && fields["type"] == JString(t.kind)
      && fields["content"] == JString(t.content)
      && fields["children"].JArray? && |fields["children"].items| == |t.children|
      && forall i :: 0 <= i < |t.children| ==> fields["children"].items[i] == ToDoc(t.children[i])
  {
  }

  predicate HasText(d: Json, name: string) {
    d.JObject? && name in d.fields && d.fields[name].JString?
  }

  predicate Lacks(d: Json, name: string) {
    d.JObject? && name !in d.fields
  }

  lemma {:induction false} ReadsEach(ds: seq<Json>)
    ensures FromDocs(ds).Ok? <==> forall i :: 0 <= i < |ds| ==> FromDoc(ds[i]).Ok?
    ensures FromDocs(ds).Ok? ==>
      |FromDocs(ds).value| == |ds| && forall i :: 0 <= i < |ds| ==> FromDoc(ds[i]) == Ok(FromDocs(ds).value[i])
  {
    if ds != [] {
      ReadsEach(ds[1..]);
      assert forall i :: 0 < i < |ds| ==> ds[i] == ds[1..][i - 1];
    }
  }

  /** Name and type are required, content and children may be missing; then the node has none. */
  lemma ReadsExactly(d: Json)
    ensures FromDoc(d).Ok? <==>
      && HasText(d, "name") && HasText(d, "type") && (Lacks(d, "content") || HasText(d, "content"))
      && (Lacks(d, "children") ||
          (d.fields["children"].JArray? && forall c :: c in d.fields["children"].items ==> FromDoc(c).Ok?))
    ensures FromDoc(d).Ok? ==>
      var t := FromDoc(d).value;
      && t.name == d.fields["name"].text && t.kind == d.fields["type"].text
      && t.content == (if "content" in d.fields then d.fields["content"].text else "")
      && (Lacks(d, "children") ==> t.children == [])
      && (!Lacks(d, "children") ==>
            var items := d.fields["children"].items;
            |t.children| == |items| && forall i :: 0 <= i < |items| ==> FromDoc(items[i]) == Ok(t.children[i]))
  {
    if d.JObject? && "children" in d.fields && d.fields["children"].JArray? {
      ReadsEach(d.fields["children"].items);
    }
  }
}
