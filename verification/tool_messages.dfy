/** The client's two reshaping steps between the MCP server and the Bedrock
    Converse API: an MCP tool description becomes a Converse tool spec,
    and a tool's output becomes a `toolResult` user message. */
module ToolMessages {
  import opened Results
  import opened Dicts
  import opened Strings

  /** A JSON value; an object keeps its members in insertion order. */
  datatype Json =
    | JNull
    | JBool(b: bool)
    | JNum(n: int)
    | JStr(s: string)
    | JArr(items: seq<Json>)
    | JObj(members: Dict<string, Json>)

  /** A tool as the client receives it: an MCP `Tool` object (it has a
      `name` attribute) or a plain dictionary. */
  datatype ToolInput =
    | ToolObject(name: string, description: Json, inputSchema: Json)
    | ToolDict(fields: Dict<string, Json>)

  /** One property of the Converse schema: only its type and description. */
  datatype PropertySpec = PropertySpec(propType: Json, description: Json)

  /** The Converse tool spec; `schemaType` is the `type` of the wrapped JSON schema. */
  datatype ToolSpec = ToolSpec(
    name: Json,
    description: Json,
    schemaType: string,
    properties: Dict<string, PropertySpec>,
    required: Json)

  /** Where Python raises `AttributeError`: a schema, or the `properties`
      entry, or one property's details, is not a dictionary. */
  datatype ReshapeError = SchemaNotObject | PropertiesNotObject | PropertyNotObject(name: string)

  /** `d.get(k, default)`. */
  function GetOrDefault(d: Dict<string, Json>, k: string, default: Json): Json {
    Get(d, k).GetOr(default)
  }

  /** One property's details reduced to `type` (default `"string"`) and
      `description` (default `""`). */
  function PropertyOf(details: Dict<string, Json>): PropertySpec {
    PropertySpec(GetOrDefault(details, "type", JStr("string")), GetOrDefault(details, "description", JStr("")))
  }

  /** The properties loop: every property, in order, under the same name;
      the first property whose details are not a dictionary raises. */
  function ConvertProperties(ps: Dict<string, Json>): Result<Dict<string, PropertySpec>, ReshapeError>
    decreases |ps|
  {
    if |ps| == 0 then Success([])
    else if !ps[0].1.JObj? then Failure(PropertyNotObject(ps[0].0))
    else
      match ConvertProperties(ps[1..])
      case Failure(e) => Failure(e)
      case Success(rest) => Success([(ps[0].0, PropertyOf(ps[0].1.members))] + rest)
  }

  /** The conversion succeeds exactly when every property's details are a dictionary. */
  lemma {:induction false} ConvertPropertiesOk(ps: Dict<string, Json>)
    ensures ConvertProperties(ps).Success? <==> forall i :: 0 <= i < |ps| ==> ps[i].1.JObj?
    decreases |ps|
  {
    if |ps| > 0 {
      ConvertPropertiesOk(ps[1..]);
      assert forall i :: 1 <= i < |ps| ==> ps[i] == ps[1..][i - 1];
    }
  }

  /** On success every name is kept, in order, with its details reduced. */
  lemma ConvertPropertiesKept(ps: Dict<string, Json>)
    requires ConvertProperties(ps).Success?
    ensures var out := ConvertProperties(ps).value;
            && Keys(out) == Keys(ps)
            && forall i :: 0 <= i < |ps| ==> ps[i].1.JObj? && out[i].1 == PropertyOf(ps[i].1.members)
  {
    ConvertPropertiesPointwise(ps);
    SameKeys(ConvertProperties(ps).value, ps);
  }

  lemma {:induction false} ConvertPropertiesPointwise(ps: Dict<string, Json>)
    requires ConvertProperties(ps).Success?
    ensures var out := ConvertProperties(ps).value;
            && |out| == |ps|
            && forall i :: 0 <= i < |ps| ==> out[i].0 == ps[i].0 && ps[i].1.JObj? && out[i].1 == PropertyOf(ps[i].1.members)
    decreases |ps|
  {
    if |ps| > 0 {
      ConvertPropertiesPointwise(ps[1..]);
      var rest := ConvertProperties(ps[1..]).value;
      var out := ConvertProperties(ps).value;
      assert out == [(ps[0].0, PropertyOf(ps[0].1.members))] + rest;
      assert forall i :: 1 <= i < |ps| ==> ps[i] == ps[1..][i - 1] && out[i] == rest[i - 1];
    }
  }

  /** On failure the error names the first property whose details are not a dictionary. */
  lemma {:induction false} ConvertPropertiesFirstFailure(ps: Dict<string, Json>) returns (i: nat)
    requires ConvertProperties(ps).Failure?
    ensures i < |ps| && !ps[i].1.JObj? && ConvertProperties(ps).error == PropertyNotObject(ps[i].0)
    ensures forall j :: 0 <= j < i ==> ps[j].1.JObj?
    decreases |ps|
  {
    if ps[0].1.JObj? {
      var i' := ConvertPropertiesFirstFailure(ps[1..]);
      i := i' + 1;
      assert ps[i] == ps[1..][i'];
      assert forall j :: 1 <= j < i ==> ps[j] == ps[1..][j - 1];
    } else {
      i := 0;
    }
  }

  /** The tool's name, description and input schema, each read from the
      attribute of a `Tool` or from the dictionary with its default. */
  function ToolParts(tool: ToolInput): (Json, Json, Json) {
    match tool
    case ToolObject(name, description, schema) => (JStr(name), description, schema)
    case ToolDict(fields) =>
      (GetOrDefault(fields, "name", JStr("")), GetOrDefault(fields, "description", JStr("")),
       GetOrDefault(fields, "inputSchema", JObj([])))
  }

  /** `convert_tool_to_json_spec`. */
  function ConvertToolToJsonSpec(tool: ToolInput): (r: Result<ToolSpec, ReshapeError>)
    ensures var (name, description, schema) := ToolParts(tool);
            && (!schema.JObj? ==> r == Failure(SchemaNotObject))
            && (schema.JObj? && !GetOrDefault(schema.members, "properties", JObj([])).JObj? ==> r == Failure(PropertiesNotObject))
            && (r.Success? ==>
                  && r.value.name == name
                  && r.value.description == description
                  && r.value.schemaType == "object"
                  && r.value.required == GetOrDefault(schema.members, "required", JArr([]))
                  && Keys(r.value.properties) == Keys(GetOrDefault(schema.members, "properties", JObj([])).members))
    ensures var schema := ToolParts(tool).2;
            r.Success? <==>
              && schema.JObj?
              && GetOrDefault(schema.members, "properties", JObj([])).JObj?
              && var ps := GetOrDefault(schema.members, "properties", JObj([])).members;
                 forall i :: 0 <= i < |ps| ==> ps[i].1.JObj?
    ensures r.Success? ==>
              var ps := GetOrDefault(ToolParts(tool).2.members, "properties", JObj([])).members;
              && |r.value.properties| == |ps|
              && forall i :: 0 <= i < |ps| ==>
                   ps[i].1.JObj? && r.value.properties[i] == (ps[i].0, PropertyOf(ps[i].1.members))
  {
    var (name, description, schema) := ToolParts(tool);
    if !schema.JObj? then Failure(SchemaNotObject)
    else
      var ps := GetOrDefault(schema.members, "properties", JObj([]));
      if !ps.JObj? then Failure(PropertiesNotObject)
      else
        ConvertPropertiesOk(ps.members);
        match ConvertProperties(ps.members)
        case Failure(e) => Failure(e)
        case Success(props) =>
          ConvertPropertiesKept(ps.members);
          ConvertPropertiesPointwise(ps.members);
          Success(ToolSpec(name, description, "object", props, GetOrDefault(schema.members, "required", JArr([]))))
  }

  /** A failure on the properties names the first property whose details
      are not a dictionary, as the loop stops there. */
  lemma ConvertToolFirstFailure(tool: ToolInput) returns (i: nat)
    requires ToolParts(tool).2.JObj?
    requires GetOrDefault(ToolParts(tool).2.members, "properties", JObj([])).JObj?
    requires ConvertToolToJsonSpec(tool).Failure?
    ensures var ps := GetOrDefault(ToolParts(tool).2.members, "properties", JObj([])).members;
            && i < |ps| && !ps[i].1.JObj?
            && (forall j :: 0 <= j < i ==> ps[j].1.JObj?)
            && ConvertToolToJsonSpec(tool).error == PropertyNotObject(ps[i].0)
  {
    var ps := GetOrDefault(ToolParts(tool).2.members, "properties", JObj([])).members;
    i := ConvertPropertiesFirstFailure(ps);
  }

  /** An empty tool dictionary takes every default: empty name and
      description, no properties, no required names. */
  lemma EmptyToolDefaults()
    ensures ConvertToolToJsonSpec(ToolDict([])) == Success(ToolSpec(JStr(""), JStr(""), "object", [], JArr([])))
  {
  }

  /** The input schema a spec describes, written back as a JSON schema. */
  function SchemaOf(spec: ToolSpec): Json {
    JObj([
      ("type", JStr(spec.schemaType)),
      ("properties", JObj(RenderProperties(spec.properties))),
      ("required", spec.required)])
  }

  /** Each property written back as a dictionary of its type and description. */
  function RenderProperties(ps: Dict<string, PropertySpec>): Dict<string, Json>
    decreases |ps|
  {
    if |ps| == 0 then []
    else [(ps[0].0, RenderProperty(ps[0].1))] + RenderProperties(ps[1..])
  }

  function RenderProperty(p: PropertySpec): Json {
    JObj([("type", p.propType), ("description", p.description)])
  }

  /** A property already reduced to `type` and `description` is kept as it is. */
  lemma PropertyOfRendered(p: PropertySpec)
    ensures RenderProperty(p).JObj? && PropertyOf(RenderProperty(p).members) == p
  {
    var d := [("type", p.propType), ("description", p.description)];
    assert Keys(d) == ["type", "description"];
    assert "description" != "type";
  }

  /** Reading back the schema a spec describes gives the same properties. */
  lemma {:induction false} PropertiesRoundTrip(ps: Dict<string, PropertySpec>)
    ensures ConvertProperties(RenderProperties(ps)) == Success(ps)
    decreases |ps|
  {
    if |ps| > 0 {
      PropertiesRoundTrip(ps[1..]);
      ConvertRenderedHead(ps);
      assert [ps[0]] + ps[1..] == ps;
    }
  }

  /** Converting a rendered list reads its first property back, then the rest. */
  lemma ConvertRenderedHead(ps: Dict<string, PropertySpec>)
    requires |ps| > 0
    ensures ConvertProperties(RenderProperties(ps)) ==
              match ConvertProperties(RenderProperties(ps[1..]))
              case Failure(e) => Failure(e)
              case Success(rest) => Success([ps[0]] + rest)
  {
    var rendered := RenderProperties(ps);
    assert rendered[1..] == RenderProperties(ps[1..]);
    assert rendered[0] == (ps[0].0, RenderProperty(ps[0].1));
    PropertyOfRendered(ps[0].1);
  }

  /** Round trip: a tool dictionary built from a spec (name, description
      and the schema the spec describes) converts back to that spec. */
  lemma ToolSpecRoundTrip(spec: ToolSpec)
    requires spec.schemaType == "object"
    ensures ConvertToolToJsonSpec(ToolDict(ToolFieldsOf(spec))) == Success(spec)
  {
    ToolFieldsRead(spec);
    SchemaRead(spec);
    PropertiesRoundTrip(spec.properties);
  }

  /** The tool dictionary a spec is read from. */
  function ToolFieldsOf(spec: ToolSpec): Dict<string, Json> {
    [("name", spec.name), ("description", spec.description), ("inputSchema", SchemaOf(spec))]
  }

  lemma ToolFieldsRead(spec: ToolSpec)
    ensures ToolParts(ToolDict(ToolFieldsOf(spec))) == (spec.name, spec.description, SchemaOf(spec))
  {
    var fields := ToolFieldsOf(spec);
    assert Keys(fields) == ["name", "description", "inputSchema"];
    assert "name" != "description" && "name" != "inputSchema" && "description" != "inputSchema";
  }

  lemma SchemaRead(spec: ToolSpec)
    ensures SchemaOf(spec).JObj?
    ensures GetOrDefault(SchemaOf(spec).members, "properties", JObj([])) == JObj(RenderProperties(spec.properties))
    ensures GetOrDefault(SchemaOf(spec).members, "required", JArr([])) == spec.required
  {
    var members := SchemaOf(spec).members;
    assert Keys(members) == ["type", "properties", "required"];
    assert "type" != "properties" && "type" != "required" && "properties" != "required";
  }

  /** Everything in a property's details but `type` and `description` is dropped. */
  lemma ExtraKeysDropped(t: Json, extra: Json)
    ensures PropertyOf([("type", t), ("format", extra)]) == PropertySpec(t, JStr(""))
  {
    var d := [("type", t), ("format", extra)];
    assert Keys(d) == ["type", "format"];
    assert "description" != "type" && "description" != "format";
  }

  // ---------------------------------------------------------------------
  // convert_content_to_json

  /** An item of a content list: one with a `text` attribute, or anything
      else, which is rendered with `str`. */
  datatype ContentItem = TextItem(text: string) | OtherItem(repr: string)

  /** A tool's output: a list of items, or one object, which may carry a
      `text` and an `isError` flag, and is otherwise rendered with `str`. */
  datatype Content =
    | ContentList(items: seq<ContentItem>)
    | ContentObject(text: Option<string>, isError: bool, repr: string)

  datatype TextBlock = TextBlock(text: string)
  datatype ToolResult = ToolResult(toolUseId: string, content: seq<TextBlock>, status: string)
  /** The Converse message carrying a tool result back to the model. */
  datatype UserMessage = UserMessage(role: string, content: seq<ToolResult>)

  const DefaultToolUseId: string := "default_tool_id"

  function ItemText(item: ContentItem): string {
    match item
    case TextItem(t) => t
    case OtherItem(r) => r
  }

  function ItemTexts(items: seq<ContentItem>): (ts: seq<string>)
    ensures |ts| == |items| && forall i :: 0 <= i < |items| ==> ts[i] == ItemText(items[i])
  {
    seq(|items|, i requires 0 <= i < |items| => ItemText(items[i]))
  }

  /** The text of a tool's output. */
  function ContentText(c: Content): string {
    match c
    case ContentList(items) => Join(ItemTexts(items), "\n")
    case ContentObject(text, _, repr) => text.GetOr(repr)
  }

  /** `convert_content_to_json`. */
  function ConvertContentToJson(c: Content, toolUseId: Option<string>): (m: UserMessage)
    ensures m.role == "user" && |m.content| == 1
    ensures m.content[0].toolUseId == (if toolUseId.Some? then toolUseId.value else "default_tool_id")
    ensures m.content[0].status == "error" <==> c.ContentObject? && c.isError
    ensures m.content[0].status == "success" || m.content[0].status == "error"
    ensures m.content[0].content == [TextBlock(ContentText(c))]
  {
    var status := if c.ContentObject? && c.isError then "error" else "success";
    UserMessage("user", [ToolResult(toolUseId.GetOr(DefaultToolUseId), [TextBlock(ContentText(c))], status)])
  }

  /** The texts of a non-empty list whose items contain no line break can
      be recovered from the message by splitting at line breaks. */
  lemma ContentListRoundTrip(items: seq<ContentItem>, toolUseId: Option<string>)
    requires |items| > 0
    requires forall i :: 0 <= i < |items| ==> '\n' !in ItemText(items[i])
    ensures Split(ConvertContentToJson(ContentList(items), toolUseId).content[0].content[0].text, '\n') == ItemTexts(items)
  {
    SplitJoin(ItemTexts(items), '\n');
  }

}
