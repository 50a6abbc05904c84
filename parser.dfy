/** The heuristic extractor `ApiDocParser` (src/crawler/parser.py): from the
    parsed document of one page it selects endpoint and schema sections by
    class-name keywords and fills each record's fields from the first
    descendant that passes a fixed test. Every builder is "map, then keep the
    records whose key field is non-empty" over `find_all`'s result. */
module Parser {
  import opened Seqs
  import opened Strings
  import opened Dom

  /** A parameter (`_extract_endpoint_parameters`) or a property
      (`_extract_schema_properties`): both are built by identical helpers. */
  datatype Field = Field(name: string, typeName: string, required: bool, description: string)

  /** The empty dictionary, or a type name with its properties. */
  datatype ResponseSchema = NoSchema | SchemaBody(typeName: string, properties: seq<Field>)

  datatype Response = Response(code: string, description: string, schema: ResponseSchema)

  datatype Endpoint = Endpoint(
    path: string,
    httpMethod: string,
    description: string,
    parameters: seq<Field>,
    responses: seq<Response>)

  datatype Schema = Schema(name: string, description: string, properties: seq<Field>)

  /** What `parse_page` returns. */
  datatype ParsedPage = ParsedPage(title: string, endpoints: seq<Endpoint>, schemas: seq<Schema>, url: string)

  const EndpointKeywords: seq<string> := ["endpoint", "api", "method", "operation"]
  const SchemaKeywords: seq<string> := ["schema", "model", "type", "object"]
  const HttpMethods: seq<string> := ["GET", "POST", "PUT", "DELETE", "PATCH"]
  /** The type words of `_extract_parameter_type`, `_extract_property_type`
      and (in another order) `_extract_schema_type`. */
  const TypeWords: seq<string> := ["string", "integer", "boolean", "array", "object"]

  // ---- what each `find` / `find_all` call looks for ----

  predicate IsTitle(n: Node) {
    NameIn(n, ["title"])
  }

  predicate IsEndpointSection(n: Node) {
    NameIn(n, ["div", "section"]) && ClassHasKeyword(n, EndpointKeywords)
  }

  predicate IsSchemaSection(n: Node) {
    NameIn(n, ["div", "section"]) && ClassHasKeyword(n, SchemaKeywords)
  }

  /** A `code` or `pre` element whose string holds a `/`. */
  predicate IsPathElement(n: Node) {
    NameIn(n, ["code", "pre"]) && StringOf(n).Some? && '/' in StringOf(n).value
  }

  /** A `code` or `span` element whose upper-cased string is an HTTP method. */
  predicate IsMethodElement(n: Node) {
    NameIn(n, ["code", "span"]) && StringOf(n).Some? && Upper(StringOf(n).value) in HttpMethods
  }

  /** A `p` or `div` element with a class mentioning "description". */
  predicate IsBlockDescription(n: Node) {
    NameIn(n, ["p", "div"]) && ClassHasKeyword(n, ["description"])
  }

  /** A `p` or `td` element with a class mentioning "description". */
  predicate IsCellDescription(n: Node) {
    NameIn(n, ["p", "td"]) && ClassHasKeyword(n, ["description"])
  }

  predicate IsParameterSection(n: Node) {
    NameIn(n, ["div", "table"]) && ClassHasKeyword(n, ["parameter"])
  }

  predicate IsResponseSection(n: Node) {
    NameIn(n, ["div", "table"]) && ClassHasKeyword(n, ["response"])
  }

  predicate IsPropertySection(n: Node) {
    NameIn(n, ["div", "table"]) && ClassHasKeyword(n, ["property"])
  }

  /** A `div` or `pre` element with a class mentioning "schema". */
  predicate IsResponseSchemaElement(n: Node) {
    NameIn(n, ["div", "pre"]) && ClassHasKeyword(n, ["schema"])
  }

  /** A `code` or `td` element whose string is not blank. */
  predicate IsFieldNameElement(n: Node) {
    NameIn(n, ["code", "td"]) && StringOf(n).Some? && NotBlank(StringOf(n).value)
  }

  /** An `h2`, `h3`, `h4` or `code` element whose string is not blank. */
  predicate IsSchemaNameElement(n: Node) {
    NameIn(n, ["h2", "h3", "h4", "code"]) && StringOf(n).Some? && NotBlank(StringOf(n).value)
  }

  /** A `code` or `td` element whose lower-cased string holds a type word. */
  predicate IsTypeElement(n: Node) {
    NameIn(n, ["code", "td"]) && StringOf(n).Some? && HasKeyword(StringOf(n).value, TypeWords)
  }

  /** A `code` or `td` element whose string is all digits. */
  predicate IsCodeElement(n: Node) {
    NameIn(n, ["code", "td"]) && StringOf(n).Some? && IsDigits(StringOf(n).value)
  }

  /** A text node holding "required" in any case. */
  predicate IsRequiredText(n: Node) {
    n.Text? && Contains(Lower(n.text), "required")
  }

  // ---- the field helpers: one `find` and a conditional expression each ----

  /** The stripped text of what was found, or "" when nothing was. */
  function TextOrEmpty(found: Option<Node>): string {
    match found
    case None => ""
    case Some(e) => Strip(TextOf(e))
  }

  function Title(doc: Node): string {
    TextOrEmpty(Find(doc, IsTitle))
  }

  function EndpointPath(section: Node): string {
    TextOrEmpty(Find(section, IsPathElement))
  }

  function EndpointMethod(section: Node): string {
    match Find(section, IsMethodElement)
    case None => ""
    case Some(e) => Upper(Strip(TextOf(e)))
  }

  function SectionDescription(section: Node): string {
    TextOrEmpty(Find(section, IsBlockDescription))
  }

  function FieldName(section: Node): string {
    TextOrEmpty(Find(section, IsFieldNameElement))
  }

  function FieldType(section: Node): string {
    TextOrEmpty(Find(section, IsTypeElement))
  }

  function FieldRequired(section: Node): bool {
    Find(section, IsRequiredText).Some?
  }

  function CellDescription(section: Node): string {
    TextOrEmpty(Find(section, IsCellDescription))
  }

  function ResponseCode(section: Node): string {
    TextOrEmpty(Find(section, IsCodeElement))
  }

  function SchemaName(section: Node): string {
    TextOrEmpty(Find(section, IsSchemaNameElement))
  }

  function SchemaType(section: Node): string {
    match Find(section, IsTypeElement)
    case None => "object"
    case Some(e) => Strip(TextOf(e))
  }

  // ---- the record builders ----

  function FieldOf(section: Node): Field {
    Field(FieldName(section), FieldType(section), FieldRequired(section), CellDescription(section))
  }

  predicate HasName(f: Field) {
    f.name != ""
  }

  /** The loop body of `_extract_endpoint_parameters` and
      `_extract_schema_properties`: build, keep when the name is non-empty. */
  function Fields(sections: seq<Node>): seq<Field> {
    Filter(HasName, Map(FieldOf, sections))
  }

  function Parameters(section: Node): seq<Field> {
    Fields(FindAll(section, IsParameterSection))
  }

  function Properties(section: Node): seq<Field> {
    Fields(FindAll(section, IsPropertySection))
  }

  function ResponseSchemaOf(section: Node): ResponseSchema {
    match Find(section, IsResponseSchemaElement)
    case None => NoSchema
    case Some(e) => SchemaBody(SchemaType(e), Properties(e))
  }

  function ResponseOf(section: Node): Response {
    Response(ResponseCode(section), CellDescription(section), ResponseSchemaOf(section))
  }

  predicate HasCode(r: Response) {
    r.code != ""
  }

  function Responses(section: Node): seq<Response> {
    Filter(HasCode, Map(ResponseOf, FindAll(section, IsResponseSection)))
  }

  function EndpointOf(section: Node): Endpoint {
    Endpoint(EndpointPath(section), EndpointMethod(section), SectionDescription(section),
             Parameters(section), Responses(section))
  }

  predicate HasPath(e: Endpoint) {
    e.path != ""
  }

  function Endpoints(doc: Node): seq<Endpoint> {
    Filter(HasPath, Map(EndpointOf, FindAll(doc, IsEndpointSection)))
  }

  function SchemaOf(section: Node): Schema {
    Schema(SchemaName(section), SectionDescription(section), Properties(section))
  }

  predicate HasSchemaName(s: Schema) {
    s.name != ""
  }

  function Schemas(doc: Node): seq<Schema> {
    Filter(HasSchemaName, Map(SchemaOf, FindAll(doc, IsSchemaSection)))
  }

  function ParsePage(doc: Node, url: string): ParsedPage {
    ParsedPage(Title(doc), Endpoints(doc), Schemas(doc), url)
  }

  // ---- properties ----

  /** The title is the stripped text of the first `<title>` element, or "". */
  lemma TitleIsFirstTitle(doc: Node)
    ensures Title(doc) == if FindAll(doc, IsTitle) == [] then "" else Strip(TextOf(FindAll(doc, IsTitle)[0]))
  {
    FindIsFirstOfFindAll(doc, IsTitle);
  }

  /** An element is an endpoint section exactly when it is a `div` or a
      `section` and one of its lower-cased class tokens contains one of
      `endpoint`, `api`, `method`, `operation`. */
  lemma EndpointSectionByToken(n: Node)
    ensures IsEndpointSection(n)
        <==> NameIn(n, ["div", "section"])
             && exists i :: 0 <= i < |n.classes| && HasKeyword(n.classes[i], EndpointKeywords)
  {
    assert PlainKeywords(EndpointKeywords);
    ClassHasKeywordByToken(n, EndpointKeywords);
  }

  /** Likewise for schema sections and `schema`, `model`, `type`, `object`. */
  lemma SchemaSectionByToken(n: Node)
    ensures IsSchemaSection(n)
        <==> NameIn(n, ["div", "section"])
             && exists i :: 0 <= i < |n.classes| && HasKeyword(n.classes[i], SchemaKeywords)
  {
    assert PlainKeywords(SchemaKeywords);
    ClassHasKeywordByToken(n, SchemaKeywords);
  }

  /** The path is non-empty exactly when some `code`/`pre` descendant's string
      contains '/', and then the path contains '/' too. */
  lemma PathFound(section: Node)
    ensures EndpointPath(section) != "" <==> exists d :: d in Descendants(section) && IsPathElement(d)
    ensures EndpointPath(section) != "" ==> '/' in EndpointPath(section)
  {
    var found := Find(section, IsPathElement);
    if found.Some? {
      var e := found.value;
      StringIsText(e);
      var s := StringOf(e).value;
      var i :| 0 <= i < |s| && s[i] == '/';
      StripKeeps(s, i);
    }
  }

  lemma HttpMethodsHaveNoSpace()
    ensures forall m :: m in HttpMethods ==> m != "" && NoSpace(m)
  {
    assert NoSpace("GET") && NoSpace("POST") && NoSpace("PUT");
    assert NoSpace("DELETE") && NoSpace("PATCH");
  }

  /** The method is "" or one of GET, POST, PUT, DELETE, PATCH; it is "" only
      when no `code`/`span` descendant's string upper-cases to one of them. */
  lemma MethodIsHttpMethod(section: Node)
    ensures EndpointMethod(section) == "" || EndpointMethod(section) in HttpMethods
    ensures EndpointMethod(section) == "" <==> forall d :: d in Descendants(section) ==> !IsMethodElement(d)
  {
    var found := Find(section, IsMethodElement);
    if found.Some? {
      var e := found.value;
      assert EndpointMethod(section) == Upper(Strip(TextOf(e)));
      assert IsMethodElement(e);
      StringIsText(e);
      var s := StringOf(e).value;
      HttpMethodsHaveNoSpace();
      assert NoSpace(Upper(s));
      UpperNoSpace(s);
      StripNoSpace(s);
    }
  }

  /** A field's name is non-empty exactly when some `code`/`td` descendant has a
      non-blank string: the "keep if named" test drops precisely the sections
      without one. */
  lemma FieldNameFound(section: Node)
    ensures FieldName(section) != "" <==> exists d :: d in Descendants(section) && IsFieldNameElement(d)
  {
    var found := Find(section, IsFieldNameElement);
    if found.Some? {
      StringIsText(found.value);
      StripNotBlank(StringOf(found.value).value);
    }
  }

  /** Likewise for a schema's name and `h2`/`h3`/`h4`/`code` descendants. */
  lemma SchemaNameFound(section: Node)
    ensures SchemaName(section) != "" <==> exists d :: d in Descendants(section) && IsSchemaNameElement(d)
  {
    var found := Find(section, IsSchemaNameElement);
    if found.Some? {
      StringIsText(found.value);
      StripNotBlank(StringOf(found.value).value);
    }
  }

  /** A parameter's or property's type is non-empty exactly when some
      `code`/`td` descendant's string holds a type word. */
  lemma FieldTypeFound(section: Node)
    ensures FieldType(section) != "" <==> exists d :: d in Descendants(section) && IsTypeElement(d)
  {
    var found := Find(section, IsTypeElement);
    if found.Some? {
      StringIsText(found.value);
      TypeWordFound(StringOf(found.value).value);
    }
  }

  /** An endpoint's or schema's description is the stripped text of the first
      `p`/`div` descendant whose class mentions "description", and "" when
      there is none. */
  lemma SectionDescriptionFound(section: Node)
    ensures (forall d :: d in Descendants(section) ==> !IsBlockDescription(d)) ==> SectionDescription(section) == ""
    ensures SectionDescription(section) != "" ==>
              exists d :: d in Descendants(section) && IsBlockDescription(d)
                          && SectionDescription(section) == Strip(TextOf(d))
    ensures FindAll(section, IsBlockDescription) != [] ==>
              SectionDescription(section) == Strip(TextOf(FindAll(section, IsBlockDescription)[0]))
  {
    FindIsFirstOfFindAll(section, IsBlockDescription);
  }

  /** A parameter's, response's or property's description is the stripped text
      of the first `p`/`td` descendant whose class mentions "description", and
      "" when there is none. */
  lemma CellDescriptionFound(section: Node)
    ensures (forall d :: d in Descendants(section) ==> !IsCellDescription(d)) ==> CellDescription(section) == ""
    ensures CellDescription(section) != "" ==>
              exists d :: d in Descendants(section) && IsCellDescription(d)
                          && CellDescription(section) == Strip(TextOf(d))
    ensures FindAll(section, IsCellDescription) != [] ==>
              CellDescription(section) == Strip(TextOf(FindAll(section, IsCellDescription)[0]))
  {
    FindIsFirstOfFindAll(section, IsCellDescription);
  }

  /** A response code is "" or a non-empty run of digits. */
  lemma ResponseCodeIsDigits(section: Node)
    ensures ResponseCode(section) == "" || IsDigits(ResponseCode(section))
  {
    var found := Find(section, IsCodeElement);
    if found.Some? {
      StringIsText(found.value);
      StripNoSpace(StringOf(found.value).value);
    }
  }

  /** The "required" flag holds exactly when some descendant text node
      contains "required" in any letter case. */
  lemma RequiredIffText(section: Node)
    ensures FieldRequired(section)
        <==> exists d :: d in Descendants(section) && d.Text? && Contains(Lower(d.text), "required")
  {
    if !FieldRequired(section) {
      forall d | d in Descendants(section) ensures !(d.Text? && Contains(Lower(d.text), "required")) {
        assert !IsRequiredText(d);
      }
    }
  }

  /** A response's schema is `{}` exactly when no `div`/`pre` descendant has a
      class containing "schema". */
  lemma ResponseSchemaEmpty(section: Node)
    ensures ResponseSchemaOf(section) == NoSchema
        <==> forall d :: d in Descendants(section) ==> !IsResponseSchemaElement(d)
  {
  }

  /** The schema type is "object" when no `code`/`td` descendant names a type;
      it is never "". */
  lemma SchemaTypeDefault(section: Node)
    ensures (forall d :: d in Descendants(section) ==> !IsTypeElement(d)) ==> SchemaType(section) == "object"
    ensures SchemaType(section) != ""
  {
    var found := Find(section, IsTypeElement);
    if found.Some? {
      var s := StringOf(found.value).value;
      StringIsText(found.value);
      TypeWordFound(s);
    }
  }

  /** A string holding a type word in any case does not strip to "". */
  lemma TypeWordFound(s: string)
    requires exists k :: 0 <= k < |TypeWords| && Contains(Lower(s), TypeWords[k])
    ensures Strip(s) != ""
  {
    var k :| 0 <= k < |TypeWords| && Contains(Lower(s), TypeWords[k]);
    var w := TypeWords[k];
    assert w != "" && NoSpace(w) by {
      assert NoSpace("string") && NoSpace("integer") && NoSpace("boolean");
      assert NoSpace("array") && NoSpace("object");
    }
    ContainsWordNotBlank(s, w);
    StripNotBlank(s);
  }

  /** Every kept parameter or property is named, and it is built from one of
      the given sections; every section that yields a name is kept. */
  lemma FieldsKept(sections: seq<Node>)
    ensures forall f :: f in Fields(sections) ==> f.name != "" && exists s :: s in sections && f == FieldOf(s)
    ensures forall s :: s in sections && FieldName(s) != "" ==> FieldOf(s) in Fields(sections)
  {
    FilterMapSound(HasName, FieldOf, sections);
    FilterMapComplete(HasName, FieldOf, sections);
  }

  /** Every kept response has a non-empty code made only of digits. */
  lemma ResponsesHaveDigitCodes(section: Node)
    ensures forall r :: r in Responses(section) ==> IsDigits(r.code)
  {
    var sections := FindAll(section, IsResponseSection);
    forall s | s in sections && HasCode(ResponseOf(s)) ensures HasDigitCode(ResponseOf(s)) {
      ResponseCodeIsDigits(s);
    }
    FilterMapAll(HasCode, HasDigitCode, ResponseOf, sections);
  }

  predicate HasDigitCode(r: Response) {
    IsDigits(r.code)
  }

  /** Every endpoint returned has a non-empty path and a method that is "" or
      an HTTP method, and comes from a matching section; a matching section
      with a path is never dropped, and one without a path always is, whatever
      its method or description. */
  lemma EndpointsKept(doc: Node)
    ensures forall e :: e in Endpoints(doc) ==>
              && e.path != ""
              && (e.httpMethod == "" || e.httpMethod in HttpMethods)
              && exists s :: s in FindAll(doc, IsEndpointSection) && e == EndpointOf(s)
    ensures forall s :: s in FindAll(doc, IsEndpointSection) ==>
              (EndpointOf(s) in Endpoints(doc) <==> EndpointPath(s) != "")
  {
    FilterMapSound(HasPath, EndpointOf, FindAll(doc, IsEndpointSection));
    FilterMapComplete(HasPath, EndpointOf, FindAll(doc, IsEndpointSection));
    forall e | e in Endpoints(doc) ensures e.httpMethod == "" || e.httpMethod in HttpMethods {
      var s :| s in FindAll(doc, IsEndpointSection) && e == EndpointOf(s);
      MethodIsHttpMethod(s);
    }
  }

  /** Every schema returned is named and comes from a matching section; a
      matching section with a name is never dropped. */
  lemma SchemasKept(doc: Node)
    ensures forall s :: s in Schemas(doc) ==>
              s.name != "" && exists sec :: sec in FindAll(doc, IsSchemaSection) && s == SchemaOf(sec)
    ensures forall sec :: sec in FindAll(doc, IsSchemaSection) ==>
              (SchemaOf(sec) in Schemas(doc) <==> SchemaName(sec) != "")
  {
    FilterMapSound(HasSchemaName, SchemaOf, FindAll(doc, IsSchemaSection));
    FilterMapComplete(HasSchemaName, SchemaOf, FindAll(doc, IsSchemaSection));
  }

  /** Document order: the endpoints and schemas of an element whose children
      are `a + b` are those found under `a` followed by those found under `b`. */
  lemma RecordsInDocumentOrder(name: string, classes: seq<string>, href: Option<string>, a: seq<Node>, b: seq<Node>)
    ensures Endpoints(Element(name, classes, href, a + b))
         == Endpoints(Element(name, classes, href, a)) + Endpoints(Element(name, classes, href, b))
    ensures Schemas(Element(name, classes, href, a + b))
         == Schemas(Element(name, classes, href, a)) + Schemas(Element(name, classes, href, b))
  {
    PreorderAppend(a, b);
    assert Descendants(Element(name, classes, href, a + b))
        == Descendants(Element(name, classes, href, a)) + Descendants(Element(name, classes, href, b));
    PipelineAppend(IsEndpointSection, EndpointOf, HasPath, Preorder(a), Preorder(b));
    PipelineAppend(IsSchemaSection, SchemaOf, HasSchemaName, Preorder(a), Preorder(b));
  }

  /** What `parse_page` returns: the page's own URL, and only well-formed
      endpoint and schema records. */
  lemma ParsedPageWellFormed(doc: Node, url: string)
    ensures ParsePage(doc, url).url == url
    ensures forall e :: e in ParsePage(doc, url).endpoints ==>
              && e.path != ""
              && (e.httpMethod == "" || e.httpMethod in HttpMethods)
              && (forall f :: f in e.parameters ==> f.name != "")
              && (forall r :: r in e.responses ==> IsDigits(r.code))
    ensures forall s :: s in ParsePage(doc, url).schemas ==>
              s.name != "" && forall f :: f in s.properties ==> f.name != ""
  {
    EndpointsKept(doc);
    SchemasKept(doc);
    forall e | e in Endpoints(doc) ensures forall r :: r in e.responses ==> IsDigits(r.code) {
      var s :| s in FindAll(doc, IsEndpointSection) && e == EndpointOf(s);
      ResponsesHaveDigitCodes(s);
    }
  }

  // A page holding one `<div class="endpoint-get-users">` with
  // `<code>/users</code>` and `<code>GET</code>` inside it.
  const UsersPath := Element("code", [], None, [Text("/users")])
  const UsersVerb := Element("code", [], None, [Text("GET")])
  const UsersSection := Element("div", ["endpoint-get-users"], None, [UsersPath, UsersVerb])
  const UsersDoc := Element("[document]", [], None, [UsersSection])

  lemma UsersSectionDescendants()
    ensures Descendants(UsersSection) == [UsersPath, Text("/users"), UsersVerb, Text("GET")]
    ensures Descendants(UsersDoc) == [UsersSection] + Descendants(UsersSection)
  {
    assert Preorder([Text("/users")]) == [Text("/users")];
    assert Preorder([Text("GET")]) == [Text("GET")];
    assert Preorder([UsersVerb]) == [UsersVerb, Text("GET")];
    assert [UsersPath, UsersVerb][1..] == [UsersVerb];
    assert [UsersSection][1..] == [];
  }

  lemma UsersSectionFound()
    ensures FindAll(UsersDoc, IsEndpointSection) == [UsersSection]
  {
    UsersSectionDescendants();
    var below := Descendants(UsersSection);
    UsersSectionMatches();
    assert Filter(IsEndpointSection, [UsersSection]) == [UsersSection] by {
      assert [UsersSection][1..] == [];
    }
    assert forall x :: x in below ==> !NameIn(x, ["div", "section"]);
    FilterNone(IsEndpointSection, below);
    FilterAppend(IsEndpointSection, [UsersSection], below);
  }

  lemma UsersSectionMatches()
    ensures IsEndpointSection(UsersSection)
  {
    var cls := "endpoint-get-users";
    assert Lower(cls) == cls;
    assert OccursAt(Lower(cls), EndpointKeywords[0], 0);
    assert HasKeyword(UsersSection.classes[0], EndpointKeywords);
  }

  lemma UsersVerbIsMethod()
    ensures EndpointMethod(UsersSection) == "GET"
  {
    calc {
      EndpointMethod(UsersSection);
      { UsersVerbFound(); }
      Upper(Strip(TextOf(UsersVerb)));
      { UsersVerbText(); }
      Upper(Strip("GET"));
      { GetIsPlain(); }
      "GET";
    }
  }

  lemma UsersVerbText()
    ensures TextOf(UsersVerb) == "GET"
  {
    assert StringOf(UsersVerb) == Some("GET");
    StringIsText(UsersVerb);
  }

  lemma GetIsPlain()
    ensures Strip("GET") == "GET" && Upper("GET") == "GET"
  {
    assert NoSpace("GET");
    StripNoSpace("GET");
  }

  lemma UsersVerbFound()
    ensures Find(UsersSection, IsMethodElement) == Some(UsersVerb)
  {
    UsersSectionDescendants();
    var below := Descendants(UsersSection);
    UsersPathIsNoMethod();
    UsersVerbMatches();
    assert !IsMethodElement(below[1]);
    assert below[1..][1..] == below[2..];
    assert FirstMatch(IsMethodElement, below) == FirstMatch(IsMethodElement, below[1..]);
    assert FirstMatch(IsMethodElement, below[1..]) == FirstMatch(IsMethodElement, below[2..]);
  }

  lemma UsersPathIsNoMethod()
    ensures !IsMethodElement(UsersPath)
  {
    assert StringOf(UsersPath) == Some("/users");
    var up := Upper("/users");
    assert up[0] == '/';
    assert up !in HttpMethods;
  }

  lemma UsersVerbMatches()
    ensures IsMethodElement(UsersVerb)
  {
    assert StringOf(UsersVerb) == Some("GET");
    assert Upper("GET") == "GET";
  }

  lemma UsersPathFound()
    ensures EndpointPath(UsersSection) == "/users"
  {
    calc {
      EndpointPath(UsersSection);
      { UsersSectionDescendants(); assert IsPathElement(UsersPath); }
      Strip(TextOf(UsersPath));
      { assert StringOf(UsersPath) == Some("/users"); StringIsText(UsersPath); }
      Strip("/users");
      { assert NoSpace("/users"); StripNoSpace("/users"); }
      "/users";
    }
  }

  lemma UsersSectionHasNoDescription()
    ensures SectionDescription(UsersSection) == ""
  {
    UsersSectionDescendants();
    assert forall x :: x in Descendants(UsersSection) ==> !IsBlockDescription(x);
  }

  lemma UsersSectionHasNoFields()
    ensures Parameters(UsersSection) == [] && Responses(UsersSection) == []
  {
    UsersSectionDescendants();
    assert forall x :: x in Descendants(UsersSection) ==> !NameIn(x, ["div", "table"]);
    FilterNone(IsParameterSection, Descendants(UsersSection));
    FilterNone(IsResponseSection, Descendants(UsersSection));
  }

  /** The page above yields exactly one endpoint, `GET /users`, with no
      description, parameters or responses. */
  lemma UsersEndpointExample()
    ensures Endpoints(UsersDoc) == [Endpoint("/users", "GET", "", [], [])]
  {
    UsersSectionFound();
    UsersVerbIsMethod();
    UsersPathFound();
    UsersSectionHasNoDescription();
    UsersSectionHasNoFields();
    assert EndpointOf(UsersSection) == Endpoint("/users", "GET", "", [], []);
  }
}
