/** The query side (src/mcp/resources.py): a case-insensitive search over
    the endpoints of the stored pages and two lookups by URL. `pages` is what
    `get_page` returned for each URL of `list_pages`, in that order, with
    `None` for a URL whose file is gone. */
module Resources {
  import opened Seqs
  import opened Strings
  import opened Models

  /** One search result: the four fields `api_docs` copies. */
  datatype Hit = Hit(url: string, path: string, httpMethod: string, description: string)

  function HitOf(e: ApiEndpoint): Hit {
    Hit(e.url, e.path, e.httpMethod, e.description)
  }

  /** The endpoints of the retrievable pages, in page order and then in each
      page's endpoint order. */
  function AllEndpoints(pages: seq<Option<ApiPage>>): seq<ApiEndpoint> {
    if pages == [] then []
    else (match pages[0] case None => [] case Some(p) => p.endpoints) + AllEndpoints(pages[1..])
  }

  /** The schemas of the retrievable pages, in the same order. */
  function AllSchemas(pages: seq<Option<ApiPage>>): seq<ApiSchema> {
    if pages == [] then []
    else (match pages[0] case None => [] case Some(p) => p.schemas) + AllSchemas(pages[1..])
  }

  lemma {:induction false} AllEndpointsAppend(a: seq<Option<ApiPage>>, b: seq<Option<ApiPage>>)
    ensures AllEndpoints(a + b) == AllEndpoints(a) + AllEndpoints(b)
  {
    if a == [] {
      assert a + b == b;
    } else {
      var head := match a[0] case None => [] case Some(p) => p.endpoints;
      assert (a + b)[0] == a[0] && (a + b)[1..] == a[1..] + b;
      AllEndpointsAppend(a[1..], b);
      calc {
        AllEndpoints(a + b);
        head + AllEndpoints(a[1..] + b);
        head + (AllEndpoints(a[1..]) + AllEndpoints(b));
        (head + AllEndpoints(a[1..])) + AllEndpoints(b);
      }
    }
  }

  /** A page that could not be read contributes nothing; a page that could
      contributes all its endpoints. */
  lemma AllEndpointsOf(pages: seq<Option<ApiPage>>)
    ensures forall i, e :: 0 <= i < |pages| && pages[i].Some? && e in pages[i].value.endpoints ==>
              e in AllEndpoints(pages)
    ensures forall e :: e in AllEndpoints(pages) ==>
              exists i :: 0 <= i < |pages| && pages[i].Some? && e in pages[i].value.endpoints
  {
    if pages != [] {
      AllEndpointsOf(pages[1..]);
      forall i, e | 0 <= i < |pages| && pages[i].Some? && e in pages[i].value.endpoints
        ensures e in AllEndpoints(pages)
      {
        if i > 0 { assert pages[i] == pages[1..][i - 1]; }
      }
      forall e | e in AllEndpoints(pages)
        ensures exists i :: 0 <= i < |pages| && pages[i].Some? && e in pages[i].value.endpoints
      {
        if e !in AllEndpoints(pages[1..]) {
          assert pages[0].Some? && e in pages[0].value.endpoints;
        } else {
          var i :| 0 <= i < |pages[1..]| && pages[1..][i].Some? && e in pages[1..][i].value.endpoints;
          assert pages[i + 1] == pages[1..][i];
        }
      }
    }
  }

  /** The lower-cased query occurs in the lower-cased path or the lower-cased
      description. */
  predicate Matches(query: string, e: ApiEndpoint) {
    Contains(Lower(e.path), Lower(query)) || Contains(Lower(e.description), Lower(query))
  }

  /** The results for `query` among `endpoints`, in order. */
  function Search(query: string, endpoints: seq<ApiEndpoint>): seq<Hit> {
    if endpoints == [] then []
    else (if Matches(query, endpoints[0]) then [HitOf(endpoints[0])] else []) + Search(query, endpoints[1..])
  }

  lemma {:induction false} SearchAppend(query: string, a: seq<ApiEndpoint>, b: seq<ApiEndpoint>)
    ensures Search(query, a + b) == Search(query, a) + Search(query, b)
  {
    if a == [] {
      assert a + b == b;
    } else {
      assert (a + b)[0] == a[0] && (a + b)[1..] == a[1..] + b;
      SearchAppend(query, a[1..], b);
      var head := if Matches(query, a[0]) then [HitOf(a[0])] else [];
      calc {
        Search(query, a + b);
        head + Search(query, a[1..] + b);
        head + (Search(query, a[1..]) + Search(query, b));
        (head + Search(query, a[1..])) + Search(query, b);
      }
    }
  }

  lemma SearchSingle(query: string, e: ApiEndpoint)
    ensures Search(query, [e]) == if Matches(query, e) then [HitOf(e)] else []
  {
    assert [e][1..] == [];
  }

  /** Every result is the hit of a matching endpoint, and every matching
      endpoint yields its hit. */
  lemma {:induction false} SearchSound(query: string, endpoints: seq<ApiEndpoint>)
    ensures forall h :: h in Search(query, endpoints) ==>
              exists e :: e in endpoints && Matches(query, e) && h == HitOf(e)
    ensures forall e :: e in endpoints && Matches(query, e) ==> HitOf(e) in Search(query, endpoints)
  {
    if endpoints != [] {
      SearchSound(query, endpoints[1..]);
      forall h | h in Search(query, endpoints)
        ensures exists e :: e in endpoints && Matches(query, e) && h == HitOf(e)
      {
        if h !in Search(query, endpoints[1..]) {
          assert endpoints[0] in endpoints;
        } else {
          var e :| e in endpoints[1..] && Matches(query, e) && h == HitOf(e);
          assert e in endpoints;
        }
      }
    }
  }

  /** One result per matching endpoint: the number of results is the number
      of matching endpoints. */
  lemma {:induction false} SearchCount(query: string, endpoints: seq<ApiEndpoint>)
    ensures |Search(query, endpoints)| == |Filter((e: ApiEndpoint) => Matches(query, e), endpoints)|
  {
    if endpoints != [] {
      SearchCount(query, endpoints[1..]);
    }
  }

  /** The empty query is in every string, so it finds every endpoint. */
  lemma {:induction false} EmptyQueryMatchesAll(endpoints: seq<ApiEndpoint>)
    ensures Search("", endpoints) == Map(HitOf, endpoints)
  {
    if endpoints != [] {
      assert Lower("") == "";
      ContainsEmpty(Lower(endpoints[0].path));
      EmptyQueryMatchesAll(endpoints[1..]);
    }
  }

  /** `api_docs(query)`: the results of the search and their number. */
  method ApiDocs(query: string, pages: seq<Option<ApiPage>>) returns (results: seq<Hit>, total: nat)
    ensures results == Search(query, AllEndpoints(pages))
    ensures total == |results|
  {
    results := [];
    var i := 0;
    while i < |pages|
      invariant 0 <= i <= |pages|
      invariant results == Search(query, AllEndpoints(pages[..i]))
    {
      AllEndpointsStep(pages, i);
      if pages[i].Some? {
        var endpoints := pages[i].value.endpoints;
        var j := 0;
        assert AllEndpoints(pages[..i]) + endpoints[..0] == AllEndpoints(pages[..i]);
        while j < |endpoints|
          invariant 0 <= j <= |endpoints|
          invariant results == Search(query, AllEndpoints(pages[..i]) + endpoints[..j])
        {
          SearchStep(query, AllEndpoints(pages[..i]), endpoints, j);
          if Matches(query, endpoints[j]) {
            results := results + [HitOf(endpoints[j])];
          }
          j := j + 1;
        }
        assert endpoints[..j] == endpoints;
        assert AllEndpoints(pages[..i + 1]) == AllEndpoints(pages[..i]) + endpoints;
      } else {
        assert AllEndpoints(pages[..i]) + [] == AllEndpoints(pages[..i]);
      }
      assert results == Search(query, AllEndpoints(pages[..i + 1]));
      i := i + 1;
    }
    assert pages[..i] == pages;
    total := |results|;
  }

  lemma AllEndpointsStep(pages: seq<Option<ApiPage>>, i: int)
    requires 0 <= i < |pages|
    ensures AllEndpoints(pages[..i + 1])
            == AllEndpoints(pages[..i]) + match pages[i] case None => [] case Some(p) => p.endpoints
  {
    assert pages[..i + 1] == pages[..i] + [pages[i]];
    AllEndpointsAppend(pages[..i], [pages[i]]);
    assert [pages[i]][1..] == [];
  }

  lemma SearchStep(query: string, before: seq<ApiEndpoint>, endpoints: seq<ApiEndpoint>, j: int)
    requires 0 <= j < |endpoints|
    ensures Search(query, before + endpoints[..j + 1])
            == Search(query, before + endpoints[..j]) + if Matches(query, endpoints[j]) then [HitOf(endpoints[j])] else []
  {
    assert before + endpoints[..j + 1] == (before + endpoints[..j]) + [endpoints[j]];
    SearchAppend(query, before + endpoints[..j], [endpoints[j]]);
    SearchSingle(query, endpoints[j]);
  }

  // ---- `api_endpoint(url)` and `api_schema(url)` ----

  /** The first endpoint, in page then endpoint order, whose `url` is `url`. */
  function FindEndpoint(url: string, pages: seq<Option<ApiPage>>): Option<ApiEndpoint> {
    if pages == [] then None
    else
      match (match pages[0] case None => None case Some(p) => EndpointIn(url, p.endpoints))
      case Some(e) => Some(e)
      case None => FindEndpoint(url, pages[1..])
  }

  function EndpointIn(url: string, endpoints: seq<ApiEndpoint>): Option<ApiEndpoint> {
    if endpoints == [] then None
    else if endpoints[0].url == url then Some(endpoints[0])
    else EndpointIn(url, endpoints[1..])
  }

  /** The first schema, in page then schema order, whose `url` is `url`. */
  function FindSchema(url: string, pages: seq<Option<ApiPage>>): Option<ApiSchema> {
    if pages == [] then None
    else
      match (match pages[0] case None => None case Some(p) => SchemaIn(url, p.schemas))
      case Some(s) => Some(s)
      case None => FindSchema(url, pages[1..])
  }

  function SchemaIn(url: string, schemas: seq<ApiSchema>): Option<ApiSchema> {
    if schemas == [] then None
    else if schemas[0].url == url then Some(schemas[0])
    else SchemaIn(url, schemas[1..])
  }

  /** `api_endpoint(url)`: pages in order, each page's endpoints in order,
      returning at the first endpoint whose `url` is `url`. */
  method LookupEndpoint(url: string, pages: seq<Option<ApiPage>>) returns (r: Option<ApiEndpoint>)
    ensures r == FindEndpoint(url, pages)
  {
    var i := 0;
    while i < |pages|
      invariant 0 <= i <= |pages|
      invariant FindEndpoint(url, pages) == FindEndpoint(url, pages[i..])
    {
      assert pages[i..][0] == pages[i] && pages[i..][1..] == pages[i + 1..];
      if pages[i].Some? {
        var endpoints := pages[i].value.endpoints;
        var j := 0;
        while j < |endpoints|
          invariant 0 <= j <= |endpoints|
          invariant EndpointIn(url, endpoints) == EndpointIn(url, endpoints[j..])
        {
          assert endpoints[j..][0] == endpoints[j] && endpoints[j..][1..] == endpoints[j + 1..];
          if endpoints[j].url == url {
            return Some(endpoints[j]);
          }
          j := j + 1;
        }
        assert endpoints[j..] == [];
      }
      i := i + 1;
    }
    assert pages[i..] == [];
    return None;
  }

  /** `api_schema(url)`: the same walk over each page's schemas. */
  method LookupSchema(url: string, pages: seq<Option<ApiPage>>) returns (r: Option<ApiSchema>)
    ensures r == FindSchema(url, pages)
  {
    var i := 0;
    while i < |pages|
      invariant 0 <= i <= |pages|
      invariant FindSchema(url, pages) == FindSchema(url, pages[i..])
    {
      assert pages[i..][0] == pages[i] && pages[i..][1..] == pages[i + 1..];
      if pages[i].Some? {
        var schemas := pages[i].value.schemas;
        var j := 0;
        while j < |schemas|
          invariant 0 <= j <= |schemas|
          invariant SchemaIn(url, schemas) == SchemaIn(url, schemas[j..])
        {
          assert schemas[j..][0] == schemas[j] && schemas[j..][1..] == schemas[j + 1..];
          if schemas[j].url == url {
            return Some(schemas[j]);
          }
          j := j + 1;
        }
        assert schemas[j..] == [];
      }
      i := i + 1;
    }
    assert pages[i..] == [];
    return None;
  }

  /** The first index of `endpoints` whose `url` is `url`, if any. */
  predicate FirstEndpointAt(url: string, endpoints: seq<ApiEndpoint>, k: int) {
    0 <= k < |endpoints| && endpoints[k].url == url
    && forall j :: 0 <= j < k ==> endpoints[j].url != url
  }

  predicate FirstSchemaAt(url: string, schemas: seq<ApiSchema>, k: int) {
    0 <= k < |schemas| && schemas[k].url == url
    && forall j :: 0 <= j < k ==> schemas[j].url != url
  }

  lemma {:induction false} EndpointInIsFirst(url: string, endpoints: seq<ApiEndpoint>)
    ensures EndpointIn(url, endpoints).None? <==> forall e :: e in endpoints ==> e.url != url
    ensures EndpointIn(url, endpoints).Some? ==>
              exists k :: FirstEndpointAt(url, endpoints, k) && endpoints[k] == EndpointIn(url, endpoints).value
  {
    if endpoints != [] && endpoints[0].url != url {
      EndpointInIsFirst(url, endpoints[1..]);
      if EndpointIn(url, endpoints).Some? {
        var k :| FirstEndpointAt(url, endpoints[1..], k) && endpoints[1..][k] == EndpointIn(url, endpoints).value;
        assert FirstEndpointAt(url, endpoints, k + 1);
      }
    } else if endpoints != [] {
      assert FirstEndpointAt(url, endpoints, 0);
    }
  }

  /** `api_endpoint(url)` returns the first endpoint of the flattened
      endpoint list whose `url` matches, and `None` exactly when none does. */
  lemma {:induction false} FindEndpointIsFirst(url: string, pages: seq<Option<ApiPage>>)
    ensures FindEndpoint(url, pages) == EndpointIn(url, AllEndpoints(pages))
    ensures FindEndpoint(url, pages).None? <==> forall e :: e in AllEndpoints(pages) ==> e.url != url
    ensures FindEndpoint(url, pages).Some? ==>
              exists k :: FirstEndpointAt(url, AllEndpoints(pages), k)
                          && AllEndpoints(pages)[k] == FindEndpoint(url, pages).value
  {
    if pages != [] {
      FindEndpointIsFirst(url, pages[1..]);
      var head := match pages[0] case None => [] case Some(p) => p.endpoints;
      assert AllEndpoints(pages) == head + AllEndpoints(pages[1..]);
      EndpointInAppend(url, head, AllEndpoints(pages[1..]));
    }
    EndpointInIsFirst(url, AllEndpoints(pages));
  }

  lemma {:induction false} EndpointInAppend(url: string, a: seq<ApiEndpoint>, b: seq<ApiEndpoint>)
    ensures EndpointIn(url, a + b) == if EndpointIn(url, a).Some? then EndpointIn(url, a) else EndpointIn(url, b)
  {
    if a == [] {
      assert a + b == b;
    } else {
      assert (a + b)[0] == a[0] && (a + b)[1..] == a[1..] + b;
      EndpointInAppend(url, a[1..], b);
    }
  }

  lemma {:induction false} SchemaInIsFirst(url: string, schemas: seq<ApiSchema>)
    ensures SchemaIn(url, schemas).None? <==> forall s :: s in schemas ==> s.url != url
    ensures SchemaIn(url, schemas).Some? ==>
              exists k :: FirstSchemaAt(url, schemas, k) && schemas[k] == SchemaIn(url, schemas).value
  {
    if schemas != [] && schemas[0].url != url {
      SchemaInIsFirst(url, schemas[1..]);
      if SchemaIn(url, schemas).Some? {
        var k :| FirstSchemaAt(url, schemas[1..], k) && schemas[1..][k] == SchemaIn(url, schemas).value;
        assert FirstSchemaAt(url, schemas, k + 1);
      }
    } else if schemas != [] {
      assert FirstSchemaAt(url, schemas, 0);
    }
  }

  lemma {:induction false} SchemaInAppend(url: string, a: seq<ApiSchema>, b: seq<ApiSchema>)
    ensures SchemaIn(url, a + b) == if SchemaIn(url, a).Some? then SchemaIn(url, a) else SchemaIn(url, b)
  {
    if a == [] {
      assert a + b == b;
    } else {
      assert (a + b)[0] == a[0] && (a + b)[1..] == a[1..] + b;
      SchemaInAppend(url, a[1..], b);
    }
  }

  /** `api_schema(url)` returns the first schema of the flattened schema list
      whose `url` matches, and `None` exactly when none does. */
  lemma {:induction false} FindSchemaIsFirst(url: string, pages: seq<Option<ApiPage>>)
    ensures FindSchema(url, pages) == SchemaIn(url, AllSchemas(pages))
    ensures FindSchema(url, pages).None? <==> forall s :: s in AllSchemas(pages) ==> s.url != url
    ensures FindSchema(url, pages).Some? ==>
              exists k :: FirstSchemaAt(url, AllSchemas(pages), k)
                          && AllSchemas(pages)[k] == FindSchema(url, pages).value
  {
    if pages != [] {
      FindSchemaIsFirst(url, pages[1..]);
      var head := match pages[0] case None => [] case Some(p) => p.schemas;
      assert AllSchemas(pages) == head + AllSchemas(pages[1..]);
      SchemaInAppend(url, head, AllSchemas(pages[1..]));
    }
    SchemaInIsFirst(url, AllSchemas(pages));
  }
}
