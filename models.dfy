/** The stored records of src/storage/models.py. Parameters, responses and
    properties are the records the extractor builds (the Python code keeps
    them as plain dictionaries). Times are seconds since the epoch, as reals. */
module Models {
  import opened Seqs
  import opened Parser

  datatype ApiEndpoint = ApiEndpoint(
    path: string,
    httpMethod: string,
    description: string,
    parameters: seq<Field>,
    responses: seq<Response>,
    url: string)

  datatype ApiSchema = ApiSchema(
    name: string,
    description: string,
    properties: seq<Field>,
    url: string)

  /** `last_crawled` defaults to `None`. */
  datatype ApiPage = ApiPage(
    title: string,
    url: string,
    endpoints: seq<ApiEndpoint>,
    schemas: seq<ApiSchema>,
    content: string,
    lastCrawled: Option<real>)

  /** The dictionary `crawl` hands to `save_site_info`. */
  datatype SiteInfo = SiteInfo(baseUrl: string, title: string, lastCrawled: real)
}
