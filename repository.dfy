/** `ApiRepository` (src/storage/repository.py): one JSON file per page in a
    storage directory, named after the page URL, plus `site_info.json` in the
    same directory. The directory is modelled as a map from file name to the
    document held in that file. */
module Storage {
  import opened Seqs
  import opened Strings
  import opened Models

  // ---- file names ----

  const SiteInfoFile := "site_info.json"

  /** Every character that is not alphanumeric becomes `_`. */
  function Sanitize(s: string): (r: string)
    ensures |r| == |s|
    ensures forall i :: 0 <= i < |s| ==> r[i] == (if IsAlnum(s[i]) then s[i] else '_')
  {
    seq(|s|, i requires 0 <= i < |s| => if IsAlnum(s[i]) then s[i] else '_')
  }

  /** Every `https://`, then every `http://`, removed wherever it occurs. */
  function WithoutSchemes(url: string): string {
    RemoveAll(RemoveAll(url, "https://"), "http://")
  }

  /** `_url_to_filename`: every occurrence of `https://`, then of `http://`, is
      removed, each remaining character kept if alphanumeric and turned into
      `_` otherwise, and `.json` appended. */
  function UrlToFilename(url: string): (r: string)
    ensures |r| == |WithoutSchemes(url)| + 5
    ensures EndsWith(r, ".json")
    ensures AllAlnumOrUnderscore(r[..|r| - 5])
    ensures r[..|r| - 5] == Sanitize(WithoutSchemes(url))
  {
    var r := Sanitize(WithoutSchemes(url)) + ".json";
    assert r[..|r| - 5] == Sanitize(WithoutSchemes(url));
    r
  }

  /** Python's `filename[:-5]`: "" for names shorter than five characters. */
  function DropLast5(s: string): (r: string)
    ensures |r| == if |s| >= 5 then |s| - 5 else 0
    ensures StartsWith(s, r)
  {
    if |s| >= 5 then s[..|s| - 5] else ""
  }

  /** `_filename_to_url`: the name without its last five characters, with
      every `_` turned into `/`, after `https://`. */
  function FilenameToUrl(filename: string): (r: string)
    ensures StartsWith(r, "https://")
    ensures |r| == |DropLast5(filename)| + 8
    ensures '_' !in r[8..]
  {
    var r := "https://" + ReplaceChar(DropLast5(filename), '_', '/');
    assert r[8..] == ReplaceChar(DropLast5(filename), '_', '/');
    r
  }

  /** A name made of alphanumerics and `_` ending in `.json` (every name
      `_url_to_filename` produces) survives the trip to a URL and back. */
  lemma FilenameRoundTrip(filename: string)
    requires EndsWith(filename, ".json") && AllAlnumOrUnderscore(filename[..|filename| - 5])
    ensures UrlToFilename(FilenameToUrl(filename)) == filename
  {
    var stem := filename[..|filename| - 5];
    var rest := ReplaceChar(stem, '_', '/');
    var url := "https://" + rest;
    assert ':' !in rest by {
      forall i | 0 <= i < |rest| ensures rest[i] != ':' {
        assert IsAlnum(stem[i]) || stem[i] == '_';
      }
    }
    assert url[..8] == "https://" && url[8..] == rest;
    assert "https://"[5] == ':';
    RemoveAllAbsent(rest, "https://", ':');
    assert RemoveAll(url, "https://") == rest;
    assert "http://"[4] == ':';
    RemoveAllAbsent(rest, "http://", ':');
    assert Sanitize(rest) == stem;
    assert filename == stem + ".json";
  }

  /** Names `_url_to_filename` produces are fixed points of the round trip. */
  lemma UrlFilenameRoundTrip(url: string)
    ensures UrlToFilename(FilenameToUrl(UrlToFilename(url))) == UrlToFilename(url)
  {
    FilenameRoundTrip(UrlToFilename(url));
  }

  /** Two `https://` URLs whose remainders hold no `:` and differ only where
      both have a non-alphanumeric character get the same file name. */
  lemma PunctuationCollides(a: string, b: string)
    requires |a| == |b| && ':' !in a && ':' !in b
    requires forall i :: 0 <= i < |a| ==> a[i] == b[i] || (!IsAlnum(a[i]) && !IsAlnum(b[i]))
    ensures UrlToFilename("https://" + a) == UrlToFilename("https://" + b)
  {
    StripScheme(a);
    StripScheme(b);
  }

  lemma StripScheme(rest: string)
    requires ':' !in rest
    ensures WithoutSchemes("https://" + rest) == rest
  {
    var url := "https://" + rest;
    assert url[..8] == "https://" && url[8..] == rest;
    assert "https://"[5] == ':';
    RemoveAllAbsent(rest, "https://", ':');
    assert "http://"[4] == ':';
    RemoveAllAbsent(rest, "http://", ':');
  }

  /** The page at `https://site.info` is stored in the site-information file,
      and reading it back while that file holds the site record fails. */
  lemma SiteInfoCollision(files: map<string, Doc>, info: SiteInfo)
    ensures UrlToFilename("https://site.info") == SiteInfoFile
    ensures Lookup(files[SiteInfoFile := SiteDoc(info)], "https://site.info") == NotAPage
  {
    SiteInfoFileName();
  }

  lemma SiteInfoFileName()
    ensures UrlToFilename("https://site.info") == SiteInfoFile
  {
    SiteInfoHost();
    HttpsFilename("site.info");
    SanitizeSiteInfo();
    assert "https://" + "site.info" == "https://site.info";
    assert "site_info" + ".json" == SiteInfoFile;
  }

  /** The file name of an `https://` URL whose remainder holds no `:`. */
  lemma HttpsFilename(rest: string)
    requires ':' !in rest
    ensures UrlToFilename("https://" + rest) == Sanitize(rest) + ".json"
  {
    StripScheme(rest);
  }

  lemma SiteInfoHost()
    ensures ':' !in "site.info"
  {
    var host := "site.info";
    forall i | 0 <= i < |host| ensures host[i] != ':' {
    }
  }

  lemma SanitizeSiteInfo()
    ensures Sanitize("site.info") == "site_info"
  {
    var r := Sanitize("site.info");
    assert !IsAlnum('.');
    forall i | 0 <= i < 9 ensures r[i] == "site_info"[i] {
    }
  }

  // ---- the store ----

  /** What a file holds: a page as `save_page` writes it (its `last_crawled`
      is not written) or the site record. */
  datatype Doc = PageDoc(page: ApiPage) | SiteDoc(info: SiteInfo)

  /** `get_page`'s outcome: no file, the page read back, or the `KeyError`
      raised when the file holds the site record. */
  datatype PageLookup = NotFound | Found(page: ApiPage) | NotAPage

  /** The fields `save_page` writes: `last_crawled` comes back as `None`. */
  function Stored(p: ApiPage): (r: ApiPage)
    ensures r.title == p.title && r.url == p.url && r.content == p.content
    ensures r.endpoints == p.endpoints && r.schemas == p.schemas
    ensures r.lastCrawled == None
  {
    p.(lastCrawled := None)
  }

  /** `get_page(url)` against the files `files`. */
  function Lookup(files: map<string, Doc>, url: string): (r: PageLookup)
    ensures UrlToFilename(url) !in files <==> r == NotFound
    ensures r.Found? ==> files[UrlToFilename(url)] == PageDoc(r.page)
    ensures UrlToFilename(url) in files && files[UrlToFilename(url)].PageDoc?
            ==> r == Found(files[UrlToFilename(url)].page)
    ensures UrlToFilename(url) in files && files[UrlToFilename(url)].SiteDoc? <==> r == NotAPage
  {
    var name := UrlToFilename(url);
    if name !in files then NotFound
    else match files[name]
      case PageDoc(p) => Found(p)
      case SiteDoc(_) => NotAPage
  }

  /** A page saved after another whose URL gets the same file name replaces
      it: reading back the first URL yields the second page. */
  lemma LaterSaveOverwrites(files: map<string, Doc>, p: ApiPage, q: ApiPage)
    requires UrlToFilename(p.url) == UrlToFilename(q.url)
    ensures Lookup(files[UrlToFilename(p.url) := PageDoc(Stored(p))][UrlToFilename(q.url) := PageDoc(Stored(q))], p.url)
            == Found(Stored(q))
  {
  }

  /** Saving the page at `https://` + `b` after the page at `https://` + `a`,
      where the two differ only in punctuation, loses the first page: its
      URL now reads back the second. */
  lemma PunctuationOverwrites(files: map<string, Doc>, a: string, b: string, p: ApiPage, q: ApiPage)
    requires |a| == |b| && ':' !in a && ':' !in b
    requires forall i :: 0 <= i < |a| ==> a[i] == b[i] || (!IsAlnum(a[i]) && !IsAlnum(b[i]))
    requires p.url == "https://" + a && q.url == "https://" + b
    ensures Lookup(files[UrlToFilename(p.url) := PageDoc(Stored(p))][UrlToFilename(q.url) := PageDoc(Stored(q))], p.url)
            == Found(Stored(q))
  {
    PunctuationCollides(a, b);
    LaterSaveOverwrites(files, p, q);
  }

  predicate IsPageFile(name: string) {
    EndsWith(name, ".json") && name != SiteInfoFile
  }

  /** Every file was written by `save_page` under its page's URL, or by
      `save_site_info` under `site_info.json`. */
  predicate ValidFiles(files: map<string, Doc>) {
    forall name :: name in files ==>
      match files[name]
      case PageDoc(p) => name == UrlToFilename(p.url)
      case SiteDoc(_) => name == SiteInfoFile
  }

  /** A page file in a valid directory survives the trip to a URL and back. */
  lemma PageFileRoundTrip(files: map<string, Doc>, name: string)
    requires ValidFiles(files) && name in files && IsPageFile(name)
    ensures UrlToFilename(FilenameToUrl(name)) == name
  {
    match files[name]
    case PageDoc(p) =>
      UrlFilenameRoundTrip(p.url);
    case SiteDoc(_) =>
      assert false;
  }

  /** The URLs of the page files in `listing` are exactly those of the page
      files in `files`; in a valid directory no URL is listed twice. */
  lemma PageUrls(files: map<string, Doc>, listing: seq<string>)
    requires Distinct(listing)
    requires forall name :: name in listing <==> name in files
    ensures forall url :: url in Map(FilenameToUrl, Filter(IsPageFile, listing)) <==>
              exists name :: name in files && IsPageFile(name) && url == FilenameToUrl(name)
    ensures ValidFiles(files) ==> Distinct(Map(FilenameToUrl, Filter(IsPageFile, listing)))
  {
    var names := Filter(IsPageFile, listing);
    var r := Map(FilenameToUrl, names);
    forall url | url in r ensures exists name :: name in files && IsPageFile(name) && url == FilenameToUrl(name) {
      var i :| 0 <= i < |r| && r[i] == url;
      assert names[i] in names;
    }
    forall name | name in files && IsPageFile(name) ensures FilenameToUrl(name) in r {
      var i :| 0 <= i < |names| && names[i] == name;
      assert r[i] == FilenameToUrl(name);
    }
    FilterDistinct(IsPageFile, listing);
    if ValidFiles(files) {
      forall i, j | 0 <= i < j < |r| ensures r[i] != r[j] {
        assert names[i] in names && names[j] in names;
        PageFileRoundTrip(files, names[i]);
        PageFileRoundTrip(files, names[j]);
      }
    }
  }

  class ApiRepository {
    /** The storage directory: file name to the document in that file. */
    var files: map<string, Doc>

    predicate Valid()
      reads this
    {
      ValidFiles(files)
    }

    /** Opens the storage directory with the files it already holds. */
    constructor(initial: map<string, Doc>)
      requires ValidFiles(initial)
      ensures Valid() && files == initial
    {
      files := initial;
    }

    /** `save_site_info`: overwrites `site_info.json`. */
    method SaveSiteInfo(info: SiteInfo)
      requires Valid()
      modifies this
      ensures Valid()
      ensures files == old(files)[SiteInfoFile := SiteDoc(info)]
      ensures GetSiteInfo() == Some(SiteDoc(info))
    {
      files := files[SiteInfoFile := SiteDoc(info)];
    }

    /** `get_site_info`: whatever `site_info.json` holds, if it exists. */
    function GetSiteInfo(): (r: Option<Doc>)
      reads this
      ensures SiteInfoFile !in files <==> r == None
      ensures r.Some? ==> r.value == files[SiteInfoFile]
    {
      if SiteInfoFile in files then Some(files[SiteInfoFile]) else None
    }

    /** `save_page`: writes the page's file, replacing any earlier one. */
    method SavePage(p: ApiPage)
      requires Valid()
      modifies this
      ensures Valid()
      ensures files == old(files)[UrlToFilename(p.url) := PageDoc(Stored(p))]
      ensures GetPage(p.url) == Found(Stored(p))
    {
      files := files[UrlToFilename(p.url) := PageDoc(Stored(p))];
    }

    /** `get_page` */
    function GetPage(url: string): (r: PageLookup)
      reads this
      ensures r == Lookup(files, url)
      ensures UrlToFilename(url) !in files <==> r == NotFound
      ensures r.Found? ==> files[UrlToFilename(url)] == PageDoc(r.page)
      ensures UrlToFilename(url) in files && files[UrlToFilename(url)].PageDoc?
              ==> r == Found(files[UrlToFilename(url)].page)
      ensures UrlToFilename(url) in files && files[UrlToFilename(url)].SiteDoc? <==> r == NotAPage
    {
      Lookup(files, url)
    }

    /** `list_pages`, given `os.listdir`'s order of the file names. */
    function ListPages(listing: seq<string>): (r: seq<string>)
      reads this
      requires Distinct(listing)
      requires forall name :: name in listing <==> name in files
      ensures forall url :: url in r <==>
                exists name :: name in files && IsPageFile(name) && url == FilenameToUrl(name)
      ensures Valid() ==> Distinct(r)
    {
      PageUrls(files, listing);
      Map(FilenameToUrl, Filter(IsPageFile, listing))
    }
  }

  /** A directory without `site_info.json` has no site record; once one is
      saved, it is read back. */
  method SiteInfoLifecycle(initial: map<string, Doc>, info: SiteInfo) returns (before: Option<Doc>, after: Option<Doc>)
    requires ValidFiles(initial) && SiteInfoFile !in initial
    ensures before == None
    ensures after == Some(SiteDoc(info))
  {
    var repo := new ApiRepository(initial);
    before := repo.GetSiteInfo();
    repo.SaveSiteInfo(info);
    after := repo.GetSiteInfo();
  }

  /** Every URL `list_pages` yields leads `get_page` back to a stored page. */
  lemma ListedPagesAreFound(repo: ApiRepository, listing: seq<string>)
    requires repo.Valid()
    requires Distinct(listing)
    requires forall name :: name in listing <==> name in repo.files
    ensures forall url :: url in repo.ListPages(listing) ==> repo.GetPage(url).Found?
  {
    forall url | url in repo.ListPages(listing) ensures repo.GetPage(url).Found? {
      var name :| name in repo.files && IsPageFile(name) && url == FilenameToUrl(name);
      PageFileRoundTrip(repo.files, name);
      match repo.files[name]
      case PageDoc(p) =>
      case SiteDoc(_) =>
        assert false;
    }
  }
}
