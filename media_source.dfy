/**
 * The media source plugin for Libsyn podcasts (src/Plugin/media/Source/Libsyn.php):
 * getData scrapes the episode page once per plugin instance, getMetadata answers attribute
 * requests from that data, and getLocalThumbnailUri keeps a local copy of the cover image.
 */
module MediaSource {
  import opened Php
  import opened Strings
  import opened Scrape
  import opened Embed
  import opened Services
  import opened XPath

  /** The episode path marker this variant searches the decoded src for. */
  const EpisodeMarker := "/episode/id/"

  /**
   * The og:image content with its query string cut off, as strtok on `?` does: unset exactly
   * when the page has no og:image meta, never NULL, and a non-empty string without `?` or FALSE.
   */
  function ThumbnailUrl(dom: Dom): (r: Option<Value>)
    ensures r.None? <==> forall j :: 0 <= j < |dom| ==> !Selects(OgImage, dom[j])
    ensures r.Some? ==> r.value != Null && (r.value.Str? ==> r.value.s != [] && '?' !in r.value.s)
  {
    match OgImageContent(dom)
    case None => None
    case Some(content) => Some(StrTok(content, '?'))
  }

  /** The text of the last paragraph the date query selects, '' when it selects none. */
  function PodcastDate(dom: Dom): (r: string)
    ensures LastIndex(dom, DateParagraph).None? ==> r == []
    ensures LastIndex(dom, DateParagraph).Some? ==> r == dom[LastIndex(dom, DateParagraph).value].text
  {
    match DateParagraphText(dom)
    case None => ""
    case Some(text) => text
  }

  /** One more iteration of the date loop. */
  lemma PodcastDateStep(dom: Dom, i: nat)
    requires i < |dom|
    ensures PodcastDate(dom[..i + 1]) == if Selects(DateParagraph, dom[i]) then dom[i].text else PodcastDate(dom[..i])
  {
    LastStep(dom, i, DateParagraph);
  }

  /**
   * What getData stores for a page: never NULL, always with its podcast date, so never an
   * empty array.
   */
  function Extract(dom: Dom): (r: Option<Data>)
    ensures r.Some? && r.value.podcastDate == Some(PodcastDate(dom))
    ensures NonEmpty(r)
  {
    Assemble(EmbedHtml(dom), ThumbnailUrl(dom), Some(PodcastDate(dom)))
  }

  /** Without a player iframe the html slot stays unset, so the `html` attribute is ''. */
  lemma NoPlayerNoHtml(dom: Dom)
    requires forall j :: 0 <= j < |dom| ==> !Selects(PlayerIframe, dom[j])
    ensures Extract(dom).value.html.None? && HtmlSubject(Extract(dom).value) == ""
  {
  }

  /**
   * The stored thumbnail URL never has a `?`; for content that does not start with `?` it is
   * the part before the first `?`, and FALSE when the content is empty.
   */
  lemma ThumbnailUrlHasNoQuery(dom: Dom)
    ensures ThumbnailUrl(dom).Some? && ThumbnailUrl(dom).value.Str? ==> '?' !in ThumbnailUrl(dom).value.s
    ensures OgImageContent(dom) == Some("") ==> ThumbnailUrl(dom) == Some(False)
    ensures OgImageContent(dom).Some? && OgImageContent(dom).value != "" && OgImageContent(dom).value[0] != '?' ==>
              ThumbnailUrl(dom) == Some(Str(TakeWhile(OgImageContent(dom).value, Except('?'))))
  {
  }

  /** The `episode_id` attribute: NULL when there is no id. */
  function EpisodeIdValue(d: Data): (v: Value)
    ensures v != False
    ensures v.Str? ==> forall i :: 0 <= i < |v.s| ==> InClass(v.s[i], Digit)
  {
    match EpisodeId(HtmlSubject(d), EpisodeMarker)
    case None => Null
    case Some(id) => Str(id)
  }

  /**
   * A player embed whose first src is `<prefix>/episode/id/<digits><rest>`, with the marker's
   * first occurrence there and nothing for urldecode to change, has those digits as its id.
   */
  lemma EpisodeIdOfPlayer(d: Data, before: string, prefix: string, id: string, rest: string, after: string)
    requires d.html == Some(before + SrcOpen + prefix + EpisodeMarker + id + rest + ['"'] + after)
    requires forall j :: 0 <= j < |before| ==> !OccursAt(before + SrcOpen, SrcOpen, j)
    requires forall j :: 0 <= j < |prefix| ==> !OccursAt(prefix + EpisodeMarker + id + rest, EpisodeMarker, j)
    requires forall ch :: ch in prefix + id + rest ==> ch != '"' && ch != '%' && ch != '+'
    requires forall i :: 0 <= i < |id| ==> InClass(id[i], Digit)
    requires rest == [] || !InClass(rest[0], Digit)
    ensures EpisodeIdValue(d) == Str(id)
  {
    assert forall ch :: ch in prefix + EpisodeMarker + id + rest ==> ch in prefix + id + rest || ch in EpisodeMarker;
    assert '%' !in EpisodeMarker && '+' !in EpisodeMarker && '"' !in EpisodeMarker;
    assert HtmlSubject(d) == before + SrcOpen + (prefix + EpisodeMarker + id + rest) + ['"'] + after;
    EpisodeIdOfPath(before, prefix, EpisodeMarker, id, rest, after);
  }

  /** No `src="` starts inside the opening `<iframe style="border: none" ` of the example. */
  lemma ExampleOpeningHasNoSrc(before: string)
    requires before == "<iframe style=\"border: none\" "
    ensures forall j :: 0 <= j < |before| ==> !OccursAt(before + SrcOpen, SrcOpen, j)
  {
    NoOccurrenceBySecond(before, SrcOpen, []);
    assert before + SrcOpen + [] == before + SrcOpen;
  }

  /** The marker does not start inside the example's `https://play.libsyn.com`. */
  lemma ExampleHostHasNoMarker(prefix: string, tail: string)
    requires prefix == "https://play.libsyn.com"
    ensures forall j :: 0 <= j < |prefix| ==> !OccursAt(prefix + EpisodeMarker + tail, EpisodeMarker, j)
  {
    NoOccurrenceBySecond(prefix, EpisodeMarker, tail);
  }

  /**
   * The player embed `<iframe style="border: none" src="https://play.libsyn.com/episode/id/1234?autoplay=false">`
   * has episode id 1234 (the markup is given piece by piece).
   */
  lemma PlayerEmbedExample(d: Data)
    requires d.html == Some("<iframe style=\"border: none\" " + "src=\"" + "https://play.libsyn.com" + "/episode/id/" +
                            "1234" + "?autoplay=false" + "\"" + "></iframe>")
    ensures EpisodeIdValue(d) == Str("1234")
  {
    var before := "<iframe style=\"border: none\" ";
    var prefix := "https://play.libsyn.com";
    var id := "1234";
    var rest := "?autoplay=false";
    ExampleOpeningHasNoSrc(before);
    ExampleHostHasNoMarker(prefix, id + rest);
    assert prefix + EpisodeMarker + (id + rest) == prefix + EpisodeMarker + id + rest;
    EpisodeIdOfPlayer(d, before, prefix, id, rest, "></iframe>");
  }

  /** "png", spelled as characters: compared against a literal, it made the thumbnail proofs far costlier. */
  const Png: string := ['p', 'n', 'g']

  /** The local file's extension: the remote path's, or png when that is empty ('' or '0'). */
  function ThumbnailExtension(url: string): (ext: string)
    ensures ext != [] && '.' !in ext && '/' !in ext
    ensures ext == Png || ext == Extension(url)
    ensures Extension(url) != [] && Extension(url) != ['0'] ==> ext == Extension(url)
    ensures Extension(url) == [] || Extension(url) == ['0'] ==> ext == Png
  {
    var e := Extension(url);
    if e == [] || e == ['0'] then Png else e
  }

  /**
   * The thumbnail directory, a slash, the hash of the URL, a dot and the extension: a path
   * PHP reads as true, so a saved copy is always the answer over the parent's thumbnail_url.
   */
  function LocalThumbnailUri(directory: string, hash: string -> string, url: string): (path: string)
    ensures Truthy(Str(path))
  {
    JoinedPathIsTruthy(directory, hash(url) + ['.'] + ThumbnailExtension(url));
    assert directory + ['/'] + (hash(url) + ['.'] + ThumbnailExtension(url)) ==
           directory + ['/'] + hash(url) + ['.'] + ThumbnailExtension(url);
    directory + ['/'] + hash(url) + ['.'] + ThumbnailExtension(url)
  }

  /**
   * The local copy is named after the hash and keeps the remote extension (png by default):
   * its basename is `hash.ext` and pathinfo reads `ext` back from it. The URL-safe base64 of
   * Crypt::hashBase64 has neither `/` nor `.`.
   */
  lemma LocalUriKeepsExtension(directory: string, hash: string -> string, url: string)
    requires '/' !in hash(url) && '.' !in hash(url)
    ensures Basename(LocalThumbnailUri(directory, hash, url)) == hash(url) + ['.'] + ThumbnailExtension(url)
    ensures Extension(LocalThumbnailUri(directory, hash, url)) == ThumbnailExtension(url)
  {
    JoinedFileName(directory, hash(url), ThumbnailExtension(url));
  }

  class Libsyn {
    /** The scraped data (the plugin's libsyn property); NULL until getData first runs. */
    var libsyn: Option<Data>
    const httpClient: HttpClient
    const fileSystem: FileSystem
    /** The HTML parser (DOMDocument, errors suppressed), which this model does not implement. */
    const parse: string -> Dom
    /** Drupal's URL-safe base64 hash, which this model does not implement. */
    const hash: string -> string
    /** The thumbnail_destination setting of media_entity_libsyn.settings. */
    const thumbnailDestination: string
    /** MediaSourceBase::getMetadata, the parent class's answer for an attribute. */
    const parentMetadata: string -> Value
    /** Date parsing and year-month-day formatting, which this model does not implement. */
    const formatDate: string -> Value

    /** getData always sets podcast_date, so stored data is never an empty array. */
    predicate Valid()
      reads this
    {
      libsyn.Some? ==> libsyn.value.podcastDate.Some?
    }

    constructor (httpClient: HttpClient, fileSystem: FileSystem, parse: string -> Dom, hash: string -> string,
                 thumbnailDestination: string, parentMetadata: string -> Value, formatDate: string -> Value)
      ensures Valid() && libsyn == None
      ensures this.httpClient == httpClient && this.fileSystem == fileSystem && this.parse == parse
      ensures this.hash == hash && this.thumbnailDestination == thumbnailDestination
      ensures this.parentMetadata == parentMetadata && this.formatDate == formatDate
    {
      libsyn := None;
      this.httpClient := httpClient;
      this.fileSystem := fileSystem;
      this.parse := parse;
      this.hash := hash;
      this.thumbnailDestination := thumbnailDestination;
      this.parentMetadata := parentMetadata;
      this.formatDate := formatDate;
    }

    /** Scrapes the page at `url` the first time; afterwards returns the stored data, whatever `url` is. */
    method GetData(url: string) returns (data: Option<Data>)
      requires Valid()
      modifies this, httpClient
      ensures Valid() && data == libsyn
      ensures old(libsyn).Some? ==> libsyn == old(libsyn) && httpClient.requests == old(httpClient.requests)
      ensures old(libsyn).None? ==> libsyn == Extract(parse(httpClient.web(url).body))
      ensures old(libsyn).None? ==> httpClient.requests == old(httpClient.requests) + [url]
    {
      if libsyn.None? {
        var response := httpClient.Get(url);
        var dom := parse(response.body);
        ScanEmbed(dom);
        ScanThumbnail(dom);
        ScanDate(dom);
      }
      data := libsyn;
    }

    /** The first loop of getData: the markup of the last iframe whose src names the player host. */
    method ScanEmbed(dom: Dom)
      requires libsyn.None?
      modifies this
      ensures libsyn == Assemble(EmbedHtml(dom), None, None)
    {
      for i := 0 to |dom|
        invariant libsyn == Assemble(EmbedHtml(dom[..i]), None, None)
      {
        if dom[i].tag == "iframe" {
          var src := Attribute(dom[i], "src");
          if Strpos(src, PlayerHost, 0).Some? {
            libsyn := Some(Filled(libsyn).(html := Some(dom[i].html)));
          }
        }
        LastStep(dom, i, PlayerIframe);
      }
      assert dom[..|dom|] == dom;
    }

    /** The second loop: the og:image content of the last such meta, cut at its first `?`. */
    method ScanThumbnail(dom: Dom)
      requires libsyn == Assemble(EmbedHtml(dom), None, None)
      modifies this
      ensures libsyn == Assemble(EmbedHtml(dom), ThumbnailUrl(dom), None)
    {
      for i := 0 to |dom|
        invariant libsyn == Assemble(EmbedHtml(dom), ThumbnailUrl(dom[..i]), None)
      {
        if dom[i].tag == "meta" {
          var property := Attribute(dom[i], "property");
          if property == "og:image" {
            libsyn := Some(Filled(libsyn).(thumbnailUrl := Some(StrTok(Attribute(dom[i], "content"), '?'))));
          }
        }
        LastStep(dom, i, OgImage);
      }
      assert dom[..|dom|] == dom;
    }

    /** The date: '' first, then the text of the last paragraph the date query selects. */
    method ScanDate(dom: Dom)
      requires libsyn == Assemble(EmbedHtml(dom), ThumbnailUrl(dom), None)
      modifies this
      ensures libsyn == Extract(dom)
    {
      libsyn := Some(Filled(libsyn).(podcastDate := Some("")));
      for i := 0 to |dom|
        invariant libsyn == Some(Data(EmbedHtml(dom), ThumbnailUrl(dom), Some(PodcastDate(dom[..i]))))
      {
        if dom[i].tag == "p" && HasDateClass(Attribute(dom[i], "class")) {
          libsyn := Some(Filled(libsyn).(podcastDate := Some(dom[i].text)));
        }
        PodcastDateStep(dom, i);
      }
      assert dom[..|dom|] == dom;
    }

    /**
     * The local copy of a remote thumbnail: its path when it exists or was just downloaded,
     * NULL when there is no URL, the directory cannot be prepared, or the download or save fails.
     */
    method GetLocalThumbnailUri(remote: Value) returns (r: Value)
      modifies httpClient, fileSystem
      ensures !Truthy(remote) ==> r == Null && unchanged(httpClient, fileSystem)
      ensures Truthy(remote) && old(fileSystem.Present(LocalThumbnailUri(thumbnailDestination, hash, remote.s))) ==>
                r == Str(LocalThumbnailUri(thumbnailDestination, hash, remote.s)) && unchanged(httpClient, fileSystem)
      ensures Truthy(remote) && !old(fileSystem.Present(LocalThumbnailUri(thumbnailDestination, hash, remote.s))) ==>
                if thumbnailDestination !in fileSystem.preparable then
                  r == Null && unchanged(httpClient) &&
                  fileSystem.files == old(fileSystem.files) && fileSystem.directories == old(fileSystem.directories)
                else
                  httpClient.requests == old(httpClient.requests) + [remote.s] &&
                  fileSystem.directories == old(fileSystem.directories) + {thumbnailDestination}
      ensures Truthy(remote) && !old(fileSystem.Present(LocalThumbnailUri(thumbnailDestination, hash, remote.s))) &&
              thumbnailDestination in fileSystem.preparable ==>
                var path := LocalThumbnailUri(thumbnailDestination, hash, remote.s);
                var response := httpClient.web(remote.s);
                if response.status == 200 && path !in fileSystem.unwritable then
                  r == Str(path) && fileSystem.files == old(fileSystem.files)[path := response.body]
                else
                  r == Null && fileSystem.files == old(fileSystem.files)
    {
      if !Truthy(remote) {
        return Null;
      }
      var directory := thumbnailDestination;
      // Libsyn's images have no extension: png stands in.
      var extension := Extension(remote.s);
      if extension == [] || extension == ['0'] {
        extension := Png;
      }
      var localUri := directory + ['/'] + hash(remote.s) + ['.'] + extension;

      var present := fileSystem.Exists(localUri);
      if present {
        return Str(localUri);
      }
      var prepared := fileSystem.PrepareDirectory(directory);
      if !prepared {
        return Null;
      }
      var response := httpClient.Get(remote.s);
      if response.status == 200 {
        var success := fileSystem.SaveData(response.body, localUri);
        if success {
          return Str(localUri);
        }
      }
      return Null;
    }

    /** getMetadata for the media whose source field holds `url` (a string, or FALSE when unset). */
    method GetMetadata(url: Value, name: string) returns (v: Value)
      requires Valid()
      modifies this, httpClient, fileSystem
      ensures Valid()
      ensures !Truthy(url) ==> v == parentMetadata(name) && unchanged(this, httpClient, fileSystem)
      ensures Truthy(url) ==> libsyn == if old(libsyn).Some? then old(libsyn) else Extract(parse(httpClient.web(url.s).body))
      ensures Truthy(url) && name != "thumbnail_uri" ==>
                unchanged(fileSystem) && httpClient.requests == old(httpClient.requests) + (if old(libsyn).None? then [url.s] else [])
      ensures Truthy(url) && name == "html" ==> v == Str(HtmlSubject(libsyn.value))
      ensures Truthy(url) && name == "episode_id" ==> v == EpisodeIdValue(libsyn.value)
      ensures Truthy(url) && name == "podcast_date" ==> v == Str(libsyn.value.podcastDate.value)
      ensures Truthy(url) && name == "podcast_date_date" ==> v == formatDate(libsyn.value.podcastDate.value)
      ensures Truthy(url) && name == "thumbnail_uri" ==>
                var t := libsyn.value.thumbnailUrl;
                t.None? || !Truthy(t.value) ==>
                  && v == parentMetadata("thumbnail_url") && unchanged(fileSystem)
                  && httpClient.requests == old(httpClient.requests) + (if old(libsyn).None? then [url.s] else [])
      ensures Truthy(url) && name == "thumbnail_uri" && libsyn.value.thumbnailUrl.Some? && Truthy(libsyn.value.thumbnailUrl.value) ==>
                var remote := libsyn.value.thumbnailUrl.value.s;
                var path := LocalThumbnailUri(thumbnailDestination, hash, remote);
                var fetched := old(httpClient.requests) + (if old(libsyn).None? then [url.s] else []);
                if old(fileSystem.Present(path)) then
                  v == Str(path) && unchanged(fileSystem) && httpClient.requests == fetched
                else if thumbnailDestination !in fileSystem.preparable then
                  && v == parentMetadata("thumbnail_url") && httpClient.requests == fetched
                  && fileSystem.files == old(fileSystem.files) && fileSystem.directories == old(fileSystem.directories)
                else
                  && httpClient.requests == fetched + [remote]
                  && fileSystem.directories == old(fileSystem.directories) + {thumbnailDestination}
                  && if httpClient.web(remote).status == 200 && path !in fileSystem.unwritable then
                       v == Str(path) && fileSystem.files == old(fileSystem.files)[path := httpClient.web(remote).body]
                     else
                       v == parentMetadata("thumbnail_url") && fileSystem.files == old(fileSystem.files)
      ensures Truthy(url) && name !in {"thumbnail_uri", "episode_id", "html", "podcast_date", "podcast_date_date"} ==>
                v == parentMetadata(name)
    {
      if Truthy(url) {
        var data := GetData(url.s);
        if NonEmpty(data) {
          var d := data.value;
          match name {
            case "thumbnail_uri" =>
              var localUri := Null;
              if d.thumbnailUrl.Some? {
                localUri := GetLocalThumbnailUri(d.thumbnailUrl.value);
              }
              return if Truthy(localUri) then localUri else parentMetadata("thumbnail_url");
            case "episode_id" =>
              return EpisodeIdValue(d);
            case "html" =>
              return Str(HtmlSubject(d));
            case "podcast_date" =>
              return if d.podcastDate.Some? then Str(d.podcastDate.value) else Null;
            case "podcast_date_date" =>
              return formatDate(if d.podcastDate.Some? then d.podcastDate.value else "");
            case _ =>
          }
        }
      }
      return parentMetadata(name);
    }
  }

  /** getData fetches at most once per plugin instance: a second call returns the first result. */
  method FetchAtMostOnce(source: Libsyn, first: string, second: string) returns (a: Option<Data>, b: Option<Data>)
    requires source.Valid()
    modifies source, source.httpClient
    ensures b == a
    ensures |source.httpClient.requests| <= |old(source.httpClient.requests)| + 1
  {
    a := source.GetData(first);
    b := source.GetData(second);
  }

  /**
   * Once a thumbnail is resolved, resolving it again gives the same path with no new download;
   * `mid` is the request log between the two calls, and the first makes at most the one
   * request for the remote URL.
   */
  method ResolveThumbnailTwice(source: Libsyn, remote: Value) returns (a: Value, b: Value, ghost mid: seq<string>)
    modifies source.httpClient, source.fileSystem
    ensures a.Str? ==> b == a
    ensures a.Str? ==> |source.httpClient.requests| <= |old(source.httpClient.requests)| + 1
    ensures a.Str? ==> source.httpClient.requests == mid
    ensures a.Str? ==> remote.Str? && (mid == old(source.httpClient.requests) || mid == old(source.httpClient.requests) + [remote.s])
  {
    a := source.GetLocalThumbnailUri(remote);
    mid := source.httpClient.requests;
    b := source.GetLocalThumbnailUri(remote);
  }
}
