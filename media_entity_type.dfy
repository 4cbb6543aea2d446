/**
 * The older media_entity type plugin for Libsyn (src/Plugin/MediaEntity/Type/Libsyn.php):
 * getData scrapes the page into a drupal_static slot shared by every instance, getField
 * answers field requests, and thumbnail falls back to the module's icon.
 */
module MediaEntityType {
  import opened Php
  import opened Strings
  import opened Scrape
  import opened Embed
  import opened Services

  /** The episode path marker of this variant: a doubled slash, and the digits follow `id` with no slash between. */
  const LegacyMarker := "/episode//id"

  /** The icon file getDefaultThumbnail names, "libsyn.png", spelled as characters: the literal made the proofs about this path costlier. */
  const IconFile: string := ['l', 'i', 'b', 's', 'y', 'n', '.', 'p', 'n', 'g']

  /**
   * The og:image content, kept whole (query string included): unset exactly when the page has
   * no og:image meta, otherwise the content attribute of the last one.
   */
  function OgImageUrl(dom: Dom): (r: Option<Value>)
    ensures r.None? <==> forall j :: 0 <= j < |dom| ==> !Selects(OgImage, dom[j])
    ensures r.Some? ==> r.value == Str(Attribute(dom[LastIndex(dom, OgImage).value], "content"))
  {
    match OgImageContent(dom)
    case None => None
    case Some(content) => Some(Str(content))
  }

  /**
   * What getData stores for a page: NULL when it has neither a player iframe nor an og:image;
   * otherwise an array with a key and no date.
   */
  function LegacyExtract(dom: Dom): (r: Option<Data>)
    ensures r.Some? ==> NonEmpty(r) && r.value.podcastDate.None?
  {
    Assemble(EmbedHtml(dom), OgImageUrl(dom), None)
  }

  /** The slot stays NULL exactly when the page has no player iframe and no og:image. */
  lemma LegacyExtractNullWhenNothingFound(dom: Dom)
    ensures LegacyExtract(dom).None? <==>
              forall j :: 0 <= j < |dom| ==> !Selects(PlayerIframe, dom[j]) && !Selects(OgImage, dom[j])
  {
    if LegacyExtract(dom).None? {
      forall j | 0 <= j < |dom|
        ensures !Selects(PlayerIframe, dom[j]) && !Selects(OgImage, dom[j])
      {
        assert LastIndex(dom, PlayerIframe).None? && LastIndex(dom, OgImage).None?;
      }
    }
  }

  /** The `episode_id` field: FALSE when there is no id. */
  function EpisodeIdField(d: Data): (v: Value)
    ensures v != Null
    ensures v.Str? ==> forall i :: 0 <= i < |v.s| ==> InClass(v.s[i], Digit)
  {
    match EpisodeId(HtmlSubject(d), LegacyMarker)
    case None => False
    case Some(id) => Str(id)
  }

  /**
   * A player embed whose first src is `<prefix>/episode//id<digits><rest>`, with the marker's
   * first occurrence there and nothing for urldecode to change, has those digits as its id.
   */
  lemma LegacyEpisodeIdOfPlayer(d: Data, before: string, prefix: string, id: string, rest: string, after: string)
    requires d.html == Some(before + SrcOpen + prefix + LegacyMarker + id + rest + ['"'] + after)
    requires forall j :: 0 <= j < |before| ==> !OccursAt(before + SrcOpen, SrcOpen, j)
    requires forall j :: 0 <= j < |prefix| ==> !OccursAt(prefix + LegacyMarker + id + rest, LegacyMarker, j)
    requires forall ch :: ch in prefix + id + rest ==> ch != '"' && ch != '%' && ch != '+'
    requires forall i :: 0 <= i < |id| ==> InClass(id[i], Digit)
    requires rest == [] || !InClass(rest[0], Digit)
    ensures EpisodeIdField(d) == Str(id)
  {
    assert forall ch :: ch in prefix + LegacyMarker + id + rest ==> ch in prefix + id + rest || ch in LegacyMarker;
    assert '%' !in LegacyMarker && '+' !in LegacyMarker && '"' !in LegacyMarker;
    assert HtmlSubject(d) == before + SrcOpen + (prefix + LegacyMarker + id + rest) + ['"'] + after;
    EpisodeIdOfPath(before, prefix, LegacyMarker, id, rest, after);
  }

  /** The destination directory, a slash, then the basename of the remote URL. */
  function LegacyLocalUri(destination: string, url: string): (path: string)
    ensures Truthy(Str(path))
  {
    JoinedPathIsTruthy(destination, Basename(url));
    destination + ['/'] + Basename(url)
  }

  /** The local copy keeps the remote file's name. */
  lemma LegacyLocalUriKeepsName(destination: string, url: string)
    requires Basename(url) != []
    ensures Basename(LegacyLocalUri(destination, url)) == Basename(url)
  {
    BasenameOfJoin(destination, Basename(url));
    assert destination + "/" + Basename(url) == LegacyLocalUri(destination, url);
  }

  /** The drupal_static('getData') slot: one per request, whatever plugin instance reaches it. */
  class StaticSlot {
    var value: Option<Data>

    constructor ()
      ensures value == None
    {
      value := None;
    }
  }

  class Libsyn {
    /** The plugin's libsyn property: a reference to the shared static slot. */
    const statics: StaticSlot
    const httpClient: HttpClient
    const fileSystem: FileSystem
    /** The HTML parser (DOMDocument), which this model does not implement. */
    const parse: string -> Dom
    /** The thumbnail_destination setting of media_entity_libsyn.settings. */
    const thumbnailDestination: string
    /** The icon_base setting of media_entity.settings. */
    const iconBase: string

    constructor (statics: StaticSlot, httpClient: HttpClient, fileSystem: FileSystem, parse: string -> Dom,
                 thumbnailDestination: string, iconBase: string)
      ensures this.statics == statics && this.httpClient == httpClient && this.fileSystem == fileSystem
      ensures this.parse == parse && this.thumbnailDestination == thumbnailDestination && this.iconBase == iconBase
    {
      this.statics := statics;
      this.httpClient := httpClient;
      this.fileSystem := fileSystem;
      this.parse := parse;
      this.thumbnailDestination := thumbnailDestination;
      this.iconBase := iconBase;
    }

    /** `icon_base/libsyn.png`: a usable URI naming the module's icon. */
    function GetDefaultThumbnail(): (r: string)
      ensures Truthy(Str(r))
      ensures Basename(r) == IconFile
    {
      assert '/' !in IconFile;
      BasenameOfJoin(iconBase, IconFile);
      JoinedPathIsTruthy(iconBase, IconFile);
      assert iconBase + "/" + IconFile == iconBase + ['/'] + IconFile;
      iconBase + ['/'] + IconFile
    }

    /**
     * Scrapes the page at `url` while the static slot is NULL; once it holds data, every
     * instance gets that data back, whatever `url` it asks for.
     */
    method GetData(url: string) returns (data: Option<Data>)
      modifies statics, httpClient
      ensures data == statics.value
      ensures old(statics.value).Some? ==> statics.value == old(statics.value) && httpClient.requests == old(httpClient.requests)
      ensures old(statics.value).None? ==> statics.value == LegacyExtract(parse(httpClient.web(url).body))
      ensures old(statics.value).None? ==> httpClient.requests == old(httpClient.requests) + [url]
    {
      if statics.value.None? {
        var response := httpClient.Get(url);
        var dom := parse(response.body);
        ScanEmbed(dom);
        ScanThumbnail(dom);
      }
      data := statics.value;
    }

    /** The first loop of getData: the markup of the last iframe whose src names the player host. */
    method ScanEmbed(dom: Dom)
      requires statics.value.None?
      modifies statics
      ensures statics.value == Assemble(EmbedHtml(dom), None, None)
    {
      for i := 0 to |dom|
        invariant statics.value == Assemble(EmbedHtml(dom[..i]), None, None)
      {
        if dom[i].tag == "iframe" {
          var src := Attribute(dom[i], "src");
          if Strpos(src, PlayerHost, 0).Some? {
            statics.value := Some(Filled(statics.value).(html := Some(dom[i].html)));
          }
        }
        LastStep(dom, i, PlayerIframe);
      }
      assert dom[..|dom|] == dom;
    }

    /** The second loop: the content of the last og:image meta, as it stands. */
    method ScanThumbnail(dom: Dom)
      requires statics.value == Assemble(EmbedHtml(dom), None, None)
      modifies statics
      ensures statics.value == LegacyExtract(dom)
    {
      for i := 0 to |dom|
        invariant statics.value == Assemble(EmbedHtml(dom), OgImageUrl(dom[..i]), None)
      {
        if dom[i].tag == "meta" {
          var property := Attribute(dom[i], "property");
          if property == "og:image" {
            statics.value := Some(Filled(statics.value).(thumbnailUrl := Some(Str(Attribute(dom[i], "content")))));
          }
        }
        LastStep(dom, i, OgImage);
      }
      assert dom[..|dom|] == dom;
    }

    /**
     * The thumbnail_uri branch of getField: downloads the thumbnail next to its basename when no
     * file is there yet and returns that path, success or not; FALSE when a file is already there.
     */
    method ThumbnailUri(thumbnailUrl: Option<Value>) returns (v: Value)
      modifies httpClient, fileSystem
      ensures thumbnailUrl.None? ==> v == False && unchanged(httpClient, fileSystem)
      ensures thumbnailUrl.Some? && old(fileSystem.Present(LegacyLocalUri(thumbnailDestination, AsString(thumbnailUrl.value)))) ==>
                v == False && unchanged(httpClient, fileSystem)
      ensures thumbnailUrl.Some? && !old(fileSystem.Present(LegacyLocalUri(thumbnailDestination, AsString(thumbnailUrl.value)))) ==>
                var remote := AsString(thumbnailUrl.value);
                var path := LegacyLocalUri(thumbnailDestination, remote);
                && v == Str(path)
                && httpClient.requests == old(httpClient.requests) + (if remote == [] then [] else [remote])
                && fileSystem.directories ==
                     (if thumbnailDestination in fileSystem.preparable then old(fileSystem.directories) + {thumbnailDestination}
                      else old(fileSystem.directories))
      ensures thumbnailUrl.Some? && !old(fileSystem.Present(LegacyLocalUri(thumbnailDestination, AsString(thumbnailUrl.value)))) ==>
                var remote := AsString(thumbnailUrl.value);
                var path := LegacyLocalUri(thumbnailDestination, remote);
                var response := httpClient.web(remote);
                fileSystem.files ==
                  if path in fileSystem.unwritable then old(fileSystem.files)
                  else old(fileSystem.files)[path := if remote != [] && Readable(response) then response.body else []]
    {
      if thumbnailUrl.Some? {
        var destination := thumbnailDestination;
        var localUri := LegacyLocalUri(destination, AsString(thumbnailUrl.value));
        var present := fileSystem.Exists(localUri);
        if !present {
          var _ := fileSystem.PrepareDirectory(destination);
          var image := httpClient.GetContents(AsString(thumbnailUrl.value));
          var _ := fileSystem.SaveData(AsString(image), localUri);
          return Str(localUri);
        }
      }
      return False;
    }

    /** getField for the media whose source field holds `url` (a string, or FALSE when unset). */
    method GetField(url: Value, name: string) returns (v: Value)
      modifies statics, httpClient, fileSystem
      ensures !Truthy(url) ==> v == False && unchanged(statics, httpClient, fileSystem)
      ensures Truthy(url) ==>
                statics.value == if old(statics.value).Some? then old(statics.value) else LegacyExtract(parse(httpClient.web(url.s).body))
      ensures Truthy(url) && !NonEmpty(statics.value) ==> v == False
      ensures Truthy(url) && name != "thumbnail_uri" ==>
                unchanged(fileSystem) &&
                httpClient.requests == old(httpClient.requests) + (if old(statics.value).None? then [url.s] else [])
      ensures Truthy(url) && NonEmpty(statics.value) && name == "html" ==>
                v == if statics.value.value.html.Some? then Str(statics.value.value.html.value) else Null
      ensures Truthy(url) && NonEmpty(statics.value) && name == "episode_id" ==> v == EpisodeIdField(statics.value.value)
      ensures Truthy(url) && name == "thumbnail_uri" && (!NonEmpty(statics.value) || statics.value.value.thumbnailUrl.None?) ==>
                && v == False && unchanged(fileSystem)
                && httpClient.requests == old(httpClient.requests) + (if old(statics.value).None? then [url.s] else [])
      ensures Truthy(url) && NonEmpty(statics.value) && name == "thumbnail_uri" && statics.value.value.thumbnailUrl.Some? ==>
                var remote := AsString(statics.value.value.thumbnailUrl.value);
                var path := LegacyLocalUri(thumbnailDestination, remote);
                if old(fileSystem.Present(path)) then
                  && v == False && unchanged(fileSystem)
                  && httpClient.requests == old(httpClient.requests) + (if old(statics.value).None? then [url.s] else [])
                else
                  var response := httpClient.web(remote);
                  && v == Str(path)
                  && fileSystem.directories ==
                       (if thumbnailDestination in fileSystem.preparable then old(fileSystem.directories) + {thumbnailDestination}
                      else old(fileSystem.directories))
                  && fileSystem.files ==
                       (if path in fileSystem.unwritable then old(fileSystem.files)
                        else old(fileSystem.files)[path := if remote != [] && Readable(response) then response.body else []])
                  && httpClient.requests == old(httpClient.requests) + (if old(statics.value).None? then [url.s] else []) + (if remote == [] then [] else [remote])
      ensures Truthy(url) && name !in {"html", "thumbnail_uri", "episode_id"} ==> v == False
    {
      if Truthy(url) {
        var data := GetData(url.s);
        if NonEmpty(data) {
          var d := data.value;
          match name {
            case "html" =>
              return if d.html.Some? then Str(d.html.value) else Null;
            case "thumbnail_uri" =>
              v := ThumbnailUri(d.thumbnailUrl);
              return;
            case "episode_id" =>
              return EpisodeIdField(d);
            case _ =>
          }
        }
      }
      return False;
    }

    /** The thumbnail: the downloaded copy when getField names one, the module's icon otherwise. */
    method Thumbnail(url: Value) returns (r: Value)
      modifies statics, httpClient, fileSystem
      ensures Truthy(r)
      ensures r == Str(GetDefaultThumbnail()) ||
              (statics.value.Some? && statics.value.value.thumbnailUrl.Some? &&
               r == Str(LegacyLocalUri(thumbnailDestination, AsString(statics.value.value.thumbnailUrl.value))))
      ensures !Truthy(url) ==> r == Str(GetDefaultThumbnail()) && unchanged(statics, httpClient, fileSystem)
      ensures Truthy(url) ==>
                statics.value == if old(statics.value).Some? then old(statics.value) else LegacyExtract(parse(httpClient.web(url.s).body))
      ensures Truthy(url) && statics.value.Some? && statics.value.value.thumbnailUrl.Some? ==>
                var remote := AsString(statics.value.value.thumbnailUrl.value);
                var path := LegacyLocalUri(thumbnailDestination, remote);
                if old(fileSystem.Present(path)) then
                  && r == Str(GetDefaultThumbnail()) && unchanged(fileSystem)
                  && httpClient.requests == old(httpClient.requests) + (if old(statics.value).None? then [url.s] else [])
                else
                  var response := httpClient.web(remote);
                  && r == Str(path)
                  && fileSystem.directories ==
                       (if thumbnailDestination in fileSystem.preparable then old(fileSystem.directories) + {thumbnailDestination}
                        else old(fileSystem.directories))
                  && fileSystem.files ==
                       (if path in fileSystem.unwritable then old(fileSystem.files)
                        else old(fileSystem.files)[path := if remote != [] && Readable(response) then response.body else []])
                  && httpClient.requests == old(httpClient.requests) + (if old(statics.value).None? then [url.s] else []) + (if remote == [] then [] else [remote])
      ensures Truthy(url) && (statics.value.None? || statics.value.value.thumbnailUrl.None?) ==>
                && r == Str(GetDefaultThumbnail()) && unchanged(fileSystem)
                && httpClient.requests == old(httpClient.requests) + (if old(statics.value).None? then [url.s] else [])
    {
      var thumbnailImage := GetField(url, "thumbnail_uri");
      if Truthy(thumbnailImage) {
        return thumbnailImage;
      }
      return Str(GetDefaultThumbnail());
    }
  }

  /**
   * Two plugin instances share the static slot and, as the service container gives them, the
   * HTTP client. Once the first has found data, the second gets that data for any URL with no
   * request; while nothing has been found, the second fetches again.
   */
  method SharedAcrossInstances(first: Libsyn, second: Libsyn, firstUrl: string, secondUrl: string)
      returns (a: Option<Data>, b: Option<Data>)
    requires first.statics == second.statics && first.httpClient == second.httpClient
    modifies first.statics, first.httpClient
    ensures a.Some? ==> b == a
    ensures old(first.statics.value).Some? ==> first.httpClient.requests == old(first.httpClient.requests)
    ensures old(first.statics.value).None? && a.Some? ==> first.httpClient.requests == old(first.httpClient.requests) + [firstUrl]
    ensures a.None? ==>
              && first.httpClient.requests == old(first.httpClient.requests) + [firstUrl, secondUrl]
              && b == LegacyExtract(second.parse(second.httpClient.web(secondUrl).body))
  {
    a := first.GetData(firstUrl);
    b := second.GetData(secondUrl);
  }
}
