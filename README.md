# Libsyn media plugins, modelled in Dafny

The Drupal module `media_entity_libsyn` turns a Libsyn podcast episode URL into media.
It has two plugin variants:

- a `media` source plugin (`src/Plugin/media/Source/Libsyn.php`);
- an older `media_entity` type plugin (`src/Plugin/MediaEntity/Type/Libsyn.php`).

Both variants fetch the episode page once, scrape it, and answer attribute requests from
what they found:

- the player embed markup;
- the cover image;
- in the newer variant, the publication date;
- the episode id taken from the embed.

Both also keep a local copy of the cover image.

The project has these modules:

- `Php` (`php.dfy`): the PHP values the plugins pass around (NULL, FALSE, strings) and PHP's
  truthiness.
- `Strings` (`strings.dfy`): `strpos`, `strtok`, `urldecode`, `basename` and the
  `pathinfo` extension over `seq<char>`, with the lemmas the plugins rely on.
- `XPath` (`xpath.dfy`): the date paragraph query, with `normalize-space`. It carries the
  proof that the query selects exactly the class lists holding the whole token `date`.
- `Scrape` (`scrape.dfy`): a parsed page as a sequence of elements in document order. It
  defines the three last-match-wins scans and the array the scans fill.
- `Embed` (`embed.dfy`): the `src="..."` pattern, URL decoding and the digit run after an
  episode path marker.
- `Services` (`services.dfy`): the HTTP client and the file system as objects whose answers
  are fixed when they are made. Each records what was done to it.
- `MediaSource` (`media_source.dfy`): the current plugin as class `Libsyn`, covering
  `getData`, `getLocalThumbnailUri` and `getMetadata`.
- `MediaEntityType` (`media_entity_type.dfy`): the legacy plugin as class `Libsyn`, covering
  `getData`, `getField`, `thumbnail` and `getDefaultThumbnail`. Its `drupal_static` slot is
  an object (`StaticSlot`) that every plugin instance shares.

Each `getData` loop is a method over the element sequence. Its loop invariant ties the
partly filled array to the scan's specification on the elements read so far.

The two variants differ, and the model keeps each one as written:

- The episode path markers differ. The current one is `/episode/id/` followed by the digits.
  The legacy one is `/episode//id`, with a doubled slash and the digits right after `id`.
- The current variant strips the image URL's query string with `strtok`. The legacy one
  keeps it whole.
- The legacy `thumbnail_uri` returns FALSE when the local file already exists, so
  `thumbnail()` then falls back to the module icon. It returns the path after a download
  without checking whether the download or the save succeeded.
- In the legacy variant, data that stays NULL is fetched again on the next call.

## Model

| member | source | states |
|---|---|---|
| Php.Truthy | src/Plugin/media/Source/Libsyn.php:106 | PHP's conversion to boolean, as the `&&` and `?:` tests use it: NULL, FALSE, "" and "0" are false, every other string true (a definition, no contract) |
| Php.AsString | src/Plugin/MediaEntity/Type/Libsyn.php:136-137 | the string cast of a value: FALSE (a failed file_get_contents) and NULL become "", so a failed download is saved as an empty file (a definition, no contract) |
| Strings.Strpos | src/Plugin/media/Source/Libsyn.php:189 | the leftmost occurrence at or after the offset; None exactly when `sub` occurs nowhere from there |
| Strings.TakeWhile | src/Plugin/media/Source/Libsyn.php:120 | a greedy run: a prefix whose characters all belong to the class, stopped by the first one that does not |
| Strings.StrTok | src/Plugin/media/Source/Libsyn.php:201 | never NULL; FALSE exactly when the string is all delimiters (or empty); a token is non-empty and holds no delimiter; for a string not starting with the delimiter it is the run before the first delimiter |
| Strings.StrTokToken | src/Plugin/media/Source/Libsyn.php:201 | the token is the run that follows the leading delimiters, up to the next delimiter |
| Strings.UrlDecode | src/Plugin/media/Source/Libsyn.php:120 | `+` decodes to a space and a valid `%hh` to one character, so the result is never longer than the input |
| Strings.UrlDecodeIdentity | src/Plugin/media/Source/Libsyn.php:120 | urldecode leaves a string with no `%` and no `+` unchanged |
| Strings.Basename | src/Plugin/MediaEntity/Type/Libsyn.php:130 | a basename never contains `/` |
| Strings.Extension | src/Plugin/media/Source/Libsyn.php:243 | the extension contains neither `.` nor `/` |
| Strings.BasenameOfJoin | src/Plugin/MediaEntity/Type/Libsyn.php:130 | the basename of `dir/name` is `name` for a non-empty name without `/` |
| Strings.JoinedFileName | src/Plugin/media/Source/Libsyn.php:247 | the file `dir/stem.ext` has basename `stem.ext` and extension `ext` |
| XPath.NormalizeSpace | src/Plugin/media/Source/Libsyn.php:209 | no white space at either end, every inner white-space character a lone space; empty exactly when the value has no token |
| XPath.Words | src/Plugin/media/Source/Libsyn.php:209 | every token normalize-space keeps is non-empty and free of white space |
| XPath.HasDateClass | src/Plugin/media/Source/Libsyn.php:209 | the query's test: the space-padded normalize-space of the class contains ` date ` (a definition; DateClassIsWholeToken characterizes it) |
| XPath.FramedToken | src/Plugin/media/Source/Libsyn.php:209 | in the space-padded token list, ` date ` occurs exactly when `date` is one of the tokens |
| XPath.DateClassIsWholeToken | src/Plugin/media/Source/Libsyn.php:209 | the date query matches a class attribute exactly when `date` is one of its white-space separated tokens |
| XPath.NearMissClasses | src/Plugin/media/Source/Libsyn.php:209 | the classes `dates` and `update` are not matched |
| XPath.DateBetweenTokens | src/Plugin/media/Source/Libsyn.php:209 | a `date` token between two other tokens is matched |
| Scrape.Attribute | src/Plugin/media/Source/Libsyn.php:188 | getAttribute: the attribute's value, or "" when the element has none (a definition, no contract) |
| Scrape.Selects | src/Plugin/media/Source/Libsyn.php:186-209 | the element each scan keeps: an iframe whose src contains `player.libsyn.com` (strpos `!== FALSE`, also legacy :227), a meta whose property is `og:image` (also legacy :236), a p the date query selects (a definition; DateClassIsWholeToken characterizes the date test) |
| Scrape.Assemble | src/Plugin/MediaEntity/Type/Libsyn.php:214-243 | the libsyn property after the scans: NULL while no key has been assigned, otherwise the array of the keys set; this is why the shared legacy slot stays NULL when nothing is found (a definition; LegacyExtractNullWhenNothingFound states the consequence) |
| Scrape.NonEmpty | src/Plugin/media/Source/Libsyn.php:106 | the truthiness of `$data` in the `&&` test (also legacy :123): an array is true exactly when it has a key (a definition, no contract) |
| Scrape.HtmlSubject | src/Plugin/media/Source/Libsyn.php:114 | the preg_match subject when the html key may be unset (also legacy :145): the markup, or "" for the NULL an unset key reads as (a definition; NoPlayerNoHtml uses it) |
| Scrape.Filled | src/Plugin/media/Source/Libsyn.php:190-211 | assigning a key of the NULL libsyn property first turns it into an empty array, at each assignment of the three loops (also legacy :228 and :237) (a definition, no contract) |
| Scrape.LastIndex | src/Plugin/media/Source/Libsyn.php:186-192 | the kept element is selected and no later element is; None exactly when nothing is selected |
| Scrape.Last | src/Plugin/media/Source/Libsyn.php:186-192 | the element a foreach that overwrites its result keeps: the one at LastIndex, none when the scan selects nothing (a definition; LastSnoc and LastMatchWins characterize it) |
| Scrape.EmbedHtml | src/Plugin/media/Source/Libsyn.php:186-192 | the value the iframe loop leaves: the markup of the last player iframe, unset without one (also legacy :224-230) (a definition; ScanEmbed's loop invariant ties it to the loop) |
| Scrape.OgImageContent | src/Plugin/media/Source/Libsyn.php:195-204 | the content attribute of the last `og:image` meta, unset without one (also legacy :233-239) (a definition; ScanThumbnail's loop invariant ties it to the loop) |
| Scrape.DateParagraphText | src/Plugin/media/Source/Libsyn.php:207-212 | the text of the last paragraph the date query selects, unset without one (a definition; PodcastDate states its value) |
| Scrape.LastSnoc | src/Plugin/media/Source/Libsyn.php:186-192 | a selected element appended at the end replaces what was kept; an unselected one changes nothing |
| Scrape.LastStep | src/Plugin/media/Source/Libsyn.php:186-192 | one loop iteration moves the kept element exactly as the loop body does |
| Scrape.LastIgnoresUnselected | src/Plugin/media/Source/Libsyn.php:186-192 | an element the scan does not select, wherever it stands, never changes what is kept |
| Scrape.LastMatchWins | src/Plugin/media/Source/Libsyn.php:186-192 | a selected element followed only by unselected ones is the one kept |
| Embed.SrcMatchAt | src/Plugin/media/Source/Libsyn.php:114 | a match at `i` is `src="`, a non-empty quote-free value and a closing quote; `src="` followed by a non-quote and a later quote always matches |
| Embed.FirstSrc | src/Plugin/media/Source/Libsyn.php:114 | the capture is non-empty and quote-free, comes from the leftmost match, and is None exactly when there is no match |
| Embed.FirstSrcOfAttribute | src/Plugin/media/Source/Libsyn.php:114 | when no `src="` starts earlier in the markup (other quoted attributes may precede it), the pattern captures the first src value |
| Embed.DigitsAfter | src/Plugin/media/Source/Libsyn.php:120 | None exactly when the marker is absent; otherwise the digit run right after the marker's first occurrence |
| Embed.DigitsAfterFirst | src/Plugin/media/Source/Libsyn.php:120 | with the marker's first occurrence before `id` and a non-digit after it, the capture is `id` |
| Embed.EpisodeId | src/Plugin/media/Source/Libsyn.php:114-125 | None without a src; otherwise present exactly when the decoded src contains the marker; only digits |
| Embed.EpisodeIdOfEmbed | src/Plugin/media/Source/Libsyn.php:114-125 | an embed whose first src decodes to `prefix marker id rest`, with the marker's first occurrence after `prefix`, has episode id `id` |
| Embed.EpisodeIdOfPath | src/Plugin/media/Source/Libsyn.php:114-125 | an embed whose first src is `prefix marker id rest` (a full URL such as `https://host/...`), with nothing to decode and no earlier marker, has episode id `id` |
| MediaSource.ThumbnailUrl | src/Plugin/media/Source/Libsyn.php:195-204 | unset exactly when the page has no og:image meta; never NULL; a non-empty string without `?`, or FALSE |
| MediaSource.PodcastDate | src/Plugin/media/Source/Libsyn.php:207-212 | '' when the date query selects nothing, otherwise the text of the last paragraph it selects |
| MediaSource.Extract | src/Plugin/media/Source/Libsyn.php:207-215 | the stored array is never NULL and always has `podcast_date`, so getMetadata always takes its switch |
| MediaSource.NoPlayerNoHtml | src/Plugin/media/Source/Libsyn.php:127-128 | without a player iframe the html slot is unset and the `html` attribute is '' |
| MediaSource.ThumbnailUrlHasNoQuery | src/Plugin/media/Source/Libsyn.php:195-204 | the stored URL never has a `?`; empty content gives FALSE; content not starting with `?` gives its part before the first `?` |
| MediaSource.EpisodeIdValue | src/Plugin/media/Source/Libsyn.php:112-125 | never FALSE (a missing id is NULL); an id is all digits |
| MediaSource.EpisodeIdOfPlayer | src/Plugin/media/Source/Libsyn.php:120 | a first player src `<prefix>/episode/id/<digits><rest>`, with the marker first occurring there, yields those digits |
| MediaSource.PlayerEmbedExample | src/Plugin/media/Source/Libsyn.php:114-125 | `<iframe style="border: none" src="https://play.libsyn.com/episode/id/1234?autoplay=false">` has episode id 1234 |
| MediaSource.ThumbnailExtension | src/Plugin/media/Source/Libsyn.php:243-246 | the extension is the URL's exactly when PHP's `empty` is false for it (neither "" nor "0"), png exactly when it is true; it is never empty and has no `.` or `/` |
| MediaSource.LocalThumbnailUri | src/Plugin/media/Source/Libsyn.php:247 | the local path is always truthy, so a saved copy is what thumbnail_uri answers |
| MediaSource.LocalUriKeepsExtension | src/Plugin/media/Source/Libsyn.php:247 | the local file is named `hash.ext` in the destination, and pathinfo reads `ext` back from it |
| MediaSource.Libsyn.GetData | src/Plugin/media/Source/Libsyn.php:176-216 | the first call fetches the URL once and stores the page's extract; later calls return the stored array for any URL with no request |
| MediaSource.Libsyn.ScanEmbed | src/Plugin/media/Source/Libsyn.php:186-192 | the html slot holds the markup of the last iframe whose src contains the player host |
| MediaSource.Libsyn.ScanThumbnail | src/Plugin/media/Source/Libsyn.php:195-204 | the thumbnail slot holds strtok of the last og:image content at `?` |
| MediaSource.Libsyn.ScanDate | src/Plugin/media/Source/Libsyn.php:207-212 | podcast_date starts as '' and ends as the text of the last paragraph the date query selects |
| MediaSource.Libsyn.GetLocalThumbnailUri | src/Plugin/media/Source/Libsyn.php:233-285 | falsy URL: NULL, nothing touched; existing file: its path, nothing touched; unpreparable directory: NULL before any fetch; otherwise the path exactly when the status is 200 and the save succeeds, NULL on every other outcome |
| MediaSource.Libsyn.GetMetadata | src/Plugin/media/Source/Libsyn.php:105-140 | falsy URL: the parent's answer, nothing touched; html: the markup or ''; episode_id: the id or NULL; podcast_date and podcast_date_date from the stored date; thumbnail_uri: the parent's thumbnail_url when there is no truthy image URL, the local path when the file exists, otherwise the path exactly when the directory is prepared, the status is 200 and the save succeeds, and the parent's thumbnail_url on every other outcome, with the requests, files and directories of each case; any other name: the parent's answer |
| MediaSource.FetchAtMostOnce | src/Plugin/media/Source/Libsyn.php:177-179 | two getData calls on one instance return the same data and make at most one request |
| MediaSource.ResolveThumbnailTwice | src/Plugin/media/Source/Libsyn.php:249-252 | once a thumbnail resolves to a path, resolving it again gives the same path; the second call makes no request, and the first makes none or the one request for the remote URL |
| MediaEntityType.OgImageUrl | src/Plugin/MediaEntity/Type/Libsyn.php:233-239 | unset exactly when the page has no og:image meta; otherwise the content of the last one, verbatim |
| MediaEntityType.LegacyExtract | src/Plugin/MediaEntity/Type/Libsyn.php:213-243 | when the slot is not NULL, the stored array has a key (so getField treats it as data) and no date |
| MediaEntityType.LegacyExtractNullWhenNothingFound | src/Plugin/MediaEntity/Type/Libsyn.php:213-243 | the slot stays NULL exactly when the page has no player iframe and no og:image |
| MediaEntityType.EpisodeIdField | src/Plugin/MediaEntity/Type/Libsyn.php:143-156 | never NULL (a missing id is FALSE); an id is all digits |
| MediaEntityType.LegacyEpisodeIdOfPlayer | src/Plugin/MediaEntity/Type/Libsyn.php:151 | a first player src `<prefix>/episode//id<digits><rest>`, with the marker first occurring there, yields those digits |
| MediaEntityType.LegacyLocalUri | src/Plugin/MediaEntity/Type/Libsyn.php:130 | the local path is always truthy |
| MediaEntityType.LegacyLocalUriKeepsName | src/Plugin/MediaEntity/Type/Libsyn.php:130 | the local copy has the remote file's basename |
| MediaEntityType.Libsyn.GetDefaultThumbnail | src/Plugin/MediaEntity/Type/Libsyn.php:177-179 | a truthy URI whose basename is `libsyn.png` |
| MediaEntityType.Libsyn.GetData | src/Plugin/MediaEntity/Type/Libsyn.php:213-243 | while the shared slot is NULL it fetches and stores the extract; once it holds data, it returns that data for any URL with no request |
| MediaEntityType.Libsyn.ScanEmbed | src/Plugin/MediaEntity/Type/Libsyn.php:224-230 | the html slot holds the markup of the last iframe whose src contains the player host |
| MediaEntityType.Libsyn.ScanThumbnail | src/Plugin/MediaEntity/Type/Libsyn.php:233-239 | the thumbnail slot holds the last og:image content, unchanged |
| MediaEntityType.Libsyn.ThumbnailUri | src/Plugin/MediaEntity/Type/Libsyn.php:127-142 | no thumbnail URL or an existing file: FALSE, nothing touched; otherwise the directory is prepared, the image fetched and saved (FALSE saved as ''), and the path returned whatever happened; an empty image URL makes no request and saves '' |
| MediaEntityType.Libsyn.GetField | src/Plugin/MediaEntity/Type/Libsyn.php:122-161 | falsy URL or NULL data: FALSE; html: the markup or NULL; episode_id: the id or FALSE; thumbnail_uri: FALSE with no file activity when there is no image URL or the file exists, otherwise the path after preparing, fetching and saving (FALSE saved as ''; an empty image URL makes no request); the requests of each case; any other name: FALSE |
| MediaEntityType.Libsyn.Thumbnail | src/Plugin/MediaEntity/Type/Libsyn.php:166-172 | always truthy; the module icon when the URL is falsy, there is no image URL or the local file already existed; the local path when the file did not exist yet, whatever the download did; and the new state getField leaves: a falsy URL touches nothing, otherwise the shared slot is kept or filled from one page fetch, files are untouched without an image URL or with an existing copy, and otherwise the directory is prepared, the image fetched and saved ("" on failure, and with no request for an empty image URL) |
| MediaEntityType.SharedAcrossInstances | src/Plugin/MediaEntity/Type/Libsyn.php:214-216 | two instances sharing the slot and the HTTP client: once data is stored, the second gets it for any URL with no request; while it is NULL, the second fetches again |
| Services.HttpClient.Get | src/Plugin/media/Source/Libsyn.php:269 | the response is the server's answer for the URL, and the request is recorded |
| Services.HttpClient.GetContents | src/Plugin/MediaEntity/Type/Libsyn.php:136 | the empty filename: FALSE with no request; otherwise the body for a final 2xx or 3xx status, FALSE from 400 up, and the request is recorded |
| Services.FileSystem.Exists | src/Plugin/media/Source/Libsyn.php:250 | true exactly for an existing file or directory |
| Services.FileSystem.PrepareDirectory | src/Plugin/media/Source/Libsyn.php:257 | succeeds exactly for a preparable directory, which then exists; files are unchanged |
| Services.FileSystem.SaveData | src/Plugin/media/Source/Libsyn.php:271 | succeeds exactly for a writable path, replacing its contents; directories are unchanged |

## Left out

- HTML parsing and serialisation (DOMDocument, saveHTML, textContent) are a foreign library.
  A page is given as its parsed elements, each with its own serialisation and text. The
  parser itself is a function field `parse`.
- HTTP and the file system are oracle objects (`Services`), not real I/O.
  - A response's status and body, whether a directory can be prepared, and whether a path
    can be written are fixed when the object is made.
  - `file_exists` answers for files and directories alike.
- Guzzle exceptions are not modelled. A request answers with a status and a body: the model
  returns NULL for a thumbnail status other than 200, and getData parses whatever body the
  page fetch returns. In the source, Guzzle by default throws on a 4xx or 5xx answer, and
  that exception would escape getMetadata: the `catch (RequestException ...)` names a class
  that is not imported, so it catches no Guzzle exception.
- `file_get_contents` is modelled as PHP's http wrapper behaves: FALSE with no request for
  the empty filename, the body for a final 2xx or 3xx status, FALSE from 400 up. The
  status is the final one: the redirects that lead to it, timeouts and other stream
  wrappers are not modelled.
- `Crypt::hashBase64` is the function field `hash`. The only property assumed of it is that
  its output has no `/` and no `.` (URL-safe base64), and only LocalUriKeepsExtension
  assumes even that.
- The parsing and formatting for `podcast_date_date` (`\DateTime`, `Y-m-d`) is the function
  field `formatDate`.
- `MediaSourceBase::getMetadata`, the parent's answer, is the function field
  `parentMetadata`. The parent class is not part of this model.
- The media entity and its field API are not modelled. `getMediaUrl` is replaced by the URL
  parameter of GetMetadata and GetField: a string, or FALSE when the field is unset.
- Logging is not modelled. It has no effect on results.
- Constructors, `create()`, dependency injection, `getMetadataAttributes`,
  `providedFields`, `defaultConfiguration` and `buildConfigurationForm` are framework
  plumbing.
- The configuration values (`thumbnail_destination`, `icon_base`) are constant fields.
- The embed formatter and the two test files are not part of this model. The formatter is
  UI only, and the tests assert nothing.
- Strings are sequences of characters, one per byte. `urldecode` yields one character per
  `%hh`, with no multi-byte encoding.
- The `foreach` loops of each `getData` are separate methods (ScanEmbed, ScanThumbnail,
  ScanDate), called in the source's order on the same element sequence. The legacy
  `thumbnail_uri` branch is the method ThumbnailUri, which GetField calls.
