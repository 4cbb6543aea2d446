/**
 * The episode id of an embed: the first `src="..."` value, URL-decoded, then the digit run
 * after a path marker. The two plugin variants use different markers.
 */
module Embed {
  import opened Php
  import opened Strings

  const SrcOpen := "src=\""

  /** The match of the src pattern (`src="`, a run of non-quote characters, `"`) starting at `i`, as its captured value. */
  function SrcMatchAt(html: string, i: nat): (r: Option<string>)
    ensures r.Some? ==> && OccursAt(html, SrcOpen, i) && r.value != [] && '"' !in r.value
                        && OccursAt(html, r.value + ['"'], i + |SrcOpen|)
    ensures (OccursAt(html, SrcOpen, i) && i + |SrcOpen| < |html| && html[i + |SrcOpen|] != '"' &&
             '"' in html[i + |SrcOpen| + 1..]) ==> r.Some?
  {
    if OccursAt(html, SrcOpen, i) then
      var start := i + |SrcOpen|;
      var value := TakeWhile(html[start..], Except('"'));
      if value != [] && start + |value| < |html| then
        assert html[start..start + |value| + 1] == value + ['"'];
        Some(value)
      else
        None
    else None
  }

  /** The src pattern as preg_match applies it: the value captured by the leftmost match at or after `from`. */
  function FirstSrc(html: string, from: nat): (r: Option<string>)
    ensures r.Some? ==> r.value != "" && '"' !in r.value
    ensures r.Some? ==> exists k :: from <= k && SrcMatchAt(html, k) == r && forall j :: from <= j < k ==> SrcMatchAt(html, j).None?
    ensures r.None? <==> forall j :: from <= j ==> SrcMatchAt(html, j).None?
    decreases |html| - from
  {
    if |html| <= from then None
    else if SrcMatchAt(html, from).Some? then SrcMatchAt(html, from)
    else FirstSrc(html, from + 1)
  }

  /**
   * The first `src="value"` of the markup is the one the pattern captures: no `src="` starts
   * earlier (quoted attributes such as `style="border: none"` may come before it).
   */
  lemma FirstSrcOfAttribute(before: string, value: string, after: string)
    requires forall j :: 0 <= j < |before| ==> !OccursAt(before + SrcOpen, SrcOpen, j)
    requires value != "" && '"' !in value
    ensures FirstSrc(before + SrcOpen + value + "\"" + after, 0) == Some(value)
  {
    var html := before + SrcOpen + value + "\"" + after;
    var start := |before| + |SrcOpen|;
    assert html[|before|..start] == SrcOpen;
    assert html[start..] == value + ("\"" + after);
    TakeWhileOf(value, "\"" + after, Except('"'));
    assert SrcMatchAt(html, |before|) == Some(value);
    var head := before + SrcOpen;
    assert html == head + (value + "\"" + after);
    forall j | 0 <= j < |before|
      ensures SrcMatchAt(html, j).None?
    {
      assert !OccursAt(head, SrcOpen, j);
      assert html[j..j + |SrcOpen|] == head[j..j + |SrcOpen|];
    }
  }

  /** The marker pattern as preg_match applies it: the (possibly empty) digit run right after the leftmost marker. */
  function DigitsAfter(s: string, marker: string): (r: Option<string>)
    ensures r.None? <==> !Contains(s, marker)
    ensures r.Some? ==> forall i :: 0 <= i < |r.value| ==> InClass(r.value[i], Digit)
    ensures r.Some? ==> exists k :: OccursAt(s, marker, k) && (forall j :: 0 <= j < k ==> !OccursAt(s, marker, j))
                                    && r.value == TakeWhile(s[k + |marker|..], Digit)
  {
    match Strpos(s, marker, 0)
    case None => None
    case Some(k) => Some(TakeWhile(s[k + |marker|..], Digit))
  }

  /**
   * The episode id of an embed: None when the markup has no `src="..."` or its decoded value
   * has no marker; otherwise the (possibly empty) digit run after the marker.
   */
  function EpisodeId(html: string, marker: string): (r: Option<string>)
    ensures FirstSrc(html, 0).None? ==> r.None?
    ensures FirstSrc(html, 0).Some? ==> (r.Some? <==> Contains(UrlDecode(FirstSrc(html, 0).value), marker))
    ensures r.Some? ==> forall i :: 0 <= i < |r.value| ==> InClass(r.value[i], Digit)
  {
    match FirstSrc(html, 0)
    case None => None
    case Some(src) => DigitsAfter(UrlDecode(src), marker)
  }

  /** With the marker's first occurrence found, the id is the digit run that follows it. */
  lemma DigitsAfterFirst(prefix: string, marker: string, id: string, rest: string)
    requires forall j :: 0 <= j < |prefix| ==> !OccursAt(prefix + marker + id + rest, marker, j)
    requires forall i :: 0 <= i < |id| ==> InClass(id[i], Digit)
    requires rest == [] || !InClass(rest[0], Digit)
    ensures DigitsAfter(prefix + marker + id + rest, marker) == Some(id)
  {
    var s := prefix + marker + id + rest;
    var at := |prefix| + |marker|;
    assert s[..at] == prefix + marker && s[at..] == id + rest;
    assert s[|prefix|..at] == (prefix + marker)[|prefix|..];
    StrposFirst(s, marker, |prefix|);
    TakeWhileOf(id, rest, Digit);
  }

  /**
   * An embed whose first `src="<url>"` decodes to the marker's first occurrence followed by
   * the digits `id` has episode id `id`.
   */
  lemma EpisodeIdOfEmbed(before: string, url: string, after: string, marker: string,
                         prefix: string, id: string, rest: string)
    requires forall j :: 0 <= j < |before| ==> !OccursAt(before + SrcOpen, SrcOpen, j)
    requires url != "" && '"' !in url
    requires UrlDecode(url) == prefix + marker + id + rest
    requires forall j :: 0 <= j < |prefix| ==> !OccursAt(prefix + marker + id + rest, marker, j)
    requires forall i :: 0 <= i < |id| ==> InClass(id[i], Digit)
    requires rest == [] || !InClass(rest[0], Digit)
    ensures EpisodeId(before + SrcOpen + url + "\"" + after, marker) == Some(id)
  {
    FirstSrcOfAttribute(before, url, after);
    DigitsAfterFirst(prefix, marker, id, rest);
  }

  /**
   * An embed whose first src is `<prefix><marker><digits><rest>`, where the marker does not
   * occur earlier and nothing needs decoding, has those digits as its id.
   */
  lemma EpisodeIdOfPath(before: string, prefix: string, marker: string, id: string, rest: string, after: string)
    requires forall j :: 0 <= j < |before| ==> !OccursAt(before + SrcOpen, SrcOpen, j)
    requires marker != []
    requires forall j :: 0 <= j < |prefix| ==> !OccursAt(prefix + marker + id + rest, marker, j)
    requires forall ch :: ch in prefix + marker + id + rest ==> ch != '"' && ch != '%' && ch != '+'
    requires forall i :: 0 <= i < |id| ==> InClass(id[i], Digit)
    requires rest == [] || !InClass(rest[0], Digit)
    ensures EpisodeId(before + SrcOpen + (prefix + marker + id + rest) + ['"'] + after, marker) == Some(id)
  {
    var url := prefix + marker + id + rest;
    UrlDecodeIdentity(url);
    EpisodeIdOfEmbed(before, url, after, marker, prefix, id, rest);
  }
}
