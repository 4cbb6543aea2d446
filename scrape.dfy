/**
 * The parsed podcast page and the three last-match-wins scans getData runs over it.
 * The HTML parser itself is foreign: a page is given as its elements in document order.
 */
module Scrape {
  import opened Php
  import opened Strings
  import opened XPath

  /**
   * One element of the parsed page: its tag name, its attributes, its own serialisation
   * (what saveHTML gives for the node) and its text content.
   */
  datatype Element = Element(tag: string, attributes: map<string, string>, html: string, text: string)

  type Dom = seq<Element>

  /** DOMElement::getAttribute: the empty string when the attribute is absent. */
  function Attribute(e: Element, name: string): string {
    if name in e.attributes then e.attributes[name] else ""
  }

  /** The marker an embed's `src` must contain. */
  const PlayerHost := "player.libsyn.com"

  /** The three scans of getData. */
  datatype Scan = PlayerIframe | OgImage | DateParagraph

  /** The elements a scan picks: its tag, then the test the loop (or the XPath query) applies. */
  predicate Selects(scan: Scan, e: Element) {
    match scan
    case PlayerIframe => e.tag == "iframe" && Contains(Attribute(e, "src"), PlayerHost)
    case OgImage => e.tag == "meta" && Attribute(e, "property") == "og:image"
    case DateParagraph => e.tag == "p" && HasDateClass(Attribute(e, "class"))
  }

  /** Which elements the scan selects, position by position. */
  function Marks(dom: Dom, scan: Scan): (m: seq<bool>)
    ensures |m| == |dom| && forall j :: 0 <= j < |dom| ==> m[j] == Selects(scan, dom[j])
  {
    seq(|dom|, j requires 0 <= j < |dom| => Selects(scan, dom[j]))
  }

  /** The last position marked true. */
  function LastMarked(marks: seq<bool>): (r: Option<nat>)
    ensures r.Some? ==> r.value < |marks| && marks[r.value]
    ensures r.Some? ==> forall j :: r.value < j < |marks| ==> !marks[j]
    ensures r.None? <==> forall j :: 0 <= j < |marks| ==> !marks[j]
  {
    if marks == [] then None
    else if marks[|marks| - 1] then Some(|marks| - 1)
    else LastMarked(marks[..|marks| - 1])
  }

  /** A mark appended at the end decides the last marked position when it is true. */
  lemma LastMarkedSnoc(marks: seq<bool>, b: bool)
    ensures LastMarked(marks + [b]) == if b then Some(|marks|) else LastMarked(marks)
  {
    assert (marks + [b])[..|marks|] == marks;
  }

  /** The index of the last element the scan selects: a loop that overwrites keeps that one. */
  function LastIndex(dom: Dom, scan: Scan): (r: Option<nat>)
    ensures r.Some? ==> r.value < |dom| && Selects(scan, dom[r.value])
    ensures r.Some? ==> forall j :: r.value < j < |dom| ==> !Selects(scan, dom[j])
    ensures r.None? <==> forall j :: 0 <= j < |dom| ==> !Selects(scan, dom[j])
  {
    LastMarked(Marks(dom, scan))
  }

  /** The last element the scan selects. */
  function Last(dom: Dom, scan: Scan): Option<Element> {
    match LastIndex(dom, scan)
    case None => None
    case Some(k) => Some(dom[k])
  }

  /** Appending an element: a selected one replaces what was kept. */
  lemma LastSnoc(dom: Dom, x: Element, scan: Scan)
    ensures Last(dom + [x], scan) == if Selects(scan, x) then Some(x) else Last(dom, scan)
  {
    var m := Marks(dom, scan);
    var b := Selects(scan, x);
    assert Marks(dom + [x], scan) == m + [b] by {
      forall j | 0 <= j < |dom| + 1
        ensures Marks(dom + [x], scan)[j] == (m + [b])[j]
      {
        if j < |dom| {
          assert (dom + [x])[j] == dom[j];
        }
      }
    }
    LastMarkedSnoc(m, b);
    if !b && LastIndex(dom, scan).Some? {
      assert (dom + [x])[LastIndex(dom, scan).value] == dom[LastIndex(dom, scan).value];
    }
  }

  /** One more iteration of a scan loop. */
  lemma LastStep(dom: Dom, i: nat, scan: Scan)
    requires i < |dom|
    ensures Last(dom[..i + 1], scan) == if Selects(scan, dom[i]) then Some(dom[i]) else Last(dom[..i], scan)
  {
    assert dom[..i + 1] == dom[..i] + [dom[i]];
    LastSnoc(dom[..i], dom[i], scan);
  }

  /** An element the scan does not select, wherever it stands, never changes what the scan keeps. */
  lemma {:induction false} LastIgnoresUnselected(before: Dom, e: Element, after: Dom, scan: Scan)
    requires !Selects(scan, e)
    ensures Last(before + [e] + after, scan) == Last(before + after, scan)
    decreases |after|
  {
    if after == [] {
      assert before + [e] + after == before + [e];
      assert before + after == before;
      LastSnoc(before, e, scan);
    } else {
      var x := after[|after| - 1];
      var init := after[..|after| - 1];
      assert before + [e] + after == (before + [e] + init) + [x];
      assert before + after == (before + init) + [x];
      LastSnoc(before + [e] + init, x, scan);
      LastSnoc(before + init, x, scan);
      LastIgnoresUnselected(before, e, init, scan);
    }
  }

  /** A selected element followed only by unselected ones is the one kept. */
  lemma LastMatchWins(before: Dom, e: Element, after: Dom, scan: Scan)
    requires Selects(scan, e)
    requires forall j :: 0 <= j < |after| ==> !Selects(scan, after[j])
    ensures Last(before + [e] + after, scan) == Some(e)
  {
    var dom := before + [e] + after;
    assert dom[|before|] == e;
    assert forall j :: |before| < j < |dom| ==> dom[j] == after[j - |before| - 1];
  }

  /** The serialisation of the last iframe whose src contains the player host. */
  function EmbedHtml(dom: Dom): Option<string> {
    match Last(dom, PlayerIframe)
    case None => None
    case Some(e) => Some(e.html)
  }

  /** The content of the last `<meta property="og:image">`. */
  function OgImageContent(dom: Dom): Option<string> {
    match Last(dom, OgImage)
    case None => None
    case Some(e) => Some(Attribute(e, "content"))
  }

  /** The text of the last date paragraph. */
  function DateParagraphText(dom: Dom): Option<string> {
    match Last(dom, DateParagraph)
    case None => None
    case Some(e) => Some(e.text)
  }

  /**
   * The array getData fills, key by key: a slot is None while its key is unset
   * ('html', 'thumbnail_url', 'podcast_date').
   */
  datatype Data = Data(html: Option<string>, thumbnailUrl: Option<Value>, podcastDate: Option<string>)

  const Unset := Data(None, None, None)

  /** The plugin's libsyn property after its keys are set: still NULL while no key is. */
  function Assemble(html: Option<string>, thumbnailUrl: Option<Value>, podcastDate: Option<string>): Option<Data> {
    if html.None? && thumbnailUrl.None? && podcastDate.None? then None
    else Some(Data(html, thumbnailUrl, podcastDate))
  }

  /** Assigning a key of a NULL variable first makes it an empty array. */
  function Filled(a: Option<Data>): Data {
    if a.Some? then a.value else Unset
  }

  /** A PHP array converts to true exactly when it has a key. */
  predicate NonEmpty(a: Option<Data>) {
    a.Some? && a.value != Unset
  }

  /** The html entry as preg_match sees it: an unset key reads as NULL, matched as "". */
  function HtmlSubject(d: Data): string {
    if d.html.Some? then d.html.value else ""
  }
}
