/**
 * The search-engine metadata of a listing page (`seo/TyreSeo.tsx`): title,
 * normalised description, preview image, the structured-data image list
 * and availability. The listing's pictures are given as image groups; a
 * listing without pictures has none.
 */
module TyreSeo {
  import opened Wrappers
  import opened Strings
  import opened TyreTypes
  import opened Seqs

  const TitlePrefix := "Шина "
  const TitleSuffix := " | Omega Tyres Market"
  const DefaultDescription := "Деталі оголошення про шини"
  const DescriptionLimit := 160
  const PreviewWidth := 800

  /** `${width}/${height}R${radius}`. */
  function SizeText(t: Tyre): string {
    Show(t.width) + "/" + Show(t.height) + "R" + Show(t.radius)
  }

  /** The page title: brand, model and size between the fixed prefix and the site name. */
  function Title(t: Tyre): (r: string)
    ensures StartsWith(r, TitlePrefix)
    ensures |r| == |TitlePrefix| + |t.brand| + 1 + |t.model| + 1 + |SizeText(t)| + |TitleSuffix|
    ensures r[|TitlePrefix|..|r| - |TitleSuffix|] == t.brand + " " + t.model + " " + SizeText(t)
    ensures r[|r| - |TitleSuffix|..] == TitleSuffix
  {
    var middle := t.brand + " " + t.model + " " + SizeText(t);
    var r := TitlePrefix + middle + TitleSuffix;
    assert r[..|TitlePrefix|] == TitlePrefix;
    assert r[|TitlePrefix|..|r| - |TitleSuffix|] == middle;
    r
  }

  /** `description?.slice(0, 160) || default`: an absent or empty description falls back to the default text. */
  function RawDescription(description: Option<string>): (r: string)
    ensures |r| <= DescriptionLimit
    ensures description.Some? && description.value != "" ==> r == Take(description.value, DescriptionLimit)
    ensures description.None? || description.value == "" ==> r == DefaultDescription
  {
    if description.Some? && Take(description.value, DescriptionLimit) != "" then Take(description.value, DescriptionLimit)
    else DefaultDescription
  }

  /**
   * The meta description: the raw text with every whitespace run collapsed
   * to one space and the ends trimmed. It is at most 160 characters, has no
   * whitespace at either end and no two adjacent whitespace characters, and
   * is exactly the words of the raw text, in order, joined by single spaces.
   */
  function Description(description: Option<string>): (r: string)
    ensures |r| <= DescriptionLimit
    ensures r == [] || (!IsJsSpace(r[0]) && !IsJsSpace(r[|r| - 1]))
    ensures NoDoubleSpace(r)
    ensures NonSpaces(r) == NonSpaces(RawDescription(description))
    ensures r == JoinWith(Words(RawDescription(description)), " ")
    ensures PlainSpaces(r)
  {
    var raw := RawDescription(description);
    var collapsed := CollapseSpaces(raw);
    var r := Trim(collapsed);
    var k :| OccursAt(collapsed, r, k);
    NoDoubleSpaceSlice(collapsed, r, k);
    PlainSpacesSlice(collapsed, r, k);
    TrimKeepsNonSpaces(collapsed);
    CollapseTrimJoinsWords(raw);
    r
  }

  /** The description keeps the words of the raw text: splitting it again gives them back. */
  lemma DescriptionKeepsWords(description: Option<string>)
    ensures Words(Description(description)) == Words(RawDescription(description))
  {
    var ws := Words(RawDescription(description));
    WordsJoinRoundTrip(ws);
  }

  /** The default text is already normalised, so a listing without description shows it verbatim. */
  lemma DescriptionDefault(description: Option<string>)
    requires description.None? || description.value == ""
    ensures Description(description) == DefaultDescription
  {
    var d := DefaultDescription;
    assert RawDescription(description) == d;
    DefaultDescriptionIsNormal();
    CollapseSpacesOfCollapsed(d);
    TrimOfTrimmed(d);
    assert Trim(CollapseSpaces(d)) == d;
  }

  /** The default text has single plain spaces between words and none at the ends. */
  lemma DefaultDescriptionIsNormal()
    ensures NoDoubleSpace(DefaultDescription)
    ensures forall i :: 0 <= i < |DefaultDescription| && IsJsSpace(DefaultDescription[i]) ==> DefaultDescription[i] == ' '
    ensures !IsJsSpace(DefaultDescription[0]) && !IsJsSpace(DefaultDescription[|DefaultDescription| - 1])
  {
    DefaultDescriptionChars();
    DefaultDescriptionSpaces();
    SeparatedWordsAreNormal(DefaultDescription, {6, 17, 21});
  }

  /** Every character of the default text is a plain space or a Cyrillic letter. */
  lemma DefaultDescriptionChars()
    ensures forall i :: 0 <= i < |DefaultDescription| ==>
      DefaultDescription[i] == ' ' || 0x400 <= DefaultDescription[i] as int <= 0x4FF
  {
  }

  /** The default text's spaces sit at positions 6, 17 and 21 of its 26 characters. */
  lemma DefaultDescriptionSpaces()
    ensures |DefaultDescription| == 26
    ensures forall i :: 0 <= i < |DefaultDescription| && DefaultDescription[i] == ' ' ==> i in {6, 17, 21}
  {
  }

  /**
   * A text of spaces and Cyrillic letters whose spaces sit at positions
   * that are neither adjacent nor at either end is normalised.
   */
  lemma SeparatedWordsAreNormal(d: string, spaces: set<int>)
    requires |d| >= 2 && 0 !in spaces && |d| - 1 !in spaces
    requires forall i :: i in spaces ==> i + 1 !in spaces
    requires forall i :: 0 <= i < |d| ==> d[i] == ' ' || 0x400 <= d[i] as int <= 0x4FF
    requires forall i :: 0 <= i < |d| && d[i] == ' ' ==> i in spaces
    ensures NoDoubleSpace(d)
    ensures forall i :: 0 <= i < |d| && IsJsSpace(d[i]) ==> d[i] == ' '
    ensures !IsJsSpace(d[0]) && !IsJsSpace(d[|d| - 1])
  {
  }

  /**
   * A description made only of whitespace is truthy, so it does not fall back
   * to the default: the meta description comes out empty.
   */
  lemma BlankDescriptionIsEmpty(text: string)
    requires text != [] && AllSpaces(Take(text, DescriptionLimit))
    ensures Description(Some(text)) == []
  {
    var raw := RawDescription(Some(text));
    var collapsed := CollapseSpaces(raw);
    assert NonSpaces(raw) == [] by {
      NonSpacesOfSpaces(raw, []);
      assert raw + [] == raw;
    }
    AllSpacesOfNoNonSpaces(Trim(collapsed));
  }

  /** A string with no non-space characters that trims to itself is empty. */
  lemma AllSpacesOfNoNonSpaces(r: string)
    requires NonSpaces(r) == []
    requires r == [] || !IsJsSpace(r[0])
    ensures r == []
  {
  }

  /** The index of the first picture of `g` that is `w` pixels wide, if any. */
  function FirstWithWidth(g: ImageGroup, w: int): (r: Option<nat>)
    ensures r.Some? ==> r.value < |g| && g[r.value].width == w && forall j :: 0 <= j < r.value ==> g[j].width != w
    ensures r.None? ==> forall j :: 0 <= j < |g| ==> g[j].width != w
  {
    if |g| == 0 then None
    else if g[0].width == w then Some(0)
    else
      match FirstWithWidth(g[1..], w)
      case None => None
      case Some(k) => Some(k + 1)
  }

  /**
   * The preview image: the URL of the first 800-wide picture of the first
   * group, else the URL of that group's first picture, else none; an empty
   * URL counts as missing.
   */
  function Image(groups: seq<ImageGroup>): (r: Option<string>)
    ensures r.Some? ==> r.value != "" && |groups| > 0
    ensures |groups| > 0 && FirstWithWidth(groups[0], PreviewWidth).Some?
      && groups[0][FirstWithWidth(groups[0], PreviewWidth).value].url != ""
      ==> r == Some(groups[0][FirstWithWidth(groups[0], PreviewWidth).value].url)
    ensures r.Some? ==> exists j :: 0 <= j < |groups[0]| && groups[0][j].url == r.value
    ensures |groups| == 0 || groups[0] == [] ==> r.None?
  {
    if |groups| == 0 then None
    else
      var g := groups[0];
      var w := FirstWithWidth(g, PreviewWidth);
      if w.Some? && g[w.value].url != "" then Some(g[w.value].url)
      else if |g| > 0 && g[0].url != "" then Some(g[0].url)
      else None
  }

  /**
   * Only the first 800-wide picture is looked at: when its URL is empty the
   * group's first picture is used, even if a later 800-wide picture has one.
   */
  lemma ImageLooksAtFirstPreviewOnly(groups: seq<ImageGroup>)
    requires |groups| > 0 && |groups[0]| > 0
    requires FirstWithWidth(groups[0], PreviewWidth).Some?
    requires groups[0][FirstWithWidth(groups[0], PreviewWidth).value].url == ""
    ensures Image(groups) == (if groups[0][0].url != "" then Some(groups[0][0].url) else None)
  {
  }

  /** The URL of every picture of a group, in order. */
  function UrlsOf(g: ImageGroup): (r: seq<string>)
    ensures |r| == |g|
    ensures forall j :: 0 <= j < |g| ==> r[j] == g[j].url
  {
    seq(|g|, j requires 0 <= j < |g| => g[j].url)
  }

  /** The non-empty URLs of one group, in order. */
  function GroupUrls(g: ImageGroup): (r: seq<string>)
    ensures forall k :: 0 <= k < |r| ==> r[k] != ""
    ensures forall u :: u in r <==> u != "" && u in UrlsOf(g)
  {
    if |g| == 0 then []
    else
      var rest := GroupUrls(g[1..]);
      assert UrlsOf(g) == [g[0].url] + UrlsOf(g[1..]);
      if g[0].url != "" then [g[0].url] + rest else rest
  }

  /** A URL is kept when it is not empty (`filter(Boolean)`). */
  function NonEmptyUrl(): string -> bool {
    (u: string) => u != ""
  }

  /** The group's URLs are its pictures' URLs filtered to the non-empty ones, order and repeats kept. */
  lemma {:induction false} GroupUrlsIsFilter(g: ImageGroup)
    ensures GroupUrls(g) == Filter(NonEmptyUrl(), UrlsOf(g))
  {
    if |g| > 0 {
      GroupUrlsIsFilter(g[1..]);
      assert UrlsOf(g) == [g[0].url] + UrlsOf(g[1..]);
      assert UrlsOf(g)[1..] == UrlsOf(g[1..]);
    }
  }

  /** A group none of whose URLs is empty lists all of them, in order. */
  lemma GroupUrlsKeepsAll(g: ImageGroup)
    requires forall j :: 0 <= j < |g| ==> g[j].url != ""
    ensures GroupUrls(g) == UrlsOf(g)
  {
    GroupUrlsIsFilter(g);
    FilterKeepsAll(NonEmptyUrl(), UrlsOf(g));
  }

  /** The URLs of two groups in a row are the first's followed by the second's. */
  lemma UrlsOfConcat(a: ImageGroup, b: ImageGroup)
    ensures UrlsOf(a + b) == UrlsOf(a) + UrlsOf(b)
  {
    assert forall j :: 0 <= j < |b| ==> (a + b)[|a| + j] == b[j];
  }

  /** Splitting a group splits its URL list at the same place. */
  lemma GroupUrlsConcat(a: ImageGroup, b: ImageGroup)
    ensures GroupUrls(a + b) == GroupUrls(a) + GroupUrls(b)
  {
    GroupUrlsIsFilter(a + b);
    GroupUrlsIsFilter(a);
    GroupUrlsIsFilter(b);
    UrlsOfConcat(a, b);
    FilterConcat(NonEmptyUrl(), UrlsOf(a), UrlsOf(b));
  }

  /** `allImages`: every non-empty URL of every group, groups in order and pictures in order within each. */
  function AllImages(groups: seq<ImageGroup>): (r: seq<string>)
    ensures forall k :: 0 <= k < |r| ==> r[k] != ""
  {
    if |groups| == 0 then []
    else GroupUrls(groups[0]) + AllImages(groups[1..])
  }

  /** `flatMap` distributes over the groups. */
  lemma {:induction false} AllImagesConcat(a: seq<ImageGroup>, b: seq<ImageGroup>)
    ensures AllImages(a + b) == AllImages(a) + AllImages(b)
  {
    if |a| == 0 {
      assert a + b == b;
    } else {
      assert (a + b)[1..] == a[1..] + b;
      AllImagesConcat(a[1..], b);
    }
  }

  /** A URL is listed exactly when it is not empty and some picture of some group has it. */
  lemma {:induction false} AllImagesMembers(groups: seq<ImageGroup>, u: string)
    ensures u in AllImages(groups) <==> u != "" && exists i :: 0 <= i < |groups| && u in UrlsOf(groups[i])
  {
    if |groups| > 0 {
      AllImagesMembers(groups[1..], u);
      if u in AllImages(groups[1..]) {
        var i :| 0 <= i < |groups[1..]| && u in UrlsOf(groups[1..][i]);
        assert u in UrlsOf(groups[i + 1]);
      }
      if u != "" && exists i :: 0 <= i < |groups| && u in UrlsOf(groups[i]) {
        var i :| 0 <= i < |groups| && u in UrlsOf(groups[i]);
        if i > 0 {
          assert u in UrlsOf(groups[1..][i - 1]);
        }
      }
    }
  }

  /** The preview image is one of the structured-data images. */
  lemma ImageIsListed(groups: seq<ImageGroup>)
    requires Image(groups).Some?
    ensures Image(groups).value in AllImages(groups)
  {
    var u := Image(groups).value;
    var j :| 0 <= j < |groups[0]| && groups[0][j].url == u;
    assert UrlsOf(groups[0])[j] == u;
    AllImagesMembers(groups, u);
  }

  datatype Availability = InStock | OutOfStock

  /** The offer is in stock exactly when the listing is active. */
  function OfferAvailability(t: Tyre): (r: Availability)
    ensures r == InStock <==> t.isActive
  {
    if t.isActive then InStock else OutOfStock
  }
}
