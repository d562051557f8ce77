/**
 * Filling the edit form from a stored listing (`utils/mapTyreToTyreForm.ts`):
 * numeric fields become text, missing texts become empty, and the legacy
 * flat URL list is lifted to image groups.
 */
module TyreForm {
  import opened Wrappers
  import opened Strings
  import opened TyreTypes

  /** The width recorded for a picture carried over from the flat URL format. */
  const LegacyWidth := 500

  /** The values of the edit form. */
  datatype Form = Form(
    brand: string,
    model: string,
    width: string,
    height: string,
    radius: string,
    quantity: string,
    season: string,
    vehicle: string,
    year: string,
    treadDepth: string,
    treadPercent: string,
    city: string,
    condition: string,
    price: string,
    contact: string,
    description: string,
    images: seq<ImageGroup>)

  /** `String(v ?? '')`: a missing value is the empty text, a number its decimal form. */
  function Stringify(v: FieldValue): (r: string)
    ensures v.Absent? ==> r == ""
    ensures v.Text? ==> r == v.text
    ensures v.Number? ==> r != [] && (v.n >= 0 ==> r == NatToString(v.n))
  {
    match v
    case Absent => ""
    case Text(t) => t
    case Number(n) => IntToString(n)
  }

  /** Only a missing value reads differently in the form than in a template literal. */
  lemma StringifyAgreesWithShow(v: FieldValue)
    ensures v.Absent? <==> Stringify(v) != Show(v)
  {
    if v.Absent? {
      assert Show(v) == "undefined";
    }
  }

  /** A non-negative number put in the form reads back as the same number. */
  lemma StringifyNumberReadsBack(n: nat)
    ensures var s := Stringify(Number(n));
      (forall k :: 0 <= k < |s| ==> '0' <= s[k] <= '9') && DigitsValue(s) == n
  {
    NatToStringRoundTrip(n);
  }

  /** One singleton group per legacy URL. */
  function LiftUrls(urls: seq<string>): (r: seq<ImageGroup>)
    ensures |r| == |urls|
    ensures forall i :: 0 <= i < |urls| ==> r[i] == [ImageInfo(LegacyWidth, urls[i], None)]
  {
    seq(|urls|, i requires 0 <= i < |urls| => [ImageInfo(LegacyWidth, urls[i], None)])
  }

  /**
   * `convertToNewImagesFormat`: missing images are none, a non-empty list of
   * groups is kept as it is, and a flat URL list becomes one group per URL.
   */
  function ConvertImages(images: Images): (r: seq<ImageGroup>)
    ensures images.NoImages? ==> r == []
    ensures images.Grouped? ==> r == images.groups
    ensures images.FlatUrls? ==> r == LiftUrls(images.urls)
  {
    match images
    case NoImages => []
    case Grouped(groups) => if |groups| > 0 then groups else LiftUrls([])
    case FlatUrls(urls) => LiftUrls(urls)
  }

  /** The URL of each group's first picture. */
  function FirstUrls(groups: seq<ImageGroup>): (r: seq<string>)
    requires forall i :: 0 <= i < |groups| ==> |groups[i]| > 0
    ensures |r| == |groups|
    ensures forall i :: 0 <= i < |groups| ==> r[i] == groups[i][0].url
  {
    seq(|groups|, i requires 0 <= i < |groups| => groups[i][0].url)
  }

  /** The lift loses nothing: the legacy URLs are the first URLs of the groups, in order. */
  lemma LiftUrlsRoundTrip(urls: seq<string>)
    ensures var groups := ConvertImages(FlatUrls(urls));
      (forall i :: 0 <= i < |groups| ==> |groups[i]| == 1) && FirstUrls(groups) == urls
  {
  }

  /** Converting an already converted list changes nothing. */
  lemma ConvertImagesIdempotent(images: Images)
    ensures ConvertImages(Grouped(ConvertImages(images))) == ConvertImages(images)
  {
  }

  /** `mapTyreToTyreForm`: every field of the listing in its form shape. */
  function MapTyreToTyreForm(t: Tyre): (f: Form)
    ensures f.brand == t.brand && f.model == t.model && f.season == t.season
    ensures f.vehicle == t.vehicle && f.city == t.city && f.condition == t.condition
    ensures f.width == Stringify(t.width) && f.height == Stringify(t.height) && f.radius == Stringify(t.radius)
    ensures f.quantity == Stringify(t.quantity) && f.year == Stringify(t.year)
    ensures f.treadDepth == Stringify(t.treadDepth) && f.treadPercent == Stringify(t.treadPercent)
    ensures f.price == Stringify(t.price)
    ensures t.contact.Some? ==> f.contact == t.contact.value
    ensures t.contact.None? ==> f.contact == ""
    ensures t.description.Some? ==> f.description == t.description.value
    ensures t.description.None? ==> f.description == ""
    ensures f.images == ConvertImages(t.images)
  {
    Form(t.brand, t.model, Stringify(t.width), Stringify(t.height), Stringify(t.radius),
      Stringify(t.quantity), t.season, t.vehicle, Stringify(t.year), Stringify(t.treadDepth),
      Stringify(t.treadPercent), t.city, t.condition, Stringify(t.price),
      t.contact.GetOr(""), t.description.GetOr(""), ConvertImages(t.images))
  }

  /** A listing's numbers survive the trip into the form: the size fields read back as stored. */
  lemma FormKeepsSize(t: Tyre, w: nat, h: nat, r: nat)
    requires t.width == Number(w) && t.height == Number(h) && t.radius == Number(r)
    ensures var f := MapTyreToTyreForm(t);
      f.width == NatToString(w) && f.height == NatToString(h) && f.radius == NatToString(r)
      && DigitsValue(f.width) == w && DigitsValue(f.height) == h && DigitsValue(f.radius) == r
  {
    NatToStringRoundTrip(w);
    NatToStringRoundTrip(h);
    NatToStringRoundTrip(r);
  }
}
