/**
 * The listing record, image records, filter fields and sort keys of the
 * tyre classifieds client (`types/tyre.ts`, `constants/tyreOptions.ts`,
 * `utils/getImageUrl.ts`).
 */
module TyreTypes {
  import opened Wrappers
  import opened Strings

  /** One rendition of an uploaded picture; `publicId` is the cloud image id when the backend stored it. */
  datatype ImageInfo = ImageInfo(width: int, url: string, publicId: Option<string>)

  /** All renditions of one uploaded picture. */
  type ImageGroup = seq<ImageInfo>

  /** The `images` field as the backend may send it: missing, a legacy flat URL list, or groups. */
  datatype Images = NoImages | FlatUrls(urls: seq<string>) | Grouped(groups: seq<ImageGroup>)

  /** A field the backend sends as a number, a string, or not at all. */
  datatype FieldValue = Absent | Text(text: string) | Number(n: int)

  /** `${v}` inside a template literal. */
  function Show(v: FieldValue): string {
    match v
    case Absent => "undefined"
    case Text(t) => t
    case Number(n) => IntToString(n)
  }

  /**
   * A listing. Timestamps are milliseconds since the epoch; `isFavorite` is
   * the client-side flag (absent reads as false).
   */
  datatype Tyre = Tyre(
    id: string,
    userId: string,
    brand: string,
    model: string,
    width: FieldValue,
    height: FieldValue,
    radius: FieldValue,
    year: FieldValue,
    quantity: FieldValue,
    treadDepth: FieldValue,
    treadPercent: FieldValue,
    price: FieldValue,
    season: string,
    vehicle: string,
    condition: string,
    city: string,
    contact: Option<string>,
    description: Option<string>,
    images: Images,
    expiresAt: int,
    willBeDeletedAt: int,
    isActive: bool,
    isDeleted: bool,
    isExpired: bool,
    isFavorite: bool)

  /** The `_id` of every listing, in order. */
  function IdsOf(tyres: seq<Tyre>): (r: seq<string>)
    ensures |r| == |tyres|
    ensures forall i :: 0 <= i < |tyres| ==> r[i] == tyres[i].id
  {
    seq(|tyres|, i requires 0 <= i < |tyres| => tyres[i].id)
  }

  /** No two listings share an `_id`. */
  predicate DistinctIds(tyres: seq<Tyre>) {
    forall i, j :: 0 <= i < j < |tyres| ==> tyres[i].id != tyres[j].id
  }

  /** The seven filter keys (`TyreFilterField`). */
  datatype FilterField = Width | Height | Radius | Title | Season | Vehicle | Condition

  /** The key order of `EMPTY_FILTERS` and of the enum. */
  const FieldOrder: seq<FilterField> := [Width, Height, Radius, Title, Season, Vehicle, Condition]

  /** The query-string / storage key of a field. */
  function FieldName(f: FilterField): string {
    match f
    case Width => "width"
    case Height => "height"
    case Radius => "radius"
    case Title => "title"
    case Season => "season"
    case Vehicle => "vehicle"
    case Condition => "condition"
  }

  lemma FieldOrderComplete(f: FilterField)
    ensures f in FieldOrder
  {
  }

  /**
   * Filter values by field. A key that is missing stands for `undefined`,
   * which a filter object read back from storage may lack.
   */
  type Filters = map<FilterField, string>

  /** `filters[field]`: the value, or nothing for `undefined`. */
  function Get(filters: Filters, f: FilterField): Option<string> {
    if f in filters then Some(filters[f]) else None
  }

  /** Every field present and empty. */
  const EmptyFilters: Filters :=
    map[Width := "", Height := "", Radius := "", Title := "", Season := "", Vehicle := "", Condition := ""]

  /** `SortOption`; `Unsorted` is the enum's empty-string member `None`. */
  datatype SortOption = Unsorted | Newest | Oldest | PriceAsc | PriceDesc

  function SortValue(s: SortOption): string {
    match s
    case Unsorted => ""
    case Newest => "newest"
    case Oldest => "oldest"
    case PriceAsc => "priceAsc"
    case PriceDesc => "priceDesc"
  }
}
