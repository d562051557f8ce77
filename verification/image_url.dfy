/**
 * Responsive image URLs for the cloud image service (`utils/getImageUrl.ts`):
 * the image's public id, taken as given or recovered from the URL path, and
 * the `src`/`srcSet` built from it. The browser's URL parser and the
 * configured base URL are inputs.
 */
module ImageUrl {
  import opened Wrappers
  import opened Strings
  import opened Seqs
  import opened TyreTypes

  /** The rendition widths of `srcSet`, in order. */
  const Widths: seq<nat> := [400, 800, 1200]
  const SrcWidth: nat := 800

  const FallbackSizes := "100vw"
  const ListSizes := "(max-width: 600px) 100vw, (max-width: 1024px) 50vw, 400px"

  /** The `src` of an image: the bundled logo or a link. */
  datatype Src = Logo | Link(url: string)

  datatype ImageUrls = ImageUrls(src: Src, srcSet: string, sizes: string)

  /** The logo with no `srcSet`. */
  const Fallback := ImageUrls(Logo, "", FallbackSizes)

  /** `filter(Boolean)` on strings. */
  function NonEmpty(): string -> bool {
    (s: string) => s != ""
  }

  /** `parts.findIndex(p => p.startsWith('v'))`. */
  function FirstVersionIndex(parts: seq<string>): (k: int)
    ensures -1 <= k < |parts|
    ensures k >= 0 ==> StartsWith(parts[k], "v") && forall j :: 0 <= j < k ==> !StartsWith(parts[j], "v")
    ensures k == -1 ==> forall j :: 0 <= j < |parts| ==> !StartsWith(parts[j], "v")
  {
    if |parts| == 0 then -1
    else if StartsWith(parts[0], "v") then 0
    else
      var k := FirstVersionIndex(parts[1..]);
      assert forall j :: 1 <= j < |parts| ==> parts[j] == parts[1..][j - 1];
      if k == -1 then -1 else k + 1
  }

  /**
   * `.replace(/\.[^/.]+$/, '')`: drops a final `.ext` whose extension is
   * non-empty and holds no `.` or `/`; otherwise the text is unchanged.
   */
  function StripExtension(s: string): (r: string)
    ensures |r| <= |s| && r == s[..|r|]
    ensures |r| < |s| ==> s[|r|] == '.' && |r| + 1 < |s| && '.' !in s[|r| + 1..] && '/' !in s[|r| + 1..]
  {
    var k := LastIndexOf(s, '.');
    if 0 <= k < |s| - 1 && '/' !in s[k + 1..] then
      assert forall j :: k + 1 <= j < |s| ==> s[j] == s[k + 1..][j - k - 1];
      s[..k]
    else s
  }

  /** The extension comes off exactly: stripping `name.ext` gives `name`. */
  lemma StripExtensionOf(name: string, ext: string)
    requires ext != [] && '.' !in ext && '/' !in ext
    ensures StripExtension(name + "." + ext) == name
  {
    var s := name + "." + ext;
    var k := LastIndexOf(s, '.');
    assert s[|name|] == '.';
    assert forall j :: |name| < j < |s| ==> s[j] == ext[j - |name| - 1];
    assert k == |name|;
    assert s[k + 1..] == ext;
  }

  /**
   * The public id recovered from a URL path: the non-empty segments after
   * the first one starting with `v`, joined by `/`, without the last
   * segment's extension. `None` when there is no such segment or nothing
   * follows it.
   */
  function PublicIdFromPath(pathname: string): (r: Option<string>)
    ensures var parts := Filter(NonEmpty(), Split(pathname, '/'));
      var v := FirstVersionIndex(parts);
      r.Some? <==> v != -1 && v + 1 < |parts|
  {
    var parts := Filter(NonEmpty(), Split(pathname, '/'));
    var v := FirstVersionIndex(parts);
    if v != -1 && |parts| > v + 1 then
      var idParts := parts[v + 1..];
      var last := |idParts| - 1;
      Some(Join(idParts[..last] + [StripExtension(idParts[last])], '/'))
    else None
  }

  /** Segments that are non-empty and free of `/`. */
  predicate PathSegments(segs: seq<string>) {
    forall k :: 0 <= k < |segs| ==> segs[k] != "" && '/' !in segs[k]
  }

  /**
   * The path of a cloud image URL, `/v<version>/<folders>/<name>.<ext>`,
   * yields `<folders>/<name>`: recovering the id inverts the URL layout.
   */
  lemma PublicIdOfCloudPath(ver: string, folders: seq<string>, name: string, ext: string)
    requires StartsWith(ver, "v") && '/' !in ver
    requires PathSegments(folders)
    requires '/' !in name
    requires ext != [] && '.' !in ext && '/' !in ext
    ensures PublicIdFromPath("/" + ver + "/" + Join(folders + [name + "." + ext], '/'))
      == Some(Join(folders + [name], '/'))
  {
    var segs := folders + [name + "." + ext];
    var path := "/" + ver + "/" + Join(segs, '/');
    var parts := PathPartsOf(ver, folders, name, ext);
    PublicIdOfParts(path, ver, segs);
    StripExtensionOf(name, ext);
    assert segs[..|segs| - 1] == folders;
  }

  /** A path whose non-empty segments are a version and then `segs` yields `segs` with the last one's extension stripped. */
  lemma PublicIdOfParts(pathname: string, ver: string, segs: seq<string>)
    requires Filter(NonEmpty(), Split(pathname, '/')) == [ver] + segs
    requires StartsWith(ver, "v") && |segs| >= 1
    ensures PublicIdFromPath(pathname) == Some(Join(segs[..|segs| - 1] + [StripExtension(segs[|segs| - 1])], '/'))
  {
    var parts := [ver] + segs;
    assert FirstVersionIndex(parts) == 0;
    assert parts[1..] == segs;
  }

  /** The non-empty segments of a cloud image path: the version, the folders, the file. */
  lemma PathPartsOf(ver: string, folders: seq<string>, name: string, ext: string) returns (parts: seq<string>)
    requires StartsWith(ver, "v") && '/' !in ver
    requires PathSegments(folders)
    requires '/' !in name
    requires ext != [] && '.' !in ext && '/' !in ext
    ensures parts == Filter(NonEmpty(), Split("/" + ver + "/" + Join(folders + [name + "." + ext], '/'), '/'))
    ensures parts == [ver] + folders + [name + "." + ext]
  {
    var file := name + "." + ext;
    var segs := folders + [file];
    FileNameSegment(folders, name, ext);
    SplitAfterRoot(ver, Join(segs, '/'));
    SplitJoin(segs, '/');
    DropRoot(ver, segs);
    parts := [ver] + segs;
  }

  /** Appending `name.ext` to path segments keeps them path segments. */
  lemma FileNameSegment(folders: seq<string>, name: string, ext: string)
    requires PathSegments(folders) && '/' !in name && '/' !in ext
    ensures PathSegments(folders + [name + "." + ext])
  {
    var file := name + "." + ext;
    assert '/' !in file by {
      assert forall j :: 0 <= j < |file| ==> file[j] == '.' || file[j] in name || file[j] in ext;
    }
    assert forall k :: 0 <= k < |folders| ==> (folders + [file])[k] == folders[k];
  }

  /** Dropping empty segments removes the root and keeps the version and the rest. */
  lemma DropRoot(ver: string, segs: seq<string>)
    requires ver != "" && PathSegments(segs)
    ensures Filter(NonEmpty(), ["", ver] + segs) == [ver] + segs
  {
    FilterConcat(NonEmpty(), ["", ver], segs);
    FilterConcat(NonEmpty(), [""], [ver]);
    FilterKeepsAll(NonEmpty(), segs);
    assert ["", ver] == [""] + [ver];
  }

  /** Splitting `/<ver>/<rest>` on `/` gives the empty root, the version, then the pieces of the rest. */
  lemma SplitAfterRoot(ver: string, rest: string)
    requires '/' !in ver
    ensures Split("/" + ver + "/" + rest, '/') == ["", ver] + Split(rest, '/')
  {
    var tail := ver + "/" + rest;
    SplitPrefix(ver, '/', rest);
    SplitPrefix("", '/', tail);
    assert "/" + ver + "/" + rest == "" + "/" + tail;
  }

  /**
   * The id used: an explicit non-empty `public_id` as is; otherwise, when
   * there is a URL whose path parses, the id recovered from it; `None` for a
   * missing or empty result.
   */
  function PublicId(image: ImageInfo, pathnameOf: string -> Option<string>): (r: Option<string>)
    ensures image.publicId.Some? && image.publicId.value != "" ==> r == image.publicId
    ensures r.Some? ==> r.value != ""
    ensures (image.publicId.None? || image.publicId.value == "") && image.url != "" && pathnameOf(image.url).Some?
      && PublicIdFromPath(pathnameOf(image.url).value).Some? && PublicIdFromPath(pathnameOf(image.url).value).value != ""
      ==> r == PublicIdFromPath(pathnameOf(image.url).value)
    ensures (image.publicId.None? || image.publicId.value == "") && (image.url == "" || pathnameOf(image.url).None?)
      ==> r.None?
  {
    if image.publicId.Some? && image.publicId.value != "" then image.publicId
    else if image.url == "" then None
    else
      match pathnameOf(image.url)
      case None => None
      case Some(p) =>
        var derived := PublicIdFromPath(p);
        if derived.Some? && derived.value != "" then derived else None
  }

  /** `${baseUrl}/w_${w}/${publicId}.webp`. */
  function Variant(baseUrl: string, w: nat, publicId: string): string {
    baseUrl + "/w_" + NatToString(w) + "/" + publicId + ".webp"
  }

  /** One `srcSet` entry: the variant followed by its width descriptor. */
  function SrcSetEntry(baseUrl: string, w: nat, publicId: string): string {
    Variant(baseUrl, w, publicId) + " " + NatToString(w) + "w"
  }

  function SrcSetEntries(baseUrl: string, widths: seq<nat>, publicId: string): (r: seq<string>)
    ensures |r| == |widths|
    ensures forall i :: 0 <= i < |widths| ==> r[i] == SrcSetEntry(baseUrl, widths[i], publicId)
  {
    seq(|widths|, i requires 0 <= i < |widths| => SrcSetEntry(baseUrl, widths[i], publicId))
  }

  /**
   * `getImageUrls(image)`: the logo without a `srcSet` when there is no
   * image, no base URL or no usable id; otherwise the 800-wide variant as
   * `src` and one entry per rendition width, in order, as `srcSet`.
   */
  function GetImageUrls(image: Option<ImageInfo>, baseUrl: string, pathnameOf: string -> Option<string>): (r: ImageUrls)
    ensures image.None? || baseUrl == "" ==> r == Fallback
    ensures image.Some? && baseUrl != "" && PublicId(image.value, pathnameOf).None? ==> r == Fallback
    ensures image.Some? && baseUrl != "" && PublicId(image.value, pathnameOf).Some? ==>
      var id := PublicId(image.value, pathnameOf).value;
      r.src == Link(Variant(baseUrl, SrcWidth, id))
      && r.srcSet == SrcSetEntry(baseUrl, 400, id) + ", " + SrcSetEntry(baseUrl, 800, id) + ", "
                     + SrcSetEntry(baseUrl, 1200, id)
      && r.sizes == ListSizes
    ensures r.src == Logo <==> r == Fallback
  {
    if image.None? || baseUrl == "" then Fallback
    else
      match PublicId(image.value, pathnameOf)
      case None => Fallback
      case Some(id) =>
        var entries := SrcSetEntries(baseUrl, Widths, id);
        assert entries[1..][1..] == [entries[2]];
        assert JoinWith(entries[1..], ", ") == entries[1] + ", " + entries[2];
        ImageUrls(Link(Variant(baseUrl, SrcWidth, id)), JoinWith(entries, ", "), ListSizes)
  }

  /** An explicit id wins over the URL: the URL is not even parsed. */
  lemma ExplicitIdIgnoresUrl(image: ImageInfo, baseUrl: string, p1: string -> Option<string>, p2: string -> Option<string>)
    requires image.publicId.Some? && image.publicId.value != ""
    ensures GetImageUrls(Some(image), baseUrl, p1) == GetImageUrls(Some(image), baseUrl, p2)
  {
  }

  /** `getImageUrlsSet(images)`: the URLs of the group's first image; a missing or empty group gives the logo. */
  function GetImageUrlsSet(images: Option<ImageGroup>, baseUrl: string, pathnameOf: string -> Option<string>): (r: ImageUrls)
    ensures images.None? || images.value == [] ==> r == Fallback
    ensures images.Some? && images.value != [] ==> r == GetImageUrls(Some(images.value[0]), baseUrl, pathnameOf)
  {
    if images.Some? && |images.value| > 0 then GetImageUrls(Some(images.value[0]), baseUrl, pathnameOf)
    else GetImageUrls(None, baseUrl, pathnameOf)
  }
}
