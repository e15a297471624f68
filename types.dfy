/** The captured clipboard snapshot (`ClipboardItem`), its payload, the image format
    tags with their MIME and file-extension maps, and the read-side search filter. */
module ItemTypes {

  import opened Wrappers
  import opened Ints
  import opened Strings

  /** Instants are the values `Utc::now` returns, passed in by the caller. */
  type Timestamp = int

  datatype ContentType = Text | Image

  datatype ImageFormat = Png | Jpeg | Gif | Bmp

  datatype ImageData = ImageData(data: seq<byte>, format: ImageFormat, width: u32, height: u32)

  datatype ClipboardContent = TextPayload(text: string) | ImagePayload(image: ImageData)

  datatype ClipboardItem = ClipboardItem(
    id: Option<int>,
    contentType: ContentType,
    content: ClipboardContent,
    contentHash: string,
    contentSize: nat,
    createdAt: Timestamp,
    accessedAt: Timestamp,
    accessCount: u32,
    isFavorite: bool)

  /** The two `DefaultHasher` digests: one over a `str`, one over a `[u8]` (they feed the
      hasher different byte streams, so they are two unrelated functions). Nothing is
      assumed about them, in particular not that they are free of collisions. */
  datatype Hasher = Hasher(text: string -> u64, bytes: seq<byte> -> u64)

  /** `calculate_hash_text`: the digest rendered with `{:x}`. */
  function HashText(h: Hasher, s: string): string
  {
    LowerHex(h.text(s))
  }

  /** `calculate_hash_bytes`: the digest rendered with `{:x}`. */
  function HashBytes(h: Hasher, d: seq<byte>): string
  {
    LowerHex(h.bytes(d))
  }

  /** Comparing rendered hashes is comparing digests: `{:x}` loses nothing. */
  lemma HashStringsAgreeWithDigests(h: Hasher, s: string, t: string, d: seq<byte>, e: seq<byte>)
    ensures HashText(h, s) == HashText(h, t) <==> h.text(s) == h.text(t)
    ensures HashBytes(h, d) == HashBytes(h, e) <==> h.bytes(d) == h.bytes(e)
  {
    RenderInjective(h.text(s), h.text(t), 16);
    RenderInjective(h.bytes(d), h.bytes(e), 16);
  }

  /** The item invariants: the tag agrees with the payload, the size is the payload's
      byte length, the hash is computed over that payload, and `created_at <= accessed_at`. */
  predicate WellFormed(h: Hasher, item: ClipboardItem)
  {
    && item.createdAt <= item.accessedAt
    && match item.content
       case TextPayload(s) =>
         item.contentType == Text && item.contentSize == Utf8Length(s) && item.contentHash == HashText(h, s)
       case ImagePayload(d) =>
         item.contentType == Image && item.contentSize == |d.data| && item.contentHash == HashBytes(h, d.data)
  }

  /** A freshly captured item: no id yet, never accessed, not a favourite. */
  predicate Fresh(item: ClipboardItem, now: Timestamp)
  {
    item.id == None && item.accessCount == 0 && !item.isFavorite
    && item.createdAt == now && item.accessedAt == now
  }

  /** `ClipboardItem::new_text`. */
  function NewText(h: Hasher, content: string, now: Timestamp): (r: ClipboardItem)
    ensures WellFormed(h, r) && Fresh(r, now)
    ensures r.content == TextPayload(content) && r.contentType == Text
    ensures r.contentSize == Utf8Length(content) && r.contentHash == HashText(h, content)
  {
    ClipboardItem(None, Text, TextPayload(content), HashText(h, content), Utf8Length(content), now, now, 0, false)
  }

  /** `ClipboardItem::new_image`. */
  function NewImage(h: Hasher, image: ImageData, now: Timestamp): (r: ClipboardItem)
    ensures WellFormed(h, r) && Fresh(r, now)
    ensures r.content == ImagePayload(image) && r.contentType == Image
    ensures r.contentSize == |image.data| && r.contentHash == HashBytes(h, image.data)
  {
    ClipboardItem(None, Image, ImagePayload(image), HashBytes(h, image.data), |image.data|, now, now, 0, false)
  }

  /** `ClipboardItem::new`, kept for backward compatibility: the same as `new_text`. */
  function New(h: Hasher, content: string, now: Timestamp): (r: ClipboardItem)
    ensures r == NewText(h, content, now)
  {
    NewText(h, content, now)
  }

  const ELLIPSIS: string := "..."

  /** `preview`: text cut to at most `maxLength` characters (never inside a character),
      with "..." appended when something was cut; images are described by size. */
  function Preview(item: ClipboardItem, maxLength: nat): (r: string)
    ensures item.content.TextPayload? && |item.content.text| <= maxLength ==> r == item.content.text
    ensures item.content.TextPayload? && |item.content.text| > maxLength ==>
              r == item.content.text[..maxLength] + ELLIPSIS
    ensures item.content.ImagePayload? ==>
              var d := item.content.image;
              r == "Image (" + Decimal(d.width) + "x" + Decimal(d.height) + ", " + Decimal(|d.data|) + " bytes)"
  {
    match item.content
    case TextPayload(text) =>
      if |text| <= maxLength then text else text[..maxLength] + ELLIPSIS
    case ImagePayload(d) =>
      "Image (" + Decimal(d.width) + "x" + Decimal(d.height) + ", " + Decimal(|d.data|) + " bytes)"
  }

  /** What a text preview promises a reader: it starts with the text's first
      `min(|text|, maxLength)` characters, is at most three characters longer than
      `maxLength`, and carries the ellipsis exactly when the text was cut. */
  lemma PreviewOfText(item: ClipboardItem, maxLength: nat)
    requires item.content.TextPayload?
    ensures var text, r := item.content.text, Preview(item, maxLength);
      var kept := if |text| <= maxLength then |text| else maxLength;
      && kept <= |r| && r[..kept] == text[..kept]
      && |r| <= maxLength + |ELLIPSIS|
      && (|text| > maxLength <==> |r| == kept + |ELLIPSIS|)
      && (|text| > maxLength ==> r[kept..] == ELLIPSIS)
  {
  }

  /** The empty text previews as the empty string whatever the bound. */
  lemma PreviewOfEmptyText(item: ClipboardItem, maxLength: nat)
    requires item.content == TextPayload("")
    ensures Preview(item, maxLength) == ""
  {
  }

  /** `get_text_content`. */
  function GetTextContent(item: ClipboardItem): (r: Option<string>)
    ensures r.Some? <==> item.content.TextPayload?
    ensures r.Some? ==> item.content == TextPayload(r.value)
  {
    match item.content
    case TextPayload(text) => Some(text)
    case _ => None
  }

  /** `get_image_data`. */
  function GetImageData(item: ClipboardItem): (r: Option<ImageData>)
    ensures r.Some? <==> item.content.ImagePayload?
    ensures r.Some? ==> item.content == ImagePayload(r.value)
  {
    match item.content
    case ImagePayload(d) => Some(d)
    case _ => None
  }

  /** `update_access` (an `&mut self` update; Rust ownership rules out aliasing, so
      returning the updated value is exact). The counter is a `u32`, so in a release
      build the increment wraps at 2^32. */
  function UpdateAccess(item: ClipboardItem, now: Timestamp): (r: ClipboardItem)
    ensures r.accessedAt == now
    ensures item.accessCount < U32_MODULUS - 1 ==> r.accessCount == item.accessCount + 1
    ensures (r.accessCount - item.accessCount - 1) % U32_MODULUS == 0
    ensures r.(accessedAt := item.accessedAt, accessCount := item.accessCount) == item
  {
    item.(accessedAt := now, accessCount := AsU32(item.accessCount + 1))
  }

  /** Recording an access at a later (or equal) instant keeps an item well-formed. */
  lemma UpdateAccessKeepsWellFormed(h: Hasher, item: ClipboardItem, now: Timestamp)
    requires WellFormed(h, item) && item.accessedAt <= now
    ensures WellFormed(h, UpdateAccess(item, now))
  {
  }

  /** `update_access` applied once per instant of `nows`, in order. */
  function UpdateAccessAll(item: ClipboardItem, nows: seq<Timestamp>): ClipboardItem
    decreases |nows|
  {
    if nows == [] then item else UpdateAccessAll(UpdateAccess(item, nows[0]), nows[1..])
  }

  predicate NonDecreasing(nows: seq<Timestamp>)
  {
    forall i, j :: 0 <= i < j < |nows| ==> nows[i] <= nows[j]
  }

  /** t recorded accesses add exactly t to the counter (modulo 2^32), and with a clock that
      never runs backwards the item stays well-formed and `accessed_at` never decreases. */
  lemma {:induction false} RepeatedAccess(h: Hasher, item: ClipboardItem, nows: seq<Timestamp>)
    requires WellFormed(h, item)
    requires NonDecreasing(nows) && (nows != [] ==> item.accessedAt <= nows[0])
    ensures var r := UpdateAccessAll(item, nows);
      && r.accessCount == (item.accessCount + |nows|) % U32_MODULUS
      && item.accessedAt <= r.accessedAt
      && WellFormed(h, r)
      && r.(accessedAt := item.accessedAt, accessCount := item.accessCount) == item
    decreases |nows|
  {
    if nows != [] {
      var next := UpdateAccess(item, nows[0]);
      UpdateAccessKeepsWellFormed(h, item, nows[0]);
      NonDecreasingTail(nows);
      RepeatedAccess(h, next, nows[1..]);
      assert next.accessCount == (item.accessCount + 1) % U32_MODULUS;
      ModAddOne(item.accessCount, |nows| - 1);
    }
  }

  lemma NonDecreasingTail(nows: seq<Timestamp>)
    requires NonDecreasing(nows) && nows != []
    ensures NonDecreasing(nows[1..])
    ensures nows[1..] != [] ==> nows[0] <= nows[1..][0]
  {
    forall i, j | 0 <= i < j < |nows[1..]| ensures nows[1..][i] <= nows[1..][j] {
      assert nows[1..][i] == nows[i + 1] && nows[1..][j] == nows[j + 1];
    }
  }

  lemma ModAddOne(c: int, n: nat)
    ensures ((c + 1) % U32_MODULUS + n) % U32_MODULUS == (c + n + 1) % U32_MODULUS
  {
  }

  /** `ImageData::new`. */
  function NewImageData(data: seq<byte>, format: ImageFormat, width: u32, height: u32): (r: ImageData)
    ensures r.data == data && r.format == format && r.width == width && r.height == height
  {
    ImageData(data, format, width, height)
  }

  /** `ImageFormat::to_mime_type`. */
  function ToMimeType(f: ImageFormat): string
  {
    match f
    case Png => "image/png"
    case Jpeg => "image/jpeg"
    case Gif => "image/gif"
    case Bmp => "image/bmp"
  }

  /** `ImageFormat::from_mime_type`: the four canonical types, plus the spelling "image/jpg". */
  function FromMimeType(mime: string): (r: Option<ImageFormat>)
    ensures r.Some? <==> mime in {"image/png", "image/jpeg", "image/jpg", "image/gif", "image/bmp"}
  {
    match mime
    case "image/png" => Some(Png)
    case "image/jpeg" => Some(Jpeg)
    case "image/jpg" => Some(Jpeg)
    case "image/gif" => Some(Gif)
    case "image/bmp" => Some(Bmp)
    case _ => None
  }

  /** The two maps are inverse: every format survives the round trip, and the only
      string other than a canonical MIME type that is recognised is "image/jpg". */
  lemma MimeRoundTrip(f: ImageFormat, mime: string)
    ensures FromMimeType(ToMimeType(f)) == Some(f)
    ensures FromMimeType(mime) == Some(f) <==> mime == ToMimeType(f) || (f == Jpeg && mime == "image/jpg")
  {
  }

  /** `ImageFormat::file_extension`. */
  function FileExtension(f: ImageFormat): (r: string)
    ensures |r| == 3
  {
    match f
    case Png => "png"
    case Jpeg => "jpg"
    case Gif => "gif"
    case Bmp => "bmp"
  }

  /** Distinct formats have distinct extensions and distinct MIME types. */
  lemma FormatNamesDistinct(f: ImageFormat, g: ImageFormat)
    ensures FileExtension(f) == FileExtension(g) <==> f == g
    ensures ToMimeType(f) == ToMimeType(g) <==> f == g
  {
  }

  datatype SearchFilter = SearchFilter(
    query: string,
    contentType: Option<ContentType>,
    favoritesOnly: bool,
    dateRange: Option<(Timestamp, Timestamp)>)

  /** `SearchFilter::default`: the unrestricted filter. */
  function DefaultSearchFilter(): (r: SearchFilter)
    ensures r.query == "" && r.contentType == None && !r.favoritesOnly && r.dateRange == None
  {
    SearchFilter("", None, false, None)
  }
}
