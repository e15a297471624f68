/** `ClipboardItem::from_row`: turning a stored row back into an item. The string tags
    are decoded with defaults, text falls back to the legacy `content` column, and an
    image row must carry all four image columns. */
module RowDecode {

  import opened Wrappers
  import opened Ints
  import opened ItemTypes
  import opened Rows

  /** Any tag other than "image" reads as text. */
  function DecodeContentType(tag: string): (t: ContentType)
    ensures t == Image <==> tag == "image"
  {
    match tag
    case "text" => Text
    case "image" => Image
    case _ => Text
  }

  /** Any tag other than the four known ones reads as PNG. */
  function DecodeImageFormat(tag: string): (f: ImageFormat)
    ensures tag !in {"png", "jpeg", "gif", "bmp"} ==> f == Png
    ensures tag in {"png", "jpeg", "gif", "bmp"} ==> FormatTag(f) == tag
  {
    match tag
    case "png" => Png
    case "jpeg" => Jpeg
    case "gif" => Gif
    case "bmp" => Bmp
    case _ => Png
  }

  /** The tags `insert_item` writes decode to what they were written from. */
  lemma TagsRoundTrip(t: ContentType, f: ImageFormat)
    ensures DecodeContentType(TypeTag(t)) == t
    ensures DecodeImageFormat(FormatTag(f)) == f
  {
  }

  /** The text of a text row: `content_text`, else the legacy `content`, else empty. */
  function RowText(r: Row): (s: string)
    ensures r.contentText.Some? ==> s == r.contentText.value
    ensures r.contentText.None? && r.content.Some? ==> s == r.content.value
    ensures r.contentText.None? && r.content.None? ==> s == ""
  {
    match r.contentText
    case Some(text) => text
    case None =>
      match r.content
      case Some(legacy) => legacy
      case None => ""
  }

  /** The payload of a row, or the name of the image column that is NULL. */
  function DecodeContent(r: Row): (c: Result<ClipboardContent, string>)
    ensures DecodeContentType(r.contentType) == Text <==> c.Ok? && c.value.TextPayload?
    ensures c.Ok? && c.value.TextPayload? ==> c.value.text == RowText(r)
    ensures c.Ok? && c.value.ImagePayload? ==>
              && r.contentData == Some(c.value.image.data)
              && r.imageWidth.Some? && c.value.image.width == AsU32(r.imageWidth.value)
              && r.imageHeight.Some? && c.value.image.height == AsU32(r.imageHeight.value)
              && r.imageFormat.Some? && c.value.image.format == DecodeImageFormat(r.imageFormat.value)
    ensures c.Err? <==>
              (DecodeContentType(r.contentType) == Image &&
               (r.contentData.None? || r.imageWidth.None? || r.imageHeight.None? || r.imageFormat.None?))
  {
    match DecodeContentType(r.contentType)
    case Text => Ok(TextPayload(RowText(r)))
    case Image =>
      if r.contentData.None? then Err("content_data")
      else if r.imageWidth.None? then Err("image_width")
      else if r.imageHeight.None? then Err("image_height")
      else if r.imageFormat.None? then Err("image_format")
      else
        Ok(ImagePayload(NewImageData(r.contentData.value, DecodeImageFormat(r.imageFormat.value),
                                     AsU32(r.imageWidth.value), AsU32(r.imageHeight.value))))
  }

  /** `from_row`. The scalar columns are copied; `content_size` goes back through
      `as usize` and `access_count` through `as u32`. */
  function FromRow(r: Row): (res: Result<ClipboardItem, string>)
    ensures res.Ok? <==> DecodeContent(r).Ok?
    ensures res.Ok? ==>
              var item := res.value;
              && item.id == Some(r.id) && item.contentType == DecodeContentType(r.contentType)
              && item.content == DecodeContent(r).value
              && item.contentHash == r.contentHash && item.contentSize == AsUsize(r.contentSize)
              && item.createdAt == r.createdAt && item.accessedAt == r.accessedAt
              && item.accessCount == AsU32(r.accessCount) && item.isFavorite == r.isFavorite
  {
    match DecodeContent(r)
    case Err(column) => Err(column)
    case Ok(content) =>
      Ok(ClipboardItem(Some(r.id), DecodeContentType(r.contentType), content, r.contentHash,
                       AsUsize(r.contentSize), r.createdAt, r.accessedAt, AsU32(r.accessCount), r.isFavorite))
  }

  /** The item's type tag agrees with its payload, as every constructor arranges. */
  predicate TagAgrees(item: ClipboardItem)
  {
    item.contentType == (if item.content.TextPayload? then Text else Image)
  }

  /** Reading back a stored item gives the item with the id the table assigned. */
  lemma DecodeEncode(item: ClipboardItem, id: int)
    requires TagAgrees(item) && item.contentSize < U64_MODULUS
    ensures FromRow(EncodeRow(item, id)) == Ok(item.(id := Some(id)))
  {
    var r := EncodeRow(item, id);
    TagsRoundTrip(item.contentType, if item.content.ImagePayload? then item.content.image.format else Png);
    if item.content.ImagePayload? {
      var d := item.content.image;
      assert DecodeContent(r) == Ok(ImagePayload(d));
    }
  }

  /** Every well-formed item survives the round trip. */
  lemma WellFormedItemsRoundTrip(h: Hasher, item: ClipboardItem, id: int)
    requires WellFormed(h, item) && item.contentSize < U64_MODULUS
    ensures FromRow(EncodeRow(item, id)) == Ok(item.(id := Some(id)))
  {
    DecodeEncode(item, id);
  }
}
