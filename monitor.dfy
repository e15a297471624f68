/** The clipboard monitor: image-signature sniffing, the per-poll change detection of the
    background loop as a pure step over the loop's private trackers, the loop itself, and
    the monitor object whose own baseline is separate from those trackers. */
module Monitor {

  import opened Wrappers
  import opened Ints
  import opened Strings
  import opened Errors
  import opened ItemTypes

  // ----- signature sniffing -----

  /** The PNG file signature (section 3.1 of RFC 2083). */
  const PNG_SIGNATURE: seq<byte> := [0x89, 0x50, 0x4E, 0x47, 0x0D, 0x0A, 0x1A, 0x0A]
  /** The JPEG SOI marker FF D8 followed by the first byte of the next marker. */
  const JPEG_SIGNATURE: seq<byte> := [0xFF, 0xD8, 0xFF]
  /** "GIF87a" and "GIF89a", the two header versions of the GIF89a specification. */
  const GIF87A_SIGNATURE: seq<byte> := [0x47, 0x49, 0x46, 0x38, 0x37, 0x61]
  const GIF89A_SIGNATURE: seq<byte> := [0x47, 0x49, 0x46, 0x38, 0x39, 0x61]
  /** "BM". */
  const BMP_SIGNATURE: seq<byte> := [0x42, 0x4D]

  /** Buffers shorter than this are never classified. */
  const MIN_SNIFF_LENGTH: nat := 8

  predicate StartsWith(data: seq<byte>, prefix: seq<byte>)
  {
    |prefix| <= |data| && data[..|prefix|] == prefix
  }

  predicate HasSignature(data: seq<byte>, f: ImageFormat)
  {
    match f
    case Png => StartsWith(data, PNG_SIGNATURE)
    case Jpeg => StartsWith(data, JPEG_SIGNATURE)
    case Gif => StartsWith(data, GIF87A_SIGNATURE) || StartsWith(data, GIF89A_SIGNATURE)
    case Bmp => StartsWith(data, BMP_SIGNATURE)
  }

  /** `detect_image_format`: the checks run in the order PNG, JPEG, GIF, BMP. */
  function DetectImageFormat(data: seq<byte>): (r: Option<ImageFormat>)
    ensures |data| < MIN_SNIFF_LENGTH ==> r == None
    ensures r.Some? ==> HasSignature(data, r.value)
  {
    if |data| < MIN_SNIFF_LENGTH then None
    else if StartsWith(data, PNG_SIGNATURE) then Some(Png)
    else if StartsWith(data, JPEG_SIGNATURE) then Some(Jpeg)
    else if StartsWith(data, GIF87A_SIGNATURE) || StartsWith(data, GIF89A_SIGNATURE) then Some(Gif)
    else if StartsWith(data, BMP_SIGNATURE) then Some(Bmp)
    else None
  }

  /** Every signature fixes the first byte, and the four first bytes differ. */
  lemma SignatureFirstByte(data: seq<byte>, f: ImageFormat)
    requires HasSignature(data, f)
    ensures |data| >= 2
    ensures data[0] == match f case Png => 0x89 case Jpeg => 0xFF case Gif => 0x47 case Bmp => 0x42
  {
    match f
    case Png => assert data[..8][0] == data[0];
    case Jpeg => assert data[..3][0] == data[0];
    case Gif => assert data[..6][0] == data[0];
    case Bmp => assert data[..2][0] == data[0];
  }

  /** Sniffing finds a format exactly when the buffer has at least 8 bytes and carries that
      format's signature; the signatures exclude one another, so the check order only
      matters for which test runs first. */
  lemma DetectIff(data: seq<byte>, f: ImageFormat)
    ensures DetectImageFormat(data) == Some(f) <==> |data| >= MIN_SNIFF_LENGTH && HasSignature(data, f)
  {
    if |data| >= MIN_SNIFF_LENGTH && HasSignature(data, f) {
      SignatureFirstByte(data, f);
      var g := DetectImageFormat(data);
      if g.Some? {
        SignatureFirstByte(data, g.value);
      } else {
        assert HasSignature(data, Png) || HasSignature(data, Jpeg) || HasSignature(data, Gif)
            || HasSignature(data, Bmp) by {
          assert HasSignature(data, f);
        }
      }
    }
  }

  /** Short buffers are never classified, even when they start with a JPEG or BMP signature. */
  lemma ShortBuffersUnclassified()
    ensures DetectImageFormat(JPEG_SIGNATURE) == None
    ensures DetectImageFormat(BMP_SIGNATURE) == None
    ensures HasSignature(JPEG_SIGNATURE, Jpeg) && HasSignature(BMP_SIGNATURE, Bmp)
  {
    assert JPEG_SIGNATURE[..3] == JPEG_SIGNATURE;
    assert BMP_SIGNATURE[..2] == BMP_SIGNATURE;
  }

  /** `calculate_image_hash`: the same digest of the bytes as an image item's hash. */
  function CalculateImageHash(h: Hasher, data: seq<byte>): string
  {
    HashBytes(h, data)
  }

  /** The monitor's image hash is the hash an image item of those bytes carries. */
  lemma ImageHashIsItemHash(h: Hasher, image: ImageData, now: Timestamp)
    ensures NewImage(h, image, now).contentHash == CalculateImageHash(h, image.data)
  {
  }

  // ----- one poll of the background loop -----

  /** What `arboard` returned for an image read: raw bytes and `usize` dimensions. */
  datatype RawImage = RawImage(bytes: seq<byte>, width: nat, height: nat)

  /** One poll's observations: the text read and the image read (None when the read
      failed), the two instants `Utc::now` returns inside `new_text` and `new_image` (the
      clock is read once per item built), and whether each of the two sends on the channel
      succeeds: the receiver can hang up between the text send and the image send. */
  datatype PollInput = PollInput(
    text: Option<string>,
    image: Option<RawImage>,
    textNow: Timestamp,
    imageNow: Timestamp,
    textSendOk: bool,
    imageSendOk: bool)

  /** The loop's private copies of the last captured text and image hash. */
  datatype Trackers = Trackers(lastText: string, lastImageHash: Option<string>)

  /** New trackers, the items handed to the channel (in order), and whether a failed send
      ended the loop. */
  datatype PollResult = PollResult(trackers: Trackers, sent: seq<ClipboardItem>, stopped: bool)

  /** The text half of a poll. */
  function TextStep(h: Hasher, t: Trackers, input: PollInput): PollResult
  {
    match input.text
    case None => PollResult(t, [], false)
    case Some(current) =>
      if current != t.lastText && Trim(current) != [] then
        if input.textSendOk then PollResult(Trackers(current, None), [NewText(h, current, input.textNow)], false)
        else PollResult(t, [], true)
      else PollResult(t, [], false)
  }

  /** The text half sends the read text exactly when the read succeeded, the text differs
      from the last one and is not blank, and the send succeeds; a blank or unchanged
      text changes nothing, and a failed send stops the loop. */
  lemma TextStepSpec(h: Hasher, t: Trackers, input: PollInput)
    ensures var r := TextStep(h, t, input);
      && |r.sent| <= 1
      && (r.sent != [] <==>
            input.text.Some? && input.text.value != t.lastText && !AllWhitespace(input.text.value)
            && input.textSendOk)
      && (r.sent != [] ==> var s := input.text.value;
            r.sent == [NewText(h, s, input.textNow)] && r.trackers == Trackers(s, None))
      && (r.sent == [] ==> r.trackers == t)
      && (r.stopped <==>
            input.text.Some? && input.text.value != t.lastText && !AllWhitespace(input.text.value)
            && !input.textSendOk)
  {
    if input.text.Some? {
      TrimEmptyIffAllWhitespace(input.text.value);
    }
  }

  /** The image half of a poll. The dimensions go through `as u32`. */
  function ImageStep(h: Hasher, t: Trackers, input: PollInput): PollResult
  {
    match input.image
    case None => PollResult(t, [], false)
    case Some(img) =>
      var hash := CalculateImageHash(h, img.bytes);
      if t.lastImageHash != Some(hash) then
        match DetectImageFormat(img.bytes)
        case None => PollResult(t, [], false)
        case Some(format) =>
          var item := NewImage(h, NewImageData(img.bytes, format, AsU32(img.width), AsU32(img.height)), input.imageNow);
          if input.imageSendOk then PollResult(Trackers("", Some(hash)), [item], false)
          else PollResult(t, [], true)
      else PollResult(t, [], false)
  }

  /** The image half sends an item exactly when the read succeeded, the send succeeds,
      the hash differs from the last image hash and the bytes carry a known signature; the
      trackers then hold that hash and no text. When the send of such an item fails the
      loop stops, and only then. */
  lemma ImageStepSpec(h: Hasher, t: Trackers, input: PollInput)
    ensures var r := ImageStep(h, t, input);
      && |r.sent| <= 1
      && (r.sent != [] <==>
            input.image.Some? && input.imageSendOk
            && t.lastImageHash != Some(CalculateImageHash(h, input.image.value.bytes))
            && DetectImageFormat(input.image.value.bytes).Some?)
      && (r.sent != [] ==>
            var img := input.image.value;
            var hash := CalculateImageHash(h, img.bytes);
            && r.trackers == Trackers("", Some(hash))
            && r.sent[0].content.ImagePayload? && r.sent[0].contentHash == hash
            && r.sent == [NewImage(h, NewImageData(img.bytes, DetectImageFormat(img.bytes).value,
                                                   AsU32(img.width), AsU32(img.height)), input.imageNow)])
      && (r.sent == [] ==> r.trackers == t)
      && (r.stopped <==>
            input.image.Some? && !input.imageSendOk
            && t.lastImageHash != Some(CalculateImageHash(h, input.image.value.bytes))
            && DetectImageFormat(input.image.value.bytes).Some?)
  {
  }

  /** One iteration of the loop: the text check, then (unless its send failed) the image check. */
  function Poll(h: Hasher, t: Trackers, input: PollInput): PollResult
  {
    var text := TextStep(h, t, input);
    if text.stopped then text
    else
      var image := ImageStep(h, text.trackers, input);
      PollResult(image.trackers, text.sent + image.sent, image.stopped)
  }

  /** A poll sends at most a text and then an image, each stamped with its own reading of
      the clock. */
  lemma PollShape(h: Hasher, t: Trackers, input: PollInput)
    ensures var r := Poll(h, t, input);
      && |r.sent| <= 2
      && (|r.sent| == 2 ==> r.sent[0].content.TextPayload? && r.sent[1].content.ImagePayload?)
      && (|r.sent| == 2 ==> r.sent[0].createdAt == input.textNow && r.sent[1].createdAt == input.imageNow)
  {
    var text := TextStep(h, t, input);
    TextStepSpec(h, t, input);
    ImageStepSpec(h, text.trackers, input);
  }

  /** How a poll's output is assembled from its two halves. */
  lemma PollSplits(h: Hasher, t: Trackers, input: PollInput)
    ensures var text := TextStep(h, t, input);
      Poll(h, t, input).sent == if text.stopped then [] else text.sent + ImageStep(h, text.trackers, input).sent
  {
  }

  /** The instant an item of this kind is stamped with during the poll. */
  function StampFor(item: ClipboardItem, input: PollInput): Timestamp
  {
    if item.content.TextPayload? then input.textNow else input.imageNow
  }

  /** Every item is well-formed and freshly captured at the instant of its own kind. */
  predicate AllFresh(h: Hasher, sent: seq<ClipboardItem>, input: PollInput)
  {
    forall k :: 0 <= k < |sent| ==> WellFormed(h, sent[k]) && Fresh(sent[k], StampFor(sent[k], input))
  }

  lemma StepsSendFreshItems(h: Hasher, t: Trackers, input: PollInput)
    ensures AllFresh(h, TextStep(h, t, input).sent, input)
    ensures AllFresh(h, ImageStep(h, t, input).sent, input)
  {
    TextStepSpec(h, t, input);
    ImageStepSpec(h, t, input);
  }

  /** Every item a poll sends is a freshly captured, well-formed item: a text stamped with
      the text instant, an image with the image instant. */
  lemma PollSendsFreshItems(h: Hasher, t: Trackers, input: PollInput)
    ensures AllFresh(h, Poll(h, t, input).sent, input)
  {
    var text := TextStep(h, t, input);
    PollSplits(h, t, input);
    StepsSendFreshItems(h, t, input);
    StepsSendFreshItems(h, text.trackers, input);
  }

  /** An unrecognised image changes nothing. */
  lemma UnrecognisedImageIgnored(h: Hasher, t: Trackers, img: RawImage, textNow: Timestamp, imageNow: Timestamp, textOk: bool, imageOk: bool)
    requires DetectImageFormat(img.bytes).None?
    ensures Poll(h, t, PollInput(None, Some(img), textNow, imageNow, textOk, imageOk)) == PollResult(t, [], false)
  {
  }

  /** The receiver can hang up between the two sends of one poll: the new text is delivered
      and tracked, and then a recognised image's failed send ends the loop. */
  lemma TextSentThenImageSendFails(h: Hasher, t: Trackers, input: PollInput)
    requires input.text.Some? && input.text.value != t.lastText && !AllWhitespace(input.text.value)
    requires input.textSendOk && !input.imageSendOk
    requires input.image.Some? && DetectImageFormat(input.image.value.bytes).Some?
    ensures var r := Poll(h, t, input);
      && r.stopped
      && r.sent == [NewText(h, input.text.value, input.textNow)]
      && r.trackers == Trackers(input.text.value, None)
  {
    TextStepSpec(h, t, input);
    var text := TextStep(h, t, input);
    ImageStepSpec(h, text.trackers, input);
  }

  // ----- the loop -----

  /** Successive polls until a send fails. */
  function Run(h: Hasher, t: Trackers, inputs: seq<PollInput>): (r: PollResult)
    decreases |inputs|
  {
    if inputs == [] then PollResult(t, [], false)
    else
      var step := Poll(h, t, inputs[0]);
      if step.stopped then step
      else
        var rest := Run(h, step.trackers, inputs[1..]);
        PollResult(rest.trackers, step.sent + rest.sent, rest.stopped)
  }

  /** The body of the spawned thread, over a finite sequence of polls. */
  method MonitorLoop(h: Hasher, start: Trackers, inputs: seq<PollInput>) returns (r: PollResult)
    ensures r == Run(h, start, inputs)
  {
    var trackers := start;
    var sent: seq<ClipboardItem> := [];
    var i := 0;
    assert inputs[0..] == inputs;
    while i < |inputs|
      invariant 0 <= i <= |inputs|
      invariant LoopInvariant(h, start, inputs, i, trackers, sent)
    {
      var step := Poll(h, trackers, inputs[i]);
      LoopStep(h, start, inputs, i, trackers, sent);
      if step.stopped {
        return PollResult(step.trackers, sent + step.sent, true);
      }
      sent := sent + step.sent;
      trackers := step.trackers;
      i := i + 1;
    }
    LoopDone(h, start, inputs, trackers, sent);
    return PollResult(trackers, sent, false);
  }

  /** After `i` polls that did not stop, with `trackers` and `sent` so far, the rest of the
      run finishes the whole. */
  predicate LoopInvariant(h: Hasher, start: Trackers, inputs: seq<PollInput>, i: nat, trackers: Trackers,
                          sent: seq<ClipboardItem>)
    requires i <= |inputs|
  {
    var rest := Run(h, trackers, inputs[i..]);
    Run(h, start, inputs) == PollResult(rest.trackers, sent + rest.sent, rest.stopped)
  }

  /** One more poll either ends the run (its send failed) or keeps the invariant. */
  lemma LoopStep(h: Hasher, start: Trackers, inputs: seq<PollInput>, i: nat, trackers: Trackers,
                 sent: seq<ClipboardItem>)
    requires i < |inputs| && LoopInvariant(h, start, inputs, i, trackers, sent)
    ensures var step := Poll(h, trackers, inputs[i]);
      && (step.stopped ==> Run(h, start, inputs) == PollResult(step.trackers, sent + step.sent, true))
      && (!step.stopped ==> LoopInvariant(h, start, inputs, i + 1, step.trackers, sent + step.sent))
  {
    var step := Poll(h, trackers, inputs[i]);
    RunUnfold(h, trackers, inputs, i);
    if !step.stopped {
      var rest := Run(h, step.trackers, inputs[i + 1..]);
      assert sent + (step.sent + rest.sent) == sent + step.sent + rest.sent;
    }
  }

  /** With every poll made, the run is what was gathered. */
  lemma LoopDone(h: Hasher, start: Trackers, inputs: seq<PollInput>, trackers: Trackers, sent: seq<ClipboardItem>)
    requires LoopInvariant(h, start, inputs, |inputs|, trackers, sent)
    ensures Run(h, start, inputs) == PollResult(trackers, sent, false)
  {
    assert inputs[|inputs|..] == [];
    assert sent + [] == sent;
  }

  /** `Run` over a suffix: one poll, then the rest unless that poll stopped. */
  lemma RunUnfold(h: Hasher, t: Trackers, inputs: seq<PollInput>, i: nat)
    requires i < |inputs|
    ensures var step := Poll(h, t, inputs[i]);
      Run(h, t, inputs[i..]) ==
        if step.stopped then step
        else var rest := Run(h, step.trackers, inputs[i + 1..]);
          PollResult(rest.trackers, step.sent + rest.sent, rest.stopped)
  {
    assert inputs[i..][0] == inputs[i];
    assert inputs[i..][1..] == inputs[i + 1..];
  }

  // ----- change detection -----

  /** Two captures of the same thing: equal texts, or images with equal hashes. */
  predicate SameCapture(a: ClipboardItem, b: ClipboardItem)
  {
    || (a.content.TextPayload? && b.content.TextPayload? && a.content.text == b.content.text)
    || (a.content.ImagePayload? && b.content.ImagePayload? && a.contentHash == b.contentHash)
  }

  /** No item repeats the one sent just before it. */
  predicate NoRepeats(sent: seq<ClipboardItem>)
  {
    forall k :: 0 <= k < |sent| - 1 ==> DiffersFromNext(sent, k)
  }

  predicate DiffersFromNext(sent: seq<ClipboardItem>, k: nat)
    requires k + 1 < |sent|
  {
    !SameCapture(sent[k], sent[k + 1])
  }

  /** The trackers remember the most recently sent item. */
  predicate Tracks(t: Trackers, last: ClipboardItem)
  {
    && (last.content.TextPayload? ==> t.lastText == last.content.text && t.lastImageHash == None)
    && (last.content.ImagePayload? ==> t.lastText == "" && t.lastImageHash == Some(last.contentHash))
  }

  function Prev(last: Option<ClipboardItem>): seq<ClipboardItem>
  {
    if last.Some? then [last.value] else []
  }

  function LastSent(last: Option<ClipboardItem>, sent: seq<ClipboardItem>): Option<ClipboardItem>
  {
    if sent == [] then last else Some(sent[|sent| - 1])
  }

  predicate TracksLast(t: Trackers, last: Option<ClipboardItem>)
  {
    last.Some? ==> Tracks(t, last.value)
  }

  /** What a stretch of the loop keeps, from the item sent before it: no repeats, and
      trackers that remember the last item sent unless the stretch ended on a failed send. */
  predicate Keeps(last: Option<ClipboardItem>, r: PollResult)
  {
    NoRepeats(Prev(last) + r.sent) && (!r.stopped ==> TracksLast(r.trackers, LastSent(last, r.sent)))
  }

  /** The text half of a poll sends nothing that repeats the previous capture, and
      leaves the trackers remembering the last item sent. */
  lemma TextStepTracks(h: Hasher, t: Trackers, input: PollInput, last: Option<ClipboardItem>)
    requires TracksLast(t, last)
    ensures Keeps(last, TextStep(h, t, input))
  {
    var r := TextStep(h, t, input);
    TextStepSpec(h, t, input);
    if r.sent != [] {
      var x := r.sent[0];
      assert LastSent(last, r.sent) == Some(x);
      if last.Some? {
        assert Prev(last) + r.sent == [last.value, x];
      }
    } else {
      assert Prev(last) + r.sent == Prev(last);
    }
  }

  /** The image half of a poll does the same. */
  lemma ImageStepTracks(h: Hasher, t: Trackers, input: PollInput, last: Option<ClipboardItem>)
    requires TracksLast(t, last)
    ensures Keeps(last, ImageStep(h, t, input))
  {
    var r := ImageStep(h, t, input);
    ImageStepSpec(h, t, input);
    if r.sent != [] {
      var x := r.sent[0];
      assert LastSent(last, r.sent) == Some(x);
      if last.Some? {
        assert Prev(last) + r.sent == [last.value, x];
      }
    } else {
      assert Prev(last) + r.sent == Prev(last);
    }
  }

  /** One poll never repeats the previous capture and leaves the trackers remembering the
      last item it sent. */
  lemma PollNoRepeats(h: Hasher, t: Trackers, input: PollInput, last: Option<ClipboardItem>)
    requires TracksLast(t, last)
    ensures Keeps(last, Poll(h, t, input))
  {
    var text := TextStep(h, t, input);
    TextStepTracks(h, t, input, last);
    if !text.stopped {
      var image := ImageStep(h, text.trackers, input);
      ImageStepTracks(h, text.trackers, input, LastSent(last, text.sent));
      KeepsJoin(last, text, image);
    }
  }

  lemma LastSentJoin(last: Option<ClipboardItem>, a: seq<ClipboardItem>, b: seq<ClipboardItem>)
    ensures LastSent(last, a + b) == LastSent(LastSent(last, a), b)
  {
    if b == [] {
      assert a + b == a;
    }
  }

  lemma NoRepeatsJoin(a: seq<ClipboardItem>, b: seq<ClipboardItem>, last: Option<ClipboardItem>)
    requires NoRepeats(Prev(last) + a) && NoRepeats(Prev(LastSent(last, a)) + b)
    ensures NoRepeats(Prev(last) + (a + b))
  {
    var x := Prev(last) + a;
    assert Prev(last) + (a + b) == x + b;
    if a == [] {
      assert x == Prev(last);
    } else {
      assert Prev(LastSent(last, a)) == [x[|x| - 1]];
      var y := [x[|x| - 1]] + b;
      forall k | 0 <= k < |x + b| - 1 ensures DiffersFromNext(x + b, k) {
        if k < |x| - 1 {
          assert DiffersFromNext(x, k);
          assert (x + b)[k] == x[k] && (x + b)[k + 1] == x[k + 1];
        } else {
          assert DiffersFromNext(y, k - |x| + 1);
          assert (x + b)[k] == y[k - |x| + 1] && (x + b)[k + 1] == y[k - |x| + 2];
        }
      }
    }
  }

  /** Two stretches that each keep the property, the second starting where the first left
      off, keep it together. */
  lemma KeepsJoin(last: Option<ClipboardItem>, first: PollResult, rest: PollResult)
    requires Keeps(last, first) && !first.stopped && Keeps(LastSent(last, first.sent), rest)
    ensures Keeps(last, PollResult(rest.trackers, first.sent + rest.sent, rest.stopped))
  {
    NoRepeatsJoin(first.sent, rest.sent, last);
    LastSentJoin(last, first.sent, rest.sent);
  }

  /** Across any run of polls, no captured item repeats the one captured just before it
      (consecutive texts differ, and consecutive images have different hashes), and the
      trackers end up remembering the last item sent. */
  lemma {:induction false} RunNoRepeats(h: Hasher, t: Trackers, inputs: seq<PollInput>, last: Option<ClipboardItem>)
    requires TracksLast(t, last)
    ensures Keeps(last, Run(h, t, inputs))
    decreases |inputs|
  {
    if inputs != [] {
      var step := Poll(h, t, inputs[0]);
      PollNoRepeats(h, t, inputs[0], last);
      if !step.stopped {
        var rest := Run(h, step.trackers, inputs[1..]);
        RunNoRepeats(h, step.trackers, inputs[1..], LastSent(last, step.sent));
        KeepsJoin(last, step, rest);
      }
    } else {
      assert Prev(last) + [] == Prev(last);
    }
  }

  // ----- the monitor object -----

  class ClipboardMonitor {

    var lastTextContent: string
    var lastImageHash: Option<string>
    var isRunning: bool

    /** `ClipboardMonitor::new` (the channel and the clipboard handle are not modelled). */
    constructor ()
      ensures lastTextContent == "" && lastImageHash == None && !isRunning
    {
      lastTextContent := "";
      lastImageHash := None;
      isRunning := false;
    }

    /** `start`. `currentText` is the initial text read (None when it failed) and
        `clipboardOpens` whether the thread's own clipboard handle could be created. On
        success, `loop` holds the trackers the spawned loop starts from: copies of the
        struct's fields taken at this moment. */
    method Start(currentText: Option<string>, clipboardOpens: bool) returns (r: Result<(), ClipError>, loop: Option<Trackers>)
      modifies this
      ensures old(isRunning) ==>
                r == Ok(()) && loop == None && isRunning
                && lastTextContent == old(lastTextContent) && lastImageHash == old(lastImageHash)
      ensures !old(isRunning) ==>
                && isRunning && lastImageHash == old(lastImageHash)
                && lastTextContent == (if currentText.Some? then currentText.value else old(lastTextContent))
      ensures !old(isRunning) && !clipboardOpens ==> r.Err? && r.error.Clipboard? && loop == None
      ensures !old(isRunning) && clipboardOpens ==>
                r == Ok(()) && loop == Some(Trackers(lastTextContent, lastImageHash))
    {
      if isRunning {
        return Ok(()), None;
      }
      isRunning := true;
      if currentText.Some? {
        lastTextContent := currentText.value;
      }
      if !clipboardOpens {
        return Err(Clipboard("clipboard unavailable")), None;
      }
      return Ok(()), Some(Trackers(lastTextContent, lastImageHash));
    }

    /** `stop`: only clears the flag; a loop already spawned keeps polling. */
    method Stop()
      modifies this
      ensures !isRunning && lastTextContent == old(lastTextContent) && lastImageHash == old(lastImageHash)
    {
      isRunning := false;
    }

    /** `set_clipboard_content`: write the text, and only if that succeeded, record it as the
        struct's baseline. */
    method SetClipboardContent(content: string, writeSucceeds: bool) returns (r: Result<(), ClipError>)
      modifies this
      ensures isRunning == old(isRunning) && lastImageHash == old(lastImageHash)
      ensures writeSucceeds ==> r == Ok(()) && lastTextContent == content
      ensures !writeSucceeds ==> r.Err? && r.error.Clipboard? && lastTextContent == old(lastTextContent)
    {
      if !writeSucceeds {
        return Err(Clipboard("clipboard write failed"));
      }
      lastTextContent := content;
      return Ok(());
    }
  }

  /** The application's own write is captured again by a loop that is already running: the
      loop polls from the trackers it copied at `start`, which `set_clipboard_content` does
      not reach, so a written text that differs from the loop's last text and is not blank
      is sent on the next poll. */
  lemma OwnWriteRecaptured(h: Hasher, loop: Trackers, written: string, now: Timestamp)
    requires written != loop.lastText && !AllWhitespace(written)
    ensures Poll(h, loop, PollInput(Some(written), None, now, now, true, true)).sent == [NewText(h, written, now)]
  {
    TextStepSpec(h, loop, PollInput(Some(written), None, now, now, true, true));
  }
}
