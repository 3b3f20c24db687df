/** Kitty graphics commands, the image a complete command describes, and the reply to it
    (patches/rio-vt/src/ansi/kitty_graphics_protocol.rs).

    Reading files and shared memory, zlib and PNG are outside the model: a `Codec` says what
    they produce. */
module KittyImage {
  import opened Basics

  const MAX_DIMENSION: nat := 10_000
  const MAX_SIZE: nat := 400 * 1024 * 1024

  datatype Action = Transmit | TransmitAndDisplay | Query | Put | Delete | Frame | Animate | Compose

  datatype Format = Gray | GrayAlpha | Rgb24 | Rgba32 | Png

  datatype Medium = Direct | File | TempFile | SharedMemory

  datatype Compression = Uncompressed | Zlib

  /** The display keys of a command, passed through to a placement request. */
  datatype Display = Display(
    x: nat, y: nat, width: nat, height: nat, columns: nat, rows: nat, zIndex: int,
    virtualPlacement: bool, unicodePlaceholder: nat, cursorMovement: nat,
    cellXOffset: nat, cellYOffset: nat)

  /** A command after its control keys are parsed and its payload is base64-decoded. */
  datatype Command = Command(
    action: Action, quiet: nat, implicitId: bool,
    format: Format, medium: Medium, width: nat, height: nat, size: nat, offset: nat,
    imageId: nat, imageNumber: nat, placementId: nat, compression: Compression, more: bool,
    display: Display, deleteAction: Byte,
    payload: seq<Byte>, lastTouched: nat)

  datatype GraphicError =
    | DimensionsTooLarge | DimensionsRequired | TooLarge | UnsupportedFormat
    | UnsupportedMedium | InvalidData | DecompressionFailed | FileNotFound
  {
    function Message(): string {
      match this
      case DimensionsTooLarge => "EINVAL: dimensions too large"
      case DimensionsRequired => "EINVAL: dimensions required"
      case TooLarge => "E2BIG: image too large"
      case UnsupportedFormat => "EINVAL: unsupported format"
      case UnsupportedMedium => "EINVAL: unsupported medium"
      case InvalidData => "EINVAL: invalid data"
      case DecompressionFailed => "EINVAL: decompression failed"
      case FileNotFound => "ENOENT: file not found"
    }
  }

  datatype Result<+T> = Ok(value: T) | Err(error: GraphicError)

  datatype Decoded = Decoded(width: nat, height: nat, pixels: seq<Byte>, isOpaque: bool)

  datatype Codec = Codec(
    read: (Medium, seq<Byte>, nat, nat) -> Result<seq<Byte>>,
    inflate: seq<Byte> -> Option<seq<Byte>>,
    png: seq<Byte> -> Option<Decoded>)

  /** `None` on an axis means "automatic". */
  datatype Resize = Resize(columns: Option<nat>, rows: Option<nat>, preserveAspectRatio: bool)

  /** An image ready for the store: always RGBA. */
  datatype Image = Image(id: nat, width: nat, height: nat, pixels: seq<Byte>, isOpaque: bool, resize: Option<Resize>)

  // ---------------------------------------------------------------- raw pixel formats

  function BytesPerPixel(f: Format): nat
    requires !f.Png?
  {
    match f
    case Gray => 1
    case GrayAlpha => 2
    case Rgb24 => 3
    case Rgba32 => 4
  }

  /** Channel `c` of pixel `p` in RGBA terms: grey repeats, a missing alpha is 255. */
  function Channel(f: Format, data: seq<Byte>, p: nat, c: nat): Byte
    requires !f.Png? && c < 4 && (p + 1) * BytesPerPixel(f) <= |data|
  {
    match f
    case Gray => if c < 3 then data[p] else 255
    case GrayAlpha => if c < 3 then data[2 * p] else data[2 * p + 1]
    case Rgb24 => if c < 3 then data[3 * p + c] else 255
    case Rgba32 => data[4 * p + c]
  }

  /** `out` shows pixel `p` of `data` at its place. */
  predicate ShowsPixel(f: Format, data: seq<Byte>, p: nat, out: seq<Byte>)
    requires !f.Png?
  {
    && (p + 1) * BytesPerPixel(f) <= |data| && 4 * p + 4 <= |out|
    && forall c :: 0 <= c < 4 ==> out[4 * p + c] == Channel(f, data, p, c)
  }

  /** `out` is `n` RGBA pixels showing the first `n` pixels of `data`. */
  predicate ShowsPixels(f: Format, data: seq<Byte>, n: nat, out: seq<Byte>)
    requires !f.Png?
  {
    |out| == 4 * n && forall p :: 0 <= p < n ==> ShowsPixel(f, data, p, out)
  }

  function Expand(f: Format, data: seq<Byte>, n: nat): seq<Byte>
    requires !f.Png? && n * BytesPerPixel(f) <= |data|
  {
    if n == 0 then []
    else Expand(f, data, n - 1)
         + [Channel(f, data, n - 1, 0), Channel(f, data, n - 1, 1), Channel(f, data, n - 1, 2), Channel(f, data, n - 1, 3)]
  }

  /** Every raw format expands pixel by pixel, losing none. */
  lemma {:induction false} ExpandShows(f: Format, data: seq<Byte>, n: nat)
    requires !f.Png? && n * BytesPerPixel(f) <= |data|
    ensures ShowsPixels(f, data, n, Expand(f, data, n))
  {
    if n == 0 {
    } else {
      hide ShowsPixel, Channel, BytesPerPixel;
      FewerPixels(f, n);
      ExpandShows(f, data, n - 1);
      var less, more := Expand(f, data, n - 1), Expand(f, data, n);
      forall p | 0 <= p < n ensures ShowsPixel(f, data, p, more) {
        if p < n - 1 { StillShows(f, data, p, less, more[|less|..]); } else { ShowsLast(f, data, n, less); }
      }
      assert more == less + more[|less|..];
    }
  }

  lemma FewerPixels(f: Format, n: nat)
    requires !f.Png? && n > 0
    ensures (n - 1) * BytesPerPixel(f) <= n * BytesPerPixel(f)
  {
  }

  lemma StillShows(f: Format, data: seq<Byte>, p: nat, out: seq<Byte>, more: seq<Byte>)
    requires !f.Png? && ShowsPixel(f, data, p, out)
    ensures ShowsPixel(f, data, p, out + more)
  {
    hide Channel;
  }

  lemma ShowsLast(f: Format, data: seq<Byte>, n: nat, less: seq<Byte>)
    requires !f.Png? && n > 0 && n * BytesPerPixel(f) <= |data| && |less| == 4 * (n - 1)
    ensures ShowsPixel(f, data, n - 1, less + [Channel(f, data, n - 1, 0), Channel(f, data, n - 1, 1),
                                              Channel(f, data, n - 1, 2), Channel(f, data, n - 1, 3)])
  {
    hide Channel;
  }

  method ExpandPixels(f: Format, data: seq<Byte>, n: nat) returns (out: seq<Byte>, opaquePixels: bool)
    requires !f.Png? && n * BytesPerPixel(f) <= |data|
    ensures out == Expand(f, data, n)
    ensures opaquePixels == AllOpaque(f, data, n)
  {
    out, opaquePixels := [], true;
    for p := 0 to n
      invariant p * BytesPerPixel(f) <= |data|
      invariant out == Expand(f, data, p)
      invariant opaquePixels == AllOpaque(f, data, p)
    {
      assert (p + 1) * BytesPerPixel(f) <= n * BytesPerPixel(f);
      match f {
        case Gray => out := out + [data[p], data[p], data[p], 255];
        case GrayAlpha =>
          if data[2 * p + 1] != 255 { opaquePixels := false; }
          out := out + [data[2 * p], data[2 * p], data[2 * p], data[2 * p + 1]];
        case Rgb24 => out := out + [data[3 * p], data[3 * p + 1], data[3 * p + 2], 255];
        case Rgba32 =>
          if data[4 * p + 3] != 255 { opaquePixels := false; }
          out := out + [data[4 * p], data[4 * p + 1], data[4 * p + 2], data[4 * p + 3]];
      }
    }
  }

  function AllOpaque(f: Format, data: seq<Byte>, n: nat): bool
    requires !f.Png? && n * BytesPerPixel(f) <= |data|
  {
    n == 0 || (AllOpaque(f, data, n - 1) && Channel(f, data, n - 1, 3) == 255)
  }

  // ---------------------------------------------------------------- the image of a command

  function ResizeOf(d: Display): Option<Resize> {
    if d.columns > 0 || d.rows > 0 then
      Some(Resize(if d.columns > 0 then Some(d.columns) else None,
                  if d.rows > 0 then Some(d.rows) else None,
                  !(d.columns > 0 && d.rows > 0)))
    else None
  }

  function RawData(codec: Codec, cmd: Command): Result<seq<Byte>> {
    if cmd.medium.Direct? then
      if |cmd.payload| > MAX_SIZE then Err(TooLarge) else Ok(cmd.payload)
    else codec.read(cmd.medium, cmd.payload, cmd.size, cmd.offset)
  }

  function PixelData(codec: Codec, compression: Compression, raw: seq<Byte>): Result<seq<Byte>> {
    if compression.Uncompressed? then Ok(raw)
    else
      match codec.inflate(raw)
      case None => Err(DecompressionFailed)
      case Some(data) => if |data| > MAX_SIZE then Err(TooLarge) else Ok(data)
  }

  function Decode(codec: Codec, cmd: Command, data: seq<Byte>): Result<Image> {
    if cmd.format.Png? then
      match codec.png(data)
      case None => Err(InvalidData)
      case Some(d) =>
        if d.width > MAX_DIMENSION || d.height > MAX_DIMENSION then Err(DimensionsTooLarge)
        else Ok(Image(cmd.imageId, d.width, d.height, d.pixels, d.isOpaque, ResizeOf(cmd.display)))
    else if cmd.width == 0 || cmd.height == 0 then Err(DimensionsRequired)
    else
      var n := cmd.width * cmd.height;
      if n * BytesPerPixel(cmd.format) > MAX_SIZE then Err(TooLarge)
      else if |data| < n * BytesPerPixel(cmd.format) then Err(InvalidData)
      else Ok(Image(cmd.imageId, cmd.width, cmd.height, Expand(cmd.format, data, n),
                    AllOpaque(cmd.format, data, n), ResizeOf(cmd.display)))
  }

  function CreateGraphicData(codec: Codec, cmd: Command): Result<Image> {
    if !cmd.format.Png? && (cmd.width > MAX_DIMENSION || cmd.height > MAX_DIMENSION) then Err(DimensionsTooLarge)
    else
      match RawData(codec, cmd)
      case Err(e) => Err(e)
      case Ok(raw) =>
        match PixelData(codec, cmd.compression, raw)
        case Err(e) => Err(e)
        case Ok(data) => Decode(codec, cmd, data)
  }

  /** A direct, uncompressed raw upload is accepted exactly when its dimensions are in range
      and its payload holds at least one image and at most the cap; the image is then the
      payload's pixels in order. */
  lemma RawUploadIff(codec: Codec, cmd: Command)
    requires cmd.medium.Direct? && cmd.compression.Uncompressed? && !cmd.format.Png?
    ensures var n := cmd.width * cmd.height;
            var r := CreateGraphicData(codec, cmd);
            && (r.Ok? <==> && 0 < cmd.width <= MAX_DIMENSION && 0 < cmd.height <= MAX_DIMENSION
                           && n * BytesPerPixel(cmd.format) <= |cmd.payload| <= MAX_SIZE)
            && (r.Ok? ==> ShowsPixels(cmd.format, cmd.payload, n, r.value.pixels)
                          && |r.value.pixels| == 4 * r.value.width * r.value.height)
  {
    var n := cmd.width * cmd.height;
    if n * BytesPerPixel(cmd.format) <= |cmd.payload| {
      ExpandShows(cmd.format, cmd.payload, n);
    }
  }

  // ---------------------------------------------------------------- replies

  /** What is written back: the ids that are echoed, and the message. */
  datatype Reply = Reply(imageId: nat, imageNumber: nat, placementId: nat, message: string)

  function EncodeResponse(imageId: nat, imageNumber: nat, placementId: nat, message: string): Option<Reply> {
    if imageId == 0 && imageNumber == 0 then None else Some(Reply(imageId, imageNumber, placementId, message))
  }

  /** `q=0` replies always, `q=1` only on failure, anything else never. */
  function EncodeQuiet(imageId: nat, imageNumber: nat, placementId: nat, message: string, quiet: nat, isError: bool): Option<Reply> {
    if quiet == 0 || (quiet == 1 && isError) then EncodeResponse(imageId, imageNumber, placementId, message) else None
  }

  datatype PlacementRequest = PlacementRequest(imageId: nat, placementId: nat, display: Display)

  datatype DeleteRequest = DeleteRequest(action: Byte, imageId: nat, imageNumber: nat, placementId: nat,
                                         x: nat, y: nat, zIndex: int, deleteData: bool)

  datatype Response = Response(
    image: Option<Image>,
    placement: Option<PlacementRequest>,
    delete: Option<DeleteRequest>,
    reply: Option<Reply>,
    errorReply: Option<Reply>,
    incomplete: bool)

  const PENDING_CHUNK := Response(None, None, None, None, None, true)

  function JustReply(reply: Option<Reply>): Response { Response(None, None, None, reply, None, false) }

  function Failure(cmd: Command, message: string): Option<Reply> {
    EncodeQuiet(cmd.imageId, cmd.imageNumber, cmd.placementId, message, cmd.quiet, true)
  }

  function Success(cmd: Command): Option<Reply> {
    EncodeQuiet(cmd.imageId, cmd.imageNumber, cmd.placementId, "OK", cmd.quiet, false)
  }

  function Unless(implicitId: bool, reply: Option<Reply>): Option<Reply> {
    if implicitId then None else reply
  }

  predicate IsUpper(b: Byte) { 65 <= b <= 90 }

  /** The reply to a complete command. */
  function Respond(codec: Codec, cmd: Command): Response {
    match cmd.action
    case Transmit => RespondTransmit(codec, cmd)
    case TransmitAndDisplay => RespondTransmit(codec, cmd)
    case Put =>
      Response(None, Some(PlacementRequest(cmd.imageId, cmd.placementId, cmd.display)), None,
               Unless(cmd.implicitId, Success(cmd)), Failure(cmd, "ENOENT: image not found"), false)
    case Delete =>
      var upper := IsUpper(cmd.deleteAction);
      Response(None, None,
               Some(DeleteRequest(if upper then cmd.deleteAction + 32 else cmd.deleteAction, cmd.imageId, cmd.imageNumber,
                                  cmd.placementId, cmd.display.x, cmd.display.y, cmd.display.zIndex, upper)),
               None, None, false)
    case Query =>
      JustReply(match CreateGraphicData(codec, cmd)
                case Ok(_) => Success(cmd)
                case Err(e) => Failure(cmd, e.Message()))
    case _ =>
      var message := "EINVAL:unsupported action";
      var reply := Failure(cmd, message);
      var bare := if cmd.quiet == 2 then None else Some(Reply(0, 0, 0, message));
      JustReply(Unless(cmd.implicitId, if reply.Some? then reply else bare))
  }

  function RespondTransmit(codec: Codec, cmd: Command): Response {
    match CreateGraphicData(codec, cmd)
    case Err(e) => JustReply(Unless(cmd.implicitId, Failure(cmd, e.Message())))
    case Ok(image) =>
      var placement := if cmd.action.TransmitAndDisplay?
                       then Some(PlacementRequest(cmd.imageId, cmd.placementId, cmd.display)) else None;
      Response(Some(image), placement, None, Unless(cmd.implicitId, Success(cmd)), None, false)
  }

  /** The reply does not depend on the chunking flag or on when the command was last touched. */
  lemma RespondIgnoresChunking(codec: Codec, cmd: Command, more: bool, touched: nat)
    ensures Respond(codec, cmd.(more := more, lastTouched := touched)) == Respond(codec, cmd)
  {}

  // ---------------------------------------------------------------- what an upload shows

  /** What pixel `p` looks like as RGBA: grey in all three colours, opaque unless it says otherwise. */
  lemma ExpandedPixel(f: Format, data: seq<Byte>, n: nat, p: nat)
    requires !f.Png? && n * BytesPerPixel(f) <= |data| && p < n
    ensures var out := Expand(f, data, n);
            && |out| == 4 * n
            && (f.Gray? ==> p < |data| && out[4 * p..4 * p + 4] == [data[p], data[p], data[p], 255])
            && (f.GrayAlpha? ==>
                  2 * p + 1 < |data| && out[4 * p..4 * p + 4] == [data[2 * p], data[2 * p], data[2 * p], data[2 * p + 1]])
            && (f.Rgb24? ==>
                  3 * p + 2 < |data| && out[4 * p..4 * p + 4] == [data[3 * p], data[3 * p + 1], data[3 * p + 2], 255])
            && (f.Rgba32? ==> 4 * p + 3 < |data| && out[4 * p..4 * p + 4] == data[4 * p..4 * p + 4])
  {
    hide Expand;
    ExpandShows(f, data, n);
    var out := Expand(f, data, n);
    assert ShowsPixel(f, data, p, out);
    var shown := out[4 * p..4 * p + 4];
    assert forall c :: 0 <= c < 4 ==> shown[c] == Channel(f, data, p, c);
  }

  /** An image counts as opaque exactly when no pixel has an alpha below 255. */
  lemma {:induction false} OpaqueIff(f: Format, data: seq<Byte>, n: nat)
    requires !f.Png? && n * BytesPerPixel(f) <= |data|
    ensures AllOpaque(f, data, n) <==>
              forall p :: 0 <= p < n ==>
                && (f.GrayAlpha? ==> 2 * p + 1 < |data| && data[2 * p + 1] == 255)
                && (f.Rgba32? ==> 4 * p + 3 < |data| && data[4 * p + 3] == 255)
  {
    if n == 0 {
    } else {
      FewerPixels(f, n);
      OpaqueIff(f, data, n - 1);
    }
  }

  /** The size asked for: none, one axis with the other kept in proportion, or both. */
  lemma ResizeIs(d: Display)
    ensures d.columns == 0 && d.rows == 0 <==> ResizeOf(d) == None
    ensures d.columns > 0 && d.rows == 0 ==> ResizeOf(d) == Some(Resize(Some(d.columns), None, true))
    ensures d.columns == 0 && d.rows > 0 ==> ResizeOf(d) == Some(Resize(None, Some(d.rows), true))
    ensures d.columns > 0 && d.rows > 0 ==> ResizeOf(d) == Some(Resize(Some(d.columns), Some(d.rows), false))
  {
  }

  /** What becomes of a direct raw upload that is not compressed: its image, or the first thing that
      is wrong with it. */
  lemma RawUploadIs(codec: Codec, cmd: Command)
    requires cmd.medium.Direct? && cmd.compression.Uncompressed? && !cmd.format.Png?
    ensures var r, n := CreateGraphicData(codec, cmd), cmd.width * cmd.height * BytesPerPixel(cmd.format);
            if cmd.width > 10_000 || cmd.height > 10_000 then r.Err? && r.error.Message() == "EINVAL: dimensions too large"
            else if |cmd.payload| > 419_430_400 then r.Err? && r.error.Message() == "E2BIG: image too large"
            else if cmd.width == 0 || cmd.height == 0 then r.Err? && r.error.Message() == "EINVAL: dimensions required"
            else if n > 419_430_400 then r.Err? && r.error.Message() == "E2BIG: image too large"
            else if |cmd.payload| < n then r.Err? && r.error.Message() == "EINVAL: invalid data"
            else
              && r.Ok? && r.value.id == cmd.imageId && r.value.width == cmd.width && r.value.height == cmd.height
              && r.value.pixels == Expand(cmd.format, cmd.payload, cmd.width * cmd.height)
              && r.value.isOpaque == AllOpaque(cmd.format, cmd.payload, cmd.width * cmd.height)
              && r.value.resize == ResizeOf(cmd.display)
  {
    hide Expand, AllOpaque, ResizeOf;
  }

  lemma BytesPerPixelIs(f: Format)
    requires !f.Png?
    ensures (f.Gray? ==> BytesPerPixel(f) == 1) && (f.GrayAlpha? ==> BytesPerPixel(f) == 2)
    ensures (f.Rgb24? ==> BytesPerPixel(f) == 3) && (f.Rgba32? ==> BytesPerPixel(f) == 4)
  {
  }

  /** However an image travels, it is the image of the bytes that arrive: compressed data is what it
      inflates to, and a file or shared memory is what it holds. */
  lemma UploadIsItsBytes(codec: Codec, cmd: Command, data: seq<Byte>)
    requires |data| <= 419_430_400
    ensures var direct := cmd.(medium := Direct, compression := Uncompressed, payload := data);
            && (cmd.medium.Direct? && |cmd.payload| <= 419_430_400 && cmd.compression.Zlib? && codec.inflate(cmd.payload) == Some(data) ==>
                  CreateGraphicData(codec, cmd) == CreateGraphicData(codec, direct))
            && (!cmd.medium.Direct? && codec.read(cmd.medium, cmd.payload, cmd.size, cmd.offset) == Ok(data) ==>
                  CreateGraphicData(codec, cmd)
                  == CreateGraphicData(codec, cmd.(medium := Direct, payload := data)))
  {
    hide Expand, AllOpaque;
  }

  /** Bytes that do not arrive make no image: they do not inflate, inflate to too much, or cannot be
      read. */
  lemma UnreadableUpload(codec: Codec, cmd: Command)
    requires cmd.format.Png? || (cmd.width <= 10_000 && cmd.height <= 10_000)
    ensures !cmd.medium.Direct? && codec.read(cmd.medium, cmd.payload, cmd.size, cmd.offset).Err? ==>
              CreateGraphicData(codec, cmd) == Err(codec.read(cmd.medium, cmd.payload, cmd.size, cmd.offset).error)
    ensures cmd.medium.Direct? && |cmd.payload| <= 419_430_400 && cmd.compression.Zlib? && codec.inflate(cmd.payload) == None ==>
              CreateGraphicData(codec, cmd) == Err(DecompressionFailed)
    ensures (&& cmd.medium.Direct? && |cmd.payload| <= 419_430_400 && cmd.compression.Zlib?
             && codec.inflate(cmd.payload).Some? && |codec.inflate(cmd.payload).value| > 419_430_400) ==>
              CreateGraphicData(codec, cmd) == Err(TooLarge)
  {
    hide Expand, AllOpaque;
  }

  /** A PNG brings its own size, which must be in range as well. */
  lemma PngUploadIs(codec: Codec, cmd: Command)
    requires cmd.medium.Direct? && cmd.compression.Uncompressed? && cmd.format.Png? && |cmd.payload| <= 419_430_400
    ensures codec.png(cmd.payload) == None ==> CreateGraphicData(codec, cmd) == Err(InvalidData)
    ensures forall d :: codec.png(cmd.payload) == Some(d) ==>
              CreateGraphicData(codec, cmd)
              == if d.width > 10_000 || d.height > 10_000 then Err(DimensionsTooLarge)
                 else Ok(Image(cmd.imageId, d.width, d.height, d.pixels, d.isOpaque, ResizeOf(cmd.display)))
  {
  }

  // ---------------------------------------------------------------- who is told what

  /** The sender named the image, and wants to hear of this. */
  predicate Heard(cmd: Command, failed: bool) {
    (cmd.imageId != 0 || cmd.imageNumber != 0) && (cmd.quiet == 0 || (cmd.quiet == 1 && failed))
  }

  /** An upload makes its image or says why not, and is placed when asked to and possible. Only a
      sender that named the image itself and is not quiet hears of it. */
  lemma UploadReply(codec: Codec, cmd: Command)
    requires cmd.action.Transmit? || cmd.action.TransmitAndDisplay?
    ensures var r, made := Respond(codec, cmd), CreateGraphicData(codec, cmd);
            && r.image == (if made.Ok? then Some(made.value) else None)
            && r.placement == (if made.Ok? && cmd.action.TransmitAndDisplay?
                               then Some(PlacementRequest(cmd.imageId, cmd.placementId, cmd.display)) else None)
            && (r.reply.Some? <==> !cmd.implicitId && Heard(cmd, made.Err?))
            && (r.reply.Some? ==>
                  r.reply.value == Reply(cmd.imageId, cmd.imageNumber, cmd.placementId, if made.Ok? then "OK" else made.error.Message()))
            && r.delete == None && r.errorReply == None && !r.incomplete
  {
    hide CreateGraphicData;
  }

  /** A query is answered like an upload, and makes and places nothing. */
  lemma QueryReply(codec: Codec, cmd: Command)
    requires cmd.action.Query?
    ensures var r, made := Respond(codec, cmd), CreateGraphicData(codec, cmd);
            && r.image == None && r.placement == None && r.delete == None && r.errorReply == None && !r.incomplete
            && (r.reply.Some? <==> Heard(cmd, made.Err?))
            && (r.reply.Some? ==>
                  r.reply.value == Reply(cmd.imageId, cmd.imageNumber, cmd.placementId, if made.Ok? then "OK" else made.error.Message()))
  {
    hide CreateGraphicData;
  }

  /** A placement carries both answers: the one for an image that is there and the one for an image
      that is not. */
  lemma PutReply(codec: Codec, cmd: Command)
    requires cmd.action.Put?
    ensures var r := Respond(codec, cmd);
            && r.placement == Some(PlacementRequest(cmd.imageId, cmd.placementId, cmd.display))
            && r.image == None && r.delete == None && !r.incomplete
            && (r.reply.Some? <==> !cmd.implicitId && Heard(cmd, false))
            && (r.reply.Some? ==> r.reply.value == Reply(cmd.imageId, cmd.imageNumber, cmd.placementId, "OK"))
            && (r.errorReply.Some? <==> Heard(cmd, true))
            && (r.errorReply.Some? ==>
                  r.errorReply.value == Reply(cmd.imageId, cmd.imageNumber, cmd.placementId, "ENOENT: image not found"))
  {
  }

  /** A delete is never answered; an upper-case letter asks for the data to go as well. */
  lemma DeleteReply(codec: Codec, cmd: Command)
    requires cmd.action.Delete?
    ensures var r := Respond(codec, cmd);
            && r.delete.Some? && r.image == None && r.placement == None && r.reply == None && r.errorReply == None && !r.incomplete
            && var d := r.delete.value;
               && d.deleteData == (65 <= cmd.deleteAction <= 90)
               && d.action == (if d.deleteData then cmd.deleteAction + 32 else cmd.deleteAction)
               && d.imageId == cmd.imageId && d.imageNumber == cmd.imageNumber && d.placementId == cmd.placementId
               && d.x == cmd.display.x && d.y == cmd.display.y && d.zIndex == cmd.display.zIndex
  {
  }

  /** Anything else is refused, even without an image to name, unless the sender wants no failures. */
  lemma UnsupportedReply(codec: Codec, cmd: Command)
    requires cmd.action.Frame? || cmd.action.Animate? || cmd.action.Compose?
    ensures var r := Respond(codec, cmd);
            && r.image == None && r.placement == None && r.delete == None && r.errorReply == None && !r.incomplete
            && (r.reply.Some? <==> !cmd.implicitId && cmd.quiet != 2)
            && (r.reply.Some? ==>
                  && r.reply.value.message == "EINVAL:unsupported action"
                  && (Heard(cmd, true) ==> r.reply.value.imageId == cmd.imageId && r.reply.value.imageNumber == cmd.imageNumber)
                  && (!Heard(cmd, true) ==> r.reply.value.imageId == 0 && r.reply.value.imageNumber == 0))
  {
  }
}
