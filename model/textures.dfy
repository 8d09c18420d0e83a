/** OpenGL texture bookkeeping in src/utils.cpp: `release_texture`, the
    format selection and error handling of `create_texture_from_rgba`, and
    the placement arithmetic of `makeThumbnailLetterboxed`. The OpenGL calls
    themselves are replaced by their answers: the name `glGenTextures` hands
    out and the code `glGetError` reports after the upload. */
module Textures {
  import opened Wrappers
  import opened Numerals
  import opened Viewer

  const GL_UNSIGNED_BYTE: int := 0x1401
  const GL_UNSIGNED_SHORT: int := 0x1403
  const GL_FLOAT: int := 0x1406
  const GL_RGBA8: int := 0x8058
  const GL_RGBA16: int := 0x805B
  const GL_RGBA32F: int := 0x8814

  /** The error texts of `create_texture_from_rgba`. */
  const EmptyImageMessage: string := "Cannot create texture: image is empty."
  const UnsupportedTypeMessage: string := "Texture upload expects CV_8UC4, CV_16UC4, or CV_32FC4 data."
  const NoTextureNameMessage: string := "Failed to generate OpenGL texture."
  const UploadErrorPrefix: string := "OpenGL error during texture upload: 0x"

  /** What the driver answers during one upload. */
  datatype GlResponse = GlResponse(genId: nat, error: nat)

  datatype GlFormat = GlFormat(internalFormat: int, dataType: int)

  datatype TextureValue = TextureValue(id: nat, width: int, height: int)

  const NoTexture: TextureValue := TextureValue(0, 0, 0)

  function ValueOf(t: ImageTexture): TextureValue
    reads t
  {
    TextureValue(t.id, t.width, t.height)
  }

  /** `release_texture` on a value: a live texture becomes "no texture". */
  function Released(v: TextureValue): (r: TextureValue)
    ensures r.id == 0
    ensures v.id == 0 ==> r == v
    ensures v.id != 0 ==> r == NoTexture
  {
    if v.id != 0 then NoTexture else v
  }

  /** `release_texture`: deletes a live texture and zeroes its id and size. */
  method ReleaseTexture(t: ImageTexture)
    modifies t
    ensures ValueOf(t) == Released(old(ValueOf(t)))
  {
    if t.id != 0 {
      t.id := 0;
      t.width := 0;
      t.height := 0;
    }
  }

  /** The switch on `rgbaImage.type()`: only four-channel 8U, 16U and 32F
      data can be uploaded, each with its own storage format. */
  function TextureFormat(rgba: Buffer): (f: Option<GlFormat>)
    ensures f.Some? <==> rgba.Buffer? && rgba.shape.channels == 4 && Displayable(rgba.shape.depth)
    ensures f.Some? && rgba.shape.depth == U8 ==> f.value.dataType == GL_UNSIGNED_BYTE
    ensures f.Some? && rgba.shape.depth == U16 ==> f.value.dataType == GL_UNSIGNED_SHORT
    ensures f.Some? && rgba.shape.depth == F32 ==> f.value.dataType == GL_FLOAT
  {
    if rgba.NoBuffer? || rgba.shape.channels != 4 then None
    else match rgba.shape.depth
      case U8 => Some(GlFormat(GL_RGBA8, GL_UNSIGNED_BYTE))
      case U16 => Some(GlFormat(GL_RGBA16, GL_UNSIGNED_SHORT))
      case F32 => Some(GlFormat(GL_RGBA32F, GL_FLOAT))
      case _ => None
  }

  /** Whether `create_texture_from_rgba` succeeds, and its error text. */
  function UploadOutcome(rgba: Buffer, gl: GlResponse): Outcome<string> {
    if rgba.NoBuffer? then Fail(EmptyImageMessage)
    else if TextureFormat(rgba).None? then Fail(UnsupportedTypeMessage)
    else if gl.genId == 0 then Fail(NoTextureNameMessage)
    else if gl.error != 0 then Fail(UploadErrorPrefix + HexText(gl.error))
    else Pass
  }

  /** The texture after `create_texture_from_rgba`. */
  function UploadedTexture(before: TextureValue, rgba: Buffer, gl: GlResponse): TextureValue
  {
    if rgba.NoBuffer? || TextureFormat(rgba).None? then before
    else
      var released := Released(before);
      if gl.genId == 0 then released.(id := 0)
      else if gl.error != 0 then NoTexture
      else TextureValue(gl.genId, rgba.shape.cols, rgba.shape.rows)
  }

  /** A successful upload leaves a live texture of the image's size; a failed
      one leaves either the untouched texture (nothing was attempted) or no
      texture at all, never a half-made one. */
  lemma UploadResult(before: TextureValue, rgba: Buffer, gl: GlResponse)
    ensures var after := UploadedTexture(before, rgba, gl);
      UploadOutcome(rgba, gl).Pass? ==> after == TextureValue(gl.genId, rgba.shape.cols, rgba.shape.rows) && after.id != 0
    ensures var after := UploadedTexture(before, rgba, gl);
      UploadOutcome(rgba, gl).Fail? ==> after == before || after.id == 0
    ensures var after := UploadedTexture(before, rgba, gl);
      UploadOutcome(rgba, gl).Fail? && gl.genId != 0 && TextureFormat(rgba).Some? ==> after == NoTexture
  {
  }

  /** `create_texture_from_rgba`. */
  method CreateTextureFromRgba(t: ImageTexture, rgba: Buffer, gl: GlResponse) returns (r: Outcome<string>)
    modifies t
    ensures r == UploadOutcome(rgba, gl)
    ensures ValueOf(t) == UploadedTexture(old(ValueOf(t)), rgba, gl)
  {
    if rgba.NoBuffer? {
      return Fail(EmptyImageMessage);
    }
    var format := TextureFormat(rgba);
    if format.None? {
      return Fail(UnsupportedTypeMessage);
    }
    ReleaseTexture(t);
    t.id := gl.genId;
    if t.id == 0 {
      return Fail(NoTextureNameMessage);
    }
    t.width := rgba.shape.cols;
    t.height := rgba.shape.rows;
    if gl.error != 0 {
      ReleaseTexture(t);
      return Fail(UploadErrorPrefix + HexText(gl.error));
    }
    r := Pass;
  }

  /** C++ integer division, which truncates toward zero. */
  function TruncDiv(a: int, b: int): (q: int)
    requires b > 0
    ensures a >= 0 ==> 0 <= a - q * b < b
    ensures a < 0 ==> -b < a - q * b <= 0
  {
    if a >= 0 then a / b else -((-a) / b)
  }

  /** The offset of the scaled image on the thumbnail canvas along one axis:
      centred, then clamped into `[0, canvas - size]`. */
  function LetterboxOffset(canvas: int, size: int): int {
    Max(0, Min(TruncDiv(canvas - size, 2), canvas - size))
  }

  /** An image that fits is centred (the spare pixel, if any, goes right or
      below) and stays inside the canvas; one that does not fit is placed at
      the origin. */
  lemma LetterboxOffsetPlacement(canvas: int, size: int)
    ensures 0 <= LetterboxOffset(canvas, size)
    ensures size <= canvas ==> LetterboxOffset(canvas, size) + size <= canvas
    ensures size <= canvas ==> var spare := canvas - size - 2 * LetterboxOffset(canvas, size); spare == 0 || spare == 1
    ensures size > canvas ==> LetterboxOffset(canvas, size) == 0
  {
  }

  /** The paste rectangle of `makeThumbnailLetterboxed` on the 96x54 canvas
      for a scaled size `newW` x `newH`. */
  function ThumbnailOrigin(newW: int, newH: int): (int, int) {
    (LetterboxOffset(ThumbWidth.Floor, newW), LetterboxOffset(ThumbHeight.Floor, newH))
  }

  /** Every scaled size `makeThumbnailLetterboxed` can produce, from 1x1 to
      the full canvas, is pasted wholly inside the 96x54 canvas. */
  lemma ThumbnailInsideCanvas(newW: int, newH: int)
    requires 1 <= newW <= 96 && 1 <= newH <= 54
    ensures var (x, y) := ThumbnailOrigin(newW, newH);
      0 <= x && x + newW <= 96 && 0 <= y && y + newH <= 54
  {
    assert ThumbWidth.Floor == 96 && ThumbHeight.Floor == 54;
    LetterboxOffsetPlacement(96, newW);
    LetterboxOffsetPlacement(54, newH);
  }
}
