/** The viewer's data model (src/ImagePixelViewer.h): its constants, the
    OpenCV matrices it handles reduced to their metadata, and the structs
    `ImageTexture`, `ImageState` and `ImageStates` with their default member
    initialisers. The operations on them live in the modules that follow
    src/utils.cpp. */
module Viewer {
  import opened Wrappers

  const PreviewWidth: real := 300.0
  /** The largest zoom factor a viewport may use. */
  const MaxZoom: real := 72.0
  /** The thumbnail canvas, in pixels. */
  const ThumbWidth: real := 96.0
  const ThumbHeight: real := 54.0
  /** `std::array<char, 512> inputBuffer`. */
  const InputBufferSize: nat := 512
  /** The sentinel of `ImageState::minZoom` meaning "not yet fitted". */
  const MinZoomUnset: real := -1.0

  /** `kExt`: the file extensions a dropped file may have, lower case. */
  const ImageExtensions: set<string> := {
    ".bmp", ".dib", ".jpg", ".jpeg", ".jpe", ".jfif", ".jp2", ".j2k", ".jpf", ".jpx", ".j2c", ".png",
    ".pbm", ".pgm", ".ppm", ".pnm", ".tif", ".tiff", ".sr", ".ras", ".webp", ".hdr", ".pic", ".exr"}

  /** The sample depth of an OpenCV matrix (`Mat::depth()`); `OtherDepth`
      is any depth code besides the seven the viewer names (CV_16F). */
  datatype Depth = U8 | S8 | U16 | S16 | S32 | F32 | F64 | OtherDepth

  /** The depths a texture can be uploaded from. */
  predicate Displayable(d: Depth) { d == U8 || d == U16 || d == F32 }

  /** Width, height, channel count and depth of a non-empty matrix. */
  datatype Shape = Shape(cols: nat, rows: nat, channels: nat, depth: Depth)

  /** A decoded source image: `NoImage` is an empty `cv::Mat`; otherwise the
      samples are kept one plane per channel (what `cv::split` yields),
      each plane in row-major order. */
  datatype Image = NoImage | Image(cols: nat, rows: nat, depth: Depth, planes: seq<seq<int>>)
  {
    /** What OpenCV guarantees of a non-empty matrix. */
    predicate WellFormed() {
      Image? ==>
        && cols >= 1 && rows >= 1
        && 1 <= |planes| <= 512
        && forall c :: 0 <= c < |planes| ==> |planes[c]| == cols * rows
    }

    function ShapeOf(): Option<Shape> {
      if NoImage? then None else Some(Shape(cols, rows, |planes|, depth))
    }
  }

  /** A derived buffer (preview, RGBA preview, thumbnail), described by its
      shape. `alpha` is `Some(v)` when channel 3 is known to hold the
      constant `v` everywhere, `None` when it carries data or is not known. */
  datatype Buffer = NoBuffer | Buffer(shape: Shape, alpha: Option<real>)
  {
    function ShapeOf(): Option<Shape> {
      if NoBuffer? then None else Some(shape)
    }
  }

  /** `ImVec2`. */
  datatype Vec2 = Vec2(x: real, y: real)

  /** `ChannelLabel`: which stored channel to print, and its name;
      `None` stands for the null name. */
  datatype ChannelLabel = ChannelLabel(index: int, name: Option<string>)

  /** The four preview toggles, as snapshotted into an image. */
  datatype PreviewConfig = PreviewConfig(gray: bool, autoContrast: bool, pseudoColor: bool, ignoreAlpha: bool)

  /** `hasMinMax`, `minVal`, `maxVal` of an image. */
  datatype Stats = Stats(hasMinMax: bool, minVal: int, maxVal: int)

  const ResetStats: Stats := Stats(false, 0, 0)

  /** The viewport fields of an image. */
  datatype Viewport = Viewport(fitToWindow: bool, zoom: real, minZoom: real, pan: Vec2)

  /** A file's modification stamp; the time is opaque. */
  datatype FileStamp = FileStamp(writeTime: int, fileSize: nat)

  /** `ImageTexture`: an OpenGL texture name and its size; id 0 is "no texture". */
  class ImageTexture {
    var id: nat
    var width: int
    var height: int

    constructor ()
      ensures id == 0 && width == 0 && height == 0
    {
      id, width, height := 0, 0, 0;
    }
  }

  /** `ImageState`: one loaded image. The fields `grayApplied` ..
      `ignoreAlphaApplied` and `lastWriteTime`, `lastFileSize`,
      `hasFileStamp` are used by src/utils.cpp but missing from the struct in
      the header; they are given here with false and zero defaults.
      `width`, `height` and `channels` have no initialiser in the source, and
      the constructor leaves them unspecified. */
  class ImageState {
    const inputBuffer: array<char>
    const texture: ImageTexture
    const textureThumb: ImageTexture
    var sourceOriginal: Image
    var preview8u: Buffer
    var previewRGBA: Buffer
    var currentPath: string
    var filename: string
    var depth: string
    var fitToWindow: bool
    var width: int
    var height: int
    var channels: int
    var minVal: int
    var maxVal: int
    var hasMinMax: bool
    var minZoom: real
    var zoom: real
    var pan: Vec2
    var grayApplied: bool
    var autoContrastApplied: bool
    var pseudoColorApplied: bool
    var ignoreAlphaApplied: bool
    var lastWriteTime: int
    var lastFileSize: nat
    var hasFileStamp: bool

    /** The buffer has its fixed size and the two textures are distinct members. */
    predicate Valid() {
      inputBuffer.Length == InputBufferSize && texture != textureThumb
    }

    function Applied(): PreviewConfig
      reads this`grayApplied, this`autoContrastApplied, this`pseudoColorApplied, this`ignoreAlphaApplied
    {
      PreviewConfig(grayApplied, autoContrastApplied, pseudoColorApplied, ignoreAlphaApplied)
    }

    function View(): Viewport
      reads this`fitToWindow, this`zoom, this`minZoom, this`pan
    {
      Viewport(fitToWindow, zoom, minZoom, pan)
    }

    function StatsOf(): Stats
      reads this`hasMinMax, this`minVal, this`maxVal
    {
      Stats(hasMinMax, minVal, maxVal)
    }

    function Stamp(): FileStamp
      reads this`lastWriteTime, this`lastFileSize
    {
      FileStamp(lastWriteTime, lastFileSize)
    }

    constructor ()
      ensures Valid() && fresh(inputBuffer) && fresh(texture) && fresh(textureThumb)
      ensures forall i :: 0 <= i < inputBuffer.Length ==> inputBuffer[i] == '\0'
      ensures texture.id == 0 && texture.width == 0 && texture.height == 0
      ensures textureThumb.id == 0 && textureThumb.width == 0 && textureThumb.height == 0
      ensures sourceOriginal == NoImage && preview8u == NoBuffer && previewRGBA == NoBuffer
      ensures currentPath == "" && filename == "" && depth == ""
      ensures View() == Viewport(true, 1.0, MinZoomUnset, Vec2(0.0, 0.0))
      ensures StatsOf() == ResetStats
      ensures Applied() == PreviewConfig(false, false, false, false)
      ensures !hasFileStamp && Stamp() == FileStamp(0, 0)
    {
      inputBuffer := new char[InputBufferSize](_ => '\0');
      texture := new ImageTexture();
      textureThumb := new ImageTexture();
      sourceOriginal := NoImage;
      preview8u, previewRGBA := NoBuffer, NoBuffer;
      currentPath, filename, depth := "", "", "";
      fitToWindow := true;
      minVal, maxVal, hasMinMax := 0, 0, false;
      minZoom, zoom, pan := MinZoomUnset, 1.0, Vec2(0.0, 0.0);
      grayApplied, autoContrastApplied, pseudoColorApplied, ignoreAlphaApplied := false, false, false, false;
      lastWriteTime, lastFileSize, hasFileStamp := 0, 0, false;
    }
  }

  /** `ImageStates`: the loaded images, the selection and the session toggles. */
  class ImageStates {
    var linkView: bool
    var grayImage: bool
    var autoMaximizeContrast: bool
    var oneChannelPseudoColor: bool
    var fourChannelIgnoreAlpha: bool
    var states: seq<ImageState>
    var selected: int

    /** The toggles a newly dropped image snapshots. */
    function Toggles(): PreviewConfig
      reads this`grayImage, this`autoMaximizeContrast, this`oneChannelPseudoColor, this`fourChannelIgnoreAlpha
    {
      PreviewConfig(grayImage, autoMaximizeContrast, oneChannelPseudoColor, fourChannelIgnoreAlpha)
    }

    constructor ()
      ensures !linkView && Toggles() == PreviewConfig(false, false, false, false)
      ensures states == [] && selected == 0
    {
      linkView := false;
      grayImage, autoMaximizeContrast, oneChannelPseudoColor, fourChannelIgnoreAlpha := false, false, false, false;
      states := [];
      selected := 0;
    }
  }
}
