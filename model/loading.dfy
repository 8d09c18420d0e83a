/** Loading an image from disk and reloading it when the file changes:
    `read_file_stamp`, `load_image_from_path` and `refresh_image_if_changed`
    (src/utils.cpp:461-593). The file system is an input: for each path,
    whether it is a regular file, what `cv::imread` decodes from it and
    what reading its time stamp and size yields. */
module Loading {
  import opened Wrappers
  import opened Viewer
  import opened Paths
  import opened PixelText
  import opened Textures
  import opened Preview

  /** The error texts of `read_file_stamp` and `load_image_from_path`. */
  const FileNotFoundPrefix: string := "File not found: "
  const TimeUnreadablePrefix: string := "Failed to read file timestamp: "
  const SizeUnreadablePrefix: string := "Failed to read file size: "
  const DecodeFailedMessage: string := "Failed to load image via OpenCV."
  /** The dialog `load_image_from_path` itself shows for a file that does
      not decode, when it is asked to show errors. */
  const CannotLoadPrefix: string := "Cannot load image file: "

  /** The outcome of `last_write_time` followed by `file_size`. */
  datatype StampRead = Stamped(stamp: FileStamp) | TimeUnreadable | SizeUnreadable

  /** A path that exists; `decoded` is `NoImage` when OpenCV cannot read it. */
  datatype FileEntry = FileEntry(regular: bool, decoded: Image, stamp: StampRead)

  type FileSystem = map<string, FileEntry>

  /** Everything a load consults besides the image state: the files, the
      contrast stretch, and the driver's answers to the two uploads. */
  datatype Environment = Environment(fs: FileSystem, stretch: Stretch, gl: GlResponse, glThumb: GlResponse)

  predicate IsRegularFile(fs: FileSystem, path: string) {
    path in fs && fs[path].regular
  }

  /** `read_file_stamp`. */
  function ReadFileStamp(fs: FileSystem, path: string): (r: Result<FileStamp, string>)
    ensures r.Ok? <==> IsRegularFile(fs, path) && fs[path].stamp.Stamped?
    ensures r.Ok? ==> r.value == fs[path].stamp.stamp
    ensures !IsRegularFile(fs, path) ==> r == Err(FileNotFoundPrefix + path)
  {
    if !IsRegularFile(fs, path) then Err(FileNotFoundPrefix + path)
    else match fs[path].stamp
      case TimeUnreadable => Err(TimeUnreadablePrefix + path)
      case SizeUnreadable => Err(SizeUnreadablePrefix + path)
      case Stamped(s) => Ok(s)
  }

  /** What a load of `path` may meet: a decoded image OpenCV could have
      produced, and no gray conversion of an image it does not handle. */
  predicate LoadReady(env: Environment, path: string, gray: bool) {
    path in env.fs ==>
      var img := env.fs[path].decoded;
      img.WellFormed() && (img.Image? ==> GraySafe(|img.planes|, gray))
  }

  /** `width` and `height` as `load_image_from_path` is written to record
      them: the height is taken from the column count. The rest of the
      model records `IntendedSize` instead. */
  function RecordedSize(img: Image): (nat, nat)
    requires img.Image?
  {
    (img.cols, img.cols)
  }

  /** The recorded size is wrong for every image that is not square. */
  lemma RecordedSizeWrongUnlessSquare(img: Image)
    requires img.Image?
    ensures RecordedSize(img) == IntendedSize(img) <==> img.cols == img.rows
  {
  }

  /** A two-by-one image is recorded as two-by-two. */
  lemma RecordedSizeCounterexample()
    ensures var img := Image(2, 1, U8, [[0, 0]]);
      img.WellFormed() && RecordedSize(img) == (2, 2) && IntendedSize(img) == (2, 1)
  {
  }

  /** The size the fields are meant to hold: the image's own width and
      height, as its description reports them. */
  function IntendedSize(img: Image): (size: (nat, nat))
    requires img.Image?
    ensures img.ShapeOf() == Some(Shape(size.0, size.1, |img.planes|, img.depth))
  {
    (img.cols, img.rows)
  }

  /** The fields of an image state that a load may change, besides the
      path buffer. */
  datatype LoadFields = LoadFields(source: Image, width: int, height: int, channels: int, depth: string,
                                   preview: PreviewState, zoom: real, hasStamp: bool, stamp: FileStamp)

  function LoadFieldsOf(st: ImageState): LoadFields
    reads st`sourceOriginal, st`width, st`height, st`channels, st`depth, st`zoom, st`hasFileStamp
    reads st`lastWriteTime, st`lastFileSize
    reads st`hasMinMax, st`minVal, st`maxVal, st`preview8u, st`previewRGBA, st.texture, st.textureThumb
  {
    LoadFields(st.sourceOriginal, st.width, st.height, st.channels, st.depth,
               PreviewStateOf(st), st.zoom, st.hasFileStamp, st.Stamp())
  }

  /** The fields set from a decoded image before the preview is rebuilt,
      with the height taken from the row count. */
  function StoredSource(f: LoadFields, img: Image): LoadFields
    requires img.Image?
  {
    var (w, h) := IntendedSize(img);
    f.(source := img, width := w, height := h, channels := |img.planes|, depth := DepthToString(img.depth))
  }

  /** The end of a successful load: zoom reset, stamp recorded if readable. */
  function ZoomAndStampReset(f: LoadFields, stamp: Result<FileStamp, string>): LoadFields {
    match stamp
    case Ok(s) => f.(zoom := 1.0, hasStamp := true, stamp := s)
    case Err(_) => f.(zoom := 1.0)
  }

  /** `load_image_from_path` on values: the new fields and the outcome. */
  function LoadResult(before: LoadFields, path: string, cfg: PreviewConfig, env: Environment): (LoadFields, Outcome<string>)
    requires LoadReady(env, path, cfg.gray)
  {
    if !IsRegularFile(env.fs, path) then (before, Fail(FileNotFoundPrefix + path))
    else
      var img := env.fs[path].decoded;
      if img.NoImage? then (before, Fail(DecodeFailedMessage))
      else
        var (preview, status) := UpdatedPreview(img, cfg, before.preview, env.gl, env.glThumb);
        var previewed := StoredSource(before, img).(preview := preview);
        if status.Err? then (previewed, Fail(status.error))
        else (ZoomAndStampReset(previewed, ReadFileStamp(env.fs, path)), Pass)
  }

  /** A path that is not a regular file or does not decode changes nothing.
      Otherwise the source and its metadata are replaced whatever happens
      next; the load succeeds exactly when the preview does; the zoom and
      the stamp change only on success, the stamp only when it can be
      read. */
  lemma LoadResultProperties(before: LoadFields, path: string, cfg: PreviewConfig, env: Environment)
    requires LoadReady(env, path, cfg.gray)
    ensures !IsRegularFile(env.fs, path) || env.fs[path].decoded.NoImage? ==>
      LoadResult(before, path, cfg, env).0 == before && LoadResult(before, path, cfg, env).1.Fail?
    ensures IsRegularFile(env.fs, path) && env.fs[path].decoded.Image? ==>
      var img := env.fs[path].decoded;
      var (after, r) := LoadResult(before, path, cfg, env);
      && after.source == img && (after.width, after.height) == IntendedSize(img)
      && after.channels == |img.planes| && after.depth == DepthToString(img.depth)
      && (r.Pass? <==> PreviewError(img, cfg, env.gl).None?)
      && (r.Fail? ==> Some(r.error) == PreviewError(img, cfg, env.gl))
    ensures var (after, r) := LoadResult(before, path, cfg, env);
      r.Fail? ==> after.zoom == before.zoom && after.hasStamp == before.hasStamp && after.stamp == before.stamp
    ensures var (after, r) := LoadResult(before, path, cfg, env);
      r.Pass? ==>
        && after.zoom == 1.0
        && (ReadFileStamp(env.fs, path).Ok? ==> after.hasStamp && after.stamp == ReadFileStamp(env.fs, path).value)
        && (ReadFileStamp(env.fs, path).Err? ==> after.hasStamp == before.hasStamp && after.stamp == before.stamp)
  {
    if IsRegularFile(env.fs, path) && env.fs[path].decoded.Image? {
      UpdatedPreviewOutcome(env.fs[path].decoded, cfg, before.preview, env.gl, env.glThumb);
    }
  }

  /** The error a load of `path` reports, or `None` when it succeeds. */
  function LoadError(env: Environment, path: string, cfg: PreviewConfig): Option<string>
    requires LoadReady(env, path, cfg.gray)
  {
    if !IsRegularFile(env.fs, path) then Some(FileNotFoundPrefix + path)
    else if env.fs[path].decoded.NoImage? then Some(DecodeFailedMessage)
    else PreviewError(env.fs[path].decoded, cfg, env.gl)
  }

  /** The dialogs a load of `path` shows before it returns: only a file
      that exists but does not decode is reported, and only when errors
      are to be shown. */
  function LoadDialogs(env: Environment, path: string, showErrors: bool): seq<string> {
    if showErrors && IsRegularFile(env.fs, path) && env.fs[path].decoded.NoImage? then [CannotLoadPrefix + path] else []
  }

  /** Whether a load succeeds, and the error it reports, depend on the file,
      the toggles and the driver alone, never on what the state held before. */
  lemma LoadOutcomeOfFile(before: LoadFields, path: string, cfg: PreviewConfig, env: Environment)
    requires LoadReady(env, path, cfg.gray)
    ensures LoadResult(before, path, cfg, env).1
            == (if LoadError(env, path, cfg).None? then Pass else Fail(LoadError(env, path, cfg).value))
  {
    LoadResultProperties(before, path, cfg, env);
  }

  /** `load_image_from_path`: loads `st.currentPath` and rebuilds its
      preview; the path buffer receives the path once the file has been
      decoded. */
  method LoadImageFromPath(st: ImageState, env: Environment, showErrors: bool) returns (r: Outcome<string>, shown: seq<string>)
    requires st.Valid() && LoadReady(env, st.currentPath, st.grayApplied)
    modifies st`sourceOriginal, st`width, st`height, st`channels, st`depth, st.inputBuffer
    modifies st`preview8u, st`previewRGBA, st`hasMinMax, st`minVal, st`maxVal, st.texture, st.textureThumb
    modifies st`zoom, st`lastWriteTime, st`lastFileSize, st`hasFileStamp
    ensures (LoadFieldsOf(st), r) == old(LoadResult(LoadFieldsOf(st), st.currentPath, st.Applied(), env))
    ensures shown == LoadDialogs(env, st.currentPath, showErrors)
    ensures IsRegularFile(env.fs, st.currentPath) && env.fs[st.currentPath].decoded.Image? ==>
      st.inputBuffer[..] == PathBufferContents(st.currentPath, InputBufferSize)
    ensures !IsRegularFile(env.fs, st.currentPath) || env.fs[st.currentPath].decoded.NoImage? ==>
      st.inputBuffer[..] == old(st.inputBuffer[..])
  {
    var path := st.currentPath;
    if !IsRegularFile(env.fs, path) {
      return Fail(FileNotFoundPrefix + path), [];
    }
    var loaded := env.fs[path].decoded;
    if loaded.NoImage? {
      return Fail(DecodeFailedMessage), if showErrors then [CannotLoadPrefix + path] else [];
    }
    StoreSource(st, loaded, path);
    r := PreviewLoaded(st, env);
    shown := [];
  }

  /** The part of `load_image_from_path` after the source is stored: the
      preview rebuild and, on success, the zoom and stamp update. */
  method PreviewLoaded(st: ImageState, env: Environment) returns (r: Outcome<string>)
    requires st.Valid() && PreviewReady(st) && st.sourceOriginal.Image?
    modifies st`preview8u, st`previewRGBA, st`hasMinMax, st`minVal, st`maxVal, st.texture, st.textureThumb
    modifies st`zoom, st`lastWriteTime, st`lastFileSize, st`hasFileStamp
    ensures var (preview, status) := old(UpdatedPreview(st.sourceOriginal, st.Applied(), PreviewStateOf(st), env.gl, env.glThumb));
      var previewed := old(LoadFieldsOf(st)).(preview := preview);
      (LoadFieldsOf(st), r) ==
        if status.Err? then (previewed, Fail(status.error))
        else (ZoomAndStampReset(previewed, ReadFileStamp(env.fs, st.currentPath)), Pass)
  {
    var status := UpdatePreviewFromSource(st, env.stretch, env.gl, env.glThumb);
    if status.Err? {
      return Fail(status.error);
    }
    ResetZoomAndStamp(st, env.fs, st.currentPath);
    r := Pass;
  }

  /** The fields `load_image_from_path` sets from the decoded image before
      it rebuilds the preview, the height from the row count (see
      `RecordedSize` for the code as written). */
  method StoreSource(st: ImageState, loaded: Image, path: string)
    requires st.Valid() && loaded.Image?
    modifies st`sourceOriginal, st`width, st`height, st`channels, st`depth, st.inputBuffer
    ensures LoadFieldsOf(st) == StoredSource(old(LoadFieldsOf(st)), loaded)
    ensures st.inputBuffer[..] == PathBufferContents(path, InputBufferSize)
  {
    st.sourceOriginal := loaded;
    st.width := loaded.cols;
    st.height := loaded.rows;
    st.channels := |loaded.planes|;
    st.depth := DepthToString(loaded.depth);
    CopyPathToBuffer(st, path);
  }

  /** The end of a successful `load_image_from_path`. */
  method ResetZoomAndStamp(st: ImageState, fs: FileSystem, path: string)
    modifies st`zoom, st`lastWriteTime, st`lastFileSize, st`hasFileStamp
    ensures LoadFieldsOf(st) == ZoomAndStampReset(old(LoadFieldsOf(st)), ReadFileStamp(fs, path))
  {
    st.zoom := 1.0;
    var stamp := ReadFileStamp(fs, path);
    if stamp.Ok? {
      st.lastWriteTime, st.lastFileSize, st.hasFileStamp := stamp.value.writeTime, stamp.value.fileSize, true;
    }
  }

  /** The viewport after a successful reload: a fitted image is fitted
      afresh (zoom reset, minimum zoom unset); a manually placed one keeps
      its zoom, pan and minimum zoom. */
  function ViewAfterReload(v: Viewport): (w: Viewport)
    ensures w.fitToWindow == v.fitToWindow && w.pan == v.pan
    ensures !v.fitToWindow ==> w == v
    ensures v.fitToWindow ==> w.zoom == 1.0 && w.minZoom == MinZoomUnset
  {
    if v.fitToWindow then Viewport(true, 1.0, MinZoomUnset, v.pan)
    else Viewport(false, v.zoom, v.minZoom, v.pan)
  }

  /** What `refresh_image_if_changed` does, decided before any reload. */
  datatype RefreshStep = NoPath | StampUnreadable | FirstObservation(stamp: FileStamp) | Unchanged | Changed(stamp: FileStamp)

  function RefreshDecision(path: string, fs: FileSystem, hasStamp: bool, last: FileStamp): (d: RefreshStep)
    ensures d.Changed? <==> path != "" && ReadFileStamp(fs, path).Ok? && hasStamp && ReadFileStamp(fs, path).value != last
    ensures d.Changed? ==> d.stamp == ReadFileStamp(fs, path).value
    ensures d.FirstObservation? ==> !hasStamp && ReadFileStamp(fs, path) == Ok(d.stamp)
  {
    if path == "" then NoPath
    else match ReadFileStamp(fs, path)
      case Err(_) => StampUnreadable
      case Ok(stamp) =>
        if !hasStamp then FirstObservation(stamp)
        else if stamp == last then Unchanged
        else Changed(stamp)
  }

  /** A reload of a changed file, on the fields it touches and on the
      viewport, with the error text it reports: a failed load keeps the
      viewport and the old stamp; a successful one records `stamp` and
      refits or restores the viewport saved before the load. */
  function Reloaded(before: LoadFields, view: Viewport, path: string, cfg: PreviewConfig, env: Environment,
                    stamp: FileStamp): (LoadFields, Viewport, Option<string>)
    requires LoadReady(env, path, cfg.gray)
  {
    var (loaded, outcome) := LoadResult(before, path, cfg, env);
    if outcome.Fail? then (loaded, view, Some(outcome.error))
    else
      var v := ViewAfterReload(view);
      (loaded.(zoom := v.zoom, hasStamp := true, stamp := stamp), v, None)
  }

  /** A failed reload keeps the viewport and the old stamp; a successful
      one records the new stamp, keeps the fitting mode and the pan, refits a
      fitted viewport and restores a manual one. */
  lemma ReloadedOutcome(before: LoadFields, view: Viewport, path: string, cfg: PreviewConfig, env: Environment,
                        stamp: FileStamp)
    requires LoadReady(env, path, cfg.gray) && view.zoom == before.zoom
    ensures var (after, v, error) := Reloaded(before, view, path, cfg, env, stamp);
      && (error.None? <==> LoadError(env, path, cfg).None?)
      && (error.Some? ==>
            && error == LoadError(env, path, cfg)
            && v == view && after.zoom == v.zoom
            && after.hasStamp == before.hasStamp && after.stamp == before.stamp)
      && (error.None? ==>
            && after.source == env.fs[path].decoded
            && after.hasStamp && after.stamp == stamp && after.zoom == v.zoom
            && v.fitToWindow == view.fitToWindow && v.pan == view.pan
            && (view.fitToWindow ==> v.zoom == 1.0 && v.minZoom == MinZoomUnset)
            && (!view.fitToWindow ==> v == view))
  {
    LoadResultProperties(before, path, cfg, env);
    LoadOutcomeOfFile(before, path, cfg, env);
  }

  /** `refresh_image_if_changed`: reloads the image when its file's stamp
      differs from the recorded one. `error` is what is written to the
      caller's error text, if anything. */
  method RefreshImageIfChanged(st: ImageState, env: Environment) returns (reloaded: bool, error: Option<string>)
    requires st.Valid() && LoadReady(env, st.currentPath, st.grayApplied)
    modifies st`sourceOriginal, st`width, st`height, st`channels, st`depth, st.inputBuffer
    modifies st`preview8u, st`previewRGBA, st`hasMinMax, st`minVal, st`maxVal, st.texture, st.textureThumb
    modifies st`zoom, st`lastWriteTime, st`lastFileSize, st`hasFileStamp
    modifies st`fitToWindow, st`minZoom, st`pan
    ensures var d := RefreshDecision(st.currentPath, env.fs, old(st.hasFileStamp), old(st.Stamp()));
      d.NoPath? || d.StampUnreadable? || d.Unchanged? ==>
        !reloaded && error.None? && unchanged(st, st.inputBuffer, st.texture, st.textureThumb)
    ensures var d := RefreshDecision(st.currentPath, env.fs, old(st.hasFileStamp), old(st.Stamp()));
      d.FirstObservation? ==>
        && !reloaded && error.None?
        && LoadFieldsOf(st) == old(LoadFieldsOf(st)).(hasStamp := true, stamp := d.stamp)
        && st.View() == old(st.View())
        && unchanged(st.inputBuffer, st.texture, st.textureThumb)
    ensures var d := RefreshDecision(st.currentPath, env.fs, old(st.hasFileStamp), old(st.Stamp()));
      d.Changed? ==>
        && reloaded == error.None?
        && (LoadFieldsOf(st), st.View(), error)
           == old(Reloaded(LoadFieldsOf(st), st.View(), st.currentPath, st.Applied(), env, d.stamp))
        && (IsRegularFile(env.fs, st.currentPath) && env.fs[st.currentPath].decoded.Image? ==>
              st.inputBuffer[..] == PathBufferContents(st.currentPath, InputBufferSize))
        && (!IsRegularFile(env.fs, st.currentPath) || env.fs[st.currentPath].decoded.NoImage? ==>
              st.inputBuffer[..] == old(st.inputBuffer[..]))
  {
    reloaded, error := false, None;
    if st.currentPath == "" {
      return;
    }
    var stamp := ReadFileStamp(env.fs, st.currentPath);
    if stamp.Err? {
      return;
    }
    if !st.hasFileStamp {
      RecordStamp(st, stamp.value);
      return;
    }
    if stamp.value.writeTime == st.lastWriteTime && stamp.value.fileSize == st.lastFileSize {
      return;
    }
    reloaded, error := ReloadChangedFile(st, env, stamp.value);
  }

  /** The reload branch of `refresh_image_if_changed`: the viewport is
      saved, the image reloaded, and on success the new stamp recorded and
      the viewport restored or refitted. */
  method ReloadChangedFile(st: ImageState, env: Environment, stamp: FileStamp) returns (reloaded: bool, error: Option<string>)
    requires st.Valid() && LoadReady(env, st.currentPath, st.grayApplied)
    modifies st`sourceOriginal, st`width, st`height, st`channels, st`depth, st.inputBuffer
    modifies st`preview8u, st`previewRGBA, st`hasMinMax, st`minVal, st`maxVal, st.texture, st.textureThumb
    modifies st`zoom, st`lastWriteTime, st`lastFileSize, st`hasFileStamp
    modifies st`fitToWindow, st`minZoom, st`pan
    ensures reloaded == error.None?
    ensures (LoadFieldsOf(st), st.View(), error)
            == old(Reloaded(LoadFieldsOf(st), st.View(), st.currentPath, st.Applied(), env, stamp))
    ensures IsRegularFile(env.fs, st.currentPath) && env.fs[st.currentPath].decoded.Image? ==>
      st.inputBuffer[..] == PathBufferContents(st.currentPath, InputBufferSize)
    ensures !IsRegularFile(env.fs, st.currentPath) || env.fs[st.currentPath].decoded.NoImage? ==>
      st.inputBuffer[..] == old(st.inputBuffer[..])
  {
    var saved := st.View();
    var loaded, shown := LoadImageFromPath(st, env, false);
    if loaded.Fail? {
      return false, Some(loaded.error);
    }
    RecordStamp(st, stamp);
    RestoreView(st, saved);
    reloaded, error := true, None;
  }

  /** Records the stamp of the reloaded file. */
  method RecordStamp(st: ImageState, stamp: FileStamp)
    modifies st`lastWriteTime, st`lastFileSize, st`hasFileStamp
    ensures LoadFieldsOf(st) == old(LoadFieldsOf(st)).(hasStamp := true, stamp := stamp)
  {
    st.lastWriteTime, st.lastFileSize, st.hasFileStamp := stamp.writeTime, stamp.fileSize, true;
  }

  /** Puts back the saved viewport after a reload: a fitted one is refitted,
      a manual one restored. */
  method RestoreView(st: ImageState, saved: Viewport)
    requires saved.fitToWindow ==> st.zoom == 1.0 && st.pan == saved.pan
    modifies st`zoom, st`fitToWindow, st`minZoom, st`pan
    ensures st.View() == ViewAfterReload(saved)
    ensures LoadFieldsOf(st) == old(LoadFieldsOf(st)).(zoom := st.zoom)
  {
    if saved.fitToWindow {
      st.fitToWindow := true;
      st.minZoom := MinZoomUnset;
    } else {
      st.fitToWindow := false;
      st.zoom := saved.zoom;
      st.pan := saved.pan;
      st.minZoom := saved.minZoom;
    }
  }
}
