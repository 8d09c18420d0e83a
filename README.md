# ImagePixelViewer core, modelled in Dafny

ImagePixelViewer is an OpenCV, OpenGL and ImGui desktop viewer. It opens images dropped onto its window, shows each one through a preview pipeline (depth normalisation or per-channel auto-contrast, gray, pseudo-colour, alpha neutralisation, RGBA conversion), prints the value of the pixel under the cursor, and reloads an image when its file changes on disk. This project models the sequential logic of `src/utils.cpp` over the data types and constants of `src/ImagePixelViewer.h`, and proves what that logic promises.

All files are in `model/`, one module per concern:

| module | file | models |
|---|---|---|
| `Wrappers` | `wrappers.dfy` | `Option`, `Result`, and `Outcome` (a `bool` return plus an error out-parameter) |
| `Numerals` | `numerals.dfy` | integers printed by `operator<<` and `std::to_string`, in decimal and `std::hex`, with parsers that undo them |
| `Viewer` | `viewer.dfy` | the header: constants, `kExt`, the matrices reduced to their metadata, and the classes `ImageTexture`, `ImageState` and `ImageStates` with their default initialisers |
| `Extensions` | `extensions.dfy` | the number of entries of `kExt` |
| `Paths` | `paths.dfy` | `to_lower`, `path::filename`/`path::extension`, the `kExt` test and `copy_path_to_buffer` |
| `PixelText` | `pixel_text.dfy` | `depth_to_string`, `describe_mat`, `make_channel_labels`, `append_pixel_components` and `format_pixel_value` |
| `Textures` | `textures.dfy` | `release_texture`, `create_texture_from_rgba`, and the letterbox offset of `makeThumbnailLetterboxed` |
| `Preview` | `preview.dfy` | `update_preview_from_source` and `rebuild_preview_from_source` |
| `Loading` | `loading.dfy` | `read_file_stamp`, `load_image_from_path` and `refresh_image_if_changed` |
| `Collection` | `collection.dfy` | `DeleteSelected` and `drop_callback` |

The code's style is kept:
- Free functions that take `ImageState&` or `ImageStates&` become module-level methods that take the object as a parameter, with `modifies` clauses naming the fields the C++ assigns.
- Each method is proved against a function that computes the new fields and the result on values. The lemmas about that function carry the properties.
- The pure helpers (`to_lower`, `depth_to_string`, `describe_mat`, `make_channel_labels`, `format_pixel_value`, the offset arithmetic) are functions.
- The loops become `while` loops with invariants: the buffer fill and copy, the channel loop of auto-contrast, the component loop, the duplicate search and the drop loop.

Inputs that the code gets from the outside world are parameters:
- **File system:** a map from path to whether the path is a regular file, what `cv::imread` decodes from it, and what reading its stamp yields. File stamps are an opaque (time, size) pair.
- **Contrast stretch:** the linear map `convertTo` applies, as an uninterpreted function.
- **Sample printing:** the printing of one `long double` sample, as an uninterpreted function.
- **OpenGL driver:** the answers of `glGenTextures` and `glGetError`.
- **Path normalisation:** `normalize_path`, as an uninterpreted function.

Some behaviour of the code is easy to misread, and the model follows the code:
- A failed preview build does not keep the previous preview. The code first resets the statistics, and it stores `preview8u` and then `previewRGBA` before the step after each can fail (`UpdatedPreviewOutcome` states what survives).
- A failed reload does not keep the previous source image. The code overwrites `sourceOriginal` as soon as the file decodes, before the preview can fail (`LoadResultProperties`).
- `DeleteSelected` only ever deletes the selected entry.
- Depth normalisation turns 32S, 32F and 64F into 32F, which is not an 8- or 16-bit depth (`NormalizedDepth`).

`load_image_from_path` records the image's width as its height (see Findings). The model records the image's own height, and `Loading.RecordedSize` keeps the code as written for the finding.

The header does not declare some fields of `ImageState` that `src/utils.cpp` uses: `grayApplied`, `autoContrastApplied`, `pseudoColorApplied`, `ignoreAlphaApplied`, `lastWriteTime`, `lastFileSize` and `hasFileStamp`. The model adds them with false and zero defaults.

## Model

| member | source | states |
|---|---|---|
| `Viewer.ImageTexture.constructor` | src/ImagePixelViewer.h:80-84 | a new texture has id, width and height 0, where id 0 means "no texture" |
| `Viewer.ImageState.constructor` | src/ImagePixelViewer.h:86-106 | a new image has a zero-filled 512-char path buffer and two distinct empty textures; its matrices are empty and its strings blank; it is in fit mode with zoom 1, `minZoom` -1 and pan (0, 0); it has no statistics, no applied toggles and no stamp |
| `Viewer.ImageStates.constructor` | src/ImagePixelViewer.h:108-116 | a new collection has link view and all four toggles off, no images, and selection 0 |
| `Numerals.Render` | src/utils.cpp:239 | a rendering is a non-empty string of digits of the base, and it starts with '0' only for zero |
| `Numerals.ParseRender` | src/utils.cpp:239 | parsing the digits printed for n yields n, in any base |
| `Numerals.IntText` | src/utils.cpp:433 | `std::to_string` of an int is non-empty and starts with '-' exactly for negatives |
| `Numerals.IntTextRoundTrip` | src/utils.cpp:433 | the text of any int reads back as that int |
| `Numerals.HexTextRoundTrip` | src/utils.cpp:214 | the `std::hex` text of a GL error code reads back as the code |
| `Numerals.DigitRun` | src/utils.cpp:239 | the length of the leading digit run: all digits before it, none at it |
| `Numerals.DigitRunOfDecimal` | src/utils.cpp:239 | a number printed before a non-digit is read back whole |
| `Paths.ToLower` | src/utils.cpp:23-26 | same length, each char lower-cased by the "C" locale rule |
| `Paths.ToLowerIdempotent` | src/utils.cpp:23-26 | the result is lower case, and lower-casing changes a string if and only if it has an upper-case letter |
| `Paths.LastIndexOf` | src/utils.cpp:49 | the index found holds the char and no later index does; `None` only when the char is absent |
| `Paths.FileName` | src/utils.cpp:70 | the file name is a suffix of the path without '/', and is either the whole path or follows a '/' |
| `Paths.Extension` | src/utils.cpp:49 | the extension is empty or a suffix of the path that starts with '.' and has no further '.' or '/' |
| `Extensions.ImageExtensionsCount` | src/ImagePixelViewer.h:39-60 | `kExt` holds 24 different extensions |
| `Paths.DotSuffix` | src/utils.cpp:49 | the part of a file name from its last '.' is a suffix starting with '.' and has no other '.' |
| `Paths.ImageExtensionsForm` | src/ImagePixelViewer.h:39-60 | every `kExt` entry is '.' followed by lower-case text, at least 3 chars long |
| `Paths.UpperCaseExtensionAccepted` | src/utils.cpp:49-50 | "a.PNG" passes the test although ".PNG" is not listed, because the extension is lower-cased first |
| `Paths.LastExtensionCounts` | src/utils.cpp:49-50 | for "d/a.b.TiF" only the last extension ".TiF" counts, and it is accepted |
| `Paths.HiddenFileRejected` | src/utils.cpp:49-50 | ".png" has no extension, so it is rejected |
| `Paths.StoredLength` | src/utils.cpp:93-101 | the number of path chars stored is at most the path length and less than the buffer size; it is all of the path or fills all but the last char; it is 0 for a zero-size buffer |
| `Paths.PathBufferContents` | src/utils.cpp:91-104 | the buffer holds the stored tail of the path at its start and '\0' everywhere else |
| `Paths.InputBufferLayout` | src/utils.cpp:91-104 | in the 512-char buffer the last char is always '\0'; the first min(n, 511) chars are the path's last min(n, 511) chars; a path shorter than 512 chars is stored whole |
| `Paths.CStringOfPathBuffer` | src/utils.cpp:91-104 | a path without NUL chars reads back from the buffer as a C string equal to its stored tail |
| `Paths.CopyPathToBuffer` | src/utils.cpp:91-104 | the fill and copy loops leave exactly `PathBufferContents` in the array |
| `PixelText.DepthNameRoundTrip` | src/utils.cpp:221-232 | each depth has its own name, which reads back as that depth |
| `PixelText.ReadNumberOfDecimal` | src/utils.cpp:239 | a printed number followed by its separator reads back with the rest of the text |
| `PixelText.DescribeMatRoundTrip` | src/utils.cpp:233-241 | the description of a non-empty matrix parses back to its exact shape, and never reads "empty" |
| `PixelText.MakeChannelLabels` | src/utils.cpp:594-620 | for n >= 1 channels there are n labels with pairwise distinct indices in [0, n); labels carry names exactly for 1, 3 and 4 channels; for any other count, label i reads channel i, in index order |
| `PixelText.ClampIndex` | src/utils.cpp:628 | the clamped index is in [0, channels) and equals the index when that is already in range |
| `PixelText.PixelOffsetInRange` | src/utils.cpp:623 | the sample offset of an in-bounds pixel lies inside the plane |
| `PixelText.AppendPixelComponents` | src/utils.cpp:621-637 | the loop appends to the stream exactly the ", "-separated components of all labels |
| `PixelText.FormatPixelValue` | src/utils.cpp:638-676 | the text is empty exactly outside the image or on an empty matrix; otherwise it starts with "(x, y) [" and ends with "]" |
| `PixelText.PixelValueOfComponents` | src/utils.cpp:644-675 | for a pixel in the image with a supported depth, the text is "(x, y) [", then the components of the labels `make_channel_labels` selects, then "]" |
| `PixelText.PixelValueOfUnsupportedDepth` | src/utils.cpp:668-675 | for a pixel in the image with any other depth, the text is "(x, y) [unsupported depth]" |
| `PixelText.ThreeChannelComponents` | src/utils.cpp:602-636 | a 3-channel pixel stored B, G, R prints as "R=<ch 2>, G=<ch 1>, B=<ch 0>" |
| `PixelText.TwoChannelComponents` | src/utils.cpp:613-636 | a 2-channel pixel prints each channel by index: "C0=<ch 0>, C1=<ch 1>" |
| `PixelText.OneChannelComponents` | src/utils.cpp:599-601 | a 1-channel pixel prints "Gray=<ch 0>" |
| `PixelText.FourChannelComponents` | src/utils.cpp:607-612 | a 4-channel pixel prints "R=<ch 2>, G=<ch 1>, B=<ch 0>, A=<ch 3>" |
| `PixelText.ComponentsJoined` | src/utils.cpp:622-636 | the loop's text is the components' texts joined by ", ", in label order |
| `PixelText.ComponentTextsAt` | src/utils.cpp:622-636 | entry i of the component texts is the text of label i |
| `PixelText.IndexedChannelComponents` | src/utils.cpp:613-617 | for a channel count other than 1, 3 and 4, the text is "C<i>=<ch i>" for every channel i, in index order, joined by ", " |
| `Textures.Released` | src/utils.cpp:82-89 | releasing leaves id 0; a live texture becomes (0, 0, 0) and a dead one is untouched |
| `Textures.ReleaseTexture` | src/utils.cpp:82-89 | the texture's fields become `Released` of the old ones |
| `Textures.TextureFormat` | src/utils.cpp:156-174 | a format exists exactly for 4-channel 8U, 16U and 32F data, with the GL data type of that depth |
| `Textures.UploadResult` | src/utils.cpp:151-219 | a successful upload leaves a live texture of the image's size; a failed one leaves the texture untouched or at id 0, and fully released once a name was generated |
| `Textures.CreateTextureFromRgba` | src/utils.cpp:151-219 | the result and the new texture are those of the upload's specification, for every driver answer |
| `Textures.TruncDiv` | src/utils.cpp:270-271 | C++ division rounds toward zero: the remainder has the numerator's sign and is smaller than the divisor in magnitude, which fixes the quotient for negative numerators too |
| `Textures.LetterboxOffsetPlacement` | src/utils.cpp:270-275 | the offset is never negative; an image that fits stays inside the canvas, centred with at most one spare pixel on the far side; one that does not fit goes to 0 |
| `Textures.ThumbnailInsideCanvas` | src/utils.cpp:258-276 | every scaled size from 1x1 up to 96x54 is pasted wholly inside the 96x54 canvas |
| `Preview.Saturate8` | src/utils.cpp:338 | `saturate_cast<uchar>` lands in [0, 255] and keeps values already there |
| `Preview.SeqMin` | src/utils.cpp:347 | the channel minimum is below every sample |
| `Preview.SeqMax` | src/utils.cpp:347 | the channel maximum is above every sample |
| `Preview.SeqMinAttained` | src/utils.cpp:347 | the minimum is one of the samples |
| `Preview.SeqMaxAttained` | src/utils.cpp:347 | the maximum is one of the samples |
| `Preview.WellFormedPlanes` | src/utils.cpp:325-330 | splitting a non-empty matrix yields at least one channel, each with samples |
| `Preview.AlphaTo8` | src/utils.cpp:336-341 | the alpha channel keeps its length, lands in [0, 255], and keeps 8-bit values |
| `Preview.ContrastChannel` | src/utils.cpp:343-358 | a colour channel keeps its length and lands in [0, 255]; a channel that is not constant is stretched, sample by sample, between its own minimum and maximum |
| `Preview.ContrastPlanes` | src/utils.cpp:335-365 | the merged channels keep their number and sizes, and every sample is 8-bit |
| `Preview.AcrossMinBounds` | src/utils.cpp:332-349 | `minAcross` is finite once a colour channel has been seen; it is below every colour sample so far and is one of them |
| `Preview.AcrossMaxBounds` | src/utils.cpp:332-349 | `maxAcross` is finite once a colour channel has been seen; it is above every colour sample so far and is one of them |
| `Preview.ContrastStatsRange` | src/utils.cpp:332-363 | the recorded range sets `hasMinMax`, covers every colour sample and is attained by colour samples; alpha takes no part |
| `Preview.AlphaDoesNotAffectStats` | src/utils.cpp:336-341 | replacing channel 3 of a 4-channel image changes none of the statistics |
| `Preview.ContrastPlanesPerChannel` | src/utils.cpp:335-360 | each output channel depends on its own source channel alone, for a given channel count |
| `Preview.ColourChannelStretched` | src/utils.cpp:343-357 | a colour channel that is not constant is stretched between its own minimum and maximum, never the range across channels |
| `Preview.ConstantChannelZeroed` | src/utils.cpp:352-354 | a constant colour channel becomes all zeros, whatever the stretch |
| `Preview.AutoContrastChannels` | src/utils.cpp:332-365 | the channel loop yields exactly `ContrastPlanes` and the statistics `ContrastStats` |
| `Preview.NormalizedDepth` | src/utils.cpp:291-322 | only an unknown depth fails; every result is displayable; 8U, 16U and 32F are kept |
| `Preview.StagedPreviewDisplayable` | src/utils.cpp:291-413 | a preview that reaches the RGBA stage has a displayable depth and the source's size; it is 8U under auto-contrast |
| `Preview.RgbaAcceptsChannelCounts` | src/utils.cpp:417-436 | the RGBA stage succeeds exactly for 1, 3 or 4 source channels; otherwise the error is "Unsupported channel count: " and a number that reads back as the count |
| `Preview.RgbaUploadable` | src/utils.cpp:394-436 | every RGBA buffer has 4 channels, the source's size and a format the upload accepts; its alpha is the depth's opaque value (255, 65535, 1.0) unless it is the source's own alpha, kept exactly when the source has 4 channels and neither gray nor ignore-alpha is on |
| `Preview.PseudoColourOnSingleChannel` | src/utils.cpp:368-392 | the colour map runs exactly on previews that are single-channel after the gray stage; it yields 4-channel 8U with opaque alpha; gray alone reduces to 1 channel |
| `Preview.UpdatedPreviewOutcome` | src/utils.cpp:280-459 | with no source nothing changes; otherwise the update fails exactly when the pipeline or the main upload fails, with that error; the statistics are the auto-contrast range or reset; a success leaves a live texture of the source's size and the status text; a pipeline failure keeps the RGBA buffer and both textures |
| `Preview.UpdatePreviewFromSource` | src/utils.cpp:280-459 | the new fields and the result are those of `UpdatedPreview` on the old state |
| `Preview.FinishPreview` | src/utils.cpp:368-459 | the stages after the first change the fields as `AfterBase` says |
| `Preview.UploadPreview` | src/utils.cpp:438-453 | the RGBA buffer is stored, uploaded, and the thumbnail is uploaded only after a successful main upload |
| `Preview.PreviewBase` | src/utils.cpp:286-366 | the statistics are reset, or set to the auto-contrast range; the result is the preview's base shape or the depth/split error |
| `Preview.RebuildPreviewFromSource` | src/utils.cpp:530-541 | with no source it fails and changes nothing; otherwise it records the toggles and then updates the preview with them |
| `Preview.ApplyToggles` | src/utils.cpp:535-538 | the applied toggles become the requested ones, and no preview field changes |
| `Loading.ReadFileStamp` | src/utils.cpp:461-481 | the stamp is read exactly for a regular file whose time and size are readable; otherwise "File not found: " and the path, or the time or size error |
| `Loading.RecordedSizeWrongUnlessSquare` | src/utils.cpp:501-502 | the recorded size equals the image's size if and only if the image is square |
| `Loading.RecordedSizeCounterexample` | src/utils.cpp:501-502 | a 2-by-1 image is recorded as 2-by-2 |
| `Loading.IntendedSize` | src/utils.cpp:501-502 | the intended width and height are the ones the image's description reports |
| `Loading.LoadResultProperties` | src/utils.cpp:483-528 | a missing or undecodable file changes nothing; otherwise the source and its metadata, with the image's own width and height, are replaced whatever follows; the load succeeds exactly when the preview does; zoom and stamp change only on success, the stamp only when readable |
| `Loading.LoadOutcomeOfFile` | src/utils.cpp:483-528 | whether a load succeeds, and its error, depend only on the file, the toggles and the driver |
| `Loading.LoadImageFromPath` | src/utils.cpp:483-528 | the new fields and the result are those of `LoadResult`; the path buffer receives the path once the file decodes, and is untouched otherwise; when errors are to be shown, a file that exists but does not decode shows "Cannot load image file: " and the path |
| `Loading.PreviewLoaded` | src/utils.cpp:507-527 | after the source is stored: the preview update, then zoom and stamp only on success |
| `Loading.StoreSource` | src/utils.cpp:500-505 | the source, width, height (corrected to the row count), channels and depth name are set from the decoded image, and the path is copied into the buffer |
| `Loading.ResetZoomAndStamp` | src/utils.cpp:512-526 | the zoom becomes 1, and the stamp is recorded when it can be read |
| `Loading.ViewAfterReload` | src/utils.cpp:581-590 | fit mode and pan are kept; a fitted view gets zoom 1 and `minZoom` -1; a manual view is restored exactly |
| `Loading.RefreshDecision` | src/utils.cpp:543-564 | a reload is due exactly for a non-empty path with a readable stamp, a recorded stamp, and a new stamp that differs from it |
| `Loading.ReloadedOutcome` | src/utils.cpp:566-592 | a failed reload reports the load's error and keeps the view and the old stamp; a successful one records the new stamp and the decoded source, and refits or restores the view |
| `Loading.RefreshImageIfChanged` | src/utils.cpp:543-593 | no path, an unreadable stamp or an unchanged stamp changes nothing; a first observation records the stamp and leaves every other field, the viewport and the buffers as they were; a changed stamp reloads as `Reloaded` says, returning true exactly on success, and the path buffer receives the path once the file decodes and is untouched otherwise |
| `Loading.ReloadChangedFile` | src/utils.cpp:566-592 | the reload branch changes the fields and the view as `Reloaded` says; the path buffer receives the path once the file decodes, and is untouched otherwise |
| `Loading.RecordStamp` | src/utils.cpp:577-579 | only the stamp changes, to the new one |
| `Loading.RestoreView` | src/utils.cpp:581-590 | the view becomes `ViewAfterReload` of the saved one, and no load field but the zoom changes |
| `Collection.RemoveAt` | src/utils.cpp:689 | erasing shortens the vector by one |
| `Collection.RemoveAtContents` | src/utils.cpp:689 | the entries before the erased one stay in place, the later ones shift down by one, and exactly one occurrence of the erased entry is gone |
| `Collection.SelectionAfterDelete` | src/utils.cpp:692-696 | the new selection is 0 once the list is empty, and otherwise a valid index: the deleted index, or the one before it when the last entry went |
| `Collection.SelectionFollowsDeleted` | src/utils.cpp:689-696 | after a delete, the entry after the deleted one is selected, or the one before it when the last entry was deleted |
| `Collection.DeleteSelected` | src/utils.cpp:679-697 | with a selection out of range or an empty list nothing changes; otherwise both textures of the selected image are released, it is erased, and the selection moves |
| `Collection.NormalForms` | src/utils.cpp:55-61 | every open image's normalised path is among the normal forms |
| `Collection.NormalFormsWitness` | src/utils.cpp:55-61 | every normal form comes from an open image |
| `Collection.DropAppendsAtMostOnePerPass` | src/utils.cpp:46-79 | after i passes, at most i paths are appended |
| `Collection.DropOpensOnlyLoadable` | src/utils.cpp:46-79 | every appended path is a dropped path whose file loads |
| `Collection.DropReportsNonImages` | src/utils.cpp:49-53 | every dropped path whose extension is not listed is reported as "Not a valid image file: " and the path |
| `Collection.DropOpensDistinct` | src/utils.cpp:54-64 | appended paths normalise to forms distinct from each other and from the images already open |
| `Collection.DropSettles` | src/utils.cpp:46-79 | after the drop, every dropped path that loads is open |
| `Collection.SettledDropOpensNothing` | src/utils.cpp:54-64 | a drop appends nothing when every dropped path that loads is already open |
| `Collection.DropTwiceOpensNothing` | src/utils.cpp:37-80 | dropping the same files a second time appends nothing |
| `Collection.DropOpensOnlyImages` | src/utils.cpp:46-79 | every appended path has a listed extension and a file that loads without error |
| `Collection.DropMissingFileDialog` | src/utils.cpp:485-489 | a dropped image whose file is missing shows one dialog, "File not found: " and the path |
| `Collection.DropUndecodableDialogs` | src/utils.cpp:491-497 | a dropped image whose file does not decode shows "Cannot load image file: " and the path, then "Failed to load image via OpenCV." |
| `Collection.IsAlreadyOpen` | src/utils.cpp:55-61 | the duplicate search finds a match if and only if the target is a normal form of an open image |
| `Collection.NewImageState` | src/utils.cpp:65-70 | the new image takes the session's toggles, the dropped path and its file name, and has no source yet |
| `Collection.LoadDropped` | src/utils.cpp:73-77 | loading a dropped image, with errors shown, succeeds exactly when its file loads without error, and then it holds the decoded file; it returns the load's own dialog |
| `Collection.LoadWithVerdict` | src/utils.cpp:73-77 | the same load, against the verdict on the path: it succeeds exactly when the path loads, leaving an opened image; on failure the verdict's dialogs are the load's own followed by its error |
| `Collection.OpenDropped` | src/utils.cpp:65-78 | a path with a listed extension is appended, as a fresh and opened image, exactly when its file loads; otherwise the load's own dialog and then its error are returned, and nothing is appended |
| `Collection.DropOne` | src/utils.cpp:47-79 | one pass does what `DropStep` says: report a non-image, skip a duplicate, report a failed load, or append |
| `Collection.DropPass` | src/utils.cpp:46-79 | pass i takes the appended paths and dialogs of the first i passes to those of the first i + 1 |
| `Collection.Drop` | src/utils.cpp:37-80 | the drop appends exactly the paths `DropOutcome` admits, in order, each a fresh image opened with the session's toggles; it keeps the existing images in place; it returns exactly the dialogs shown, in order, including the one the load itself shows for a file that does not decode |

## Left out

- The window, event loop and ImGui drawing in `src/ImagePixelViewer.cpp` are not part of this model. The viewport zoom, pan, link and hit-testing logic are not in the code the model follows.
- OpenCV pixel work (`imread`, `convertTo`, `cvtColor`, `applyColorMap`, `resize`, `merge`) is modelled by the channel count, depth and size it produces. Only the auto-contrast channel loop works on samples, as integers. Its linear stretch is an uninterpreted function, so float rounding is not modelled.
- Float and `long double` values are not modelled. Sample text comes from an uninterpreted printing function. `minVal` and `maxVal` are integers, so the non-finite fallback to 0 is modelled only for "no colour channel", not for NaN samples. The thumbnail scale (`std::round` of a double) is replaced by the scaled size as an input.
- The `kExt` test uses '/' as the only separator, as POSIX `std::filesystem::path` does. Windows separators and drive letters are not modelled.
- `normalize_path` depends on the working directory and `lexically_normal`, so it is an uninterpreted function.
- Null `paths` in `drop_callback` cannot be represented. An empty or null drop is the empty sequence, for which the loop does nothing. A null `states` argument is not modelled either.
- `showError`, `tinyfd_messageBox`, `stderr` and `cout` are not modelled. Instead, `LoadImageFromPath` returns the dialog it would show, and `Drop` returns every dialog shown during the drop, in order.
- `Collection.Drop`: `push_back` copies the state, but the model appends the object itself.
- `Collection.Drop`: the verdict on each path is returned as a ghost sequence, which `VerdictsOf` ties to the file system.
- The gray stage on a 2-channel or more-than-4-channel image leaves an empty matrix that makes later stages throw. This case is excluded by the `GraySafe` precondition.
- The OpenGL calls are replaced by their answers: the name `glGenTextures` returns and the code `glGetError` returns. Texture parameters and pixel data are not modelled.
- `Collection.Drop`: the OpenGL driver's answers are part of the environment, one per environment. So every image appended by one drop receives the same texture name, whereas the driver hands out a new name on each call.
- `Loading.StoreSource`: it records the height from the row count, not from `loaded.cols` as src/utils.cpp:502 does. `Loading.RecordedSize` keeps the code as written (see Findings).
- `Preview.NormalizedDepth`: the contract states which depths are kept and which fail. It does not state the signed-to-unsigned mapping (8S to 8U, 16S to 16U, 32S and 64F to 32F) except through the function's definition.

## Findings

| source | as written | input that shows it | evidently intended | confidence | as-written member | corrected member |
|---|---|---|---|---|---|---|
| src/utils.cpp:502 | `state.height = loaded.cols;` records the image's width as its height | a 2-by-1 image (cols 2, rows 1) is recorded as width 2, height 2 | `state.height = loaded.rows;`, so the recorded size is the image's size | high (not executed) | `Loading.RecordedSizeCounterexample` | `Loading.IntendedSize` |
