# delin_ocr core, modelled in Dafny

This project models the logic at the heart of the delin_ocr document scanner: the
keyword classifier that tags recognised text, the camera's document-edge stabiliser,
the photo editor (its modes, the corner-selection geometry, the perspective step and
the pixel filters), the file helpers (file types, directory listing order, recent
files, collision-free file names, saving a blob), the thumbnail-name hash, the path
handling of the file cache database and the settings store. Each module follows one
source file, or one group of source files:

| module | file | source |
|---|---|---|
| `ClassEngine` | class_engine.dfy | `ClassEngine` in src/utils/tagService.ts |
| `TagService` | tag_service.dfy | `TAG_CONFIGS` and `TagService` in src/utils/tagService.ts |
| `CameraDetection` | camera_detection.dfy | src/views/ocr/ts/camera-detection.ts |
| `Types` | types.dfy | src/views/ocr/ts/types.ts |
| `Editor` | editor.dfy | src/views/ocr/ts/editor.ts |
| `EditorGeometry` | editor_geometry.dfy | the display-area, clamping, mid-point and drag arithmetic shared by editor-persp-crop.ts and editor-crop.ts |
| `EditorPerspCrop` | editor_persp_crop.dfy | src/views/ocr/ts/editor-persp-crop.ts |
| `EditorCrop` | editor_crop.dfy | `useEditorCrop` in src/views/ocr/ts/editor-crop.ts |
| `EditorPersp` | editor_persp.dfy | src/views/ocr/ts/editor-persp.ts |
| `PixelFilters` | pixel_filters.dfy | the per-pixel filters (enhance, mono, scan) of src/views/ocr/ts/editor-filter.ts |
| `NeighbourhoodFilters` | neighbourhood_filters.dfy | the sharpen and de-shadow filters of src/views/ocr/ts/editor-filter.ts |
| `EditorFilter` | editor_filter.dfy | the filter list and `currentFilter`/`applyFilterToImage` of src/views/ocr/ts/editor-filter.ts |
| `FileService` | file_service.dfy | src/utils/fileService.ts |
| `FileSystem` | file_system.dfy | src/utils/fileSystem.ts |
| `ThumbnailNames` | thumbnail_names.dfy | src/utils/thumbnailService.ts and src/utils/thumbService.ts |
| `DbService` | db_service.dfy | src/utils/dbService.ts |
| `SettingService` | setting_service.dfy | src/utils/settingService.ts |
| `Wrappers` | wrappers.dfy | `Option` and `Result` |

Loops in the source are methods with loops here. Each is proved against a recursive
or comprehension definition, and the promised properties are lemmas about that
definition. Objects whose fields the source updates are classes: the stabiliser, the
editor state, the three editors, the settings store, the tag cache and the local file
system. Pure pipelines are functions. Values the source gets from outside become
parameters:
- what OpenCV measures of a contour (its area, bounding box, centre and vertices);
- the image and container sizes;
- pointer positions;
- the current time;
- the URL a filter or transform produced;
- the data behind a blob URL;
- the set of existing paths.

`Math.hypot` is a function parameter `hypot`.

## Model

| member | source | states |
|---|---|---|
| ClassEngine.Normalize | src/utils/tagService.ts:36-44 | definition of `normalizeText`; see NormalizeIsNormal, NormalizeFixesNormal and NormalizeIdempotent |
| ClassEngine.NormalizeIsNormal | src/utils/tagService.ts:36-44 | the normalised text holds no white space, none of the stripped punctuation, no U+200B to U+200F or U+FEFF and no upper-case ASCII letter, and is no longer than the input |
| ClassEngine.NormalizeFixesNormal | src/utils/tagService.ts:36-44 | a text with nothing to remove or lower-case is returned unchanged |
| ClassEngine.NormalizeIdempotent | src/utils/tagService.ts:37-43 | the empty text normalises to the empty text, and normalising twice is normalising once |
| ClassEngine.ContainsCharSequence | src/utils/tagService.ts:52-66 | the loop answers true exactly when the keyword is an in-order, not necessarily contiguous, subsequence of the text; an empty keyword gives true and a keyword longer than the text gives false |
| ClassEngine.SubsequenceLength | src/utils/tagService.ts:54 | a subsequence is never longer than the text, so the early `false` for a longer keyword loses no match |
| ClassEngine.GreedyStep | src/utils/tagService.ts:57-63 | consuming a keyword character at the first text character that equals it keeps exactly the matches there were |
| ClassEngine.InfixIsSubsequence | src/utils/tagService.ts:134-143 | a keyword contained contiguously (`includes`) is also an in-order subsequence |
| ClassEngine.LevenshteinSymmetric | src/utils/tagService.ts:75-78 | the edit distance is symmetric, so swapping the strings to put the shorter first changes nothing |
| ClassEngine.LevenshteinIdentity | src/utils/tagService.ts:80-83 | a string is at distance 0 from itself and at distance equal to its length from the empty string, either way round |
| ClassEngine.LevenshteinUpperBound | src/utils/tagService.ts:112-113 | the distance is at most the longer length, so the similarity is not negative |
| ClassEngine.LevenshteinZeroIffEqual | src/utils/tagService.ts:109-113 | the distance is 0 exactly when the strings are equal |
| ClassEngine.TableCell | src/utils/tagService.ts:86-93 | the minimum of deletion, insertion and substitution over the neighbouring cells is the distance of the two prefixes |
| ClassEngine.NextRow | src/utils/tagService.ts:83-94 | from the row of distances to the first `i - 1` characters of the longer string, the inner loop builds the row for the first `i` characters, cell by cell |
| ClassEngine.EditDistance | src/utils/tagService.ts:74-100 | the two-row computation returns the recursive Levenshtein distance (insert, delete and substitute each cost 1) of its arguments in their given order |
| ClassEngine.Similarity | src/utils/tagService.ts:108-114 | the ratio lies in [0, 1]; it is 1 exactly when the strings are equal (two empty strings included) and 0 when exactly one of them is empty |
| ClassEngine.SimilaritySymmetric | src/utils/tagService.ts:108-114 | the similarity does not depend on the order of its arguments |
| ClassEngine.SlidingWindowMatch | src/utils/tagService.ts:156-167 | the window loop hits exactly when some window of the keyword's length, at an offset from 0 to `|text| - |keyword|`, is at least `threshold` similar to the keyword |
| ClassEngine.MatchKeyword | src/utils/tagService.ts:133-167 | the four strategies, tried in order, match exactly when the keyword is contained, is a subsequence, or is at least 2 long and either (at least 4 long and globally similar) or hit by a window |
| ClassEngine.KeywordStep | src/utils/tagService.ts:129-167 | one loop iteration contributes the keyword in its original spelling exactly when its normalised form matches the normalised text |
| ClassEngine.CheckKeywords | src/utils/tagService.ts:123-171 | the loop returns exactly the keywords, in input order and original spelling, whose normalised forms match the normalised text |
| ClassEngine.MatchedKeywordsAreSubsequence | src/utils/tagService.ts:123-171 | the matches are an order-preserving subsequence of the keyword list |
| ClassEngine.MatchedKeywordsNonEmpty | src/utils/tagService.ts:124-131 | every match is one of the keywords and does not normalise to the empty string; no keywords give no matches |
| ClassEngine.InOrderKeywordAlwaysMatched | src/utils/tagService.ts:133-143 | a keyword whose normalised form is contained in, or a subsequence of, the normalised text is matched whatever the threshold |
| ClassEngine.FuzzyStrategiesGated | src/utils/tagService.ts:146-167 | a match that is not a subsequence needs a keyword at least 2 long, and came from global similarity on a keyword at least 4 long or from a window |
| TagService.Ids | src/utils/tagService.ts:217 | the list of ids has one entry per category, in table order |
| TagService.TagConfigsWellFormed | src/utils/tagService.ts:8-25 | the category ids are distinct, and `other` is the only category without keywords |
| TagService.ScoresKeys | src/utils/tagService.ts:193-201 | every scored id is the id of a category |
| TagService.AccumulateIsScores | src/utils/tagService.ts:193-201 | folding the `Map` updates over categories with distinct ids gives each scoring category once, in category order, with its match count, and no id twice |
| TagService.MapGetAbsent | src/utils/tagService.ts:198 | an absent id reads as 0 (`scores.get(id) \|\| 0`) |
| TagService.MapSet | src/utils/tagService.ts:198 | `Map.set` on an absent id appends the entry at the end (insertion order); on a present id the map keeps its size |
| TagService.ScoreConfig | src/utils/tagService.ts:194-200 | one step of the `reduce`: a category with keywords and a positive match count adds its count under its id |
| TagService.ScoreAll | src/utils/tagService.ts:193-201 | the loop over the categories builds the score map the `reduce` builds |
| TagService.InsertMultiset | src/utils/tagService.ts:204-205 | inserting an entry into the sorted list adds exactly that entry |
| TagService.InsertSorted | src/utils/tagService.ts:205 | inserting into a list ordered by non-increasing count keeps it ordered |
| TagService.InsertWithCount | src/utils/tagService.ts:205 | insertion places the entry before every entry of equal count, so, inserting each head in front of its sorted tail, the earlier element stays first (a stable sort) |
| TagService.SortDesc | src/utils/tagService.ts:204-206 | definition of the stable sort by descending count; see SortDescCorrect |
| TagService.SortDescCorrect | src/utils/tagService.ts:204-206 | the sort is a permutation, ordered by non-increasing count, and entries of equal count keep their original order |
| TagService.GenerateTags | src/utils/tagService.ts:187-209 | the method returns the defaults for blank text, otherwise the ids of the sorted scores, or the defaults when nothing scored |
| TagService.GeneratedDefaults | src/utils/tagService.ts:188-208 | blank text, or text no category matches, gives the default tags; otherwise the result is not empty |
| TagService.GeneratedRanking | src/utils/tagService.ts:193-208 | for text that scores, the tags are the ids of a permutation of the scores with distinct ids, ordered by non-increasing match count, ties in table order |
| TagService.ScoresPositive | src/utils/tagService.ts:24-198 | every scored category has at least one match and is never `other` |
| TagService.DistinctKeysPermutation | src/utils/tagService.ts:204-206 | sorting cannot duplicate an id |
| TagService.TagServiceState.GetAllTags | src/utils/tagService.ts:215-220 | the cache is filled on first use and then holds the ids of all categories, which are returned |
| TagService.AllTagsShape | src/utils/tagService.ts:8-220 | there are sixteen distinct tag ids, `other` last |
| TagService.TagServiceState.constructor | src/utils/tagService.ts:179 | a new service has no cached tags |
| CameraDetection.AverageDistanceBetweenPoints | src/views/ocr/ts/camera-detection.ts:37-45 | the loop returns the mean distance of corresponding points; it is absent (`Infinity`, or `NaN` for two empty lists) exactly when the lengths differ or are 0 |
| CameraDetection.AverageDistanceSelf | src/views/ocr/ts/camera-detection.ts:37-45 | a set of corners is at mean distance 0 from itself |
| CameraDetection.SmoothCorners | src/views/ocr/ts/camera-detection.ts:50-66 | definition of `smoothCorners`; see SmoothFixpoint and SmoothWithinBounds |
| CameraDetection.SmoothFixpoint | src/views/ocr/ts/camera-detection.ts:50-66 | smoothing against a history of copies of the new corners returns them unchanged, which covers the empty history |
| CameraDetection.SmoothWithinBounds | src/views/ocr/ts/camera-detection.ts:53-65 | each smoothed coordinate, x and y, is the mean of the new corner and that corner in every history entry, so it lies within any bounds all of them respect |
| CameraDetection.FillTooLowQuotient | src/views/ocr/ts/camera-detection.ts:123-125 | the fill test, stated by multiplication, is the source's `area / rectArea < 0.3` |
| CameraDetection.TooElongatedQuotient | src/views/ocr/ts/camera-detection.ts:127-128 | the aspect test, stated by multiplication, is the source's long side over short side greater than 10 |
| CameraDetection.IsValidDocumentContour | src/views/ocr/ts/camera-detection.ts:117-134 | definition of `isValidDocumentContour`; see ValidContourCharacterised, FillTooLowQuotient and TooElongatedQuotient |
| CameraDetection.ValidContourCharacterised | src/views/ocr/ts/camera-detection.ts:117-134 | a contour is valid exactly when max(2000, 5% of the frame) ≤ area ≤ 95% of the frame, the area fills at least 30% of a non-empty bounding box, the long side is at most 10 times the short side, and both sides are at least 10% of the shorter frame side |
| CameraDetection.AreaInRangeFrame | src/views/ocr/ts/camera-detection.ts:120-121 | a contour can pass the area test only in a frame of positive width and height |
| CameraDetection.InvalidWithoutSide | src/views/ocr/ts/camera-detection.ts:123-131 | a contour whose bounding box has a side of 0 is never valid |
| CameraDetection.BestIndex | src/views/ocr/ts/camera-detection.ts:89-109 | the chosen vertex for a quadrant is one of the vertices read so far |
| CameraDetection.BestIndexCorrect | src/views/ocr/ts/camera-detection.ts:89-109 | a quadrant gets a vertex exactly when some vertex strictly inside it is at positive distance from the centre; the chosen one is strictly inside, at least as far as every such vertex, and strictly farther than every earlier one, so the first wins ties |
| CameraDetection.GetCornerPoints | src/views/ocr/ts/camera-detection.ts:71-112 | the loop over the vertices picks, per quadrant, the vertex the specification picks |
| CameraDetection.FirstValid | src/views/ocr/ts/camera-detection.ts:190-192 | the first valid contour is found, or none is valid |
| CameraDetection.FirstValidIs | src/views/ocr/ts/camera-detection.ts:190-201 | a valid contour with no valid one before it is the one examined |
| CameraDetection.FindDocument | src/views/ocr/ts/camera-detection.ts:188-202 | the contour loop examines only the first valid contour and yields top-left, top-right, bottom-right, bottom-left only when all four quadrants are filled |
| CameraDetection.DetectedCornersInQuadrants | src/views/ocr/ts/camera-detection.ts:189-202 | each detected corner is a vertex of the first valid contour, in its own quadrant around that contour's centre |
| CameraDetection.Next | src/views/ocr/ts/camera-detection.ts:204-251 | definition of one frame of the stabilisation block; see NextPreservesInv, CloseDetection, MovedOrFirstDetection, MissedFrame and CornersExpire |
| CameraDetection.NextPreservesInv | src/views/ocr/ts/camera-detection.ts:19-303 | every frame keeps the history at most 3 long and, with no last corners, the history empty and the stable count 0 |
| CameraDetection.CloseDetection | src/views/ocr/ts/camera-detection.ts:206-224 | a detection within the move threshold raises the stable count; below 2 it shows the old corners and keeps them and the history; from 2 it adopts the smoothed corners and appends them, evicting the oldest beyond 3 |
| CameraDetection.MovedOrFirstDetection | src/views/ocr/ts/camera-detection.ts:225-239 | a detection that moved at least the threshold, or a first detection, sets the stable count to 1 and makes the smoothed corners the display, the last corners and the newest history entry |
| CameraDetection.MissedFrame | src/views/ocr/ts/camera-detection.ts:240-251 | a missed frame raises the miss count and shows the last corners; with corners it zeroes the stable count and resets everything once the count passes 15; without corners nothing else changes |
| CameraDetection.CornersExpire | src/views/ocr/ts/camera-detection.ts:240-303 | up to 15 missed frames in total keep the last corners; the 16th resets the stabiliser |
| CameraDetection.GetDefaultCorners | src/views/ocr/ts/camera-detection.ts:318-328 | the default corners are the rectangle of the given size, a width of 0 read as 640 and a height of 0 as 480 |
| CameraDetection.EdgeDetection.constructor | src/views/ocr/ts/camera-detection.ts:18-25 | a new stabiliser has no corners, no history and zero counts |
| CameraDetection.EdgeDetection.ResetDetectionState | src/views/ocr/ts/camera-detection.ts:298-303 | the state is back to its initial value |
| CameraDetection.EdgeDetection.GetCurrentDetectedCorners | src/views/ocr/ts/camera-detection.ts:308-310 | a copy of the last corners, or none |
| CameraDetection.EdgeDetection.Stabilise | src/views/ocr/ts/camera-detection.ts:204-251 | one frame of the stabilisation block: the new state and the displayed corners are those of the frame transition the lemmas above describe |
| Editor.EditorState.CurrentImage | src/views/ocr/ts/editor.ts:20-22 | the photo at the slide index, or none when the index is outside the list |
| Editor.EditorState.constructor | src/views/ocr/ts/editor.ts:10-26 | the editor starts with no photos, at slide 0, in `edit` mode, with no navigation |
| Editor.EditorState.OnSlideChange | src/views/ocr/ts/editor.ts:30-32 | the slide index becomes the swiper's active index and nothing else changes |
| Editor.EditorState.Goback | src/views/ocr/ts/editor.ts:45-51 | in `edit` mode it navigates back and keeps the mode; in another mode it sets `edit` and does not navigate |
| Editor.EditorState.OnBeforeLeave | src/views/ocr/ts/editor.ts:56-62 | leaving is allowed exactly when the mode was `edit`; afterwards the mode is `edit` and no navigation happened |
| EditorGeometry.DisplayArea | src/views/ocr/ts/editor-persp-crop.ts:38-60 | any size of 0 gives the default area (offsets and size 0, scales 1); the scales are never 0 |
| EditorGeometry.ContainFit | src/views/ocr/ts/editor-persp-crop.ts:45-59 | with positive sizes the two scales are equal and positive, the box is the image scaled, lies inside the container, and is centred on the slack axis and flush on the other |
| EditorGeometry.WiderFit | src/views/ocr/ts/editor-persp-crop.ts:47-58 | an image wider than the container fills its width, with a height no larger than the container's |
| EditorGeometry.TallerFit | src/views/ocr/ts/editor-persp-crop.ts:47-58 | an image no wider than the container fills its height, with a width no larger than the container's |
| EditorGeometry.ClampPoint | src/views/ocr/ts/editor-persp-crop.ts:170-173 | the clamped point lies in the image and equals the input on each coordinate already inside |
| EditorGeometry.DisplayPoints | src/views/ocr/ts/editor-persp-crop.ts:86-91 | one display point per point |
| EditorGeometry.DisplayedInsideBox | src/views/ocr/ts/editor-persp-crop.ts:86-91 | points inside the image are displayed inside the displayed box |
| EditorGeometry.MidPoints | src/views/ocr/ts/editor-persp-crop.ts:96-105 | one mid-point per point; a list of one to three points has none, because the source would read a missing point |
| EditorGeometry.MidPointsOfDisplay | src/views/ocr/ts/editor-persp-crop.ts:96-105 | the mid-points of the displayed points are the displayed mid-points |
| EditorGeometry.ScaledMid | src/views/ocr/ts/editor-persp-crop.ts:98-101 | scaling commutes with taking a mid-point |
| EditorGeometry.EdgeShiftPerpendicular | src/views/ocr/ts/editor-persp-crop.ts:197-208 | the mid-edge shift is perpendicular to the edge |
| EditorGeometry.EdgeShiftOfNormal | src/views/ocr/ts/editor-persp-crop.ts:202-208 | a pointer movement along the edge normal moves the edge by exactly that movement |
| EditorGeometry.Dragged | src/views/ocr/ts/editor-persp-crop.ts:182-226 | definition of the points `onMaskPointerMove` writes below its guard; see CornerDrag, MidEdgeDrag, MoveDrag and NoDragWritesNothing |
| EditorGeometry.CornerDrag | src/views/ocr/ts/editor-persp-crop.ts:187-194 | a corner drag replaces only the dragged point, with its snapshot plus the scaled movement, clamped into the image |
| EditorGeometry.MidEdgeDrag | src/views/ocr/ts/editor-persp-crop.ts:195-220 | a mid-edge drag moves both ends of the edge from their snapshot by one vector perpendicular to the edge, so the edge vector is kept, without clamping, and leaves the other points |
| EditorGeometry.MoveDrag | src/views/ocr/ts/editor-persp-crop.ts:221-226 | a move drag sets every point to its snapshot plus the scaled movement, clamped into the image |
| EditorGeometry.NoDragWritesNothing | src/views/ocr/ts/editor-persp-crop.ts:185-226 | without a drag type no points are written |
| EditorPerspCrop.PerspCrop.Points | src/views/ocr/ts/editor-persp-crop.ts:72-75 | the points of the photo being corrected, or none |
| EditorPerspCrop.PerspCrop.constructor | src/views/ocr/ts/editor-persp-crop.ts:10-13 | the corner editor starts with no drag and all sizes 0 |
| EditorPerspCrop.PerspCrop.Area | src/views/ocr/ts/editor-persp-crop.ts:38-60 | the display area of the current sizes, whose scales are never 0 |
| EditorPerspCrop.PerspCrop.SetPoints | src/views/ocr/ts/editor-persp-crop.ts:76-80 | the points are written into the photo being corrected, if there is one, and nowhere else |
| EditorPerspCrop.PerspCrop.InitDragState | src/views/ocr/ts/editor-persp-crop.ts:130-140 | the drag starts with the given type, index and pointer, and a snapshot of the points that later writes do not alter |
| EditorPerspCrop.PerspCrop.OnMaskPointerUp | src/views/ocr/ts/editor-persp-crop.ts:162 | only the dragging flag is cleared |
| EditorPerspCrop.PerspCrop.OnMaskPointerMove | src/views/ocr/ts/editor-persp-crop.ts:179-227 | nothing changes unless a drag is active and a photo is being corrected; otherwise its points become the dragged points |
| EditorCrop.CropEditor.Points | src/views/ocr/ts/editor-crop.ts:45-51 | in `crop` mode with temporary points, those; otherwise the current photo's points, or the default corners when it has none |
| EditorCrop.CropEditor.constructor | src/views/ocr/ts/editor-crop.ts:20-39 | the crop editor starts over the given photos, with no temporary points, no drag and all sizes 0 |
| EditorCrop.CropEditor.Area | src/views/ocr/ts/editor-crop.ts:68-85 | the display area of the current sizes, whose scales are never 0 |
| EditorCrop.CropEditor.SetPoints | src/views/ocr/ts/editor-crop.ts:52-62 | in `crop` mode only the temporary points change; otherwise the selected photo's points, if that photo exists |
| EditorCrop.CropEditor.InitDragState | src/views/ocr/ts/editor-crop.ts:139-149 | when there are points, the drag starts with the given type, index and pointer and a copy of them; otherwise the drag state is unchanged |
| EditorCrop.CropEditor.OnMaskPointerUp | src/views/ocr/ts/editor-crop.ts:171 | only the dragging flag is cleared |
| EditorCrop.CropEditor.OnMaskPointerMove | src/views/ocr/ts/editor-crop.ts:184-232 | nothing changes without an active drag; otherwise the dragged points are written through the points setter |
| EditorCrop.CropEditor.HandleCropModeChange | src/views/ocr/ts/editor-crop.ts:318-343 | entering copies the photo's points, or (100,100), (700,100), (700,500), (100,500), into the temporary points; exiting empties them and leaves the photos; confirming copies non-empty temporary points into the selected photo, requests the transform, and empties them |
| EditorPersp.DeepClonePhotoItem | src/views/ocr/ts/editor-persp.ts:15-23 | the clone equals the original in every field, points included |
| EditorPersp.Ceil | src/views/ocr/ts/editor-persp.ts:121-122 | `Math.ceil`: the least integer not below the input |
| EditorPersp.TransformPlan | src/views/ocr/ts/editor-persp.ts:84-137 | a plan exists only with a drawing context, at least four points and a selection that is not the full image |
| EditorPersp.NoWarpIffFullSelection | src/views/ocr/ts/editor-persp.ts:102-113 | with a context, there is no transform exactly when the points are (0,0), (W,0), (W,H), (0,H) for the image's own size |
| EditorPersp.PlanShape | src/views/ocr/ts/editor-persp.ts:115-137 | the output width is the ceiling of the longer of the top and bottom edges and the height the ceiling of the longer of the left and right edges, with no other bound, and the points map to (0,0), (W,0), (W,H), (0,H) in order |
| EditorPersp.DefaultCornersNotWarped | src/views/ocr/ts/editor-persp.ts:102-113 | the full-image rectangle is never warped |
| EditorPersp.PerspEditor.Enter | src/views/ocr/ts/editor-persp.ts:28-34 | the mode becomes `persp` and, when there is a current photo, the photo being corrected becomes its clone |
| EditorPersp.PerspEditor.constructor | src/views/ocr/ts/editor-persp.ts:10 | no photo is being corrected and no URL has been released |
| EditorPersp.PerspEditor.Cancel | src/views/ocr/ts/editor-persp.ts:39-42 | the photo being corrected is cleared and the mode becomes `edit` |
| EditorPersp.PerspEditor.Confirm | src/views/ocr/ts/editor-persp.ts:47-76 | the edited points are written back to the current photo before the transform; a result releases the old corrected URL, stores the new one and returns to `edit`; a failure, the full selection included, keeps the corrected URL and the mode |
| PixelFilters.Store | src/views/ocr/ts/editor-filter.ts:121-123 | a value written into the clamped byte buffer is clamped to [0, 255] and rounded to within one half |
| PixelFilters.StoreByte | src/views/ocr/ts/editor-filter.ts:121-123 | storing a byte keeps it |
| PixelFilters.StoreMonotone | src/views/ocr/ts/editor-filter.ts:121-123 | storing keeps the order of values |
| PixelFilters.StoreBounds | src/views/ocr/ts/editor-filter.ts:121-123 | a value below (above) a byte is stored as at most (at least) that byte |
| PixelFilters.PixelOut | src/views/ocr/ts/editor-filter.ts:119-124 | a pixel's output keeps its alpha |
| PixelFilters.Recoloured | src/views/ocr/ts/editor-filter.ts:119-124 | the recoloured buffer has four bytes per pixel |
| PixelFilters.RecolouredBytes | src/views/ocr/ts/editor-filter.ts:119-306 | pixel `p` of the result holds the recoloured red, green and blue of pixel `p` and its original alpha |
| PixelFilters.RecolouredIdempotent | src/views/ocr/ts/editor-filter.ts:244-306 | recolouring twice with an idempotent colour map is recolouring once |
| PixelFilters.RecolourPixels | src/views/ocr/ts/editor-filter.ts:119-124 | the loop over the pixels, in steps of 4 bytes, leaves the recoloured buffer |
| PixelFilters.RecolourPixel | src/views/ocr/ts/editor-filter.ts:119-124 | one loop iteration writes the four bytes of one pixel as the recoloured pixel and leaves the bytes after it |
| PixelFilters.Enhance | src/views/ocr/ts/editor-filter.ts:121-123 | definition of the enhance colour map; see EnhanceStretches and EnhanceFilter |
| PixelFilters.EnhanceStretches | src/views/ocr/ts/editor-filter.ts:121-123 | enhancing (contrast 1.2 about 128, capped at 255) makes dark bytes no brighter and bright bytes no darker, keeps 128 and keeps the order of bytes |
| PixelFilters.EnhanceFilter | src/views/ocr/ts/editor-filter.ts:117-124 | the enhance loop leaves the enhanced buffer |
| PixelFilters.Luma | src/views/ocr/ts/editor-filter.ts:245 | the weighted grey level lies in [0, 255] |
| PixelFilters.Mono | src/views/ocr/ts/editor-filter.ts:244-249 | red, green and blue become one grey level, within one half of the luma |
| PixelFilters.MonoIdempotent | src/views/ocr/ts/editor-filter.ts:244-249 | a grey pixel stays as it is |
| PixelFilters.MonoFilter | src/views/ocr/ts/editor-filter.ts:243-249 | the mono loop leaves the mono buffer |
| PixelFilters.Scan | src/views/ocr/ts/editor-filter.ts:290-306 | red, green and blue become one value, 0 or 255 |
| PixelFilters.ScanThreshold | src/views/ocr/ts/editor-filter.ts:292-301 | a pixel turns white exactly when its luma exceeds 128 - 28/1.8, that is when the contrast-stretched grey exceeds 100 |
| PixelFilters.ScanIdempotent | src/views/ocr/ts/editor-filter.ts:290-306 | scanning a scanned pixel changes nothing |
| PixelFilters.ScanFilter | src/views/ocr/ts/editor-filter.ts:289-306 | the scan loop leaves the scanned buffer |
| PixelFilters.RecolouredProperties | src/views/ocr/ts/editor-filter.ts:118-306 | every filter keeps alpha; enhance writes the enhanced byte; mono and scan make pixels grey, scan black or white; mono and scan are idempotent on a buffer |
| NeighbourhoodFilters.Sharpened | src/views/ocr/ts/editor-filter.ts:164-203 | the sharpened buffer has the size of the input |
| NeighbourhoodFilters.SharpenKeeps | src/views/ocr/ts/editor-filter.ts:174-198 | border pixels and alpha bytes are kept, so images narrower or shorter than 3 are unchanged, and a uniform image is unchanged |
| NeighbourhoodFilters.SharpenPixel | src/views/ocr/ts/editor-filter.ts:180-196 | one more interior pixel of the output holds the sharpened bytes (red, green and blue as the clamped 5·centre − up − down − left − right), read from the unmodified input |
| NeighbourhoodFilters.SharpenRow | src/views/ocr/ts/editor-filter.ts:179-197 | one more interior row of the output holds the sharpened bytes |
| NeighbourhoodFilters.Sharpen | src/views/ocr/ts/editor-filter.ts:164-203 | the in-place filter, with its copy of the input and its copy back, leaves the sharpened buffer |
| NeighbourhoodFilters.ColMinAtMost | src/views/ocr/ts/editor-filter.ts:368-373 | the running minimum over a row segment is at most every byte in it |
| NeighbourhoodFilters.RowsMinAtMost | src/views/ocr/ts/editor-filter.ts:367-374 | the minimum over the window is at most every byte in it |
| NeighbourhoodFilters.WindowMinAtMostPixel | src/views/ocr/ts/editor-filter.ts:359-374 | the minimum over the window of radius 3, clipped to the image, is at most the pixel's own byte |
| NeighbourhoodFilters.WindowMins | src/views/ocr/ts/editor-filter.ts:359-374 | the window loops return the minima of red, green and blue over the clipped window |
| NeighbourhoodFilters.Remshaded | src/views/ocr/ts/editor-filter.ts:349-398 | the de-shadowed buffer has the size of the input |
| NeighbourhoodFilters.RemshadKeeps | src/views/ocr/ts/editor-filter.ts:357-391 | alpha is kept everywhere, pixels whose red, green and blue are all at least 100 are copied, and a colour byte of at most 128 is never darkened |
| NeighbourhoodFilters.LiftRaises | src/views/ocr/ts/editor-filter.ts:377-379 | adding half of 128 minus a window minimum no larger than the byte does not darken a byte of at most 128 |
| NeighbourhoodFilters.RemshadBytes | src/views/ocr/ts/editor-filter.ts:354-391 | the four bytes written for a pixel are the de-shadowed bytes |
| NeighbourhoodFilters.WritePixel | src/views/ocr/ts/editor-filter.ts:381-390 | a pixel's four output bytes are written and no other |
| NeighbourhoodFilters.RemshadPixel | src/views/ocr/ts/editor-filter.ts:354-391 | one pixel of the output is written, bright or dark |
| NeighbourhoodFilters.RemshadRow | src/views/ocr/ts/editor-filter.ts:353-392 | one row of the output is written |
| NeighbourhoodFilters.RemshadRows | src/views/ocr/ts/editor-filter.ts:352-393 | the two pixel loops fill the output with the de-shadowed buffer |
| NeighbourhoodFilters.CopyBack | src/views/ocr/ts/editor-filter.ts:396-398 | the copy loop makes the buffer equal to the output |
| NeighbourhoodFilters.Remshad | src/views/ocr/ts/editor-filter.ts:342-398 | the in-place filter leaves the de-shadowed buffer |
| EditorFilter.IndexOf | src/views/ocr/ts/editor-filter.ts:22 | `findIndex`: the first position holding the id, or -1 exactly when there is none |
| EditorFilter.FilterIdsFound | src/views/ocr/ts/editor-filter.ts:8-22 | every filter in the list is found again at its own position |
| EditorFilter.FilteredShape | src/views/ocr/ts/editor-filter.ts:55-81 | exactly the six listed ids produce an image; it has the input's size, `original` is the input itself, and every filter keeps alpha |
| EditorFilter.RunFilter | src/views/ocr/ts/editor-filter.ts:55-81 | the dispatch runs the listed filter's pixel loop, or reports an unknown id and leaves the buffer |
| EditorFilter.FilterEditor.CurrentFilter | src/views/ocr/ts/editor-filter.ts:21-23 | the getter is the position of the current photo's filter in the list, or -1 when there is no current photo or its filter is not listed |
| EditorFilter.FilterEditor.constructor | src/views/ocr/ts/editor-filter.ts:8-15 | the filter panel works on the given editor and has released no URL |
| EditorFilter.FilterEditor.ApplyFilterToImage | src/views/ocr/ts/editor-filter.ts:43-93 | without a current photo it fails and changes nothing; otherwise a previous filtered URL is released and cleared; `original` succeeds with no filtered image; a listed filter stores its URL and succeeds, or fails when the filter failed; an unknown id fails |
| EditorFilter.FilterEditor.SetCurrentFilter | src/views/ocr/ts/editor-filter.ts:24-34 | the photo's filter becomes the chosen one when applying it succeeds and `original` when it fails, so the getter then reads the chosen position or 0; the filtered image is cleared for `original`, set to the new URL on success, and otherwise cleared if it was set; a previous filtered URL is released; an invalid position or a missing photo changes nothing |
| FileService.Lower | src/utils/fileService.ts:68 | lower-casing maps every character and keeps the length |
| FileService.LastIndexOf | src/utils/fileService.ts:68 | `lastIndexOf`: the last position holding the character, or -1 when there is none |
| FileService.LastIndexOfUnique | src/utils/fileService.ts:68 | any position that holds the character with none after it, or -1 with none at all, is the one `lastIndexOf` returns |
| FileService.Decimal | src/utils/fileService.ts:324 | a counter is rendered as one or more decimal digits |
| FileService.LowerKeepsDots | src/utils/fileService.ts:68 | lower-casing moves no dot, so the suffix is cut at the same position |
| FileService.Extension | src/utils/fileService.ts:68 | the suffix from the last dot, lower-cased, starting with its only dot; without a dot, the whole lower-cased name |
| FileService.ExtensionsStartWithDot | src/utils/fileService.ts:66-67 | every listed extension starts with a dot |
| FileService.ExtensionOfSuffix | src/utils/fileService.ts:68 | the extension of a name ending in a dot-suffix is that suffix lower-cased |
| FileService.GetFileType | src/utils/fileService.ts:65-70 | the type of a file name is never `dir` |
| FileService.NoDotIsFile | src/utils/fileService.ts:65-70 | a name without a dot is a plain file |
| FileService.TypeIgnoresCase | src/utils/fileService.ts:68 | the type does not depend on letter case |
| FileService.TypeOfSuffix | src/utils/fileService.ts:65-70 | the type depends only on the suffix from the last dot |
| FileService.TypeOfPlainSuffix | src/utils/fileService.ts:65-70 | a name ending in a dot-suffix is `img` for the seven image extensions, `pdf` for `.pdf` and `file` otherwise |
| FileService.ImagesAreImages | src/utils/fileService.ts:66-69 | every name ending in one of the image extensions is an image |
| FileService.PdfsArePdfs | src/utils/fileService.ts:67-69 | every name ending in `.pdf` is a PDF |
| FileService.ListedExtensionsPlain | src/utils/fileService.ts:66-67 | every listed extension is a single dot-suffix |
| FileService.InsertBy | src/utils/fileService.ts:117 | inserting into a sorted group adds exactly that entry |
| FileService.InsertBySorted | src/utils/fileService.ts:117 | inserting into a sorted group keeps it sorted |
| FileService.InsertByWithKey | src/utils/fileService.ts:117 | insertion places the entry before every entry of equal key, so, inserting each head in front of its sorted tail, the earlier element stays first (a stable sort) |
| FileService.SortBy | src/utils/fileService.ts:117 | the sort is a permutation |
| FileService.SortByCorrect | src/utils/fileService.ts:98-117 | the stable sort is a permutation, ordered by the key, keeping the original order of entries with equal keys |
| FileService.Dirs | src/utils/fileService.ts:94 | the directories of the listing |
| FileService.NonDirs | src/utils/fileService.ts:95 | the entries that are not directories |
| FileService.SplitMultiset | src/utils/fileService.ts:94-95 | the two groups together are the whole listing |
| FileService.IndexOf | src/utils/fileService.ts:99 | `indexOf`: the first position of the character, or -1 exactly when it is absent |
| FileService.SortedFiles | src/utils/fileService.ts:90-118 | definition of `sortedFiles`; see SortedFilesCorrect |
| FileService.SortedFilesCorrect | src/utils/fileService.ts:90-118 | the sorted listing is a permutation in which every directory precedes every other entry and each group is stably ordered by the chosen comparator |
| FileService.DirsFirst | src/utils/fileService.ts:117 | directories followed by non-directories put every directory first |
| FileService.SortKeepsKind | src/utils/fileService.ts:117 | sorting a group of one kind gives a group of that kind |
| FileService.Latest | src/utils/fileService.ts:241-245 | a file's time is the latest of its access, modification and creation times |
| FileService.Recent | src/utils/fileService.ts:248 | the filter keeps only files whose latest time is at least the threshold |
| FileService.RecentExactly | src/utils/fileService.ts:248 | the filter keeps exactly the files whose latest time is at least the threshold, each as often as it is listed |
| FileService.SliceTo | src/utils/fileService.ts:250 | `slice(0, limit)`, a negative limit counting from the end |
| FileService.RecentMultiset | src/utils/fileService.ts:248 | the recent files are taken from the input |
| FileService.DroppedNoNewer | src/utils/fileService.ts:249-250 | slicing a newest-first list leaves out only files no newer than every file it keeps |
| FileService.NewestFirstOrder | src/utils/fileService.ts:249 | a list sorted by the newest-first key lists later times first |
| FileService.RecentFiles | src/utils/fileService.ts:236-252 | definition of the filter, sort and slice of `getRecentFiles`; see RecentFilesCorrect |
| FileService.RecentFilesCorrect | src/utils/fileService.ts:236-252 | the recent files are recent, taken from the input, newest first, and exactly `limit` of them or all when fewer; every recent file left out is no newer than every one returned |
| FileService.CandidateSplit | src/utils/fileService.ts:319-325 | a name whose last dot is neither first nor last gets `stem(n).ext` |
| FileService.CandidateKeepsType | src/utils/fileService.ts:319-325 | numbering such a name keeps its file type |
| FileService.TypeOfRenamed | src/utils/fileService.ts:319-325 | renaming the stem keeps the type a suffix gives |
| FileService.LastDotStartsExtension | src/utils/fileService.ts:319-325 | the part from the last dot is a dot-suffix |
| FileService.NextCandidate | src/utils/fileService.ts:319-330 | one loop iteration computes the `n`th candidate path |
| FileService.SearchFromCorrect | src/utils/fileService.ts:318-337 | the search returns the first free candidate from `n` on, or fails exactly when every candidate up to 9998 is taken |
| FileService.UniquePath | src/utils/fileService.ts:313-339 | definition of the outcome of `generateUniqueFilePath`; see UniquePathCorrect and GenerateUniqueFilePath |
| FileService.UniquePathCorrect | src/utils/fileService.ts:313-339 | the result is not taken; a free base path is returned as it is; otherwise it is the first free `name(n)`; it fails exactly when the base path and all candidates 1 to 9998 are taken |
| FileService.GenerateUniqueFilePath | src/utils/fileService.ts:308-340 | the `while` loop returns the path the specification picks, or the error thrown past counter 9999 |
| FileSystem.GetFileType | src/utils/fileSystem.ts:59-63 | the type is `img` or `file` |
| FileSystem.FileTypesAgree | src/utils/fileSystem.ts:59-63 | it agrees with the other `getFileType` on images and calls PDFs plain files |
| FileSystem.LocalFiles.SaveBlobUrlToLocal | src/utils/fileSystem.ts:202-256 | a URL not starting with `blob:`, a blank file name, a failed request or empty data write nothing; otherwise a missing target directory is created with every directory above it and the data is written at the unique path; it fails when one of those directories is a file or no name is free |
| FileSystem.LocalFiles.WriteUnique | src/utils/fileSystem.ts:231-250 | a named, missing target directory is created with every missing directory above it, as a recursive `mkdir` does, and nothing changes when one of them is a file; the data goes to a path that did not exist, found by the unique-path search, and nothing is written exactly when that search fails |
| FileSystem.LocalFiles.EnsureDir | src/utils/fileSystem.ts:231-237 | a named target directory that `exists` does not report is created with every directory above it; this fails, changing nothing, exactly when one of those is a file; files are untouched |
| FileSystem.DirChain | src/utils/fileSystem.ts:234 | the directories a recursive `mkdir` ensures: exactly the path and each of its non-empty prefixes that end just before a `/` |
| ThumbnailNames.CodeUnits | src/utils/thumbnailService.ts:17-18 | the UTF-16 code units `charCodeAt` reads, each below 2^16 |
| ThumbnailNames.ToInt32 | src/utils/thumbnailService.ts:19-20 | the signed 32-bit value congruent modulo 2^32 |
| ThumbnailNames.StepIsPolynomial | src/utils/thumbnailService.ts:19-20 | one wrapped step `(hash << 5) - hash + char` is the wrapped value of `31 · hash + char` |
| ThumbnailNames.Hash | src/utils/thumbnailService.ts:16-21 | the loop keeps the hash a signed 32-bit integer and ends with Σ cᵢ · 31^(n−1−i) read as signed 32-bit |
| ThumbnailNames.Base36 | src/utils/thumbnailService.ts:22 | `toString(36)`: non-empty, digits 0-9 and a-z, no leading zero |
| ThumbnailNames.Base36RoundTrip | src/utils/thumbnailService.ts:22 | the digits read back in base 36 give the number |
| ThumbnailNames.GenerateThumbnailName | src/utils/thumbnailService.ts:15-23 | the name is the base-36 rendering of the hash's absolute value followed by `.jpg` |
| ThumbnailNames.GenerateThumbCacheName | src/utils/thumbService.ts:14-22 | the name is the base-36 rendering of the hash's absolute value |
| ThumbnailNames.NameShape | src/utils/thumbService.ts:14-22 | a name is non-empty base-36 digits denoting at most 2^31, and the empty path is named `0` |
| ThumbnailNames.ExampleOneUnit | src/utils/thumbnailService.ts:15-23 | the path `a` is named `2p` |
| ThumbnailNames.ExampleTwoUnits | src/utils/thumbnailService.ts:15-23 | the path `ab` hashes to 3105, named `2e9` |
| ThumbnailNames.NamesCollide | src/utils/thumbnailService.ts:11 | `Aa` and `BB` hash alike, so names are not unique |
| DbService.NormalizedPath | src/utils/dbService.ts:71-73 | a path without backslashes is unchanged |
| DbService.NormalizedPathWithSlash | src/utils/dbService.ts:71-73 | with `/`, every backslash becomes `/`, every other character stays in place, the length is kept and no backslash remains |
| DbService.NormalizedPathIdempotent | src/utils/dbService.ts:71-73 | normalising twice is normalising once |
| DbService.OrNow | src/utils/dbService.ts:107-108 | a time that is present and not empty is kept, otherwise the current time is used |
| DbService.RowOf | src/utils/dbService.ts:95-109 | the row has the normalised path, the current time as recognition and access time, the record's times or the current time, and the record's tags, text and blocks |
| DbService.Select | src/utils/dbService.ts:142 | the selected rows all have the path |
| DbService.SelectFinds | src/utils/dbService.ts:142-143 | the selection is empty exactly when no row has the path, and its first row is a row of the table |
| DbService.SelectAppend | src/utils/dbService.ts:97-110 | an inserted row is selected after the rows already there, exactly when it has the path |
| DbService.Add | src/utils/dbService.ts:92-135 | definition of `add` on the table; see AddThenGet |
| DbService.GetByPath | src/utils/dbService.ts:140-144 | definition of `getByPath`; see SelectFinds, AddThenGet and UpdateFinds |
| DbService.AddThenGet | src/utils/dbService.ts:92-144 | insertion fails exactly when the normalised path is taken (the `UNIQUE` column); otherwise the new row is read back by its path |
| DbService.Update | src/utils/dbService.ts:117-135 | an update keeps the number of rows |
| DbService.UpdateThenGet | src/utils/dbService.ts:117-144 | an update keeps paths unique and other rows; a stored path reads back the new row, an absent one changes nothing |
| DbService.UpdateKeepsOthers | src/utils/dbService.ts:117-135 | an update keeps paths unique and leaves every row of another path |
| DbService.UpdateFinds | src/utils/dbService.ts:117-144 | after updating a stored path its row reads back as the new values |
| SettingService.DefaultsOffered | src/utils/settingService.ts:6-46 | every default value is one of its setting's options |
| SettingService.Field | src/utils/settingService.ts:29-35 | theme, language and update channel are strings, OCR languages a list, the rest flags |
| SettingService.With | src/utils/settingService.ts:74 | the written key holds the value and every other key is unchanged |
| SettingService.WithKeepsValid | src/utils/settingService.ts:72-75 | writing an offered value keeps every setting one of its options |
| SettingService.SettingService.GetAll | src/utils/settingService.ts:55-57 | the copy has every field of the stored settings |
| SettingService.SettingService.constructor | src/utils/settingService.ts:49 | the store starts from the stored settings, or the defaults when nothing is stored |
| SettingService.SettingService.Get | src/utils/settingService.ts:63-65 | the value has the key's type |
| SettingService.SettingService.Set | src/utils/settingService.ts:72-75 | afterwards the key reads the value and every other key is unchanged; an equal string or flag writes nothing |
| SettingService.SettingService.Reset | src/utils/settingService.ts:80-82 | every key is back to its default |

## Left out

- OpenCV: the grey conversion, blur, edge detection, closing, contour search, `minAreaRect`, `contourArea`, `boundingRect`, the perspective matrix and the warp are not modelled. Contours are given by their measurements, and the warp is represented by the URL it produced.
- Frame scheduling in `processVideoFrame`, `startVideoProcessing` and `stopVideoProcessing` is not modelled (`setTimeout` and the `isProcessing` flag). It is asynchronous plumbing, and its error-path retry can never run.
- `drawContourOnCanvas` is drawing only and is not modelled.
- Canvas, image, blob and object-URL calls are not modelled, and neither is `fetch`. A filter's or transform's output URL, or its failure, is a parameter. Released URLs are recorded in ghost lists.
- Floating point is modelled with reals; IEEE rounding is not modelled.
  - The clamped byte store rounds half-way values to the even neighbour; the contract of PixelFilters.Store only bounds the result to within one half, although its body rounds half to even.
  - `Math.round` in mono is floor of value plus one half.
- `Math.hypot` and `Math.sqrt` are not computed. Distances come from a `hypot` function parameter. The mid-edge drag is written in the equivalent root-free form (normal times dot product over squared length).
- `Math.atan2` is not modelled: the `angle` of the displayed mid-points only orients a handle.
- EditorGeometry.MidEdgeDrag: an edge of length 0 makes the source write NaN coordinates. The model leaves the points unchanged there.
- EditorGeometry.Dragged: a corner or edge index past the end of the current point list writes nothing. The source would lengthen its copy of the list there. This can only happen when the list shrinks during a drag.
- CameraDetection.AverageDistanceBetweenPoints: the source's `Infinity` and `NaN` results are both `None`. The comparison with the move threshold is false for both, as in the source.
- CameraDetection.FillTooLowQuotient, CameraDetection.TooElongatedQuotient: these tests are stated by multiplication. A rectangle with a side of 0 (a division by 0 in the source) is rejected, as the source's comparisons with `NaN` or `Infinity` reject it.
- `performPerspectiveTransform` in editor-crop.ts is represented by a count of requests. It calls a `perspectiveTransform` that camera-detection.ts does not export. `getDefaultCorners`, imported the same way, is a constructor parameter.
- EditorFilter.FilterEditor.SetCurrentFilter: models a call during which the slide does not change. The source awaits the filter and then records the filter on whatever photo is current at that moment, which after a slide change is not the photo whose filtered image was updated.
- EditorPersp.PerspEditor.Confirm: models a call during which the slide does not change. The source writes the points to the current photo, awaits the fetch and the transform, and then releases and stores the corrected image on whatever photo is current at that moment.
- Aliasing of point arrays between the editor, the correction copy and the drag snapshot is not modelled, because points are values. Every copy the source makes (`map`, spread, `JSON.parse(JSON.stringify(...))`) is therefore exact, and the aliasing that the copies exist to avoid cannot arise.
- `toLowerCase` is modelled as ASCII lower-casing only; other characters are kept. Full Unicode case mapping is not modelled.
- `localeCompare` and `Date` parsing are not modelled. Names are compared through a rank function, and times are integer timestamps.
- A `sortType` whose field is neither `name` nor `mtime` gives a constant key. The source's default sort on identical string forms likewise keeps the listing order.
- `formatFileSize` is not modelled: it uses `Math.log` and `toFixed` formatting.
- `loadDirectory`, `getAllFiles`, `saveBlobUrlToFile`, `deleteFile` and opening folders are not modelled; they are file-system I/O.
- Tauri file-system and SQL plugins are replaced by values. The file system is a map from paths to contents plus a set of directories, and `exists` is membership. A `writeFile` that fails is not modelled, and neither is a recursive `mkdir` that creates some directories before failing on a file.
- The database is a sequence of rows with unique paths. `init`, `createTable` and `deleteByPath` are not modelled. The current time is a parameter.
- The `useStorage` persistence of the settings is not modelled: the store starts from what was stored, if anything.
- SettingService.SettingService.Reset: restores the literal defaults. If the storage library's reference shares the default object when nothing was stored, earlier writes would have altered the defaults that `reset` copies; the model does not capture that sharing.
- SettingService.SettingService.Set: arrays are compared by identity (`===`), which values cannot express. A list is taken to be a new object, so setting `ocrLanguages` always writes.
- ThumbnailNames.NamesCollide: the claim that thumbnail names are unique is false for a 32-bit hash, so injectivity is not proved. A collision is exhibited instead.
- `getThumbnailUrl`, `getThumbUrl` and `saveImages` are not modelled: they convert URLs or show dialogs.
- Strings are sequences of characters. The thumbnail hash reads characters outside the basic plane as two UTF-16 code units. The other string functions treat every character as one unit.
- The rest of the repository is not part of this model: camera.ts, camera-media.ts, ocrService.ts, the OCR worker, the update, dialog and router code, and the configuration and bootstrapping files.
