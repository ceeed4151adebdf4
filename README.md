# SpriteStitcher core, modelled in Dafny

SpriteStitcher packs the PNG files of a directory into one atlas image and writes a JSON metadata
file that records where each sprite went; unstitching reads that file back and cuts every sprite
out of the atlas again. This project models the three core source files:

- `AtlasPacker.PackSprites` (module `AtlasPacker`, with properties in `PackerScan` and
  `PackerRow`): the skyline packer. The method follows the source's loops (`foreach` over the
  sprites, `for` over the skyline, the inner `while` over `j`) and is proved equal to the function
  `Pack`, a fold of `Place` over the sprites. The properties are proved about `Pack`.
- `AtlasHandler` (modules `AtlasRecords`, `AtlasNames`, `AtlasImage`, `AtlasHandler`,
  `StitchRoundTrip`):
  - the `SpriteRect`/`AtlasMetadata` records and `ToRectangle`;
  - the `.png` suffix test and `Replace(".png", ".json")`;
  - `StitchAtlas` and `UnstitchAtlas` over an abstract directory and an abstract pixel grid,
    including their early returns in source order, the per-sprite save failures and the y/n
    delete prompt;
  - the round trip: for padding >= 0, unstitching the two files stitching writes gives back every
    PNG file's pixels. With negative padding the atlas can be smaller than its own rects, and
    unstitching then crashes (`StitchRoundTrip.NegativePaddingBreaksRoundTrip`).
- `Program.ParseArguments` (module `Program`): the token checks, the option scan with its manual
  `i++`, the post-scan switch, and the re-prompt loop over supplied input lines.

The central result is the degenerate skyline theorem (`PackerRow.PackRow`). The segment the
rebuild adds at `insertX` is removed again by the filter `insertX <= X <= insertEnd`. Starting
from `[(0,0)]`, the skyline therefore stays a single segment `(sum of padded widths so far, 0)`.
Every sprite lands in one row at `y = padding/2`. Packing fails exactly when the total padded
width exceeds `maxAtlasWidth`, and there is no new-row fallback.

The model follows the code as written:

- When no segment fits, `PackSprites` throws (AtlasPacker.cs:46-47). There is no new-row
  fallback, so every sprite goes into one row.
- The canvas width is `bestX + width + padding` of the last cell (AtlasPacker.cs:67). Two 10×10
  sprites with padding 2 therefore give a 24×12 canvas (`PackerRow.TwoSpritesExample`).
- Stitching has no empty-input or name-collision error. An empty directory returns
  `didJob = false` (AtlasHandler.cs:24-29). A directory with files but no PNG reaches the packer,
  which returns a 0×0 canvas, and `new Bitmap(0, 0)` then throws (AtlasHandler.cs:52,
  `EmptyCanvas`). Duplicate names cannot come from a directory listing, and the packer would
  overwrite them (AtlasPacker.cs:49).
- The scan takes the maximum height only over the segments after the candidate that start before
  its right edge (AtlasPacker.cs:32-39), not over every segment the cell covers. It then keeps a
  candidate only when `maxY + h < bestY` (AtlasPacker.cs:41).
- A successful parse is not always `--stitch` or `--unstitch`. The presence check looks at every
  token, including the directory token, but the scan starts after it. So a directory literally
  named `--stitch` with no other tokens is accepted with an empty operation
  (`Program.EmptyOperationExample`).

## Model

| member | source | states |
|---|---|---|
| `AtlasPacker.PackSprites` | AtlasPacker.cs:9-72 | The loops compute exactly `Pack`: placement dictionary, canvas width and height, or the TooWide error of the first sprite that does not fit |
| `AtlasPacker.FindBest` | AtlasPacker.cs:21-44 | The `for`/`while` scan returns the candidate of the specification `ScanUpTo` over the whole skyline; None stands for `bestX = -1, bestY = int.MaxValue` |
| `AtlasPacker.PlaceSprite` | AtlasPacker.cs:19-69 | One foreach body: the scan, the `bestX == -1` failure, the rect, the rebuilt skyline and the two maxima, equal to `Place` |
| `AtlasPacker.Pack` | AtlasPacker.cs:13-17 | An empty sprite list packs to an empty dictionary and a 0×0 canvas, not an error |
| `AtlasPacker.Half` | AtlasPacker.cs:51-52 | `padding / 2` truncates toward zero: between 0 and padding/2 for padding >= 0, between padding/2 and 0 otherwise |
| `AtlasPacker.KeepOutside` | AtlasPacker.cs:62 | The `Where` filter keeps only segments of its input whose X lies outside `[lo, hi]`, and never lengthens the list |
| `AtlasPacker.Place` | AtlasPacker.cs:19-68 | One sprite: failure is the TooWide error naming that sprite. Success adds the sprite's name with its own width and height, keeps every other entry, and never shrinks the canvas |
| `AtlasPacker.KeepOutsideCounts` | AtlasPacker.cs:62 | The `Where` filter keeps each segment with X outside `[insertX, insertEnd]` as often as it occurs, and drops every other |
| `AtlasPacker.OrderByXSorts` | AtlasPacker.cs:64 | `OrderBy(X)` returns a list sorted by X that is a permutation of its input |
| `PackerScan.ScanNoneIff` | AtlasPacker.cs:23-30 | The scan finds no candidate iff no segment passes `startX + w <= maxAtlasWidth` |
| `PackerScan.ScanChoice` | AtlasPacker.cs:23-44 | The chosen candidate passes the width test. Every earlier feasible segment sits strictly higher, and no later one sits lower by more than the padded height, so on ties the earlier segment wins |
| `PackerScan.RebuildCounts` | AtlasPacker.cs:57-65 | Multiplicity of each segment in the rebuilt skyline: old segments plus `(insertX, insertY)` outside the range, none inside, plus the appended `(insertEnd, bestY)` |
| `PackerScan.SkylineRebuild` | AtlasPacker.cs:57-65 | The rebuilt skyline is sorted by X, contains `(insertEnd, bestY)`, keeps every old segment outside `[insertX, insertEnd]`, holds nothing else in that range, and loses the added `(insertX, insertY)` |
| `PackerScan.RebuildNonNegative` | AtlasPacker.cs:57-65 | A rebuild from non-negative coordinates gives a non-negative skyline |
| `PackerScan.AdvanceKeepsBounds` | AtlasPacker.cs:49-68 | A placement records `{bestX + padding/2, bestY + padding/2, width, height}` under its name. It keeps every other entry, never shrinks the canvas, and keeps every padded cell inside it |
| `PackerScan.PlaceAdvances` | AtlasPacker.cs:21-55 | A successful placement uses a corner with `bestX + width + padding <= maxAtlasWidth`, non-negative on a non-negative skyline |
| `PackerScan.PlaceKeepsBounds` | AtlasPacker.cs:49-68 | One successful placement keeps the bounds invariant and the non-decreasing canvas |
| `PackerScan.PlaceFailsIff` | AtlasPacker.cs:23-47 | On a non-negative skyline a sprite fails iff every segment has `X + width + padding > maxAtlasWidth`; the error names that sprite |
| `PackerScan.PackFromBounded` | AtlasPacker.cs:19-69 | The foreach from any point keeps the bounds invariant and never shrinks the canvas |
| `PackerScan.PackInside` | AtlasPacker.cs:67-68 | With padding >= 0, every rect and its padding lie inside `[0, atlasWidth) × [0, atlasHeight)`, and the canvas is no wider than `maxAtlasWidth` |
| `PackerScan.PackFromKeys` | AtlasPacker.cs:19-49 | From sprite k on, a successful run adds exactly the names of the remaining sprites |
| `PackerScan.PackKeys` | AtlasPacker.cs:49 | A successful run has one dictionary entry per distinct sprite name and no other |
| `PackerRow.OffsetGrows` | AtlasPacker.cs:67 | Cell left edges start at 0 and grow by a full padded width per sprite |
| `PackerRow.RowHeightBounds` | AtlasPacker.cs:68 | The canvas height bounds every padded sprite height of the row |
| `PackerRow.RebuildRow` | AtlasPacker.cs:57-65 | Rebuilding the one-segment skyline `[(x, 0)]` after a cell `[x, right)` gives `[(right, 0)]` |
| `PackerRow.RowStep` | AtlasPacker.cs:19-68 | From the row state after k sprites, sprite k goes right of the others if the row still fits, and fails otherwise |
| `PackerRow.RowReach` | AtlasPacker.cs:15-69 | The run passes through the row state for every prefix that fits |
| `PackerRow.FirstTooWide` | AtlasPacker.cs:46-47 | The first sprite whose cell would end past `maxAtlasWidth`: all earlier prefixes fit |
| `PackerRow.RowRun` | AtlasPacker.cs:19-69 | From the row state after k sprites, the run finishes the whole row or fails at the first sprite that does not fit |
| `PackerRow.PackRow` | AtlasPacker.cs:9-72 | Degenerate skyline theorem. Packing succeeds iff the total padded width is at most `maxAtlasWidth`. The result is then one row at `y = padding/2`, with sprite k at `x = Σ_{j<k}(w_j + padding) + padding/2`, and the canvas is (total padded width) × (tallest padded sprite). Otherwise the error names the first sprite that does not fit |
| `PackerRow.SkylineStaysFlat` | AtlasPacker.cs:15-65 | Between sprites the skyline is exactly `[(sum of padded widths so far, 0)]` |
| `PackerRow.RowPositionsKeys` | AtlasPacker.cs:49 | The row dictionary holds exactly the names of the sprites placed |
| `PackerRow.RowPositionsLast` | AtlasPacker.cs:49 | A repeated name keeps the rect of its last occurrence |
| `PackerRow.RowCellsDisjoint` | AtlasPacker.cs:49-68 | Padded cells of different sprites do not overlap, and all sprites share `y = padding/2` |
| `PackerRow.TwoSpritesExample` | AtlasPacker.cs:9-72 | Two 10×10 sprites, padding 2, width 4096: a.png at (1,1), b.png at (13,1), canvas 24×12 |
| `PackerRow.NegativePaddingSmallCanvas` | AtlasPacker.cs:49-68 | With padding -1 a 10×10 sprite gets the rect (0, 0, 10, 10), because `-1 / 2` truncates to 0, but the canvas is only 9×9 |
| `PackerRow.NegativePaddingSentinel` | AtlasPacker.cs:21-47 | With padding -2 a real segment starts at X = -1, so the `bestX == -1` test reports a sprite too wide although a segment was chosen |
| `PackerRow.SentinelFirstPlacement` | AtlasPacker.cs:19-68 | With padding -2, the first 1×20 sprite lands at (-1, -1) and leaves the skyline `[(-1,0), (0,0), (0,18)]` |
| `PackerRow.SentinelRebuild` | AtlasPacker.cs:57-65 | The rebuild after that placement sorts the new right edge at X = -1 first |
| `AtlasRecords.ToRectangle` | AtlasHandler.cs:219 | The rectangle has the rect's X, Y, Width and Height |
| `AtlasRecords.ToRectangleInjective` | AtlasHandler.cs:219 | Different rects convert to different rectangles |
| `AtlasRecords.Persisted` | AtlasHandler.cs:205-217 | A rect is written as the four fields named `x`, `y`, `width`, `height` |
| `AtlasRecords.Lookup` | AtlasHandler.cs:109 | Reading a field takes a value written under that exact name, or the default 0 |
| `AtlasRecords.ReadRect` | AtlasHandler.cs:109 | Each field of the rect read back is a value stored under that field's name, or 0 when no pair has the name |
| `AtlasRecords.PersistedRoundTrip` | AtlasHandler.cs:205-217 | Reading back the written fields gives the same rect |
| `AtlasNames.LowerChar` | Program.cs:115 | `ToLower` maps A-Z to a-z and keeps every other character |
| `AtlasNames.ToLower` | Program.cs:115 | `ToLower` lowers each character in place and keeps the length |
| `AtlasNames.EndsWith` | AtlasHandler.cs:15 | `EndsWith(suffix)` holds iff the text is some prefix followed by the suffix |
| `AtlasNames.Replace` | AtlasHandler.cs:69 | Replacing a pattern by itself changes nothing, and a replacement of the same length keeps the length |
| `AtlasNames.JsonName` | AtlasHandler.cs:99 | For a name ending in ".png", the metadata name is the rest of the name, with its own ".png" occurrences replaced, followed by ".json" |
| `AtlasNames.ReplaceWithoutMatch` | AtlasHandler.cs:69 | A name without ".png" is left unchanged by the replacement |
| `AtlasNames.ReplaceTrailingPng` | AtlasHandler.cs:69 | A trailing ".png" becomes ".json", and the rest of the name goes through the same replacement |
| `AtlasNames.ReplaceTrailing` | AtlasHandler.cs:69 | For a pattern whose first character occurs nowhere else in it, a trailing occurrence is replaced and the text before it goes through the same replacement |
| `AtlasNames.ReplaceTrailingSkip` | AtlasHandler.cs:69 | The step of that proof where the text does not start with the pattern |
| `AtlasNames.ReplaceTrailingMatch` | AtlasHandler.cs:69 | The step of that proof where the text starts with the pattern |
| `AtlasNames.ReplaceShort` | AtlasHandler.cs:69 | A text shorter than the pattern is left unchanged |
| `AtlasNames.JsonNameOfPng` | AtlasHandler.cs:99 | For a name that passes the suffix test, the metadata name ends in ".json" and differs from the atlas name |
| `AtlasNames.ReplaceEveryOccurrence` | AtlasHandler.cs:69 | Every occurrence is replaced: "a.png.png" gives "a.json.json" |
| `AtlasNames.CombinePath` | AtlasHandler.cs:65 | `Path.Combine` ends with the file name |
| `AtlasImage.Blank` | AtlasHandler.cs:52-54 | A new canvas of the packed size is transparent everywhere |
| `AtlasImage.Draw` | AtlasHandler.cs:59 | Drawing keeps the canvas size |
| `AtlasImage.DrawAt` | AtlasHandler.cs:59 | After drawing, pixels under the image take the image's colour and the others keep the canvas's |
| `AtlasImage.Crop` | AtlasHandler.cs:142 | Cropping gives an image of exactly the rectangle's size |
| `AtlasImage.CropAt` | AtlasHandler.cs:142 | Each cropped pixel is the atlas pixel at the rectangle's offset |
| `AtlasImage.CropOfDraw` | AtlasHandler.cs:59 | Cropping the area an image was drawn into gives the image back |
| `AtlasImage.CropBesideDraw` | AtlasHandler.cs:56-60 | Drawing does not change what a disjoint rectangle crops |
| `AtlasImage.Composite` | AtlasHandler.cs:56-60 | Compositing in order keeps the canvas size |
| `AtlasImage.CompositeCrop` | AtlasHandler.cs:56-60 | A layer inside the canvas that no later layer overlaps is cropped out of the composite unchanged |
| `AtlasHandler.Decode` | AtlasHandler.cs:38 | `new Bitmap(path)` succeeds exactly on a well-formed image file and returns its pixels |
| `AtlasHandler.PngEntries` | AtlasHandler.cs:31 | The `*.png` listing holds exactly the files whose names end in ".png" in any case |
| `AtlasHandler.UpperCaseListed` | AtlasHandler.cs:15-31 | "Hero.PNG" is listed by the `*.png` pattern, but as an atlas name it fails the case-sensitive suffix test |
| `AtlasHandler.PngEntriesInOrder` | AtlasHandler.cs:31 | The listing is the order-preserving filter: its k-th entry is the entry at an increasing index of the directory listing, and every matching index occurs |
| `AtlasHandler.InOrderAppend` | AtlasHandler.cs:31 | A last matching entry is appended to the filter at its own index |
| `AtlasHandler.InOrderSkip` | AtlasHandler.cs:31 | A last entry that does not match leaves the filter unchanged |
| `AtlasHandler.LoadAll` | AtlasHandler.cs:34-47 | Loading returns every image in order under its file name, or fails iff some file does not decode |
| `AtlasHandler.Sizes` | AtlasHandler.cs:50 | The packer reads each image's name, width and height, in order |
| `AtlasHandler.LayersOf` | AtlasHandler.cs:56-60 | Each image is drawn at the corner of its own dictionary entry |
| `AtlasHandler.PackedNames` | AtlasHandler.cs:50-58 | After packing, `spriteMap[name]` exists for every loaded image, and every key is a loaded image's name |
| `AtlasHandler.StitchSpec` | AtlasHandler.cs:13-85 | A name without ".png" is refused first, then an empty directory. A stitched atlas is well formed and the metadata references the atlas path. The atlas is written to `Path.Combine(outputDirectory, atlasName)` and the metadata to `Path.Combine(outputDirectory, atlasName.Replace(".png", ".json"))`. Past those checks, a PNG that does not decode gives `Undecodable` with its name (AtlasHandler.cs:42-46), a packer error passes on as `PackFailed` (AtlasPacker.cs:46-47 via AtlasHandler.cs:50), and a canvas with a zero side gives `EmptyCanvas` (AtlasHandler.cs:52). Otherwise stitching succeeds with an atlas of the packed size and the packing as metadata |
| `AtlasHandler.StitchAtlas` | AtlasHandler.cs:13-85 | The method computes `StitchSpec`, and `didJob` holds iff both files were written |
| `AtlasHandler.LoadImages` | AtlasHandler.cs:34-47 | The loading loop computes `LoadAll`, stopping at the first image that does not decode |
| `AtlasHandler.DrawSprites` | AtlasHandler.cs:56-60 | The compositing loop draws the images in order at their packed corners: `Composite` of the layers |
| `AtlasHandler.LoadStops` | AtlasHandler.cs:34-47 | Once a prefix fails to load, the whole listing fails with the same file name |
| `AtlasHandler.MetadataBesideAtlas` | AtlasHandler.cs:99-125 | For an atlas name ending in ".png", the metadata path and the atlas path are different files in any directory |
| `AtlasHandler.CheckUnstitch` | AtlasHandler.cs:90-134 | Checks in source order over file paths, each outcome given that the earlier checks passed: bad name; no file at the metadata path; metadata that does not deserialize throws; null document or null `sprites`; empty `sprites`; no file at the atlas path; an atlas that does not decode throws; otherwise proceed with the stored sprites and the decoded atlas |
| `AtlasHandler.ExtractAll` | AtlasHandler.cs:139-150 | Extraction crashes iff some stored rect does not fit the atlas. Otherwise it saves exactly the sprites whose save did not fail, each the crop of the atlas at its own stored rect |
| `AtlasHandler.FirstAnswer` | AtlasHandler.cs:151-176 | The first Y or N key, with only other keys before it |
| `AtlasHandler.PromptDelete` | AtlasHandler.cs:151-176 | The prompt ignores other keys and stops at the first Y or N; deletion is asked for iff that key is Y |
| `AtlasHandler.AfterDelete` | AtlasHandler.cs:178-191 | Deletion removes the file at the atlas path and then the one at the metadata path; an exception stops it part way; no other path changes |
| `AtlasHandler.UnstitchSpec` | AtlasHandler.cs:87-195 | A refusal or crash of the checks passes on unchanged, and a rect outside the atlas gives `RectOutsideAtlas`. After a clean extraction, the job waits while no Y or N has been pressed. Once one has, it finishes with the extracted sprites whatever the delete fault: Y leaves `AfterDelete` of the atlas and metadata paths, and N leaves the file system unchanged (didJob is set after the try/catch, AtlasHandler.cs:178-193) |
| `AtlasHandler.UnstitchAtlas` | AtlasHandler.cs:87-195 | The method computes `UnstitchSpec`, and `didJob` holds iff it finished, whatever the deletion did |
| `AtlasHandler.ExtractSprites` | AtlasHandler.cs:139-150 | The extraction loop, in any order of the dictionary, computes `ExtractAll` |
| `StitchRoundTrip.PngEntriesDistinct` | AtlasHandler.cs:31 | The filtered listing keeps file names distinct |
| `StitchRoundTrip.RowEntry` | AtlasHandler.cs:50-58 | For padding >= 0 and distinct names, `spriteMap[name]` for a loaded image is that image's row cell |
| `StitchRoundTrip.RowCrop` | AtlasHandler.cs:56-60 | For padding >= 0, each sprite's stored rect lies inside the canvas. Cropping the composite there gives the sprite's pixels |
| `StitchRoundTrip.StitchSucceeds` | AtlasHandler.cs:31-56 | With padding >= 0 and a ".png" name, stitching succeeds iff every listed PNG decodes, at least one is listed, and their padded widths add up to at most 4096. The atlas is then as wide as that sum |
| `StitchRoundTrip.OffsetOfLoaded` | AtlasPacker.cs:57-67 | The packer's row offset after k loaded images is the padded width of the first k PNG files |
| `StitchRoundTrip.UndecodableListed` | AtlasHandler.cs:34-47 | A failed load names a listed PNG that does not decode |
| `StitchRoundTrip.LoadedListing` | AtlasHandler.cs:31-47 | A successful load decoded every listed PNG, and loaded at least one iff a PNG is listed |
| `StitchRoundTrip.RowCanvas` | AtlasHandler.cs:50-52 | For padding >= 0, the packed canvas has positive sides iff there is an image and the padded widths fit 4096; its width is that sum |
| `StitchRoundTrip.StitchedParts` | AtlasHandler.cs:13-85 | A successful stitch loaded every PNG, packed them, composited them into the atlas and stored the packing as metadata |
| `StitchRoundTrip.WrittenChecks` | AtlasHandler.cs:90-132 | The two files stitching writes into a directory, at their own paths, pass every unstitch check run on that directory |
| `StitchRoundTrip.RowExtract` | AtlasHandler.cs:139-150 | For padding >= 0, extracting from a stitched atlas never crashes and returns each loaded image under its own name |
| `StitchRoundTrip.StitchThenUnstitch` | AtlasHandler.cs:13-150 | The round trip, for padding >= 0: unstitching the output directory, holding the two files at the paths stitching wrote, passes every check, and the sprites cut out are exactly the input PNG files, pixel for pixel |
| `StitchRoundTrip.ExtractedFiles` | AtlasHandler.cs:31-47 | Sprites extracted under the loaded names are the PNG files of the listing |
| `StitchRoundTrip.StitchThenUnstitchAtlas` | AtlasHandler.cs:87-195 | For padding >= 0, after stitching, unstitching reports the job done once Y or N is pressed, with the original sprites. Y without a fault deletes both files |
| `StitchRoundTrip.NegativePaddingStitch` | AtlasHandler.cs:31-82 | Padding -1 and one 10×10 PNG stitch into a 9×9 atlas whose metadata holds the rect (0, 0, 10, 10) |
| `StitchRoundTrip.NegativePaddingBreaksRoundTrip` | AtlasHandler.cs:139-142 | Unstitching that atlas's own two files crashes in `Clone`, for any saves, keys and delete fault |
| `StitchRoundTrip.UnstitchOutsideAtlas` | AtlasHandler.cs:139-142 | Files that pass every check of unstitch but hold one rect the atlas does not contain make `Clone` throw, for any saves, keys and delete fault |
| `StitchRoundTrip.StitchedFromPacking` | AtlasHandler.cs:36-82 | Once loading and packing succeed with a canvas of positive sides, stitching succeeds with an atlas of the packed size, written to the two combined paths, and with the packing as metadata |
| `StitchRoundTrip.NegativePaddingPack` | AtlasHandler.cs:31-50 | One decodable 10×10 "a.png" loads, and packs with padding -1 into a 9×9 canvas with the rect (0, 0, 10, 10) |
| `StitchRoundTrip.OnePngLoads` | AtlasHandler.cs:31-47 | A directory holding one decodable "a.png" loads exactly that image |
| `StitchRoundTrip.OnePngListed` | AtlasHandler.cs:31 | A directory holding one "a.png" lists that file |
| `StitchRoundTrip.LowerPng` | AtlasHandler.cs:31 | "a.png" matches the pattern "*.png" |
| `Program.TrimQuotes` | Program.cs:76 | `Trim('"')` leaves no quote at either end, never lengthens, and keeps a text without end quotes unchanged |
| `Program.Trim` | Program.cs:76 | After `Trim(chars)`, the text neither starts nor ends with a trimmed character |
| `Program.TrimIsSlice` | Program.cs:76 | `Trim` removes only leading and trailing trimmed characters |
| `Program.Word` | Program.cs:62 | A word is the longest prefix without a space |
| `Program.SplitOnSpace` | Program.cs:62 | `Split(' ', RemoveEmptyEntries)` gives non-empty tokens without spaces |
| `Program.SplitKeepsCharacters` | Program.cs:62 | Splitting drops only spaces: the tokens laid end to end are the non-space characters |
| `Program.SplitOneWord` | Program.cs:62 | A line that is one word gives one token |
| `Program.SplitEnds` | Program.cs:62 | A line that does not start with a space gives a first token starting with its first character, and likewise at the end |
| `Program.Tokenize` | Program.cs:61-62 | A null line gives no tokens. Every token is non-empty and has no space, and no Unicode white space is left at either end of the line |
| `Program.TrimTrailingSpace` | Program.cs:61 | `Trim()` removes a trailing white-space character from a word |
| `Program.NoBreakSpaceLine` | Program.cs:61-62 | A trailing no-break space is trimmed: "a.png\u00A0" gives the one token "a.png" |
| `Program.ParseDigitString` | Program.cs:156 | A magnitude is read iff the text is a non-empty string of digits |
| `Program.InRange` | Program.cs:156 | A parsed value is a 32-bit integer |
| `Program.ParseInt32` | Program.cs:156 | `int.TryParse` succeeds only with a 32-bit value |
| `Program.ParseDigits` | Program.cs:156 | A digit string parses to its value when that fits in 32 bits, and fails otherwise |
| `Program.ParseNegatedDigits` | Program.cs:156 | A minus sign and digits parse to the negated value when that fits in 32 bits, and fail otherwise |
| `Program.ParseShowRoundTrip` | Program.cs:156 | The decimal text of any 32-bit integer parses back to it |
| `Program.ParseShowOutOfRange` | Program.cs:156 | The decimal text of a number outside 32 bits does not parse |
| `Program.ParseInt32Numbers` | Program.cs:156 | "12", "-3" and "+7" parse to 12, -3 and 7 |
| `Program.ParseInt32Whitespace` | Program.cs:156 | Surrounding whitespace is allowed |
| `Program.ParseInt32Failures` | Program.cs:156 | "1x" and a bare "-" do not parse |
| `Program.DashesDoNotParse` | Program.cs:156 | Neither operation switch parses as a padding value |
| `Program.ScanStep` | Program.cs:115-171 | Each step of the option loop moves on by one token, or by two when an option consumed its value. A token that is none of the three options, in any case, moves on by one and marks the input invalid |
| `Program.SwitchStep` | Program.cs:117-154 | An operation switch sets the operation and keeps the padding. With a next token it takes that token without quotes as the name, skips it, and marks the input invalid iff it was already invalid or the name is empty; without one it marks the input invalid |
| `Program.PaddingStep` | Program.cs:155-166 | `--padding` with a parsable next token sets the padding and skips it; otherwise it marks the input invalid. Operation and name are kept |
| `Program.ScanFrom` | Program.cs:113-172 | An input marked invalid stays invalid to the end of the scan |
| `Program.UnknownOptionInvalidates` | Program.cs:167-170 | A scanned token that is not one of the three options makes the scan end invalid |
| `Program.UnknownOptionRejected` | Program.cs:167-176 | With the early checks passed, such a token gets the attempt rejected as invalid arguments |
| `Program.HelpIgnoresCase` | Program.cs:83-85 | The help test ignores case: a token asks for help iff its lower-case form does |
| `Program.OneOperationSwitch` | Program.cs:105-111 | The presence check passes iff some token is exactly `--stitch` or `--unstitch` and every such token is the same switch |
| `Program.ParseAttempt` | Program.cs:69-216 | An attempt is rejected for an empty token list, then for help/--help/-h in any case, then for a missing directory. An accepted attempt carries the unquoted first token as its directory |
| `Program.Conclude` | Program.cs:174-216 | After the scan, an invalid mark rejects the attempt; an accepted attempt carries the scanned operation, padding and name |
| `Program.Attempts` | Program.cs:54-74 | The token lists tried: the arguments first when there are any, then those of each line read, in order |
| `Program.LineAttempts` | Program.cs:61-62 | Line k read gives the token list `Tokenize(line k)`, in order |
| `Program.AttemptsArgs` | Program.cs:58-67 | Non-empty arguments are tried before every line |
| `Program.AttemptsPop` | Program.cs:54-74 | After reading one line, the attempts left are those of the remaining lines |
| `Program.FirstAcceptedCons` | Program.cs:54-74 | The first accepted attempt of a list is its head's result, or else that of its tail |
| `Program.FirstAcceptedIsFirst` | Program.cs:54-74 | The re-prompt loop returns the first accepted attempt; all earlier attempts were rejected, and it returns nothing iff every attempt is rejected |
| `Program.ScanOptions` | Program.cs:113-172 | The index loop with its manual `i++` computes the scan `ScanFrom` from token 1 |
| `Program.TryArguments` | Program.cs:69-216 | One pass of the outer loop computes `ParseAttempt` |
| `Program.ParseArguments` | Program.cs:51-219 | Arguments first, then one supplied line per rejection, give the first accepted attempt |
| `Program.ScanKeeps` | Program.cs:113-172 | An invalid mark is never cleared, a set operation is never unset, and the scan only ever sets the operation to `--stitch` or `--unstitch` |
| `Program.ScanPaddingDefault` | Program.cs:155-166 | Without a `--padding` token the padding keeps its value, 2 from the start |
| `Program.ScanFindsOperation` | Program.cs:105-172 | If the scan sets no operation, no token after the directory is exactly `--stitch` or `--unstitch` |
| `Program.ChecksPassed` | Program.cs:69-176 | With the checks before the scan passed, the attempt ends as its scan does |
| `Program.AcceptedParts` | Program.cs:69-216 | An accepted attempt passed every check, and its result is the unquoted directory with the scan's values |
| `Program.ValidScan` | Program.cs:105-172 | A valid scan over a list with exactly one switch has an operation with a name, or none only when the first token is the switch; its padding is 2 without a `--padding` token |
| `Program.AcceptedAttempt` | Program.cs:69-216 | An accepted attempt passed every check before the scan. Its operation is `--stitch` or `--unstitch` with a non-empty name, or empty only when the directory token itself is a switch. Its padding is 2 unless `--padding` appears |
| `Program.ScanSwitch` | Program.cs:117-154 | A lower-case switch sets the operation, takes the next token without its quotes as the name, and marks the input invalid when that name is empty |
| `Program.ScanPadding` | Program.cs:155-166 | `--padding` followed by a number sets the padding and skips the number |
| `Program.SwitchThenPadding` | Program.cs:113-172 | A switch with its name, then `--padding` with a number: both are taken and the scan goes on after them |
| `Program.LaterOptionsOverwrite` | Program.cs:113-172 | After two rounds of a switch with its name and `--padding` with a number, only the second round's values remain |
| `Program.ScanPaddingRange` | Program.cs:155-166 | The padding is always a 32-bit integer |
| `Program.DeadSwitch` | Program.cs:184-213 | The post-scan switch never matches: the PNG and atlas probes cannot change the outcome |
| `Program.StitchExample` | Program.cs:113-172 | `sprites --stitch atlas.png --padding 4` gives (sprites, --stitch, 4, atlas.png) |
| `Program.OverwriteExample` | Program.cs:113-172 | Later options overwrite earlier ones, and quotes around a name are trimmed |
| `Program.ExtraTokenExample` | Program.cs:167-170 | A stray token after the name makes the input invalid |
| `Program.UpperCaseSwitchAlone` | Program.cs:105-111 | The presence check is case-sensitive: `--STITCH` alone is refused |
| `Program.UpperCaseSwitchLast` | Program.cs:113-172 | The scan lowercases tokens: a trailing `--UNSTITCH` beside `--stitch` sets the operation to `--unstitch` |
| `Program.EmptyOperationExample` | Program.cs:105-216 | A directory named `--stitch` is accepted with an empty operation and name |
| `Program.RepromptExample` | Program.cs:54-74 | Null, blank and help lines are skipped until a line is accepted |
| `Program.RepromptAttempts` | Program.cs:54-74 | Those four lines give the token lists [], [], ["help"] and the three command words |
| `Program.HelpRejected` | Program.cs:83-96 | The token list ["help"] is rejected as a request for help |
| `Program.CommandAccepted` | Program.cs:69-216 | `d --unstitch a.png` is accepted with directory d, the default padding 2 and name a.png |
| `Program.QuotedName` | Program.cs:122 | `Trim('"')` takes the quotes off a quoted name |
| `Program.HelpLine` | Program.cs:61-62 | The line "help" gives the one token "help" |
| `Program.BlankLines` | Program.cs:61-62 | A null line and a line of spaces give no tokens |
| `Program.CommandLine` | Program.cs:61-62 | A typed command line splits into its three words |

## Left out

- Console output, the outer retry loop of `Main` and the `AtlasStitcher` dispatch (Program.cs:5-49) are I/O and plumbing. `AtlasStitcher` is not part of this model.
- The file system is a parameter: a listing of entries for stitching and a map from path to content for unstitching. The directories `Directory.Exists` accepts are a set. Enumeration order is the order of the supplied listing.
- PNG decoding and encoding, and the file writes, are left out. The sprite files unstitching saves under `unstitched/` (AtlasHandler.cs:136-145) are returned as a map from sprite name to image, not added to the file system. A file is either a decodable `Bitmap` value, a deserialized metadata document, or other data. Sprite files whose save throws are a supplied set.
- JSON text, indentation and the camel-case naming policy are library mechanics. Only the record shape and the four field names are modelled. The document read back is `AtlasHandler.ReadBack` of the one written. The file holds the camel-case key "image", and `Deserialize` matches property names case-sensitively, so `Image` keeps its initial "". Nothing reads `Image`.
- `AtlasImage.Draw` copies pixels. GDI+ alpha blending of semi-transparent pixels onto the transparent canvas, and pixel-format conversion, are not modelled. The pixel-exact round trip therefore holds for this copying model.
- `Console.ReadKey` and `Console.ReadLine` are supplied sequences. When they run out, the model reports that the prompt is still waiting (`AwaitingAnswer`, or `None` from `ParseArguments`).
- 32-bit overflow in the packer is not modelled; integers are unbounded. `int.MaxValue` as "no candidate yet" is `None`.
- `AtlasNames.ToLower`: only ASCII letters are lowered; culture-specific case mapping is not modelled.
- `AtlasNames.EndsWith`: compares character by character. .NET's `EndsWith(string)` uses the current culture, which ignores characters such as the soft hyphen U+00AD; that is not modelled.
- `AtlasHandler.PngEntries`: matches ".png" in any ASCII case, as Windows file names compare. Non-ASCII case folding and the legacy short-name match of `*.png` against extensions such as `.pngx` are not modelled.
- `AtlasHandler.ExtractSprites`: an exception from `Clone` ends unstitching with the sprites saved so far left on disk (AtlasHandler.cs:139-149). The model reports the crash and returns no partial set of saved sprites.
- `Program.ParseInt32`: models whitespace, an optional sign, decimal digits and the 32-bit range. Culture-specific signs, and .NET's acceptance of trailing null characters, are not modelled.
- The order in which unstitch visits the sprite dictionary is not modelled: `ExtractSprites` is proved for any order.
- `AtlasNames.CombinePath` uses '/' as the only separator and does not model Windows drive roots.
- `StitchRoundTrip.StitchThenUnstitch`: the round trip, `StitchThenUnstitchAtlas` and the `Row*` lemmas under it are proved only for padding >= 0. The program accepts any Int32 padding. With negative padding, `padding / 2` truncates toward zero while the canvas shrinks by the whole padding, so the atlas can be smaller than its own rects, and unstitching it crashes in `Clone` (`StitchRoundTrip.NegativePaddingBreaksRoundTrip`).
- `PackerRow.PackRow`: proved only for padding >= 0 and positive sprite sizes. For negative padding, `PackerRow.NegativePaddingSentinel` shows how the code behaves instead.
- `PackerScan.PackInside`: proved only for padding >= 0 and positive sprite sizes.
- `PackerScan.PlaceFailsIff`: proved only for a skyline of non-negative segments, which is what a run with padding >= 0 produces.
