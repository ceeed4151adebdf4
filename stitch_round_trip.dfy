/**
 * The round trip of the two operations: with padding >= 0, unstitching the two files StitchAtlas
 * writes passes every check and cuts each sprite out of the atlas with exactly the pixels of the
 * PNG file it came from. The proof goes through the one-row layout: every rect lies inside the
 * canvas and no two cells overlap, so each sprite survives the drawing of the others.
 */
module StitchRoundTrip {
  import opened Wrappers
  import opened AtlasRecords
  import opened AtlasPacker
  import opened PackerScan
  import opened PackerRow
  import opened AtlasImage
  import opened AtlasNames
  import opened AtlasHandler

  /** Loaded images with pairwise different names. */
  ghost predicate DistinctImages(images: seq<(string, Bitmap)>)
  {
    forall i, j :: 0 <= i < j < |images| ==> images[i].0 != images[j].0
  }

  /** Filtering a listing keeps its names distinct. */
  lemma {:induction false} PngEntriesDistinct(files: seq<FileEntry>)
    requires DistinctNames(files)
    ensures DistinctNames(PngEntries(files))
  {
    if |files| > 0 {
      var front := files[..|files| - 1];
      var last := files[|files| - 1];
      assert DistinctNames(front);
      PngEntriesDistinct(front);
      forall e | e in PngEntries(front)
        ensures e.name != last.name
      {
        assert e in front;
      }
    }
  }

  /** Sprite sizes read from decoded bitmaps are positive. */
  lemma SizesValid(images: seq<(string, Bitmap)>)
    requires AllWellFormed(images)
    ensures ValidSizes(Sizes(images))
  {
  }

  /** With distinct names, sprite k's entry in the row dictionary is its own cell. */
  lemma RowEntry(images: seq<(string, Bitmap)>, padding: int, k: nat)
    requires padding >= 0 && AllWellFormed(images) && DistinctImages(images) && k < |images|
    requires Pack(Sizes(images), padding, MaxAtlasWidth).Success?
    ensures images[k].0 in Pack(Sizes(images), padding, MaxAtlasWidth).value.positions
    ensures Pack(Sizes(images), padding, MaxAtlasWidth).value.positions[images[k].0]
         == Cell(Sizes(images), padding, k)
  {
    var sizes := Sizes(images);
    SizesValid(images);
    PackRow(sizes, padding, MaxAtlasWidth);
    RowPositionsLast(sizes, padding, |sizes|, k);
  }

  /**
   * Sprite k, cut out of the composited atlas at its stored rect, is the image that was drawn
   * there: the rect lies inside the canvas, and every later sprite is drawn strictly to its right.
   */
  lemma RowCrop(images: seq<(string, Bitmap)>, padding: int, k: nat)
    requires padding >= 0 && AllWellFormed(images) && DistinctImages(images) && k < |images|
    requires Pack(Sizes(images), padding, MaxAtlasWidth).Success?
    ensures var packing := Pack(Sizes(images), padding, MaxAtlasWidth).value;
            && packing.atlasWidth > 0 && packing.atlasHeight > 0
            && images[k].0 in packing.positions
            && (forall j :: 0 <= j < |images| ==> images[j].0 in packing.positions)
            && var canvas := Blank(packing.atlasWidth, packing.atlasHeight);
               && FitsIn(canvas, ToRectangle(packing.positions[images[k].0]))
               && Crop(Composite(canvas, LayersOf(images, packing.positions)),
                       ToRectangle(packing.positions[images[k].0])) == images[k].1
  {
    var sizes := Sizes(images);
    var n := |images|;
    SizesValid(images);
    PackRow(sizes, padding, MaxAtlasWidth);
    var packing := Pack(sizes, padding, MaxAtlasWidth).value;
    forall j | 0 <= j < n
      ensures images[j].0 in packing.positions && packing.positions[images[j].0] == Cell(sizes, padding, j)
    {
      RowEntry(images, padding, j);
    }
    OffsetGrows(sizes, padding, k, n);
    OffsetGrows(sizes, padding, k, k);
    RowHeightBounds(sizes, padding, k, n);
    var canvas := Blank(packing.atlasWidth, packing.atlasHeight);
    var layers := LayersOf(images, packing.positions);
    var rect := Footprint(layers[k].image, layers[k].x, layers[k].y);
    assert rect == ToRectangle(packing.positions[images[k].0]);
    forall i | k < i < n
      ensures Disjoint(rect, Footprint(layers[i].image, layers[i].x, layers[i].y))
    {
      RowCellsDisjoint(sizes, padding, k, i);
    }
    CompositeCrop(canvas, layers, k);
  }

  /** The stitched atlas and metadata, and the images they were made from, when stitching succeeds. */
  lemma StitchedParts(files: seq<FileEntry>, outputDirectory: string, padding: int, atlasName: string)
    returns (images: seq<(string, Bitmap)>)
    requires StitchSpec(files, outputDirectory, padding, atlasName).Stitched?
    ensures EndsWith(atlasName, PngSuffix)
    ensures LoadAll(PngEntries(files)) == Success(images) && AllWellFormed(images) && |images| > 0
    ensures Pack(Sizes(images), padding, MaxAtlasWidth).Success?
    ensures var packing := Pack(Sizes(images), padding, MaxAtlasWidth).value;
            var out := StitchSpec(files, outputDirectory, padding, atlasName);
            && packing.atlasWidth > 0 && packing.atlasHeight > 0
            && (forall j :: 0 <= j < |images| ==> images[j].0 in packing.positions)
            && out.metadata.sprites == Some(packing.positions)
            && out.atlas == Composite(Blank(packing.atlasWidth, packing.atlasHeight), LayersOf(images, packing.positions))
  {
    var loaded := LoadAll(PngEntries(files));
    assert loaded.Success?;
    images := loaded.value;
    var packed := Pack(Sizes(images), padding, MaxAtlasWidth);
    assert packed.Success?;
    PackedNames(images, padding);
  }

  /**
   * The sum of the padded widths of the images in a listing, as the packer adds them up: each
   * entry's bitmap width plus the padding (an entry that holds no image counts as width 0).
   */
  function PaddedRowWidth(entries: seq<FileEntry>, padding: int): int
  {
    if |entries| == 0 then 0
    else
      var last := entries[|entries| - 1];
      PaddedRowWidth(entries[..|entries| - 1], padding)
        + (if last.content.ImageData? then last.content.bitmap.width else 0) + padding
  }

  /** The row offset after the first k loaded images is the padded width of the first k entries. */
  lemma {:induction false} OffsetOfLoaded(entries: seq<FileEntry>, images: seq<(string, Bitmap)>, padding: int, k: nat)
    requires LoadAll(entries) == Success(images) && k <= |entries|
    ensures Offset(Sizes(images), padding, k) == PaddedRowWidth(entries[..k], padding)
  {
    if k > 0 {
      OffsetOfLoaded(entries, images, padding, k - 1);
      assert entries[..k][..k - 1] == entries[..k - 1];
      assert entries[..k][k - 1] == entries[k - 1];
    }
  }

  /**
   * When StitchAtlas succeeds. With padding >= 0 and a name ending in ".png", it writes the atlas
   * exactly when every PNG of the listing decodes, there is at least one, and their padded widths
   * add up to at most MaxAtlasWidth; the atlas is then as wide as that sum. Otherwise it returns
   * an Undecodable crash, the packer's TooWide error, or the EmptyCanvas crash of `new Bitmap(0, 0)`.
   */
  lemma StitchSucceeds(files: seq<FileEntry>, outputDirectory: string, padding: int, atlasName: string)
    requires padding >= 0 && EndsWith(atlasName, PngSuffix)
    ensures StitchSpec(files, outputDirectory, padding, atlasName).Stitched?
        <==> && (forall e :: e in files && PngPattern(e.name) ==> Decode(e.content).Some?)
             && (exists e :: e in files && PngPattern(e.name))
             && PaddedRowWidth(PngEntries(files), padding) <= MaxAtlasWidth
    ensures StitchSpec(files, outputDirectory, padding, atlasName).Stitched?
        ==> StitchSpec(files, outputDirectory, padding, atlasName).atlas.width
            == PaddedRowWidth(PngEntries(files), padding)
  {
    var pngs := PngEntries(files);
    if |files| == 0 {
      assert forall e :: e !in files;
    } else if LoadAll(pngs).Failure? {
      UndecodableListed(files);
    } else {
      var images := LoadAll(pngs).value;
      LoadedListing(files, images);
      RowCanvas(pngs, images, padding);
    }
  }

  /** A failed load names a listed PNG that does not decode. */
  lemma UndecodableListed(files: seq<FileEntry>)
    requires LoadAll(PngEntries(files)).Failure?
    ensures exists e :: e in files && PngPattern(e.name) && Decode(e.content).None?
  {
    var pngs := PngEntries(files);
    var k :| 0 <= k < |pngs| && Decode(pngs[k].content).None?;
    assert pngs[k] in pngs;
  }

  /** A successful load decoded every listed PNG, and loaded at least one exactly when one is listed. */
  lemma LoadedListing(files: seq<FileEntry>, images: seq<(string, Bitmap)>)
    requires LoadAll(PngEntries(files)) == Success(images)
    ensures forall e :: e in files && PngPattern(e.name) ==> Decode(e.content).Some?
    ensures (exists e :: e in files && PngPattern(e.name)) <==> |images| > 0
  {
    var pngs := PngEntries(files);
    forall e | e in files && PngPattern(e.name)
      ensures Decode(e.content).Some?
    {
      assert e in pngs;
      var k :| 0 <= k < |pngs| && pngs[k] == e;
      assert pngs[k].content == ImageData(images[k].1);
    }
    if |images| > 0 {
      assert pngs[0] in pngs;
    }
  }

  /**
   * Packing loaded images gives a canvas of positive size exactly when there is at least one
   * image and their padded widths fit MaxAtlasWidth; the canvas is then as wide as that sum.
   */
  lemma RowCanvas(entries: seq<FileEntry>, images: seq<(string, Bitmap)>, padding: int)
    requires padding >= 0 && LoadAll(entries) == Success(images)
    ensures var packed := Pack(Sizes(images), padding, MaxAtlasWidth);
            (packed.Success? && packed.value.atlasWidth > 0 && packed.value.atlasHeight > 0)
            <==> |images| > 0 && PaddedRowWidth(entries, padding) <= MaxAtlasWidth
    ensures var packed := Pack(Sizes(images), padding, MaxAtlasWidth);
            packed.Success? ==> packed.value.atlasWidth == PaddedRowWidth(entries, padding)
  {
    var sizes := Sizes(images);
    SizesValid(images);
    PackRow(sizes, padding, MaxAtlasWidth);
    OffsetOfLoaded(entries, images, padding, |entries|);
    assert entries[..|entries|] == entries;
    if |images| > 0 {
      OffsetGrows(sizes, padding, 0, |sizes|);
      RowHeightBounds(sizes, padding, 0, |sizes|);
    }
  }

  /**
   * The two files StitchAtlas writes into a directory pass every check of UnstitchAtlas run on
   * that directory with the same atlas name.
   */
  lemma WrittenChecks(directory: string, atlasName: string, atlas: Bitmap, metadata: AtlasMetadata,
                      positions: map<string, SpriteRect>)
    requires EndsWith(atlasName, PngSuffix) && WellFormed(atlas)
    requires metadata.sprites == Some(positions) && |positions| > 0
    ensures CheckUnstitch(map[AtlasImagePath(directory, atlasName) := ImageData(atlas),
                              MetadataPath(directory, atlasName) := JsonData(Some(metadata))], directory, atlasName)
         == Proceed(positions, atlas)
  {
    MetadataBesideAtlas(directory, atlasName);
  }

  /**
   * Extracting from a one-row atlas: no rect throws, and the sprites cut out are the loaded
   * images, under their own names.
   */
  lemma RowExtract(images: seq<(string, Bitmap)>, padding: int) returns (extracted: map<string, Bitmap>)
    requires padding >= 0 && AllWellFormed(images) && DistinctImages(images) && |images| > 0
    requires Pack(Sizes(images), padding, MaxAtlasWidth).Success?
    ensures var packing := Pack(Sizes(images), padding, MaxAtlasWidth).value;
            && packing.atlasWidth > 0 && packing.atlasHeight > 0
            && (forall j :: 0 <= j < |images| ==> images[j].0 in packing.positions)
            && ExtractAll(packing.positions,
                          Composite(Blank(packing.atlasWidth, packing.atlasHeight), LayersOf(images, packing.positions)),
                          {}) == Some(extracted)
    ensures forall k :: 0 <= k < |images| ==> images[k].0 in extracted && extracted[images[k].0] == images[k].1
    ensures forall name :: name in extracted ==> exists k :: 0 <= k < |images| && images[k].0 == name
  {
    RowCrop(images, padding, 0);
    var packing := Pack(Sizes(images), padding, MaxAtlasWidth).value;
    var positions := packing.positions;
    var atlas := Composite(Blank(packing.atlasWidth, packing.atlasHeight), LayersOf(images, positions));
    forall k | 0 <= k < |images|
      ensures FitsIn(atlas, ToRectangle(positions[images[k].0]))
      ensures Crop(atlas, ToRectangle(positions[images[k].0])) == images[k].1
    {
      RowCrop(images, padding, k);
    }
    PackedNames(images, padding);
    forall name | name in positions
      ensures FitsIn(atlas, ToRectangle(positions[name]))
    {
      var k :| 0 <= k < |images| && images[k].0 == name;
    }
    extracted := ExtractAll(positions, atlas, {}).value;
  }

  /**
   * Stitch, then unstitch the two files written: every check passes, nothing crashes, and the
   * sprites cut out are exactly the PNG files of the input directory, each with its own pixels.
   */
  lemma StitchThenUnstitch(files: seq<FileEntry>, outputDirectory: string, padding: int, atlasName: string)
    returns (written: map<string, FileContent>, extracted: map<string, Bitmap>)
    requires padding >= 0 && DistinctNames(files)
    requires StitchSpec(files, outputDirectory, padding, atlasName).Stitched?
    ensures var out := StitchSpec(files, outputDirectory, padding, atlasName);
            written == map[out.atlasPath := ImageData(out.atlas), out.jsonPath := JsonData(Some(ReadBack(out.metadata)))]
    ensures CheckUnstitch(written, outputDirectory, atlasName).Proceed?
    ensures var check := CheckUnstitch(written, outputDirectory, atlasName);
            ExtractAll(check.sprites, check.atlas, {}) == Some(extracted)
    ensures extracted.Keys == set e | e in files && PngPattern(e.name) :: e.name
    ensures forall e :: e in files && PngPattern(e.name) ==>
              e.name in extracted && e.content == ImageData(extracted[e.name])
  {
    var out := StitchSpec(files, outputDirectory, padding, atlasName);
    var pngs := PngEntries(files);
    var images := StitchedParts(files, outputDirectory, padding, atlasName);
    var positions := Pack(Sizes(images), padding, MaxAtlasWidth).value.positions;
    PngEntriesDistinct(files);
    assert DistinctImages(images);
    assert images[0].0 in positions;
    WrittenChecks(outputDirectory, atlasName, out.atlas, ReadBack(out.metadata), positions);
    written := map[out.atlasPath := ImageData(out.atlas), out.jsonPath := JsonData(Some(ReadBack(out.metadata)))];
    extracted := RowExtract(images, padding);
    ExtractedFiles(files, images, extracted);
  }

  /** Sprites extracted under the names of the loaded images are the PNG files of the listing. */
  lemma ExtractedFiles(files: seq<FileEntry>, images: seq<(string, Bitmap)>, extracted: map<string, Bitmap>)
    requires LoadAll(PngEntries(files)) == Success(images)
    requires forall k :: 0 <= k < |images| ==> images[k].0 in extracted && extracted[images[k].0] == images[k].1
    requires forall name :: name in extracted ==> exists k :: 0 <= k < |images| && images[k].0 == name
    ensures extracted.Keys == set e | e in files && PngPattern(e.name) :: e.name
    ensures forall e :: e in files && PngPattern(e.name) ==>
              e.name in extracted && e.content == ImageData(extracted[e.name])
  {
    var pngs := PngEntries(files);
    forall e | e in files && PngPattern(e.name)
      ensures e.name in extracted && e.content == ImageData(extracted[e.name])
    {
      assert e in pngs;
      var k :| 0 <= k < |pngs| && pngs[k] == e;
      assert images[k].0 == e.name;
    }
    forall name | name in extracted
      ensures name in set e | e in files && PngPattern(e.name) :: e.name
    {
      var k :| 0 <= k < |images| && images[k].0 == name;
      assert pngs[k] in pngs;
    }
  }

  /**
   * The whole of UnstitchAtlas on the files StitchAtlas wrote, run on the output directory with
   * every save succeeding: once a Y or N is pressed it reports the job done with the original
   * sprites extracted; Y deletes both files unless a File.Delete throws.
   */
  lemma StitchThenUnstitchAtlas(files: seq<FileEntry>, outputDirectory: string, padding: int, atlasName: string,
                                keys: seq<ConsoleKey>, fault: DeleteFault)
    requires padding >= 0 && DistinctNames(files)
    requires StitchSpec(files, outputDirectory, padding, atlasName).Stitched?
    requires FirstAnswer(keys).Some?
    ensures var out := StitchSpec(files, outputDirectory, padding, atlasName);
            var written := map[out.atlasPath := ImageData(out.atlas), out.jsonPath := JsonData(Some(ReadBack(out.metadata)))];
            var r := UnstitchSpec(written, outputDirectory, atlasName, {}, keys, fault);
            && r.Unstitched?
            && r.extracted.Keys == (set e | e in files && PngPattern(e.name) :: e.name)
            && (forall e :: e in files && PngPattern(e.name) ==> e.content == ImageData(r.extracted[e.name]))
            && (keys[FirstAnswer(keys).value] == KeyY && fault == NoFault ==> r.fs == map[])
  {
    var written, extracted := StitchThenUnstitch(files, outputDirectory, padding, atlasName);
    var r := UnstitchSpec(written, outputDirectory, atlasName, {}, keys, fault);
    assert r.extracted == extracted;
  }

  /**
   * With negative padding the round trip fails. Padding -1 and one 10x10 PNG give the rect
   * (0, 0, 10, 10) on a 9x9 canvas (PackerRow.NegativePaddingSmallCanvas). Stitching succeeds,
   * and unstitching its own two files crashes when Clone meets a rect outside the atlas, whatever
   * the saves, the keys and the delete fault.
   */
  lemma {:induction false} NegativePaddingBreaksRoundTrip(sprite: Bitmap, outputDirectory: string, atlasName: string,
                                       saveFails: set<string>, keys: seq<ConsoleKey>, fault: DeleteFault)
    requires WellFormed(sprite) && sprite.width == 10 && sprite.height == 10
    requires EndsWith(atlasName, PngSuffix)
    ensures var out := StitchSpec([FileEntry("a.png", ImageData(sprite))], outputDirectory, -1, atlasName);
            && out.Stitched?
            && out.atlas.width == 9 && out.atlas.height == 9
            && UnstitchSpec(map[out.atlasPath := ImageData(out.atlas), out.jsonPath := JsonData(Some(ReadBack(out.metadata)))],
                            outputDirectory, atlasName, saveFails, keys, fault)
               == UnstitchCrashed(RectOutsideAtlas)
  {
    var out := NegativePaddingStitch(sprite, outputDirectory, atlasName);
    assert !FitsIn(out.atlas, ToRectangle(SpriteRect(0, 0, 10, 10)));
    UnstitchOutsideAtlas(outputDirectory, atlasName, out.atlas, ReadBack(out.metadata), "a.png",
                         SpriteRect(0, 0, 10, 10), saveFails, keys, fault);
  }

  /**
   * The unstitching half of NegativePaddingBreaksRoundTrip: files that pass every check but
   * hold one rect the atlas does not contain make Clone throw.
   */
  lemma {:induction false} UnstitchOutsideAtlas(directory: string, atlasName: string, atlas: Bitmap,
                                                metadata: AtlasMetadata, name: string, rect: SpriteRect,
                                                saveFails: set<string>, keys: seq<ConsoleKey>, fault: DeleteFault)
    requires EndsWith(atlasName, PngSuffix) && WellFormed(atlas)
    requires metadata.sprites == Some(map[name := rect]) && !FitsIn(atlas, ToRectangle(rect))
    ensures UnstitchSpec(map[AtlasImagePath(directory, atlasName) := ImageData(atlas),
                             MetadataPath(directory, atlasName) := JsonData(Some(metadata))],
                         directory, atlasName, saveFails, keys, fault)
            == UnstitchCrashed(RectOutsideAtlas)
  {
    var positions := map[name := rect];
    WrittenChecks(directory, atlasName, atlas, metadata, positions);
    assert positions.Keys == {name};
  }

  /** The stitching half of NegativePaddingBreaksRoundTrip: a 9x9 atlas holding the rect (0, 0, 10, 10). */
  lemma {:induction false} NegativePaddingStitch(sprite: Bitmap, outputDirectory: string, atlasName: string) returns (out: StitchOutcome)
    requires WellFormed(sprite) && sprite.width == 10 && sprite.height == 10
    requires EndsWith(atlasName, PngSuffix)
    ensures out == StitchSpec([FileEntry("a.png", ImageData(sprite))], outputDirectory, -1, atlasName)
    ensures out.Stitched? && out.atlas.width == 9 && out.atlas.height == 9
    ensures out.atlasPath == AtlasImagePath(outputDirectory, atlasName)
            && out.jsonPath == MetadataPath(outputDirectory, atlasName)
    ensures out.metadata.sprites == Some(map["a.png" := SpriteRect(0, 0, 10, 10)])
  {
    var files := [FileEntry("a.png", ImageData(sprite))];
    NegativePaddingPack(files, sprite);
    StitchedFromPacking(files, outputDirectory, -1, atlasName, [("a.png", sprite)],
                        Packing(map["a.png" := SpriteRect(0, 0, 10, 10)], 9, 9));
    out := StitchSpec(files, outputDirectory, -1, atlasName);
  }

  /** Stitching succeeds with the packed canvas once loading and packing succeed with positive sides. */
  lemma {:induction false} StitchedFromPacking(files: seq<FileEntry>, outputDirectory: string, padding: int, atlasName: string,
                            images: seq<(string, Bitmap)>, packing: Packing)
    requires EndsWith(atlasName, PngSuffix) && |files| > 0
    requires LoadAll(PngEntries(files)) == Success(images)
    requires Pack(Sizes(images), padding, MaxAtlasWidth) == Success(packing)
    requires packing.atlasWidth > 0 && packing.atlasHeight > 0
    ensures var out := StitchSpec(files, outputDirectory, padding, atlasName);
            && out.Stitched?
            && out.atlas.width == packing.atlasWidth && out.atlas.height == packing.atlasHeight
            && out.atlasPath == AtlasImagePath(outputDirectory, atlasName)
            && out.jsonPath == MetadataPath(outputDirectory, atlasName)
            && out.metadata.sprites == Some(packing.positions)
  {
    var loaded := LoadAll(PngEntries(files));
    assert loaded.Success? && loaded.value == images;
    var packed := Pack(Sizes(loaded.value), padding, MaxAtlasWidth);
    assert packed.Success? && packed.value == packing;
  }

  /** Loading and packing the one 10x10 PNG of NegativePaddingStitch with padding -1. */
  lemma {:induction false} NegativePaddingPack(files: seq<FileEntry>, sprite: Bitmap)
    requires WellFormed(sprite) && sprite.width == 10 && sprite.height == 10
    requires files == [FileEntry("a.png", ImageData(sprite))]
    ensures LoadAll(PngEntries(files)) == Success([("a.png", sprite)])
    ensures Pack(Sizes([("a.png", sprite)]), -1, MaxAtlasWidth)
         == Success(Packing(map["a.png" := SpriteRect(0, 0, 10, 10)], 9, 9))
  {
    OnePngLoads(files, sprite);
    assert Sizes([("a.png", sprite)]) == [SpriteSize("a.png", 10, 10)];
    NegativePaddingSmallCanvas();
  }

  /** A listing of one decodable "a.png" loads that one image. */
  lemma {:induction false} OnePngLoads(files: seq<FileEntry>, sprite: Bitmap)
    requires WellFormed(sprite) && files == [FileEntry("a.png", ImageData(sprite))]
    ensures LoadAll(PngEntries(files)) == Success([("a.png", sprite)])
  {
    OnePngListed(files);
    assert LoadAll(files[..0]) == Success([]) by {
      assert files[..0] == [];
    }
    assert Decode(files[0].content) == Some(sprite);
    assert [] + [("a.png", sprite)] == [("a.png", sprite)];
  }

  /** A listing of one "a.png" lists that entry. */
  lemma {:induction false} OnePngListed(files: seq<FileEntry>)
    requires |files| == 1 && files[0].name == "a.png"
    ensures PngEntries(files) == files
  {
    LowerPng();
    assert PngEntries(files[..0]) == [] by {
      assert files[..0] == [];
    }
  }

  /** "a.png" matches the pattern "*.png". */
  lemma LowerPng()
    ensures PngPattern("a.png")
  {
    var name := "a.png";
    assert ToLower(name) == name by {
      forall k | 0 <= k < |name|
        ensures ToLower(name)[k] == name[k]
      {
      }
    }
    assert name[|name| - |PngSuffix|..] == PngSuffix;
  }
}
