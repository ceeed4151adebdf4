/**
 * AtlasHandler.StitchAtlas and AtlasHandler.UnstitchAtlas over an abstract file system. StitchAtlas
 * reads the listing of its input directory; UnstitchAtlas reads files by path, from a map of paths
 * to what each file holds (a decodable image, a metadata document, or anything else). The files
 * the operations write are returned, and what happens at the console (the keys pressed at the
 * delete prompt), at save time (the sprites whose files cannot be written) and at delete time
 * (which File.Delete throws) is passed in. Each method's specification is a function of those
 * inputs; the round trip from stitching to unstitching is proved in StitchRoundTrip.
 */
module AtlasHandler {
  import opened Wrappers
  import opened AtlasRecords
  import opened AtlasPacker
  import opened PackerScan
  import opened AtlasImage
  import opened AtlasNames

  /** The width limit StitchAtlas passes to the packer. */
  const MaxAtlasWidth := 4096

  /** What a file holds, as far as the two operations can read it. */
  datatype FileContent =
    | ImageData(bitmap: Bitmap)                     // a file `new Bitmap(path)` decodes
    | JsonData(document: Option<AtlasMetadata>)     // JSON that deserializes to AtlasMetadata; None is `null`
    | OtherData                                     // anything else

  /** One entry of a directory listing: the file's name and what it holds. */
  datatype FileEntry = FileEntry(name: string, content: FileContent)

  /** A directory listing names each file once. */
  ghost predicate DistinctNames(files: seq<FileEntry>)
  {
    forall i, j :: 0 <= i < j < |files| ==> files[i].name != files[j].name
  }

  /** `new Bitmap(path)`: the image, or None when the constructor throws. */
  function Decode(content: FileContent): (b: Option<Bitmap>)
    ensures b.Some? ==> content == ImageData(b.value) && WellFormed(b.value)
    ensures content.ImageData? && WellFormed(content.bitmap) ==> b.Some?
  {
    if content.ImageData? && WellFormed(content.bitmap) then Some(content.bitmap) else None
  }

  // ---------------------------------------------------------------------------------------------
  // StitchAtlas (AtlasHandler.cs:13-85)

  /** Why StitchAtlas returns with didJob = false. */
  datatype StitchRefusal = StitchBadName | NoFiles

  /** The exceptions that escape StitchAtlas. */
  datatype StitchCrash = Undecodable(name: string) | PackFailed(error: PackError) | EmptyCanvas

  datatype StitchOutcome =
    | StitchRefused(refusal: StitchRefusal)
    | StitchCrashed(crash: StitchCrash)
    | Stitched(atlasPath: string, atlas: Bitmap, jsonPath: string, metadata: AtlasMetadata)

  /**
   * The pattern "*.png" as Directory.GetFiles matches it on Windows, where file names compare
   * without regard to case: the name ends in ".png", ".PNG", ".Png" and so on.
   */
  predicate PngPattern(name: string)
  {
    EndsWith(ToLower(name), PngSuffix)
  }

  /** The listing matches "*.png" in any case, while the atlas-name test is case-sensitive. */
  lemma UpperCaseListed()
    ensures PngPattern("Hero.PNG") && !EndsWith("Hero.PNG", PngSuffix)
  {
    assert ToLower("Hero.PNG")[4..] == PngSuffix;
    assert "Hero.PNG"[4..][1] == 'P';
  }

  /**
   * The listing of `Directory.GetFiles(dir, "*.png")`: the entries that match the pattern, in the
   * order of the directory listing (PngEntriesInOrder).
   */
  function PngEntries(files: seq<FileEntry>): (pngs: seq<FileEntry>)
    ensures forall e :: e in pngs <==> e in files && PngPattern(e.name)
  {
    if |files| == 0 then []
    else
      var last := files[|files| - 1];
      assert files == files[..|files| - 1] + [last];
      PngEntries(files[..|files| - 1]) + (if PngPattern(last.name) then [last] else [])
  }

  /**
   * PngEntries is the order-preserving filter: its k-th entry is the entry at index idx[k] of the
   * listing, the indices increase, and every matching index of the listing is among them.
   */
  lemma {:induction false} PngEntriesInOrder(files: seq<FileEntry>) returns (idx: seq<nat>)
    ensures InOrder(files, PngEntries(files), idx)
  {
    if |files| == 0 {
      idx := [];
    } else {
      var n := |files| - 1;
      var before := PngEntriesInOrder(files[..n]);
      if PngPattern(files[n].name) {
        assert PngEntries(files) == PngEntries(files[..n]) + [files[n]];
        InOrderAppend(files, PngEntries(files[..n]), before);
        idx := before + [n];
      } else {
        assert PngEntries(files) == PngEntries(files[..n]);
        InOrderSkip(files, PngEntries(files[..n]), before);
        idx := before;
      }
    }
  }

  /**
   * idx lists the positions in files of the entries of pngs: entry k of pngs is entry idx[k] of
   * the listing, the indices increase, and every index whose name matches the pattern is one.
   */
  ghost predicate InOrder(files: seq<FileEntry>, pngs: seq<FileEntry>, idx: seq<nat>)
  {
    && |idx| == |pngs|
    && (forall k :: 0 <= k < |idx| ==> idx[k] < |files| && pngs[k] == files[idx[k]])
    && (forall k, l :: 0 <= k < l < |idx| ==> idx[k] < idx[l])
    && (forall m :: 0 <= m < |files| && PngPattern(files[m].name) ==> m in idx)
  }

  /** A last entry that matches the pattern is appended, at its own index. */
  lemma InOrderAppend(files: seq<FileEntry>, earlier: seq<FileEntry>, before: seq<nat>)
    requires |files| > 0 && InOrder(files[..|files| - 1], earlier, before)
    requires PngPattern(files[|files| - 1].name)
    ensures InOrder(files, earlier + [files[|files| - 1]], before + [|files| - 1])
  {
    var front := files[..|files| - 1];
    forall k | 0 <= k < |before|
      ensures files[before[k]] == front[before[k]]
    {
    }
    forall m | 0 <= m < |front| && PngPattern(files[m].name)
      ensures m in before
    {
      assert front[m] == files[m];
    }
  }

  /** A last entry that does not match the pattern leaves the filter as it was. */
  lemma InOrderSkip(files: seq<FileEntry>, earlier: seq<FileEntry>, before: seq<nat>)
    requires |files| > 0 && InOrder(files[..|files| - 1], earlier, before)
    requires !PngPattern(files[|files| - 1].name)
    ensures InOrder(files, earlier, before)
  {
    var front := files[..|files| - 1];
    forall k | 0 <= k < |before|
      ensures files[before[k]] == front[before[k]]
    {
    }
    forall m | 0 <= m < |files| && PngPattern(files[m].name)
      ensures m in before
    {
      assert front[m] == files[m];
    }
  }

  /** The loading foreach: every entry decoded in order, or the name of the first that is not. */
  function LoadAll(entries: seq<FileEntry>): (r: Result<seq<(string, Bitmap)>, string>)
    ensures r.Success? ==> |r.value| == |entries|
    ensures r.Success? ==> forall k :: 0 <= k < |entries| ==>
              r.value[k].0 == entries[k].name && entries[k].content == ImageData(r.value[k].1)
              && WellFormed(r.value[k].1)
    ensures r.Failure? <==> exists k :: 0 <= k < |entries| && Decode(entries[k].content).None?
  {
    if |entries| == 0 then Success([])
    else
      var last := entries[|entries| - 1];
      match LoadAll(entries[..|entries| - 1])
      case Failure(name) => Failure(name)
      case Success(images) =>
        match Decode(last.content)
        case None => Failure(last.name)
        case Some(b) => Success(images + [(last.name, b)])
  }

  /** What the packer reads of each loaded image. */
  function Sizes(images: seq<(string, Bitmap)>): (sizes: seq<SpriteSize>)
    ensures |sizes| == |images|
    ensures forall k :: 0 <= k < |images| ==>
              sizes[k] == SpriteSize(images[k].0, images[k].1.width, images[k].1.height)
  {
    seq(|images|, k requires 0 <= k < |images| => SpriteSize(images[k].0, images[k].1.width, images[k].1.height))
  }

  /** The DrawImage calls of the compositing foreach: each image at the corner of its entry. */
  function LayersOf(images: seq<(string, Bitmap)>, spriteMap: map<string, SpriteRect>): (layers: seq<Layer>)
    requires forall k :: 0 <= k < |images| ==> images[k].0 in spriteMap
    ensures |layers| == |images|
    ensures forall k :: 0 <= k < |images| ==>
              layers[k] == Layer(images[k].1, spriteMap[images[k].0].x, spriteMap[images[k].0].y)
  {
    seq(|images|, k requires 0 <= k < |images| =>
      Layer(images[k].1, spriteMap[images[k].0].x, spriteMap[images[k].0].y))
  }

  predicate AllWellFormed(images: seq<(string, Bitmap)>)
  {
    forall k :: 0 <= k < |images| ==> WellFormed(images[k].1)
  }

  /** A successful packing of loaded images has an entry for each image's name and for no other name. */
  lemma PackedNames(images: seq<(string, Bitmap)>, padding: int)
    requires Pack(Sizes(images), padding, MaxAtlasWidth).Success?
    ensures forall k :: 0 <= k < |images| ==> images[k].0 in Pack(Sizes(images), padding, MaxAtlasWidth).value.positions
    ensures forall name :: name in Pack(Sizes(images), padding, MaxAtlasWidth).value.positions ==>
              exists k :: 0 <= k < |images| && images[k].0 == name
  {
    var sizes := Sizes(images);
    PackKeys(sizes, padding, MaxAtlasWidth);
    var positions := Pack(sizes, padding, MaxAtlasWidth).value.positions;
    forall k | 0 <= k < |images|
      ensures images[k].0 in positions
    {
      assert sizes[k].name == images[k].0;
    }
    forall name | name in positions
      ensures exists k :: 0 <= k < |images| && images[k].0 == name
    {
      var k :| 0 <= k < |sizes| && sizes[k].name == name;
      assert images[k].0 == name;
    }
  }

  /** The specification of StitchAtlas, check by check. */
  function StitchSpec(files: seq<FileEntry>, outputDirectory: string, padding: int, atlasName: string)
    : (r: StitchOutcome)
    ensures !EndsWith(atlasName, PngSuffix) ==> r == StitchRefused(StitchBadName)
    ensures EndsWith(atlasName, PngSuffix) && |files| == 0 ==> r == StitchRefused(NoFiles)
    ensures r.Stitched? ==> WellFormed(r.atlas) && r.metadata.image == r.atlasPath
    ensures r.Stitched? ==> r.atlasPath == CombinePath(outputDirectory, atlasName)
                            && r.jsonPath == CombinePath(outputDirectory, JsonName(atlasName))
    ensures EndsWith(atlasName, PngSuffix) && |files| > 0 && LoadAll(PngEntries(files)).Failure? ==>
              r == StitchCrashed(Undecodable(LoadAll(PngEntries(files)).error))
    ensures EndsWith(atlasName, PngSuffix) && |files| > 0 && LoadAll(PngEntries(files)).Success? ==>
              var packed := Pack(Sizes(LoadAll(PngEntries(files)).value), padding, MaxAtlasWidth);
              && (packed.Failure? ==> r == StitchCrashed(PackFailed(packed.error)))
              && (packed.Success? && (packed.value.atlasWidth <= 0 || packed.value.atlasHeight <= 0) ==>
                    r == StitchCrashed(EmptyCanvas))
              && (packed.Success? && packed.value.atlasWidth > 0 && packed.value.atlasHeight > 0 ==>
                    && r.Stitched?
                    && r.atlas.width == packed.value.atlasWidth && r.atlas.height == packed.value.atlasHeight
                    && r.metadata.sprites == Some(packed.value.positions))
  {
    if !EndsWith(atlasName, PngSuffix) then StitchRefused(StitchBadName)
    else if |files| == 0 then StitchRefused(NoFiles)
    else
      match LoadAll(PngEntries(files))
      case Failure(name) => StitchCrashed(Undecodable(name))
      case Success(images) =>
        match Pack(Sizes(images), padding, MaxAtlasWidth)
        case Failure(e) => StitchCrashed(PackFailed(e))
        case Success(packing) =>
          if packing.atlasWidth <= 0 || packing.atlasHeight <= 0 then StitchCrashed(EmptyCanvas)
          else
            PackedNames(images, padding);
            var atlas := Composite(Blank(packing.atlasWidth, packing.atlasHeight), LayersOf(images, packing.positions));
            var atlasPath := CombinePath(outputDirectory, atlasName);
            Stitched(atlasPath, atlas, CombinePath(outputDirectory, JsonName(atlasName)),
                     AtlasMetadata(atlasPath, Some(packing.positions)))
  }

  /**
   * AtlasHandler.StitchAtlas over the listing of the input directory. The atlas and the metadata
   * document it writes are returned with the paths they are written to.
   */
  method StitchAtlas(files: seq<FileEntry>, outputDirectory: string, padding: int, atlasName: string)
    returns (outcome: StitchOutcome, didJob: bool)
    ensures outcome == StitchSpec(files, outputDirectory, padding, atlasName)
    ensures didJob <==> outcome.Stitched?
  {
    if !EndsWith(atlasName, PngSuffix) {
      return StitchRefused(StitchBadName), false;
    }
    if |files| == 0 {
      return StitchRefused(NoFiles), false;
    }

    var imagePaths := PngEntries(files);
    var loaded := LoadImages(imagePaths);
    if loaded.Failure? {
      return StitchCrashed(Undecodable(loaded.error)), false;
    }
    var images := loaded.value;

    var packed := PackSprites(Sizes(images), padding, MaxAtlasWidth);
    if packed.Failure? {
      return StitchCrashed(PackFailed(packed.error)), false;
    }
    var spriteMap, atlasWidth, atlasHeight := packed.value.positions, packed.value.atlasWidth, packed.value.atlasHeight;
    if atlasWidth <= 0 || atlasHeight <= 0 {
      return StitchCrashed(EmptyCanvas), false;
    }
    PackedNames(images, padding);
    var atlas := DrawSprites(Blank(atlasWidth, atlasHeight), images, spriteMap);

    var atlasPath := CombinePath(outputDirectory, atlasName);
    var jsonPath := CombinePath(outputDirectory, JsonName(atlasName));
    return Stitched(atlasPath, atlas, jsonPath, AtlasMetadata(atlasPath, Some(spriteMap))), true;
  }

  /** The loading foreach of AtlasHandler.cs:34-47; the first image that does not decode rethrows. */
  method LoadImages(imagePaths: seq<FileEntry>) returns (r: Result<seq<(string, Bitmap)>, string>)
    ensures r == LoadAll(imagePaths)
  {
    var images: seq<(string, Bitmap)> := [];
    for i := 0 to |imagePaths|
      invariant LoadAll(imagePaths[..i]) == Success(images)
    {
      assert imagePaths[..i + 1][..i] == imagePaths[..i];
      var bmp := Decode(imagePaths[i].content);
      if bmp.None? {
        assert LoadAll(imagePaths[..i + 1]) == Failure(imagePaths[i].name);
        LoadStops(imagePaths, i + 1);
        return Failure(imagePaths[i].name);
      }
      images := images + [(imagePaths[i].name, bmp.value)];
    }
    assert imagePaths[..|imagePaths|] == imagePaths;
    return Success(images);
  }

  /** The compositing foreach of AtlasHandler.cs:56-60: each image drawn at its entry's corner. */
  method DrawSprites(canvas: Bitmap, images: seq<(string, Bitmap)>, spriteMap: map<string, SpriteRect>)
    returns (atlas: Bitmap)
    requires WellFormed(canvas) && AllWellFormed(images)
    requires forall k :: 0 <= k < |images| ==> images[k].0 in spriteMap
    ensures atlas == Composite(canvas, LayersOf(images, spriteMap))
  {
    atlas := canvas;
    ghost var layers := LayersOf(images, spriteMap);
    for k := 0 to |images|
      invariant atlas == Composite(canvas, layers[..k])
    {
      var rect := spriteMap[images[k].0];
      assert layers[..k + 1][..k] == layers[..k];
      atlas := Draw(atlas, images[k].1, rect.x, rect.y);
    }
    assert layers[..|images|] == layers;
  }

  /** Once a prefix fails to load, the whole listing fails with the same name. */
  lemma {:induction false} LoadStops(entries: seq<FileEntry>, n: nat)
    requires n <= |entries| && LoadAll(entries[..n]).Failure?
    ensures LoadAll(entries) == LoadAll(entries[..n])
    decreases |entries| - n
  {
    if n < |entries| {
      assert entries[..n + 1][..n] == entries[..n];
      LoadStops(entries, n + 1);
    } else {
      assert entries[..n] == entries;
    }
  }

  // ---------------------------------------------------------------------------------------------
  // UnstitchAtlas (AtlasHandler.cs:87-195)

  /** Why UnstitchAtlas returns with didJob = false, in the order of its checks. */
  datatype UnstitchRefusal = UnstitchBadName | MetadataMissing | MetadataInvalid | NoSprites | AtlasMissing

  /** The exceptions that escape UnstitchAtlas. */
  datatype UnstitchCrash = UnreadableMetadata | UnreadableAtlas | RectOutsideAtlas

  /** The early-return checks of AtlasHandler.cs:90-134 and what they hand on. */
  datatype UnstitchCheck =
    | Proceed(sprites: map<string, SpriteRect>, atlas: Bitmap)
    | Refuse(refusal: UnstitchRefusal)
    | Crash(crash: UnstitchCrash)

  /** `Path.Combine(inputDirectory, atlasName.Replace(".png", ".json"))`: where the metadata is read. */
  function MetadataPath(inputDirectory: string, atlasName: string): string
  {
    CombinePath(inputDirectory, JsonName(atlasName))
  }

  /** `Path.Combine(inputDirectory, atlasName)`: where the atlas image is read. */
  function AtlasImagePath(inputDirectory: string, atlasName: string): string
  {
    CombinePath(inputDirectory, atlasName)
  }

  /**
   * For an atlas name that passes the suffix test, the metadata path and the atlas path name two
   * different files, in any directory: one ends in 'n', the other in 'g'.
   */
  lemma MetadataBesideAtlas(inputDirectory: string, atlasName: string)
    requires EndsWith(atlasName, PngSuffix)
    ensures MetadataPath(inputDirectory, atlasName) != AtlasImagePath(inputDirectory, atlasName)
  {
    JsonNameOfPng(atlasName);
    var jsonName := JsonName(atlasName);
    var jsonPath, atlasPath := MetadataPath(inputDirectory, atlasName), AtlasImagePath(inputDirectory, atlasName);
    assert jsonPath[|jsonPath| - 1] == jsonName[|jsonName| - 1] == 'n';
    assert atlasPath[|atlasPath| - 1] == atlasName[|atlasName| - 1] == 'g';
  }

  /**
   * What `Deserialize<AtlasMetadata>` gives back for the document StitchAtlas writes. The file
   * holds the camel-case keys "image" and "sprites". Property names match case-sensitively, so
   * `sprites` is read and `Image` keeps its initial "".
   */
  function ReadBack(written: AtlasMetadata): AtlasMetadata
  {
    written.(image := "")
  }

  /** `metadata?.sprites`: the sprite dictionary of a document that is not null. */
  function SpritesOf(document: Option<AtlasMetadata>): Option<map<string, SpriteRect>>
  {
    if document.Some? then document.value.sprites else None
  }

  /**
   * The checks of UnstitchAtlas in source order over the file system: the name suffix, the
   * metadata file, a document with a sprites map, a non-empty map, the atlas file. Reading
   * metadata that is not JSON for AtlasMetadata, or an atlas that does not decode, throws. Each
   * outcome is stated under the condition that every earlier check passed.
   */
  function CheckUnstitch(fs: map<string, FileContent>, inputDirectory: string, atlasName: string): (r: UnstitchCheck)
    ensures !EndsWith(atlasName, PngSuffix) ==> r == Refuse(UnstitchBadName)
    ensures EndsWith(atlasName, PngSuffix) && MetadataPath(inputDirectory, atlasName) !in fs ==> r == Refuse(MetadataMissing)
    ensures EndsWith(atlasName, PngSuffix) && MetadataPath(inputDirectory, atlasName) in fs ==>
              var content := fs[MetadataPath(inputDirectory, atlasName)];
              && (!content.JsonData? ==> r == Crash(UnreadableMetadata))
              && (content.JsonData? && SpritesOf(content.document).None? ==> r == Refuse(MetadataInvalid))
              && (content.JsonData? && SpritesOf(content.document).Some? ==>
                    var sprites := SpritesOf(content.document).value;
                    var atlasPath := AtlasImagePath(inputDirectory, atlasName);
                    && (|sprites| == 0 ==> r == Refuse(NoSprites))
                    && (|sprites| > 0 && atlasPath !in fs ==> r == Refuse(AtlasMissing))
                    && (|sprites| > 0 && atlasPath in fs && Decode(fs[atlasPath]).None? ==> r == Crash(UnreadableAtlas))
                    && (|sprites| > 0 && atlasPath in fs && Decode(fs[atlasPath]).Some? ==>
                          r == Proceed(sprites, Decode(fs[atlasPath]).value)))
    ensures r.Proceed? ==>
              var jsonPath := MetadataPath(inputDirectory, atlasName);
              var atlasPath := AtlasImagePath(inputDirectory, atlasName);
              && |r.sprites| > 0 && WellFormed(r.atlas)
              && atlasPath in fs && fs[atlasPath] == ImageData(r.atlas)
              && jsonPath in fs && fs[jsonPath].JsonData? && SpritesOf(fs[jsonPath].document) == Some(r.sprites)
  {
    if !EndsWith(atlasName, PngSuffix) then Refuse(UnstitchBadName)
    else
      var jsonPath := MetadataPath(inputDirectory, atlasName);
      if jsonPath !in fs then Refuse(MetadataMissing)
      else if !fs[jsonPath].JsonData? then Crash(UnreadableMetadata)
      else
        var sprites := SpritesOf(fs[jsonPath].document);
        if sprites.None? then Refuse(MetadataInvalid)
        else if |sprites.value| == 0 then Refuse(NoSprites)
        else
          var atlasPath := AtlasImagePath(inputDirectory, atlasName);
          if atlasPath !in fs then Refuse(AtlasMissing)
          else
            match Decode(fs[atlasPath])
            case None => Crash(UnreadableAtlas)
            case Some(atlas) => Proceed(sprites.value, atlas)
  }

  /**
   * The extraction foreach: None when some stored rect does not fit the atlas (Clone throws
   * outside the try), otherwise every sprite cut out of the atlas, except those whose save fails.
   */
  function ExtractAll(sprites: map<string, SpriteRect>, atlas: Bitmap, saveFails: set<string>)
    : (r: Option<map<string, Bitmap>>)
    requires WellFormed(atlas)
    ensures r.None? <==> exists name :: name in sprites && !FitsIn(atlas, ToRectangle(sprites[name]))
    ensures r.Some? ==> r.value.Keys == sprites.Keys - saveFails
    ensures r.Some? ==> forall name :: name in r.value ==> r.value[name] == Crop(atlas, ToRectangle(sprites[name]))
  {
    if exists name :: name in sprites && !FitsIn(atlas, ToRectangle(sprites[name])) then None
    else Some(map name | name in sprites.Keys - saveFails :: Crop(atlas, ToRectangle(sprites[name])))
  }

  /** The key a Console.ReadKey call reports, as far as the prompt distinguishes keys. */
  datatype ConsoleKey = KeyY | KeyN | OtherKey

  /** The index of the first Y or N among the keys pressed at the prompt. */
  function FirstAnswer(keys: seq<ConsoleKey>): (r: Option<nat>)
    ensures r.Some? ==> r.value < |keys| && keys[r.value] != OtherKey
    ensures r.Some? ==> forall j :: 0 <= j < r.value ==> keys[j] == OtherKey
    ensures r.None? ==> forall j :: 0 <= j < |keys| ==> keys[j] == OtherKey
  {
    if |keys| == 0 then None
    else if keys[0] != OtherKey then Some(0)
    else match FirstAnswer(keys[1..])
      case None => None
      case Some(i) => Some(i + 1)
  }

  /**
   * The `while (!answered)` prompt over the keys pressed: keys other than Y and N are ignored,
   * the first Y or N ends the loop, and only Y asks for deletion. When the keys run out first the
   * loop is still waiting (answered is false).
   */
  method PromptDelete(keys: seq<ConsoleKey>) returns (answered: bool, shouldDelete: bool, pressed: nat)
    ensures answered <==> FirstAnswer(keys).Some?
    ensures answered ==> pressed == FirstAnswer(keys).value + 1
    ensures !answered ==> pressed == |keys|
    ensures shouldDelete <==> answered && keys[FirstAnswer(keys).value] == KeyY
  {
    answered, shouldDelete, pressed := false, false, 0;
    while !answered && pressed < |keys|
      invariant pressed <= |keys|
      invariant !answered ==> forall j :: 0 <= j < pressed ==> keys[j] == OtherKey
      invariant answered ==> (0 < pressed && keys[pressed - 1] != OtherKey
                              && forall j :: 0 <= j < pressed - 1 ==> keys[j] == OtherKey)
      invariant shouldDelete <==> answered && keys[pressed - 1] == KeyY
      decreases |keys| - pressed, !answered
    {
      var response := keys[pressed];
      pressed := pressed + 1;
      match response
      case KeyY =>
        answered := true;
        shouldDelete := true;
      case KeyN =>
        answered := true;
      case OtherKey =>
    }
    FirstAnswerAt(keys, pressed, answered);
  }

  /** FirstAnswer is determined by which keys before an index are Y or N. */
  lemma FirstAnswerAt(keys: seq<ConsoleKey>, pressed: nat, answered: bool)
    requires pressed <= |keys|
    requires !answered ==> pressed == |keys| && forall j :: 0 <= j < pressed ==> keys[j] == OtherKey
    requires answered ==> (0 < pressed && keys[pressed - 1] != OtherKey
                           && forall j :: 0 <= j < pressed - 1 ==> keys[j] == OtherKey)
    ensures answered <==> FirstAnswer(keys).Some?
    ensures answered ==> FirstAnswer(keys).value == pressed - 1
  {
  }

  /** Which of the two File.Delete calls throws, if any; an exception skips the rest of the try. */
  datatype DeleteFault = NoFault | AtlasDeleteFails | JsonDeleteFails

  /** The file system after the delete block of AtlasHandler.cs:178-191. */
  function AfterDelete(fs: map<string, FileContent>, atlasPath: string, jsonPath: string, fault: DeleteFault)
    : (r: map<string, FileContent>)
    ensures fault == NoFault ==> atlasPath !in r && jsonPath !in r
    ensures fault == JsonDeleteFails ==> atlasPath !in r && (jsonPath != atlasPath && jsonPath in fs ==> jsonPath in r)
    ensures fault == AtlasDeleteFails ==> r == fs
    ensures forall path :: path in r ==> path in fs && r[path] == fs[path]
    ensures forall path :: path in fs && path != atlasPath && path != jsonPath ==> path in r
  {
    match fault
    case NoFault => fs - {atlasPath, jsonPath}
    case AtlasDeleteFails => fs
    case JsonDeleteFails => fs - {atlasPath}
  }

  datatype UnstitchOutcome =
    | UnstitchRefused(refusal: UnstitchRefusal)
    | UnstitchCrashed(crash: UnstitchCrash)
    | AwaitingAnswer(extracted: map<string, Bitmap>)
    | Unstitched(extracted: map<string, Bitmap>, fs: map<string, FileContent>)

  /**
   * The specification of UnstitchAtlas: the checks, the extraction, the prompt and the delete
   * block, over the file system, the sprites whose save fails, the keys pressed and the delete
   * fault.
   */
  function UnstitchSpec(fs: map<string, FileContent>, inputDirectory: string, atlasName: string,
                        saveFails: set<string>, keys: seq<ConsoleKey>, fault: DeleteFault): (r: UnstitchOutcome)
    ensures r.Unstitched? ==> FirstAnswer(keys).Some?
    ensures r.Unstitched? && keys[FirstAnswer(keys).value] == KeyN ==> r.fs == fs
    ensures CheckUnstitch(fs, inputDirectory, atlasName).Refuse? ==>
              r == UnstitchRefused(CheckUnstitch(fs, inputDirectory, atlasName).refusal)
    ensures CheckUnstitch(fs, inputDirectory, atlasName).Crash? ==>
              r == UnstitchCrashed(CheckUnstitch(fs, inputDirectory, atlasName).crash)
    ensures CheckUnstitch(fs, inputDirectory, atlasName).Proceed? ==>
              var check := CheckUnstitch(fs, inputDirectory, atlasName);
              var extraction := ExtractAll(check.sprites, check.atlas, saveFails);
              && (extraction.None? ==> r == UnstitchCrashed(RectOutsideAtlas))
              && (extraction.Some? && FirstAnswer(keys).None? ==> r == AwaitingAnswer(extraction.value))
              && (extraction.Some? && FirstAnswer(keys).Some? ==>
                    && r.Unstitched? && r.extracted == extraction.value
                    && (keys[FirstAnswer(keys).value] == KeyY ==>
                          r.fs == AfterDelete(fs, AtlasImagePath(inputDirectory, atlasName),
                                              MetadataPath(inputDirectory, atlasName), fault)))
  {
    match CheckUnstitch(fs, inputDirectory, atlasName)
    case Refuse(why) => UnstitchRefused(why)
    case Crash(why) => UnstitchCrashed(why)
    case Proceed(sprites, atlas) =>
      match ExtractAll(sprites, atlas, saveFails)
      case None => UnstitchCrashed(RectOutsideAtlas)
      case Some(extracted) =>
        match FirstAnswer(keys)
        case None => AwaitingAnswer(extracted)
        case Some(i) =>
          Unstitched(extracted,
                     if keys[i] == KeyY
                     then AfterDelete(fs, AtlasImagePath(inputDirectory, atlasName), MetadataPath(inputDirectory, atlasName), fault)
                     else fs)
  }

  /**
   * AtlasHandler.UnstitchAtlas over the file system. The sprite dictionary is walked in an
   * unspecified order. The extracted sprites and the file system after the delete block are
   * returned.
   */
  method UnstitchAtlas(fs: map<string, FileContent>, inputDirectory: string, atlasName: string,
                       saveFails: set<string>, keys: seq<ConsoleKey>, fault: DeleteFault)
    returns (outcome: UnstitchOutcome, didJob: bool)
    ensures outcome == UnstitchSpec(fs, inputDirectory, atlasName, saveFails, keys, fault)
    ensures didJob <==> outcome.Unstitched?
  {
    var check := CheckUnstitch(fs, inputDirectory, atlasName);
    if check.Refuse? {
      return UnstitchRefused(check.refusal), false;
    }
    if check.Crash? {
      return UnstitchCrashed(check.crash), false;
    }
    var extraction := ExtractSprites(check.sprites, check.atlas, saveFails);
    if extraction.None? {
      return UnstitchCrashed(RectOutsideAtlas), false;
    }
    var extracted := extraction.value;

    var answered, shouldDelete, pressed := PromptDelete(keys);
    if !answered {
      return AwaitingAnswer(extracted), false;
    }
    var after := fs;
    if shouldDelete {
      after := AfterDelete(fs, AtlasImagePath(inputDirectory, atlasName), MetadataPath(inputDirectory, atlasName), fault);
    }
    return Unstitched(extracted, after), true;
  }

  /**
   * The extraction foreach of AtlasHandler.cs:139-150, visiting the sprites in an unspecified
   * order: a rect outside the atlas throws, a sprite whose save fails is left out.
   */
  method ExtractSprites(sprites: map<string, SpriteRect>, atlas: Bitmap, saveFails: set<string>)
    returns (r: Option<map<string, Bitmap>>)
    requires WellFormed(atlas)
    ensures r == ExtractAll(sprites, atlas, saveFails)
  {
    var remaining := sprites.Keys;
    var extracted: map<string, Bitmap> := map[];
    while remaining != {}
      invariant remaining <= sprites.Keys
      invariant forall name :: name in sprites.Keys - remaining ==> FitsIn(atlas, ToRectangle(sprites[name]))
      invariant extracted == map name | name in (sprites.Keys - remaining) - saveFails
                                        :: Crop(atlas, ToRectangle(sprites[name]))
      decreases remaining
    {
      var name :| name in remaining;
      var rect := ToRectangle(sprites[name]);
      if !FitsIn(atlas, rect) {
        return None;
      }
      var sprite := Crop(atlas, rect);
      if name !in saveFails {
        extracted := extracted[name := sprite];
      }
      remaining := remaining - {name};
    }
    assert sprites.Keys - remaining == sprites.Keys;
    return Some(extracted);
  }
}
