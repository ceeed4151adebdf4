/**
 * AtlasPacker.PackSprites: the skyline packer. The skyline is a list of (X, Y) segments that starts
 * as [(0, 0)]; each sprite, in input order, is placed at the best skyline segment, its placement is
 * recorded, the skyline is rebuilt and the canvas size grows.
 *
 * The method PackSprites follows the source's loops; the function Pack, a fold of Place over the
 * sprites, is its specification, and the lemmas below are about Pack.
 */
module AtlasPacker {
  import opened Wrappers
  import opened AtlasRecords

  /** What the packer reads of a sprite: its file name and the bitmap's Width and Height. */
  datatype SpriteSize = SpriteSize(name: string, width: int, height: int)

  /** One skyline entry: a start X and the occupied height from there on. */
  datatype Segment = Segment(x: int, y: int)

  /** The exception thrown when no skyline segment leaves room for a sprite. */
  datatype PackError = TooWide(name: string)

  /** The packer's locals between two sprites. */
  datatype PackState = PackState(positions: map<string, SpriteRect>, skyline: seq<Segment>,
                                 atlasWidth: int, atlasHeight: int)

  /** What PackSprites hands back: the placement dictionary and the two out-parameters. */
  datatype Packing = Packing(positions: map<string, SpriteRect>, atlasWidth: int, atlasHeight: int)

  const InitialState := PackState(map[], [Segment(0, 0)], 0, 0)

  function Max(a: int, b: int): int { if a < b then b else a }

  /** `padding / 2` with C#'s integer division, which truncates toward zero. */
  function Half(padding: int): (h: int)
    ensures padding >= 0 ==> 0 <= h && h + h <= padding
    ensures padding < 0 ==> padding <= h + h && h <= 0
  {
    if padding >= 0 then padding / 2 else -((-padding) / 2)
  }

  /** Every sprite a bitmap can describe has a positive size. */
  ghost predicate ValidSizes(images: seq<SpriteSize>)
  {
    forall k :: 0 <= k < |images| ==> images[k].width > 0 && images[k].height > 0
  }

  // ---------------------------------------------------------------------------------------------
  // The scan for the best skyline segment (AtlasPacker.cs:21-44)

  /** The inner while loop: the running maximum of maxY over the segments from j on that start before endX. */
  function RunTop(sky: seq<Segment>, j: nat, endX: int, maxY: int): (top: int)
    ensures top >= maxY
    decreases |sky| - j
  {
    if j < |sky| && sky[j].x < endX then RunTop(sky, j + 1, endX, Max(maxY, sky[j].y)) else maxY
  }

  /** The height a sprite of padded width w would sit at if its left edge were segment i. */
  function Top(sky: seq<Segment>, i: nat, w: int): int
    requires i < |sky|
  {
    RunTop(sky, i + 1, sky[i].x + w, sky[i].y)
  }

  /** The width test that skips a segment. */
  predicate Feasible(sky: seq<Segment>, i: nat, w: int, maxAtlasWidth: int)
    requires i < |sky|
  {
    sky[i].x + w <= maxAtlasWidth
  }

  /** One iteration of the for loop over the skyline; None stands for (bestX, bestY) = (-1, int.MaxValue). */
  function Consider(best: Option<Segment>, sky: seq<Segment>, i: nat, w: int, h: int,
                    maxAtlasWidth: int): Option<Segment>
    requires i < |sky|
  {
    if !Feasible(sky, i, w, maxAtlasWidth) then best
    else if best.Some? && Top(sky, i, w) + h >= best.value.y then best
    else Some(Segment(sky[i].x, Top(sky, i, w)))
  }

  /** The best candidate after the for loop has looked at sky[..n]. */
  function ScanUpTo(sky: seq<Segment>, n: nat, w: int, h: int, maxAtlasWidth: int): Option<Segment>
    requires n <= |sky|
  {
    if n == 0 then None
    else Consider(ScanUpTo(sky, n - 1, w, h, maxAtlasWidth), sky, n - 1, w, h, maxAtlasWidth)
  }

  // ---------------------------------------------------------------------------------------------
  // The skyline rebuild (AtlasPacker.cs:57-65)

  predicate SortedByX(s: seq<Segment>)
  {
    forall i, j :: 0 <= i < j < |s| ==> s[i].x <= s[j].x
  }

  /** `Where(s => s.X < lo || s.X > hi)`. */
  function KeepOutside(s: seq<Segment>, lo: int, hi: int): (r: seq<Segment>)
    ensures |r| <= |s|
    ensures forall i :: 0 <= i < |r| ==> r[i] in s && (r[i].x < lo || r[i].x > hi)
  {
    if |s| == 0 then []
    else
      var rest := KeepOutside(s[..|s| - 1], lo, hi);
      var last := s[|s| - 1];
      assert s == s[..|s| - 1] + [last];
      if last.x < lo || last.x > hi then rest + [last] else rest
  }

  /** The filter keeps every outside segment as often as it occurs, and nothing else. */
  lemma {:induction false} KeepOutsideCounts(s: seq<Segment>, lo: int, hi: int, e: Segment)
    ensures multiset(KeepOutside(s, lo, hi))[e] == if e.x < lo || e.x > hi then multiset(s)[e] else 0
  {
    if |s| > 0 {
      var last := s[|s| - 1];
      assert s == s[..|s| - 1] + [last];
      KeepOutsideCounts(s[..|s| - 1], lo, hi, e);
    }
  }

  /** Stable insertion into a list sorted by X: after every segment whose X is not larger. */
  function InsertByX(sorted: seq<Segment>, seg: Segment): seq<Segment>
  {
    if |sorted| == 0 then [seg]
    else if sorted[|sorted| - 1].x <= seg.x then sorted + [seg]
    else InsertByX(sorted[..|sorted| - 1], seg) + [sorted[|sorted| - 1]]
  }

  /** `OrderBy(s => s.X)`: a stable sort by X. */
  function OrderByX(s: seq<Segment>): seq<Segment>
  {
    if |s| == 0 then [] else InsertByX(OrderByX(s[..|s| - 1]), s[|s| - 1])
  }

  lemma {:induction false} InsertByXCounts(sorted: seq<Segment>, seg: Segment)
    ensures multiset(InsertByX(sorted, seg)) == multiset(sorted) + multiset{seg}
  {
    if |sorted| > 0 && seg.x < sorted[|sorted| - 1].x {
      var front := sorted[..|sorted| - 1];
      assert sorted == front + [sorted[|sorted| - 1]];
      InsertByXCounts(front, seg);
    }
  }

  lemma {:induction false} InsertByXBounded(sorted: seq<Segment>, seg: Segment, bound: int)
    requires forall i :: 0 <= i < |sorted| ==> sorted[i].x <= bound
    requires seg.x <= bound
    ensures forall i :: 0 <= i < |InsertByX(sorted, seg)| ==> InsertByX(sorted, seg)[i].x <= bound
  {
    if |sorted| > 0 && seg.x < sorted[|sorted| - 1].x {
      InsertByXBounded(sorted[..|sorted| - 1], seg, bound);
    }
  }

  lemma {:induction false} InsertByXSorts(sorted: seq<Segment>, seg: Segment)
    requires SortedByX(sorted)
    ensures SortedByX(InsertByX(sorted, seg))
  {
    if |sorted| > 0 && seg.x < sorted[|sorted| - 1].x {
      var last := sorted[|sorted| - 1];
      var front := sorted[..|sorted| - 1];
      InsertByXSorts(front, seg);
      InsertByXBounded(front, seg, last.x);
    }
  }

  /** OrderBy returns its input sorted by X and as a permutation of it. */
  lemma {:induction false} OrderByXSorts(s: seq<Segment>)
    ensures SortedByX(OrderByX(s))
    ensures multiset(OrderByX(s)) == multiset(s)
  {
    if |s| > 0 {
      assert s == s[..|s| - 1] + [s[|s| - 1]];
      OrderByXSorts(s[..|s| - 1]);
      InsertByXSorts(OrderByX(s[..|s| - 1]), s[|s| - 1]);
      InsertByXCounts(OrderByX(s[..|s| - 1]), s[|s| - 1]);
    }
  }

  /** The new skyline: add (insertX, insertY), drop what starts in [insertX, insertEnd], append (insertEnd, bestY), sort. */
  function Rebuild(sky: seq<Segment>, insertX: int, insertY: int, insertEnd: int, bestY: int): seq<Segment>
  {
    OrderByX(KeepOutside(sky + [Segment(insertX, insertY)], insertX, insertEnd) + [Segment(insertEnd, bestY)])
  }

  // ---------------------------------------------------------------------------------------------
  // One sprite and the whole run

  /** The state after sprite s is placed with its padded cell's corner at best (AtlasPacker.cs:49-68). */
  function Advance(st: PackState, s: SpriteSize, padding: int, best: Segment): PackState
  {
    PackState(
      st.positions[s.name := SpriteRect(best.x + Half(padding), best.y + Half(padding), s.width, s.height)],
      Rebuild(st.skyline, best.x, best.y + s.height + padding, best.x + s.width + padding, best.y),
      Max(st.atlasWidth, best.x + s.width + padding),
      Max(st.atlasHeight, best.y + s.height + padding))
  }

  /** bestX after the scan: the chosen segment's X, or the initial -1 when nothing was chosen. */
  function BestX(best: Option<Segment>): int
  {
    if best.Some? then best.value.x else -1
  }

  /** The body of the foreach for one sprite; the test for failure is the source's `bestX == -1`. */
  function Place(st: PackState, s: SpriteSize, padding: int, maxAtlasWidth: int): (r: Result<PackState, PackError>)
    ensures r.Failure? ==> r.error == TooWide(s.name)
    ensures r.Success? ==> r.value.positions.Keys == st.positions.Keys + {s.name}
                           && r.value.positions[s.name].width == s.width
                           && r.value.positions[s.name].height == s.height
                           && forall name :: name in st.positions && name != s.name ==>
                                r.value.positions[name] == st.positions[name]
    ensures r.Success? ==> r.value.atlasWidth >= st.atlasWidth && r.value.atlasHeight >= st.atlasHeight
  {
    var best := ScanUpTo(st.skyline, |st.skyline|, s.width + padding, s.height + padding, maxAtlasWidth);
    if BestX(best) == -1 then Failure(TooWide(s.name)) else Success(Advance(st, s, padding, best.value))
  }

  /** The foreach from sprite k on, starting in state st; the first failure ends the run. */
  function PackFrom(images: seq<SpriteSize>, padding: int, maxAtlasWidth: int, k: nat, st: PackState)
    : Result<PackState, PackError>
    requires k <= |images|
    decreases |images| - k
  {
    if k == |images| then Success(st)
    else
      match Place(st, images[k], padding, maxAtlasWidth)
      case Failure(e) => Failure(e)
      case Success(next) => PackFrom(images, padding, maxAtlasWidth, k + 1, next)
  }

  /** The specification of PackSprites. */
  function Pack(images: seq<SpriteSize>, padding: int, maxAtlasWidth: int): (r: Result<Packing, PackError>)
    ensures |images| == 0 ==> r == Success(Packing(map[], 0, 0))
  {
    match PackFrom(images, padding, maxAtlasWidth, 0, InitialState)
    case Failure(e) => Failure(e)
    case Success(st) => Success(Packing(st.positions, st.atlasWidth, st.atlasHeight))
  }

  /** The scan of AtlasPacker.cs:21-44 for one sprite of padded size w by h. */
  method FindBest(skyline: seq<Segment>, w: int, h: int, maxAtlasWidth: int) returns (best: Option<Segment>)
    ensures best == ScanUpTo(skyline, |skyline|, w, h, maxAtlasWidth)
  {
    best := None;
    for i := 0 to |skyline|
      invariant best == ScanUpTo(skyline, i, w, h, maxAtlasWidth)
    {
      var startX, startY := skyline[i].x, skyline[i].y;
      if startX + w > maxAtlasWidth {
        continue;
      }
      var maxY := startY;
      var j := i + 1;
      var endX := startX + w;
      while j < |skyline| && skyline[j].x < endX
        invariant i + 1 <= j <= |skyline|
        invariant RunTop(skyline, j, endX, maxY) == Top(skyline, i, w)
      {
        maxY := Max(maxY, skyline[j].y);
        j := j + 1;
      }
      if best.Some? && maxY + h >= best.value.y {
        continue;
      }
      best := Some(Segment(startX, maxY));
    }
  }

  /** One pass of the foreach body: the scan, the dictionary entry, the skyline rebuild and the two maxima. */
  method PlaceSprite(st: PackState, s: SpriteSize, padding: int, maxAtlasWidth: int)
    returns (r: Result<PackState, PackError>)
    ensures r == Place(st, s, padding, maxAtlasWidth)
  {
    var best := FindBest(st.skyline, s.width + padding, s.height + padding, maxAtlasWidth);
    var bestX := if best.Some? then best.value.x else -1;
    if bestX == -1 {
      return Failure(TooWide(s.name));
    }
    var bestY := best.value.y;
    var positions := st.positions[s.name := SpriteRect(bestX + Half(padding), bestY + Half(padding), s.width, s.height)];
    var insertX := bestX;
    var insertY := bestY + s.height + padding;
    var insertEnd := bestX + s.width + padding;
    var skyline := Rebuild(st.skyline, insertX, insertY, insertEnd, bestY);
    var atlasWidth := Max(st.atlasWidth, bestX + s.width + padding);
    var atlasHeight := Max(st.atlasHeight, bestY + s.height + padding);
    return Success(PackState(positions, skyline, atlasWidth, atlasHeight));
  }

  /** AtlasPacker.PackSprites, with the thrown exception as a Failure. */
  method PackSprites(images: seq<SpriteSize>, padding: int, maxAtlasWidth: int)
    returns (result: Result<Packing, PackError>)
    ensures result == Pack(images, padding, maxAtlasWidth)
  {
    var st := InitialState;
    for k := 0 to |images|
      invariant PackFrom(images, padding, maxAtlasWidth, 0, InitialState)
             == PackFrom(images, padding, maxAtlasWidth, k, st)
    {
      var r := PlaceSprite(st, images[k], padding, maxAtlasWidth);
      if r.Failure? {
        return Failure(r.error);
      }
      st := r.value;
    }
    return Success(Packing(st.positions, st.atlasWidth, st.atlasHeight));
  }
}
