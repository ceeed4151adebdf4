/**
 * Properties of the skyline scan and of one placement step: when the scan finds nothing, which
 * segment it picks (the strict comparison keeps the earlier segment on ties), what the rebuild
 * keeps and drops, and the bounds every placement respects.
 */
module PackerScan {
  import opened Wrappers
  import opened AtlasRecords
  import opened AtlasPacker

  // ---------------------------------------------------------------------------------------------
  // The scan

  /** The scan finds nothing exactly when no segment among the first n passes the width test. */
  lemma {:induction false} ScanNoneIff(sky: seq<Segment>, n: nat, w: int, h: int, m: int)
    requires n <= |sky|
    ensures ScanUpTo(sky, n, w, h, m).None? <==> forall i :: 0 <= i < n ==> !Feasible(sky, i, w, m)
  {
    if n > 0 {
      ScanNoneIff(sky, n - 1, w, h, m);
    }
  }

  /**
   * What the scan picks: some segment k that passes the width test, at the height Top(sky, k, w).
   * For a non-negative padded height h, every earlier segment that passes sits strictly higher and
   * no later one is lower by more than h; so a later segment of the same height never wins.
   */
  lemma {:induction false} ScanChoice(sky: seq<Segment>, n: nat, w: int, h: int, m: int) returns (k: nat)
    requires n <= |sky|
    requires ScanUpTo(sky, n, w, h, m).Some?
    ensures k < n && Feasible(sky, k, w, m)
    ensures ScanUpTo(sky, n, w, h, m) == Some(Segment(sky[k].x, Top(sky, k, w)))
    ensures sky[k].x + w <= m
    ensures h >= 0 ==> forall i :: 0 <= i < k && Feasible(sky, i, w, m) ==> Top(sky, i, w) > Top(sky, k, w)
    ensures h >= 0 ==> forall i :: k < i < n && Feasible(sky, i, w, m) ==> Top(sky, i, w) + h >= Top(sky, k, w)
  {
    var prev := ScanUpTo(sky, n - 1, w, h, m);
    if prev.None? {
      ScanNoneIff(sky, n - 1, w, h, m);
      k := n - 1;
    } else {
      var k' := ScanChoice(sky, n - 1, w, h, m);
      if ScanUpTo(sky, n, w, h, m) == prev {
        k := k';
      } else {
        k := n - 1;
        assert Top(sky, n - 1, w) + h < prev.value.y;
      }
    }
  }

  // ---------------------------------------------------------------------------------------------
  // The rebuild

  /**
   * How often a segment occurs in the rebuilt skyline: as often as in the old skyline plus the
   * inserted (insertX, insertY) when its X lies outside [insertX, insertEnd], never otherwise,
   * plus once more if it is the appended (insertEnd, bestY).
   */
  lemma RebuildCounts(sky: seq<Segment>, insertX: int, insertY: int, insertEnd: int, bestY: int, e: Segment)
    ensures multiset(Rebuild(sky, insertX, insertY, insertEnd, bestY))[e]
         == (if e.x < insertX || e.x > insertEnd then multiset(sky + [Segment(insertX, insertY)])[e] else 0)
          + (if e == Segment(insertEnd, bestY) then 1 else 0)
  {
    var kept := KeepOutside(sky + [Segment(insertX, insertY)], insertX, insertEnd);
    OrderByXSorts(kept + [Segment(insertEnd, bestY)]);
    KeepOutsideCounts(sky + [Segment(insertX, insertY)], insertX, insertEnd, e);
  }

  /**
   * The rebuilt skyline is sorted by X, holds the appended (insertEnd, bestY), keeps every old
   * segment whose X lies outside [insertX, insertEnd], and holds no other segment inside that range;
   * in particular the inserted (insertX, insertY) is gone again unless it is the appended segment.
   */
  lemma SkylineRebuild(sky: seq<Segment>, insertX: int, insertY: int, insertEnd: int, bestY: int)
    ensures SortedByX(Rebuild(sky, insertX, insertY, insertEnd, bestY))
    ensures Segment(insertEnd, bestY) in Rebuild(sky, insertX, insertY, insertEnd, bestY)
    ensures forall e :: e in sky && (e.x < insertX || e.x > insertEnd)
              ==> e in Rebuild(sky, insertX, insertY, insertEnd, bestY)
    ensures forall e :: e in Rebuild(sky, insertX, insertY, insertEnd, bestY) && insertX <= e.x <= insertEnd
              ==> e == Segment(insertEnd, bestY)
    ensures (insertX <= insertEnd && Segment(insertX, insertY) != Segment(insertEnd, bestY))
              ==> Segment(insertX, insertY) !in Rebuild(sky, insertX, insertY, insertEnd, bestY)
  {
    var r := Rebuild(sky, insertX, insertY, insertEnd, bestY);
    OrderByXSorts(KeepOutside(sky + [Segment(insertX, insertY)], insertX, insertEnd) + [Segment(insertEnd, bestY)]);
    RebuildCounts(sky, insertX, insertY, insertEnd, bestY, Segment(insertEnd, bestY));
    forall e | e in sky && (e.x < insertX || e.x > insertEnd)
      ensures e in r
    {
      RebuildCounts(sky, insertX, insertY, insertEnd, bestY, e);
    }
    forall e | e in r && insertX <= e.x <= insertEnd
      ensures e == Segment(insertEnd, bestY)
    {
      RebuildCounts(sky, insertX, insertY, insertEnd, bestY, e);
    }
  }

  // ---------------------------------------------------------------------------------------------
  // The bounds one placement keeps

  /** Every skyline segment starts at a non-negative X and height. */
  ghost predicate NonNegative(sky: seq<Segment>)
  {
    forall i :: 0 <= i < |sky| ==> sky[i].x >= 0 && sky[i].y >= 0
  }

  /**
   * What holds between two sprites when padding >= 0: the skyline is non-negative, the canvas width
   * is at most max(0, maxAtlasWidth), and each recorded rect, widened by the padding around it, lies
   * inside [0, atlasWidth) x [0, atlasHeight).
   */
  ghost predicate Bounded(st: PackState, padding: int, maxAtlasWidth: int)
  {
    && NonNegative(st.skyline)
    && 0 <= st.atlasWidth <= Max(0, maxAtlasWidth)
    && 0 <= st.atlasHeight
    && forall name :: name in st.positions ==>
         && Half(padding) <= st.positions[name].x
         && st.positions[name].x + st.positions[name].width + (padding - Half(padding)) <= st.atlasWidth
         && Half(padding) <= st.positions[name].y
         && st.positions[name].y + st.positions[name].height + (padding - Half(padding)) <= st.atlasHeight
  }

  /** A rebuild from non-negative parts gives a non-negative skyline. */
  lemma RebuildNonNegative(sky: seq<Segment>, insertX: int, insertY: int, insertEnd: int, bestY: int)
    requires NonNegative(sky) && insertX >= 0 && insertY >= 0 && insertEnd >= 0 && bestY >= 0
    ensures NonNegative(Rebuild(sky, insertX, insertY, insertEnd, bestY))
  {
    var r := Rebuild(sky, insertX, insertY, insertEnd, bestY);
    forall i | 0 <= i < |r|
      ensures r[i].x >= 0 && r[i].y >= 0
    {
      var e := r[i];
      RebuildCounts(sky, insertX, insertY, insertEnd, bestY, e);
      if e != Segment(insertEnd, bestY) {
        assert e in sky + [Segment(insertX, insertY)];
      }
    }
  }

  /**
   * Placing a sprite of positive size with padding >= 0 at a non-negative corner whose padded right
   * edge is within maxAtlasWidth keeps Bounded, never shrinks the canvas, records the sprite's own
   * size, and leaves every other name's rect as it was.
   */
  lemma AdvanceKeepsBounds(st: PackState, s: SpriteSize, padding: int, m: int, best: Segment)
    requires padding >= 0 && s.width > 0 && s.height > 0
    requires Bounded(st, padding, m)
    requires best.x >= 0 && best.y >= 0 && best.x + s.width + padding <= m
    ensures Bounded(Advance(st, s, padding, best), padding, m)
    ensures Advance(st, s, padding, best).atlasWidth >= st.atlasWidth
    ensures Advance(st, s, padding, best).atlasHeight >= st.atlasHeight
    ensures s.name in Advance(st, s, padding, best).positions
    ensures Advance(st, s, padding, best).positions[s.name]
         == SpriteRect(best.x + Half(padding), best.y + Half(padding), s.width, s.height)
    ensures forall name :: (name in st.positions && name != s.name)
              ==> (name in Advance(st, s, padding, best).positions
                   && Advance(st, s, padding, best).positions[name] == st.positions[name])
  {
    var w, h := s.width + padding, s.height + padding;
    RebuildNonNegative(st.skyline, best.x, best.y + h, best.x + w, best.y);
  }

  /** The sprite a successful Place puts down is Advance at a corner that passes the width test. */
  lemma PlaceAdvances(st: PackState, s: SpriteSize, padding: int, m: int) returns (best: Segment)
    requires Place(st, s, padding, m).Success?
    ensures best.x + s.width + padding <= m
    ensures NonNegative(st.skyline) ==> best.x >= 0 && best.y >= 0
    ensures Place(st, s, padding, m) == Success(Advance(st, s, padding, best))
  {
    var w, h := s.width + padding, s.height + padding;
    var k := ScanChoice(st.skyline, |st.skyline|, w, h, m);
    best := Segment(st.skyline[k].x, Top(st.skyline, k, w));
  }

  /** One successful placement with padding >= 0 keeps Bounded; see AdvanceKeepsBounds. */
  lemma PlaceKeepsBounds(st: PackState, s: SpriteSize, padding: int, m: int)
    requires padding >= 0 && s.width > 0 && s.height > 0
    requires Bounded(st, padding, m)
    requires Place(st, s, padding, m).Success?
    ensures Bounded(Place(st, s, padding, m).value, padding, m)
    ensures Place(st, s, padding, m).value.atlasWidth >= st.atlasWidth
    ensures Place(st, s, padding, m).value.atlasHeight >= st.atlasHeight
  {
    var best := PlaceAdvances(st, s, padding, m);
    AdvanceKeepsBounds(st, s, padding, m, best);
  }

  /**
   * On a skyline of non-negative segments, which is all a run with padding >= 0 produces, a sprite
   * fails to place exactly when no segment leaves room for its padded width: the `bestX == -1` test
   * then cannot be met by a chosen segment.
   */
  lemma PlaceFailsIff(st: PackState, s: SpriteSize, padding: int, m: int)
    requires NonNegative(st.skyline)
    ensures Place(st, s, padding, m).Failure?
        <==> forall i :: 0 <= i < |st.skyline| ==> st.skyline[i].x + s.width + padding > m
    ensures Place(st, s, padding, m).Failure? ==> Place(st, s, padding, m).error == TooWide(s.name)
  {
    var w, h := s.width + padding, s.height + padding;
    ScanNoneIff(st.skyline, |st.skyline|, w, h, m);
    if ScanUpTo(st.skyline, |st.skyline|, w, h, m).Some? {
      var k := ScanChoice(st.skyline, |st.skyline|, w, h, m);
      assert BestX(ScanUpTo(st.skyline, |st.skyline|, w, h, m)) == st.skyline[k].x >= 0;
      assert !(st.skyline[k].x + s.width + padding > m);
    } else {
      forall i | 0 <= i < |st.skyline|
        ensures st.skyline[i].x + s.width + padding > m
      {
        assert !Feasible(st.skyline, i, w, m);
      }
    }
  }

  /** The foreach from sprite k on keeps Bounded and never shrinks the canvas. */
  lemma {:induction false} PackFromBounded(images: seq<SpriteSize>, padding: int, m: int, k: nat, st: PackState)
    requires padding >= 0 && ValidSizes(images) && k <= |images|
    requires Bounded(st, padding, m)
    requires PackFrom(images, padding, m, k, st).Success?
    ensures Bounded(PackFrom(images, padding, m, k, st).value, padding, m)
    ensures PackFrom(images, padding, m, k, st).value.atlasWidth >= st.atlasWidth
    ensures PackFrom(images, padding, m, k, st).value.atlasHeight >= st.atlasHeight
    decreases |images| - k
  {
    if k < |images| {
      PlaceKeepsBounds(st, images[k], padding, m);
      PackFromBounded(images, padding, m, k + 1, Place(st, images[k], padding, m).value);
    }
  }

  /**
   * With padding >= 0 and sprites of positive size, a successful run places every rect inside the
   * canvas, with at least padding/2 of space on its top and left sides and padding - padding/2 on
   * its bottom and right sides, and the canvas is no wider than max(0, maxAtlasWidth).
   */
  lemma PackInside(images: seq<SpriteSize>, padding: int, m: int)
    requires padding >= 0 && ValidSizes(images)
    requires Pack(images, padding, m).Success?
    ensures 0 <= Pack(images, padding, m).value.atlasWidth <= Max(0, m)
    ensures 0 <= Pack(images, padding, m).value.atlasHeight
    ensures forall name :: name in Pack(images, padding, m).value.positions ==>
              var r := Pack(images, padding, m).value.positions[name];
              && Half(padding) <= r.x
              && r.x + r.width + (padding - Half(padding)) <= Pack(images, padding, m).value.atlasWidth
              && Half(padding) <= r.y
              && r.y + r.height + (padding - Half(padding)) <= Pack(images, padding, m).value.atlasHeight
  {
    PackFromBounded(images, padding, m, 0, InitialState);
  }

  /** From sprite k on, a successful run adds exactly the names of the remaining sprites. */
  lemma {:induction false} PackFromKeys(images: seq<SpriteSize>, padding: int, m: int, k: nat, st: PackState)
    requires k <= |images|
    requires PackFrom(images, padding, m, k, st).Success?
    ensures PackFrom(images, padding, m, k, st).value.positions.Keys
         == st.positions.Keys + set j | k <= j < |images| :: images[j].name
    decreases |images| - k
  {
    if k < |images| {
      var best := PlaceAdvances(st, images[k], padding, m);
      var next := Advance(st, images[k], padding, best);
      PackFromKeys(images, padding, m, k + 1, next);
      var later := set j | k + 1 <= j < |images| :: images[j].name;
      var rest := set j | k <= j < |images| :: images[j].name;
      assert rest == {images[k].name} + later by {
        forall n | n in rest ensures n in {images[k].name} + later {
          var j :| k <= j < |images| && images[j].name == n;
          if j > k {
            assert n in later;
          }
        }
      }
    }
  }

  /** A successful run has one dictionary entry per distinct sprite name and no other. */
  lemma PackKeys(images: seq<SpriteSize>, padding: int, m: int)
    requires Pack(images, padding, m).Success?
    ensures Pack(images, padding, m).value.positions.Keys == set j | 0 <= j < |images| :: images[j].name
  {
    PackFromKeys(images, padding, m, 0, InitialState);
  }
}
