/**
 * The skyline PackSprites builds never leaves one segment. The segment added at the left edge of
 * the new cell starts inside the range the filter removes, so only the segment at the cell's right
 * edge survives, at the old height. From [(0, 0)] the skyline is therefore always
 * [(sum of padded widths so far, 0)] and the sprites form one row at height padding/2. This module
 * proves that, and derives from it when packing fails, where each sprite goes and the sizes of the
 * canvas, for padding >= 0 and sprites of positive size.
 */
module PackerRow {
  import opened Wrappers
  import opened AtlasRecords
  import opened AtlasPacker

  /** The sum of the padded widths of the first k sprites: the left edge of sprite k's cell. */
  function Offset(images: seq<SpriteSize>, padding: int, k: nat): int
    requires k <= |images|
  {
    if k == 0 then 0 else Offset(images, padding, k - 1) + images[k - 1].width + padding
  }

  /** The tallest padded height among the first k sprites, or 0. */
  function RowHeight(images: seq<SpriteSize>, padding: int, k: nat): int
    requires k <= |images|
  {
    if k == 0 then 0 else Max(RowHeight(images, padding, k - 1), images[k - 1].height + padding)
  }

  /** The rect sprite k receives in the row. */
  function Cell(images: seq<SpriteSize>, padding: int, k: nat): SpriteRect
    requires k < |images|
  {
    SpriteRect(Offset(images, padding, k) + Half(padding), Half(padding), images[k].width, images[k].height)
  }

  /** The dictionary after the first k sprites of the row; a later sprite of the same name overwrites. */
  function RowPositions(images: seq<SpriteSize>, padding: int, k: nat): map<string, SpriteRect>
    requires k <= |images|
  {
    if k == 0 then map[]
    else RowPositions(images, padding, k - 1)[images[k - 1].name := Cell(images, padding, k - 1)]
  }

  /** The packer's locals after the first k sprites of the row. */
  function RowState(images: seq<SpriteSize>, padding: int, k: nat): PackState
    requires k <= |images|
  {
    PackState(RowPositions(images, padding, k), [Segment(Offset(images, padding, k), 0)],
              Offset(images, padding, k), RowHeight(images, padding, k))
  }

  /** Offsets start at 0 and grow by a whole padded width per sprite. */
  lemma {:induction false} OffsetGrows(images: seq<SpriteSize>, padding: int, j: nat, k: nat)
    requires padding >= 0 && ValidSizes(images)
    requires j <= k <= |images|
    ensures 0 <= Offset(images, padding, j) <= Offset(images, padding, k)
    ensures j < k ==> Offset(images, padding, j) + images[j].width + padding <= Offset(images, padding, k)
    decreases k
  {
    if j < k {
      OffsetGrows(images, padding, j, k - 1);
    } else if k > 0 {
      OffsetGrows(images, padding, k - 1, k - 1);
    }
  }

  /** The row is as tall as every padded sprite in it, and never of negative height. */
  lemma {:induction false} RowHeightBounds(images: seq<SpriteSize>, padding: int, k: nat, n: nat)
    requires k < n <= |images|
    ensures images[k].height + padding <= RowHeight(images, padding, n)
    ensures 0 <= RowHeight(images, padding, n)
    decreases n
  {
    if k < n - 1 {
      RowHeightBounds(images, padding, k, n - 1);
    } else if n - 1 > 0 {
      RowHeightBounds(images, padding, 0, n - 1);
    }
  }

  /** A first row with one segment and its rebuild, computed. */
  lemma RebuildRow(x: int, top: int, right: int)
    requires x < right
    ensures Rebuild([Segment(x, 0)], x, top, right, 0) == [Segment(right, 0)]
  {
    var two := [Segment(x, 0)] + [Segment(x, top)];
    assert two[..1] == [Segment(x, 0)];
    assert [Segment(x, 0)][..0] == [];
    assert KeepOutside([Segment(x, 0)], x, right) == [];
    assert KeepOutside(two, x, right) == [];
    assert OrderByX([Segment(right, 0)]) == [Segment(right, 0)] by {
      assert [Segment(right, 0)][..0] == [];
    }
  }

  /** Sprite k in the row: placed right of the others if it fits, the error otherwise. */
  lemma RowStep(images: seq<SpriteSize>, padding: int, m: int, k: nat)
    requires padding >= 0 && ValidSizes(images) && k < |images|
    ensures Place(RowState(images, padding, k), images[k], padding, m)
         == if Offset(images, padding, k + 1) <= m then Success(RowState(images, padding, k + 1))
            else Failure(TooWide(images[k].name))
  {
    var st := RowState(images, padding, k);
    var s := images[k];
    var x := Offset(images, padding, k);
    OffsetGrows(images, padding, k, k);
    var w, h := s.width + padding, s.height + padding;
    assert Top(st.skyline, 0, w) == 0;
    assert ScanUpTo(st.skyline, 1, w, h, m)
        == if x + w <= m then Some(Segment(x, 0)) else None;
    if x + w <= m {
      RebuildRow(x, h, x + w);
      assert Advance(st, s, padding, Segment(x, 0)) == RowState(images, padding, k + 1);
    }
  }

  /** The run passes through RowState(k) for every k whose prefix fits the width. */
  lemma {:induction false} RowReach(images: seq<SpriteSize>, padding: int, m: int, k: nat)
    requires padding >= 0 && ValidSizes(images) && k <= |images|
    requires k == 0 || Offset(images, padding, k) <= m
    ensures PackFrom(images, padding, m, 0, InitialState) == PackFrom(images, padding, m, k, RowState(images, padding, k))
  {
    if k > 0 {
      OffsetGrows(images, padding, k - 1, k);
      RowReach(images, padding, m, k - 1);
      RowStep(images, padding, m, k - 1);
    }
  }

  /** The first sprite from k on whose cell would end past maxAtlasWidth. */
  function FirstTooWide(images: seq<SpriteSize>, padding: int, m: int, k: nat): (q: nat)
    requires k < |images| && Offset(images, padding, |images|) > m
    ensures k <= q < |images|
    ensures Offset(images, padding, q + 1) > m
    ensures forall j :: k < j <= q ==> Offset(images, padding, j) <= m
    decreases |images| - k
  {
    if Offset(images, padding, k + 1) > m then k else FirstTooWide(images, padding, m, k + 1)
  }

  /** The rest of the run from RowState(k): the whole row, or the first sprite that does not fit. */
  lemma {:induction false} RowRun(images: seq<SpriteSize>, padding: int, m: int, k: nat)
    requires padding >= 0 && ValidSizes(images) && k <= |images|
    ensures Offset(images, padding, |images|) <= m || k == |images|
        ==> PackFrom(images, padding, m, k, RowState(images, padding, k)) == Success(RowState(images, padding, |images|))
    ensures Offset(images, padding, |images|) > m && k < |images|
        ==> (PackFrom(images, padding, m, k, RowState(images, padding, k))
             == Failure(TooWide(images[FirstTooWide(images, padding, m, k)].name)))
    decreases |images| - k
  {
    if k < |images| {
      RowStep(images, padding, m, k);
      OffsetGrows(images, padding, k + 1, |images|);
      if Offset(images, padding, k + 1) <= m {
        RowRun(images, padding, m, k + 1);
      }
    }
  }

  /**
   * The degenerate skyline theorem. With padding >= 0 and sprites of positive size, packing
   * succeeds exactly when the sum of all padded widths is at most maxAtlasWidth (or there are no
   * sprites). The result is then the row dictionary, a canvas as wide as that sum and as tall as
   * the tallest padded sprite. Otherwise the error names the first sprite whose cell would end past
   * maxAtlasWidth.
   */
  lemma PackRow(images: seq<SpriteSize>, padding: int, m: int)
    requires padding >= 0 && ValidSizes(images)
    ensures Pack(images, padding, m).Success? <==> |images| == 0 || Offset(images, padding, |images|) <= m
    ensures Pack(images, padding, m).Success?
        ==> (Pack(images, padding, m).value
             == Packing(RowPositions(images, padding, |images|), Offset(images, padding, |images|),
                        RowHeight(images, padding, |images|)))
    ensures Pack(images, padding, m).Failure?
        ==> Pack(images, padding, m).error == TooWide(images[FirstTooWide(images, padding, m, 0)].name)
  {
    assert InitialState == RowState(images, padding, 0);
    RowRun(images, padding, m, 0);
  }

  /**
   * The skyline between two sprites is one segment at height 0: for every prefix that fits, the run
   * reaches a state whose skyline is [(Offset(k), 0)].
   */
  lemma SkylineStaysFlat(images: seq<SpriteSize>, padding: int, m: int, k: nat)
    requires padding >= 0 && ValidSizes(images) && k <= |images|
    requires k == 0 || Offset(images, padding, k) <= m
    ensures exists st :: PackFrom(images, padding, m, 0, InitialState) == PackFrom(images, padding, m, k, st)
                      && st.skyline == [Segment(Offset(images, padding, k), 0)]
  {
    RowReach(images, padding, m, k);
    var st := RowState(images, padding, k);
    assert PackFrom(images, padding, m, 0, InitialState) == PackFrom(images, padding, m, k, st);
  }

  /** The row holds exactly the names of the first k sprites. */
  lemma {:induction false} RowPositionsKeys(images: seq<SpriteSize>, padding: int, k: nat)
    requires k <= |images|
    ensures RowPositions(images, padding, k).Keys == set j | 0 <= j < k :: images[j].name
  {
    if k > 0 {
      RowPositionsKeys(images, padding, k - 1);
      var prev := set j | 0 <= j < k - 1 :: images[j].name;
      var now := set j | 0 <= j < k :: images[j].name;
      assert now == prev + {images[k - 1].name} by {
        forall n | n in now ensures n in prev + {images[k - 1].name} {
          var j :| 0 <= j < k && images[j].name == n;
          if j < k - 1 {
            assert n in prev;
          }
        }
      }
    }
  }

  /** A name's entry is the cell of its last occurrence: the dictionary assignment overwrites. */
  lemma {:induction false} RowPositionsLast(images: seq<SpriteSize>, padding: int, n: nat, k: nat)
    requires k < n <= |images|
    requires forall j :: k < j < n ==> images[j].name != images[k].name
    ensures images[k].name in RowPositions(images, padding, n)
    ensures RowPositions(images, padding, n)[images[k].name] == Cell(images, padding, k)
  {
    if n - 1 > k {
      RowPositionsLast(images, padding, n - 1, k);
    }
  }

  /**
   * Padded cells of different sprites do not overlap: sprite j's cell ends where or before sprite
   * k's begins, so its drawn rect ends at least padding before the next one starts.
   */
  lemma RowCellsDisjoint(images: seq<SpriteSize>, padding: int, j: nat, k: nat)
    requires padding >= 0 && ValidSizes(images)
    requires j < k < |images|
    ensures Offset(images, padding, j) + images[j].width + padding <= Offset(images, padding, k)
    ensures Cell(images, padding, j).x + Cell(images, padding, j).width + padding <= Cell(images, padding, k).x
    ensures Cell(images, padding, j).y == Cell(images, padding, k).y == Half(padding)
  {
    OffsetGrows(images, padding, j, k);
  }

  /** Two 10x10 sprites with padding 2: a.png at (1, 1), b.png at (13, 1), a 24x12 canvas. */
  lemma TwoSpritesExample()
    ensures Pack([SpriteSize("a.png", 10, 10), SpriteSize("b.png", 10, 10)], 2, 4096)
         == Success(Packing(map["a.png" := SpriteRect(1, 1, 10, 10), "b.png" := SpriteRect(13, 1, 10, 10)], 24, 12))
  {
    var images := [SpriteSize("a.png", 10, 10), SpriteSize("b.png", 10, 10)];
    PackRow(images, 2, 4096);
    assert Offset(images, 2, 1) == 12;
    assert Offset(images, 2, 2) == 24;
    assert RowHeight(images, 2, 2) == 12;
    assert RowPositions(images, 2, 2)
        == map["a.png" := SpriteRect(1, 1, 10, 10), "b.png" := SpriteRect(13, 1, 10, 10)];
  }

  /**
   * The failure test is `bestX == -1`, and with negative padding a real segment can start at
   * X = -1. Here the first sprite's cell ends at X = -1, the second sprite's scan picks that
   * segment, and the run reports the second sprite as too wide although a segment was found.
   */
  lemma NegativePaddingSentinel()
    ensures Pack([SpriteSize("a.png", 1, 20), SpriteSize("b.png", 1, 20)], -2, 4096) == Failure(TooWide("b.png"))
  {
    var images := [SpriteSize("a.png", 1, 20), SpriteSize("b.png", 1, 20)];
    var st1 := SentinelFirstPlacement();
    assert Top(st1.skyline, 0, -1) == 0;
    assert Top(st1.skyline, 1, -1) == 0;
    assert Top(st1.skyline, 2, -1) == 18;
    assert ScanUpTo(st1.skyline, 3, -1, 18, 4096) == Some(Segment(-1, 0));
    assert Place(st1, images[1], -2, 4096) == Failure(TooWide("b.png"));
  }

  /**
   * With padding -1 the canvas is smaller than the sprite it holds. One 10x10 sprite gets the rect
   * (0, 0, 10, 10), since padding/2 truncates to 0, but the canvas is only 9x9.
   */
  lemma NegativePaddingSmallCanvas()
    ensures Pack([SpriteSize("a.png", 10, 10)], -1, 4096)
         == Success(Packing(map["a.png" := SpriteRect(0, 0, 10, 10)], 9, 9))
  {
    assert ScanUpTo([Segment(0, 0)], 1, 9, 9, 4096) == Some(Segment(0, 0));
    RebuildRow(0, 9, 9);
    assert Place(InitialState, SpriteSize("a.png", 10, 10), -1, 4096)
        == Success(PackState(map["a.png" := SpriteRect(0, 0, 10, 10)], [Segment(9, 0)], 9, 9));
  }

  /** The first placement of NegativePaddingSentinel: a 1x20 sprite with padding -2 on the empty atlas. */
  lemma SentinelFirstPlacement() returns (st1: PackState)
    ensures st1 == PackState(map["a.png" := SpriteRect(-1, -1, 1, 20)],
                             [Segment(-1, 0), Segment(0, 0), Segment(0, 18)], 0, 18)
    ensures Place(InitialState, SpriteSize("a.png", 1, 20), -2, 4096) == Success(st1)
  {
    st1 := PackState(map["a.png" := SpriteRect(-1, -1, 1, 20)],
                     [Segment(-1, 0), Segment(0, 0), Segment(0, 18)], 0, 18);
    assert ScanUpTo([Segment(0, 0)], 1, -1, 18, 4096) == Some(Segment(0, 0));
    SentinelRebuild();
  }

  /** The skyline after the first placement: the cell's right edge at X = -1 sorts first. */
  lemma SentinelRebuild()
    ensures Rebuild([Segment(0, 0)], 0, 18, -1, 0) == [Segment(-1, 0), Segment(0, 0), Segment(0, 18)]
  {
    var two := [Segment(0, 0), Segment(0, 18)];
    assert [Segment(0, 0)] + [Segment(0, 18)] == two;
    SentinelKeep();
    SentinelOrder();
    assert two + [Segment(-1, 0)] == [Segment(0, 0), Segment(0, 18), Segment(-1, 0)];
  }

  /** The filter of SentinelRebuild: with insertEnd = -1 < insertX = 0 the range is empty and keeps both. */
  lemma SentinelKeep()
    ensures KeepOutside([Segment(0, 0), Segment(0, 18)], 0, -1) == [Segment(0, 0), Segment(0, 18)]
  {
    var one := [Segment(0, 0)];
    var two := one + [Segment(0, 18)];
    assert KeepOutside(one, 0, -1) == one by {
      assert one[..0] == [];
    }
    assert KeepOutside(two, 0, -1) == two by {
      assert two[..1] == one;
    }
  }

  /** The stable sort of SentinelRebuild: the segment at X = -1 moves to the front. */
  lemma SentinelOrder()
    ensures OrderByX([Segment(0, 0), Segment(0, 18), Segment(-1, 0)])
         == [Segment(-1, 0), Segment(0, 0), Segment(0, 18)]
  {
    var one := [Segment(0, 0)];
    var two := [Segment(0, 0), Segment(0, 18)];
    var three := [Segment(0, 0), Segment(0, 18), Segment(-1, 0)];
    assert OrderByX(one) == one by {
      assert one[..0] == [];
    }
    assert OrderByX(two) == two by {
      assert two[..1] == one;
    }
    assert OrderByX(three) == InsertByX(two, Segment(-1, 0)) by {
      assert three[..2] == two;
    }
    assert InsertByX(one, Segment(-1, 0)) == [Segment(-1, 0)] + one by {
      assert one[..0] == [];
    }
    assert InsertByX(two, Segment(-1, 0)) == InsertByX(one, Segment(-1, 0)) + [Segment(0, 18)] by {
      assert two[..1] == one;
    }
  }
}
