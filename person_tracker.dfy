/** The size arithmetic of the all-persons tracker: the largest box of a
    track (`calculate_max_bbox`) and the padded, even output size derived
    from it (`calculate_output_size`). */
module PersonTracker {
  import opened Numeric

  /** A box with the integer pixel coordinates the person tracker stores. */
  datatype IntBox = IntBox(x1: int, y1: int, x2: int, y2: int)

  function BoxWidth(b: IntBox): int { b.x2 - b.x1 }
  function BoxHeight(b: IntBox): int { b.y2 - b.y1 }

  /** `calculate_max_bbox`: the largest width and height over a track's
      frames, starting from 0 (so 0 x 0 for a track without frames). */
  method CalculateMaxBbox(frames: map<nat, IntBox>) returns (maxWidth: int, maxHeight: int)
    ensures 0 <= maxWidth && 0 <= maxHeight
    ensures forall k :: k in frames ==> BoxWidth(frames[k]) <= maxWidth && BoxHeight(frames[k]) <= maxHeight
    ensures maxWidth == 0 || exists k :: k in frames && BoxWidth(frames[k]) == maxWidth
    ensures maxHeight == 0 || exists k :: k in frames && BoxHeight(frames[k]) == maxHeight
  {
    maxWidth, maxHeight := 0, 0;
    var pending := frames.Keys;
    while pending != {}
      invariant pending <= frames.Keys
      invariant 0 <= maxWidth && 0 <= maxHeight
      invariant forall k :: k in frames && k !in pending ==> BoxWidth(frames[k]) <= maxWidth && BoxHeight(frames[k]) <= maxHeight
      invariant maxWidth == 0 || exists k :: k in frames && k !in pending && BoxWidth(frames[k]) == maxWidth
      invariant maxHeight == 0 || exists k :: k in frames && k !in pending && BoxHeight(frames[k]) == maxHeight
      decreases pending
    {
      var k :| k in pending;
      maxWidth := MaxI(maxWidth, BoxWidth(frames[k]));
      maxHeight := MaxI(maxHeight, BoxHeight(frames[k]));
      pending := pending - {k};
    }
  }

  /** An odd size bumped to the next even number. */
  function RoundUpToEven(p: int): (v: int)
    ensures v % 2 == 0
    ensures p <= v <= p + 1
  {
    if p % 2 != 0 then p + 1 else p
  }

  /** One output dimension: `ceil(m * 1.2)`, bumped to the next even number
      when odd. The factor 1.2 is taken as the exact ratio 6/5. */
  function OutputDimension(m: int): (v: int)
    ensures v % 2 == 0
    ensures CeilDiv(6 * m, 5) <= v <= CeilDiv(6 * m, 5) + 1
  {
    RoundUpToEven(CeilDiv(6 * m, 5))
  }

  /** `calculate_output_size` for a `max_bbox` of `width x height`. */
  function CalculateOutputSize(width: int, height: int): (r: (int, int))
    ensures r.0 % 2 == 0 && r.1 % 2 == 0
    ensures CeilDiv(6 * width, 5) <= r.0 <= CeilDiv(6 * width, 5) + 1
    ensures CeilDiv(6 * height, 5) <= r.1 <= CeilDiv(6 * height, 5) + 1
  {
    (OutputDimension(width), OutputDimension(height))
  }

  /** The output dimension is the least even number at least `6m/5`. */
  lemma {:induction false} OutputDimensionIsLeastEven(m: int)
    ensures var v := OutputDimension(m);
      && 6 * m <= 5 * v
      && v % 2 == 0
      && forall w :: w % 2 == 0 && 6 * m <= 5 * w ==> v <= w
  {
    var v := OutputDimension(m);
    var c := CeilDiv(6 * m, 5);
    assert 5 * (c - 1) < 6 * m <= 5 * c;
    forall w | w % 2 == 0 && 6 * m <= 5 * w
      ensures v <= w
    {
      assert c <= w;
    }
  }

  /** A 0 x 0 maximum box gives a 0 x 0 output, a 100 x 50 box gives
      120 x 60, and a 12 x 3 box pads to 15 x 4, whose odd width is
      bumped to give 16 x 4. */
  lemma OutputSizeExamples()
    ensures CalculateOutputSize(0, 0) == (0, 0)
    ensures CalculateOutputSize(100, 50) == (120, 60)
    ensures CalculateOutputSize(12, 3) == (16, 4)
  {
    assert CeilDiv(72, 5) == 15;
    assert CeilDiv(18, 5) == 4;
  }
}
