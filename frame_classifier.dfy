/**
 * The frame classifier of the input-source dashboard: it pairs every LED of the
 * position table with its colour from a flat RGB buffer and buckets the LEDs into
 * the four edge groups of the screen.
 */
module FrameClassifier {
  import opened Wrappers

  /** One LED's normalised bounding box on the screen border. */
  datatype LedPosition = LedPosition(group: int, hmax: real, hmin: real, vmax: real, vmin: real)

  /** An LED of the position table with its colour and its index in the table. */
  datatype ColoredLed = ColoredLed(group: int, hmax: real, hmin: real, vmax: real, vmin: real,
                                   color: seq<int>, ledInd: nat)

  /** The outer bounds of the four edge tests. */
  datatype Thresholds = Thresholds(top: real, bottom: real, left: real, right: real)

  /** The default values of `transformPosition`'s threshold parameters. */
  const DefaultThresholds := Thresholds(0.05, 0.95, 0.05, 0.95)

  datatype Directions = Directions(top: seq<ColoredLed>, bottom: seq<ColoredLed>,
                                   left: seq<ColoredLed>, right: seq<ColoredLed>)

  datatype TransformResult = TransformResult(leds: seq<ColoredLed>, directions: Directions)

  datatype Edge = Top | Bottom | Left | Right

  function PositionOf(led: ColoredLed): LedPosition
  {
    LedPosition(led.group, led.hmax, led.hmin, led.vmax, led.vmin)
  }

  /**
   * The guard of the refresh: `positions.length != flat.length / 3` compares with a
   * real quotient, so the table fits the buffer exactly when it has a third of its length.
   */
  predicate SizeMatches(positions: seq<LedPosition>, flat: seq<int>)
  {
    |positions| * 3 == |flat|
  }

  /** `flat.slice(from, to)` for non-negative bounds: both are clamped to the length. */
  function Slice(flat: seq<int>, from: nat, to: nat): (r: seq<int>)
    requires from <= to
    ensures |r| <= to - from
    ensures to <= |flat| ==> r == flat[from..to]
    ensures |flat| <= from ==> r == []
    ensures from < |flat| < to ==> r == flat[from..]
  {
    var lo := if from < |flat| then from else |flat|;
    var hi := if to < |flat| then to else |flat|;
    flat[lo..hi]
  }

  /** The colour of the `i`-th LED: the three buffer entries starting at `3 * i`. */
  function ColorAt(flat: seq<int>, i: nat): seq<int>
  {
    Slice(flat, 3 * i, 3 * i + 3)
  }

  function Annotate(p: LedPosition, color: seq<int>, i: nat): ColoredLed
  {
    ColoredLed(p.group, p.hmax, p.hmin, p.vmax, p.vmin, color, i)
  }

  /** The LED list of a classification pass: every table entry with its colour and index. */
  function AnnotatedLeds(table: seq<LedPosition>, flat: seq<int>): seq<ColoredLed>
  {
    seq(|table|, i requires 0 <= i < |table| => Annotate(table[i], ColorAt(flat, i), i))
  }

  /** The edge tests: the inner band is fixed, only the outer bound comes from `th`. */
  predicate OnEdge(led: ColoredLed, e: Edge, th: Thresholds)
  {
    match e
    case Top => 0.05 < led.hmin < 0.95 && led.vmin <= th.top
    case Bottom => 0.05 < led.hmin < 0.95 && led.vmax >= th.bottom
    case Left => 0.05 < led.vmin < 0.95 && led.hmin <= th.left
    case Right => 0.05 < led.vmin < 0.95 && led.hmax >= th.right
  }

  /** The LEDs of `leds` that pass the test of edge `e`, in their order in `leds`. */
  function EdgeGroup(leds: seq<ColoredLed>, e: Edge, th: Thresholds): seq<ColoredLed>
  {
    if leds == [] then []
    else
      var last := leds[|leds| - 1];
      EdgeGroup(leds[..|leds| - 1], e, th) + (if OnEdge(last, e, th) then [last] else [])
  }

  /** What a classification pass of `table` against `flat` produces. */
  function Classify(table: seq<LedPosition>, flat: seq<int>, th: Thresholds): TransformResult
  {
    var leds := AnnotatedLeds(table, flat);
    TransformResult(leds, Directions(EdgeGroup(leds, Top, th), EdgeGroup(leds, Bottom, th),
                                     EdgeGroup(leds, Left, th), EdgeGroup(leds, Right, th)))
  }

  /**
   * The table a pass classifies: the given one when it fits the buffer, otherwise
   * whatever the single refresh returned (without checking its size again), or
   * nothing when the refresh failed.
   */
  function TableUsed(positions: seq<LedPosition>, flat: seq<int>,
                     refresh: Option<seq<LedPosition>>): Option<seq<LedPosition>>
  {
    if SizeMatches(positions, flat) then Some(positions) else refresh
  }

  /** The annotated list grows by one row at a time. */
  lemma AnnotatedPrefixStep(table: seq<LedPosition>, flat: seq<int>, i: nat)
    requires i < |table|
    ensures AnnotatedLeds(table, flat)[..i + 1]
            == AnnotatedLeds(table, flat)[..i] + [Annotate(table[i], ColorAt(flat, i), i)]
  {
  }

  /** Appending one LED appends it to exactly the edge groups whose test it passes. */
  lemma EdgeGroupStep(leds: seq<ColoredLed>, led: ColoredLed, th: Thresholds)
    ensures forall e :: EdgeGroup(leds + [led], e, th)
                        == EdgeGroup(leds, e, th) + (if OnEdge(led, e, th) then [led] else [])
  {
    assert (leds + [led])[..|leds|] == leds;
  }

  /**
   * `transformPosition`. The refresh callback is modelled by `refresh`, the outcome it
   * would have (`None` is a rejected promise); `refreshCalls` counts how often the
   * pass invokes it. A failed refresh makes the pass fail (`None`).
   */
  method TransformPosition(positions: seq<LedPosition>, flat: seq<int>,
                           refresh: Option<seq<LedPosition>>, th: Thresholds)
    returns (result: Option<TransformResult>, refreshCalls: nat)
    ensures refreshCalls == if SizeMatches(positions, flat) then 0 else 1
    ensures result == match TableUsed(positions, flat, refresh)
                      case None => None
                      case Some(table) => Some(Classify(table, flat, th))
  {
    var table := positions;
    refreshCalls := 0;
    if |table| * 3 != |flat| {
      refreshCalls := 1;
      match refresh {
        case None =>
          return None, refreshCalls;
        case Some(t) =>
          table := t;
      }
    }
    var leds: seq<ColoredLed> := [];
    var top, bottom, left, right := [], [], [], [];
    var i, j := 0, 0;
    while i < |table|
      invariant 0 <= i <= |table| && j == 3 * i
      invariant leds == AnnotatedLeds(table, flat)[..i]
      invariant top == EdgeGroup(leds, Top, th) && bottom == EdgeGroup(leds, Bottom, th)
      invariant left == EdgeGroup(leds, Left, th) && right == EdgeGroup(leds, Right, th)
    {
      var led := Annotate(table[i], Slice(flat, j, j + 3), i);
      AnnotatedPrefixStep(table, flat, i);
      EdgeGroupStep(leds, led, th);
      leds := leds + [led];
      if 0.05 < led.hmin && led.hmin < 0.95 && led.vmin <= th.top {
        top := top + [led];
      }
      if 0.05 < led.hmin && led.hmin < 0.95 && led.vmax >= th.bottom {
        bottom := bottom + [led];
      }
      if 0.05 < led.vmin && led.vmin < 0.95 && led.hmin <= th.left {
        left := left + [led];
      }
      if 0.05 < led.vmin && led.vmin < 0.95 && led.hmax >= th.right {
        right := right + [led];
      }
      i, j := i + 1, j + 3;
    }
    assert leds == AnnotatedLeds(table, flat);
    result := Some(TransformResult(leds, Directions(top, bottom, left, right)));
  }

  // ---------------------------------------------------------------- properties

  /**
   * The LED list has one entry per table row, numbered by its row, with the row's
   * position fields and the (clamped) colour slice of that row.
   */
  lemma AnnotatedLedsShape(table: seq<LedPosition>, flat: seq<int>)
    ensures |AnnotatedLeds(table, flat)| == |table|
    ensures forall i :: 0 <= i < |table| ==>
              AnnotatedLeds(table, flat)[i].ledInd == i
              && PositionOf(AnnotatedLeds(table, flat)[i]) == table[i]
              && AnnotatedLeds(table, flat)[i].color == ColorAt(flat, i)
  {
  }

  /** When the table fits the buffer, LED `i` gets exactly the triple `flat[3i..3i+3]`. */
  lemma ExactColorsWhenSizesMatch(table: seq<LedPosition>, flat: seq<int>, i: nat)
    requires SizeMatches(table, flat) && i < |table|
    ensures AnnotatedLeds(table, flat)[i].color == flat[3 * i..3 * i + 3]
    ensures |AnnotatedLeds(table, flat)[i].color| == 3
  {
  }

  /**
   * After a refresh that still does not fit, colours are clamped slices: never longer
   * than three, and empty for every LED past the end of the buffer.
   */
  lemma ClampedColors(table: seq<LedPosition>, flat: seq<int>, i: nat)
    requires i < |table|
    ensures |AnnotatedLeds(table, flat)[i].color| <= 3
    ensures AnnotatedLeds(table, flat)[i].color == [] <==> |flat| <= 3 * i
  {
  }

  /** The LEDs of a list are numbered by their position in it. */
  predicate Indexed(leds: seq<ColoredLed>)
  {
    forall i :: 0 <= i < |leds| ==> leds[i].ledInd == i
  }

  /**
   * Over an indexed LED list, an edge group is exactly the subsequence, in index
   * order, of the LEDs passing the edge test: each member is the list's entry at its
   * own index and passes the test, indices strictly increase, and no passing LED is
   * missing.
   */
  lemma {:induction false} EdgeGroupIsOrderedFilter(leds: seq<ColoredLed>, e: Edge, th: Thresholds)
    requires Indexed(leds)
    ensures var g := EdgeGroup(leds, e, th);
            && (forall k :: 0 <= k < |g| ==>
                  g[k].ledInd < |leds| && leds[g[k].ledInd] == g[k] && OnEdge(g[k], e, th))
            && (forall k, l :: 0 <= k < l < |g| ==> g[k].ledInd < g[l].ledInd)
            && (forall i :: 0 <= i < |leds| && OnEdge(leds[i], e, th) ==> leds[i] in g)
  {
    if leds != [] {
      var init := leds[..|leds| - 1];
      EdgeGroupIsOrderedFilter(init, e, th);
      var g0 := EdgeGroup(init, e, th);
      var g := EdgeGroup(leds, e, th);
      forall i | 0 <= i < |leds| && OnEdge(leds[i], e, th) ensures leds[i] in g {
        if i < |init| {
          assert init[i] == leds[i];
        }
      }
    }
  }

  /** An edge group of a classification pass is the ordered filter of its LED list. */
  lemma ClassifiedGroupsAreOrderedFilters(table: seq<LedPosition>, flat: seq<int>, th: Thresholds, e: Edge)
    ensures var leds := AnnotatedLeds(table, flat);
            var g := EdgeGroup(leds, e, th);
            && (forall k :: 0 <= k < |g| ==>
                  g[k].ledInd < |leds| && leds[g[k].ledInd] == g[k] && OnEdge(g[k], e, th))
            && (forall k, l :: 0 <= k < l < |g| ==> g[k].ledInd < g[l].ledInd)
            && (forall i :: 0 <= i < |leds| && OnEdge(leds[i], e, th) ==> leds[i] in g)
  {
    EdgeGroupIsOrderedFilter(AnnotatedLeds(table, flat), e, th);
  }

  /** A member of an edge group carries the colour its own index selects from the buffer. */
  lemma GroupMemberColor(table: seq<LedPosition>, flat: seq<int>, th: Thresholds, e: Edge, k: nat)
    requires k < |EdgeGroup(AnnotatedLeds(table, flat), e, th)|
    ensures var g := EdgeGroup(AnnotatedLeds(table, flat), e, th);
            g[k].ledInd < |table| && g[k].color == ColorAt(flat, g[k].ledInd)
  {
    ClassifiedGroupsAreOrderedFilters(table, flat, th, e);
    AnnotatedLedsShape(table, flat);
  }

  /**
   * Top and bottom are not exclusive: an LED spanning the full height in the middle
   * of the width passes both tests under the default thresholds.
   */
  lemma FullHeightLedIsTopAndBottom(led: ColoredLed)
    requires led.vmin == 0.0 && led.vmax == 1.0 && led.hmin == 0.5
    ensures OnEdge(led, Top, DefaultThresholds) && OnEdge(led, Bottom, DefaultThresholds)
  {
  }

  /** The thresholds cannot admit an LED outside the fixed inner band, whatever their values. */
  lemma InnerBandIsFixed(led: ColoredLed, th: Thresholds)
    ensures !(0.05 < led.hmin < 0.95) ==> !OnEdge(led, Top, th) && !OnEdge(led, Bottom, th)
    ensures !(0.05 < led.vmin < 0.95) ==> !OnEdge(led, Left, th) && !OnEdge(led, Right, th)
  {
  }
}
