/**
 * The fallback detector: decides whether the top and bottom edges show the
 * controller's six-colour calibration pattern rather than real video.
 */
module FallbackDetector {
  import opened Wrappers
  import opened FrameClassifier

  /** The six calibration colours, matched by exact equality. */
  const Palette: seq<seq<int>> := [[255, 255, 6], [255, 0, 255], [0, 10, 255],
                                   [0, 255, 0], [6, 255, 255], [255, 11, 0]]

  /** The number of LEDs of `group` whose colour is exactly `c`. */
  function Count(group: seq<ColoredLed>, c: seq<int>): nat
  {
    if group == [] then 0
    else Count(group[..|group| - 1], c) + (if group[|group| - 1].color == c then 1 else 0)
  }

  /** `Math.floor(n * 0.09)`, the least count each palette colour needs in a group of `n`. */
  function MinFreq(n: nat): (r: nat)
    ensures r * 100 <= 9 * n < (r + 1) * 100
  {
    (9 * n) / 100
  }

  /** Every palette colour occurs at least `MinFreq(|group|)` times in `group`. */
  predicate LooksLikeFallback(group: seq<ColoredLed>)
  {
    forall k :: 0 <= k < |Palette| ==> Count(group, Palette[k]) >= MinFreq(|group|)
  }

  predicate IsFallbackPattern(top: seq<ColoredLed>, bottom: seq<ColoredLed>)
  {
    LooksLikeFallback(top) && LooksLikeFallback(bottom)
  }

  /** A count table with a zero for every palette colour. */
  function ZeroCounts(): (m: map<seq<int>, nat>)
    ensures forall c :: c in m <==> c in Palette
    ensures forall k :: 0 <= k < |Palette| ==> m[Palette[k]] == 0
    ensures forall c | c in m :: m[c] == 0
  {
    map[[255, 255, 6] := 0, [255, 0, 255] := 0, [0, 10, 255] := 0,
        [0, 255, 0] := 0, [6, 255, 255] := 0, [255, 11, 0] := 0]
  }

  /** The count table's keys: the palette colours. */
  const PaletteKeys: set<seq<int>> := ZeroCounts().Keys

  /** `counts` has the keys `keys` and holds, for each, its count in the prefix `group[..n]`. */
  ghost predicate CountsOfPrefix(counts: map<seq<int>, nat>, keys: set<seq<int>>, group: seq<ColoredLed>, n: nat)
    requires n <= |group|
  {
    && counts.Keys == keys
    && forall c | c in keys :: counts[c] == Count(group[..n], c)
  }

  /** The fresh table is the count of the empty prefix. */
  lemma CountsStart(group: seq<ColoredLed>)
    ensures CountsOfPrefix(ZeroCounts(), PaletteKeys, group, 0)
  {
  }

  /** One step of the counting loop: count LED `n` of `group` if its colour is a palette key. */
  lemma CountStep(counts: map<seq<int>, nat>, keys: set<seq<int>>, group: seq<ColoredLed>, n: nat)
    requires n < |group| && CountsOfPrefix(counts, keys, group, n)
    ensures group[n].color in counts ==>
              CountsOfPrefix(counts[group[n].color := counts[group[n].color] + 1], keys, group, n + 1)
    ensures group[n].color !in counts ==> CountsOfPrefix(counts, keys, group, n + 1)
  {
    assert group[..n + 1][..n] == group[..n];
  }

  /** `Object.values(counts).every(freq => freq >= min)`. */
  predicate EveryCountReaches(counts: map<seq<int>, nat>, min: nat)
  {
    forall c | c in counts :: counts[c] >= min
  }

  /** Over complete counts, "every count reaches the minimum" is the fallback test of the group. */
  lemma CountsVerdict(counts: map<seq<int>, nat>, group: seq<ColoredLed>)
    requires CountsOfPrefix(counts, PaletteKeys, group, |group|)
    ensures EveryCountReaches(counts, MinFreq(|group|)) == LooksLikeFallback(group)
  {
    assert group[..|group|] == group;
    if LooksLikeFallback(group) {
      forall c | c in counts ensures counts[c] >= MinFreq(|group|) {
        var k :| 0 <= k < |Palette| && Palette[k] == c;
      }
    }
  }

  /**
   * The loop's step for one group: LED `n`'s colour, when it is a key of the count
   * table, gets its count incremented.
   */
  method CountLed(counts: map<seq<int>, nat>, ghost keys: set<seq<int>>, group: seq<ColoredLed>, n: nat)
    returns (counts': map<seq<int>, nat>)
    requires n < |group| && CountsOfPrefix(counts, keys, group, n)
    ensures CountsOfPrefix(counts', keys, group, n + 1)
  {
    var color := group[n].color;
    CountStep(counts, keys, group, n);
    counts' := counts;
    if color in counts' {
      counts' := counts'[color := counts'[color] + 1];
    }
  }

  /**
   * The counting loop of `checkTopBottomLedForFallback`: one pass up to the longer group's
   * length, counting each group's LEDs while the index is still inside that group.
   */
  method CountFallbackColors(topLeds: seq<ColoredLed>, bottomLeds: seq<ColoredLed>)
    returns (topFallbackColors: map<seq<int>, nat>, bottomFallbackColors: map<seq<int>, nat>)
    ensures CountsOfPrefix(topFallbackColors, PaletteKeys, topLeds, |topLeds|)
    ensures CountsOfPrefix(bottomFallbackColors, PaletteKeys, bottomLeds, |bottomLeds|)
  {
    var noOfTopLeds, noOfBottomLeds := |topLeds|, |bottomLeds|;
    topFallbackColors := ZeroCounts();
    bottomFallbackColors := ZeroCounts();
    CountsStart(topLeds);
    CountsStart(bottomLeds);
    ghost var keys := PaletteKeys;
    var loopTil := if noOfTopLeds < noOfBottomLeds then noOfBottomLeds else noOfTopLeds;
    var ledInd := 0;
    // How many LEDs of each group have been counted so far.
    ghost var topSeen, bottomSeen := 0, 0;
    while ledInd < loopTil
      invariant 0 <= ledInd <= loopTil
      invariant topSeen == (if ledInd < noOfTopLeds then ledInd else noOfTopLeds)
      invariant bottomSeen == (if ledInd < noOfBottomLeds then ledInd else noOfBottomLeds)
      invariant CountsOfPrefix(topFallbackColors, keys, topLeds, topSeen)
      invariant CountsOfPrefix(bottomFallbackColors, keys, bottomLeds, bottomSeen)
    {
      if ledInd < noOfTopLeds {
        topFallbackColors := CountLed(topFallbackColors, keys, topLeds, ledInd);
        topSeen := ledInd + 1;
      }
      if ledInd < noOfBottomLeds {
        bottomFallbackColors := CountLed(bottomFallbackColors, keys, bottomLeds, ledInd);
        bottomSeen := ledInd + 1;
      }
      ledInd := ledInd + 1;
    }
    assert topSeen == noOfTopLeds && bottomSeen == noOfBottomLeds;
  }

  /**
   * `checkTopBottomLedForFallback`: count both groups, then require every palette colour
   * to reach the group's minimum count in both of them.
   */
  method CheckTopBottomLedForFallback(topLeds: seq<ColoredLed>, bottomLeds: seq<ColoredLed>)
    returns (r: bool)
    ensures r == IsFallbackPattern(topLeds, bottomLeds)
  {
    var topFallbackColors, bottomFallbackColors := CountFallbackColors(topLeds, bottomLeds);
    CountsVerdict(topFallbackColors, topLeds);
    CountsVerdict(bottomFallbackColors, bottomLeds);
    var minTopColorsFreq := MinFreq(|topLeds|);
    var minBottomColorsFreq := MinFreq(|bottomLeds|);
    var areTheseTopColorsFallback := EveryCountReaches(topFallbackColors, minTopColorsFreq);
    var areTheseBottomColorsFallback := EveryCountReaches(bottomFallbackColors, minBottomColorsFreq);
    r := areTheseTopColorsFallback && areTheseBottomColorsFallback;
  }

  /**
   * `checkHdmiFallBack`: classify the frame with the default thresholds, refreshing the
   * table once if it does not fit, then test its top and bottom groups. `None` is the
   * failed refresh.
   */
  method CheckHdmiFallBack(positions: seq<LedPosition>, flat: seq<int>, refresh: Option<seq<LedPosition>>)
    returns (r: Option<bool>, refreshCalls: nat)
    ensures refreshCalls == if SizeMatches(positions, flat) then 0 else 1
    ensures r == match TableUsed(positions, flat, refresh)
                 case None => None
                 case Some(table) => Some(FrameIsFallback(table, flat))
  {
    var trf;
    trf, refreshCalls := TransformPosition(positions, flat, refresh, DefaultThresholds);
    match trf {
      case None =>
        r := None;
      case Some(t) =>
        var isItFallback := CheckTopBottomLedForFallback(t.directions.top, t.directions.bottom);
        r := Some(isItFallback);
    }
  }

  /** The verdict on a frame: only its top and bottom groups (default thresholds) are consulted. */
  predicate FrameIsFallback(table: seq<LedPosition>, flat: seq<int>)
  {
    var d := Classify(table, flat, DefaultThresholds).directions;
    IsFallbackPattern(d.top, d.bottom)
  }

  // ---------------------------------------------------------------- properties

  /** The minimum count is zero exactly for groups of fewer than twelve LEDs. */
  lemma MinFreqZeroBelowTwelve(n: nat)
    ensures MinFreq(n) == 0 <==> n < 12
  {
  }

  /** Groups of fewer than twelve LEDs, the empty group included, look like fallback vacuously. */
  lemma SmallGroupsAreFallback(top: seq<ColoredLed>, bottom: seq<ColoredLed>)
    requires |top| < 12 && |bottom| < 12
    ensures IsFallbackPattern(top, bottom)
  {
  }

  /** An empty buffer against an empty table is reported as the fallback pattern. */
  lemma EmptyFrameIsFallback()
    ensures FrameIsFallback([], [])
  {
  }

  /** LEDs whose colour is outside the palette (short colours included) are never counted. */
  lemma {:induction false} CountWithoutPaletteColors(group: seq<ColoredLed>, k: nat)
    requires k < |Palette|
    requires forall i :: 0 <= i < |group| ==> group[i].color != Palette[k]
    ensures Count(group, Palette[k]) == 0
  {
    if group != [] {
      CountWithoutPaletteColors(group[..|group| - 1], k);
    }
  }

  /**
   * A group of at least twelve LEDs none of which shows a palette colour does not look
   * like fallback (the all-white frame of a live picture, for one).
   */
  lemma NoPaletteColorsIsNotFallback(group: seq<ColoredLed>)
    requires |group| >= 12
    requires forall i :: 0 <= i < |group| ==> group[i].color !in Palette
    ensures !LooksLikeFallback(group)
  {
    CountWithoutPaletteColors(group, 0);
  }

  lemma {:induction false} CountAppend(a: seq<ColoredLed>, b: seq<ColoredLed>, c: seq<int>)
    ensures Count(a + b, c) == Count(a, c) + Count(b, c)
    decreases |b|
  {
    if b != [] {
      var b0 := b[..|b| - 1];
      CountAppend(a, b0, c);
      assert (a + b)[..|a + b| - 1] == a + b0;
      assert (a + b)[|a + b| - 1] == b[|b| - 1];
    } else {
      assert a + b == a;
    }
  }

  /** The six-LED block that shows each palette colour once, in palette order. */
  predicate IsPaletteBlock(block: seq<ColoredLed>)
  {
    |block| == |Palette| && forall i :: 0 <= i < |block| ==> block[i].color == Palette[i]
  }

  /** No calibration colour is listed twice. */
  lemma PaletteDistinct()
    ensures forall i, j :: 0 <= i < j < |Palette| ==> Palette[i] != Palette[j]
  {
    var code := seq(|Palette|, i requires 0 <= i < |Palette| => Palette[i][0] * 65536 + Palette[i][1] * 256 + Palette[i][2]);
    assert code == [16776966, 16711935, 2815, 65280, 458751, 16714496];
  }

  lemma {:induction false} PaletteBlockPrefixCount(block: seq<ColoredLed>, n: nat, k: nat)
    requires IsPaletteBlock(block) && n <= |block| && k < |Palette|
    ensures Count(block[..n], Palette[k]) == if k < n then 1 else 0
  {
    if n > 0 {
      PaletteBlockPrefixCount(block, n - 1, k);
      assert block[..n][..n - 1] == block[..n - 1];
      PaletteDistinct();
    }
  }

  lemma PaletteBlockCount(block: seq<ColoredLed>, k: nat)
    requires IsPaletteBlock(block) && k < |Palette|
    ensures Count(block, Palette[k]) == 1
  {
    PaletteBlockPrefixCount(block, |block|, k);
    assert block[..|block|] == block;
  }

  /**
   * A group made of `m` palette blocks holds each calibration colour `m` times, and so
   * looks like fallback: the uniform calibration frame is recognised.
   */
  lemma {:induction false} PaletteBlocksAreFallback(group: seq<ColoredLed>, m: nat)
    requires |group| == 6 * m
    requires forall b :: 0 <= b < m ==> IsPaletteBlock(group[6 * b..6 * b + 6])
    ensures forall k :: 0 <= k < |Palette| ==> Count(group, Palette[k]) == m
    ensures LooksLikeFallback(group)
  {
    if m > 0 {
      var init := group[..6 * (m - 1)];
      var block := group[6 * (m - 1)..];
      forall b | 0 <= b < m - 1 ensures IsPaletteBlock(init[6 * b..6 * b + 6]) {
        assert init[6 * b..6 * b + 6] == group[6 * b..6 * b + 6];
      }
      PaletteBlocksAreFallback(init, m - 1);
      assert group == init + block;
      forall k | 0 <= k < |Palette| ensures Count(group, Palette[k]) == m {
        PaletteBlockCount(block, k);
        CountAppend(init, block, Palette[k]);
      }
    }
  }
}
