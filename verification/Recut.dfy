/** Cutting a text again, to the size its own cut came out at. */
module Recut {
  import Decimal
  import Utf8
  import opened OutputBuffer

  /** What is kept of a text after a cut is no longer than what is kept before it, or by one byte, and
      not empty. */
  predicate Balanced(text: string, h: nat, t: nat)
    requires t <= |text|
  {
    t < |text| && (|text| - t == h || |text| - t == h + 1)
  }

  /** Whether the cut to `cap` comes out the same under its own size: when nothing or all was cut, when it
      ends in an ellipsis, and when it is cut in balance around its marker. */
  predicate Recurs(text: string, cap: nat) {
    |text| <= cap || cap <= 3 ||
    match Settle(text, cap, |text| - cap, PASSES)
    case Never => true
    case Count(n) => Balanced(text, HeadEnd(text, cap - MarkerWidth(n)), TailStart(text, cap - MarkerWidth(n)))
  }

  // ---------------------------------------------------------------- which count the passes find

  /** Under a smaller cap and a wider marker no less is hidden. */
  lemma HiddenUnderSmallerCap(text: string, cap: nat, a: nat, smaller: nat, b: nat)
    requires MarkerWidth(a) < cap < |text| && MarkerWidth(b) < smaller < |text|
    requires cap - MarkerWidth(a) >= smaller - MarkerWidth(b)
    ensures Hidden(text, cap, a) <= Hidden(text, smaller, b)
  {
    KeptIsMonotone(text, smaller - MarkerWidth(b), cap - MarkerWidth(a));
    HiddenIs(text, cap, a, cap - MarkerWidth(a));
    HiddenIs(text, smaller, b, smaller - MarkerWidth(b));
  }

  lemma PassStaysBelow(text: string, cap: nat, omitted: nat, smaller: nat, fixed: nat)
    requires smaller <= cap < |text| && Settled(text, smaller, fixed) && omitted <= fixed
    ensures MarkerWidth(omitted) < cap && Hidden(text, cap, omitted) <= fixed
  {
    Decimal.WidthIsMonotone(omitted, fixed);
    HiddenUnderSmallerCap(text, cap, omitted, smaller, fixed);
  }

  /** The passes never go past a count that agrees with itself, under this cap or a smaller one. */
  lemma {:induction false} SettlesBelow(text: string, cap: nat, omitted: nat, passes: nat, smaller: nat, fixed: nat,
                                        outcome: Outcome)
    requires smaller <= cap < |text| && Settled(text, smaller, fixed) && omitted <= fixed
    requires Leads(text, cap, omitted, passes, outcome)
    ensures outcome.Count? ==> outcome.omitted <= fixed
    decreases passes
  {
    PassStaysBelow(text, cap, omitted, smaller, fixed);
    if passes > 0 {
      var hidden := Hidden(text, cap, omitted);
      PassLeads(text, cap, omitted, passes, hidden, outcome);
      if hidden != omitted {
        SettlesBelow(text, cap, hidden, passes - 1, smaller, fixed, outcome);
      }
    }
  }

  /** No count from the first guess on agrees with itself before `n`, under this cap or a smaller one. */
  ghost predicate Least(text: string, cap: nat, n: nat)
    requires cap < |text|
  {
    forall smaller: nat, m: nat :: smaller <= cap && Settled(text, smaller, m) && |text| - cap <= m ==> n <= m
  }

  lemma SettlesOnLeast(text: string, cap: nat, n: nat)
    requires cap < |text| && Settle(text, cap, |text| - cap, PASSES) == Count(n)
    ensures Settled(text, cap, n) && Least(text, cap, n)
  {
    forall smaller: nat, m: nat | smaller <= cap && Settled(text, smaller, m) && |text| - cap <= m
      ensures n <= m
    {
      SettlesBelow(text, cap, |text| - cap, PASSES, smaller, m, Count(n));
    }
  }

  /** A cut to `cap` that hides the `n` bytes from `h` to `t`, and the size it comes out at. */
  ghost predicate CutTo(text: string, cap: nat, n: nat, h: nat, t: nat, size: nat) {
    && MarkerWidth(n) < cap < |text|
    && h == HeadEnd(text, cap - MarkerWidth(n)) && t == TailStart(text, cap - MarkerWidth(n))
    && n == t - h && size == h + MarkerWidth(n) + |text| - t
  }

  lemma RecursIs(text: string, cap: nat, n: nat, h: nat, t: nat)
    requires 3 < cap < |text| && Settle(text, cap, |text| - cap, PASSES) == Count(n)
    requires h == HeadEnd(text, cap - MarkerWidth(n)) && t == TailStart(text, cap - MarkerWidth(n))
    ensures Recurs(text, cap) <==> Balanced(text, h, t)
  {
  }

  lemma ComesOutAs(text: string, cap: nat, n: nat, h: nat, t: nat)
    requires 3 < cap < |text| && Settle(text, cap, |text| - cap, PASSES) == Count(n)
    requires h == HeadEnd(text, cap - MarkerWidth(n)) && t == TailStart(text, cap - MarkerWidth(n))
    ensures HeadTailOf(text, cap) == Marked(text, h, t)
  {
    assert HeadTailOf(text, cap) == CutAround(text, cap, n);
  }

  lemma CutIs(text: string, cap: nat, n: nat) returns (h: nat, t: nat, size: nat)
    requires 3 < cap < |text| && Settle(text, cap, |text| - cap, PASSES) == Count(n)
    ensures CutTo(text, cap, n, h, t, size) && HeadTailOf(text, cap) == Marked(text, h, t)
    ensures Recurs(text, cap) <==> Balanced(text, h, t)
  {
    var keep := cap - MarkerWidth(n);
    h, t := HeadEnd(text, keep), TailStart(text, keep);
    size := h + MarkerWidth(n) + |text| - t;
    HiddenIs(text, cap, n, keep);
    RecursIs(text, cap, n, h, t);
    ComesOutAs(text, cap, n, h, t);
  }

  /** What a cut comes out as. */
  lemma CutOf(text: string, cap: nat) returns (n: nat, h: nat, t: nat, size: nat)
    requires Utf8.Valid(text) && 3 < cap < |text|
    ensures !MarkerFits(text, cap) ==> HeadTailOf(text, cap) == Unmarked(text, cap) && Recurs(text, cap)
    ensures MarkerFits(text, cap) ==>
              && CutTo(text, cap, n, h, t, size) && Least(text, cap, n)
              && HeadTailOf(text, cap) == Marked(text, h, t) && (Recurs(text, cap) <==> Balanced(text, h, t))
  {
    FitsWhenSettled(text, cap);
    match Settle(text, cap, |text| - cap, PASSES)
    case Never => n, h, t, size := 0, 0, 0, 0;
    case Count(found) =>
      n := found;
      SettlesOnLeast(text, cap, n);
      h, t, size := CutIs(text, cap, n);
  }

  lemma SizeFits(text: string, cap: nat, n: nat, h: nat, t: nat, size: nat)
    requires Utf8.Valid(text) && CutTo(text, cap, n, h, t, size)
    ensures 26 < MarkerWidth(n) <= size <= cap < |text| && |text| - cap <= n && |text| - size <= n
    ensures h <= (cap - MarkerWidth(n)) / 2 && cap - MarkerWidth(n) <= h + |text| - t + 6
  {
    KeptBounds(text, cap - MarkerWidth(n));
  }

  /** How much a cut keeps on each side. */
  lemma CutSides(text: string, cap: nat, n: nat, h: nat, t: nat, size: nat)
    requires CutTo(text, cap, n, h, t, size)
    ensures var keep := cap - MarkerWidth(n);
            h <= keep / 2 && |text| - t <= keep - keep / 2 && h <= t <= |text| && t - h == n
    ensures size == h + MarkerWidth(n) + (|text| - t) && MarkerWidth(n) < cap
  {
  }

  lemma CutSettles(text: string, cap: nat, n: nat, h: nat, t: nat, size: nat)
    requires CutTo(text, cap, n, h, t, size)
    ensures Settled(text, cap, n)
  {
    HiddenIs(text, cap, n, cap - MarkerWidth(n));
  }

  /** Under its own size the count does not get smaller. */
  lemma CountGrows(text: string, cap: nat, n: nat, size: nat, m: nat)
    requires Utf8.Valid(text) && size <= cap < |text| && Least(text, cap, n) && Settled(text, size, m)
    ensures n <= m && MarkerWidth(n) <= MarkerWidth(m) < size
  {
    HiddenBounds(text, size, m);
    Decimal.WidthIsMonotone(n, m);
  }

  // ---------------------------------------------------------------- balanced cuts recur

  lemma BalancedAgain(text: string, h: nat, t: nat)
    requires h <= t < |text| && Balanced(text, h, t) && (h == 0 || Utf8.Boundary(text, h)) && Utf8.Boundary(text, t)
    ensures var keep := h + |text| - t; HeadEnd(text, keep) == h && TailStart(text, keep) == t
  {
  }

  /** A count that agrees with itself and is not below the first guess is enough for a marker to fit. */
  lemma FitsBelow(text: string, size: nat, n: nat)
    requires 3 < size < |text| && |text| - size <= n && Settled(text, size, n)
    ensures MarkerFits(text, size)
  {
    var start := |text| - size;
    Decimal.WidthIsMonotone(start, n);
    HiddenIsMonotone(text, size, start, n);
    Decimal.WidthIsMonotone(Hidden(text, size, start), n);
  }

  lemma BalancedSettles(text: string, cap: nat, n: nat, h: nat, t: nat, size: nat)
    requires Utf8.Valid(text) && CutTo(text, cap, n, h, t, size) && Balanced(text, h, t)
    ensures CutTo(text, size, n, h, t, size)
  {
    SizeFits(text, cap, n, h, t, size);
    BalancedAgain(text, h, t);
  }

  lemma BalancedComesOutSame(text: string, cap: nat, n: nat, h: nat, t: nat, size: nat)
    requires Utf8.Valid(text) && CutTo(text, cap, n, h, t, size) && Balanced(text, h, t) && Least(text, cap, n)
    ensures HeadTailOf(text, size) == Marked(text, h, t)
  {
    SizeFits(text, cap, n, h, t, size);
    BalancedSettles(text, cap, n, h, t, size);
    CutSettles(text, size, n, h, t, size);
    FitsBelow(text, size, n);
    var m, g, u, z := CutOf(text, size);
    CutSettles(text, size, m, g, u, z);
    CountGrows(text, cap, n, size, m);
    SameCount(text, size, n, h, t, size, m, g, u, z);
  }

  /** One count has one cut. */
  lemma SameCount(text: string, cap: nat, n: nat, h: nat, t: nat, size: nat, m: nat, g: nat, u: nat, z: nat)
    requires CutTo(text, cap, n, h, t, size) && CutTo(text, cap, m, g, u, z)
    requires m == n
    ensures g == h && u == t && z == size
  {
  }

  // ---------------------------------------------------------------- and others do not

  /** The bytes of a marker: a line of its own, its number between brackets. */
  lemma MarkerBytes(n: nat)
    ensures var m, digits := OmittedMarker(n), |Decimal.Text(n)|;
            && |m| == 26 + digits && m[0] == '\n' && m[25 + digits] == '\n' && m[6 + digits] == ' '
            && (forall i | 0 < i < 25 + digits :: m[i] != '\n')
            && (forall i | 6 <= i < 6 + digits :: m[i] != ' ')
  {
    Decimal.TextReadsBack(n);
    var digits := Decimal.Text(n);
    assert OmittedMarker(n) == "\n... [" + digits + " bytes omitted] ...\n";
    assert forall i | 6 <= i < 6 + |digits| :: OmittedMarker(n)[i] == digits[i - 6];
    var rest := " bytes omitted] ...\n";
    assert forall i | 6 + |digits| <= i < 26 + |digits| :: OmittedMarker(n)[i] == rest[i - 6 - |digits|];
  }

  lemma MarkedByte(text: string, h: nat, t: nat, i: nat)
    requires h <= t <= |text| && i < MarkerWidth(t - h)
    ensures Marked(text, h, t)[h + i] == OmittedMarker(t - h)[i]
  {
  }

  /** Markers of different widths that start close to each other are not the same bytes. */
  lemma MarkersDiffer(text: string, h: nat, t: nat, n: nat, g: nat, u: nat, m: nat)
    requires h <= t <= |text| && g <= u <= |text| && n == t - h && m == u - g
    requires g <= h < g + MarkerWidth(m) - 1 && MarkerWidth(n) < MarkerWidth(m)
    requires |Marked(text, h, t)| == |Marked(text, g, u)|
    ensures Marked(text, g, u) != Marked(text, h, t)
  {
    MarkerBytes(n);
    MarkerBytes(m);
    if g < h {
      MarkedByte(text, h, t, 0);
      MarkedByte(text, g, u, h - g);
    } else {
      var space := 6 + |Decimal.Text(n)|;
      MarkedByte(text, h, t, space);
      MarkedByte(text, g, u, space);
    }
  }

  /** As much is kept on each side as under the smaller keep. */
  lemma KeepsMoreEachSide(text: string, less: nat, more: nat)
    requires less <= more <= |text|
    ensures HeadEnd(text, less) <= HeadEnd(text, more) && TailStart(text, more) <= TailStart(text, less)
  {
    assert less / 2 <= more / 2 && less - less / 2 <= more - more / 2;
    Utf8.BoundariesAreMonotone(text, less / 2, more / 2);
    Utf8.BoundariesAreMonotone(text, |text| - (more - more / 2), |text| - (less - less / 2));
  }

  /** How much is kept on each side under two keeps, around markers of widths `w` and `v`. */
  lemma Sides(more: nat, less: nat, h: nat, a: nat, g: nat, b: nat, w: nat, v: nat)
    requires 0 < less && more <= h + a + 6 && h <= more / 2 && a <= more - more / 2
    requires g <= less / 2 && b <= less - less / 2 && g <= h && b <= a
    requires 26 < w <= v && less == h + w + a - v && g + v + b == h + w + a
    requires !(a > 0 && (a == h || a == h + 1))
    ensures h < g + v - 1 && w < v
  {
  }

  lemma CutsAreNested(text: string, cap: nat, n: nat, h: nat, t: nat, size: nat, m: nat, g: nat, u: nat)
    requires CutTo(text, cap, n, h, t, size) && CutTo(text, size, m, g, u, size)
    requires size <= cap && MarkerWidth(n) <= MarkerWidth(m)
    ensures g <= h && t <= u
  {
    KeepsMoreEachSide(text, size - MarkerWidth(m), cap - MarkerWidth(n));
  }

  /** If nothing is lost by cutting around a marker again, the cut was balanced or the marker is wider. */
  lemma KeepsAllOnlyWhenBalanced(text: string, cap: nat, n: nat, h: nat, t: nat, size: nat, m: nat, g: nat, u: nat)
    requires Utf8.Valid(text) && CutTo(text, cap, n, h, t, size) && !Balanced(text, h, t)
    requires CutTo(text, size, m, g, u, size) && MarkerWidth(n) <= MarkerWidth(m)
    ensures g <= h < g + MarkerWidth(m) - 1 && MarkerWidth(n) < MarkerWidth(m)
  {
    var w, v := MarkerWidth(n), MarkerWidth(m);
    SizeFits(text, cap, n, h, t, size);
    CutSides(text, cap, n, h, t, size);
    CutSides(text, size, m, g, u, size);
    CutsAreNested(text, cap, n, h, t, size, m, g, u);
    Sides(cap - w, size - v, h, |text| - t, g, |text| - u, w, v);
  }

  lemma MarkedSize(text: string, cap: nat, n: nat, h: nat, t: nat, size: nat)
    requires CutTo(text, cap, n, h, t, size)
    ensures h <= t <= |text| && t - h == n && |Marked(text, h, t)| == size
  {
  }

  lemma SameSizeDiffers(text: string, cap: nat, n: nat, h: nat, t: nat, size: nat, m: nat, g: nat, u: nat)
    requires Utf8.Valid(text) && CutTo(text, cap, n, h, t, size) && !Balanced(text, h, t)
    requires CutTo(text, size, m, g, u, size) && MarkerWidth(n) <= MarkerWidth(m)
    ensures Marked(text, g, u) != Marked(text, h, t)
  {
    MarkedSize(text, cap, n, h, t, size);
    MarkedSize(text, size, m, g, u, size);
    KeepsAllOnlyWhenBalanced(text, cap, n, h, t, size, m, g, u);
    MarkersDiffer(text, h, t, n, g, u, m);
  }

  /** Cut around a marker again, an unbalanced cut comes out different. */
  lemma MarkedAgainDiffers(text: string, cap: nat, n: nat, h: nat, t: nat, size: nat,
                           m: nat, g: nat, u: nat, again: nat)
    requires Utf8.Valid(text) && CutTo(text, cap, n, h, t, size) && Least(text, cap, n) && !Balanced(text, h, t)
    requires CutTo(text, size, m, g, u, again)
    ensures Marked(text, g, u) != Marked(text, h, t)
  {
    MarkedSize(text, cap, n, h, t, size);
    MarkedSize(text, size, m, g, u, again);
    if again == size {
      SizeFits(text, cap, n, h, t, size);
      CutSettles(text, size, m, g, u, again);
      CountGrows(text, cap, n, size, m);
      SameSizeDiffers(text, cap, n, h, t, size, m, g, u);
    }
  }

  /** A handful more adds one digit at most. */
  lemma FewMoreAddOneDigit(n: nat, m: nat)
    requires m <= n + 6
    ensures MarkerWidth(m) <= MarkerWidth(n) + 1
  {
    var width := |Decimal.Text(n)|;
    Decimal.WidthBound(n, width);
    Decimal.RoomForOneMoreDigit(width);
    Decimal.WidthBound(m, width + 1);
  }

  /** A cut that keeps no less than another hides at most the bytes that boundaries cost more. */
  lemma HidesNotMuchMore(text: string, size: nat, guess: nat, keep: nat)
    requires Utf8.Valid(text) && MarkerWidth(guess) < size < |text| && keep <= size - MarkerWidth(guess)
    ensures Hidden(text, size, guess) <= |text| - keep + 6
  {
    HiddenBounds(text, size, guess);
  }

  /** Where no marker fits any more, the first one left next to no room. */
  lemma GuessTooWide(text: string, size: nat, n: nat, keep: nat)
    requires Utf8.Valid(text) && size == MarkerWidth(n) + keep && keep < |text| && n == |text| - keep
    requires 3 < size < |text| && !MarkerFits(text, size)
    ensures keep <= 1
  {
    var start := |text| - size;
    Decimal.WidthIsMonotone(start, n);
    if MarkerWidth(start) < size {
      HidesNotMuchMore(text, size, start, keep);
      FewMoreAddOneDigit(n, Hidden(text, size, start));
    }
  }

  /** So next to nothing was kept around the first. */
  lemma HardlyAnythingKept(text: string, cap: nat, n: nat, h: nat, t: nat, size: nat)
    requires Utf8.Valid(text) && CutTo(text, cap, n, h, t, size)
    requires 3 < size < |text| && !MarkerFits(text, size)
    ensures h + |text| - t <= 1
  {
    SizeFits(text, cap, n, h, t, size);
    CutSides(text, cap, n, h, t, size);
    GuessTooWide(text, size, n, h + |text| - t);
  }

  /** A text whose third byte from the end or a later one is a newline does not end in an ellipsis. */
  lemma EllipsisDiffers(text: string, h: nat, t: nat, size: nat)
    requires h <= t <= |text| && h + |text| - t <= 1 && 3 < size
    ensures Unmarked(text, size) != Marked(text, h, t)
  {
    MarkerBytes(t - h);
    MarkedByte(text, h, t, MarkerWidth(t - h) - 1);
    var r := Unmarked(text, size);
    assert forall i | |r| - 3 <= i < |r| :: r[i] == '.';
  }

  lemma UnbalancedComesOutDifferent(text: string, cap: nat, n: nat, h: nat, t: nat, size: nat)
    requires Utf8.Valid(text) && CutTo(text, cap, n, h, t, size) && Least(text, cap, n) && !Balanced(text, h, t)
    ensures HeadTailOf(text, size) != Marked(text, h, t)
  {
    SizeFits(text, cap, n, h, t, size);
    var m, g, u, again := CutOf(text, size);
    if MarkerFits(text, size) {
      MarkedAgainDiffers(text, cap, n, h, t, size, m, g, u, again);
    } else {
      HardlyAnythingKept(text, cap, n, h, t, size);
      EllipsisDiffers(text, h, t, size);
    }
  }

  // ---------------------------------------------------------------- an ellipsis recurs

  lemma NoMarkerFitsLess(text: string, cap: nat, size: nat)
    requires 3 < size <= cap < |text| && !MarkerFits(text, cap)
    ensures !MarkerFits(text, size)
  {
    if MarkerFits(text, size) {
      var start, first := |text| - size, |text| - cap;
      Decimal.WidthIsMonotone(first, start);
      HiddenUnderSmallerCap(text, cap, first, size, start);
      Decimal.WidthIsMonotone(Hidden(text, cap, first), Hidden(text, size, start));
    }
  }

  lemma UnmarkedAgain(text: string, cap: nat, size: nat)
    requires 3 < cap < |text| && size == |Unmarked(text, cap)|
    ensures 3 <= size <= cap && Unmarked(text, cap) == if size == 3 then Dots(size) else Unmarked(text, size)
  {
    assert size == Utf8.BoundaryBefore(text, cap - 3) + 3;
    Utf8.BoundariesAreMonotone(text, size - 3, cap - 3);
    if size == 3 {
      assert Unmarked(text, cap) == "...";
    }
  }

  lemma EllipsisComesOutSame(text: string, cap: nat)
    requires Utf8.Valid(text) && 3 < cap < |text| && !MarkerFits(text, cap)
    ensures HeadTailOf(text, cap) == Unmarked(text, cap)
    ensures HeadTailOf(text, |Unmarked(text, cap)|) == Unmarked(text, cap)
  {
    ThreePassesSettle(text, cap);
    var size := |Unmarked(text, cap)|;
    UnmarkedAgain(text, cap, size);
    if size > 3 {
      NoMarkerFitsLess(text, cap, size);
      ThreePassesSettle(text, size);
    }
  }

  lemma MarkedRecurs(text: string, cap: nat, n: nat, h: nat, t: nat, size: nat)
    requires Utf8.Valid(text) && CutTo(text, cap, n, h, t, size) && Least(text, cap, n)
    ensures h <= t <= |text|
    ensures HeadTailOf(text, |Marked(text, h, t)|) == Marked(text, h, t) <==> Balanced(text, h, t)
  {
    MarkedSize(text, cap, n, h, t, size);
    if Balanced(text, h, t) {
      BalancedComesOutSame(text, cap, n, h, t, size);
    } else {
      UnbalancedComesOutDifferent(text, cap, n, h, t, size);
    }
  }

  lemma CutRecurs(text: string, cap: nat)
    requires Utf8.Valid(text) && 3 < cap < |text|
    ensures HeadTailOf(text, |HeadTailOf(text, cap)|) == HeadTailOf(text, cap) <==> Recurs(text, cap)
  {
    var n, h, t, size := CutOf(text, cap);
    if !MarkerFits(text, cap) {
      EllipsisComesOutSame(text, cap);
    } else {
      MarkedRecurs(text, cap, n, h, t, size);
    }
  }

  /** Cut again to its own size, a text comes out the same byte for byte exactly when it recurs: the
      positions of the first cut tell. */
  lemma RecutIsSame(text: string, cap: nat)
    requires Utf8.Valid(text) && cap > 0
    ensures HeadTailOf(text, |HeadTailOf(text, cap)|) == HeadTailOf(text, cap) <==> Recurs(text, cap)
  {
    if 3 < cap < |text| {
      CutRecurs(text, cap);
    } else {
      assert |HeadTailOf(text, cap)| == if |text| <= cap then |text| else cap;
    }
  }

  predicate SingleBytes(text: string) {
    forall k | 0 <= k < |text| :: text[k] as int < 0x80
  }

  lemma SingleByteEnds(text: string, keep: nat)
    requires SingleBytes(text) && keep <= |text|
    ensures HeadEnd(text, keep) == keep / 2 && TailStart(text, keep) == |text| - (keep - keep / 2)
  {
  }

  lemma SingleByteCut(text: string, cap: nat, n: nat)
    requires SingleBytes(text) && 3 < cap < |text| && Settle(text, cap, |text| - cap, PASSES) == Count(n)
    ensures |HeadTailOf(text, cap)| == cap
  {
    SingleByteEnds(text, cap - MarkerWidth(n));
    var h, t, size := CutIs(text, cap, n);
    MarkedSize(text, cap, n, h, t, size);
  }

  /** Single-byte characters fill the cap, so that cutting to the size that came out is the same cut. */
  lemma SingleBytesFillCap(text: string, cap: nat)
    requires 0 < cap < |text| && SingleBytes(text)
    ensures |HeadTailOf(text, cap)| == cap
  {
    if 3 < cap {
      var outcome := Settle(text, cap, |text| - cap, PASSES);
      if outcome.Count? {
        SingleByteCut(text, cap, outcome.omitted);
      } else {
        assert Utf8.BoundaryBefore(text, cap - 3) == cap - 3;
      }
    }
  }

  lemma PrefixAgain(s: string, cap: nat)
    ensures Utf8.Prefix(s, |Utf8.Prefix(s, cap)|) == Utf8.Prefix(s, cap)
  {
  }

  lemma CutLeavesSomething(text: string, cap: nat)
    requires text != "" && cap > 0
    ensures HeadTailOf(text, cap) != ""
  {
  }

  // ---------------------------------------------------------------- a text that does not recur

  /** Every second byte is a boundary. */
  predicate Pairs(s: string) {
    forall k | 0 <= k < |s| :: Utf8.Continuation(s[k]) <==> k % 2 == 1
  }

  /** `n` times the same two-byte character. */
  function TwoByteCharacters(n: nat): (s: string)
    ensures |s| == 2 * n && Pairs(s)
  {
    seq(2 * n, k => if k % 2 == 0 then '\U{C3}' else '\U{A9}')
  }

  lemma {:induction false} TwoByteCharactersAreValid(n: nat)
    ensures Utf8.Valid(TwoByteCharacters(n))
  {
    if n > 0 {
      var s := TwoByteCharacters(n);
      TwoByteCharactersAreValid(n - 1);
      assert s[2..] == TwoByteCharacters(n - 1);
      Utf8.ValidSequence(s, 2);
    }
  }

  lemma NearestPair(s: string, i: nat)
    requires Pairs(s) && i < |s| && |s| % 2 == 0
    ensures Utf8.BoundaryBefore(s, i) == i - i % 2 && Utf8.BoundaryAfter(s, i) == i + i % 2
  {
    if i % 2 == 1 {
      assert Utf8.Continuation(s[i]) && !Utf8.Continuation(s[i - 1]);
      assert Utf8.BoundaryBefore(s, i - 1) == i - 1;
      assert Utf8.BoundaryAfter(s, i + 1) == i + 1;
    }
  }

  lemma Ends(text: string, keep: nat)
    requires |text| == 60 && 2 <= keep < 60 && Pairs(text)
    ensures HeadEnd(text, keep) == keep / 2 - keep / 2 % 2
    ensures TailStart(text, keep) == 60 - (keep - keep / 2) + (60 - (keep - keep / 2)) % 2
  {
    NearestPair(text, keep / 2);
    NearestPair(text, 60 - (keep - keep / 2));
  }

  lemma TwoDigitMarker(n: nat)
    requires 10 <= n < 100
    ensures MarkerWidth(n) == 28
  {
    assert |Decimal.Text(n / 10)| == 1;
  }

  lemma SettlesSecond(text: string, cap: nat, guess: nat, n: nat)
    requires MarkerWidth(guess) == MarkerWidth(n) < cap < |text| && |text| - cap == guess
    requires Hidden(text, cap, guess) == n
    ensures Settle(text, cap, guess, PASSES) == Count(n)
  {
    HiddenByWidth(text, cap, guess, n);
  }

  lemma SixtyBytesSettle(text: string, cap: nat, keep: nat, guess: nat, n: nat)
    requires cap < |text| && keep == cap - 28 && 2 <= keep && guess == |text| - cap
    requires n == TailStart(text, keep) - HeadEnd(text, keep) && 10 <= guess < 100 && 10 <= n < 100
    ensures Settle(text, cap, |text| - cap, PASSES) == Count(n) && MarkerWidth(n) == 28
  {
    TwoDigitMarker(guess);
    TwoDigitMarker(n);
    HiddenIs(text, cap, guess, keep);
    SettlesSecond(text, cap, guess, n);
  }

  /** How sixty bytes are cut. */
  lemma SixtyBytes(text: string, cap: nat, keep: nat, h: nat, t: nat)
    requires |text| == 60 && Pairs(text) && keep == cap - 28 && 30 <= cap < 50
    requires h == keep / 2 - keep / 2 % 2 && t == 60 - (keep - keep / 2) + (60 - (keep - keep / 2)) % 2
    ensures |HeadTailOf(text, cap)| == h + 28 + |text| - t
    ensures Recurs(text, cap) <==> Balanced(text, h, t)
  {
    Ends(text, keep);
    SixtyBytesSettle(text, cap, keep, |text| - cap, t - h);
    KnownCut(text, cap, keep, t - h, h, t);
  }

  lemma EndsOfCut(text: string, cap: nat, n: nat, g: nat, u: nat, size: nat, keep: nat)
    requires CutTo(text, cap, n, g, u, size) && keep == cap - MarkerWidth(n)
    ensures keep <= |text| && g == HeadEnd(text, keep) && u == TailStart(text, keep)
    ensures size == g + MarkerWidth(n) + |text| - u
  {
  }

  lemma KnownCut(text: string, cap: nat, keep: nat, n: nat, h: nat, t: nat)
    requires 3 < cap < |text| && Settle(text, cap, |text| - cap, PASSES) == Count(n) && keep == cap - MarkerWidth(n)
    requires h == HeadEnd(text, keep) && t == TailStart(text, keep)
    ensures |HeadTailOf(text, cap)| == h + MarkerWidth(n) + |text| - t
    ensures Recurs(text, cap) <==> Balanced(text, h, t)
  {
    var g, u, size := CutIs(text, cap, n);
    EndsOfCut(text, cap, n, g, u, size, keep);
    MarkedSize(text, cap, n, g, u, size);
  }

  lemma CutToFortyThree(text: string, cap: nat)
    requires |text| == 60 && Pairs(text) && cap == 43
    ensures |HeadTailOf(text, cap)| == 42 && !Recurs(text, cap)
  {
    SixtyBytes(text, cap, 15, 6, 52);
  }

  lemma CutToFortyTwo(text: string, cap: nat)
    requires |text| == 60 && Pairs(text) && cap == 42
    ensures |HeadTailOf(text, cap)| == 40
  {
    SixtyBytes(text, cap, 14, 6, 54);
  }

  /** Thirty characters of two bytes each: cut to 43 bytes they come out at 42, and cut to 42 at 40. */
  lemma RecutCanLose()
    ensures var text := TwoByteCharacters(30);
            && Utf8.Valid(text) && |HeadTailOf(text, 43)| == 42 && |HeadTailOf(text, 42)| == 40
            && !Recurs(text, 43)
  {
    TwoByteCharactersAreValid(30);
    CutToFortyThree(TwoByteCharacters(30), 43);
    CutToFortyTwo(TwoByteCharacters(30), 42);
  }
}
