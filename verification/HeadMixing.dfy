/** Height and tilt of a head mixed into two servo positions, and positions into pulse widths. */
module HeadMixing {
  import opened Bytes
  import opened Division

  const MIN_POSITION := 0
  const MAX_POSITION := 1023

  // ---- Mapping one range onto another ----

  /** How convertRange takes a proportional share of a range: how much of the whole, the whole, and the range. */
  type Sharing = (int, int, int) -> int

  function TruncatedShare(part: int, whole: int, range: int): int {
    if whole > 0 then Truncated(part * range, whole) else 0
  }

  /** A share of a range is none of it, all of it, or in between, whichever way the range runs. */
  ghost predicate Proportional(share: Sharing) {
    forall part, whole, range {:trigger share(part, whole, range)} | 0 <= part <= whole && 0 < whole ::
      && (range >= 0 ==> 0 <= share(part, whole, range) <= range)
      && (range <= 0 ==> range <= share(part, whole, range) <= 0)
      && (part == 0 ==> share(part, whole, range) == 0) && (part == whole ==> share(part, whole, range) == range)
  }

  lemma ProductMonotone(a: int, b: int, c: int)
    requires 0 <= a <= b && 0 <= c
    ensures 0 <= a * c <= b * c
  {
    assert b * c == a * c + (b - a) * c;
  }

  lemma QuotientBelow(a: int, whole: int, r: int)
    requires 0 < whole && 0 <= a <= whole * r && 0 <= r
    ensures 0 <= a / whole <= r
    ensures a == whole * r ==> a / whole == r
  {
    if a / whole > r {
      ProductMonotone(r + 1, a / whole, whole);
    }
    if a == whole * r && a / whole < r {
      ProductMonotone(a / whole + 1, r, whole);
    }
  }

  lemma ShareUpwards(part: int, whole: int, r: int)
    requires 0 <= part <= whole && 0 < whole && 0 <= r
    ensures 0 <= part * r && 0 <= (part * r) / whole <= r
    ensures part == 0 ==> (part * r) / whole == 0
    ensures part == whole ==> (part * r) / whole == r
  {
    ProductMonotone(part, whole, r);
    QuotientBelow(part * r, whole, r);
  }

  lemma Negated(a: int, b: int)
    ensures a * b == -(a * -b)
  {
  }

  lemma TruncatedProportional()
    ensures Proportional(TruncatedShare)
  {
    forall part: int, whole: int, range: int | 0 <= part <= whole && 0 < whole
      ensures (range >= 0 ==> 0 <= TruncatedShare(part, whole, range) <= range)
      ensures (range <= 0 ==> range <= TruncatedShare(part, whole, range) <= 0)
      ensures (part == 0 ==> TruncatedShare(part, whole, range) == 0)
      ensures (part == whole ==> TruncatedShare(part, whole, range) == range)
    {
      TruncatedBounds(part, whole, range);
    }
  }

  lemma TruncatedBounds(part: int, whole: int, range: int)
    requires 0 <= part <= whole && 0 < whole
    ensures range >= 0 ==> 0 <= TruncatedShare(part, whole, range) <= range
    ensures range <= 0 ==> range <= TruncatedShare(part, whole, range) <= 0
    ensures part == 0 ==> TruncatedShare(part, whole, range) == 0
    ensures part == whole ==> TruncatedShare(part, whole, range) == range
  {
    var r := if range >= 0 then range else -range;
    ShareUpwards(part, whole, r);
    Negated(part, range);
    TruncatedEither(part * range, part * r, whole, range >= 0);
  }

  lemma TruncatedEither(a: int, b: int, whole: int, up: bool)
    requires 0 < whole && 0 <= b && a == if up then b else -b
    ensures Truncated(a, whole) == if up then b / whole else -(b / whole)
  {
  }

  /** A truncated share is short of the exact one, or has it, by less than a unit. */
  lemma TruncatedNear(part: int, whole: int, range: int)
    requires 0 <= part <= whole && 0 < whole
    ensures var exact, share := part * range, TruncatedShare(part, whole, range) * whole;
            (range >= 0 ==> share <= exact < share + whole) && (range <= 0 ==> share - whole < exact <= share)
  {
    SignOfProduct(part, range);
  }

  lemma SignOfProduct(a: int, b: int)
    requires a >= 0
    ensures (b >= 0 ==> a * b >= 0) && (b <= 0 ==> a * b <= 0)
  {
    ProductMonotone(0, a, if b >= 0 then b else -b);
    Negated(a, b);
  }

  /** A larger part of a rising range is no smaller a share. */
  lemma TruncatedMonotone(part: int, more: int, whole: int, range: int)
    requires 0 <= part <= more && 0 < whole && 0 <= range
    ensures TruncatedShare(part, whole, range) <= TruncatedShare(more, whole, range)
  {
    ProductMonotone(part, more, range);
    QuotientMonotone(part * range, more * range, whole);
  }

  lemma QuotientMonotone(a: int, b: int, whole: int)
    requires 0 <= a <= b && 0 < whole
    ensures a / whole <= b / whole
  {
    var q, r := a / whole, b / whole;
    if r < q {
      ProductMonotone(r + 1, q, whole);
    }
  }

  function Clamp(input: int, low: int, high: int): int
    requires low <= high
  {
    if input > high then high else if input < low then low else input
  }

  /** convertRange, given how it takes shares. */
  function ConvertRange(share: Sharing, input: int, oldMin: int, oldMax: int, newMin: int, newMax: int): int
    requires oldMin < oldMax
  {
    share(Clamp(input, oldMin, oldMax) - oldMin, oldMax - oldMin, newMax - newMin) + newMin
  }

  /** The result lies between the ends of the new range, and the ends of the old one give exactly those. */
  lemma ConvertWithin(share: Sharing, input: int, oldMin: int, oldMax: int, newMin: int, newMax: int)
    requires Proportional(share) && oldMin < oldMax
    ensures var v := ConvertRange(share, input, oldMin, oldMax, newMin, newMax);
            (newMin <= newMax ==> newMin <= v <= newMax) && (newMax <= newMin ==> newMax <= v <= newMin)
    ensures ConvertRange(share, oldMin, oldMin, oldMax, newMin, newMax) == newMin
    ensures ConvertRange(share, oldMax, oldMin, oldMax, newMin, newMax) == newMax
  {
  }

  /**
   Between the ends the result is the exact one with less than a unit taken off towards the new minimum; beyond them
   it is that of the nearer end.
   */
  lemma ConvertNear(input: int, oldMin: int, oldMax: int, newMin: int, newMax: int)
    requires oldMin < oldMax
    ensures var v := ConvertRange(TruncatedShare, input, oldMin, oldMax, newMin, newMax);
            var done, exact := (v - newMin) * (oldMax - oldMin), (input - oldMin) * (newMax - newMin);
            && (oldMin <= input <= oldMax && newMin <= newMax ==> done <= exact < done + (oldMax - oldMin))
            && (oldMin <= input <= oldMax && newMax <= newMin ==> done - (oldMax - oldMin) < exact <= done)
            && (input < oldMin ==> v == newMin) && (input > oldMax ==> v == newMax)
  {
    var part := Clamp(input, oldMin, oldMax) - oldMin;
    TruncatedNear(part, oldMax - oldMin, newMax - newMin);
    TruncatedBounds(part, oldMax - oldMin, newMax - newMin);
  }

  // ---- The head ----

  datatype Head = Head(offsetMax: u16, positionMin: u16, positionMax: u16)

  function Range(h: Head): int {
    h.positionMax - h.positionMin
  }

  function Half(h: Head): int {
    h.offsetMax / 2
  }

  /** convertToHeadHeight, before its conversion to 16 bits. */
  function HeadHeight(share: Sharing, h: Head, y: u16): int
    requires h.positionMin < h.positionMax
  {
    ConvertRange(share, y, h.positionMin, h.positionMax, h.positionMin + Half(h), h.positionMax - Half(h))
  }

  /** convertToHeadTilt. */
  function HeadTilt(share: Sharing, h: Head, x: u16): int
    requires h.positionMin < h.positionMax
  {
    ConvertRange(share, x, h.positionMin, h.positionMax, 1 - Half(h), Half(h))
  }

  datatype HeadPosition = HeadPosition(left: u16, right: u16)

  /** calculateHeadPosition, with its conversions to 16 bits. */
  function Mixed(height: int, offset: int): HeadPosition {
    HeadPosition((height % 0x1_0000 - offset) % 0x1_0000, (height % 0x1_0000 + offset) % 0x1_0000)
  }

  /** The two positions for a height and a tilt asked for. */
  function Position(share: Sharing, h: Head, y: u16, x: u16): HeadPosition
    requires h.positionMin < h.positionMax
  {
    Mixed(HeadHeight(share, h, y), HeadTilt(share, h, x))
  }

  predicate Within(h: Head, p: HeadPosition) {
    h.positionMin <= p.left <= h.positionMax && h.positionMin <= p.right <= h.positionMax
  }

  lemma MixedStays(h: Head, half: int, height: int, tilt: int)
    requires h.positionMin + half <= height <= h.positionMax - half && 1 - half <= tilt <= half && 1 <= half
    ensures Within(h, Mixed(height, tilt))
    ensures Mixed(height, tilt).left == height - tilt && Mixed(height, tilt).right == height + tilt
  {
  }

  // ---- What the head does ----

  predicate IsAt(p: HeadPosition, left: int, right: int) {
    p.left == left && p.right == right
  }

  lemma HeightEnds(share: Sharing, h: Head)
    requires Proportional(share) && h.positionMin < h.positionMax && h.offsetMax <= Range(h)
    ensures HeadHeight(share, h, h.positionMin) == h.positionMin + h.offsetMax / 2
    ensures HeadHeight(share, h, h.positionMax) == h.positionMax - h.offsetMax / 2
    ensures HeadTilt(share, h, h.positionMin) == 1 - h.offsetMax / 2
    ensures HeadTilt(share, h, h.positionMax) == h.offsetMax / 2
  {
    ConvertWithin(share, 0, h.positionMin, h.positionMax, h.positionMin + Half(h), h.positionMax - Half(h));
    ConvertWithin(share, 0, h.positionMin, h.positionMax, 1 - Half(h), Half(h));
  }

  /** The left side is the height less the tilt, and the right side the height and the tilt. */
  lemma PositionSplits(share: Sharing, h: Head, y: u16, x: u16)
    requires Proportional(share) && h.positionMin < h.positionMax && 2 <= h.offsetMax <= Range(h)
    ensures var height, tilt := HeadHeight(share, h, y), HeadTilt(share, h, x);
            IsAt(Position(share, h, y, x), height - tilt, height + tilt)
  {
    ConvertWithin(share, y, h.positionMin, h.positionMax, h.positionMin + Half(h), h.positionMax - Half(h));
    ConvertWithin(share, x, h.positionMin, h.positionMax, 1 - Half(h), Half(h));
    MixedStays(h, Half(h), HeadHeight(share, h, y), HeadTilt(share, h, x));
  }

  /** The four corners: what the lowest and highest height and tilt make of the two sides. */
  lemma HeadEnds(share: Sharing, h: Head)
    requires Proportional(share) && h.positionMin < h.positionMax && 2 <= h.offsetMax <= Range(h)
    ensures var low, high, swing := h.positionMin, h.positionMax, h.offsetMax - h.offsetMax % 2;
            && IsAt(Position(share, h, low, low), low + swing - 1, low + 1)
            && IsAt(Position(share, h, low, high), low, low + swing)
            && IsAt(Position(share, h, high, low), high - 1, high - swing + 1)
            && IsAt(Position(share, h, high, high), high - swing, high)
  {
    HeightEnds(share, h);
    PositionSplits(share, h, h.positionMin, h.positionMin);
    PositionSplits(share, h, h.positionMin, h.positionMax);
    PositionSplits(share, h, h.positionMax, h.positionMin);
    PositionSplits(share, h, h.positionMax, h.positionMax);
  }

  lemma ConvertMonotone(input: int, more: int, oldMin: int, oldMax: int, newMin: int, newMax: int)
    requires oldMin < oldMax && newMin <= newMax && input <= more
    ensures ConvertRange(TruncatedShare, input, oldMin, oldMax, newMin, newMax)
            <= ConvertRange(TruncatedShare, more, oldMin, oldMax, newMin, newMax)
  {
    TruncatedMonotone(Clamp(input, oldMin, oldMax) - oldMin, Clamp(more, oldMin, oldMax) - oldMin, oldMax - oldMin,
                      newMax - newMin);
  }

  /** Asking for more height never lowers either side, and asking for more tilt never brings them closer. */
  lemma HeadMoves(h: Head, y: u16, higher: u16, x: u16, further: u16)
    requires h.positionMin < h.positionMax && 2 <= h.offsetMax <= Range(h) && y <= higher && x <= further
    ensures HeadHeight(TruncatedShare, h, y) <= HeadHeight(TruncatedShare, h, higher)
    ensures HeadTilt(TruncatedShare, h, x) <= HeadTilt(TruncatedShare, h, further)
  {
    ConvertMonotone(y, higher, h.positionMin, h.positionMax, h.positionMin + Half(h), h.positionMax - Half(h));
    ConvertMonotone(x, further, h.positionMin, h.positionMax, 1 - Half(h), Half(h));
  }

  // ---- Overflow ----

  predicate Fits32(x: int) {
    -0x8000_0000 <= x < 0x8000_0000
  }

  /** The product that convertRange forms on the way. */
  function Product(input: int, oldMin: int, oldMax: int, newMin: int, newMax: int): int
    requires oldMin < oldMax
  {
    (Clamp(input, oldMin, oldMax) - oldMin) * (newMax - newMin)
  }

  function HeightProduct(h: Head, y: u16): int
    requires h.positionMin < h.positionMax
  {
    Product(y, h.positionMin, h.positionMax, h.positionMin + Half(h), h.positionMax - Half(h))
  }

  function TiltProduct(h: Head, x: u16): int
    requires h.positionMin < h.positionMax
  {
    Product(x, h.positionMin, h.positionMax, 1 - Half(h), Half(h))
  }

  predicate NoOverflow(h: Head) {
    Range(h) * (Range(h) - 2 * Half(h)) < 0x8000_0000 && Range(h) * (2 * Half(h) - 1) < 0x8000_0000
  }

  /** The 32-bit products are free of overflow for every input exactly when they are for the largest. */
  lemma OverflowExactly(h: Head)
    requires h.positionMin < h.positionMax && h.offsetMax <= Range(h)
    ensures NoOverflow(h) <==> forall v: u16 :: Fits32(HeightProduct(h, v)) && Fits32(TiltProduct(h, v))
  {
    var top := h.positionMax;
    assert HeightProduct(h, top) == Range(h) * (Range(h) - 2 * Half(h));
    assert TiltProduct(h, top) == Range(h) * (2 * Half(h) - 1);
    forall v: u16
      ensures NoOverflow(h) ==> Fits32(HeightProduct(h, v)) && Fits32(TiltProduct(h, v))
    {
      var part := Clamp(v, h.positionMin, h.positionMax) - h.positionMin;
      ProductMonotone(part, Range(h), Range(h) - 2 * Half(h));
      if 2 <= h.offsetMax {
        ProductMonotone(part, Range(h), 2 * Half(h) - 1);
      } else {
        assert TiltProduct(h, v) == -part;
      }
    }
  }

  /** A head whose positions are servo positions never overflows. */
  lemma ServoRangeFits(h: Head)
    requires h.positionMin < h.positionMax && 2 <= h.offsetMax <= Range(h) && h.positionMax <= MAX_POSITION
    ensures NoOverflow(h)
  {
    ProductMonotone(Range(h), 1023, Range(h) - 2 * Half(h));
    ProductMonotone(Range(h), 1023, 2 * Half(h) - 1);
  }

  // ---- Staying in range ----

  /** The position is computed without overflow, and lies within the range. */
  predicate Sound(share: Sharing, h: Head, y: u16, x: u16)
    requires h.positionMin < h.positionMax
  {
    Fits32(HeightProduct(h, y)) && Fits32(TiltProduct(h, x)) && Within(h, Position(share, h, y, x))
  }

  /** Any height and tilt asked for come out within the range, if no product overflows. */
  lemma PositionWithin(share: Sharing, h: Head, y: u16, x: u16)
    requires Proportional(share) && h.positionMin < h.positionMax && 2 <= h.offsetMax <= Range(h) && NoOverflow(h)
    ensures Sound(share, h, y, x)
  {
    OverflowExactly(h);
    ConvertWithin(share, y, h.positionMin, h.positionMax, h.positionMin + Half(h), h.positionMax - Half(h));
    ConvertWithin(share, x, h.positionMin, h.positionMax, 1 - Half(h), Half(h));
    MixedStays(h, Half(h), HeadHeight(share, h, y), HeadTilt(share, h, x));
  }

  /** With an offset under two, lowest height and lowest tilt together end up one below the range. */
  lemma LowestLeaves(share: Sharing, h: Head)
    requires Proportional(share) && h.positionMin < h.positionMax && h.offsetMax < 2
    ensures Position(share, h, h.positionMin, h.positionMin).left == (h.positionMin as int - 1) % 0x1_0000
  {
    ConvertWithin(share, 0, h.positionMin, h.positionMax, h.positionMin + Half(h), h.positionMax - Half(h));
    ConvertWithin(share, 0, h.positionMin, h.positionMax, 1 - Half(h), Half(h));
    assert Half(h) == 0;
    assert HeadHeight(share, h, h.positionMin) == h.positionMin && HeadTilt(share, h, h.positionMin) == 1;
    MixedBelow(h.positionMin);
  }

  lemma MixedBelow(low: u16)
    ensures Mixed(low, 1).left == (low as int - 1) % 0x1_0000
  {
  }

  /**
   Mixing never overflows or leaves the range, whatever is asked for, exactly for the heads whose largest products fit
   32 bits and whose offset is at least two; only a range of all 16-bit positions, which nothing can leave, would need
   no such offset, and its products do not fit.
   */
  lemma MixedInRange(share: Sharing, h: Head)
    requires Proportional(share) && h.positionMin < h.positionMax && h.offsetMax <= Range(h)
    ensures 2 <= h.offsetMax && NoOverflow(h) <==> forall y: u16, x: u16 :: Sound(share, h, y, x)
  {
    OverflowExactly(h);
    if 2 <= h.offsetMax && NoOverflow(h) {
      forall y: u16, x: u16
        ensures Sound(share, h, y, x)
      {
        PositionWithin(share, h, y, x);
      }
    } else if NoOverflow(h) {
      LowestUnsound(share, h);
    } else {
      var v: u16 :| !(Fits32(HeightProduct(h, v)) && Fits32(TiltProduct(h, v)));
      assert !Sound(share, h, v, v);
    }
  }

  lemma LowestUnsound(share: Sharing, h: Head)
    requires Proportional(share) && h.positionMin < h.positionMax && h.offsetMax < 2 && NoOverflow(h)
    ensures !Sound(share, h, h.positionMin, h.positionMin)
  {
    LowestLeaves(share, h);
    RangeBound(h);
    BelowLeaves(h, Position(share, h, h.positionMin, h.positionMin));
    assert !Within(h, Position(share, h, h.positionMin, h.positionMin));
  }

  lemma BelowLeaves(h: Head, p: HeadPosition)
    requires h.positionMin < h.positionMax && Range(h) < 0xFFFF && p.left == (h.positionMin as int - 1) % 0x1_0000
    ensures !Within(h, p)
  {
  }

  /** Without an offset, a range whose square fits is not all of 16 bits. */
  lemma RangeBound(h: Head)
    requires h.positionMin < h.positionMax && h.offsetMax < 2 && NoOverflow(h)
    ensures Range(h) < 0xFFFF
  {
    assert Half(h) == 0;
    assert Range(h) == 0xFFFF ==> Range(h) * Range(h) == 0xFFFF * 0xFFFF;
  }

  // ---- Servos ----

  /** positionToMicroseconds. */
  function Microseconds(position: int, low: u16, high: u16): int {
    ConvertRange(TruncatedShare, position, MIN_POSITION, MAX_POSITION, low, high)
  }

  /** A pulse stays between the servo's shortest and longest; the ends of the range give exactly those. */
  lemma PulseWithin(position: int, low: u16, high: u16)
    ensures low <= high ==> low <= Microseconds(position, low, high) <= high
    ensures high <= low ==> high <= Microseconds(position, low, high) <= low
    ensures Microseconds(MIN_POSITION, low, high) == low && Microseconds(MAX_POSITION, low, high) == high
  {
    TruncatedProportional();
    ConvertWithin(TruncatedShare, position, MIN_POSITION, MAX_POSITION, low, high);
  }

  class Servo {
    const minPulseUs: u16
    const maxPulseUs: u16
    const inverted: bool
    var desiredMicroseconds: int
    var currentPosition: u16

    constructor (low: u16, high: u16, flipped: bool, microseconds: int, position: u16)
      ensures minPulseUs == low && maxPulseUs == high && inverted == flipped
      ensures desiredMicroseconds == microseconds && currentPosition == position
    {
      minPulseUs, maxPulseUs, inverted := low, high, flipped;
      desiredMicroseconds, currentPosition := microseconds, position;
    }

    /** Where an accepted position puts the servo. */
    ghost function Placed(position: u16): int {
      if inverted then MAX_POSITION - position else position
    }

    /** move: a position outside the servo range is refused and changes nothing. */
    method Move(position: u16) returns (accepted: bool)
      modifies this
      ensures accepted <==> MIN_POSITION <= position <= MAX_POSITION
      ensures !accepted ==> desiredMicroseconds == old(desiredMicroseconds) && currentPosition == old(currentPosition)
      ensures accepted ==> currentPosition == Placed(position)
      ensures accepted ==> desiredMicroseconds == Microseconds(currentPosition, minPulseUs, maxPulseUs)
      ensures accepted && minPulseUs <= maxPulseUs ==> minPulseUs <= desiredMicroseconds <= maxPulseUs
    {
      if !(position >= MIN_POSITION && position <= MAX_POSITION) {
        return false;
      }
      var target := position;
      if inverted {
        target := MAX_POSITION - position;
      }
      PulseWithin(target, minPulseUs, maxPulseUs);
      desiredMicroseconds := Microseconds(target, minPulseUs, maxPulseUs);
      currentPosition := target;
      accepted := true;
    }
  }

  /** Both servos of a head take every mixed position, and drive pulses within their own range. */
  method MoveHead(h: Head, left: Servo, right: Servo, y: u16, x: u16) returns (accepted: bool)
    requires h.positionMin < h.positionMax <= MAX_POSITION && 2 <= h.offsetMax <= Range(h) && left != right
    modifies left, right
    ensures accepted && NoOverflow(h)
    ensures left.currentPosition == left.Placed(Position(TruncatedShare, h, y, x).left)
    ensures right.currentPosition == right.Placed(Position(TruncatedShare, h, y, x).right)
    ensures left.minPulseUs <= left.maxPulseUs ==> left.minPulseUs <= left.desiredMicroseconds <= left.maxPulseUs
    ensures right.minPulseUs <= right.maxPulseUs ==> right.minPulseUs <= right.desiredMicroseconds <= right.maxPulseUs
  {
    TruncatedProportional();
    ServoRangeFits(h);
    PositionWithin(TruncatedShare, h, y, x);
    var p := Position(TruncatedShare, h, y, x);
    var l := left.Move(p.left);
    var r := right.Move(p.right);
    accepted := l && r;
  }
}
