/**
 Keeping the camera's target inside a box: what `_encloseToBoundary` of camera-controls.js does to a
 position that is to move by an offset.
 */
module CameraBoundary {

  import opened Reals
  import opened Vectors

  /** One end of a range: none (the source's infinities) or a coordinate. */
  datatype Limit = Open | At(value: real)

  datatype Range = Range(low: Limit, high: Limit) {

    predicate Contains(v: real) {
      (low.At? ==> low.value <= v) && (high.At? ==> v <= high.value)
    }

    predicate IsNonEmpty() {
      low.At? && high.At? ==> low.value <= high.value
    }

    /** `max(low, min(high, v))`. */
    function Clamp(v: real): real {
      var below := if high.At? && high.value < v then high.value else v;
      if low.At? && below < low.value then low.value else below
    }
  }

  datatype Box = Box(x: Range, y: Range, z: Range) {

    predicate Contains(p: Vector3) {
      x.Contains(p.x) && y.Contains(p.y) && z.Contains(p.z)
    }

    predicate IsNonEmpty() {
      x.IsNonEmpty() && y.IsNonEmpty() && z.IsNonEmpty()
    }

    function Clamp(p: Vector3): Vector3 {
      Vector3(x.Clamp(p.x), y.Clamp(p.y), z.Clamp(p.z))
    }
  }

  function Length2(v: Vector3): real {
    v.Dot(v)
  }

  /** How far the box pushes the wanted position back. */
  function PushBack(box: Box, position: Vector3, offset: Vector3): Vector3 {
    box.Clamp(position.Plus(offset)).Minus(position.Plus(offset))
  }

  /** The divisor of the friction branch is not zero whenever that branch is taken. */
  predicate IsDefined(box: Box, position: Vector3, offset: Vector3, friction: real) {
    var back := PushBack(box, position, offset);
    friction != 0.0 && Length2(offset) != 0.0 && Length2(back) != 0.0 && Length2(back) != Length2(offset) ==>
      offset.Dot(back) != 0.0
  }

  function Enclosed(box: Box, position: Vector3, offset: Vector3, friction: real): Vector3
    requires IsDefined(box, position, offset, friction)
  {
    var back := PushBack(box, position, offset);
    if Length2(offset) == 0.0 then position
    else if Length2(back) == 0.0 then position.Plus(offset)
    else if Length2(back) == Length2(offset) then position
    else if friction == 0.0 then position.Plus(offset).Plus(back)
    else Slid(position, offset, back, friction)
  }

  /** With friction the offset is shortened and only part of the push is applied. */
  function Slid(position: Vector3, offset: Vector3, back: Vector3, friction: real): Vector3
    requires offset.Dot(back) != 0.0
  {
    var factor := OffsetFactor(friction, Length2(back), offset.Dot(back));
    position.Plus(offset.Times(factor)).Plus(back.Times(1.0 - friction))
  }

  function OffsetFactor(friction: real, squared: real, dot: real): real
    requires dot != 0.0
  {
    1.0 + Product(friction, squared) / dot
  }

  // ---------------------------------------------------------------- products

  lemma SignOfProduct(a: real, b: real, product: real)
    requires product == a * b
    ensures a > 0.0 && b > 0.0 ==> product > 0.0
    ensures a < 0.0 && b > 0.0 ==> product < 0.0
    ensures a > 0.0 && b < 0.0 ==> product < 0.0
    ensures a < 0.0 && b < 0.0 ==> product > 0.0
    ensures a == 0.0 || b == 0.0 ==> product == 0.0
  {}

  lemma SquareSign(a: real)
    ensures Product(a, a) >= 0.0 && (Product(a, a) == 0.0 <==> a == 0.0)
  {
    SignOfProduct(a, a, Product(a, a));
    hide Product;
  }

  /** A squared length is zero for the null vector only. */
  lemma LengthIsZeroExactlyAtOrigin(v: Vector3)
    ensures Length2(v) >= 0.0 && (Length2(v) == 0.0 <==> v == ORIGIN)
  {
    SquareSign(v.x);
    SquareSign(v.y);
    SquareSign(v.z);
    hide Product;
  }

  // ---------------------------------------------------------------- one axis

  /** Inside a range the push is against the offset and never larger. */
  lemma PushOnAxis(range: Range, p: real, o: real)
    requires range.IsNonEmpty() && range.Contains(p)
    ensures var d := range.Clamp(p + o) - (p + o);
            && range.Contains(p + o + d)
            && IsAgainst(o, d)
            && (d > 0.0 ==> range.low == At(p + o + d))
            && (d < 0.0 ==> range.high == At(p + o + d))
            && (d == 0.0 ==> range.Contains(p + o))
  {}

  predicate IsAgainst(o: real, d: real) {
    (o >= 0.0 && -o <= d <= 0.0) || (o <= 0.0 && 0.0 <= d <= -o)
  }

  /** The squared push is at most its share of the offset, which is at most the squared offset. */
  lemma SquaresOnAxis(o: real, d: real)
    requires IsAgainst(o, d)
    ensures 0.0 <= Product(d, d) <= -Product(o, d) <= Product(o, o)
    ensures Product(d, d) == Product(o, o) ==> d == -o
  {
    var rest := o + d;
    var onPush, onOffset := rest * d, rest * o;
    assert onPush == Product(o, d) + Product(d, d) && onOffset == Product(o, o) + Product(o, d);
    SignOfProduct(rest, d, onPush);
    SignOfProduct(rest, o, onOffset);
    SquareSign(d);
    hide Product;
  }

  /** Inside the box this holds of every wanted move. */
  predicate PushesBack(offset: Vector3, back: Vector3) {
    IsAgainst(offset.x, back.x) && IsAgainst(offset.y, back.y) && IsAgainst(offset.z, back.z)
  }

  lemma BoxPushesBack(box: Box, position: Vector3, offset: Vector3)
    requires box.IsNonEmpty() && box.Contains(position)
    ensures PushesBack(offset, PushBack(box, position, offset))
    ensures box.Contains(box.Clamp(position.Plus(offset)))
  {
    PushOnAxis(box.x, position.x, offset.x);
    PushOnAxis(box.y, position.y, offset.y);
    PushOnAxis(box.z, position.z, offset.z);
  }

  /** A push as long as the offset undoes it. */
  lemma StuckMeansUndone(offset: Vector3, back: Vector3)
    requires PushesBack(offset, back) && Length2(back) == Length2(offset)
    ensures offset.Plus(back) == ORIGIN
  {
    SquaresOnAxis(offset.x, back.x);
    SquaresOnAxis(offset.y, back.y);
    SquaresOnAxis(offset.z, back.z);
    hide Product, IsAgainst;
  }

  // ---------------------------------------------------------------- without friction

  /**
   From inside the box and without friction every branch - no offset, nothing to clamp, completely
   stuck, sliding - ends at the point of the box nearest to the wanted position.
   */
  lemma EnclosedIsProjection(box: Box, position: Vector3, offset: Vector3)
    requires box.IsNonEmpty() && box.Contains(position)
    ensures Enclosed(box, position, offset, 0.0) == box.Clamp(position.Plus(offset))
    ensures box.Contains(Enclosed(box, position, offset, 0.0))
  {
    hide Product, Length2, Vector3.Dot, Box.Contains, Range.Clamp, Slid;
    var back := PushBack(box, position, offset);
    BoxPushesBack(box, position, offset);
    LengthIsZeroExactlyAtOrigin(offset);
    LengthIsZeroExactlyAtOrigin(back);
    if Length2(back) == Length2(offset) {
      StuckMeansUndone(offset, back);
    }
  }

  /** The clamped point is in the box, and no point of the box is nearer on any axis. */
  lemma ClampIsNearest(box: Box, wanted: Vector3, other: Vector3)
    requires box.IsNonEmpty() && box.Contains(other)
    ensures box.Contains(box.Clamp(wanted))
    ensures Length2(box.Clamp(wanted).Minus(wanted)) <= Length2(other.Minus(wanted))
  {
    NearestOnAxis(box.x, wanted.x, other.x);
    NearestOnAxis(box.y, wanted.y, other.y);
    NearestOnAxis(box.z, wanted.z, other.z);
    hide Product, Range.Clamp;
  }

  lemma NearestOnAxis(range: Range, wanted: real, other: real)
    requires range.IsNonEmpty() && range.Contains(other)
    ensures range.Contains(range.Clamp(wanted))
    ensures var near, far := range.Clamp(wanted) - wanted, other - wanted; Product(near, near) <= Product(far, far)
  {
    var near, far := range.Clamp(wanted) - wanted, other - wanted;
    SmallerSquare(near, far);
    hide Product;
  }

  lemma SmallerSquare(a: real, b: real)
    requires 0.0 <= a <= b || b <= a <= 0.0
    ensures Product(a, a) <= Product(b, b)
  {
    var difference, sum := b - a, b + a;
    SignOfProduct(difference, sum, difference * sum);
    assert Product(b, b) - Product(a, a) == difference * sum;
    hide Product;
  }

  /**
   From outside the box the position may stay where it is: when the push happens to be as long as the
   offset it is taken for stuck. That and a null offset are the only exceptions.
   */
  lemma ProjectsExactlyUnlessStuckOutside(box: Box, position: Vector3, offset: Vector3)
    requires box.IsNonEmpty()
    ensures Enclosed(box, position, offset, 0.0) == box.Clamp(position.Plus(offset))
            <==> box.Contains(position)
                 || (offset != ORIGIN && Length2(PushBack(box, position, offset)) != Length2(offset))
  {
    hide Product, Length2, Vector3.Dot, Slid, Box.Contains, Range.Clamp;
    if box.Contains(position) {
      EnclosedIsProjection(box, position, offset);
    } else {
      ClampIsInside(box, position.Plus(offset));
      LengthIsZeroExactlyAtOrigin(offset);
      LengthIsZeroExactlyAtOrigin(PushBack(box, position, offset));
    }
  }

  lemma ClampIsInside(box: Box, wanted: Vector3)
    requires box.IsNonEmpty()
    ensures box.Contains(box.Clamp(wanted))
  {}

  lemma StuckOutside()
    ensures var box := Box(Range(At(0.0), At(1.0)), Range(Open, Open), Range(Open, Open));
            var position, offset := Vector3(-1.0, 0.0, 0.0), Vector3(0.5, 0.0, 0.0);
            Enclosed(box, position, offset, 0.0) == position && !box.Contains(position)
  {
    hide *;
    var box := Box(Range(At(0.0), At(1.0)), Range(Open, Open), Range(Open, Open));
    StuckWhenPushedOn(box, Vector3(-1.0, 0.0, 0.0), Vector3(0.5, 0.0, 0.0));
  }

  /** A position so far outside that the box pushes it further along the offset by just as much. */
  lemma StuckWhenPushedOn(box: Box, position: Vector3, offset: Vector3)
    requires box.x.low.At? && box.x.low.value == position.x + 2.0 * offset.x && offset.x > 0.0
    requires box.y == Range(Open, Open) && box.z == Range(Open, Open) && offset.y == 0.0 && offset.z == 0.0
    ensures Enclosed(box, position, offset, 0.0) == position && !box.Contains(position)
  {
    assert PushBack(box, position, offset) == offset;
    LengthIsZeroExactlyAtOrigin(offset);
    hide Product, Length2, Vector3.Dot, Slid;
  }

  // ---------------------------------------------------------------- any number of moves

  /** The position after moves by each offset in turn. */
  function AfterMoves(box: Box, position: Vector3, offsets: seq<Vector3>): Vector3 {
    if offsets == [] then position
    else Enclosed(box, AfterMoves(box, position, offsets[..|offsets| - 1]), offsets[|offsets| - 1], 0.0)
  }

  lemma {:induction false} MovesStayInside(box: Box, position: Vector3, offsets: seq<Vector3>)
    requires box.IsNonEmpty() && box.Contains(position)
    ensures box.Contains(AfterMoves(box, position, offsets))
  {
    if offsets != [] {
      var before := offsets[..|offsets| - 1];
      MovesStayInside(box, position, before);
      EnclosedIsProjection(box, AfterMoves(box, position, before), offsets[|offsets| - 1]);
    }
  }

  // ---------------------------------------------------------------- with friction

  /** The axes that are pushed back are pushed back by the same share of their offset. */
  predicate EqualShares(offset: Vector3, back: Vector3) {
    && (back.x != 0.0 && back.y != 0.0 ==> Product(back.x, offset.y) == Product(back.y, offset.x))
    && (back.x != 0.0 && back.z != 0.0 ==> Product(back.x, offset.z) == Product(back.z, offset.x))
    && (back.y != 0.0 && back.z != 0.0 ==> Product(back.y, offset.z) == Product(back.z, offset.y))
  }

  /** Whatever is pushed back is pushed against the offset: the divisor of the friction branch is negative. */
  lemma PushIsAgainstOffset(offset: Vector3, back: Vector3)
    requires PushesBack(offset, back)
    ensures 0.0 <= Length2(back) <= -offset.Dot(back) <= Length2(offset)
  {
    SquaresOnAxis(offset.x, back.x);
    SquaresOnAxis(offset.y, back.y);
    SquaresOnAxis(offset.z, back.z);
    hide Product, IsAgainst;
  }

  lemma UndoneHasEqualShares(offset: Vector3, back: Vector3)
    requires offset.Plus(back) == ORIGIN
    ensures EqualShares(offset, back)
  {
    Negate(offset.x, offset.y);
    Negate(offset.x, offset.z);
    Negate(offset.y, offset.z);
    hide Product;
  }

  lemma Negate(a: real, b: real)
    ensures Product(-a, b) == Product(-b, a)
  {}

  /** The push in units of the offset: a weighted average of the shares of all axes, negated. */
  lemma ShareIsInUnitInterval(squared: real, dot: real, share: real)
    requires 0.0 < squared <= -dot && share == squared / dot
    ensures -1.0 <= share < 0.0 && Product(share, dot) == squared
  {
    var product := share * dot;
    assert product == squared;
    SignOfProduct(share, dot, product);
    var rest := (share + 1.0) * dot;
    assert rest == product + dot;
    SignOfProduct(share + 1.0, dot, rest);
  }

  /** On a pushed-back axis: the average share is not less than the share of this axis. */
  predicate IsPushedEnough(o: real, d: real, share: real) {
    Product(d, Product(share, o) - d) >= 0.0
  }

  /** The slid coordinate misses the clamped one by the friction times the excess. */
  lemma SlidCoordinate(p: real, o: real, d: real, share: real, friction: real, factor: real)
    requires factor == 1.0 + friction * share
    ensures p + Product(o, factor) + Product(d, 1.0 - friction) == p + o + d + Product(friction, Product(share, o) - d)
  {
    var scaled := share * o;
    assert Product(o, factor) == o + friction * scaled;
    assert Product(friction, scaled - d) == friction * scaled - friction * d;
  }

  lemma SlidOnAxis(range: Range, p: real, o: real, share: real, friction: real, result: real)
    requires range.IsNonEmpty() && range.Contains(p)
    requires -1.0 <= share < 0.0 && 0.0 < friction <= 1.0
    requires var d := range.Clamp(p + o) - (p + o);
             result == p + o + d + Product(friction, Product(share, o) - d)
    ensures range.Contains(result) <==> IsPushedEnough(o, range.Clamp(p + o) - (p + o), share)
  {
    var d := range.Clamp(p + o) - (p + o);
    var excess := Product(share, o) - d;
    PushOnAxis(range, p, o);
    SignOfProduct(friction, excess, Product(friction, excess));
    SignOfProduct(d, excess, Product(d, excess));
    StaysOnOffsetSide(o, d, share, friction, Product(friction, excess));
    hide Product, Range.Clamp;
  }

  /** The slid coordinate never lies behind the position, and not beyond the wanted one when nothing is pushed. */
  lemma StaysOnOffsetSide(o: real, d: real, share: real, friction: real, shift: real)
    requires IsAgainst(o, d) && -1.0 <= share < 0.0 && 0.0 < friction <= 1.0
    requires shift == Product(friction, Product(share, o) - d)
    ensures o >= 0.0 ==> 0.0 <= o + d + shift
    ensures o <= 0.0 ==> o + d + shift <= 0.0
    ensures d == 0.0 ==> (o >= 0.0 ==> shift <= 0.0) && (o <= 0.0 ==> shift >= 0.0)
  {
    var rest, left, kept := o + d, 1.0 - friction, o * (1.0 + share);
    assert o + d + shift == left * rest + friction * kept by {
      assert kept == o + share * o;
      assert left * rest == rest - friction * rest;
      assert shift == friction * (share * o) - friction * d;
      assert friction * kept == friction * o + friction * (share * o);
    }
    SignOfProduct(left, rest, left * rest);
    SignOfProduct(o, 1.0 + share, kept);
    SignOfProduct(friction, kept, friction * kept);
    SignOfProduct(share, o, Product(share, o));
    SignOfProduct(friction, Product(share, o) - d, shift);
    hide Product;
  }

  lemma SlidStaysInsideExactly(
    box: Box, position: Vector3, offset: Vector3, back: Vector3, friction: real, share: real)
    requires box.IsNonEmpty() && box.Contains(position) && 0.0 < friction <= 1.0
    requires back == PushBack(box, position, offset) && offset.Dot(back) != 0.0
    requires -1.0 <= share < 0.0 && share == Length2(back) / offset.Dot(back)
    ensures box.Contains(Slid(position, offset, back, friction))
            <==> IsPushedEnough(offset.x, back.x, share) && IsPushedEnough(offset.y, back.y, share)
                 && IsPushedEnough(offset.z, back.z, share)
  {
    hide Product, Length2, Vector3.Dot, OffsetFactor, IsPushedEnough, Range.Clamp, Range.Contains;
    var slid := Slid(position, offset, back, friction);
    var factor := OffsetFactor(friction, Length2(back), offset.Dot(back));
    FactorOfShare(friction, Length2(back), offset.Dot(back), share);
    SlidCoordinate(position.x, offset.x, back.x, share, friction, factor);
    SlidCoordinate(position.y, offset.y, back.y, share, friction, factor);
    SlidCoordinate(position.z, offset.z, back.z, share, friction, factor);
    SlidOnAxis(box.x, position.x, offset.x, share, friction, slid.x);
    SlidOnAxis(box.y, position.y, offset.y, share, friction, slid.y);
    SlidOnAxis(box.z, position.z, offset.z, share, friction, slid.z);
  }

  lemma FactorOfShare(friction: real, squared: real, dot: real, share: real)
    requires dot != 0.0 && share == squared / dot
    ensures OffsetFactor(friction, squared, dot) == 1.0 + friction * share
  {
    var product := friction * share;
    assert share * dot == squared;
    assert product * dot == Product(friction, squared);
    QuotientIs(Product(friction, squared), dot, product);
    hide Product;
  }

  lemma QuotientIs(a: real, b: real, quotient: real)
    requires b != 0.0 && quotient * b == a
    ensures a / b == quotient
  {}

  // The excesses of all axes, weighted by the push, add up to nothing: if none is positive, all are zero.

  lemma EqualSharesExactly(offset: Vector3, back: Vector3, share: real)
    requires PushesBack(offset, back) && share < 0.0
    requires offset.Dot(back) != 0.0 && Product(share, offset.Dot(back)) == Length2(back)
    ensures EqualShares(offset, back)
            <==> IsPushedEnough(offset.x, back.x, share) && IsPushedEnough(offset.y, back.y, share)
                 && IsPushedEnough(offset.z, back.z, share)
  {
    hide Product, Vector3.Dot, Length2, IsAgainst, EqualShares, HasShare;
    WeightedExcess(offset, back, share);
    HasShareExactly(offset.x, back.x, share);
    HasShareExactly(offset.y, back.y, share);
    HasShareExactly(offset.z, back.z, share);
    if EqualShares(offset, back) {
      EqualSharesAreAverage(offset, back, share);
    }
    if HasShare(offset.x, back.x, share) && HasShare(offset.y, back.y, share) && HasShare(offset.z, back.z, share) {
      OneShareIsEqual(offset, back, share);
    }
  }

  /** Pushed back by the average share, or not at all. */
  predicate HasShare(o: real, d: real, share: real) {
    d == 0.0 || d == Product(share, o)
  }

  lemma HasShareExactly(o: real, d: real, share: real)
    ensures HasShare(o, d, share) <==> Product(d, Product(share, o) - d) == 0.0
  {
    SignOfProduct(d, Product(share, o) - d, Product(d, Product(share, o) - d));
    hide Product;
  }

  lemma WeightedExcess(offset: Vector3, back: Vector3, share: real)
    requires Product(share, offset.Dot(back)) == Length2(back)
    ensures Product(back.x, Product(share, offset.x) - back.x) + Product(back.y, Product(share, offset.y) - back.y)
          + Product(back.z, Product(share, offset.z) - back.z) == 0.0
  {
    ExcessOnAxis(offset.x, back.x, share);
    ExcessOnAxis(offset.y, back.y, share);
    ExcessOnAxis(offset.z, back.z, share);
    SumOfProducts(share, Product(offset.x, back.x), Product(offset.y, back.y), Product(offset.z, back.z));
    hide Product;
  }

  lemma ExcessOnAxis(o: real, d: real, share: real)
    ensures Product(d, Product(share, o) - d) == Product(share, Product(o, d)) - Product(d, d)
  {}

  lemma SumOfProducts(factor: real, a: real, b: real, c: real)
    ensures Product(factor, a + b + c) == Product(factor, a) + Product(factor, b) + Product(factor, c)
  {}

  lemma OneShareIsEqual(offset: Vector3, back: Vector3, share: real)
    requires HasShare(offset.x, back.x, share) && HasShare(offset.y, back.y, share) && HasShare(offset.z, back.z, share)
    ensures EqualShares(offset, back)
  {
    Swap(share, offset.x, offset.y);
    Swap(share, offset.x, offset.z);
    Swap(share, offset.y, offset.z);
    hide Product;
  }

  lemma Swap(share: real, a: real, b: real)
    ensures Product(Product(share, a), b) == Product(Product(share, b), a)
  {}

  lemma EqualSharesAreAverage(offset: Vector3, back: Vector3, share: real)
    requires EqualShares(offset, back)
    requires offset.Dot(back) != 0.0 && Product(share, offset.Dot(back)) == Length2(back)
    ensures HasShare(offset.x, back.x, share) && HasShare(offset.y, back.y, share) && HasShare(offset.z, back.z, share)
  {
    hide Product;
    AverageOnAxis(offset.x, back.x, offset, back, share);
    AverageOnAxis(offset.y, back.y, offset, back, share);
    AverageOnAxis(offset.z, back.z, offset, back, share);
  }

  /** A pushed-back axis that shares with all the others has the average share. */
  lemma AverageOnAxis(o: real, d: real, offset: Vector3, back: Vector3, share: real)
    requires offset.Dot(back) != 0.0 && Product(share, offset.Dot(back)) == Length2(back)
    requires d != 0.0 && back.x != 0.0 ==> Product(d, offset.x) == Product(back.x, o)
    requires d != 0.0 && back.y != 0.0 ==> Product(d, offset.y) == Product(back.y, o)
    requires d != 0.0 && back.z != 0.0 ==> Product(d, offset.z) == Product(back.z, o)
    ensures HasShare(o, d, share)
  {
    hide Product;
    if d != 0.0 {
      var dot := offset.Dot(back);
      CrossTerm(o, d, offset.x, back.x);
      CrossTerm(o, d, offset.y, back.y);
      CrossTerm(o, d, offset.z, back.z);
      SumOfProducts(d, Product(offset.x, back.x), Product(offset.y, back.y), Product(offset.z, back.z));
      SumOfProducts(o, Product(back.x, back.x), Product(back.y, back.y), Product(back.z, back.z));
      assert Product(d, dot) == Product(o, Product(share, dot));
      CancelFactor(o, d, share, dot);
    }
  }

  lemma CrossTerm(o: real, d: real, other: real, push: real)
    requires push != 0.0 ==> Product(d, other) == Product(push, o)
    ensures Product(d, Product(other, push)) == Product(o, Product(push, push))
  {
    var crossed := Product(d, other);
    assert Product(d, Product(other, push)) == crossed * push;
    assert Product(o, Product(push, push)) == Product(push, o) * push;
  }

  lemma CancelFactor(o: real, d: real, share: real, dot: real)
    requires dot != 0.0 && Product(d, dot) == Product(o, Product(share, dot))
    ensures d == Product(share, o)
  {
    var rest := d - Product(share, o);
    assert rest * dot == 0.0;
    SignOfProduct(rest, dot, rest * dot);
  }

  /**
   With friction the position stays in the box exactly when all axes that hit the box hit it by the same
   share of their offset, as they do when only one of them does.
   */
  lemma FrictionStaysInsideExactlyWithEqualShares(box: Box, position: Vector3, offset: Vector3, friction: real)
    requires box.IsNonEmpty() && box.Contains(position) && 0.0 < friction <= 1.0
    ensures IsDefined(box, position, offset, friction)
    ensures box.Contains(Enclosed(box, position, offset, friction))
            <==> EqualShares(offset, PushBack(box, position, offset))
  {
    hide Product, Length2, Vector3.Dot, Slid, IsAgainst, EqualShares, Range.Clamp, Range.Contains;
    var back := PushBack(box, position, offset);
    BoxPushesBack(box, position, offset);
    PushIsAgainstOffset(offset, back);
    LengthIsZeroExactlyAtOrigin(offset);
    LengthIsZeroExactlyAtOrigin(back);
    if back == ORIGIN {
      assert Enclosed(box, position, offset, friction) == box.Clamp(position.Plus(offset));
      NothingPushedHasEqualShares(offset);
    } else if Length2(back) == Length2(offset) {
      StuckMeansUndone(offset, back);
      UndoneHasEqualShares(offset, back);
    } else {
      var share := Length2(back) / offset.Dot(back);
      ShareIsInUnitInterval(Length2(back), offset.Dot(back), share);
      SlidStaysInsideExactly(box, position, offset, back, friction, share);
      EqualSharesExactly(offset, back, share);
      SlidesWhenNotStuck(box, position, offset, friction);
    }
  }

  lemma NothingPushedHasEqualShares(offset: Vector3)
    ensures EqualShares(offset, ORIGIN)
  {}

  lemma SlidesWhenNotStuck(box: Box, position: Vector3, offset: Vector3, friction: real)
    requires IsDefined(box, position, offset, friction) && friction != 0.0 && offset != ORIGIN
    requires var back := PushBack(box, position, offset);
             back != ORIGIN && Length2(back) != Length2(offset) && offset.Dot(back) != 0.0
    ensures Enclosed(box, position, offset, friction)
         == Slid(position, offset, PushBack(box, position, offset), friction)
  {
    LengthIsZeroExactlyAtOrigin(offset);
    LengthIsZeroExactlyAtOrigin(PushBack(box, position, offset));
    hide Product, Length2, Vector3.Dot, Slid;
  }

  /** Two axes pushed back by different shares: with full friction the position leaves the box. */
  lemma FrictionLeavesTheBox(box: Box, position: Vector3, offset: Vector3)
    requires box.x == Range(At(0.0), At(2.0)) && box.y == Range(At(0.0), At(2.0)) && box.z == Range(Open, Open)
    requires position == Vector3(1.0, 1.0, 0.0) && offset == Vector3(4.0, 2.0, 0.0)
    ensures box.Contains(position) && IsDefined(box, position, offset, 1.0)
    ensures !box.Contains(Enclosed(box, position, offset, 1.0))
  {
    var back := PushBack(box, position, offset);
    assert back.x == -3.0 && back.y == -1.0;
    DifferentShares(back, offset);
    assert box.IsNonEmpty() && box.Contains(position);
    hide *;
    FrictionStaysInsideExactlyWithEqualShares(box, position, offset, 1.0);
  }

  lemma DifferentShares(back: Vector3, offset: Vector3)
    requires offset.x == 4.0 && offset.y == 2.0 && back.x == -3.0 && back.y == -1.0
    ensures !EqualShares(offset, back)
  {}
}
