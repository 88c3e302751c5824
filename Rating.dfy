/** The five-star rating of `Rating`: the value is rounded to half stars, and each
    star is full, half or empty. A value is the rational `numerator / denominator`;
    floating-point representation is not modelled. */
module Rating {
  datatype StarVariant = Full | Half | Empty

  const StarCount := 5

  /** `Math.round(value * 2)`: JavaScript rounds halves up, which for
      `value = n / d` with `d > 0` is `floor((4n + d) / 2d)`. */
  function HalfStars(numerator: int, denominator: int): (h: int)
    requires denominator > 0
    ensures 2 * denominator * h <= 4 * numerator + denominator < 2 * denominator * (h + 1)
  {
    (4 * numerator + denominator) / (2 * denominator)
  }

  /** The default value 5 is ten half stars. */
  lemma DefaultHalfStars()
    ensures HalfStars(5, 1) == 10
  {
  }

  /** The appearance of star `i` (numbered from 1). */
  function StarAt(halfStars: int, i: int): StarVariant {
    if halfStars >= i * 2 then Full
    else if halfStars >= i * 2 - 1 then Half
    else Empty
  }

  /** The stars `1..5`, in order. */
  function Stars(halfStars: int): (r: seq<StarVariant>)
    ensures |r| == StarCount
    ensures forall k :: 0 <= k < StarCount ==> r[k] == StarAt(halfStars, k + 1)
  {
    seq(StarCount, k requires 0 <= k < StarCount => StarAt(halfStars, k + 1))
  }

  /** Star `i` is full exactly when the half stars reach `2i`, half exactly when
      they are `2i - 1`, and empty otherwise. */
  lemma StarClassification(halfStars: int, i: int)
    ensures StarAt(halfStars, i) == Full <==> halfStars >= 2 * i
    ensures StarAt(halfStars, i) == Half <==> halfStars == 2 * i - 1
    ensures StarAt(halfStars, i) == Empty <==> halfStars < 2 * i - 1
  {
  }

  function Rank(v: StarVariant): int {
    match v
    case Full => 2
    case Half => 1
    case Empty => 0
  }

  /** The stars read full, then at most one half, then empty. */
  lemma StarsOrdered(halfStars: int)
    ensures forall j, k :: 0 <= j < k < StarCount ==> Rank(Stars(halfStars)[j]) >= Rank(Stars(halfStars)[k])
    ensures forall j, k :: 0 <= j < k < StarCount ==> !(Stars(halfStars)[j] == Half && Stars(halfStars)[k] == Half)
  {
    var s := Stars(halfStars);
    forall j, k | 0 <= j < k < StarCount
      ensures Rank(s[j]) >= Rank(s[k]) && !(s[j] == Half && s[k] == Half)
    {
      StarClassification(halfStars, j + 1);
      StarClassification(halfStars, k + 1);
    }
  }

  function CountFull(s: seq<StarVariant>): nat {
    if s == [] then 0 else (if s[0] == Full then 1 else 0) + CountFull(s[1..])
  }

  /** The number of full stars is the whole stars of the value, between 0 and 5. */
  lemma FullStarCount(halfStars: int)
    ensures var whole := halfStars / 2;
      CountFull(Stars(halfStars)) == if whole < 0 then 0 else if whole > StarCount then StarCount else whole
  {
    var s := Stars(halfStars);
    assert s == [s[0], s[1], s[2], s[3], s[4]];
    CountFullFive(s[0], s[1], s[2], s[3], s[4]);
    var whole := halfStars / 2;
    forall i | 1 <= i <= StarCount ensures (StarAt(halfStars, i) == Full) == (whole >= i) {
      StarClassification(halfStars, i);
    }
  }

  function Ind(v: StarVariant): nat {
    if v == Full then 1 else 0
  }

  lemma CountFullFive(a: StarVariant, b: StarVariant, c: StarVariant, d: StarVariant, e: StarVariant)
    ensures CountFull([a, b, c, d, e]) == Ind(a) + Ind(b) + Ind(c) + Ind(d) + Ind(e)
  {
    assert [a, b, c, d, e][1..] == [b, c, d, e];
    assert [b, c, d, e][1..] == [c, d, e];
    assert [c, d, e][1..] == [d, e];
    assert [d, e][1..] == [e];
    assert [e][1..] == [];
    assert CountFull([e]) == Ind(e);
    assert CountFull([d, e]) == Ind(d) + Ind(e);
    assert CountFull([c, d, e]) == Ind(c) + Ind(d) + Ind(e);
    assert CountFull([b, c, d, e]) == Ind(b) + Ind(c) + Ind(d) + Ind(e);
  }

  /** `Rating` with its default value shows five full stars. */
  lemma DefaultRatingIsFull()
    ensures Stars(HalfStars(5, 1)) == [Full, Full, Full, Full, Full]
  {
    DefaultHalfStars();
  }
}
