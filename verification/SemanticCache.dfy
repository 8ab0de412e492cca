/** The semantic cache: cosine similarity over stored query embeddings, with expiry. */
module SemanticCache {
  import opened Products

  type Vector = seq<real>

  /** A square root: what math.sqrt computes, on the reals. */
  ghost predicate IsSqrt(sqrt: real -> real) {
    forall x :: 0.0 <= x ==> 0.0 <= sqrt(x) && Square(sqrt(x)) == x
  }

  /** sum(x * y for x, y in zip(a, b)): the longer vector is cut. */
  function Dot(a: Vector, b: Vector): real {
    if a == [] || b == [] then 0.0 else Times(a[0], b[0]) + Dot(a[1..], b[1..])
  }

  /** sum(x * x for x in a) */
  function SumOfSquares(a: Vector): real {
    if a == [] then 0.0 else Square(a[0]) + SumOfSquares(a[1..])
  }

  function Cosine(sqrt: real -> real, a: Vector, b: Vector): real {
    var normA, normB := sqrt(SumOfSquares(a)), sqrt(SumOfSquares(b));
    if normA == 0.0 || normB == 0.0 then 0.0
    else
      TimesNonZero(normA, normB);
      Dot(a, b) / Times(normA, normB)
  }

  // ---------- Cauchy-Schwarz ----------

  /** The squares of `a` on the places it shares with `b`. */
  function SharedSquares(a: Vector, b: Vector): real {
    if a == [] || b == [] then 0.0 else Square(a[0]) + SharedSquares(a[1..], b[1..])
  }

  lemma {:induction false} SharedAtMostAll(a: Vector, b: Vector)
    ensures 0.0 <= SharedSquares(a, b) <= SumOfSquares(a)
  {
    hide Times;
    if a != [] {
      SquarePositive(a[0]);
      SharedAtMostAll(a[1..], if b == [] then [] else b[1..]);
    }
  }

  /** |a - t b|^2 on the shared places. */
  function Distance(a: Vector, b: Vector, t: real): real {
    if a == [] || b == [] then 0.0 else Square(a[0] - Times(t, b[0])) + Distance(a[1..], b[1..], t)
  }

  lemma {:induction false} DistanceNonNegative(a: Vector, b: Vector, t: real)
    ensures 0.0 <= Distance(a, b, t)
  {
    hide Times;
    if a != [] && b != [] {
      SquarePositive(a[0] - Times(t, b[0]));
      DistanceNonNegative(a[1..], b[1..], t);
    }
  }

  /** Expanded as a quadratic in t. */
  lemma {:induction false} DistanceExpands(a: Vector, b: Vector, t: real)
    ensures Distance(a, b, t)
         == SharedSquares(a, b) - 2.0 * Times(t, Dot(a, b)) + Times(Square(t), SharedSquares(b, a))
  {
    hide Times;
    if a == [] || b == [] {
      TimesZero(t);
      TimesZero(Square(t));
    } else {
      var x, y := a[0], b[0];
      DistanceExpands(a[1..], b[1..], t);
      SquareOfDifference(x, Times(t, y));
      SquareOfProduct(t, y);
      TimesCommutes(x, Times(t, y));
      TimesAssociates(t, y, x);
      TimesCommutes(y, x);
      TimesDistributes(t, Times(x, y), Dot(a[1..], b[1..]));
      TimesDistributes(Square(t), Square(y), SharedSquares(b[1..], a[1..]));
    }
  }

  lemma {:induction false} NonZeroDotNonZeroSquares(a: Vector, b: Vector)
    ensures Dot(a, b) != 0.0 ==> 0.0 < SharedSquares(b, a)
  {
    hide Times;
    if a != [] && b != [] {
      NonZeroDotNonZeroSquares(a[1..], b[1..]);
      SharedAtMostAll(b[1..], a[1..]);
      SquarePositive(b[0]);
      TimesZero(a[0]);
    }
  }

  /** A quadratic that is not negative at its vertex has no positive discriminant. */
  lemma Discriminant(a: real, b: real, d: real)
    requires 0.0 < b
    requires 0.0 <= a - 2.0 * Times(d / b, d) + Times(Square(d / b), b)
    ensures Square(d) <= Times(a, b)
  {
    hide Times;
    var t := d / b;
    TimesQuotient(d, b);
    TimesAssociates(t, t, b);
    TimesNonNegative(a - Times(t, d), b);
    TimesCommutes(a - Times(t, d), b);
    TimesDistributes(b, a, Times(t, d));
    TimesCommutes(b, a);
    TimesCommutes(t, d);
    TimesCommutes(b, Times(d, t));
    TimesAssociates(d, t, b);
  }

  /** The square of the dot product is at most the product of the squared norms. */
  lemma CauchySchwarz(a: Vector, b: Vector)
    ensures Square(Dot(a, b)) <= Times(SumOfSquares(a), SumOfSquares(b))
  {
    hide Times;
    var p, q, d := SharedSquares(a, b), SharedSquares(b, a), Dot(a, b);
    SharedAtMostAll(a, b);
    SharedAtMostAll(b, a);
    TimesGrows(p, SumOfSquares(a), q, SumOfSquares(b));
    if d == 0.0 {
      SquarePositive(d);
    } else {
      NonZeroDotNonZeroSquares(a, b);
      DistanceExpands(a, b, d / q);
      DistanceNonNegative(a, b, d / q);
      Discriminant(p, q, d);
    }
  }

  // ---------- what the similarity is ----------

  lemma QuotientInRange(d: real, n: real)
    requires 0.0 < n && -n <= d <= n
    ensures -1.0 <= d / n <= 1.0
  {
  }

  /** The cosine of any two vectors, of equal length or not, lies between -1 and 1. */
  lemma CosineInRange(sqrt: real -> real, a: Vector, b: Vector)
    requires IsSqrt(sqrt)
    ensures -1.0 <= Cosine(sqrt, a, b) <= 1.0
  {
    hide Times;
    var x, y := sqrt(SumOfSquares(a)), sqrt(SumOfSquares(b));
    SharedAtMostAll(a, []);
    SharedAtMostAll(b, []);
    if x != 0.0 && y != 0.0 {
      CauchySchwarz(a, b);
      SquareOfProduct(x, y);
      TimesPositive(x, y);
      SquareOrder(Dot(a, b), Times(x, y));
      QuotientInRange(Dot(a, b), Times(x, y));
    }
  }

  lemma {:induction false} DotCommutes(a: Vector, b: Vector)
    ensures Dot(a, b) == Dot(b, a)
  {
    hide Times;
    if a != [] && b != [] {
      TimesCommutes(a[0], b[0]);
      DotCommutes(a[1..], b[1..]);
    }
  }

  lemma CosineCommutes(sqrt: real -> real, a: Vector, b: Vector)
    ensures Cosine(sqrt, a, b) == Cosine(sqrt, b, a)
  {
    hide Times;
    DotCommutes(a, b);
    TimesCommutes(sqrt(SumOfSquares(a)), sqrt(SumOfSquares(b)));
  }

  function Scale(a: Vector, k: real): (r: Vector)
    ensures |r| == |a| && forall i :: 0 <= i < |a| ==> r[i] == Times(k, a[i])
  {
    if a == [] then [] else [Times(k, a[0])] + Scale(a[1..], k)
  }

  lemma {:induction false} ScaleSquares(a: Vector, k: real)
    ensures SumOfSquares(Scale(a, k)) == Times(Square(k), SumOfSquares(a))
  {
    hide Times;
    if a == [] {
      TimesZero(Square(k));
    } else {
      ScaleSquares(a[1..], k);
      SquareOfProduct(k, a[0]);
      TimesDistributes(Square(k), Square(a[0]), SumOfSquares(a[1..]));
    }
  }

  lemma {:induction false} ScaleDot(a: Vector, b: Vector, k: real)
    ensures Dot(Scale(a, k), b) == Times(k, Dot(a, b))
  {
    hide Times;
    if a == [] || b == [] {
      TimesZero(k);
    } else {
      ScaleDot(a[1..], b[1..], k);
      TimesAssociates(k, a[0], b[0]);
      TimesDistributes(k, Times(a[0], b[0]), Dot(a[1..], b[1..]));
    }
  }

  /** The norm scales with the vector. */
  lemma ScaledRoot(sqrt: real -> real, a: Vector, k: real)
    requires IsSqrt(sqrt) && 0.0 < k
    ensures sqrt(SumOfSquares(Scale(a, k))) == Times(k, sqrt(SumOfSquares(a)))
  {
    hide Times;
    var x := sqrt(SumOfSquares(a));
    SharedAtMostAll(a, []);
    SharedAtMostAll(Scale(a, k), []);
    ScaleSquares(a, k);
    SquareOfProduct(k, x);
    TimesNonNegative(k, x);
    RootIsUnique(sqrt(SumOfSquares(Scale(a, k))), Times(k, x));
  }

  lemma CancelFactor(d: real, n: real, k: real)
    requires n != 0.0 && k != 0.0
    ensures Times(k, n) != 0.0 && Times(k, d) / Times(k, n) == d / n
  {
    hide Times;
    TimesNonZero(k, n);
    var q, q' := d / n, Times(k, d) / Times(k, n);
    TimesQuotient(d, n);
    TimesQuotient(Times(k, d), Times(k, n));
    TimesAssociates(k, q, n);
    TimesCommutes(k, q);
    TimesAssociates(q, k, n);
    TimesCancels(q, q', Times(k, n));
  }

  /** Only the direction of a vector matters. */
  lemma CosineIgnoresLength(sqrt: real -> real, a: Vector, b: Vector, k: real)
    requires IsSqrt(sqrt) && 0.0 < k
    ensures Cosine(sqrt, Scale(a, k), b) == Cosine(sqrt, a, b)
  {
    hide Times;
    ScaledRoot(sqrt, a, k);
    ScaleDot(a, b, k);
    var x, y := sqrt(SumOfSquares(a)), sqrt(SumOfSquares(b));
    TimesZero(k);
    if x != 0.0 {
      TimesNonZero(k, x);
      if y != 0.0 {
        TimesNonZero(x, y);
        TimesAssociates(k, x, y);
        CancelFactor(Dot(a, b), Times(x, y), k);
      }
    }
  }

  ghost predicate IsZero(a: Vector) {
    forall i :: 0 <= i < |a| ==> a[i] == 0.0
  }

  lemma {:induction false} ZeroExactlyWhenNoSquares(a: Vector)
    ensures if IsZero(a) then SumOfSquares(a) == 0.0 else 0.0 < SumOfSquares(a)
  {
    hide Times;
    if a != [] {
      ZeroExactlyWhenNoSquares(a[1..]);
      SharedAtMostAll(a[1..], []);
      SquarePositive(a[0]);
      assert forall i :: 0 < i < |a| ==> a[i] == a[1..][i - 1];
    }
  }

  lemma {:induction false} DotWithItself(a: Vector)
    ensures Dot(a, a) == SumOfSquares(a)
  {
    hide Times;
    if a != [] {
      DotWithItself(a[1..]);
    }
  }

  /** A vector is at similarity 1 with itself exactly when it is not zero, and at 0 otherwise. */
  lemma CosineWithItself(sqrt: real -> real, a: Vector)
    requires IsSqrt(sqrt)
    ensures Cosine(sqrt, a, a) == if IsZero(a) then 0.0 else 1.0
  {
    hide Times;
    DotWithItself(a);
    ZeroExactlyWhenNoSquares(a);
    SquarePositive(sqrt(SumOfSquares(a)));
    if !IsZero(a) {
      SelfQuotient(SumOfSquares(a));
    }
  }

  lemma SelfQuotient(n: real)
    requires n != 0.0
    ensures n / n == 1.0
  {
  }

  // ---------- similarity as distance ----------

  /** |a - b|^2, where the shorter vector is continued with zeros. */
  function SquaredDistance(a: Vector, b: Vector): real
    decreases |a| + |b|
  {
    if a == [] && b == [] then 0.0
    else if a == [] then Square(b[0]) + SquaredDistance([], b[1..])
    else if b == [] then Square(a[0]) + SquaredDistance(a[1..], [])
    else Square(a[0] - b[0]) + SquaredDistance(a[1..], b[1..])
  }

  /** The law of cosines, which also fixes what Dot and SumOfSquares are. */
  lemma {:induction false} LawOfCosines(a: Vector, b: Vector)
    ensures SquaredDistance(a, b) == SumOfSquares(a) + SumOfSquares(b) - 2.0 * Dot(a, b)
    decreases |a| + |b|
  {
    hide Times;
    if a != [] && b != [] {
      LawOfCosines(a[1..], b[1..]);
      SquareOfDifference(a[0], b[0]);
    } else if a != [] {
      LawOfCosines(a[1..], []);
    } else if b != [] {
      LawOfCosines([], b[1..]);
    }
  }

  lemma {:induction false} DistanceZeroExactlyWhenEqual(a: Vector, b: Vector)
    requires |a| == |b|
    ensures 0.0 <= SquaredDistance(a, b)
    ensures SquaredDistance(a, b) == 0.0 <==> a == b
  {
    hide Times;
    if a != [] {
      DistanceZeroExactlyWhenEqual(a[1..], b[1..]);
      SquarePositive(a[0] - b[0]);
      assert a == [a[0]] + a[1..] && b == [b[0]] + b[1..];
    }
  }

  ghost function Norm(sqrt: real -> real, a: Vector): real {
    sqrt(SumOfSquares(a))
  }

  lemma NormIsPositive(sqrt: real -> real, a: Vector)
    requires IsSqrt(sqrt)
    ensures Square(Norm(sqrt, a)) == SumOfSquares(a)
    ensures if IsZero(a) then Norm(sqrt, a) == 0.0 else 0.0 < Norm(sqrt, a)
  {
    hide Times;
    ZeroExactlyWhenNoSquares(a);
    SquarePositive(Norm(sqrt, a));
  }

  /** The vector of length 1 in the direction of `a`. */
  ghost function Unit(sqrt: real -> real, a: Vector): Vector
    requires Norm(sqrt, a) != 0.0
  {
    Scale(a, 1.0 / Norm(sqrt, a))
  }

  lemma UnitHasLengthOne(sqrt: real -> real, a: Vector)
    requires IsSqrt(sqrt) && Norm(sqrt, a) != 0.0
    ensures SumOfSquares(Unit(sqrt, a)) == 1.0
  {
    hide Times;
    var x := Norm(sqrt, a);
    NormIsPositive(sqrt, a);
    ScaleSquares(a, 1.0 / x);
    SquareOfProduct(1.0 / x, x);
    TimesQuotient(1.0, x);
    SquareOfOne();
  }

  lemma SquareOfOne()
    ensures Square(1.0) == 1.0
  {
  }

  lemma QuotientByProduct(d: real, x: real, y: real)
    requires x != 0.0 && y != 0.0
    ensures Times(x, y) != 0.0 && Times(1.0 / x, Times(1.0 / y, d)) == d / Times(x, y)
  {
    hide Times;
    TimesNonZero(x, y);
    var p, q := Times(1.0 / y, d), Times(1.0 / x, Times(1.0 / y, d));
    TimesAssociates(q, x, y);
    TimesCommutes(1.0 / x, p);
    TimesAssociates(p, 1.0 / x, x);
    TimesQuotient(1.0, x);
    TimesByOne(p);
    TimesCommutes(1.0 / y, d);
    TimesAssociates(d, 1.0 / y, y);
    TimesQuotient(1.0, y);
    TimesByOne(d);
    TimesQuotient(d, Times(x, y));
    TimesCancels(q, d / Times(x, y), Times(x, y));
  }

  lemma TimesByOne(x: real)
    ensures Times(x, 1.0) == x
  {
  }

  /** 1 minus the similarity is half the squared distance between the directions. */
  lemma CosineIsDistance(sqrt: real -> real, a: Vector, b: Vector)
    requires IsSqrt(sqrt) && Norm(sqrt, a) != 0.0 && Norm(sqrt, b) != 0.0
    ensures SquaredDistance(Unit(sqrt, a), Unit(sqrt, b)) == 2.0 * (1.0 - Cosine(sqrt, a, b))
  {
    hide Times;
    var x, y := Norm(sqrt, a), Norm(sqrt, b);
    LawOfCosines(Unit(sqrt, a), Unit(sqrt, b));
    UnitHasLengthOne(sqrt, a);
    UnitHasLengthOne(sqrt, b);
    ScaleDot(a, Unit(sqrt, b), 1.0 / x);
    DotCommutes(a, Unit(sqrt, b));
    ScaleDot(b, a, 1.0 / y);
    DotCommutes(b, a);
    QuotientByProduct(Dot(a, b), x, y);
  }

  lemma {:induction false} DotOfZero(a: Vector, b: Vector)
    requires IsZero(a)
    ensures Dot(a, b) == 0.0
  {
    hide Times;
    if a != [] && b != [] {
      assert forall i :: 0 <= i < |a| - 1 ==> a[1..][i] == a[i + 1];
      DotOfZero(a[1..], b[1..]);
      TimesZero(b[0]);
    }
  }

  lemma CosineIsZeroExactlyWhen(sqrt: real -> real, a: Vector, b: Vector)
    requires IsSqrt(sqrt)
    ensures Cosine(sqrt, a, b) == 0.0 <==> Dot(a, b) == 0.0
  {
    hide Times;
    NormIsPositive(sqrt, a);
    NormIsPositive(sqrt, b);
    if IsZero(a) {
      DotOfZero(a, b);
    } else if IsZero(b) {
      DotCommutes(a, b);
      DotOfZero(b, a);
    } else {
      var n := Times(Norm(sqrt, a), Norm(sqrt, b));
      TimesNonZero(Norm(sqrt, a), Norm(sqrt, b));
      TimesQuotient(Dot(a, b), n);
      TimesZero(n);
      ZeroQuotient(n);
    }
  }

  lemma ZeroQuotient(n: real)
    requires n != 0.0
    ensures 0.0 / n == 0.0
  {
  }

  lemma ScaleTwice(a: Vector, j: real, k: real)
    ensures Scale(Scale(a, j), k) == Scale(a, Times(k, j))
  {
    hide Times;
    forall i | 0 <= i < |a| ensures Scale(Scale(a, j), k)[i] == Scale(a, Times(k, j))[i] {
      TimesAssociates(k, j, a[i]);
    }
  }

  lemma UnitTimesNorm(sqrt: real -> real, a: Vector)
    requires Norm(sqrt, a) != 0.0
    ensures Scale(Unit(sqrt, a), Norm(sqrt, a)) == a
  {
    hide Times;
    var x := Norm(sqrt, a);
    ScaleTwice(a, 1.0 / x, x);
    TimesCommutes(x, 1.0 / x);
    TimesQuotient(1.0, x);
    forall i | 0 <= i < |a| ensures Scale(a, 1.0)[i] == a[i] {
      TimesCommutes(1.0, a[i]);
      TimesByOne(a[i]);
    }
  }

  /** The similarity is 1 exactly for vectors that are positive multiples of each other. */
  lemma CosineIsOneExactlyWhen(sqrt: real -> real, a: Vector, b: Vector)
    requires IsSqrt(sqrt) && |a| == |b|
    ensures Cosine(sqrt, a, b) == 1.0 <==> !IsZero(a) && exists k :: 0.0 < k && b == Scale(a, k)
  {
    hide Times;
    NormIsPositive(sqrt, a);
    NormIsPositive(sqrt, b);
    if Cosine(sqrt, a, b) == 1.0 {
      var x, y := Norm(sqrt, a), Norm(sqrt, b);
      CosineIsDistance(sqrt, a, b);
      DistanceZeroExactlyWhenEqual(Unit(sqrt, a), Unit(sqrt, b));
      UnitTimesNorm(sqrt, b);
      ScaleTwice(a, 1.0 / x, y);
      TimesPositive(y, 1.0 / x);
      assert b == Scale(a, Times(y, 1.0 / x));
    }
    if !IsZero(a) && exists k :: 0.0 < k && b == Scale(a, k) {
      var k :| 0.0 < k && b == Scale(a, k);
      CosineWithItself(sqrt, a);
      CosineIgnoresLength(sqrt, a, a, k);
      CosineCommutes(sqrt, a, b);
    }
  }

  // ---------- lookup and write ----------

  datatype Settings = Settings(threshold: real, ttlActive: real, ttlStatic: real)
  {
    function TimeToLive(kind: string): real {
      if kind == "active" then ttlActive else ttlStatic
    }
  }

  const DEFAULTS := Settings(0.92, 3600.0, 86400.0)

  /** A cached value: refused as invalid JSON, raising otherwise when it is read as an entry, or an entry. */
  datatype Raw =
    | Garbage
    | Unreadable
    | Entry(embedding: Vector, results: seq<string>, kind: string)

  datatype Cached = Cached(raw: Raw, expiresAt: real)

  datatype Lookup = Miss | Hit(results: seq<string>) | Raised

  type Store = map<string, Cached>

  predicate Live(store: Store, key: string, now: real) {
    key in store && now < store[key].expiresAt
  }

  /** A live, well-formed entry close enough to the query. */
  ghost predicate Matches(sqrt: real -> real, threshold: real, query: Vector, store: Store, key: string, now: real) {
    && Live(store, key, now) && store[key].raw.Entry? && store[key].raw.embedding != []
    && Cosine(sqrt, query, store[key].raw.embedding) >= threshold
  }

  ghost predicate Breaks(store: Store, key: string, now: real) {
    Live(store, key, now) && store[key].raw.Unreadable?
  }

  /** Neither a match nor an unreadable value before place `n` of the scan. */
  ghost predicate NothingBefore(sqrt: real -> real, threshold: real, query: Vector, store: Store, scan: seq<string>,
                                clock: nat -> real, n: nat)
    requires n <= |scan|
  {
    forall i :: 0 <= i < n ==>
      !Matches(sqrt, threshold, query, store, scan[i], clock(i)) && !Breaks(store, scan[i], clock(i))
  }

  /**
   * At threshold `t` an entry matches exactly when its direction is within squared distance
   * 2 - 2t of the query's. A zero vector has no direction, and counts as orthogonal.
   */
  lemma MatchesExactlyWhen(sqrt: real -> real, threshold: real, query: Vector, store: Store, key: string, now: real)
    requires IsSqrt(sqrt)
    ensures Matches(sqrt, threshold, query, store, key, now) <==>
      && key in store && now < store[key].expiresAt && store[key].raw.Entry? && store[key].raw.embedding != []
      && var e := store[key].raw.embedding;
         if Norm(sqrt, query) == 0.0 || Norm(sqrt, e) == 0.0 then threshold <= 0.0
         else SquaredDistance(Unit(sqrt, query), Unit(sqrt, e)) <= 2.0 - 2.0 * threshold
  {
    hide SumOfSquares, Dot, SquaredDistance, Unit;
    if key in store && store[key].raw.Entry? {
      var e := store[key].raw.embedding;
      if Norm(sqrt, query) != 0.0 && Norm(sqrt, e) != 0.0 {
        CosineIsDistance(sqrt, query, e);
      }
    }
  }

  class Cache {
    const settings: Settings
    const sqrt: real -> real
    const keyOf: Vector -> string      // the digest of the embedding
    var store: Store

    constructor (settings: Settings, sqrt: real -> real, keyOf: Vector -> string)
      ensures store == map[] && this.settings == settings && this.sqrt == sqrt && this.keyOf == keyOf
    {
      this.settings, this.sqrt, this.keyOf, store := settings, sqrt, keyOf, map[];
    }

    /**
     * cache_lookup: the scan yields `scan`, and the i-th value is fetched at `clock(i)`. The
     * answer is that of the first place with a match; None exactly when there is none.
     */
    method Find(query: Vector, scan: seq<string>, clock: nat -> real) returns (r: Lookup)
      ensures r.Miss? <==> NothingBefore(sqrt, settings.threshold, query, store, scan, clock, |scan|)
      ensures r.Hit? ==> exists i ::
        && 0 <= i < |scan| && NothingBefore(sqrt, settings.threshold, query, store, scan, clock, i)
        && Matches(sqrt, settings.threshold, query, store, scan[i], clock(i)) && r.results == store[scan[i]].raw.results
      ensures r.Raised? ==> exists i ::
        && 0 <= i < |scan| && NothingBefore(sqrt, settings.threshold, query, store, scan, clock, i)
        && Breaks(store, scan[i], clock(i))
    {
      for i := 0 to |scan|
        invariant NothingBefore(sqrt, settings.threshold, query, store, scan, clock, i)
      {
        var key := scan[i];
        if !Live(store, key, clock(i)) || store[key].raw.Garbage? {
          continue;
        }
        if store[key].raw.Unreadable? {
          assert Breaks(store, scan[i], clock(i));
          return Raised;
        }
        if store[key].raw.embedding == [] {
          continue;
        }
        if Cosine(sqrt, query, store[key].raw.embedding) >= settings.threshold {
          assert Matches(sqrt, settings.threshold, query, store, scan[i], clock(i));
          return Hit(store[key].raw.results);
        }
      }
      return Miss;
    }

    /** cache_write: SETEX under the embedding's key. */
    method Write(query: Vector, results: seq<string>, kind: string, now: real)
      modifies this
      ensures store == Written(settings, old(store), keyOf(query), query, results, kind, now)
      ensures store == old(store)[keyOf(query) := Cached(Entry(query, results, kind), now +
                                    if kind == "active" then settings.ttlActive else settings.ttlStatic)]
    {
      var ttl := if kind == "active" then settings.ttlActive else settings.ttlStatic;
      store := store[keyOf(query) := Cached(Entry(query, results, kind), now + ttl)];
    }
  }

  function Written(settings: Settings, store: Store, key: string, query: Vector, results: seq<string>, kind: string,
                   now: real): Store {
    store[key := Cached(Entry(query, results, kind), now + settings.TimeToLive(kind))]
  }

  /** The similarity of a vector to itself reaches the threshold, and the scan does not pass it over. */
  ghost predicate FindsItself(threshold: real, query: Vector) {
    query != [] && threshold <= if IsZero(query) then 0.0 else 1.0
  }

  /**
   * A written embedding matches every vector in its direction, itself included, exactly while
   * its time to live lasts, if the threshold is at most 1, or at most 0 for a zero vector.
   */
  lemma WrittenMatchesItself(settings: Settings, sqrt: real -> real, store: Store, key: string, query: Vector,
                             results: seq<string>, kind: string, now: real, later: real, k: real)
    requires IsSqrt(sqrt) && 0.0 < k
    ensures Matches(sqrt, settings.threshold, Scale(query, k),
                    Written(settings, store, key, query, results, kind, now), key, later)
       <==> FindsItself(settings.threshold, query)
            && later < now + if kind == "active" then settings.ttlActive else settings.ttlStatic
  {
    hide Times;
    CosineIgnoresLength(sqrt, query, query, k);
    CosineWithItself(sqrt, query);
  }

  /**
   * By default every vector but zero finds itself, entries match whose direction is within
   * squared distance 0.16, and what is written lives an hour if it is active and a day otherwise.
   */
  lemma Defaults(sqrt: real -> real, query: Vector, store: Store, key: string, results: seq<string>, kind: string,
                 now: real, later: real)
    requires IsSqrt(sqrt) && !IsZero(query)
    ensures FindsItself(DEFAULTS.threshold, query)
    ensures var store' := Written(DEFAULTS, store, key, query, results, kind, now);
      && store' == store[key := store'[key]] && store'[key].raw == Entry(query, results, kind)
      && store'[key].expiresAt == now + (if kind == "active" then 3600.0 else 86400.0)
    ensures key in store && store[key].raw.Entry? && !IsZero(store[key].raw.embedding) && now < store[key].expiresAt ==>
      (Matches(sqrt, DEFAULTS.threshold, query, store, key, now) <==>
       && Norm(sqrt, query) != 0.0 && Norm(sqrt, store[key].raw.embedding) != 0.0
       && SquaredDistance(Unit(sqrt, query), Unit(sqrt, store[key].raw.embedding)) <= 0.16)
  {
    hide SumOfSquares, Dot, SquaredDistance, Unit, Cosine;
    NormIsPositive(sqrt, query);
    if key in store && store[key].raw.Entry? {
      NormIsPositive(sqrt, store[key].raw.embedding);
      MatchesExactlyWhen(sqrt, DEFAULTS.threshold, query, store, key, now);
    }
  }

  /** Nothing in the store makes a scan raise; cache_write keeps it so. */
  ghost predicate Clean(store: Store) {
    forall key :: key in store ==> !store[key].raw.Unreadable?
  }

  /**
   * No lookup of a just-written embedding that finds itself can miss or raise while the entry
   * is alive, if the scan reaches its key: the outcome that Find leaves is a hit.
   */
  lemma FoundAfterWrite(settings: Settings, sqrt: real -> real, store: Store, key: string, query: Vector,
                        results: seq<string>, kind: string, now: real, scan: seq<string>, clock: nat -> real, i: nat)
    requires IsSqrt(sqrt) && Clean(store) && FindsItself(settings.threshold, query)
    requires i < |scan| && scan[i] == key && clock(i) < now + settings.TimeToLive(kind)
    ensures var store' := Written(settings, store, key, query, results, kind, now);
      && Clean(store')
      && !NothingBefore(sqrt, settings.threshold, query, store', scan, clock, |scan|)
      && forall j :: 0 <= j < |scan| ==> !Breaks(store', scan[j], clock(j))
  {
    hide Times;
    CosineWithItself(sqrt, query);
    assert Matches(sqrt, settings.threshold, query, Written(settings, store, key, query, results, kind, now),
                   scan[i], clock(i));
  }
}
