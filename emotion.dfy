/**
 * The emotion label routines of the emotion cluster visualisation.
 *
 * A label such as `"思，哀"` names one or more emotions. `convert_to_vector`
 * turns it into a 5-vector over the dimensions 思, 乐, 哀, 喜 and 怒/豪: the
 * first token weighs 0.6, every later token 0.4/(n-1), and the weighted sum
 * of the one-hot rows of the recognised tokens is normalised to sum 1.
 * `get_emotion_color` blends RGBA colours with the same weights and divides
 * by the weight that was recognised, falling back to grey.
 *
 * Weights are exact reals: `0.6` here stands for the nearest double there.
 */
module Emotion {
  import opened Text
  import opened Batches

  /** The number of emotion dimensions. */
  const Dims: nat := 5

  /** `first_weight`. */
  const FirstWeight: real := 0.6

  /** `table[key]` for a dict given by its items: the value of the first item whose key is `key`. */
  function Lookup<V>(table: seq<(string, V)>, key: string): Option<V> {
    if table == [] then None
    else if table[0].0 == key then Some(table[0].1)
    else Lookup(table[1..], key)
  }

  /** A lookup finds an item of the table, and fails only when no item has the key. */
  lemma {:induction false} LookupIn<V>(table: seq<(string, V)>, key: string)
    ensures Lookup(table, key).Some? ==> exists i :: 0 <= i < |table| && table[i] == (key, Lookup(table, key).value)
    ensures Lookup(table, key).None? <==> forall i :: 0 <= i < |table| ==> table[i].0 != key
  {
    if table != [] && table[0].0 != key {
      LookupIn(table[1..], key);
      assert forall i :: 1 <= i < |table| ==> table[i] == table[1..][i - 1];
    }
  }

  /** The lookup of a key that first occurs at position `i` yields that item's value. */
  lemma {:induction false} LookupAt<V>(table: seq<(string, V)>, i: nat, key: string)
    requires i < |table| && table[i].0 == key
    requires forall j :: 0 <= j < i ==> table[j].0 != key
    ensures Lookup(table, key) == Some(table[i].1)
  {
    if i > 0 {
      assert forall j :: 0 <= j < i - 1 ==> table[1..][j] == table[j + 1];
      LookupAt(table[1..], i - 1, key);
    }
  }

  /** `EMOTION_MAP`, each one-hot row given by the position of its 1. */
  const EmotionMap: seq<(string, nat)> := [
    ("思", 0),
    ("乐", 1),
    ("哀", 2),
    ("喜", 3),
    ("怒", 4),
    ("豪", 4),
    ("怒/豪", 4)]

  /** `EMOTION_MAP.get(name)` */
  function EmotionDim(name: string): (r: Option<nat>)
    ensures r.Some? ==> r.value < Dims
  {
    LookupIn(EmotionMap, name);
    Lookup(EmotionMap, name)
  }

  /** The dimension of every key of `EMOTION_MAP`. */
  lemma KnownDims()
    ensures EmotionDim("思") == Some(0) && EmotionDim("乐") == Some(1) && EmotionDim("哀") == Some(2)
    ensures EmotionDim("喜") == Some(3)
    ensures EmotionDim("怒") == Some(4) && EmotionDim("豪") == Some(4) && EmotionDim("怒/豪") == Some(4)
  {
    LookupAt(EmotionMap, 0, "思");
    LookupAt(EmotionMap, 1, "乐");
    LookupAt(EmotionMap, 2, "哀");
    LookupAt(EmotionMap, 3, "喜");
    LookupAt(EmotionMap, 4, "怒");
    LookupAt(EmotionMap, 5, "豪");
    LookupAt(EmotionMap, 6, "怒/豪");
  }

  function UnitVector(d: nat): seq<real> {
    seq(Dims, i => if i == d then 1.0 else 0.0)
  }

  const ZeroVector: seq<real> := [0.0, 0.0, 0.0, 0.0, 0.0]

  /** `not emotion_str or pd.isna(emotion_str)` */
  predicate IsBlankLabel(emotionStr: Field) {
    emotionStr.Null? || emotionStr.s == []
  }

  /** `[e.strip() for e in emotion_str.replace('，', ',').split(',')]` */
  function Tokens(s: string): seq<string> {
    var pieces := Split(Replace(s, FullComma, ','), {','});
    seq(|pieces|, i requires 0 <= i < |pieces| => Strip(pieces[i]))
  }

  /** `remaining_weight` for `n` tokens: the weight of every token after the first. */
  function RemainingWeight(n: nat): real {
    if n > 1 then (1.0 - FirstWeight) / (n - 1) as real else 1.0
  }

  /** The weight of token `i`: `first_weight if i == 0 else remaining_weight`. */
  function Weight(i: nat, rest: real): real {
    if i == 0 then FirstWeight else rest
  }

  /** How many of the slash parts name dimension `d`. */
  function PartHits(parts: seq<string>, d: nat): nat {
    if parts == [] then 0
    else PartHits(parts[..|parts| - 1], d) + (if EmotionDim(parts[|parts| - 1]) == Some(d) then 1 else 0)
  }

  /**
   * How many times one token adds its weight to dimension `d`: once when the
   * whole token is a key; otherwise, when it contains `/`, once per slash
   * part that is a key (the parts are not stripped).
   */
  function Hits(token: string, d: nat): nat {
    match EmotionDim(token)
    case Some(e) => if e == d then 1 else 0
    case None => if '/' in token then PartHits(Split(token, {'/'}), d) else 0
  }

  /** What the slash parts add to dimension `d` at weight `w`: `w` for each part that is a key of `d`. */
  function PartMass(parts: seq<string>, d: nat, w: real): real {
    if parts == [] then 0.0
    else PartMass(parts[..|parts| - 1], d, w) + (if EmotionDim(parts[|parts| - 1]) == Some(d) then w else 0.0)
  }

  /** What one token of weight `w` adds to dimension `d` of `vector`. */
  function TokenMass(token: string, d: nat, w: real): real {
    match EmotionDim(token)
    case Some(e) => if e == d then w else 0.0
    case None => if '/' in token then PartMass(Split(token, {'/'}), d, w) else 0.0
  }

  /** Dimension `d` of `vector` after the first `k` tokens, later tokens weighing `rest`. */
  function Mass(ts: seq<string>, rest: real, k: nat, d: nat): real
    requires k <= |ts|
  {
    if k == 0 then 0.0 else Mass(ts, rest, k - 1, d) + TokenMass(ts[k - 1], d, Weight(k - 1, rest))
  }

  /** `vector` after the token loop, before normalisation. */
  function Accumulated(ts: seq<string>): seq<real> {
    seq(Dims, d requires 0 <= d < Dims => Mass(ts, RemainingWeight(|ts|), |ts|, d))
  }

  /** `np.sum(v)` */
  function Sum(v: seq<real>): real {
    if v == [] then 0.0 else v[0] + Sum(v[1..])
  }

  /** `v / t` */
  function Scale(v: seq<real>, t: real): (r: seq<real>)
    requires t != 0.0
    ensures |r| == |v| && forall i :: 0 <= i < |v| ==> r[i] == v[i] / t
  {
    if v == [] then [] else [v[0] / t] + Scale(v[1..], t)
  }

  /** `vector / vector_sum if vector_sum > 0 else vector` */
  function Normalised(v: seq<real>): seq<real> {
    if Sum(v) > 0.0 then Scale(v, Sum(v)) else v
  }

  /** The vector of a non-blank label with tokens `ts`. */
  function TokenVector(ts: seq<string>): seq<real> {
    Normalised(Accumulated(ts))
  }

  /** The result of `convert_to_vector(emotion_str)`. */
  function EmotionVector(emotionStr: Field): seq<real> {
    if IsBlankLabel(emotionStr) then ZeroVector else TokenVector(Tokens(emotionStr.s))
  }


  /** Some token adds weight to some dimension. */
  predicate Recognised(ts: seq<string>) {
    exists i, d :: 0 <= i < |ts| && 0 <= d < Dims && Hits(ts[i], d) > 0
  }

  /** `convert_to_vector`: the weighted one-hot sum over the tokens, normalised. */
  method ConvertToVector(emotionStr: Field) returns (v: array<real>)
    ensures v.Length == Dims && v[..] == EmotionVector(emotionStr)
  {
    v := new real[Dims](_ => 0.0);
    if emotionStr.Null? || |emotionStr.s| == 0 {
      assert v[..] == ZeroVector;
      return;
    }
    var emotions := Tokens(emotionStr.s);
    AccumulateTokens(v, emotions);
    var vectorSum := v[0] + v[1] + v[2] + v[3] + v[4];
    Sum5(v[..]);
    if vectorSum > 0.0 {
      DivideAll(v, vectorSum);
    }
  }

  /**
   * The token loop of `convert_to_vector`: the first token weighs 0.6, every
   * later one `remaining_weight`, and each adds its weight to its dimension.
   */
  method AccumulateTokens(v: array<real>, emotions: seq<string>)
    requires v.Length == Dims && forall d :: 0 <= d < Dims ==> v[d] == 0.0
    modifies v
    ensures v[..] == Accumulated(emotions)
  {
    var n := |emotions|;
    var firstWeight := FirstWeight;
    var remainingWeight := if n > 1 then (1.0 - firstWeight) / (n - 1) as real else 1.0;
    assert remainingWeight == RemainingWeight(n);
    for i := 0 to n
      invariant forall d :: 0 <= d < Dims ==> v[d] == Mass(emotions, remainingWeight, i, d)
    {
      var weight := if i == 0 then firstWeight else remainingWeight;
      AddToken(v, emotions[i], weight);
    }
    AccumulatedOf(v[..], emotions, remainingWeight);
  }

  /** Five dimensions accumulated over all of `ts`, later tokens weighing `rest`, are `Accumulated(ts)`. */
  lemma AccumulatedOf(v: seq<real>, ts: seq<string>, rest: real)
    requires rest == RemainingWeight(|ts|) && |v| == Dims
    requires forall d :: 0 <= d < Dims ==> v[d] == Mass(ts, rest, |ts|, d)
    ensures v == Accumulated(ts)
  {
  }

  /** One token of the loop: its weight added to the dimension of the token, or of each slash part. */
  method AddToken(v: array<real>, emotion: string, weight: real)
    requires v.Length == Dims
    modifies v
    ensures forall d :: 0 <= d < Dims ==> v[d] == old(v[d]) + TokenMass(emotion, d, weight)
  {
    match EmotionDim(emotion) {
      case Some(e) =>
        v[e] := v[e] + weight;
      case None =>
        if '/' in emotion {
          var parts := Split(emotion, {'/'});
          for j := 0 to |parts|
            invariant forall d :: 0 <= d < Dims ==> v[d] == old(v[d]) + PartMass(parts[..j], d, weight)
          {
            assert parts[..j + 1][..j] == parts[..j];
            match EmotionDim(parts[j]) {
              case Some(e) =>
                v[e] := v[e] + weight;
              case None =>
            }
          }
          assert parts[..|parts|] == parts;
        }
    }
  }

  /** `v = v / t` */
  method DivideAll(v: array<real>, t: real)
    requires t != 0.0
    modifies v
    ensures v[..] == Scale(old(v[..]), t)
  {
    for d := 0 to v.Length
      invariant forall e :: 0 <= e < d ==> v[e] == old(v[e]) / t
      invariant forall e :: d <= e < v.Length ==> v[e] == old(v[e])
    {
      v[d] := v[d] / t;
    }
  }

  lemma Sum5(v: seq<real>)
    requires |v| == 5
    ensures Sum(v) == v[0] + v[1] + v[2] + v[3] + v[4]
  {
    assert Sum(v[4..]) == v[4] by {
      assert v[4..][1..] == [];
    }
    assert Sum(v[3..]) == v[3] + Sum(v[4..]) by {
      assert v[3..][1..] == v[4..];
    }
    assert Sum(v[2..]) == v[2] + Sum(v[3..]) by {
      assert v[2..][1..] == v[3..];
    }
    assert Sum(v[1..]) == v[1] + Sum(v[2..]) by {
      assert v[1..][1..] == v[2..];
    }
  }

  /** Every weight is positive. */
  lemma WeightPositive(n: nat)
    ensures RemainingWeight(n) > 0.0
    ensures forall i :: Weight(i, RemainingWeight(n)) > 0.0
  {
  }

  /** The weights the token loop hands out, `Σ weight` over the first `k` of `n` tokens. */
  function WeightTotal(n: nat, k: nat): real {
    if k == 0 then 0.0 else WeightTotal(n, k - 1) + Weight(k - 1, RemainingWeight(n))
  }

  /**
   * The count `n` includes empty and unknown tokens: the first token always
   * weighs 0.6, so a sole token hands out 0.6 in all (the `else 1` branch is
   * never used), and `n >= 2` tokens hand out exactly 1.
   */
  lemma WeightsAddUp(n: nat)
    requires n >= 1
    ensures Weight(0, RemainingWeight(n)) == 0.6
    ensures WeightTotal(n, n) == (if n == 1 then 0.6 else 1.0)
  {
    if n > 1 {
      WeightTotalLater(n, n);
      var w := 0.4 / (n - 1) as real;
      assert (n - 1) as real * w == 0.4;
    }
  }

  lemma {:induction false} WeightTotalLater(n: nat, k: nat)
    requires 1 <= k <= n && n > 1
    ensures WeightTotal(n, k) == 0.6 + (k - 1) as real * (0.4 / (n - 1) as real)
  {
    if k > 1 {
      WeightTotalLater(n, k - 1);
    }
  }

  /** Every separator of either glyph starts a new token, empty or not. */
  lemma TokenCount(s: string)
    ensures |Tokens(s)| == CountIn(s, Commas) + 1
  {
    ReplaceThenSplit(s, FullComma, ',');
    assert {FullComma, ','} == Commas;
    SplitCount(s, Commas);
  }

  lemma {:induction false} PartMassHits(parts: seq<string>, d: nat, w: real)
    ensures PartMass(parts, d, w) == w * PartHits(parts, d) as real
  {
    if parts != [] {
      PartMassHits(parts[..|parts| - 1], d, w);
    }
  }

  /** A token adds its weight once per hit. */
  lemma TokenMassHits(token: string, d: nat, w: real)
    ensures TokenMass(token, d, w) == w * Hits(token, d) as real
  {
    if EmotionDim(token).None? && '/' in token {
      PartMassHits(Split(token, {'/'}), d, w);
    }
  }

  lemma {:induction false} MassNonNegative(ts: seq<string>, rest: real, k: nat, d: nat)
    requires k <= |ts| && rest > 0.0
    ensures Mass(ts, rest, k, d) >= 0.0
  {
    if k > 0 {
      MassNonNegative(ts, rest, k - 1, d);
      TokenMassHits(ts[k - 1], d, Weight(k - 1, rest));
    }
  }

  /** A dimension gets weight exactly when some token hits it. */
  lemma {:induction false} MassPositive(ts: seq<string>, rest: real, k: nat, d: nat)
    requires k <= |ts| && rest > 0.0
    ensures Mass(ts, rest, k, d) > 0.0 <==> exists i :: 0 <= i < k && Hits(ts[i], d) > 0
  {
    if k > 0 {
      MassPositive(ts, rest, k - 1, d);
      MassNonNegative(ts, rest, k - 1, d);
      MassPositiveStep(ts, rest, k, d);
    }
  }

  /** The step of `MassPositive` from the first `k - 1` tokens to the first `k`. */
  lemma MassPositiveStep(ts: seq<string>, rest: real, k: nat, d: nat)
    requires 0 < k <= |ts| && rest > 0.0
    requires Mass(ts, rest, k - 1, d) >= 0.0
    requires Mass(ts, rest, k - 1, d) > 0.0 <==> exists i :: 0 <= i < k - 1 && Hits(ts[i], d) > 0
    ensures Mass(ts, rest, k, d) > 0.0 <==> exists i :: 0 <= i < k && Hits(ts[i], d) > 0
  {
    var w := Weight(k - 1, rest);
    TokenMassHits(ts[k - 1], d, w);
    HitsBefore(ts, d, k);
    MassStep(Mass(ts, rest, k - 1, d), Mass(ts, rest, k, d), TokenMass(ts[k - 1], d, w), w, Hits(ts[k - 1], d),
      exists i :: 0 <= i < k - 1 && Hits(ts[i], d) > 0, exists i :: 0 <= i < k && Hits(ts[i], d) > 0);
  }

  /** Some token among the first `k` hits `d` when one among the first `k - 1` does or token `k - 1` does. */
  lemma HitsBefore(ts: seq<string>, d: nat, k: nat)
    requires 0 < k <= |ts|
    ensures (exists i :: 0 <= i < k && Hits(ts[i], d) > 0)
      <==> (exists i :: 0 <= i < k - 1 && Hits(ts[i], d) > 0) || Hits(ts[k - 1], d) > 0
  {
    if Hits(ts[k - 1], d) == 0 {
      forall i | 0 <= i < k && Hits(ts[i], d) > 0 ensures i < k - 1 {
      }
    }
  }

  /**
   * Adding `t = w·h` with `w > 0` to a non-negative mass `m0` makes it
   * positive exactly when `m0` was positive or `h > 0`.
   */
  lemma MassStep(m0: real, m1: real, t: real, w: real, h: nat, before: bool, after: bool)
    requires m0 >= 0.0 && w > 0.0 && t == w * h as real && m1 == m0 + t
    requires m0 > 0.0 <==> before
    requires after <==> before || h > 0
    ensures m1 > 0.0 <==> after
  {
    if h > 0 {
      assert w * h as real > 0.0;
    }
  }

  lemma {:induction false} SumNonNegative(v: seq<real>)
    requires forall i :: 0 <= i < |v| ==> v[i] >= 0.0
    ensures Sum(v) >= 0.0
  {
    if v != [] {
      SumNonNegative(v[1..]);
    }
  }

  /** With no negative entries, each entry is at most the sum. */
  lemma {:induction false} EntryBelowSum(v: seq<real>, i: nat)
    requires forall j :: 0 <= j < |v| ==> v[j] >= 0.0
    requires i < |v|
    ensures v[i] <= Sum(v)
  {
    SumNonNegative(v[1..]);
    if i > 0 {
      EntryBelowSum(v[1..], i - 1);
    }
  }

  lemma {:induction false} SumScale(v: seq<real>, t: real)
    requires t != 0.0
    ensures Sum(Scale(v, t)) == Sum(v) / t
  {
    if v != [] {
      SumScale(v[1..], t);
      assert Scale(v, t)[1..] == Scale(v[1..], t);
    }
  }

  lemma AccumulatedNonNegative(ts: seq<string>)
    ensures |Accumulated(ts)| == Dims
    ensures forall d :: 0 <= d < Dims ==> Accumulated(ts)[d] >= 0.0
  {
    WeightPositive(|ts|);
    forall d | 0 <= d < Dims ensures Accumulated(ts)[d] >= 0.0 {
      MassNonNegative(ts, RemainingWeight(|ts|), |ts|, d);
    }
  }

  /** Positive total weight exactly when some token is recognised; otherwise nothing accumulated. */
  lemma AccumulatedSum(ts: seq<string>)
    ensures Sum(Accumulated(ts)) > 0.0 <==> Recognised(ts)
    ensures !Recognised(ts) ==> Accumulated(ts) == ZeroVector
  {
    var rest := RemainingWeight(|ts|);
    WeightPositive(|ts|);
    MassesSum(Accumulated(ts), ts, rest);
  }

  /** `AccumulatedSum` for the masses of `ts` with later tokens weighing `rest`. */
  lemma MassesSum(a: seq<real>, ts: seq<string>, rest: real)
    requires rest > 0.0 && |a| == Dims
    requires forall d :: 0 <= d < Dims ==> a[d] == Mass(ts, rest, |ts|, d)
    ensures Sum(a) > 0.0 <==> Recognised(ts)
    ensures !Recognised(ts) ==> a == ZeroVector
  {
    if Recognised(ts) {
      var i, d :| 0 <= i < |ts| && 0 <= d < Dims && Hits(ts[i], d) > 0;
      MassPositive(ts, rest, |ts|, d);
      forall e | 0 <= e < Dims ensures a[e] >= 0.0 {
        MassNonNegative(ts, rest, |ts|, e);
      }
      SumWithPositive(a, d);
    } else {
      forall d | 0 <= d < Dims ensures a[d] == 0.0 {
        MassPositive(ts, rest, |ts|, d);
        MassNonNegative(ts, rest, |ts|, d);
      }
      assert a == ZeroVector;
    }
  }

  /** Five non-negative entries, one of them positive, have a positive sum. */
  lemma SumWithPositive(a: seq<real>, d: nat)
    requires |a| == Dims && d < Dims && a[d] > 0.0
    requires forall e :: 0 <= e < Dims ==> a[e] >= 0.0
    ensures Sum(a) > 0.0
  {
    Sum5(a);
  }

  /** Dividing by the sum turns a non-negative vector with positive sum into a distribution. */
  lemma ScaleToDistribution(a: seq<real>)
    requires forall d :: 0 <= d < |a| ==> a[d] >= 0.0
    requires Sum(a) > 0.0
    ensures forall d :: 0 <= d < |a| ==> 0.0 <= Scale(a, Sum(a))[d] <= 1.0
    ensures Sum(Scale(a, Sum(a))) == 1.0
  {
    SumScale(a, Sum(a));
    DivSelf(Sum(a));
    ScaleEntries(a);
  }

  lemma ScaleEntries(a: seq<real>)
    requires forall d :: 0 <= d < |a| ==> a[d] >= 0.0
    requires Sum(a) > 0.0
    ensures forall d :: 0 <= d < |a| ==> 0.0 <= Scale(a, Sum(a))[d] <= 1.0
  {
    forall d | 0 <= d < |a| ensures 0.0 <= a[d] / Sum(a) <= 1.0 {
      EntryBelowSum(a, d);
      RatioBounds(a[d], Sum(a), 0.0, 1.0);
    }
  }

  lemma DivSelf(t: real)
    requires t != 0.0
    ensures t / t == 1.0
  {
  }

  lemma RatioBounds(p: real, t: real, lo: real, hi: real)
    requires t > 0.0 && lo * t <= p <= hi * t
    ensures lo <= p / t <= hi
  {
    assert (p / t) * t == p;
  }

  lemma TokenVectorIsDistribution(ts: seq<string>)
    ensures |TokenVector(ts)| == Dims
    ensures forall d :: 0 <= d < Dims ==> 0.0 <= TokenVector(ts)[d] <= 1.0
    ensures Recognised(ts) ==> Sum(TokenVector(ts)) == 1.0
    ensures !Recognised(ts) ==> TokenVector(ts) == ZeroVector
  {
    AccumulatedNonNegative(ts);
    AccumulatedSum(ts);
    if Recognised(ts) {
      ScaleToDistribution(Accumulated(ts));
    }
  }

  /**
   * The result is a distribution or the zero vector: five entries in [0, 1]
   * that sum to 1, or all zero.
   */
  lemma VectorIsDistribution(emotionStr: Field)
    ensures |EmotionVector(emotionStr)| == Dims
    ensures forall d :: 0 <= d < Dims ==> 0.0 <= EmotionVector(emotionStr)[d] <= 1.0
    ensures Sum(EmotionVector(emotionStr)) == 1.0 || EmotionVector(emotionStr) == ZeroVector
  {
    if !IsBlankLabel(emotionStr) {
      TokenVectorIsDistribution(Tokens(emotionStr.s));
    }
  }

  /** The zero vector comes out exactly for a blank label or a label with no recognised token. */
  lemma ZeroIffUnrecognised(emotionStr: Field)
    ensures EmotionVector(emotionStr) == ZeroVector <==> IsBlankLabel(emotionStr) || !Recognised(Tokens(emotionStr.s))
  {
    if !IsBlankLabel(emotionStr) {
      var ts := Tokens(emotionStr.s);
      TokenVectorIsDistribution(ts);
      if Recognised(ts) {
        Sum5(ZeroVector);
      }
    }
  }

  /** A vector whose only positive entry is at `d` normalises to the one-hot vector of `d`. */
  lemma ScaleUnit(a: seq<real>, d: nat)
    requires |a| == Dims && d < Dims && a[d] > 0.0
    requires forall e :: 0 <= e < Dims && e != d ==> a[e] == 0.0
    ensures Sum(a) == a[d] && Scale(a, Sum(a)) == UnitVector(d)
  {
    SumUnit(a, d);
    var u := UnitVector(d);
    assert |u| == |a|;
    forall e | 0 <= e < Dims ensures a[e] == a[d] * u[e] {
    }
    ScaleOf(a, a[d], u);
  }

  /** A vector with one non-zero entry sums to that entry. */
  lemma SumUnit(a: seq<real>, d: nat)
    requires |a| == Dims && d < Dims
    requires forall e :: 0 <= e < Dims && e != d ==> a[e] == 0.0
    ensures Sum(a) == a[d]
  {
    Sum5(a);
    assert d == 0 || a[0] == 0.0;
    assert d == 1 || a[1] == 0.0;
    assert d == 2 || a[2] == 0.0;
    assert d == 3 || a[3] == 0.0;
    assert d == 4 || a[4] == 0.0;
  }

  /** When every hit is on dimension `d`, the tokens give the one-hot vector of `d`. */
  lemma OneHotTokens(ts: seq<string>, d: nat)
    requires d < Dims
    requires forall i, e :: 0 <= i < |ts| && 0 <= e < Dims && e != d ==> Hits(ts[i], e) == 0
    requires exists i :: 0 <= i < |ts| && Hits(ts[i], d) > 0
    ensures TokenVector(ts) == UnitVector(d)
  {
    var a := Accumulated(ts);
    var rest := RemainingWeight(|ts|);
    WeightPositive(|ts|);
    forall e | 0 <= e < Dims && e != d ensures a[e] == 0.0 {
      MassPositive(ts, rest, |ts|, e);
      MassNonNegative(ts, rest, |ts|, e);
    }
    MassPositive(ts, rest, |ts|, d);
    ScaleUnit(a, d);
  }

  /**
   * When every recognised token points at the same dimension `d`, the result
   * is the one-hot vector of `d`, whatever the weights were.
   */
  lemma OneHot(emotionStr: Field, d: nat)
    requires !IsBlankLabel(emotionStr) && d < Dims
    requires forall i, e :: 0 <= i < |Tokens(emotionStr.s)| && 0 <= e < Dims && e != d ==> Hits(Tokens(emotionStr.s)[i], e) == 0
    requires exists i :: 0 <= i < |Tokens(emotionStr.s)| && Hits(Tokens(emotionStr.s)[i], d) > 0
    ensures EmotionVector(emotionStr) == UnitVector(d)
  {
    OneHotTokens(Tokens(emotionStr.s), d);
  }

  /** A sole recognised token adds only 0.6, and normalisation turns it into its one-hot row. */
  lemma SoleToken(emotionStr: Field, t: string, d: nat)
    requires !IsBlankLabel(emotionStr) && Tokens(emotionStr.s) == [t] && EmotionDim(t) == Some(d)
    ensures Accumulated(Tokens(emotionStr.s))[d] == 0.6
    ensures EmotionVector(emotionStr) == UnitVector(d)
  {
    var ts := Tokens(emotionStr.s);
    assert Hits(ts[0], d) == 1;
    assert Mass(ts, RemainingWeight(1), 1, d) == Mass(ts, RemainingWeight(1), 0, d) + Weight(0, RemainingWeight(1)) * 1.0;
    OneHotTokens(ts, d);
  }

  /** Two distinct recognised tokens: 0.6 for the first, 0.4 for the second. */
  lemma TwoTokens(emotionStr: Field, a: string, b: string, x: nat, y: nat)
    requires !IsBlankLabel(emotionStr) && Tokens(emotionStr.s) == [a, b]
    requires EmotionDim(a) == Some(x) && EmotionDim(b) == Some(y) && x != y
    ensures EmotionVector(emotionStr) == seq(Dims, d => if d == x then 0.6 else if d == y then 0.4 else 0.0)
  {
    var ts := Tokens(emotionStr.s);
    var acc := Accumulated(ts);
    var expected := seq(Dims, d => if d == x then 0.6 else if d == y then 0.4 else 0.0);
    var rest := RemainingWeight(2);
    assert rest == 0.4;
    forall d | 0 <= d < Dims ensures acc[d] == expected[d] {
      assert Mass(ts, rest, 1, d) == Weight(0, rest) * Hits(a, d) as real;
      assert Mass(ts, rest, 2, d) == Mass(ts, rest, 1, d) + Weight(1, rest) * Hits(b, d) as real;
    }
    assert acc == expected;
    Sum5(acc);
    Sum5(expected);
    assert Scale(acc, 1.0) == acc;
  }

  /** An unknown first token still takes 0.6 of the weight, which normalisation then discards. */
  lemma UnknownFirstToken(emotionStr: Field, a: string, b: string, y: nat)
    requires !IsBlankLabel(emotionStr) && Tokens(emotionStr.s) == [a, b]
    requires forall d :: 0 <= d < Dims ==> Hits(a, d) == 0
    requires EmotionDim(b) == Some(y)
    ensures Accumulated(Tokens(emotionStr.s))[y] == 0.4
    ensures EmotionVector(emotionStr) == UnitVector(y)
  {
    var ts := Tokens(emotionStr.s);
    assert Hits(ts[1], y) == 1;
    TokenMassHits(a, y, 0.6);
    var rest := RemainingWeight(2);
    assert rest == 0.4;
    assert Mass(ts, rest, 1, y) == 0.0;
    assert Mass(ts, rest, 2, y) == Mass(ts, rest, 1, y) + Weight(1, rest) * 1.0;
    OneHotTokens(ts, y);
  }

  /** A label without commas and without surrounding spaces is one token, itself. */
  lemma TokensOf(s: string)
    requires FullComma !in s && ',' !in s
    requires s == [] || (!IsSpace(s[0]) && !IsSpace(s[|s| - 1]))
    ensures Tokens(s) == [s]
  {
    assert Replace(s, FullComma, ',') == s;
    SplitNoSeparator(s, {','});
    assert TrimLeft(s) == s;
  }

  lemma TokensOfTwo(s: string, t: string)
    requires FullComma !in s && ',' !in s && FullComma !in t && ',' !in t
    requires s != [] && !IsSpace(s[0]) && !IsSpace(s[|s| - 1])
    requires t != [] && !IsSpace(t[0]) && !IsSpace(t[|t| - 1])
    ensures Tokens(s + [','] + t) == [s, t]
  {
    var u := s + [','] + t;
    assert Replace(u, FullComma, ',') == u;
    SplitAfterPiece(s, ',', t);
    SplitNoSeparator(t, {','});
    assert TrimLeft(s) == s;
    assert TrimLeft(t) == t;
  }

  /** `"X,思"`: the unknown first token is ignored after normalisation. */
  lemma UnknownThenSi()
    ensures EmotionVector(Value("X,思")) == UnitVector(0)
  {
    TokensOfTwo("X", "思");
    assert "X" + [','] + "思" == "X,思";
    UnknownX();
    KnownDims();
    UnknownFirstToken(Value("X,思"), "X", "思", 0);
  }

  /** `X` is no key and has no slash: it hits no dimension. */
  lemma UnknownX()
    ensures forall d :: 0 <= d < Dims ==> Hits("X", d) == 0
  {
    LookupIn(EmotionMap, "X");
    assert EmotionDim("X").None?;
    assert '/' !in "X";
  }

  /** A label that is a single key of the table is that key's one-hot row. */
  lemma SoleKey(t: string, d: nat)
    requires t != [] && FullComma !in t && ',' !in t && !IsSpace(t[0]) && !IsSpace(t[|t| - 1])
    requires EmotionDim(t) == Some(d)
    ensures EmotionVector(Value(t)) == UnitVector(d)
  {
    TokensOf(t);
    SoleToken(Value(t), t, d);
  }

  /** `怒`, `豪` and `怒/豪` are one emotion: each is a key of its own, mapped to the fifth dimension. */
  lemma RageSynonyms()
    ensures EmotionVector(Value("怒")) == UnitVector(4)
    ensures EmotionVector(Value("豪")) == UnitVector(4)
    ensures EmotionVector(Value("怒/豪")) == UnitVector(4)
  {
    RageKey("怒");
    RageKey("豪");
    RageKey("怒/豪");
  }

  lemma RageKey(t: string)
    requires t == "怒" || t == "豪" || t == "怒/豪"
    ensures EmotionVector(Value(t)) == UnitVector(4)
  {
    KnownDims();
    SoleKey(t, 4);
  }

  /** `"思/哀".split('/')` */
  lemma SplitSiAi()
    ensures Split("思/哀", {'/'}) == ["思", "哀"]
  {
    assert "思/哀" == "思" + ['/'] + "哀";
    SplitAfterPiece("思", '/', "哀");
    SplitNoSeparator("哀", {'/'});
  }

  /** `思/哀` is not a key of its own. */
  lemma SlashKeyUnknown()
    ensures EmotionDim("思/哀").None?
  {
    LookupIn(EmotionMap, "思/哀");
  }

  /** The unknown slash token `思/哀` adds its weight once to 思 and once to 哀. */
  lemma SlashMass(d: nat, w: real)
    requires d < Dims
    ensures TokenMass("思/哀", d, w) == [w, 0.0, w, 0.0, 0.0][d]
  {
    SlashKeyUnknown();
    SplitSiAi();
    KnownDims();
    var parts: seq<string> := ["思", "哀"];
    assert "思/哀"[1] == '/';
    assert parts[..1] == ["思"] && ["思"][..0] == [];
    assert PartMass(["思"], d, w) == (if d == 0 then w else 0.0);
    assert PartMass(parts, d, w) == PartMass(["思"], d, w) + (if d == 2 then w else 0.0);
    assert TokenMass("思/哀", d, w) == PartMass(parts, d, w);
  }

  /** An unknown slash token adds its whole weight to every recognised part. */
  lemma SlashTokenSplitsWeight()
    ensures EmotionVector(Value("思/哀")) == [0.5, 0.0, 0.5, 0.0, 0.0]
  {
    var acc := SlashAccumulated();
    assert Sum(acc) == 1.2 by {
      Sum5(acc);
    }
    var r := Scale(acc, 1.2);
    assert r == [0.5, 0.0, 0.5, 0.0, 0.0] by {
      assert r[0] == 0.5 && r[1] == 0.0 && r[2] == 0.5 && r[3] == 0.0 && r[4] == 0.0;
    }
  }

  /** Before normalisation, `思/哀` holds its weight 0.6 at both 思 and 哀. */
  lemma SlashAccumulated() returns (acc: seq<real>)
    ensures acc == Accumulated(Tokens("思/哀")) == [0.6, 0.0, 0.6, 0.0, 0.0]
  {
    var s := "思/哀";
    TokensOf(s);
    var ts := Tokens(s);
    acc := Accumulated(ts);
    forall d | 0 <= d < Dims ensures acc[d] == [0.6, 0.0, 0.6, 0.0, 0.0][d] {
      SlashMass(d, 0.6);
      assert Mass(ts, RemainingWeight(1), 1, d) == TokenMass(s, d, 0.6);
    }
  }

  // ----- get_emotion_color -----

  /** An RGBA colour of the table: alpha 1, every other channel between 0.2 and 0.8. */
  predicate TableColor(c: seq<real>) {
    |c| == 4 && c[3] == 1.0 && forall ch :: 0 <= ch < 3 ==> 0.2 <= c[ch] <= 0.8
  }

  /** `EMOTION_COLORS` */
  const EmotionColors: seq<(string, seq<real>)> := [
    ("思", [0.8, 0.2, 0.2, 1.0]),
    ("乐", [0.2, 0.8, 0.2, 1.0]),
    ("哀", [0.2, 0.2, 0.8, 1.0]),
    ("喜", [0.8, 0.8, 0.2, 1.0]),
    ("怒", [0.8, 0.2, 0.8, 1.0]),
    ("豪", [0.8, 0.2, 0.8, 1.0]),
    ("怒/豪", [0.8, 0.2, 0.8, 1.0])]

  /** `EMOTION_COLORS.get(name)` */
  function EmotionColor(name: string): (r: Option<seq<real>>)
    ensures r.Some? ==> TableColor(r.value)
  {
    LookupIn(EmotionColors, name);
    Lookup(EmotionColors, name)
  }

  /** The colour of every key of `EMOTION_COLORS`. */
  lemma KnownColors()
    ensures EmotionColor("思") == Some([0.8, 0.2, 0.2, 1.0])
    ensures EmotionColor("乐") == Some([0.2, 0.8, 0.2, 1.0])
    ensures EmotionColor("哀") == Some([0.2, 0.2, 0.8, 1.0])
    ensures EmotionColor("喜") == Some([0.8, 0.8, 0.2, 1.0])
    ensures EmotionColor("怒") == Some([0.8, 0.2, 0.8, 1.0])
    ensures EmotionColor("豪") == Some([0.8, 0.2, 0.8, 1.0])
    ensures EmotionColor("怒/豪") == Some([0.8, 0.2, 0.8, 1.0])
  {
    LookupAt(EmotionColors, 0, "思");
    LookupAt(EmotionColors, 1, "乐");
    LookupAt(EmotionColors, 2, "哀");
    LookupAt(EmotionColors, 3, "喜");
    LookupAt(EmotionColors, 4, "怒");
    LookupAt(EmotionColors, 5, "豪");
    LookupAt(EmotionColors, 6, "怒/豪");
  }

  const Grey: seq<real> := [0.5, 0.5, 0.5, 1.0]

  /** The colour of the first slash part that has one (`…; break`). */
  function FirstColor(parts: seq<string>): (r: Option<seq<real>>)
    ensures r.Some? ==> TableColor(r.value)
    ensures r.Some? <==> exists j :: 0 <= j < |parts| && EmotionColor(parts[j]).Some?
  {
    if parts == [] then None
    else if EmotionColor(parts[0]).Some? then EmotionColor(parts[0])
    else
      var r := FirstColor(parts[1..]);
      assert forall j :: 1 <= j < |parts| ==> parts[j] == parts[1..][j - 1];
      r
  }

  /** The colour one token contributes, if any. */
  function TokenColor(token: string): (r: Option<seq<real>>)
    ensures r.Some? ==> TableColor(r.value)
  {
    if EmotionColor(token).Some? then EmotionColor(token)
    else if '/' in token then FirstColor(Split(token, {'/'}))
    else None
  }

  /** What one token of weight `w` adds to channel `ch` of `color`. */
  function TokenPaint(token: string, ch: nat, w: real): real
    requires ch < 4
  {
    match TokenColor(token)
    case Some(c) => w * c[ch]
    case None => 0.0
  }

  /** Channel `ch` of `color` after the first `k` tokens, later tokens weighing `rest`. */
  function Paint(ts: seq<string>, rest: real, k: nat, ch: nat): real
    requires k <= |ts| && ch < 4
  {
    if k == 0 then 0.0 else Paint(ts, rest, k - 1, ch) + TokenPaint(ts[k - 1], ch, Weight(k - 1, rest))
  }

  /** `color` after the token loop. */
  function Blend(ts: seq<string>): seq<real> {
    seq(4, ch requires 0 <= ch < 4 => Paint(ts, RemainingWeight(|ts|), |ts|, ch))
  }

  /** `total_weight` after the first `k` tokens: the weight of the tokens that had a colour. */
  function Coverage(ts: seq<string>, rest: real, k: nat): real
    requires k <= |ts|
  {
    if k == 0 then 0.0
    else Coverage(ts, rest, k - 1) + if TokenColor(ts[k - 1]).Some? then Weight(k - 1, rest) else 0.0
  }

  /** The colour of a non-blank label with tokens `ts`. */
  function TokenBlend(ts: seq<string>): seq<real> {
    var total := Coverage(ts, RemainingWeight(|ts|), |ts|);
    if total > 0.0 then Scale(Blend(ts), total) else Grey
  }

  /** The result of `get_emotion_color(emotion_str)`. */
  function EmotionColorOf(emotionStr: Field): seq<real> {
    if IsBlankLabel(emotionStr) then Grey else TokenBlend(Tokens(emotionStr.s))
  }

  /** `np.array([0.5, 0.5, 0.5, 1.0])` */
  method NewGrey() returns (color: array<real>)
    ensures color.Length == 4 && color[..] == Grey
  {
    color := new real[4];
    color[0], color[1], color[2], color[3] := 0.5, 0.5, 0.5, 1.0;
  }

  /**
   * One token of the colour loop: the token's colour, or else the colour of
   * its first slash part that has one, is added with the token's weight.
   */
  method BlendToken(color: array<real>, emotion: string, weight: real) returns (hit: bool)
    requires color.Length == 4
    modifies color
    ensures hit <==> TokenColor(emotion).Some?
    ensures forall ch :: 0 <= ch < 4 ==> color[ch] == old(color[ch]) + TokenPaint(emotion, ch, weight)
  {
    var whole := EmotionColor(emotion);
    hit := false;
    if whole.Some? {
      AddWeighted(color, whole.value, weight);
      hit := true;
    } else if '/' in emotion {
      var parts := Split(emotion, {'/'});
      hit := BlendFirstPart(color, parts, weight);
    }
  }

  /** `for part in emotion.split('/')`: the first part with a colour is added with the weight, then the loop stops. */
  method BlendFirstPart(color: array<real>, parts: seq<string>, weight: real) returns (hit: bool)
    requires color.Length == 4
    modifies color
    ensures hit <==> FirstColor(parts).Some?
    ensures forall ch :: 0 <= ch < 4 ==>
      color[ch] == old(color[ch]) + if hit then weight * FirstColor(parts).value[ch] else 0.0
  {
    hit := false;
    for j := 0 to |parts|
      invariant !hit && FirstColor(parts[..j]).None?
      invariant forall ch :: 0 <= ch < 4 ==> color[ch] == old(color[ch])
    {
      var c := EmotionColor(parts[j]);
      if c.Some? {
        FirstColorAt(parts, j);
        AddWeighted(color, c.value, weight);
        hit := true;
        return;
      }
      FirstColorNoneExtend(parts, j);
    }
    assert parts[..|parts|] == parts;
  }

  /** `color += np.array(c) * weight` */
  method AddWeighted(color: array<real>, c: seq<real>, weight: real)
    requires color.Length == 4 && |c| == 4
    modifies color
    ensures forall ch :: 0 <= ch < 4 ==> color[ch] == old(color[ch]) + weight * c[ch]
  {
    for ch := 0 to 4
      invariant forall e :: 0 <= e < ch ==> color[e] == old(color[e]) + weight * c[e]
      invariant forall e :: ch <= e < 4 ==> color[e] == old(color[e])
    {
      color[ch] := color[ch] + weight * c[ch];
    }
  }

  /** `get_emotion_color`: the weighted colour blend divided by the recognised weight, or grey. */
  method GetEmotionColor(emotionStr: Field) returns (color: array<real>)
    ensures color.Length == 4 && color[..] == EmotionColorOf(emotionStr)
  {
    if emotionStr.Null? || |emotionStr.s| == 0 {
      color := NewGrey();
      return;
    }
    var emotions := Tokens(emotionStr.s);
    color := new real[4](_ => 0.0);
    var totalWeight := PaintTokens(color, emotions);
    TokenBlendWith(emotions, RemainingWeight(|emotions|));
    if totalWeight > 0.0 {
      DivideAll(color, totalWeight);
    } else {
      color := NewGrey();
    }
  }

  /**
   * The token loop of `get_emotion_color`: every token with a colour adds
   * it to `color` with the token's weight, and that weight to `total_weight`.
   */
  method PaintTokens(color: array<real>, emotions: seq<string>) returns (totalWeight: real)
    requires color.Length == 4 && forall ch :: 0 <= ch < 4 ==> color[ch] == 0.0
    modifies color
    ensures color[..] == Blend(emotions)
    ensures totalWeight == Coverage(emotions, RemainingWeight(|emotions|), |emotions|)
  {
    totalWeight := 0.0;
    var n := |emotions|;
    var firstWeight := FirstWeight;
    var remainingWeight := if n > 1 then (1.0 - firstWeight) / (n - 1) as real else 1.0;
    assert remainingWeight == RemainingWeight(n);
    for i := 0 to n
      invariant forall ch :: 0 <= ch < 4 ==> color[ch] == Paint(emotions, remainingWeight, i, ch)
      invariant totalWeight == Coverage(emotions, remainingWeight, i)
    {
      var weight := if i == 0 then firstWeight else remainingWeight;
      assert weight == Weight(i, remainingWeight);
      PaintNext(emotions, remainingWeight, i);
      var hit := BlendToken(color, emotions[i], weight);
      if hit {
        totalWeight := totalWeight + weight;
      }
    }
    BlendOf(color[..], emotions, remainingWeight);
  }

  /** Token `i` adds its paint to every channel, and its weight to the coverage if it has a colour. */
  lemma PaintNext(ts: seq<string>, rest: real, i: nat)
    requires i < |ts|
    ensures forall ch :: 0 <= ch < 4 ==>
      Paint(ts, rest, i + 1, ch) == Paint(ts, rest, i, ch) + TokenPaint(ts[i], ch, Weight(i, rest))
    ensures Coverage(ts, rest, i + 1)
      == Coverage(ts, rest, i) + if TokenColor(ts[i]).Some? then Weight(i, rest) else 0.0
  {
  }

  /** The first part with a colour decides the colour of the slash token. */
  lemma {:induction false} FirstColorAt(parts: seq<string>, j: nat)
    requires j < |parts| && FirstColor(parts[..j]).None? && EmotionColor(parts[j]).Some?
    ensures FirstColor(parts) == EmotionColor(parts[j])
  {
    if j > 0 {
      assert parts[..j][0] == parts[0];
      assert parts[..j][1..] == parts[1..][..j - 1];
      FirstColorAt(parts[1..], j - 1);
    }
  }

  lemma FirstColorNoneExtend(parts: seq<string>, j: nat)
    requires j < |parts| && FirstColor(parts[..j]).None? && EmotionColor(parts[j]).None?
    ensures FirstColor(parts[..j + 1]).None?
  {
    var p := parts[..j + 1];
    forall k | 0 <= k < |p| ensures EmotionColor(p[k]).None? {
      if k < j {
        assert p[k] == parts[..j][k];
      }
    }
  }

  /** One token's contribution to a channel is between 0.2 and 0.8 of its weight; to alpha, its weight. */
  lemma TokenPaintBounds(token: string, ch: nat, w: real)
    requires ch < 4 && w > 0.0
    ensures TokenColor(token).None? ==> TokenPaint(token, ch, w) == 0.0
    ensures TokenColor(token).Some? && ch == 3 ==> TokenPaint(token, ch, w) == w
    ensures TokenColor(token).Some? && ch < 3 ==> 0.2 * w <= TokenPaint(token, ch, w) <= 0.8 * w
  {
    if TokenColor(token).Some? {
      var c := TokenColor(token).value;
      ScaleBetween(TokenPaint(token, ch, w), w, c[ch]);
    }
  }

  /** `p = w·x` lies between `0.2·w` and `0.8·w` for `x` in [0.2, 0.8], and is `w` for `x = 1`. */
  lemma ScaleBetween(p: real, w: real, x: real)
    requires p == w * x && w > 0.0 && (0.2 <= x <= 0.8 || x == 1.0)
    ensures x == 1.0 ==> p == w
    ensures 0.2 <= x <= 0.8 ==> 0.2 * w <= p <= 0.8 * w
  {
    if x != 1.0 {
      MulMonotone(w, 0.2, x);
      MulMonotone(w, x, 0.8);
    }
  }

  lemma MulMonotone(w: real, a: real, b: real)
    requires w >= 0.0 && a <= b
    ensures w * a <= w * b
  {
    assert w * b - w * a == w * (b - a);
  }

  /**
   * Each channel sum is a weighted sum of table colours: alpha sums to the
   * covered weight, the other channels to between 0.2 and 0.8 of it.
   */
  lemma {:induction false} PaintBounds(ts: seq<string>, rest: real, k: nat, ch: nat)
    requires k <= |ts| && ch < 4 && rest > 0.0
    ensures Coverage(ts, rest, k) >= 0.0
    ensures ch == 3 ==> Paint(ts, rest, k, ch) == Coverage(ts, rest, k)
    ensures ch < 3 ==> 0.2 * Coverage(ts, rest, k) <= Paint(ts, rest, k, ch) <= 0.8 * Coverage(ts, rest, k)
  {
    if k > 0 {
      PaintBounds(ts, rest, k - 1, ch);
      TokenPaintBounds(ts[k - 1], ch, Weight(k - 1, rest));
    }
  }

  /** The blend is opaque and keeps every colour channel within the table's range [0.2, 0.8]. */
  lemma TokenBlendBounds(ts: seq<string>)
    ensures |TokenBlend(ts)| == 4 && TokenBlend(ts)[3] == 1.0
    ensures forall ch :: 0 <= ch < 3 ==> 0.2 <= TokenBlend(ts)[ch] <= 0.8
  {
    var rest := RemainingWeight(|ts|);
    WeightPositive(|ts|);
    var total := Coverage(ts, rest, |ts|);
    PaintBounds(ts, rest, |ts|, 3);
    if total > 0.0 {
      var b := Blend(ts);
      var r := Scale(b, total);
      assert r[3] == total / total == 1.0;
      forall ch | 0 <= ch < 3 ensures 0.2 <= r[ch] <= 0.8 {
        PaintBounds(ts, rest, |ts|, ch);
        RatioBounds(b[ch], total, 0.2, 0.8);
      }
    }
  }

  lemma ColorBounds(emotionStr: Field)
    ensures |EmotionColorOf(emotionStr)| == 4 && EmotionColorOf(emotionStr)[3] == 1.0
    ensures forall ch :: 0 <= ch < 3 ==> 0.2 <= EmotionColorOf(emotionStr)[ch] <= 0.8
  {
    if !IsBlankLabel(emotionStr) {
      TokenBlendBounds(Tokens(emotionStr.s));
    }
  }

  /** The covered weight is zero exactly when no token has a colour. */
  lemma {:induction false} CoverageZero(ts: seq<string>, rest: real, k: nat)
    requires k <= |ts| && rest > 0.0
    ensures Coverage(ts, rest, k) == 0.0 <==> forall i :: 0 <= i < k ==> TokenColor(ts[i]).None?
  {
    if k > 0 {
      CoverageZero(ts, rest, k - 1);
      PaintBounds(ts, rest, k - 1, 0);
    }
  }

  /** Grey for a blank label and for a label none of whose tokens has a colour. */
  lemma GreyWhenUnrecognised(emotionStr: Field)
    requires IsBlankLabel(emotionStr) || forall i :: 0 <= i < |Tokens(emotionStr.s)| ==> TokenColor(Tokens(emotionStr.s)[i]).None?
    ensures EmotionColorOf(emotionStr) == Grey
  {
    if !IsBlankLabel(emotionStr) {
      var ts := Tokens(emotionStr.s);
      WeightPositive(|ts|);
      CoverageZero(ts, RemainingWeight(|ts|), |ts|);
    }
  }

  /** When every token with a colour has `x` in channel `ch`, that channel is the covered weight times `x`. */
  lemma {:induction false} PaintSingle(ts: seq<string>, rest: real, k: nat, x: real, ch: nat)
    requires k <= |ts| && ch < 4
    requires forall i :: 0 <= i < |ts| ==> TokenColor(ts[i]).None? || TokenColor(ts[i]).value[ch] == x
    ensures Paint(ts, rest, k, ch) == Coverage(ts, rest, k) * x
  {
    if k > 0 {
      PaintSingle(ts, rest, k - 1, x, ch);
      PaintSingleNext(ts, rest, k, x, ch);
    } else {
      PaintStep(Paint(ts, rest, 0, ch), 0.0, 0.0, 0.0, Coverage(ts, rest, 0), 0.0, x);
    }
  }

  /** The step of `PaintSingle` for token `k - 1`, whose colour, if any, has `x` in channel `ch`. */
  lemma PaintSingleNext(ts: seq<string>, rest: real, k: nat, x: real, ch: nat)
    requires 0 < k <= |ts| && ch < 4
    requires TokenColor(ts[k - 1]).None? || TokenColor(ts[k - 1]).value[ch] == x
    requires Paint(ts, rest, k - 1, ch) == Coverage(ts, rest, k - 1) * x
    ensures Paint(ts, rest, k, ch) == Coverage(ts, rest, k) * x
  {
    var w := Weight(k - 1, rest);
    TokenPaintAt(ts[k - 1], ch, w, x);
    PaintSingleStep(ts, rest, k, x, ch, if TokenColor(ts[k - 1]).Some? then w else 0.0);
  }

  /** A token whose colour, if any, has `x` in channel `ch` adds its weight times `x` to that channel. */
  lemma TokenPaintAt(token: string, ch: nat, w: real, x: real)
    requires ch < 4
    requires TokenColor(token).None? || TokenColor(token).value[ch] == x
    ensures TokenPaint(token, ch, w) == (if TokenColor(token).Some? then w else 0.0) * x
  {
  }

  /** One step of `PaintSingle`: the token adds `added` to the coverage and `added·x` to the channel. */
  lemma PaintSingleStep(ts: seq<string>, rest: real, k: nat, x: real, ch: nat, added: real)
    requires 0 < k <= |ts| && ch < 4
    requires TokenPaint(ts[k - 1], ch, Weight(k - 1, rest)) == added * x
    requires added == if TokenColor(ts[k - 1]).Some? then Weight(k - 1, rest) else 0.0
    requires Paint(ts, rest, k - 1, ch) == Coverage(ts, rest, k - 1) * x
    ensures Paint(ts, rest, k, ch) == Coverage(ts, rest, k) * x
  {
    var p1, p0 := Paint(ts, rest, k, ch), Paint(ts, rest, k - 1, ch);
    var c1, c0 := Coverage(ts, rest, k), Coverage(ts, rest, k - 1);
    assert p1 == p0 + TokenPaint(ts[k - 1], ch, Weight(k - 1, rest));
    assert c1 == c0 + added;
    PaintStep(p1, p0, added * x, c0, c1, added, x);
  }

  /** One step of a sum of `w·x` terms: adding `w` to the weight adds `w·x` to the sum. */
  lemma PaintStep(p: real, q: real, t: real, before: real, after: real, w: real, x: real)
    requires p == q + t && t == w * x && q == before * x && after == before + w
    ensures p == after * x
  {
  }

  lemma SingleColorTokens(ts: seq<string>, c: seq<real>)
    requires |c| == 4
    requires forall i :: 0 <= i < |ts| ==> TokenColor(ts[i]).None? || TokenColor(ts[i]) == Some(c)
    requires exists i :: 0 <= i < |ts| && TokenColor(ts[i]).Some?
    ensures TokenBlend(ts) == c
  {
    var rest := RemainingWeight(|ts|);
    WeightPositive(|ts|);
    SingleColorScaled(ts, c, rest);
    TokenBlendWith(ts, rest);
  }

  /** Four channels painted by all of `ts`, later tokens weighing `rest`, are the blend of `ts`. */
  lemma BlendOf(color: seq<real>, ts: seq<string>, rest: real)
    requires rest == RemainingWeight(|ts|) && |color| == 4
    requires forall ch :: 0 <= ch < 4 ==> color[ch] == Paint(ts, rest, |ts|, ch)
    ensures color == Blend(ts)
  {
  }

  /** `TokenBlend` with the later-token weight named `rest`. */
  lemma TokenBlendWith(ts: seq<string>, rest: real)
    requires rest == RemainingWeight(|ts|)
    ensures TokenBlend(ts) == if Coverage(ts, rest, |ts|) > 0.0 then Scale(Blend(ts), Coverage(ts, rest, |ts|)) else Grey
  {
  }

  /** The blend of tokens coloured `c` or not at all, some coloured, divided by the covered weight is `c`. */
  lemma SingleColorScaled(ts: seq<string>, c: seq<real>, rest: real)
    requires |c| == 4 && rest == RemainingWeight(|ts|) && rest > 0.0
    requires forall i :: 0 <= i < |ts| ==> TokenColor(ts[i]).None? || TokenColor(ts[i]) == Some(c)
    requires exists i :: 0 <= i < |ts| && TokenColor(ts[i]).Some?
    ensures Coverage(ts, rest, |ts|) > 0.0 && Scale(Blend(ts), Coverage(ts, rest, |ts|)) == c
  {
    CoveragePositive(ts, rest);
    BlendMultiple(ts, c, rest);
    ScaleOf(Blend(ts), Coverage(ts, rest, |ts|), c);
  }

  /** The blend of tokens coloured `c` or not at all is `c` times the covered weight. */
  lemma BlendMultiple(ts: seq<string>, c: seq<real>, rest: real)
    requires |c| == 4 && rest == RemainingWeight(|ts|)
    requires forall i :: 0 <= i < |ts| ==> TokenColor(ts[i]).None? || TokenColor(ts[i]) == Some(c)
    ensures |Blend(ts)| == |c| && forall ch :: 0 <= ch < |c| ==> Blend(ts)[ch] == Coverage(ts, rest, |ts|) * c[ch]
  {
    forall ch | 0 <= ch < 4 ensures Blend(ts)[ch] == Coverage(ts, rest, |ts|) * c[ch] {
      ChannelOfColor(ts, c, ch);
      BlendChannel(ts, rest, c[ch], ch);
    }
  }

  /** Some token has a colour exactly when the covered weight is positive. */
  lemma CoveragePositive(ts: seq<string>, rest: real)
    requires rest > 0.0
    ensures Coverage(ts, rest, |ts|) > 0.0 <==> exists i :: 0 <= i < |ts| && TokenColor(ts[i]).Some?
  {
    CoverageZero(ts, rest, |ts|);
    PaintBounds(ts, rest, |ts|, 0);
  }

  /** Tokens coloured `c` or not at all have `c[ch]`, if anything, in channel `ch`. */
  lemma ChannelOfColor(ts: seq<string>, c: seq<real>, ch: nat)
    requires |c| == 4 && ch < 4
    requires forall i :: 0 <= i < |ts| ==> TokenColor(ts[i]).None? || TokenColor(ts[i]) == Some(c)
    ensures forall i :: 0 <= i < |ts| ==> TokenColor(ts[i]).None? || TokenColor(ts[i]).value[ch] == c[ch]
  {
  }

  /** Channel `ch` of the blend when every coloured token has `x` there. */
  lemma BlendChannel(ts: seq<string>, rest: real, x: real, ch: nat)
    requires ch < 4 && rest == RemainingWeight(|ts|)
    requires forall i :: 0 <= i < |ts| ==> TokenColor(ts[i]).None? || TokenColor(ts[i]).value[ch] == x
    ensures Blend(ts)[ch] == Coverage(ts, rest, |ts|) * x
  {
    PaintSingle(ts, rest, |ts|, x, ch);
  }

  /** A vector that is `t` times `c` scales back to `c`. */
  lemma ScaleOf(v: seq<real>, t: real, c: seq<real>)
    requires t != 0.0 && |v| == |c|
    requires forall ch :: 0 <= ch < |v| ==> v[ch] == t * c[ch]
    ensures Scale(v, t) == c
  {
    var s := Scale(v, t);
    forall ch | 0 <= ch < |v| ensures s[ch] == c[ch] {
      assert s[ch] == v[ch] / t;
      MulDiv(t, c[ch]);
    }
    assert s == c;
  }

  lemma MulDiv(t: real, x: real)
    requires t != 0.0
    ensures t * x / t == x
  {
  }

  /** When every token with a colour has the same colour `c`, the blend is `c` itself. */
  lemma SingleColor(emotionStr: Field, c: seq<real>)
    requires !IsBlankLabel(emotionStr) && |c| == 4
    requires forall i :: 0 <= i < |Tokens(emotionStr.s)| ==> TokenColor(Tokens(emotionStr.s)[i]).None? || TokenColor(Tokens(emotionStr.s)[i]) == Some(c)
    requires exists i :: 0 <= i < |Tokens(emotionStr.s)| && TokenColor(Tokens(emotionStr.s)[i]).Some?
    ensures EmotionColorOf(emotionStr) == c
  {
    SingleColorTokens(Tokens(emotionStr.s), c);
  }

  /** A label that is one token with a colour has that colour. */
  lemma OneTokenColor(s: string, c: seq<real>)
    requires s != [] && Tokens(s) == [s] && TokenColor(s) == Some(c)
    ensures EmotionColorOf(Value(s)) == c
  {
    var ts := Tokens(s);
    assert ts[0] == s;
    SingleColor(Value(s), c);
  }

  /**
   * The colour takes only the first recognised slash part, while the
   * vector takes every part: `思/哀` is red, but half 思 and half 哀.
   */
  lemma SlashColorTakesFirstPart()
    ensures EmotionColorOf(Value("思/哀")) == [0.8, 0.2, 0.2, 1.0]
    ensures EmotionVector(Value("思/哀")) == [0.5, 0.0, 0.5, 0.0, 0.0]
  {
    TokensOf("思/哀");
    SlashTokenColor();
    OneTokenColor("思/哀", [0.8, 0.2, 0.2, 1.0]);
    SlashTokenSplitsWeight();
  }

  /** `思/哀` is no key of `EMOTION_COLORS`; its first part 思 gives it red. */
  lemma SlashTokenColor()
    ensures TokenColor("思/哀") == Some([0.8, 0.2, 0.2, 1.0])
  {
    SplitSiAi();
    KnownColors();
    LookupIn(EmotionColors, "思/哀");
    assert EmotionColor("思/哀").None?;
    assert FirstColor(["思", "哀"]) == EmotionColor("思");
  }

  /** The colour `EMOTION_COLORS` gives the keys of dimension `d`. */
  function DimColor(d: nat): seq<real> {
    if d == 0 then [0.8, 0.2, 0.2, 1.0]
    else if d == 1 then [0.2, 0.8, 0.2, 1.0]
    else if d == 2 then [0.2, 0.2, 0.8, 1.0]
    else if d == 3 then [0.8, 0.8, 0.2, 1.0]
    else [0.8, 0.2, 0.8, 1.0]
  }

  /** Every key of `EMOTION_MAP` has the colour of its dimension in `EMOTION_COLORS`. */
  lemma KeyColor(a: string)
    requires EmotionDim(a).Some?
    ensures EmotionColor(a) == Some(DimColor(EmotionDim(a).value))
  {
    LookupIn(EmotionMap, a);
    var i :| 0 <= i < |EmotionMap| && EmotionMap[i] == (a, EmotionDim(a).value);
    KnownDims();
    KnownColors();
    if i == 0 {
      assert a == "思";
    } else if i == 1 {
      assert a == "乐";
    } else if i == 2 {
      assert a == "哀";
    } else if i == 3 {
      assert a == "喜";
    } else if i == 4 {
      assert a == "怒";
    } else if i == 5 {
      assert a == "豪";
    } else {
      assert a == "怒/豪";
    }
  }

  /** The two tables have the same keys, and keys of the same dimension share a colour. */
  lemma TablesAgree(a: string, b: string)
    ensures EmotionColor(a).Some? <==> EmotionDim(a).Some?
    ensures EmotionDim(a).Some? && EmotionDim(a) == EmotionDim(b) ==> EmotionColor(a) == EmotionColor(b)
  {
    LookupIn(EmotionMap, a);
    LookupIn(EmotionColors, a);
    assert forall i :: 0 <= i < |EmotionMap| ==> EmotionMap[i].0 == EmotionColors[i].0;
    if EmotionDim(a).Some? && EmotionDim(a) == EmotionDim(b) {
      KeyColor(a);
      KeyColor(b);
    }
  }

  // ----- save_results_to_db -----

  /** One row of `emotion_visualization`. */
  datatype EmotionRow = EmotionRow(
    originalEmotion: Field,
    vector: seq<real>,
    umapX: real,
    umapY: real,
    clusterLabel: int)

  const BatchSize: nat := 1000

  /** `data_to_insert`: one row per label, in input order. */
  method BuildEmotionRows(coords: seq<(real, real)>, labels: seq<int>, emotions: seq<Field>, vectors: seq<seq<real>>)
    returns (rows: seq<EmotionRow>)
    requires |coords| == |emotions| && |labels| == |emotions| && |vectors| == |emotions|
    requires forall i :: 0 <= i < |vectors| ==> |vectors[i]| >= Dims
    ensures |rows| == |emotions|
    ensures forall i :: 0 <= i < |rows| ==>
      rows[i] == EmotionRow(emotions[i], vectors[i][..Dims], coords[i].0, coords[i].1, labels[i])
  {
    rows := [];
    for i := 0 to |emotions|
      invariant |rows| == i
      invariant forall j :: 0 <= j < i ==>
        rows[j] == EmotionRow(emotions[j], vectors[j][..Dims], coords[j].0, coords[j].1, labels[j])
    {
      rows := rows + [EmotionRow(emotions[i], vectors[i][..Dims], coords[i].0, coords[i].1, labels[i])];
    }
  }

  /**
   * `save_results_to_db` without the connection: the rows are built and
   * written in batches of 1000 until one fails.
   */
  method SaveEmotionResults(coords: seq<(real, real)>, labels: seq<int>, emotions: seq<Field>, vectors: seq<seq<real>>,
                            write: (nat, seq<EmotionRow>) -> bool)
    returns (rows: seq<EmotionRow>, committed: seq<seq<EmotionRow>>, outcome: Outcome)
    requires |coords| == |emotions| && |labels| == |emotions| && |vectors| == |emotions|
    requires forall i :: 0 <= i < |vectors| ==> |vectors[i]| >= Dims
    ensures |rows| == |emotions|
    ensures forall i :: 0 <= i < |rows| ==>
      rows[i] == EmotionRow(emotions[i], vectors[i][..Dims], coords[i].0, coords[i].1, labels[i])
    ensures |committed| <= |Chunks(rows, BatchSize)| && committed == Chunks(rows, BatchSize)[..|committed|]
    ensures outcome.Saved? ==> Flatten(committed) == rows && |committed| == BatchCount(|rows|, BatchSize)
    ensures outcome.Failed? ==>
      (outcome.batch == |committed| < |Chunks(rows, BatchSize)|
       && !write(outcome.batch, Chunks(rows, BatchSize)[outcome.batch]))
  {
    rows := BuildEmotionRows(coords, labels, emotions, vectors);
    committed, outcome := WriteInBatches(rows, BatchSize, write);
    if outcome.Saved? {
      SavedAllRows(rows, BatchSize, committed);
    }
  }
}
