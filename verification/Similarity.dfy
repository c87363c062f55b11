/**
  The similarity kernel shared by the duplicate checker and the overlap detector, over exact reals.
  Texts arrive as token lists and labels as lists of lower-case names.
 */
module Similarity {
  import opened Counting
  import opened Texts

  // ---------------------------------------------------------------- frequency vectors

  /** Pairs of equal tokens, one from each list. */
  function Pairs(a: seq<string>, b: seq<string>): nat {
    if a == [] then 0 else Pairs(a[..|a| - 1], b) + Count(b, a[|a| - 1])
  }

  /** `dotProduct` of the frequency vectors of `a` and `b` over the given keys. */
  function Dot(keys: seq<string>, a: seq<string>, b: seq<string>): nat {
    if keys == [] then 0 else
      Dot(keys[..|keys| - 1], a, b) + Count(a, keys[|keys| - 1]) * Count(b, keys[|keys| - 1])
  }

  lemma {:induction false} DotOfNothing(keys: seq<string>, b: seq<string>)
    ensures Dot(keys, [], b) == 0
  {
    if keys == [] {
    } else {
      DotOfNothing(keys[..|keys| - 1], b);
    }
  }

  lemma Distribute(u: int, v: int, w: int)
    ensures (u + v) * w == u * w + v * w
  {
  }

  lemma TermAppend(a: seq<string>, t: string, b: seq<string>, key: string)
    ensures Count(a + [t], key) * Count(b, key) == Count(a, key) * Count(b, key) + if t == key then Count(b, key) else 0
  {
    CountAppend(a, t, key);
    Distribute(Count(a, key), if t == key then 1 else 0, Count(b, key));
  }

  /** One more token in `a` adds its count in `b`, as long as it is one of the keys. */
  lemma {:induction false} DotAppend(keys: seq<string>, a: seq<string>, t: string, b: seq<string>)
    requires Distinct(keys)
    ensures Dot(keys, a + [t], b) == Dot(keys, a, b) + if t in keys then Count(b, t) else 0
  {
    if keys == [] {
    } else {
      var before, key := keys[..|keys| - 1], keys[|keys| - 1];
      DotAppend(before, a, t, b);
      assert keys == before + [key];
      TermAppend(a, t, b, key);
      assert t == key ==> t !in before;
    }
  }

  /** Summing over the distinct tokens counts the equal pairs. */
  lemma {:induction false} DotIsPairs(keys: seq<string>, a: seq<string>, b: seq<string>)
    requires Distinct(keys) && forall t | t in a :: t in keys
    ensures Dot(keys, a, b) == Pairs(a, b)
    decreases |a|
  {
    if a == [] {
      DotOfNothing(keys, b);
    } else {
      var before, t := a[..|a| - 1], a[|a| - 1];
      DotIsPairs(keys, before, b);
      DotAppend(keys, before, t, b);
      assert a == before + [t];
    }
  }

  type Vector = map<string, nat>

  /** Reading a missing key of a vector gives zero. */
  function At(vec: Vector, t: string): nat {
    if t in vec then vec[t] else 0
  }

  /** The vector together with its keys in insertion order. */
  method BuildFrequencyVector(tokens: seq<string>) returns (vec: Vector, keys: seq<string>)
    ensures forall t: string :: At(vec, t) == Count(tokens, t)
    ensures Distinct(keys) && forall t :: t in keys <==> t in tokens
  {
    vec, keys := map[], [];
    for i := 0 to |tokens|
      invariant forall t: string :: At(vec, t) == Count(tokens[..i], t)
      invariant Distinct(keys)
      invariant forall t :: t in keys <==> t in vec
      invariant forall t :: t in keys <==> t in tokens[..i]
    {
      var t := tokens[i];
      assert tokens[..i + 1] == tokens[..i] + [t];
      if t !in vec {
        keys := keys + [t];
      }
      vec := vec[t := At(vec, t) + 1];
    }
    assert tokens[..|tokens|] == tokens;
  }

  /** The keys of `first`, then the keys of `second` not seen yet. */
  method Merge(first: seq<string>, second: seq<string>) returns (keys: seq<string>)
    requires Distinct(first)
    ensures Distinct(keys) && forall t :: t in keys <==> t in first || t in second
  {
    keys := first;
    for i := 0 to |second|
      invariant Distinct(keys)
      invariant forall t :: t in keys <==> t in first || t in second[..i]
    {
      assert second[..i + 1] == second[..i] + [second[i]];
      if second[i] !in keys {
        keys := keys + [second[i]];
      }
    }
    assert second[..|second|] == second;
  }

  /** The three sums of the cosine loop over the given keys. */
  ghost predicate SumsOver(keys: seq<string>, a: seq<string>, b: seq<string>, dotProduct: nat, magA: nat, magB: nat) {
    dotProduct == Dot(keys, a, b) && magA == Dot(keys, a, a) && magB == Dot(keys, b, b)
  }

  lemma SumsOneMore(keys: seq<string>, key: string, a: seq<string>, b: seq<string>,
                    dotProduct: nat, magA: nat, magB: nat)
    requires SumsOver(keys, a, b, dotProduct, magA, magB)
    ensures var x, y := Count(a, key), Count(b, key);
            SumsOver(keys + [key], a, b, dotProduct + x * y, magA + x * x, magB + y * y)
  {
    assert (keys + [key])[..|keys|] == keys;
  }

  /** The loop over the keys of both vectors. */
  method SumOver(keys: seq<string>, vecA: Vector, vecB: Vector, ghost a: seq<string>, ghost b: seq<string>)
    returns (dotProduct: nat, magA: nat, magB: nat)
    requires forall t: string :: At(vecA, t) == Count(a, t)
    requires forall t: string :: At(vecB, t) == Count(b, t)
    ensures SumsOver(keys, a, b, dotProduct, magA, magB)
  {
    dotProduct, magA, magB := 0, 0, 0;
    for i := 0 to |keys|
      invariant SumsOver(keys[..i], a, b, dotProduct, magA, magB)
    {
      var x, y := At(vecA, keys[i]), At(vecB, keys[i]);
      SumsOneMore(keys[..i], keys[i], a, b, dotProduct, magA, magB);
      assert keys[..i + 1] == keys[..i] + [keys[i]];
      dotProduct, magA, magB := dotProduct + x * y, magA + x * x, magB + y * y;
    }
    assert keys[..|keys|] == keys;
  }

  /** `dotProduct`, `magA` and `magB`: equal pairs across the texts, and within each. */
  method CosineSums(tokensA: seq<string>, tokensB: seq<string>) returns (dotProduct: nat, magA: nat, magB: nat)
    ensures dotProduct == Pairs(tokensA, tokensB)
    ensures magA == Pairs(tokensA, tokensA)
    ensures magB == Pairs(tokensB, tokensB)
  {
    var vecA, keysA := BuildFrequencyVector(tokensA);
    var vecB, keysB := BuildFrequencyVector(tokensB);
    var allTokens := Merge(keysA, keysB);
    dotProduct, magA, magB := SumOver(allTokens, vecA, vecB, tokensA, tokensB);
    DotIsPairs(allTokens, tokensA, tokensB);
    DotIsPairs(allTokens, tokensA, tokensA);
    DotIsPairs(allTokens, tokensB, tokensB);
  }

  // ---------------------------------------------------------------- Cauchy-Schwarz

  function Square(x: int): (s: int)
    ensures s >= 0 && (s == 0 <==> x == 0)
  {
    x * x
  }

  /** Sum over the keys of `(a_k * y - b_k * x)^2`. */
  function Cross(keys: seq<string>, a: seq<string>, b: seq<string>, x: int, y: int): (c: int)
    ensures c >= 0
  {
    if keys == [] then 0 else
      var key := keys[|keys| - 1];
      Cross(keys[..|keys| - 1], a, b, x, y) + Square(Count(a, key) * y - Count(b, key) * x)
  }

  lemma SquareOfDifference(a: int, b: int, x: int, y: int)
    ensures Square(a * y - b * x) == (a * a) * (y * y) - 2 * (a * b) * (x * y) + (b * b) * (x * x)
  {
    calc {
      Square(a * y - b * x);
      (a * y) * (a * y) - 2 * (a * y) * (b * x) + (b * x) * (b * x);
      { assert (a * y) * (a * y) == (a * a) * (y * y); }
      { assert (b * x) * (b * x) == (b * b) * (x * x); }
      { assert (a * y) * (b * x) == (a * b) * (x * y); }
      (a * a) * (y * y) - 2 * (a * b) * (x * y) + (b * b) * (x * x);
    }
  }

  /** Adding one key to an expanded sum of squares. */
  lemma CrossAlgebra(aa: int, ab: int, bb: int, p: int, q: int, x: int, y: int)
    ensures (aa * (y * y) - 2 * ab * (x * y) + bb * (x * x)) + Square(p * y - q * x)
            == (aa + p * p) * (y * y) - 2 * (ab + p * q) * (x * y) + (bb + q * q) * (x * x)
  {
    SquareOfDifference(p, q, x, y);
    Distribute(aa, p * p, y * y);
    Distribute(2 * ab, 2 * (p * q), x * y);
    Distribute(bb, q * q, x * x);
  }

  lemma {:induction false} CrossExpands(keys: seq<string>, a: seq<string>, b: seq<string>, x: int, y: int)
    ensures Cross(keys, a, b, x, y)
            == Dot(keys, a, a) * (y * y) - 2 * Dot(keys, a, b) * (x * y) + Dot(keys, b, b) * (x * x)
  {
    if keys == [] {
    } else {
      var before, key := keys[..|keys| - 1], keys[|keys| - 1];
      CrossExpands(before, a, b, x, y);
      CrossAlgebra(Dot(before, a, a), Dot(before, a, b), Dot(before, b, b), Count(a, key), Count(b, key), x, y);
    }
  }

  /** Lagrange's form of what Cauchy-Schwarz leaves over. */
  function Slack(keys: seq<string>, a: seq<string>, b: seq<string>): (s: int)
    ensures s >= 0
  {
    if keys == [] then 0 else
      var before, key := keys[..|keys| - 1], keys[|keys| - 1];
      Slack(before, a, b) + Cross(before, a, b, Count(a, key), Count(b, key))
  }

  lemma SlackAlgebra(aa: int, ab: int, bb: int, x: int, y: int)
    ensures (aa + x * x) * (bb + y * y) - (ab + x * y) * (ab + x * y)
            == (aa * bb - ab * ab) + (aa * (y * y) - 2 * ab * (x * y) + bb * (x * x))
  {
    var xx, yy, xy := x * x, y * y, x * y;
    assert (aa + xx) * (bb + yy) == aa * bb + aa * yy + xx * bb + xx * yy;
    assert (ab + xy) * (ab + xy) == ab * ab + 2 * ab * xy + xy * xy;
    assert xx * yy == xy * xy;
  }

  /** Lagrange's identity: what is missing from equality is a sum of squares. */
  lemma {:induction false} LagrangeIdentity(keys: seq<string>, a: seq<string>, b: seq<string>)
    ensures Dot(keys, a, a) * Dot(keys, b, b) - Dot(keys, a, b) * Dot(keys, a, b) == Slack(keys, a, b)
  {
    if keys == [] {
    } else {
      var before, key := keys[..|keys| - 1], keys[|keys| - 1];
      LagrangeIdentity(before, a, b);
      CrossExpands(before, a, b, Count(a, key), Count(b, key));
      SlackAlgebra(Dot(before, a, a), Dot(before, a, b), Dot(before, b, b), Count(a, key), Count(b, key));
    }
  }

  predicate SameRatio(a: seq<string>, b: seq<string>, s: string, t: string) {
    Count(a, s) * Count(b, t) == Count(b, s) * Count(a, t)
  }

  /** The two frequency vectors point the same way. */
  ghost predicate Proportional(a: seq<string>, b: seq<string>) {
    forall s: string, t: string :: SameRatio(a, b, s, t)
  }

  lemma {:induction false} CrossZero(keys: seq<string>, a: seq<string>, b: seq<string>, t: string)
    ensures Cross(keys, a, b, Count(a, t), Count(b, t)) == 0
            <==> forall s | s in keys :: SameRatio(a, b, s, t)
  {
    if keys == [] {
    } else {
      var before, key := keys[..|keys| - 1], keys[|keys| - 1];
      CrossZero(before, a, b, t);
      assert keys == before + [key];
      assert SameRatio(a, b, key, t) <==> Square(Count(a, key) * Count(b, t) - Count(b, key) * Count(a, t)) == 0;
    }
  }

  lemma {:induction false} SlackZero(keys: seq<string>, a: seq<string>, b: seq<string>)
    ensures Slack(keys, a, b) == 0 <==> forall s, t | s in keys && t in keys :: SameRatio(a, b, s, t)
  {
    if keys == [] {
    } else {
      var before, key := keys[..|keys| - 1], keys[|keys| - 1];
      SlackZero(before, a, b);
      CrossZero(before, a, b, key);
      assert keys == before + [key];
      assert SameRatio(a, b, key, key);
      assert forall s, t :: SameRatio(a, b, s, t) <==> SameRatio(a, b, t, s);
    }
  }

  lemma {:induction false} KeysOf(tokens: seq<string>) returns (keys: seq<string>)
    ensures Distinct(keys) && forall t :: t in keys <==> t in tokens
  {
    if tokens == [] {
      keys := [];
    } else {
      var before, t := tokens[..|tokens| - 1], tokens[|tokens| - 1];
      assert tokens == before + [t];
      keys := KeysOf(before);
      if t !in keys {
        keys := keys + [t];
      }
    }
  }

  /** `dotProduct^2 <= magA * magB`, with equality exactly when the vectors are proportional. */
  lemma CauchySchwarz(a: seq<string>, b: seq<string>)
    ensures Pairs(a, b) * Pairs(a, b) <= Pairs(a, a) * Pairs(b, b)
    ensures Pairs(a, b) * Pairs(a, b) == Pairs(a, a) * Pairs(b, b) <==> Proportional(a, b)
  {
    var keys := KeysOf(a + b);
    assert forall t | t in a || t in b :: t in a + b;
    DotIsPairs(keys, a, b);
    DotIsPairs(keys, a, a);
    DotIsPairs(keys, b, b);
    LagrangeIdentity(keys, a, b);
    SlackZero(keys, a, b);
    forall s: string, t: string | s !in keys || t !in keys ensures SameRatio(a, b, s, t) {
      CountZero(a, s);
      CountZero(b, s);
      CountZero(a, t);
      CountZero(b, t);
    }
  }

  // ---------------------------------------------------------------- the three sub-scores

  lemma {:induction false} PairsPositive(a: seq<string>)
    requires a != []
    ensures Pairs(a, a) > 0
  {
    CountZero(a, a[|a| - 1]);
  }

  /** `r` is the non-negative root of `ab^2 / (aa * bb)`. */
  ghost predicate IsRoot(r: real, ab: nat, aa: nat, bb: nat) {
    r >= 0.0 && (r * r) * (aa * bb) as real == (ab * ab) as real
  }

  /** `r` is the cosine value, from `dotProduct`, `magA` and `magB` before their roots are taken. */
  ghost predicate IsCosine(a: seq<string>, b: seq<string>, r: real) {
    if a == [] || b == [] then r == 0.0 else IsRoot(r, Pairs(a, b), Pairs(a, a), Pairs(b, b))
  }

  lemma Scale(x: real, y: real, m: real)
    requires x < y && m > 0.0
    ensures x * m < y * m
  {
    assert (y - x) * m > 0.0;
  }

  lemma RootBound(r: real, m: real, d: real)
    requires r >= 0.0 && m > 0.0 && (r * r) * m == d && d <= m
    ensures r <= 1.0 && (r == 1.0 <==> d == m)
  {
    if r > 1.0 {
      Scale(1.0, r, r);
      Scale(1.0, r * r, m);
    } else if 0.0 < r < 1.0 {
      Scale(r, 1.0, r);
      Scale(r * r, 1.0, m);
    }
  }

  lemma RootInUnitInterval(r: real, ab: nat, aa: nat, bb: nat)
    requires IsRoot(r, ab, aa, bb) && aa > 0 && bb > 0 && ab * ab <= aa * bb
    ensures 0.0 <= r <= 1.0 && (r == 1.0 <==> ab * ab == aa * bb)
  {
    assert aa * bb > 0;
    RootBound(r, (aa * bb) as real, (ab * ab) as real);
  }

  /** The cosine lies in [0, 1]; on non-empty texts it is 1 exactly for proportional vectors. */
  lemma CosineInUnitInterval(a: seq<string>, b: seq<string>, r: real)
    requires IsCosine(a, b, r)
    ensures 0.0 <= r <= 1.0
    ensures a != [] && b != [] ==> (r == 1.0 <==> Proportional(a, b))
  {
    if a != [] && b != [] {
      CauchySchwarz(a, b);
      PairsPositive(a);
      PairsPositive(b);
      RootInUnitInterval(r, Pairs(a, b), Pairs(a, a), Pairs(b, b));
    }
  }

  function SetOf(tokens: seq<string>): set<string> {
    set t | t in tokens
  }

  /** Counts the elements of `a` that are also in `b`. */
  method CountCommon(a: set<string>, b: set<string>) returns (intersection: nat)
    ensures intersection == |a * b|
  {
    intersection := 0;
    var rest := a;
    ghost var seen: set<string> := {};
    while rest != {}
      invariant seen + rest == a && seen !! rest
      invariant intersection == |seen * b|
      decreases |rest|
    {
      var t :| t in rest;
      if t in b {
        intersection := intersection + 1;
        assert (seen + {t}) * b == seen * b + {t};
      } else {
        assert (seen + {t}) * b == seen * b;
      }
      rest := rest - {t};
      seen := seen + {t};
    }
    assert seen == a;
  }

  function Dice(a: set<string>, b: set<string>): real {
    if |a| == 0 || |b| == 0 then 0.0 else (2 * |a * b|) as real / (|a| + |b|) as real
  }

  function Jaccard(a: set<string>, b: set<string>): real {
    if |a| == 0 || |b| == 0 then 0.0 else |a * b| as real / |a + b| as real
  }

  method TitleOverlap(titleA: seq<string>, titleB: seq<string>) returns (overlap: real)
    ensures overlap == Dice(SetOf(titleA), SetOf(titleB))
    ensures var common, all := |SetOf(titleA) * SetOf(titleB)|, |SetOf(titleA)| + |SetOf(titleB)|;
            if titleA == [] || titleB == [] then overlap == 0.0 else overlap * all as real == (common + common) as real
  {
    NonEmptySet(titleA);
    NonEmptySet(titleB);
    var tokensA, tokensB := SetOf(titleA), SetOf(titleB);
    if |tokensA| == 0 || |tokensB| == 0 {
      return 0.0;
    }
    var intersection := CountCommon(tokensA, tokensB);
    overlap := (2 * intersection) as real / (|tokensA| + |tokensB|) as real;
  }

  method LabelOverlap(labelsA: seq<string>, labelsB: seq<string>) returns (overlap: real)
    ensures overlap == Jaccard(SetOf(labelsA), SetOf(labelsB))
    ensures var common, all := |SetOf(labelsA) * SetOf(labelsB)|, |SetOf(labelsA) + SetOf(labelsB)|;
            if labelsA == [] || labelsB == [] then overlap == 0.0 else overlap * all as real == common as real
  {
    if |labelsA| == 0 || |labelsB| == 0 {
      return 0.0;
    }
    assert labelsA[0] in SetOf(labelsA) && labelsB[0] in SetOf(labelsB);
    var setA, setB := SetOf(labelsA), SetOf(labelsB);
    var intersection := CountCommon(setA, setB);
    var union := |setA + setB|;
    overlap := if union == 0 then 0.0 else intersection as real / union as real;
  }

  lemma SubsetSize(a: set<string>, b: set<string>)
    requires a <= b
    ensures |a| <= |b| && (|a| == |b| <==> a == b)
  {
    assert b == a + (b - a);
    assert |b - a| == 0 ==> b - a == {};
  }

  lemma QuotientInUnit(n: nat, d: nat)
    requires n <= d && d > 0
    ensures 0.0 <= n as real / d as real <= 1.0
    ensures n as real / d as real == 1.0 <==> n == d
  {
    var q := n as real / d as real;
    assert q * d as real == n as real;
    assert q > 1.0 ==> q * d as real > d as real;
    assert q < 0.0 ==> q * d as real < 0.0;
  }

  /** Both set overlaps lie in [0, 1] and are 1 exactly for equal non-empty sets. */
  lemma OverlapsInUnitInterval(a: set<string>, b: set<string>)
    ensures 0.0 <= Dice(a, b) <= 1.0 && (Dice(a, b) == 1.0 <==> a == b && a != {})
    ensures 0.0 <= Jaccard(a, b) <= 1.0 && (Jaccard(a, b) == 1.0 <==> a == b && a != {})
  {
    SubsetSize(a * b, a);
    SubsetSize(a * b, b);
    SubsetSize(a, a + b);
    SubsetSize(a * b, a + b);
    assert a * b == a + b <==> a == b;
    if |a| > 0 && |b| > 0 {
      QuotientInUnit(2 * |a * b|, |a| + |b|);
      QuotientInUnit(|a * b|, |a + b|);
    }
  }

  // ---------------------------------------------------------------- the combined scores

  datatype Issue = Issue(title: seq<string>, body: seq<string>, labels: seq<string>)

  predicate MatchByTrack(proposed: Issue, existing: Issue) {
    exists l | l in proposed.labels :: StartsWith(l, "track:") && l in existing.labels
  }

  /** The first label with the prefix, or the empty string. */
  function FirstWith(labels: seq<string>, prefix: string): string {
    if labels == [] then "" else if StartsWith(labels[0], prefix) then labels[0] else FirstWith(labels[1..], prefix)
  }

  lemma {:induction false} FirstWithAt(labels: seq<string>, prefix: string, k: nat)
    requires FirstAt(labels, prefix, k)
    ensures FirstWith(labels, prefix) == labels[k]
    decreases k
  {
    if k == 0 {
    } else {
      FirstWithAt(labels[1..], prefix, k - 1);
    }
  }

  lemma {:induction false} FirstWithExists(labels: seq<string>, prefix: string)
    ensures FirstWith(labels, prefix) == "" || exists k: nat :: FirstAt(labels, prefix, k)
  {
    if labels == [] {
    } else if StartsWith(labels[0], prefix) {
      assert FirstAt(labels, prefix, 0);
    } else {
      FirstWithExists(labels[1..], prefix);
      if k: nat :| FirstAt(labels[1..], prefix, k) {
        assert FirstAt(labels, prefix, k + 1);
      }
    }
  }

  predicate MatchByDifficulty(proposed: Issue, existing: Issue) {
    var p, e := FirstWith(proposed.labels, "difficulty:"), FirstWith(existing.labels, "difficulty:");
    p != "" && p == e
  }

  function Tagged(labels: seq<string>, prefix: string): set<string> {
    set l | l in labels && StartsWith(l, prefix)
  }

  /** Two issues are on one track exactly if they share a track label. */
  lemma TracksMatchExactly(proposed: Issue, existing: Issue)
    ensures MatchByTrack(proposed, existing)
            <==> Tagged(proposed.labels, "track:") * Tagged(existing.labels, "track:") != {}
  {
    var common := Tagged(proposed.labels, "track:") * Tagged(existing.labels, "track:");
    if MatchByTrack(proposed, existing) {
      var l :| l in proposed.labels && StartsWith(l, "track:") && l in existing.labels;
      assert l in common;
    }
    if common != {} {
      var l :| l in common;
    }
  }

  /** Label `k` is the first with the prefix. */
  predicate FirstAt(labels: seq<string>, prefix: string, k: nat) {
    k < |labels| && StartsWith(labels[k], prefix) && forall i | 0 <= i < k :: !StartsWith(labels[i], prefix)
  }

  /** Two issues are as difficult exactly if both have a difficulty label and their first ones are the same. */
  lemma DifficultiesMatchExactly(proposed: Issue, existing: Issue)
    ensures MatchByDifficulty(proposed, existing)
            <==> exists k: nat, m: nat ::
                   && FirstAt(proposed.labels, "difficulty:", k) && FirstAt(existing.labels, "difficulty:", m)
                   && proposed.labels[k] == existing.labels[m]
  {
    FirstWithExists(proposed.labels, "difficulty:");
    FirstWithExists(existing.labels, "difficulty:");
    forall k: nat | FirstAt(proposed.labels, "difficulty:", k) {
      FirstWithAt(proposed.labels, "difficulty:", k);
    }
    forall m: nat | FirstAt(existing.labels, "difficulty:", m) {
      FirstWithAt(existing.labels, "difficulty:", m);
    }
  }

  function WeightedSum(title: real, body: real, labels: real, track: bool, difficulty: bool): real {
    title * 0.35 + body * 0.25 + labels * 0.15
    + (if track then 0.15 else 0.0) + (if difficulty then 0.1 else 0.0)
  }

  function OverlapSum(title: real, body: real, labels: real): real {
    title * 0.4 + body * 0.35 + labels * 0.25
  }

  /** Each part of the checker's sum counts by its share, whatever the others are. */
  lemma SharesOfTheChecker(title: real, body: real, labels: real, track: bool, difficulty: bool, more: real)
    ensures var sum := WeightedSum(title, body, labels, track, difficulty);
            && WeightedSum(title + more, body, labels, track, difficulty) == sum + 0.35 * more
            && WeightedSum(title, body + more, labels, track, difficulty) == sum + 0.25 * more
            && WeightedSum(title, body, labels + more, track, difficulty) == sum + 0.15 * more
    ensures WeightedSum(title, body, labels, true, difficulty)
            == WeightedSum(title, body, labels, false, difficulty) + 0.15
    ensures WeightedSum(title, body, labels, track, true)
            == WeightedSum(title, body, labels, track, false) + 0.1
    ensures WeightedSum(0.0, 0.0, 0.0, false, false) == 0.0
  {
  }

  lemma SharesOfTheDetector(title: real, body: real, labels: real, more: real)
    ensures OverlapSum(title + more, body, labels) == OverlapSum(title, body, labels) + 0.4 * more
    ensures OverlapSum(title, body + more, labels) == OverlapSum(title, body, labels) + 0.35 * more
    ensures OverlapSum(title, body, labels + more) == OverlapSum(title, body, labels) + 0.25 * more
    ensures OverlapSum(0.0, 0.0, 0.0) == 0.0
  {
  }

  /** `combined` of the duplicate checker, before rounding; `body` is the cosine value. */
  function DedupeScore(proposed: Issue, existing: Issue, body: real): real {
    var sum := WeightedSum(Dice(SetOf(proposed.title), SetOf(existing.title)), body,
                           Jaccard(SetOf(proposed.labels), SetOf(existing.labels)),
                           MatchByTrack(proposed, existing), MatchByDifficulty(proposed, existing));
    if sum < 1.0 then sum else 1.0
  }

  /** `combined` of the overlap detector, before rounding. */
  function OverlapScore(proposed: Issue, existing: Issue, body: real): real {
    OverlapSum(Dice(SetOf(proposed.title), SetOf(existing.title)), body,
               Jaccard(SetOf(proposed.labels), SetOf(existing.labels)))
  }

  /** Everything the weights look at agrees. */
  ghost predicate SameThroughout(proposed: Issue, existing: Issue) {
    && proposed.title != [] && SetOf(proposed.title) == SetOf(existing.title)
    && proposed.labels != [] && SetOf(proposed.labels) == SetOf(existing.labels)
    && proposed.body != [] && existing.body != [] && Proportional(proposed.body, existing.body)
  }

  lemma NonEmptySet(tokens: seq<string>)
    ensures SetOf(tokens) == {} <==> tokens == []
  {
    assert tokens != [] ==> tokens[0] in SetOf(tokens);
  }

  /**
    Both combined scores lie in [0, 1], so the clamp at 1 never changes the checker's sum; and they
    reach 1 exactly when every compared part is full.
   */
  lemma ScoresInUnitInterval(proposed: Issue, existing: Issue, body: real)
    requires IsCosine(proposed.body, existing.body, body)
    ensures 0.0 <= OverlapScore(proposed, existing, body) <= 1.0
    ensures OverlapScore(proposed, existing, body) == 1.0 <==> SameThroughout(proposed, existing)
    ensures 0.0 <= DedupeScore(proposed, existing, body) <= 1.0
    ensures OverlapScore(proposed, existing, body)
            == OverlapSum(Dice(SetOf(proposed.title), SetOf(existing.title)), body,
                          Jaccard(SetOf(proposed.labels), SetOf(existing.labels)))
    ensures DedupeScore(proposed, existing, body)
            == WeightedSum(Dice(SetOf(proposed.title), SetOf(existing.title)), body,
                           Jaccard(SetOf(proposed.labels), SetOf(existing.labels)),
                           MatchByTrack(proposed, existing), MatchByDifficulty(proposed, existing))
    ensures DedupeScore(proposed, existing, body) == 1.0
            <==> && SameThroughout(proposed, existing)
                 && MatchByTrack(proposed, existing) && MatchByDifficulty(proposed, existing)
  {
    CosineInUnitInterval(proposed.body, existing.body, body);
    OverlapsInUnitInterval(SetOf(proposed.title), SetOf(existing.title));
    OverlapsInUnitInterval(SetOf(proposed.labels), SetOf(existing.labels));
    NonEmptySet(proposed.title);
    NonEmptySet(proposed.labels);
  }

  const HIGH_CONFIDENCE: real := 0.7

  /** Issues whose titles share no token are never reported as high-confidence duplicates. */
  lemma HighConfidenceNeedsSharedTitle(proposed: Issue, existing: Issue, body: real)
    requires IsCosine(proposed.body, existing.body, body)
    requires SetOf(proposed.title) !! SetOf(existing.title)
    ensures DedupeScore(proposed, existing, body) <= 0.65 < HIGH_CONFIDENCE
  {
    ScoresInUnitInterval(proposed, existing, body);
    CosineInUnitInterval(proposed.body, existing.body, body);
    OverlapsInUnitInterval(SetOf(proposed.labels), SetOf(existing.labels));
    assert SetOf(proposed.title) * SetOf(existing.title) == {};
  }
}
