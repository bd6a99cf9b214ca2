/** The loops behind the split heuristic: exp_rules_with_split and best_split
    (src/include/cnode.hh). */
module SplitLoops {
  import opened Basics
  import opened PacketExpr
  import opened RuleList
  import opened CnodeTree
  import opened CnodeBuild

  method Clear(tmpBuckets: array<bool>)
    modifies tmpBuckets
    ensures forall k | 0 <= k < tmpBuckets.Length :: !tmpBuckets[k]
  {
    for i := 0 to tmpBuckets.Length
      invariant forall k | 0 <= k < i :: !tmpBuckets[k]
    {
      tmpBuckets[i] := false;
    }
  }

  /** Notes that a bucket was hit; says whether for the first time. */
  method Hit(tmpBuckets: array<bool>, bucket: nat, ghost hit: set<nat>) returns (first: bool)
    requires bucket < tmpBuckets.Length && forall k | 0 <= k < tmpBuckets.Length :: tmpBuckets[k] <==> k in hit
    modifies tmpBuckets
    ensures forall k | 0 <= k < tmpBuckets.Length :: tmpBuckets[k] <==> k in hit + {bucket}
    ensures first <==> bucket !in hit
  {
    first := !tmpBuckets[bucket];
    if first {
      tmpBuckets[bucket] := true;
    }
  }

  lemma OneMoreRule(rs: seq<Rule>, i: nat, f: Bit, nb: nat)
    requires i < |rs| && nb > 0
    ensures match GetField(rs[i].expr, f)
            case Some(v) => Anys(rs[..i + 1], f) == Anys(rs[..i], f) && BucketsHit(rs[..i + 1], f, nb) == BucketsHit(rs[..i], f, nb) + {GetBucket(v, nb)}
            case None => Anys(rs[..i + 1], f) == Anys(rs[..i], f) + 1 && BucketsHit(rs[..i + 1], f, nb) == BucketsHit(rs[..i], f, nb)
  {
    assert rs[..i + 1][..i] == rs[..i] && rs[..i + 1][i] == rs[i];
  }

  lemma CountHit(hit: set<nat>, b: nat)
    ensures |hit + {b}| == |hit| + if b in hit then 0 else 1
  {
    assert b in hit ==> hit + {b} == hit;
  }

  /** Counts in one pass, with a bit per bucket to see which were hit. */
  method ExpRulesWithSplit(rs: seq<Rule>, f: Bit, tmpBuckets: array<bool>) returns (exp: nat, nDistinct: nat)
    requires tmpBuckets.Length > 0
    modifies tmpBuckets
    ensures exp == ExpRules(rs, f, tmpBuckets.Length)
    ensures nDistinct == |BucketsHit(rs, f, tmpBuckets.Length)|
  {
    var nb := tmpBuckets.Length;
    Clear(tmpBuckets);
    var nAnys, nDef := 0, 0;
    nDistinct := 0;
    ghost var hit: set<nat> := {};
    for i := 0 to |rs|
      invariant nAnys == Anys(rs[..i], f) && nDef == i - nAnys
      invariant hit == BucketsHit(rs[..i], f, nb) && nDistinct == |hit|
      invariant forall k | 0 <= k < nb :: tmpBuckets[k] <==> k in hit
    {
      OneMoreRule(rs, i, f, nb);
      match GetField(rs[i].expr, f) {
        case Some(v) =>
          nDef := nDef + 1;
          var first := Hit(tmpBuckets, GetBucket(v, nb), hit);
          if first { nDistinct := nDistinct + 1; }
          CountHit(hit, GetBucket(v, nb));
          hit := hit + {GetBucket(v, nb)};
        case None =>
          nAnys := nAnys + 1;
      }
    }
    assert rs[..|rs|] == rs;
    exp := Average(nAnys, nDef, nDistinct);
  }

  /** The field to split on: the first of those not on the path with the fewest
      rules left to check. */
  method FindBestSplit(rs: seq<Rule>, path: Mask) returns (best: Best)
    ensures best == BestSplit(rs, path)
  {
    var nBuckets := 1;
    while nBuckets < |rs| * 3
      invariant nBuckets > 0 && DoubleUntil(nBuckets, |rs| * 3) == DoubleUntil(1, |rs| * 3)
      decreases |rs| * 3 - nBuckets
    {
      nBuckets := 2 * nBuckets;
    }
    var tmpBuckets := new bool[nBuckets];
    best := NoField;
    for i := 0 to NUM_FIELDS
      invariant best == BestUpTo(i, rs, path, nBuckets)
    {
      if i !in path {
        var exp, nDistinct := ExpRulesWithSplit(rs, i, tmpBuckets);
        if best.NoField? || exp < best.exp {
          best := Best(i, exp, nDistinct);
        }
      }
    }
  }
}
