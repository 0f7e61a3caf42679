/** Small shared vocabulary: optional values, row identifiers, percentages. */
module Common {
  datatype Option<+T> = None | Some(value: T)

  /** Primary keys are UUID texts; only equality on them matters. */
  type Id = string

  lemma {:induction false} DistinctSeqFitsSet<T>(xs: seq<T>, pool: set<T>)
    requires forall i, j :: 0 <= i < j < |xs| ==> xs[i] != xs[j]
    requires forall x :: x in xs ==> x in pool
    ensures |xs| <= |pool|
  {
    if xs != [] {
      var last := |xs| - 1;
      DistinctSeqFitsSet(xs[..last], pool - {xs[last]});
    }
  }

  /** Distinct elements of ys are at most as many as ys has places. */
  lemma {:induction false} DistinctSeqFitsSeq<T>(xs: seq<T>, ys: seq<T>)
    requires forall i, j :: 0 <= i < j < |xs| ==> xs[i] != xs[j]
    requires forall x :: x in xs ==> x in ys
    ensures |xs| <= |ys|
  {
    var pool := set y | y in ys;
    DistinctSeqFitsSet(xs, pool);
    SetFitsSeq(ys);
  }

  lemma {:induction false} SetFitsSeq<T>(ys: seq<T>)
    ensures |set y | y in ys| <= |ys|
  {
    if ys == [] {
      assert (set y | y in ys) == {};
    } else {
      var last := |ys| - 1;
      SetFitsSeq(ys[..last]);
      assert (set y | y in ys) == (set y | y in ys[..last]) + {ys[last]};
    }
  }

  /** p percent of the whole are the part; of nothing it is 0. */
  predicate IsPercentage(p: real, part: nat, whole: nat) {
    if whole == 0 then p == 0.0 else p * whole as real == 100.0 * part as real
  }

  method Percentage(part: nat, whole: nat) returns (p: real)
    ensures IsPercentage(p, part, whole)
  {
    p := 0.0;
    if whole > 0 {
      p := part as real / whole as real * 100.0;
      ShareOf(part as real, whole as real);
    }
  }

  lemma ShareOf(part: real, whole: real)
    requires whole != 0.0
    ensures (part / whole * 100.0) * whole == 100.0 * part
  {
    assert part / whole * whole == part;
  }
}
