/**
 * The aggregation keywords of the parameter text and of the batch table
 * (parameters.cpp, model/batch.cpp). The readers classify a keyword by
 * substring search; the writer emits one fixed keyword per aggregation.
 */
module Keywords {
  import opened SweepTree

  /** `sub` occurs somewhere in `s` (std::string::find != npos). */
  predicate Contains(s: string, sub: string)
  {
    exists i | 0 <= i <= |s| :: OccursAt(s, sub, i)
  }

  /** `sub` occurs in `s` starting at position `i`. */
  predicate OccursAt(s: string, sub: string, i: int)
  {
    0 <= i && i + |sub| <= |s| && s[i..i + |sub|] == sub
  }

  /** Keyword classification: "atlag" wins over everything, then "smin",
      "smax", "umin" and "umax" are tried in that order; anything else is FIRST. */
  function Classify(keyword: string): Aggregation
  {
    if Contains(keyword, "atlag") then AVERAGE
    else if Contains(keyword, "smin") then SMIN
    else if Contains(keyword, "smax") then SMAX
    else if Contains(keyword, "umin") then UMIN
    else if Contains(keyword, "umax") then UMAX
    else FIRST
  }

  /** The keyword the parameter writer emits for an aggregation. */
  function KeywordOf(a: Aggregation): string
  {
    match a
    case AVERAGE => "atlag"
    case SMIN => "smin"
    case SMAX => "smax"
    case UMIN => "umin"
    case UMAX => "umax"
    case FIRST => "elso"
  }

  /** A keyword that contains one of the tested words is classified by the
      first of them in testing order; the others are never consulted. */
  lemma ClassifyPrecedence(keyword: string)
    ensures Contains(keyword, "atlag") ==> Classify(keyword) == AVERAGE
    ensures !Contains(keyword, "atlag") && Contains(keyword, "smin") ==> Classify(keyword) == SMIN
    ensures Classify(keyword) == FIRST <==>
              !Contains(keyword, "atlag") && !Contains(keyword, "smin") && !Contains(keyword, "smax")
              && !Contains(keyword, "umin") && !Contains(keyword, "umax")
  {
  }

  /** Reading back a written keyword gives the aggregation that was written. */
  lemma ClassifyKeywordOf(a: Aggregation)
    ensures Classify(KeywordOf(a)) == a
  {
    var k := KeywordOf(a);
    assert k[0..|k|] == k;
    match a
    case FIRST =>
      assert !Contains(k, "smin") by { assert k[0..4] != "smin"; }
      assert !Contains(k, "smax") by { assert k[0..4] != "smax"; }
      assert !Contains(k, "umin") by { assert k[0..4] != "umin"; }
      assert !Contains(k, "umax") by { assert k[0..4] != "umax"; }
    case AVERAGE =>
      assert OccursAt(k, "atlag", 0);
    case SMIN =>
      assert OccursAt(k, "smin", 0);
    case SMAX =>
      assert OccursAt(k, "smax", 0);
      assert !Contains(k, "smin") by { assert k[0..4] != "smin"; }
    case UMIN =>
      assert !Contains(k, "smin") by { assert k[0..4] != "smin"; }
      assert !Contains(k, "smax") by { assert k[0..4] != "smax"; }
      assert OccursAt(k, "umin", 0);
    case UMAX =>
      assert !Contains(k, "smin") by { assert k[0..4] != "smin"; }
      assert !Contains(k, "smax") by { assert k[0..4] != "smax"; }
      assert !Contains(k, "umin") by { assert k[0..4] != "umin"; }
      assert OccursAt(k, "umax", 0);
  }
}
