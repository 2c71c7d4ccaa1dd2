/**
 * Counting renderer masks: the `Dictionary<uint, int>` the channel engine fills to find the most common
 * rendering-layer mask of a room, and the choice of a most frequent key.
 */
module Tally {
  import opened Masks

  /** How often `m` occurs in `s`. */
  function Occurrences(s: seq<uint32>, m: uint32): nat {
    if |s| == 0 then 0
    else Occurrences(s[..|s| - 1], m) + (if s[|s| - 1] == m then 1 else 0)
  }

  lemma {:induction false} OccursIffPositive(s: seq<uint32>, m: uint32)
    ensures Occurrences(s, m) > 0 <==> m in s
  {
    if |s| > 0 {
      OccursIffPositive(s[..|s| - 1], m);
      assert s == s[..|s| - 1] + [s[|s| - 1]];
    }
  }

  /** The masks of the live renderers of `rs`, in order, that `keep` accepts. */
  function Kept(rs: seq<int>, live: seq<bool>, masks: seq<uint32>, keep: uint32 -> bool): (r: seq<uint32>)
    ensures |r| <= |rs|
  {
    if |rs| == 0 then []
    else
      var r := rs[|rs| - 1];
      Kept(rs[..|rs| - 1], live, masks, keep) +
      (if Counted(r, live, masks, keep) then [masks[r]] else [])
  }

  /** `counts` maps each mask of `s` to its number of occurrences, and holds nothing else. */
  ghost predicate IsTally(counts: map<uint32, int>, s: seq<uint32>) {
    forall m :: (m in counts <==> m in s) && (m in counts ==> counts[m] == Occurrences(s, m))
  }

  /** One more occurrence of `m`. */
  function Bump(counts: map<uint32, int>, m: uint32): map<uint32, int> {
    if m in counts then counts[m := counts[m] + 1] else counts[m := 1]
  }

  lemma TallyAppend(counts: map<uint32, int>, s: seq<uint32>, m: uint32)
    requires IsTally(counts, s)
    ensures IsTally(Bump(counts, m), s + [m])
  {
    var after := s + [m];
    assert after[..|after| - 1] == s;
    forall k
      ensures (k in Bump(counts, m) <==> k in after) && (k in Bump(counts, m) ==> Bump(counts, m)[k] == Occurrences(after, k))
    {
      OccursIffPositive(s, k);
    }
  }

  lemma KeptStep(rs: seq<int>, i: int, live: seq<bool>, masks: seq<uint32>, keep: uint32 -> bool)
    requires 0 <= i < |rs|
    ensures Kept(rs[..i + 1], live, masks, keep) == Kept(rs[..i], live, masks, keep) +
              (if Counted(rs[i], live, masks, keep) then [masks[rs[i]]] else [])
  {
    assert rs[..i + 1][..i] == rs[..i];
  }

  /** Renderer `r` is live and `keep` accepts its mask. */
  predicate Counted(r: int, live: seq<bool>, masks: seq<uint32>, keep: uint32 -> bool) {
    0 <= r < |live| && live[r] && r < |masks| && keep(masks[r])
  }

  /** One step of the counting loop keeps the tally of the renderers seen so far. */
  lemma CountStep(counts: map<uint32, int>, rs: seq<int>, i: int, live: seq<bool>, masks: seq<uint32>,
                  keep: uint32 -> bool)
    requires 0 <= i < |rs| && IsTally(counts, Kept(rs[..i], live, masks, keep))
    ensures Counted(rs[i], live, masks, keep) ==> IsTally(Bump(counts, masks[rs[i]]), Kept(rs[..i + 1], live, masks, keep))
    ensures !Counted(rs[i], live, masks, keep) ==> IsTally(counts, Kept(rs[..i + 1], live, masks, keep))
  {
    KeptStep(rs, i, live, masks, keep);
    if Counted(rs[i], live, masks, keep) {
      TallyAppend(counts, Kept(rs[..i], live, masks, keep), masks[rs[i]]);
    } else {
      assert Kept(rs[..i], live, masks, keep) + [] == Kept(rs[..i], live, masks, keep);
    }
  }

  /**
   * The counting loop: for each live renderer whose mask `keep` accepts, one more occurrence of its mask.
   */
  method CountMasks(rs: seq<int>, live: seq<bool>, masks: seq<uint32>, keep: uint32 -> bool)
    returns (counts: map<uint32, int>)
    ensures IsTally(counts, Kept(rs, live, masks, keep))
  {
    counts := map[];
    var i := 0;
    while i < |rs|
      invariant 0 <= i <= |rs|
      invariant IsTally(counts, Kept(rs[..i], live, masks, keep))
    {
      var r := rs[i];
      CountStep(counts, rs, i, live, masks, keep);
      if Counted(r, live, masks, keep) {
        counts := Bump(counts, masks[r]);
      }
      i := i + 1;
    }
    assert rs[..|rs|] == rs;
  }

  /**
   * `counts.OrderByDescending(kv => kv.Value).First().Key`: a key with the largest count. Which of several
   * keys with the same count is returned depends on the dictionary's order; the model leaves it open.
   */
  method MostFrequent(counts: map<uint32, int>) returns (m: uint32)
    requires |counts| > 0
    ensures m in counts
    ensures forall k :: k in counts ==> counts[k] <= counts[m]
  {
    var keys := counts.Keys;
    m :| m in keys;
    keys := keys - {m};
    while keys != {}
      invariant keys <= counts.Keys && m in counts
      invariant forall k :: k in counts && k !in keys ==> counts[k] <= counts[m]
      decreases |keys|
    {
      var k :| k in keys;
      if counts[k] > counts[m] {
        m := k;
      }
      keys := keys - {k};
    }
  }

  /** Every kept mask passes the filter. */
  lemma {:induction false} KeptPass(rs: seq<int>, live: seq<bool>, masks: seq<uint32>, keep: uint32 -> bool)
    ensures forall k :: 0 <= k < |Kept(rs, live, masks, keep)| ==> keep(Kept(rs, live, masks, keep)[k])
  {
    if |rs| > 0 {
      KeptPass(rs[..|rs| - 1], live, masks, keep);
    }
  }

  /** A tally is empty exactly when the counted sequence is. */
  lemma TallyEmpty(counts: map<uint32, int>, s: seq<uint32>)
    requires IsTally(counts, s)
    ensures |counts| == 0 <==> |s| == 0
  {
    if |s| > 0 {
      assert s[0] in counts;
    } else {
      assert counts.Keys == {};
    }
  }

  /** A key with the largest count is a mask of the sequence that occurs at least as often as any other. */
  lemma TallyMostFrequent(counts: map<uint32, int>, s: seq<uint32>, m: uint32)
    requires IsTally(counts, s) && m in counts
    requires forall k :: k in counts ==> counts[k] <= counts[m]
    ensures m in s
    ensures forall x :: Occurrences(s, x) <= Occurrences(s, m)
  {
    forall x
      ensures Occurrences(s, x) <= Occurrences(s, m)
    {
      OccursIffPositive(s, x);
    }
  }
}
