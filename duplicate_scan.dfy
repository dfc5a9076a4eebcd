/** `checkDescriptionSimilarity`: the new description is scored against the
    registered descriptions in index order, and registration is refused at
    the first score above 0.9. The loop bound is `totalIPs - 1`, so the
    newest registered record is never compared; `ScanAll` is the scan over
    every record. The scan is stated for any scoring function `sim`; the
    server's is `calculateCosineSimilarity`, which is
    `CosineScorer(weigh, cosine)` for its TF-IDF weighting and cosine. */
module DuplicateScan {
  import opened TermVectors
  import opened Ledger
  import opened Wrappers
  import opened Text

  type Scorer = (string, string) -> Score

  /** The similarity above which a description counts as a duplicate. */
  const Threshold: real := 0.9

  /** `similarity > 0.9`; NaN compares false. */
  predicate Exceeds(s: Score) {
    s.Num? && s.value > Threshold
  }

  /** Accepted, or refused because of the record at `index` (the server
      throws "A similar IP already exists" and does not say which). */
  datatype Verdict = Accepted | Duplicate(index: nat)

  /** Does the new description exceed the threshold against record `i`? */
  predicate DuplicateOf(newDescription: string, ledger: seq<IpRecord>, i: nat, sim: Scorer)
    requires i < |ledger|
  {
    Exceeds(sim(newDescription, ledger[i].description))
  }

  /** The number of records the server's loop visits: `i < totalIPs - 1`. */
  function SourceBound(total: nat): (b: nat)
    ensures total >= 1 ==> b == total - 1
    ensures total <= 1 ==> b == 0
  {
    if total == 0 then 0 else total - 1
  }

  /** The outcome of scanning records `0 .. limit-1` in order. */
  function ScanVerdict(newDescription: string, ledger: seq<IpRecord>, limit: nat, sim: Scorer): Verdict
    requires limit <= |ledger|
  {
    if limit == 0 then Accepted
    else match ScanVerdict(newDescription, ledger, limit - 1, sim)
      case Duplicate(k) => Duplicate(k)
      case Accepted =>
        if DuplicateOf(newDescription, ledger, limit - 1, sim) then Duplicate(limit - 1) else Accepted
  }

  /** The scan refuses iff some record below `limit` exceeds the threshold,
      and then names the first such record. */
  lemma {:induction false} ScanVerdictFirst(newDescription: string, ledger: seq<IpRecord>, limit: nat, sim: Scorer)
    requires limit <= |ledger|
    ensures var v := ScanVerdict(newDescription, ledger, limit, sim);
      && (v.Accepted? <==> forall j :: 0 <= j < limit ==> !DuplicateOf(newDescription, ledger, j, sim))
      && (v.Duplicate? ==>
            v.index < limit && DuplicateOf(newDescription, ledger, v.index, sim)
            && forall j :: 0 <= j < v.index ==> !DuplicateOf(newDescription, ledger, j, sim))
  {
    if limit > 0 {
      ScanVerdictFirst(newDescription, ledger, limit - 1, sim);
    }
  }

  /** Once a duplicate is found, scanning further does not change the verdict. */
  lemma {:induction false} ScanVerdictStable(newDescription: string, ledger: seq<IpRecord>, m: nat, n: nat, sim: Scorer)
    requires m <= n <= |ledger|
    requires ScanVerdict(newDescription, ledger, m, sim).Duplicate?
    ensures ScanVerdict(newDescription, ledger, n, sim) == ScanVerdict(newDescription, ledger, m, sim)
    decreases n - m
  {
    if m < n {
      ScanVerdictStable(newDescription, ledger, m, n - 1, sim);
    }
  }

  /** `trace` lists the indices `0 .. n-1`, in order. */
  ghost predicate Upto(trace: seq<nat>, n: nat) {
    |trace| == n && forall k :: 0 <= k < n ==> trace[k] == k
  }

  /** The loop of `checkDescriptionSimilarity` over records `0 .. limit-1`.
      The ghost `scored` lists the indices read from the ledger and scored,
      in order: the scan stops at the first duplicate. */
  method Scan(newDescription: string, ledger: seq<IpRecord>, limit: nat, sim: Scorer)
    returns (verdict: Verdict, ghost scored: seq<nat>)
    requires limit <= |ledger|
    ensures verdict == ScanVerdict(newDescription, ledger, limit, sim)
    ensures Upto(scored, if verdict.Duplicate? then verdict.index + 1 else limit)
  {
    verdict, scored := Accepted, [];
    var i := 0;
    while i < limit
      invariant 0 <= i <= limit
      invariant ScanVerdict(newDescription, ledger, i, sim) == Accepted
      invariant Upto(scored, i)
    {
      var existingDescription := ledger[i].description;
      scored := scored + [i];
      assert Upto(scored, i + 1);
      var similarity := sim(newDescription, existingDescription);
      if similarity.Num? && similarity.value > Threshold {
        verdict := Duplicate(i);
        ScanVerdictStable(newDescription, ledger, i + 1, limit, sim);
        return;
      }
      i := i + 1;
    }
  }

  /** `checkDescriptionSimilarity(newDescription)` as written: the scan stops
      one record short of the ledger's end. */
  method CheckDescriptionSimilarity(newDescription: string, ledger: seq<IpRecord>, sim: Scorer)
    returns (verdict: Verdict, ghost scored: seq<nat>)
    ensures verdict.Duplicate? <==>
      exists i :: 0 <= i < |ledger| - 1 && DuplicateOf(newDescription, ledger, i, sim)
    ensures verdict.Duplicate? ==>
      verdict.index < |ledger| - 1 && DuplicateOf(newDescription, ledger, verdict.index, sim)
      && forall j :: 0 <= j < verdict.index ==> !DuplicateOf(newDescription, ledger, j, sim)
    ensures forall k :: k in scored ==> k < |ledger| - 1
    ensures verdict.Duplicate? ==> forall k :: k in scored ==> k <= verdict.index
    ensures |ledger| <= 1 ==> verdict == Accepted && scored == []
  {
    verdict, scored := Scan(newDescription, ledger, SourceBound(|ledger|), sim);
    ScanVerdictFirst(newDescription, ledger, SourceBound(|ledger|), sim);
  }

  /** The scan over every registered record. */
  method ScanAll(newDescription: string, ledger: seq<IpRecord>, sim: Scorer)
    returns (verdict: Verdict, ghost scored: seq<nat>)
    ensures verdict.Duplicate? <==>
      exists i :: 0 <= i < |ledger| && DuplicateOf(newDescription, ledger, i, sim)
    ensures verdict.Duplicate? ==>
      verdict.index < |ledger| && DuplicateOf(newDescription, ledger, verdict.index, sim)
      && forall j :: 0 <= j < verdict.index ==> !DuplicateOf(newDescription, ledger, j, sim)
    ensures verdict.Duplicate? ==> forall k :: k in scored ==> k <= verdict.index
    ensures ledger == [] ==> verdict == Accepted && scored == []
  {
    verdict, scored := Scan(newDescription, ledger, |ledger|, sim);
    ScanVerdictFirst(newDescription, ledger, |ledger|, sim);
  }

  /** A new description that duplicates only the newest record is accepted
      by the scan as written and refused by the scan over every record. */
  lemma NewestRecordNeverCompared(newDescription: string, ledger: seq<IpRecord>, sim: Scorer)
    requires |ledger| >= 1
    requires forall j :: 0 <= j < |ledger| - 1 ==> !DuplicateOf(newDescription, ledger, j, sim)
    requires DuplicateOf(newDescription, ledger, |ledger| - 1, sim)
    ensures ScanVerdict(newDescription, ledger, SourceBound(|ledger|), sim) == Accepted
    ensures ScanVerdict(newDescription, ledger, |ledger|, sim) == Duplicate(|ledger| - 1)
  {
    ScanVerdictFirst(newDescription, ledger, |ledger| - 1, sim);
  }

  /** A new description whose weighting lists the term "constructor" for it
      and not for any registered record is accepted, whatever the weights
      and the cosine, by the scan as written and by the scan over every
      record: each comparison scores NaN. */
  lemma ConstructorTermPassesScan(newDescription: string, ledger: seq<IpRecord>, weigh: Weighting, cosine: Cosine)
    requires forall j :: 0 <= j < |ledger| ==>
      var (list1, list2) := weigh(Lower(newDescription), Lower(ledger[j].description));
      "constructor" in TermSet(list1) && "constructor" !in TermSet(list2)
    ensures ScanVerdict(newDescription, ledger, SourceBound(|ledger|), CosineScorer(weigh, cosine)) == Accepted
    ensures ScanVerdict(newDescription, ledger, |ledger|, CosineScorer(weigh, cosine)) == Accepted
  {
    var sim := CosineScorer(weigh, cosine);
    forall j | 0 <= j < |ledger|
      ensures !DuplicateOf(newDescription, ledger, j, sim)
    {
      var (list1, list2) := weigh(Lower(newDescription), Lower(ledger[j].description));
      ConstructorTermScoresNaN(list1, list2, cosine);
    }
    ScanVerdictFirst(newDescription, ledger, SourceBound(|ledger|), sim);
    ScanVerdictFirst(newDescription, ledger, |ledger|, sim);
  }

  /** A concrete instance: with one registered record whose description
      equals the new one, and weights that make identical vectors score 1,
      the scan as written accepts the copy. */
  lemma SingleRecordCopyAccepted(d: string)
    ensures var ledger := [IpRecord(0, "Brew", d, None, None)];
      var weigh: Weighting := (a, b) => ([TermWeight(a, 1.0)], [TermWeight(b, 1.0)]);
      var cosine: Cosine := (v1, v2) => if v1 == v2 then Num(1.0) else Num(0.0);
      var sim := CosineScorer(weigh, cosine);
      DuplicateOf(d, ledger, 0, sim)
      && ScanVerdict(d, ledger, SourceBound(|ledger|), sim) == Accepted
      && ScanVerdict(d, ledger, |ledger|, sim) == Duplicate(0)
  {
  }
}
