/** The two loops that walk the whole ledger and collect the records that
    pass a test: `searchIPByDescription` (keyword contained in the
    description, either case) and the loop of `/get-ips-by-owner/:ownerAddress`
    (owner address equal, either case). */
module RecordFilters {
  import opened Wrappers
  import opened Text
  import opened Ledger

  /** The test a record must pass. */
  datatype Query = Keyword(keyword: string) | OwnedBy(ownerAddress: string)

  /** The error values returned when nothing passes. */
  datatype LookupError = NoMatchingIPs | NoIPsForOwner

  predicate Keeps(rec: IpRecord, q: Query) {
    match q
    case Keyword(kw) => Includes(Lower(rec.description), Lower(kw))
    case OwnedBy(addr) =>
      // `ipDetails.owner && ipDetails.ownerAddress && ...`: both present,
      // and the address not the (falsy) empty string
      && rec.owner.Some?
      && rec.ownerAddress.Some? && rec.ownerAddress.value != ""
      && Lower(rec.ownerAddress.value) == Lower(addr)
  }

  /** The indices below `n` of the records that pass `q`, increasing. */
  function Hits(ledger: seq<IpRecord>, q: Query, n: nat): (ps: seq<nat>)
    requires n <= |ledger|
    ensures forall k :: 0 <= k < |ps| ==> ps[k] < n
    ensures forall a, b :: 0 <= a < b < |ps| ==> ps[a] < ps[b]
  {
    if n == 0 then []
    else Hits(ledger, q, n - 1) + (if Keeps(ledger[n - 1], q) then [n - 1] else [])
  }

  /** An index below `n` is a hit exactly when its record passes. */
  lemma {:induction false} HitsExact(ledger: seq<IpRecord>, q: Query, n: nat)
    requires n <= |ledger|
    ensures forall i :: 0 <= i < n ==> (i in Hits(ledger, q, n) <==> Keeps(ledger[i], q))
  {
    if n > 0 {
      HitsExact(ledger, q, n - 1);
      var prev := Hits(ledger, q, n - 1);
      var tail: seq<nat> := if Keeps(ledger[n - 1], q) then [n - 1] else [];
      assert Hits(ledger, q, n) == prev + tail;
      assert n - 1 !in prev;
      forall i | 0 <= i < n
        ensures i in Hits(ledger, q, n) <==> Keeps(ledger[i], q)
      {
        assert i in prev + tail <==> i in prev || i in tail;
      }
    }
  }

  /** The records at the given indices, in that order. */
  function Pick(ledger: seq<IpRecord>, ps: seq<nat>): (rs: seq<IpRecord>)
    requires forall k :: 0 <= k < |ps| ==> ps[k] < |ledger|
    ensures |rs| == |ps| && forall k :: 0 <= k < |ps| ==> rs[k] == ledger[ps[k]]
  {
    if ps == [] then [] else Pick(ledger, ps[..|ps| - 1]) + [ledger[ps[|ps| - 1]]]
  }

  /** The collecting loop shared by both lookups: `matching.push(...)` for
      every record that passes, in index order. */
  method Collect(ledger: seq<IpRecord>, q: Query) returns (matching: seq<IpRecord>)
    ensures matching == Pick(ledger, Hits(ledger, q, |ledger|))
  {
    matching := [];
    for i := 0 to |ledger|
      invariant matching == Pick(ledger, Hits(ledger, q, i))
    {
      if Keeps(ledger[i], q) {
        matching := matching + [ledger[i]];
      }
    }
  }

  /** `searchIPByDescription(keyword)`: the records whose lower-cased
      description contains the lower-cased keyword, in index order, or the
      error value when there is none. */
  method SearchIPByDescription(ledger: seq<IpRecord>, keyword: string)
    returns (r: Result<seq<IpRecord>, LookupError>)
    ensures r.Failure? <==> forall i :: 0 <= i < |ledger| ==> !Keeps(ledger[i], Keyword(keyword))
    ensures r.Failure? ==> r.error == NoMatchingIPs
    ensures r.Success? ==> r.value == Pick(ledger, Hits(ledger, Keyword(keyword), |ledger|))
  {
    var matching := Collect(ledger, Keyword(keyword));
    HitsExact(ledger, Keyword(keyword), |ledger|);
    r := if |matching| > 0 then Success(matching) else Failure(NoMatchingIPs);
  }

  /** The loop of `/get-ips-by-owner/:ownerAddress` and its empty-result
      check: the records with an owner and an owner address equal to the
      query when both are lower-cased, in index order, or the error value. */
  method GetIPsByOwner(ledger: seq<IpRecord>, ownerAddress: string)
    returns (r: Result<seq<IpRecord>, LookupError>)
    ensures r.Failure? <==> forall i :: 0 <= i < |ledger| ==> !Keeps(ledger[i], OwnedBy(ownerAddress))
    ensures r.Failure? ==> r.error == NoIPsForOwner
    ensures r.Success? ==> r.value == Pick(ledger, Hits(ledger, OwnedBy(ownerAddress), |ledger|))
  {
    var ownedIPs := Collect(ledger, OwnedBy(ownerAddress));
    HitsExact(ledger, OwnedBy(ownerAddress), |ledger|);
    r := if |ownedIPs| == 0 then Failure(NoIPsForOwner) else Success(ownedIPs);
  }

  /** Keyword matching is the substring test on the lower-cased texts. */
  lemma KeywordMatchIff(rec: IpRecord, keyword: string)
    ensures Keeps(rec, Keyword(keyword)) <==>
      exists i :: OccursAt(Lower(rec.description), Lower(keyword), i)
  {
    assert Keeps(rec, Keyword(keyword)) == Includes(Lower(rec.description), Lower(keyword));
    IncludesIff(Lower(rec.description), Lower(keyword));
  }

  /** The empty keyword matches every record. */
  lemma {:induction false} EmptyKeywordMatchesAll(ledger: seq<IpRecord>, n: nat)
    requires n <= |ledger|
    ensures var ps := Hits(ledger, Keyword(""), n);
      |ps| == n && forall k :: 0 <= k < n ==> ps[k] == k
  {
    if n > 0 {
      EmptyKeywordMatchesAll(ledger, n - 1);
      assert Lower("") == "";
      assert Keeps(ledger[n - 1], Keyword(""));
    }
  }

  /** Neither lookup depends on the letter case of its query. */
  lemma QueriesIgnoreCase(rec: IpRecord, s: string, s': string)
    requires SameUpToCase(s, s')
    ensures Keeps(rec, Keyword(s)) == Keeps(rec, Keyword(s'))
    ensures Keeps(rec, OwnedBy(s)) == Keeps(rec, OwnedBy(s'))
  {
    LowerEqualIff(s, s');
  }
}
