# Duplicate check and record lookups of the IP registry server

This project models the deterministic routines of `dbserver.js`, the HTTP
server of an intellectual-property registry whose records live on a smart
contract (`getTotalIPs`, `getIPDetails(i)`) and in a document store:

- the term-vector alignment inside `calculateCosineSimilarity`: both
  descriptions are lower-cased, weighed as a two-document TF-IDF corpus,
  each term list is folded into a dictionary, and both dictionaries are
  projected onto the union of their terms with 0 for a missing term, or,
  for a missing name inherited from `Object.prototype` such as
  "constructor", the inherited function, which makes the score NaN;
- `checkDescriptionSimilarity`, the scan that refuses a registration when the
  new description scores above 0.9 against a registered one;
- `searchIPByDescription` and the loop of `/get-ips-by-owner/:ownerAddress`,
  which collect the records whose description contains a keyword, or whose
  owner address equals the query, both ignoring letter case;
- the id check of `/search-ip/:id`, including JavaScript's `parseInt`.

The ledger of registered records is a sequence (`Ledger.IpRecord`, position =
registration index). The TF-IDF weighting (the `natural` package) and the
cosine of two vectors (the `cosine-similarity` package) are parameters
`weigh` and `cosine`; `CosineScorer(weigh, cosine)` is the resulting
`calculateCosineSimilarity`, and the scan is stated for any scoring function.

Files: `wrappers.dfy` (Option, Result), `text.dfy` (`toLowerCase`,
`includes`), `parse_int.dfy` (`parseInt`, id check), `ledger.dfy` (records),
`term_vectors.dfy` (alignment), `duplicate_scan.dfy` (duplicate scan),
`record_filters.dfy` (keyword and owner lookups).

The model follows the code where it departs from its evident intent: the
scan stops before the newest record, and a term such as "constructor" in
only one description makes the score NaN (see Findings); a degenerate
comparison is not special-cased but yields NaN, which never exceeds the
threshold (`Score.NaN`, `Exceeds`); the scan reports the index of the first
duplicate, which the server's thrown error does not carry.

## Model

| member | source | states |
|---|---|---|
| Text.Lower | dbserver.js:45-46 | lower-casing keeps the length and maps each character by the lower-case mapping |
| Text.LowerIdempotent | dbserver.js:45-46 | lower-casing an already lower-cased string changes nothing |
| Text.LowerCharEqualIff | dbserver.js:322-323 | two characters lower-case alike iff they are equal or a capital and its lower-case letter |
| Text.LowerEqualIff | dbserver.js:322-323 | two strings lower-case to the same string iff they differ only in letter case |
| Text.IncludesIff | dbserver.js:130 | `includes` holds iff the needle occurs at some position of the text (the empty needle everywhere) |
| ParseInt.ParseIntShowNat | dbserver.js:208 | `parseInt` reads back the decimal rendering of every natural number |
| ParseInt.ParseIntNegative | dbserver.js:208 | a leading minus negates, so "-0" reads as zero |
| ParseInt.ParseIntIgnoresSuffix | dbserver.js:208 | text after the digits is ignored ("12abc" reads as 12) |
| ParseInt.ValidateId | dbserver.js:208-211 | an id is accepted iff it parses and lies in [0, n), and the accepted value is the parsed one |
| ParseInt.ValidateCanonicalId | dbserver.js:208-211 | the decimal id k is accepted, as k, exactly when k < n |
| ParseInt.ValidateNegativeId | dbserver.js:208-211 | every negative id is refused except "-0", accepted as record 0 when one exists |
| ParseInt.ValidateIdWithSuffix | dbserver.js:208-211 | an in-range id followed by non-digit text is accepted as that id |
| TermVectors.Dedup | dbserver.js:59-60 | the term basis lists each term of the concatenated key lists exactly once and no other term |
| TermVectors.LastWeightIsLastEntry | dbserver.js:54-57 | the folded weight of a term is that of its last entry in the term list, and 0 when the list lacks it |
| TermVectors.DedupOrder | dbserver.js:59-60 | the basis keeps first-occurrence order: an earlier term occurs in the key lists before any occurrence of a later one |
| TermVectors.FoldTerms | dbserver.js:54-57 | the dictionary has exactly the listed terms, each with its last entry's weight, and its keys are the listed terms in first-insertion order |
| TermVectors.FoldStep | dbserver.js:54-57 | storing one more entry keeps the dictionary filled from the longer list, and appends the key only when it is new |
| TermVectors.AlignedBasis | dbserver.js:59-60 | the basis is duplicate-free and holds exactly the terms of either list, so its length is the number of distinct terms |
| TermVectors.LookupFolded | dbserver.js:60-61 | reading a term from a folded dictionary gives its weight, the inherited function for an absent inherited name, and 0 otherwise |
| TermVectors.FoldedScore | dbserver.js:59-63 | scoring the projected dictionaries gives NaN exactly when an inherited name is a term of only one list, and otherwise the cosine of the aligned weights |
| TermVectors.ConstructorTermScoresNaN | dbserver.js:60-63 | "constructor" in only one term list makes the score NaN whatever the weights and the cosine |
| TermVectors.AlignedVectors | dbserver.js:59-61 | both vectors have the length of the basis, which holds each term of either document once; each position holds that document's weight or 0 |
| TermVectors.CalculateCosineSimilarity | dbserver.js:40-64 | the imperative computation returns the score of the lower-cased descriptions' term lists (`Similarity`): the cosine of the aligned vectors, or NaN for a one-sided inherited name |
| TermVectors.SimilarityIgnoresCase | dbserver.js:45-49 | descriptions that differ only in letter case get the same score |
| TermVectors.SimilarityOfLowered | dbserver.js:45-49 | the score depends only on the lower-cased descriptions |
| DuplicateScan.ScanVerdictFirst | dbserver.js:70-78 | the scan of the first `limit` records refuses iff one scores above 0.9 (exactly 0.9 passes), and names the first such record |
| DuplicateScan.ScanVerdictStable | dbserver.js:76-77 | once a record exceeds the threshold, later records do not change the verdict |
| DuplicateScan.Scan | dbserver.js:70-79 | the loop computes the verdict, and reads and scores exactly records 0 up to the first duplicate, or all `limit` records |
| DuplicateScan.CheckDescriptionSimilarity | dbserver.js:68-80 | refuses iff some record below total-1 exceeds 0.9, names the first; never reads record total-1 and reads nothing when total <= 1 |
| DuplicateScan.ScanAll | dbserver.js:70 | corrected scan: refuses iff some registered record exceeds 0.9 |
| DuplicateScan.NewestRecordNeverCompared | dbserver.js:70 | a description duplicating only the newest record is accepted as written and refused by the corrected scan |
| DuplicateScan.ConstructorTermPassesScan | dbserver.js:60-77 | a description that alone has the term "constructor" against every record is accepted by the scan as written and by the full scan |
| DuplicateScan.SingleRecordCopyAccepted | dbserver.js:70 | with a single registered record, an exact copy of its description is accepted as written |
| RecordFilters.Hits | dbserver.js:121-139 | the collected indices are below the bound and strictly increasing |
| RecordFilters.HitsExact | dbserver.js:130 | an index is collected iff its record passes the keyword or owner test |
| RecordFilters.Collect | dbserver.js:121-139 | the loop pushes exactly the passing records in index order |
| RecordFilters.SearchIPByDescription | dbserver.js:116-145 | the matching records in index order, or the error value iff no record matches |
| RecordFilters.GetIPsByOwner | dbserver.js:319-341 | the records with an owner and an owner address equal to the query ignoring case, in index order, or the error value iff there is none |
| RecordFilters.KeywordMatchIff | dbserver.js:127-130 | a record matches iff the lower-cased keyword occurs in its lower-cased description |
| RecordFilters.EmptyKeywordMatchesAll | dbserver.js:130 | the empty keyword matches every record |
| RecordFilters.QueriesIgnoreCase | dbserver.js:130 | neither lookup depends on the letter case of the query |

## Findings

| source | as written | input that shows it | evidently intended | confidence | as-written member | corrected member |
|---|---|---|---|---|---|---|
| dbserver.js:60-61 | the projection reads each term from a plain object with a fallback to 0, so a term named like an `Object.prototype` property that only one description contains yields the inherited function, and the cosine is NaN | a new description "constructor " followed by a copy of a registered description: the registered vector holds `Object` at "constructor", the score is NaN, and NaN > 0.9 is false, so the copy is accepted | read own entries only (`Object.hasOwn`, or dictionaries made with `Object.create(null)`), giving 0 for the missing term | not executed; medium (assumes the weighting lists "constructor" as a term, as a word tokenizer does) | TermVectors.ConstructorTermScoresNaN | TermVectors.AlignedVectors |
| dbserver.js:70 | the loop runs while `i < totalIPs - 1`, so the newest registered record is never compared | one registered record whose description equals the new one: the loop body never runs and the copy is accepted | compare against every registered record (`i < totalIPs`) | not executed; medium (a client that writes to the contract before calling the server would make the last record the new one itself) | DuplicateScan.CheckDescriptionSimilarity | DuplicateScan.ScanAll |

For the lookup, `TermVectors.ConstructorTermScoresNaN` and
`DuplicateScan.ConstructorTermPassesScan` exhibit the discrepancy; the
intended vectors are those of `TermVectors.Align`, which reads own entries
only and whose weights are proved in `TermVectors.AlignedVectors` to be
each document's weight or 0. `AlignedScore` uses them whenever no
inherited name is one-sided. For the loop bound,
`DuplicateScan.NewestRecordNeverCompared` and
`DuplicateScan.SingleRecordCopyAccepted` exhibit the discrepancy; the
corrected scan's contract is proved in `DuplicateScan.ScanAll`.

## Left out

- TF-IDF weighting and cosine similarity: library numerics in floating point; they are the parameters `weigh` and `cosine`.
- TermVectors.CalculateCosineSimilarity: weights and scores are exact reals, not IEEE doubles.
- TermVectors.Lookup: a term "__proto__" is not modelled; the weighting library never lists it, and assigning a number to it would be ignored.
- DuplicateScan.Exceeds: the threshold 0.9 is the exact rational 9/10, not the nearest double.
- TermVectors.FoldTerms: keys are in insertion order; JavaScript lists integer-like keys (such as "2024") first in ascending order. Both vectors share whichever order is used, so the cosine is unaffected.
- DuplicateScan.Scan: scores through a scoring function parameter rather than calling the method `CalculateCosineSimilarity`, which is proved to compute that function (`CosineScorer`); this keeps the proof of the loop small.
- Text.Lower: covers ASCII and Latin-1 capitals only, not the rest of Unicode case mapping.
- ParseInt.ParseInt: values are unbounded integers, so the loss of precision of very long digit strings is not modelled; `parseInt` is never given a radix here.
- Contract reads and their failures (`getTotalIPs`, `getIPDetails`, the `try`/`catch` error replies): remote calls; the ledger is an in-memory sequence that never fails.
- Output shaping of the lookups (`toNumber`, `toLocaleString` dates, the chosen fields): formatting; the model returns the records themselves.
- `getIPById`, `/register-ip`, `/get-all-ips`, `/transfer-ownership`, `/access-ip`, `/licensed-ips`: database and contract calls with no logic of their own.
- Request checks (required fields, `ethers.utils.isAddress`) and HTTP status codes: routing glue.
- The race between the duplicate scan and the id assignment at dbserver.js:157-160: concurrency against a remote ledger.
