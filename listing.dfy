/**
 * Bucket listings: the eligibility filter, the listing loop of get_object_list and the
 * page-count arithmetic of restore_objects.
 */
module Listing {

  /** One entry of a listing page: the object's key and its StorageClass. */
  datatype Entry = Entry(key: string, storageClass: string)

  /** One response of list_objects_v2: its Contents, IsTruncated and NextContinuationToken. */
  datatype Response = Response(contents: seq<Entry>, isTruncated: bool, nextToken: string)

  /** Only archived objects need a restore request. */
  predicate Eligible(e: Entry) {
    e.storageClass == "GLACIER" || e.storageClass == "ACCELERATED"
  }

  /** The filter over one page: the eligible entries, in listing order. */
  function Archived(page: seq<Entry>): seq<Entry> {
    if page == [] then []
    else
      var last := page[|page| - 1];
      Archived(page[..|page| - 1]) + (if Eligible(last) then [last] else [])
  }

  function Keys(entries: seq<Entry>): (keys: seq<string>)
    ensures |keys| == |entries|
    ensures forall j :: 0 <= j < |entries| ==> keys[j] == entries[j].key
  {
    seq(|entries|, j requires 0 <= j < |entries| => entries[j].key)
  }

  /**
   * The positions of the eligible entries of a page, increasing: every position listed is
   * eligible, and every eligible position is listed.
   */
  function EligiblePositions(page: seq<Entry>): (ps: seq<nat>)
    ensures forall j :: 0 <= j < |ps| ==> ps[j] < |page| && Eligible(page[ps[j]])
    ensures forall j, k :: 0 <= j < k < |ps| ==> ps[j] < ps[k]
    ensures forall i :: 0 <= i < |page| && Eligible(page[i]) ==> i in ps
  {
    if page == [] then []
    else
      var n := |page| - 1;
      EligiblePositions(page[..n]) + (if Eligible(page[n]) then [n] else [])
  }

  /**
   * The filter keeps exactly the eligible entries, in listing order: its j-th entry is the
   * page's entry at the j-th eligible position.
   */
  lemma {:induction false} ArchivedSelectsEligible(page: seq<Entry>)
    ensures |Archived(page)| == |EligiblePositions(page)|
    ensures forall j :: 0 <= j < |Archived(page)| ==> Archived(page)[j] == page[EligiblePositions(page)[j]]
  {
    if page != [] {
      ArchivedSelectsEligible(page[..|page| - 1]);
    }
  }

  /** Filtering two listings one after the other is filtering their concatenation. */
  lemma {:induction false} ArchivedAppend(a: seq<Entry>, b: seq<Entry>)
    ensures Archived(a + b) == Archived(a) + Archived(b)
  {
    if b != [] {
      assert (a + b)[..|a + b| - 1] == a + b[..|b| - 1];
      ArchivedAppend(a, b[..|b| - 1]);
    } else {
      assert a + b == a;
    }
  }

  /** The pages of a listing, one after the other. */
  function Flatten(pages: seq<seq<Entry>>): seq<Entry> {
    if pages == [] then [] else Flatten(pages[..|pages| - 1]) + pages[|pages| - 1]
  }

  /** The eligible entries of every page, page after page. */
  function AllArchived(pages: seq<seq<Entry>>): seq<Entry> {
    if pages == [] then [] else AllArchived(pages[..|pages| - 1]) + Archived(pages[|pages| - 1])
  }

  /** Filtering page by page selects the eligible entries of the whole listing, in order. */
  lemma {:induction false} AllArchivedIsArchivedListing(pages: seq<seq<Entry>>)
    ensures AllArchived(pages) == Archived(Flatten(pages))
  {
    if pages != [] {
      var n := |pages| - 1;
      AllArchivedIsArchivedListing(pages[..n]);
      ArchivedAppend(Flatten(pages[..n]), pages[n]);
    }
  }

  function Contents(responses: seq<Response>): (pages: seq<seq<Entry>>)
    ensures |pages| == |responses|
    ensures forall j :: 0 <= j < |responses| ==> pages[j] == responses[j].contents
  {
    seq(|responses|, j requires 0 <= j < |responses| => responses[j].contents)
  }

  /**
   * A listing the service completes: every response but the last is truncated.
   */
  predicate Completes(responses: seq<Response>) {
    && |responses| > 0
    && !responses[|responses| - 1].isTruncated
    && forall j :: 0 <= j < |responses| - 1 ==> responses[j].isTruncated
  }

  /**
   * get_object_list: calls list_objects_v2 while the last response was truncated,
   * passing the previous NextContinuationToken, and returns the keys of the eligible
   * objects of every page. `responses[i]` is what the i-th call returns; `tokens[i]`
   * is the ContinuationToken that call sends.
   */
  method GetObjectList(responses: seq<Response>) returns (keys: seq<string>, tokens: seq<string>)
    requires Completes(responses)
    ensures keys == Keys(AllArchived(Contents(responses)))
    ensures |tokens| == |responses| && tokens[0] == ""
    ensures forall j :: 0 < j < |tokens| ==> tokens[j] == responses[j - 1].nextToken
  {
    var moreResults := true;
    var nextToken := "";
    var objectList: seq<Entry> := [];
    var calls := 0;
    tokens := [];
    while moreResults
      invariant 0 <= calls <= |responses|
      invariant moreResults <==> calls < |responses|
      invariant |tokens| == calls
      invariant calls > 0 ==> tokens[0] == ""
      invariant forall j :: 0 < j < calls ==> tokens[j] == responses[j - 1].nextToken
      invariant moreResults ==> nextToken == if calls == 0 then "" else responses[calls - 1].nextToken
      invariant objectList == AllArchived(Contents(responses[..calls]))
      decreases |responses| - calls
    {
      tokens := tokens + [nextToken];
      var response := responses[calls];
      var archivedObjects := Archived(response.contents);
      objectList := objectList + archivedObjects;
      assert Contents(responses[..calls + 1])[..calls] == Contents(responses[..calls]);
      if response.isTruncated {
        nextToken := response.nextToken;
      } else {
        moreResults := false;
        nextToken := "";
      }
      calls := calls + 1;
    }
    assert responses[..calls] == responses;
    keys := Keys(objectList);
  }

  /**
   * math.ceil(a / b) for a positive divisor, as the exact ceiling of the quotient; the
   * float division the source performs rounds once the operands reach 2^53.
   */
  function CeilDiv(a: int, b: int): (r: int)
    requires b > 0
    ensures (r - 1) * b < a <= r * b
  {
    var q := -((-a) / b);
    assert (-a) / b * b <= -a < ((-a) / b + 1) * b;
    q
  }

  /** The progress bar's page count when no prefix is given. */
  function PageCount(objectCount: int, maxKeys: int, startAfter: string, startIndex: int): int
    requires maxKeys > 0
  {
    if startAfter == "" then CeilDiv(objectCount, maxKeys) else CeilDiv(objectCount - startIndex, maxKeys)
  }

  /**
   * The page count is the least number of pages of `maxKeys` that holds all objects, or,
   * when resuming after `startAfter`, all objects less `startIndex`.
   */
  lemma {:induction false} PageCountCovers(objectCount: int, maxKeys: int, startAfter: string, startIndex: int)
    requires maxKeys > 0
    ensures var r, rest := PageCount(objectCount, maxKeys, startAfter, startIndex),
                           if startAfter == "" then objectCount else objectCount - startIndex;
      (r - 1) * maxKeys < rest <= r * maxKeys
  {
  }

  lemma {:induction false} PageCountExamples()
    ensures PageCount(2500, 1000, "", -1) == 3
    ensures PageCount(2500, 1000, "b/002.bin", 999) == 2
    ensures PageCount(2000, 1000, "", -1) == 2
  {
  }
}
