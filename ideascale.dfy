/**
 * The IdeaScale API client: endpoint construction, the single GET that
 * either yields a decoded body or aborts, and the paginator that requests
 * idea pages of 50 until a page of any other length comes back.
 *
 * The HTTP transport is an oracle `fetch` from a request (URL and header
 * set) to a response (status code and decoded body).
 */
module Ideascale {
  import opened Wrappers
  import opened Decimal
  import opened Sequences

  /** Page size the paginator asks for, and the length that means "more may follow". */
  const PageSize: nat := 50
  /** The only status the client accepts. */
  const OkStatus: int := 200

  /** Joins path segments into `/s0/s1/.../sn`. */
  function PathOf(segments: seq<string>): string {
    if segments == [] then "" else "/" + segments[0] + PathOf(segments[1..])
  }

  /** `/v1/campaign/{id}` */
  function CampaignEndpoint(id: int): string {
    PathOf(["v1", "campaign", IntToDecimal(id)])
  }

  /** `/v1/campaigns/{campaign_id}/ideas/{page}/{page_size}` */
  function IdeasEndpoint(campaignId: int, page: nat, pageSize: nat): string {
    PathOf(["v1", "campaigns", IntToDecimal(campaignId), "ideas", NatToDecimal(page), NatToDecimal(pageSize)])
  }

  /** `/v1/campaigns/groups/{id}` */
  function GroupEndpoint(id: int): string {
    PathOf(["v1", "campaigns", "groups", IntToDecimal(id)])
  }

  predicate IsSlash(c: char) {
    c == '/'
  }

  /** No segment holds a slash. */
  predicate SlashFree(segments: seq<string>) {
    forall i, k :: 0 <= i < |segments| && 0 <= k < |segments[i]| ==> segments[i][k] != '/'
  }

  /** Splits `s` at its first slash into the part before and the part after it. */
  function SplitAtSlash(s: string): (r: Option<(string, string)>)
    ensures r.None? <==> forall k :: 0 <= k < |s| ==> s[k] != '/'
    ensures r.Some? ==> |r.value.1| < |s|
  {
    match FirstIndexWhere(s, IsSlash)
    case None => None
    case Some(j) => Some((s[..j], s[j + 1..]))
  }

  /** The slash-separated pieces of `s`, in order. */
  function Segments(s: string): seq<string>
    decreases |s|
  {
    match SplitAtSlash(s)
    case None => [s]
    case Some((a, b)) => [a] + Segments(b)
  }

  /** The segments of an absolute path; nothing when it does not start with a slash. */
  function ParsePath(e: string): Option<seq<string>> {
    if e != [] && e[0] == '/' then Some(Segments(e[1..])) else None
  }

  /** Reads the campaign id back out of a campaign endpoint. */
  function ParseCampaignEndpoint(e: string): Option<int> {
    match ParsePath(e)
    case Some(s) => if |s| == 3 && s[0] == "v1" && s[1] == "campaign" then ParseInt(s[2]) else None
    case None => None
  }

  /** Reads the group id back out of a group endpoint. */
  function ParseGroupEndpoint(e: string): Option<int> {
    match ParsePath(e)
    case Some(s) =>
      if |s| == 4 && s[0] == "v1" && s[1] == "campaigns" && s[2] == "groups" then ParseInt(s[3]) else None
    case None => None
  }

  /** Reads (campaign id, page, page size) back out of an ideas endpoint. */
  function ParseIdeasEndpoint(e: string): Option<(int, nat, nat)> {
    match ParsePath(e)
    case None => None
    case Some(s) =>
      if !(|s| == 6 && s[0] == "v1" && s[1] == "campaigns" && s[3] == "ideas") then None
      else match (ParseInt(s[2]), ParseDigits(s[4]), ParseDigits(s[5]))
        case (Some(campaignId), Some(page), Some(pageSize)) => Some((campaignId, page, pageSize))
        case _ => None
  }

  /** Splitting `a + "/" + b` where `a` holds no slash gives back `a` and `b`. */
  lemma SplitAtSlashOf(a: string, b: string)
    requires forall k :: 0 <= k < |a| ==> a[k] != '/'
    ensures SplitAtSlash(a + "/" + b) == Some((a, b))
  {
    var s := a + "/" + b;
    var r := FirstIndexWhere(s, IsSlash);
    assert IsSlash(s[|a|]);
    assert forall j :: 0 <= j < |a| ==> !IsSlash(s[j]);
    assert r == Some(|a|);
    assert s[..|a|] == a;
    assert s[|a| + 1..] == b;
  }

  /** The first segment and the remaining segments of a slash-free list are slash-free. */
  lemma SlashFreeParts(segments: seq<string>)
    requires |segments| >= 1 && SlashFree(segments)
    ensures forall k :: 0 <= k < |segments[0]| ==> segments[0][k] != '/'
    ensures SlashFree(segments[1..])
  {
    var rest := segments[1..];
    forall i, k | 0 <= i < |rest| && 0 <= k < |rest[i]| ensures rest[i][k] != '/' {
      assert rest[i] == segments[i + 1];
    }
  }

  /** The path of a non-empty list is a slash, its first segment and the path of the rest. */
  lemma PathOfCons(segments: seq<string>)
    requires |segments| >= 1
    ensures PathOf(segments) == "/" + (segments[0] + PathOf(segments[1..]))
  {
  }

  /** A slash-free string is a single segment. */
  lemma SegmentsOfSlashFree(a: string)
    requires forall k :: 0 <= k < |a| ==> a[k] != '/'
    ensures Segments(a) == [a]
  {
  }

  /** `a + "/" + b` with a slash-free `a` splits into `a` and the segments of `b`. */
  lemma SegmentsCons(a: string, b: string)
    requires forall k :: 0 <= k < |a| ==> a[k] != '/'
    ensures Segments(a + "/" + b) == [a] + Segments(b)
  {
    SplitAtSlashOf(a, b);
  }

  /** Splitting the first segment followed by the path of the rest gives back all the segments. */
  lemma {:induction false} SegmentsOfPath(segments: seq<string>)
    requires |segments| >= 1 && SlashFree(segments)
    ensures Segments(segments[0] + PathOf(segments[1..])) == segments
  {
    var first, rest := segments[0], segments[1..];
    SlashFreeParts(segments);
    if rest == [] {
      assert first + PathOf(rest) == first;
      SegmentsOfSlashFree(first);
    } else {
      SegmentsOfPath(rest);
      var tail := rest[0] + PathOf(rest[1..]);
      PathOfCons(rest);
      assert first + PathOf(rest) == first + "/" + tail;
      SegmentsCons(first, tail);
      assert [first] + rest == segments;
    }
  }

  /** A path built from slash-free segments parses back into those segments. */
  lemma PathParses(segments: seq<string>)
    requires |segments| >= 1 && SlashFree(segments)
    ensures ParsePath(PathOf(segments)) == Some(segments)
  {
    var tail := segments[0] + PathOf(segments[1..]);
    PathOfCons(segments);
    assert ("/" + tail)[1..] == tail;
    SegmentsOfPath(segments);
  }

  lemma CampaignEndpointParses(id: int)
    ensures ParseCampaignEndpoint(CampaignEndpoint(id)) == Some(id)
  {
    PathParses(["v1", "campaign", IntToDecimal(id)]);
    ParseIntToDecimal(id);
  }

  lemma GroupEndpointParses(id: int)
    ensures ParseGroupEndpoint(GroupEndpoint(id)) == Some(id)
  {
    PathParses(["v1", "campaigns", "groups", IntToDecimal(id)]);
    ParseIntToDecimal(id);
  }

  lemma IdeasEndpointParses(campaignId: int, page: nat, pageSize: nat)
    ensures ParseIdeasEndpoint(IdeasEndpoint(campaignId, page, pageSize)) == Some((campaignId, page, pageSize))
  {
    var p, n := NatToDecimal(page), NatToDecimal(pageSize);
    assert forall k :: 0 <= k < |p| ==> IsDigit(p[k]);
    assert forall k :: 0 <= k < |n| ==> IsDigit(n[k]);
    PathParses(["v1", "campaigns", IntToDecimal(campaignId), "ideas", p, n]);
    ParseIntToDecimal(campaignId);
    ParseNatToDecimal(page);
    ParseNatToDecimal(pageSize);
  }

  /** An HTTP GET: the full URL and the header set sent with it. */
  datatype Request = Request(url: string, headers: map<string, string>)

  /** A response: the status code and the decoded JSON body. */
  datatype Response<B> = Response(status: int, body: B)

  /** The typed form of the client's fatal assertion on a non-200 status. */
  datatype RequestError = RemoteRequestFailed(status: int, url: string)

  /** Items of page `k` when the server cuts `items` into consecutive pages of 50. */
  function Slice<T>(items: seq<T>, k: nat): (page: seq<T>)
    ensures |page| <= PageSize
  {
    if PageSize * k >= |items| then []
    else if PageSize * (k + 1) <= |items| then items[PageSize * k .. PageSize * (k + 1)]
    else items[PageSize * k ..]
  }

  class IdeascaleApi {
    /** Header set attached to every request. */
    const headers: map<string, string>

    constructor (apiToken: string)
      ensures headers == map["api_token" := apiToken]
    {
      headers := map["api_token" := apiToken];
    }

    /** One GET of `baseUrl + endpoint`; anything but status 200 aborts with that status and URL. */
    function GetDataFromApi<B>(fetch: Request -> Response<B>, baseUrl: string, endpoint: string)
      : (r: Result<B, RequestError>)
      ensures var response := fetch(Request(baseUrl + endpoint, headers));
              (r.Success? <==> response.status == OkStatus) &&
              (r.Success? ==> r.value == response.body) &&
              (r.Failure? ==> r.error == RemoteRequestFailed(response.status, baseUrl + endpoint))
    {
      var response := fetch(Request(baseUrl + endpoint, headers));
      if response.status != OkStatus then Failure(RemoteRequestFailed(response.status, baseUrl + endpoint))
      else Success(response.body)
    }

    /** A single campaign document. */
    function GetCampaignById<C>(fetch: Request -> Response<C>, baseUrl: string, id: int)
      : (r: Result<C, RequestError>)
      ensures var response := fetch(Request(baseUrl + CampaignEndpoint(id), headers));
              (r.Success? <==> response.status == OkStatus) &&
              (r.Success? ==> r.value == response.body) &&
              (r.Failure? ==> r.error == RemoteRequestFailed(response.status, baseUrl + CampaignEndpoint(id)))
    {
      GetDataFromApi(fetch, baseUrl, CampaignEndpoint(id))
    }

    /** The document of a campaign group. */
    function GetCampaignByGroup<G>(fetch: Request -> Response<G>, baseUrl: string, id: int)
      : (r: Result<G, RequestError>)
      ensures var response := fetch(Request(baseUrl + GroupEndpoint(id), headers));
              (r.Success? <==> response.status == OkStatus) &&
              (r.Success? ==> r.value == response.body) &&
              (r.Failure? ==> r.error == RemoteRequestFailed(response.status, baseUrl + GroupEndpoint(id)))
    {
      GetDataFromApi(fetch, baseUrl, GroupEndpoint(id))
    }

    /** The outcome of requesting idea page `k` of a campaign. */
    function Page<T>(fetch: Request -> Response<seq<T>>, baseUrl: string, campaignId: int, k: nat)
      : Result<seq<T>, RequestError>
    {
      GetDataFromApi(fetch, baseUrl, IdeasEndpoint(campaignId, k, PageSize))
    }

    /** Page `k` came back with status 200 and exactly 50 items. */
    predicate IsFullPage<T>(fetch: Request -> Response<seq<T>>, baseUrl: string, campaignId: int, k: nat) {
      var page := Page(fetch, baseUrl, campaignId, k);
      page.Success? && |page.value| == PageSize
    }

    /** Items of page `k` (none when the request failed). */
    function PageItems<T>(fetch: Request -> Response<seq<T>>, baseUrl: string, campaignId: int, k: nat): seq<T> {
      match Page(fetch, baseUrl, campaignId, k)
      case Success(items) => items
      case Failure(_) => []
    }

    /** Pages 0 .. n-1 concatenated in request order. */
    function Collected<T>(fetch: Request -> Response<seq<T>>, baseUrl: string, campaignId: int, n: nat): seq<T>
      decreases n
    {
      if n == 0 then [] else Collected(fetch, baseUrl, campaignId, n - 1) + PageItems(fetch, baseUrl, campaignId, n - 1)
    }

    /** Pages 0 .. n-1 all came back full. */
    ghost predicate FullPages<T>(fetch: Request -> Response<seq<T>>, baseUrl: string, campaignId: int, n: nat) {
      n == 0 || (FullPages(fetch, baseUrl, campaignId, n - 1) && IsFullPage(fetch, baseUrl, campaignId, n - 1))
    }

    lemma {:induction false} FullPagesAt<T>(fetch: Request -> Response<seq<T>>, baseUrl: string, campaignId: int,
                                            n: nat, k: nat)
      requires FullPages(fetch, baseUrl, campaignId, n) && k < n
      ensures IsFullPage(fetch, baseUrl, campaignId, k)
    {
      if k < n - 1 {
        FullPagesAt(fetch, baseUrl, campaignId, n - 1, k);
      }
    }

    /** The URLs of idea pages 0 .. n-1, in request order. */
    function PageUrls(baseUrl: string, campaignId: int, n: nat): seq<string> {
      if n == 0 then [] else PageUrls(baseUrl, campaignId, n - 1) + [baseUrl + IdeasEndpoint(campaignId, n - 1, PageSize)]
    }

    lemma {:induction false} PageUrlsAt(baseUrl: string, campaignId: int, n: nat)
      ensures |PageUrls(baseUrl, campaignId, n)| == n
      ensures forall k :: 0 <= k < n ==> PageUrls(baseUrl, campaignId, n)[k] == baseUrl + IdeasEndpoint(campaignId, k, PageSize)
    {
      if n > 0 {
        PageUrlsAt(baseUrl, campaignId, n - 1);
      }
    }

    /**
     * What a run of the paginator that made `calls` requests must have seen and returned:
     * every page before the last was full, the last was not (short, long, empty or failed),
     * and the result is either the last page's failure or all pages concatenated.
     */
    ghost predicate IsPaginationOf<T>(fetch: Request -> Response<seq<T>>, baseUrl: string, campaignId: int,
                                      calls: nat, result: Result<seq<T>, RequestError>)
    {
      calls >= 1 &&
      FullPages(fetch, baseUrl, campaignId, calls - 1) &&
      !IsFullPage(fetch, baseUrl, campaignId, calls - 1) &&
      result == match Page(fetch, baseUrl, campaignId, calls - 1)
                case Failure(e) => Failure(e)
                case Success(_) => Success(Collected(fetch, baseUrl, campaignId, calls))
    }

    /**
     * `get_proposals_by_campaign_id`: request pages 0, 1, 2, ... of 50 ideas until one page
     * does not hold exactly 50.  `stop` is any page the server does not fill; without one
     * the Python method loops forever.  Also returns the number of requests and their URLs.
     */
    method GetProposalsByCampaignId<T>(fetch: Request -> Response<seq<T>>, baseUrl: string, campaignId: int,
                                       ghost stop: nat)
      returns (result: Result<seq<T>, RequestError>, calls: nat, urls: seq<string>)
      requires !IsFullPage(fetch, baseUrl, campaignId, stop)
      ensures IsPaginationOf(fetch, baseUrl, campaignId, calls, result)
      ensures calls <= stop + 1
      ensures |urls| == calls
      ensures forall k :: 0 <= k < calls ==> urls[k] == baseUrl + IdeasEndpoint(campaignId, k, PageSize)
    {
      var page: nat := 0;
      var responseSize := PageSize;
      var proposals: seq<T> := [];
      urls := [];
      while responseSize == PageSize
        invariant page <= stop + 1
        invariant responseSize == PageSize ==> page <= stop
        invariant |urls| == page
        invariant urls == PageUrls(baseUrl, campaignId, page)
        invariant page > 0 ==> FullPages(fetch, baseUrl, campaignId, page - 1)
        invariant page == 0 ==> responseSize == PageSize
        invariant page > 0 ==> Page(fetch, baseUrl, campaignId, page - 1).Success?
        invariant page > 0 ==> responseSize == |PageItems(fetch, baseUrl, campaignId, page - 1)|
        invariant proposals == Collected(fetch, baseUrl, campaignId, page)
        decreases stop + 1 - page
      {
        var endpoint := IdeasEndpoint(campaignId, page, PageSize);
        var chunk := GetDataFromApi(fetch, baseUrl, endpoint);
        urls := urls + [baseUrl + endpoint];
        if chunk.Failure? {
          PageUrlsAt(baseUrl, campaignId, page + 1);
          return Failure(chunk.error), page + 1, urls;
        }
        proposals := proposals + chunk.value;
        page := page + 1;
        responseSize := |chunk.value|;
      }
      PageUrlsAt(baseUrl, campaignId, page);
      return Success(proposals), page, urls;
    }

    /** Two runs against the same server make the same number of calls and return the same result. */
    lemma PaginationDeterministic<T>(fetch: Request -> Response<seq<T>>, baseUrl: string, campaignId: int,
                                     calls1: nat, result1: Result<seq<T>, RequestError>,
                                     calls2: nat, result2: Result<seq<T>, RequestError>)
      requires IsPaginationOf(fetch, baseUrl, campaignId, calls1, result1)
      requires IsPaginationOf(fetch, baseUrl, campaignId, calls2, result2)
      ensures calls1 == calls2 && result1 == result2
    {
      var last1: nat, last2: nat := calls1 - 1, calls2 - 1;
      if last1 < last2 {
        FullPagesAt(fetch, baseUrl, campaignId, last2, last1);
      }
      if last2 < last1 {
        FullPagesAt(fetch, baseUrl, campaignId, last1, last2);
      }
    }

    lemma {:induction false} CollectedLength<T>(fetch: Request -> Response<seq<T>>, baseUrl: string,
                                                campaignId: int, n: nat)
      requires FullPages(fetch, baseUrl, campaignId, n)
      ensures |Collected(fetch, baseUrl, campaignId, n)| == PageSize * n
    {
      if n > 0 {
        CollectedLength(fetch, baseUrl, campaignId, n - 1);
        assert |PageItems(fetch, baseUrl, campaignId, n - 1)| == PageSize;
      }
    }

    /** A successful run of `calls` requests returns 50 items per full page plus the last page. */
    lemma PaginationLength<T>(fetch: Request -> Response<seq<T>>, baseUrl: string, campaignId: int,
                              calls: nat, result: Result<seq<T>, RequestError>)
      requires IsPaginationOf(fetch, baseUrl, campaignId, calls, result)
      requires result.Success?
      ensures |result.value| == PageSize * (calls - 1) + |PageItems(fetch, baseUrl, campaignId, calls - 1)|
      ensures |PageItems(fetch, baseUrl, campaignId, calls - 1)| != PageSize
    {
      CollectedLength(fetch, baseUrl, campaignId, calls - 1);
    }

    /**
     * A failed request among those made is the last one, and the whole run then fails with
     * its status and URL: no partial list is returned.
     */
    lemma PaginationFailureIsTotal<T>(fetch: Request -> Response<seq<T>>, baseUrl: string, campaignId: int,
                                      calls: nat, result: Result<seq<T>, RequestError>, k: nat)
      requires IsPaginationOf(fetch, baseUrl, campaignId, calls, result)
      requires k < calls && Page(fetch, baseUrl, campaignId, k).Failure?
      ensures k == calls - 1 && result.Failure?
      ensures result.error == RemoteRequestFailed(Page(fetch, baseUrl, campaignId, k).error.status,
                                                  baseUrl + IdeasEndpoint(campaignId, k, PageSize))
    {
      if k < calls - 1 {
        FullPagesAt(fetch, baseUrl, campaignId, calls - 1, k);
      }
    }

    /** Distinct pages are requested at distinct URLs. */
    lemma PageUrlsDistinct(baseUrl: string, campaignId: int, k1: nat, k2: nat)
      requires k1 != k2
      ensures baseUrl + IdeasEndpoint(campaignId, k1, PageSize) != baseUrl + IdeasEndpoint(campaignId, k2, PageSize)
    {
      var e1, e2 := IdeasEndpoint(campaignId, k1, PageSize), IdeasEndpoint(campaignId, k2, PageSize);
      if baseUrl + e1 == baseUrl + e2 {
        assert e1 == (baseUrl + e1)[|baseUrl|..];
        assert e2 == (baseUrl + e2)[|baseUrl|..];
        IdeasEndpointParses(campaignId, k1, PageSize);
        IdeasEndpointParses(campaignId, k2, PageSize);
      }
    }

    /** The server cuts `items` into pages of 50 and answers every page with status 200. */
    ghost predicate ServesSlices<T>(fetch: Request -> Response<seq<T>>, baseUrl: string, campaignId: int, items: seq<T>) {
      forall k: nat :: Page(fetch, baseUrl, campaignId, k) == Success(Slice(items, k))
    }

    lemma {:induction false} SlicesCollect<T>(fetch: Request -> Response<seq<T>>, baseUrl: string, campaignId: int,
                                              items: seq<T>, n: nat)
      requires ServesSlices(fetch, baseUrl, campaignId, items)
      requires PageSize * n <= |items|
      ensures Collected(fetch, baseUrl, campaignId, n) == items[..PageSize * n]
    {
      if n > 0 {
        SlicesCollect(fetch, baseUrl, campaignId, items, n - 1);
        assert Page(fetch, baseUrl, campaignId, n - 1) == Success(Slice(items, n - 1));
        assert Slice(items, n - 1) == items[PageSize * (n - 1) .. PageSize * n];
        assert PageItems(fetch, baseUrl, campaignId, n - 1) == items[PageSize * (n - 1) .. PageSize * n];
        assert items[..PageSize * (n - 1)] + items[PageSize * (n - 1) .. PageSize * n] == items[..PageSize * n];
      }
    }

    /** Against such a server every page before |items| / 50 is full and that page is not. */
    lemma SlicedPageFull<T>(fetch: Request -> Response<seq<T>>, baseUrl: string, campaignId: int,
                            items: seq<T>, k: nat)
      requires ServesSlices(fetch, baseUrl, campaignId, items)
      ensures IsFullPage(fetch, baseUrl, campaignId, k) <==> k < |items| / PageSize
    {
      assert Page(fetch, baseUrl, campaignId, k) == Success(Slice(items, k));
    }

    /** Against such a server a run stops at page |items| / 50. */
    lemma SlicedRunStops<T>(fetch: Request -> Response<seq<T>>, baseUrl: string, campaignId: int,
                            items: seq<T>, calls: nat, result: Result<seq<T>, RequestError>)
      requires ServesSlices(fetch, baseUrl, campaignId, items)
      requires IsPaginationOf(fetch, baseUrl, campaignId, calls, result)
      ensures calls == |items| / PageSize + 1
    {
      var q: nat, last: nat := |items| / PageSize, calls - 1;
      SlicedPageFull(fetch, baseUrl, campaignId, items, q);
      SlicedPageFull(fetch, baseUrl, campaignId, items, last);
      if q < last {
        FullPagesAt(fetch, baseUrl, campaignId, last, q);
      }
    }

    /**
     * Against a server that pages a finite list, page |items| / 50 is the first one not full
     * (so the paginator can be run with that `stop`), the run makes |items| / 50 + 1 requests,
     * returns the list, and fetches one extra empty page when |items| is a multiple of 50.
     */
    lemma SlicedServerPagination<T>(fetch: Request -> Response<seq<T>>, baseUrl: string, campaignId: int,
                                    items: seq<T>, calls: nat, result: Result<seq<T>, RequestError>)
      requires ServesSlices(fetch, baseUrl, campaignId, items)
      ensures !IsFullPage(fetch, baseUrl, campaignId, |items| / PageSize)
      ensures IsPaginationOf(fetch, baseUrl, campaignId, calls, result) ==>
                calls == |items| / PageSize + 1 && result == Success(items) &&
                (|items| % PageSize == 0 ==> PageItems(fetch, baseUrl, campaignId, calls - 1) == [])
    {
      var q: nat := |items| / PageSize;
      SlicedPageFull(fetch, baseUrl, campaignId, items, q);
      if IsPaginationOf(fetch, baseUrl, campaignId, calls, result) {
        SlicedRunStops(fetch, baseUrl, campaignId, items, calls, result);
        assert Page(fetch, baseUrl, campaignId, q) == Success(Slice(items, q));
        SlicesCollect(fetch, baseUrl, campaignId, items, q);
        assert items[..PageSize * q] + Slice(items, q) == items;
      }
    }
  }
}
