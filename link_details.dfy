/**
 * The link details page: the trailing one-day click count, the lookup of the
 * link by its short code, the page's fetch state and the choice between the
 * error message, "Loading..." and the details.
 */
module LinkDetails {
  import opened Wrappers
  import opened Seqs
  import opened Backend

  // ---------------------------------------------------------------------------
  // Clicks in the last 24 hours
  // ---------------------------------------------------------------------------

  /** One day in milliseconds, the distance `setDate(getDate() - 1)` moves the clock back. */
  const OneDayMs: int := 24 * 60 * 60 * 1000

  /** The clicks strictly later than one day before `now` (`new Date(timestamp) > oneDayAgo`).
      There is no upper bound: a click stamped later than `now` is kept too. */
  function RecentClicks(clickData: seq<int>, now: int): (r: seq<int>)
    ensures forall i :: 0 <= i < |r| ==> r[i] > now - OneDayMs && r[i] in clickData
    ensures forall i :: 0 <= i < |clickData| && clickData[i] > now - OneDayMs ==> clickData[i] in r
  {
    Filter(t => t > now - OneDayMs, clickData)
  }

  /** `calculateClicksLastDay`, with the current time `now` in milliseconds as a parameter. */
  function ClicksLastDay(clickData: seq<int>, now: int): (n: nat)
    ensures n <= |clickData|
  {
    |RecentClicks(clickData, now)|
  }

  /** The count is the number of positions holding a click later than `now` minus one day. */
  lemma ClicksLastDayCounts(clickData: seq<int>, now: int)
    ensures ClicksLastDay(clickData, now)
         == |set i: nat | i < |clickData| && clickData[i] > now - OneDayMs|
  {
    var p := t => t > now - OneDayMs;
    FilterLengthCountsIndices(p, clickData);
    assert IndicesWhere(p, clickData) == set i: nat | i < |clickData| && clickData[i] > now - OneDayMs;
  }

  /** Adding one click anywhere raises the count by one exactly when the click is
      strictly later than `now` minus one day, and never lowers it. */
  lemma ClicksLastDayInsert(before: seq<int>, after: seq<int>, t: int, now: int)
    ensures ClicksLastDay(before + [t] + after, now)
         == ClicksLastDay(before + after, now) + (if t > now - OneDayMs then 1 else 0)
    ensures ClicksLastDay(before + after, now) <= ClicksLastDay(before + [t] + after, now)
  {
    var p := t => t > now - OneDayMs;
    FilterAppend(p, before + [t], after);
    FilterAppend(p, before, [t]);
    FilterAppend(p, before, after);
    assert Filter(p, [t]) == Filter(p, []) + (if p(t) then [t] else []);
  }

  /** The lower bound is strict: a click exactly one day old is not counted. */
  lemma BoundaryClickNotCounted(before: seq<int>, after: seq<int>, now: int)
    ensures ClicksLastDay(before + [now - OneDayMs] + after, now) == ClicksLastDay(before + after, now)
  {
    ClicksLastDayInsert(before, after, now - OneDayMs, now);
  }

  /** Clicks 23 hours ago, 25 hours ago and now: two of them fall in the last day. */
  lemma ClicksLastDayExample(now: int)
    ensures ClicksLastDay([now - 23 * 3600000, now - 25 * 3600000, now], now) == 2
  {
    var p := t => t > now - OneDayMs;
    var s := [now - 23 * 3600000, now - 25 * 3600000, now];
    assert s[..2][..1] == [now - 23 * 3600000];
    assert Filter(p, s[..2][..1]) == [now - 23 * 3600000];
    assert Filter(p, s[..2]) == [now - 23 * 3600000];
    assert Filter(p, s) == [now - 23 * 3600000, now];
  }

  // ---------------------------------------------------------------------------
  // Looking the link up
  // ---------------------------------------------------------------------------

  /** `links.find((l) => l.short === short)` followed by `if (!link) throw new Error("Link not found")`. */
  function FindLink(links: seq<Link>, short: string): (r: Result<Link>)
    ensures r.Ok? <==> exists i :: 0 <= i < |links| && links[i].short == short
    ensures r.Ok? ==> (r.value.short == short
                       && exists i :: 0 <= i < |links| && links[i] == r.value
                                   && forall j :: 0 <= j < i ==> links[j].short != short)
    ensures r.Err? ==> r.message == "Link not found"
  {
    if links == [] then Err("Link not found")
    else if links[0].short == short then Ok(links[0])
    else
      var r := FindLink(links[1..], short);
      assert r.Ok? ==> exists i :: 0 <= i < |links[1..]| && links[1..][i] == r.value
                                && links[i + 1] == r.value
                                && forall j :: 0 <= j < i + 1 ==> links[j].short != short;
      assert (exists i :: 0 <= i < |links| && links[i].short == short)
         ==> exists i :: 0 <= i < |links[1..]| && links[1..][i].short == short;
      r
  }

  // ---------------------------------------------------------------------------
  // What the page shows
  // ---------------------------------------------------------------------------

  /** The three renderings of the page; the details carry the two click figures. */
  datatype View = ErrorView(message: string) | Loading | Details(link: Link, totalClicks: nat, clicksLastDay: nat)

  /** `if (error) ...; if (!linkInfo) ...; return details`. */
  function SelectView(error: Option<string>, linkInfo: Option<Link>, clickData: seq<int>, now: int): (v: View)
    ensures v.Details? ==> v.clicksLastDay <= v.totalClicks == |clickData|
  {
    if Truthy(error) then ErrorView(error.value)
    else if linkInfo.None? then Loading
    else Details(linkInfo.value, |clickData|, ClicksLastDay(clickData, now))
  }

  /** An error is shown whatever the link state; otherwise a missing link shows
      Loading and a known one shows its details. */
  lemma SelectViewCases(error: Option<string>, linkInfo: Option<Link>, clickData: seq<int>, now: int)
    ensures Truthy(error) ==> SelectView(error, linkInfo, clickData, now) == ErrorView(error.value)
    ensures !Truthy(error) && linkInfo.None? ==> SelectView(error, linkInfo, clickData, now) == Loading
    ensures !Truthy(error) && linkInfo.Some? ==>
              SelectView(error, linkInfo, clickData, now)
              == Details(linkInfo.value, |clickData|, ClicksLastDay(clickData, now))
  {
  }

  /** The page's state: `linkInfo`, `clickData` and `error`, for the route's short code. */
  class LinkDetailsPage {
    const short: string
    var linkInfo: Option<Link>
    var clickData: seq<int>
    var error: Option<string>

    constructor(short: string)
      ensures this.short == short && linkInfo == None && clickData == [] && error == None
    {
      this.short := short;
      linkInfo, clickData, error := None, [], None;
    }

    /** What the page renders now, given its state. */
    function View(now: int): (v: View)
      reads this
      ensures v.ErrorView? <==> Truthy(error)
      ensures v.Loading? <==> !Truthy(error) && linkInfo.None?
      ensures v.Details? ==> linkInfo == Some(v.link) && v.totalClicks == |clickData|
                             && v.clicksLastDay == ClicksLastDay(clickData, now)
    {
      SelectView(error, linkInfo, clickData, now)
    }

    /** `fetchLinkInfo`: the clicks are stored as soon as they arrive; the link
        list is fetched only after that, and the first failure sets `error`. */
    method FetchLinkInfo(clickResponse: Response<seq<int>>, linksResponse: Response<seq<Link>>)
      modifies this
      ensures clickResponse.NotOk? ==>
                clickData == old(clickData) && linkInfo == old(linkInfo)
                && error == Some("Failed to fetch click data")
      ensures clickResponse.Rejected? ==>
                clickData == old(clickData) && linkInfo == old(linkInfo)
                && error == Some(clickResponse.message)
      ensures clickResponse.Received? ==> clickData == clickResponse.body
      ensures clickResponse.Received? && linksResponse.NotOk? ==>
                linkInfo == old(linkInfo) && error == Some("Failed to fetch link information")
      ensures clickResponse.Received? && linksResponse.Rejected? ==>
                linkInfo == old(linkInfo) && error == Some(linksResponse.message)
      ensures clickResponse.Received? && linksResponse.Received? ==>
                match FindLink(linksResponse.body, short)
                case Ok(link) => linkInfo == Some(link) && error == old(error)
                case Err(message) => linkInfo == old(linkInfo) && error == Some(message)
      // From the page's first state, a finished fetch leaves "Loading..." only
      // when the error it recorded has an empty message.
      ensures old(error).None? && old(linkInfo).None? ==>
                forall now :: View(now).Loading? <==> error == Some("")
    {
      match clickResponse {
        case NotOk =>
          error := Some("Failed to fetch click data");
        case Rejected(message) =>
          error := Some(message);
        case Received(clicks) =>
          clickData := clicks;
          match linksResponse {
            case NotOk =>
              error := Some("Failed to fetch link information");
            case Rejected(message) =>
              error := Some(message);
            case Received(links) =>
              var found := FindLink(links, short);
              match found {
                case Ok(link) => linkInfo := Some(link);
                case Err(message) => error := Some(message);
              }
          }
      }
    }
  }
}
