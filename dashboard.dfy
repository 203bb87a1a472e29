/**
 * The dashboard's list of links and the three handlers that change it: the
 * initial fetch, shortening a URL, and deleting a link. Deleting only hides the
 * link in this view; nothing is sent to the backend.
 */
module Dashboard {
  import opened Wrappers
  import opened Seqs
  import opened Backend

  /** The filter's test: the link's short code differs from `short`. */
  function HasOtherCode(short: string): (keep: Link -> bool)
    ensures forall l :: keep(l) <==> l.short != short
  {
    (l: Link) => l.short != short
  }

  /** `prevLinks.filter((link) => link.short !== short)`. */
  function HideLocally(links: seq<Link>, short: string): (r: seq<Link>)
    ensures forall i :: 0 <= i < |r| ==> r[i].short != short && r[i] in links
    ensures forall i :: 0 <= i < |links| && links[i].short != short ==> links[i] in r
  {
    Filter(HasOtherCode(short), links)
  }

  /** Every link with another short code keeps all its copies, and links with
      this short code lose all of theirs. */
  lemma HideLocallyKeepsOthers(links: seq<Link>, short: string)
    ensures forall l :: multiset(HideLocally(links, short))[l]
                        == if l.short != short then multiset(links)[l] else 0
  {
    FilterMultiset(HasOtherCode(short), links);
  }

  /** Hiding works piece by piece, so the kept links stay in their relative order. */
  lemma HideLocallyAppend(a: seq<Link>, b: seq<Link>, short: string)
    ensures HideLocally(a + b, short) == HideLocally(a, short) + HideLocally(b, short)
  {
    FilterAppend(HasOtherCode(short), a, b);
  }

  /** Hiding a short code that is not listed changes nothing. */
  lemma HideAbsentIsIdentity(links: seq<Link>, short: string)
    requires forall i :: 0 <= i < |links| ==> links[i].short != short
    ensures HideLocally(links, short) == links
  {
    FilterAllPass(HasOtherCode(short), links);
  }

  /** Deleting the same link twice is the same as deleting it once. */
  lemma HideLocallyIdempotent(links: seq<Link>, short: string)
    ensures HideLocally(HideLocally(links, short), short) == HideLocally(links, short)
  {
    FilterIdempotent(HasOtherCode(short), links);
  }

  /** The dashboard's `url`, `links` and `error` state. */
  class DashboardPage {
    var url: string
    var links: seq<Link>
    var error: Option<string>

    constructor()
      ensures url == "" && links == [] && error == None
    {
      url, links, error := "", [], None;
    }

    /** The URL input's `onChange`. */
    method SetUrl(value: string)
      modifies this
      ensures url == value && links == old(links) && error == old(error)
    {
      url := value;
    }

    /** `fetchLinks`: a received list replaces the whole list; a failure keeps it and sets `error`. */
    method FetchLinks(response: Response<seq<Link>>)
      modifies this
      ensures url == old(url)
      ensures response.Received? ==> links == response.body && error == old(error)
      ensures response.NotOk? ==> links == old(links) && error == Some("Failed to fetch links")
      ensures response.Rejected? ==> links == old(links) && error == Some(response.message)
    {
      match response {
        case Received(data) => links := data;
        case NotOk => error := Some("Failed to fetch links");
        case Rejected(message) => error := Some(message);
      }
    }

    /** `handleShorten`: `error` is cleared first; the new link goes in front and
        the input is emptied, or on failure the list and input stay as they were. */
    method HandleShorten(response: Response<Link>)
      modifies this
      ensures response.Received? ==>
                links == [response.body] + old(links) && url == "" && error == None
      ensures response.NotOk? ==>
                links == old(links) && url == old(url) && error == Some("Write the correct URL")
      ensures response.Rejected? ==>
                links == old(links) && url == old(url) && error == Some(response.message)
    {
      error := None;
      match response {
        case Received(newLink) =>
          links := [newLink] + links;
          url := "";
        case NotOk =>
          error := Some("Write the correct URL");
        case Rejected(message) =>
          error := Some(message);
      }
    }

    /** `handleDelete`: hides the link in this view only. */
    method HandleDelete(short: string)
      modifies this
      ensures links == HideLocally(old(links), short)
      ensures url == old(url) && error == old(error)
    {
      links := HideLocally(links, short);
    }
  }

  /** A refetch after a delete: the fetched list replaces the whole local list,
      so nothing of the local deletion survives. This only illustrates the
      refetch; the server side, where the link was never deleted, is not modelled. */
  method DeleteThenRefetch(page: DashboardPage, short: string, server: seq<Link>)
    modifies page
    ensures page.links == server
  {
    page.HandleDelete(short);
    page.FetchLinks(Received(server));
  }
}
