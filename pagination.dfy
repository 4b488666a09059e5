/** The paginated collection of bounced and unsubscribed contacts: the page count
    `ceil(total / 100)`, page `index` at offset `100 * index`, each page projected to a
    fixed set of fields, and the pages flattened in page order. */
module Pagination {
  import opened Common

  /** The `limit` of every page request. */
  const PageSize: nat := 100

  /** A contact as the API returns it: a JSON object from field names to values. */
  type Contact = map<string, string>

  /** Which listing is collected: `status=3` (bounced) or `status=2` (unsubscribed). */
  datatype Kind = Bounced | Unsubbed

  /** The fields kept from each contact of a page. */
  function KeptFields(kind: Kind): seq<string>
  {
    match kind
    case Bounced => ["email", "firstName", "lastName", "bounced_date", "id"]
    case Unsubbed => ["email", "firstName", "lastName", "cdate", "udate", "id"]
  }

  /** `math.ceil(total / 100)`: the least page count whose pages cover `total` results. */
  function PageCount(total: nat): (pages: nat)
    ensures pages * PageSize >= total
    ensures pages > 0 ==> (pages - 1) * PageSize < total
  {
    (total + PageSize - 1) / PageSize
  }

  /** The `offset` of page `index`. */
  function Offset(index: nat): nat
  {
    PageSize * index
  }

  /** `{k: c[k] for k in keys if k in c}`: the contact restricted to the kept fields. */
  function Project(c: Contact, keys: seq<string>): (p: Contact)
    ensures p.Keys <= c.Keys
    ensures forall k :: k in keys && k in c ==> k in p && p[k] == c[k]
    ensures forall k :: k in p ==> k in keys
  {
    map k | k in c && k in keys :: c[k]
  }

  /** Each contact of `rows` projected, in order. */
  function ProjectAll(rows: seq<Contact>, keys: seq<string>): (ps: seq<Contact>)
    ensures |ps| == |rows|
  {
    seq(|rows|, i requires 0 <= i < |rows| => Project(rows[i], keys))
  }

  /** The contacts the server returns for `limit` and `offset`, given its whole
      listing: the listing from `offset` on, at most `limit` of them. */
  function ServerPage(listing: seq<Contact>, offset: nat, limit: nat): seq<Contact>
  {
    if offset >= |listing| then []
    else if offset + limit <= |listing| then listing[offset..offset + limit]
    else listing[offset..]
  }

  /** `get_bounced_contacts(index)` / `get_unsubbed_contacts(index)`: page `index`,
      each contact projected to the kept fields of `kind`. */
  function FetchPage(listing: seq<Contact>, index: nat, kind: Kind): seq<Contact>
  {
    ProjectAll(ServerPage(listing, Offset(index), PageSize), KeptFields(kind))
  }

  /** `process_contacts(range(pages), kind)`: one page per index, results in index
      order (joblib's `Parallel` returns results in the order of its inputs). */
  function ProcessContacts(listing: seq<Contact>, pages: nat, kind: Kind): (r: seq<seq<Contact>>)
    ensures |r| == pages
  {
    seq(pages, i requires 0 <= i < pages => FetchPage(listing, i, kind))
  }

  /** The flattened list of contacts for a reported `total`:
      `[i for j in process_contacts(range(ceil(total / 100)), kind) for i in j]`. */
  function Collect(listing: seq<Contact>, total: nat, kind: Kind): seq<Contact>
  {
    Concat(ProcessContacts(listing, PageCount(total), kind))
  }

  /** The pages requested cover the results exactly: every page starts below the
      total, the last one reaches it, no page is requested when the total is 0, and
      every result index lies on the requested page `r / 100`. */
  lemma PagesCover(total: nat)
    ensures total == 0 <==> PageCount(total) == 0
    ensures forall i :: 0 <= i < PageCount(total) ==> Offset(i) < total
    ensures PageCount(total) > 0 ==> Offset(PageCount(total) - 1) + PageSize >= total
    ensures forall r :: 0 <= r < total ==>
              r / PageSize < PageCount(total) && Offset(r / PageSize) <= r < Offset(r / PageSize) + PageSize
  {
  }

  /** Flattening the first `pages` pages gives the projected listing up to where
      those pages end. */
  lemma {:induction false} CollectPrefix(listing: seq<Contact>, pages: nat, kind: Kind)
    requires pages <= PageCount(|listing|)
    ensures var end := if Offset(pages) <= |listing| then Offset(pages) else |listing|;
            Concat(ProcessContacts(listing, pages, kind)) == ProjectAll(listing[..end], KeptFields(kind))
  {
    var keys := KeptFields(kind);
    if pages == 0 {
      assert ProcessContacts(listing, 0, kind) == [];
    } else {
      CollectPrefix(listing, pages - 1, kind);
      var before := ProcessContacts(listing, pages - 1, kind);
      var page := FetchPage(listing, pages - 1, kind);
      assert ProcessContacts(listing, pages, kind) == before + [page];
      ConcatSnoc(before, page);
      var start := Offset(pages - 1);
      var end := if Offset(pages) <= |listing| then Offset(pages) else |listing|;
      LastPageIsSlice(listing, pages);
      assert listing[..end] == listing[..start] + listing[start..end];
      ProjectAllAppend(listing[..start], listing[start..end], keys);
    }
  }

  /** Page `pages - 1`, within the page count, is the listing from its offset to
      where the next page would start, or to the end. */
  lemma LastPageIsSlice(listing: seq<Contact>, pages: nat)
    requires 0 < pages <= PageCount(|listing|)
    ensures var start := Offset(pages - 1);
            var end := if Offset(pages) <= |listing| then Offset(pages) else |listing|;
            start <= end && ServerPage(listing, start, PageSize) == listing[start..end]
  {
  }

  /** Projecting a concatenation projects each part. */
  lemma ProjectAllAppend(a: seq<Contact>, b: seq<Contact>, keys: seq<string>)
    ensures ProjectAll(a + b, keys) == ProjectAll(a, keys) + ProjectAll(b, keys)
  {
  }

  /** When the reported total is the listing's length, collecting the pages gives
      every contact of the listing exactly once, projected, in listing order;
      the length is the sum of the page lengths. */
  lemma CollectIsProjectedListing(listing: seq<Contact>, kind: Kind)
    ensures Collect(listing, |listing|, kind) == ProjectAll(listing, KeptFields(kind))
    ensures |Collect(listing, |listing|, kind)| == TotalLength(ProcessContacts(listing, PageCount(|listing|), kind))
  {
    var pages := PageCount(|listing|);
    CollectPrefix(listing, pages, kind);
    assert listing[..|listing|] == listing;
    ConcatLength(ProcessContacts(listing, pages, kind));
  }
}
