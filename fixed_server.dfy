/**
 * A well-behaved server: it holds a fixed list of users and answers a page
 * request with the page's slice of that list, reporting the list's length as
 * the total. Per page it either serves JSON or refuses JSON (406), in which
 * case the XML request for that page is served. Against such a server the
 * listing always ends and returns the whole list, whatever the format of
 * each page.
 */
module FixedServer {
  import opened Wrappers
  import opened Text
  import opened Rest
  import opened Pagination

  function Min(a: int, b: int): int {
    if a <= b then a else b
  }

  lemma {:induction false} MulMonotone(a: nat, b: nat, c: nat)
    requires a <= b
    ensures a * c <= b * c
    decreases b - a
  {
    if a < b {
      MulMonotone(a + 1, b, c);
      assert (a + 1) * c == a * c + c;
    }
  }

  lemma PageOffset(page: nat, pageSize: nat)
    requires 1 <= page
    ensures (page - 1) * pageSize + pageSize == page * pageSize
    ensures 0 <= (page - 1) * pageSize
  {
    MulMonotone(0, page - 1, pageSize);
  }

  lemma DivisionBounds(n: nat, d: nat)
    requires 1 <= d
    ensures (n / d) * d <= n < (n / d) * d + d
  {
  }

  /** The users on `page` when `all` is cut into pages of `pageSize`. */
  function Slice(all: seq<User>, pageSize: nat, page: nat): seq<User> {
    if page == 0 then []
    else
      PageOffset(page, pageSize);
      var lo := Min((page - 1) * pageSize, |all|);
      all[lo..Min(lo + pageSize, |all|)]
  }

  function JsonPage(all: seq<User>, pageSize: nat, page: nat): Reply {
    Reply(200, "application/json", "", JsonDoc(Some(Slice(all, pageSize, page)), Some(|all|)))
  }

  const NotAcceptable: Reply := Reply(406, "text/plain", "", Unparsable)

  function XmlPage(all: seq<User>, pageSize: nat, page: nat): Reply {
    Reply(200, "application/xml", "", XmlDoc(Some(Slice(all, pageSize, page)), None))
  }

  /** The server holding `all`; `jsonOn(page)` says whether it serves `page` as JSON. */
  function SliceServer(all: seq<User>, pageSize: nat, jsonOn: nat -> bool): Server {
    (page: nat, format: Format) =>
      match format
      case Json => if jsonOn(page) then JsonPage(all, pageSize, page) else NotAcceptable
      case Xml => XmlPage(all, pageSize, page)
  }

  function AlwaysJson(page: nat): bool { true }
  function NeverJson(page: nat): bool { false }

  lemma RepliesAccepted(all: seq<User>, pageSize: nat, page: nat)
    ensures JsonAccepted(JsonPage(all, pageSize, page))
    ensures !JsonAccepted(NotAcceptable)
    ensures XmlAccepted(XmlPage(all, pageSize, page))
  {
    LowerOfLowerCase("application/xml");
    LowerOfLowerCase("application/json");
    var x := Lower("application/xml");
    assert OccursAt(x, "xml", 12);
    ContainsIff(x, "xml");
    assert Lower("application/json") == "application/json";
  }

  /**
   * One pass against the fixed server, at the page whose slice starts at
   * `offset`: it keeps that slice and goes on exactly when the page was full
   * and, for JSON, did not reach the total.
   */
  lemma SliceStep(all: seq<User>, pageSize: nat, jsonOn: nat -> bool, page: nat, offset: nat)
    requires 1 <= pageSize && 1 <= page
    requires offset == (page - 1) * pageSize && offset <= |all|
    ensures var step := PageStep(SliceServer(all, pageSize, jsonOn), pageSize, page);
      && step.asks == (if jsonOn(page) then [Ask(page, Json)] else [Ask(page, Json), Ask(page, Xml)])
      && !step.verdict.Fail?
      && step.verdict.batch == all[offset..Min(offset + pageSize, |all|)]
      && (step.verdict.More? <==>
            if jsonOn(page) then offset + pageSize < |all| else offset + pageSize <= |all|)
  {
    PageOffset(page, pageSize);
    RepliesAccepted(all, pageSize, page);
    var server := SliceServer(all, pageSize, jsonOn);
    assert server(page, Json) == if jsonOn(page) then JsonPage(all, pageSize, page) else NotAcceptable;
    assert server(page, Xml) == XmlPage(all, pageSize, page);
    assert Slice(all, pageSize, page) == all[offset..Min(offset + pageSize, |all|)];
  }

  lemma {:induction false} SliceRunFrom(all: seq<User>, pageSize: nat, jsonOn: nat -> bool, page: nat, offset: nat, stop: nat)
    requires 1 <= pageSize && 1 <= page <= stop
    requires offset == (page - 1) * pageSize && offset <= |all|
    requires EndsAt(SliceServer(all, pageSize, jsonOn), pageSize, stop)
    ensures Run(SliceServer(all, pageSize, jsonOn), pageSize, page, stop).outcome == Success(all[offset..])
    decreases stop - page
  {
    var server := SliceServer(all, pageSize, jsonOn);
    SliceStep(all, pageSize, jsonOn, page, offset);
    PageOffset(page, pageSize);
    var step := PageStep(server, pageSize, page);
    if step.verdict.More? {
      SliceRunFrom(all, pageSize, jsonOn, page + 1, offset + pageSize, stop);
      assert all[offset..] == all[offset..offset + pageSize] + all[offset + pageSize..];
    } else {
      assert Min(offset + pageSize, |all|) == |all|;
      assert all[offset..|all|] == all[offset..];
    }
  }

  /**
   * Against the fixed server the listing ends, at page `|all| / pageSize + 1`
   * at the latest, and returns exactly the server's list, in order, whichever
   * pages come back as JSON and whichever as XML.
   */
  lemma SliceServerListsAll(all: seq<User>, pageSize: nat, jsonOn: nat -> bool)
    requires 1 <= pageSize
    ensures EndsAt(SliceServer(all, pageSize, jsonOn), pageSize, |all| / pageSize + 1)
    ensures Terminates(SliceServer(all, pageSize, jsonOn), pageSize)
    ensures forall stop | EndsAt(SliceServer(all, pageSize, jsonOn), pageSize, stop) ::
      Run(SliceServer(all, pageSize, jsonOn), pageSize, 1, stop).outcome == Success(all)
  {
    var q := |all| / pageSize;
    DivisionBounds(|all|, pageSize);
    var k := q + 1;
    assert k - 1 == q;
    SliceStep(all, pageSize, jsonOn, k, q * pageSize);
    assert EndsAt(SliceServer(all, pageSize, jsonOn), pageSize, k);
    forall stop | EndsAt(SliceServer(all, pageSize, jsonOn), pageSize, stop)
      ensures Run(SliceServer(all, pageSize, jsonOn), pageSize, 1, stop).outcome == Success(all)
    {
      SliceRunFrom(all, pageSize, jsonOn, 1, 0, stop);
    }
  }

  /**
   * `list_site_users` run against a transport that answers every page request
   * of the listing as the fixed-list server does: it ends, and returns exactly
   * the server's list, in order.
   */
  method ListFixedList(transport: HttpRequest -> Reply, target: Target, all: seq<User>, pageSize: nat, jsonOn: nat -> bool)
    returns (result: Result<seq<User>, Error>, asks: seq<Ask>)
    requires 1 <= pageSize
    requires forall p: nat, f: Format ::
      transport(PageRequest(target, pageSize, p, f)) == SliceServer(all, pageSize, jsonOn)(p, f)
    ensures result == Success(all)
  {
    ghost var server := AsServer(transport, target, pageSize);
    ghost var slices := SliceServer(all, pageSize, jsonOn);
    ghost var k := |all| / pageSize + 1;
    SliceServerListsAll(all, pageSize, jsonOn);
    assert forall p: nat, f: Format :: slices(p, f) == server(p, f);
    RunCongruent(slices, server, pageSize, 1, k);
    result, asks := ListSiteUsers(transport, target, pageSize);
  }

  /** JSON requests for `count` pages from `page` on. */
  function JsonAsks(page: nat, count: nat): seq<Ask>
    decreases count
  {
    if count == 0 then [] else [Ask(page, Json)] + JsonAsks(page + 1, count - 1)
  }

  /** JSON and XML requests for each of `count` pages from `page` on. */
  function XmlAsks(page: nat, count: nat): seq<Ask>
    decreases count
  {
    if count == 0 then [] else [Ask(page, Json), Ask(page, Xml)] + XmlAsks(page + 1, count - 1)
  }

  /** `last` is the first page whose end reaches `n` users (page 1 when there are none). */
  predicate JsonLastPage(n: nat, pageSize: nat, last: nat) {
    1 <= last && n <= last * pageSize && (last == 1 || (last - 1) * pageSize < n)
  }

  /** `last` is the first page whose end lies beyond `n` users. */
  predicate XmlLastPage(n: nat, pageSize: nat, last: nat) {
    1 <= last && n < last * pageSize && (last - 1) * pageSize <= n
  }

  lemma {:induction false} JsonOnlyAsksFrom(all: seq<User>, pageSize: nat, page: nat, last: nat)
    requires 1 <= pageSize && 1 <= page <= last && JsonLastPage(|all|, pageSize, last)
    ensures EndsAt(SliceServer(all, pageSize, AlwaysJson), pageSize, last)
    ensures Run(SliceServer(all, pageSize, AlwaysJson), pageSize, page, last).asks == JsonAsks(page, last - page + 1)
    decreases last - page
  {
    PageOffset(page, pageSize);
    PageOffset(last, pageSize);
    MulMonotone(page - 1, last - 1, pageSize);
    SliceStep(all, pageSize, AlwaysJson, last, (last - 1) * pageSize);
    SliceStep(all, pageSize, AlwaysJson, page, (page - 1) * pageSize);
    if page < last {
      MulMonotone(page, last - 1, pageSize);
      JsonOnlyAsksFrom(all, pageSize, page + 1, last);
    }
  }

  lemma {:induction false} XmlOnlyAsksFrom(all: seq<User>, pageSize: nat, page: nat, last: nat)
    requires 1 <= pageSize && 1 <= page <= last && XmlLastPage(|all|, pageSize, last)
    ensures EndsAt(SliceServer(all, pageSize, NeverJson), pageSize, last)
    ensures Run(SliceServer(all, pageSize, NeverJson), pageSize, page, last).asks == XmlAsks(page, last - page + 1)
    decreases last - page
  {
    PageOffset(page, pageSize);
    PageOffset(last, pageSize);
    MulMonotone(page - 1, last - 1, pageSize);
    SliceStep(all, pageSize, NeverJson, last, (last - 1) * pageSize);
    SliceStep(all, pageSize, NeverJson, page, (page - 1) * pageSize);
    if page < last {
      MulMonotone(page, last - 1, pageSize);
      XmlOnlyAsksFrom(all, pageSize, page + 1, last);
    }
  }

  /** 2500 users in pages of 1000 served as JSON: exactly pages 1, 2 and 3 are requested. */
  lemma TwentyFiveHundredUsers(all: seq<User>)
    requires |all| == 2500
    ensures var server := SliceServer(all, 1000, AlwaysJson);
      && EndsAt(server, 1000, 3)
      && Run(server, 1000, 1, 3) == Listing([Ask(1, Json), Ask(2, Json), Ask(3, Json)], Success(all))
  {
    JsonOnlyAsksFrom(all, 1000, 1, 3);
    SliceServerListsAll(all, 1000, AlwaysJson);
    assert JsonAsks(1, 3) == [Ask(1, Json), Ask(2, Json), Ask(3, Json)];
  }

  /** 2000 users in pages of 1000 served as JSON: the total ends the listing after page 2. */
  lemma TwoThousandUsersAsJson(all: seq<User>)
    requires |all| == 2000
    ensures var server := SliceServer(all, 1000, AlwaysJson);
      && EndsAt(server, 1000, 2)
      && Run(server, 1000, 1, 2) == Listing([Ask(1, Json), Ask(2, Json)], Success(all))
  {
    JsonOnlyAsksFrom(all, 1000, 1, 2);
    SliceServerListsAll(all, 1000, AlwaysJson);
    assert JsonAsks(1, 2) == [Ask(1, Json), Ask(2, Json)];
  }

  /**
   * The same 2000 users served as XML: only a short page ends the listing, so
   * page 3 is requested as well and comes back empty.
   */
  lemma TwoThousandUsersAsXml(all: seq<User>)
    requires |all| == 2000
    ensures var server := SliceServer(all, 1000, NeverJson);
      && EndsAt(server, 1000, 3)
      && Run(server, 1000, 1, 3) == Listing(
           [Ask(1, Json), Ask(1, Xml), Ask(2, Json), Ask(2, Xml), Ask(3, Json), Ask(3, Xml)], Success(all))
      && PageBatch(server, 1000, 3) == []
  {
    XmlOnlyAsksFrom(all, 1000, 1, 3);
    SliceServerListsAll(all, 1000, NeverJson);
    XmlAsksOneToThree();
    SliceStep(all, 1000, NeverJson, 3, 2000);
  }

  lemma XmlAsksOneToThree()
    ensures XmlAsks(1, 3) == [Ask(1, Json), Ask(1, Xml), Ask(2, Json), Ask(2, Xml), Ask(3, Json), Ask(3, Xml)]
  {
    assert XmlAsks(4, 0) == [];
    assert XmlAsks(3, 1) == [Ask(3, Json), Ask(3, Xml)];
    assert XmlAsks(2, 2) == [Ask(2, Json), Ask(2, Xml), Ask(3, Json), Ask(3, Xml)];
  }
}
