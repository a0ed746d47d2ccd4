/**
 * The paginated user listing (`list_site_users`).
 *
 * Every page is first requested as JSON; when that reply is not an accepted
 * JSON reply, the same page is requested again as XML. A JSON page ends the
 * listing when `page * pageSize` reaches the reported total (the batch size
 * when the total is missing) or the batch is empty; an XML page ends it when
 * the batch is empty or shorter than `pageSize`. A rejected XML reply aborts
 * the whole listing.
 *
 * `PageStep` and `Run` specify one pass of the loop and the whole loop as
 * functions of the server's replies; `ListSiteUsers` is the loop itself.
 */
module Pagination {
  import opened Wrappers
  import opened Text
  import opened Rest

  /** The server as one listing run sees it: its reply to a request for a page in a format. */
  type Server = (nat, Format) -> Reply

  /** The server that a transport presents to the listing of `target`. */
  function AsServer(transport: HttpRequest -> Reply, target: Target, pageSize: nat): Server {
    (page: nat, format: Format) => transport(PageRequest(target, pageSize, page, format))
  }

  /** One request the listing sends: a page number and the representation asked for. */
  datatype Ask = Ask(page: nat, format: Format)

  /** What one pass of the loop concludes. */
  datatype Verdict =
    | More(batch: seq<User>)   // keep the batch and go on with the next page
    | Last(batch: seq<User>)   // keep the batch and return the users
    | Fail(error: Error)       // raise

  datatype Step = Step(asks: seq<Ask>, verdict: Verdict)

  /** `data.get("users", {}).get("user", [])` */
  function JsonBatch(doc: Doc): seq<User>
    requires doc.JsonDoc?
  {
    doc.users.GetOr([])
  }

  /** `int(data.get("pagination", {}).get("totalAvailable", len(batch)))` */
  function JsonTotal(doc: Doc): int
    requires doc.JsonDoc?
  {
    doc.totalAvailable.GetOr(|JsonBatch(doc)|)
  }

  /** The attribute maps of the `t:user` children of `t:users`, none when that element is missing. */
  function XmlBatch(doc: Doc): seq<User>
    requires doc.XmlDoc?
  {
    doc.usersElement.GetOr([])
  }

  /** The requests one pass sends for `page`: JSON, and XML only when the JSON reply is rejected. */
  function StepAsks(server: Server, page: nat): seq<Ask> {
    if JsonAccepted(server(page, Json)) then [Ask(page, Json)] else [Ask(page, Json), Ask(page, Xml)]
  }

  /** One pass of the loop body for `page`. */
  function PageStep(server: Server, pageSize: nat, page: nat): Step {
    var json := server(page, Json);
    if JsonAccepted(json) then
      if !json.doc.JsonDoc? then Step([Ask(page, Json)], Fail(MalformedReply))
      else if page * pageSize >= JsonTotal(json.doc) || JsonBatch(json.doc) == [] then
        Step([Ask(page, Json)], Last(JsonBatch(json.doc)))
      else
        Step([Ask(page, Json)], More(JsonBatch(json.doc)))
    else
      var xml := server(page, Xml);
      var asks := [Ask(page, Json), Ask(page, Xml)];
      if !XmlAccepted(xml) then Step(asks, Fail(UsersFailed(xml.status, xml.contentType, Snippet(xml.text))))
      else if !xml.doc.XmlDoc? then Step(asks, Fail(MalformedReply))
      else if XmlBatch(xml.doc) == [] || |XmlBatch(xml.doc)| < pageSize then Step(asks, Last(XmlBatch(xml.doc)))
      else Step(asks, More(XmlBatch(xml.doc)))
  }

  /** The requests a listing sent and what it returned or raised. */
  datatype Listing = Listing(asks: seq<Ask>, outcome: Result<seq<User>, Error>)

  /** Page `stop` ends the listing if the loop ever reaches it. */
  predicate EndsAt(server: Server, pageSize: nat, stop: nat) {
    1 <= stop && !PageStep(server, pageSize, stop).verdict.More?
  }

  /** Some page ends the listing: the server does not serve full pages forever. */
  ghost predicate Terminates(server: Server, pageSize: nat) {
    exists stop: nat :: EndsAt(server, pageSize, stop)
  }

  /** Earlier requests and users in front of a listing; an error discards the users. */
  function Prepend(users: seq<User>, asks: seq<Ask>, rest: Listing): Listing {
    Listing(asks + rest.asks,
      match rest.outcome
      case Success(later) => Success(users + later)
      case Failure(e) => Failure(e))
  }

  /** The listing from `page` on; `stop` is any page that ends it and only bounds the recursion. */
  function Run(server: Server, pageSize: nat, page: nat, stop: nat): Listing
    requires 1 <= page <= stop && EndsAt(server, pageSize, stop)
    decreases stop - page
  {
    var step := PageStep(server, pageSize, page);
    match step.verdict
    case More(batch) => Prepend(batch, step.asks, Run(server, pageSize, page + 1, stop))
    case Last(batch) => Listing(step.asks, Success(batch))
    case Fail(e) => Listing(step.asks, Failure(e))
  }

  /** The listing does not depend on which ending page bounds the recursion. */
  lemma {:induction false} RunStopIrrelevant(server: Server, pageSize: nat, page: nat, s1: nat, s2: nat)
    requires 1 <= page <= s1 && EndsAt(server, pageSize, s1)
    requires page <= s2 && EndsAt(server, pageSize, s2)
    ensures Run(server, pageSize, page, s1) == Run(server, pageSize, page, s2)
    decreases s1 - page
  {
    if PageStep(server, pageSize, page).verdict.More? {
      RunStopIrrelevant(server, pageSize, page + 1, s1, s2);
    }
  }

  /** Servers that give the same reply to every request give the same pass. */
  lemma StepCongruent(s1: Server, s2: Server, pageSize: nat, page: nat)
    requires forall p: nat, f: Format :: s1(p, f) == s2(p, f)
    ensures PageStep(s1, pageSize, page) == PageStep(s2, pageSize, page)
  {
    assert s1(page, Json) == s2(page, Json);
    assert s1(page, Xml) == s2(page, Xml);
  }

  /**
   * Servers that give the same reply to every request give the same listing:
   * the listing depends on a server only through its replies.
   */
  lemma {:induction false} RunCongruent(s1: Server, s2: Server, pageSize: nat, page: nat, stop: nat)
    requires forall p: nat, f: Format :: s1(p, f) == s2(p, f)
    requires 1 <= page <= stop && EndsAt(s1, pageSize, stop)
    ensures EndsAt(s2, pageSize, stop)
    ensures Run(s1, pageSize, page, stop) == Run(s2, pageSize, page, stop)
    decreases stop - page
  {
    StepCongruent(s1, s2, pageSize, stop);
    StepCongruent(s1, s2, pageSize, page);
    if PageStep(s1, pageSize, page).verdict.More? {
      RunCongruent(s1, s2, pageSize, page + 1, stop);
    }
  }

  lemma AllStopsAgree(server: Server, pageSize: nat, stop: nat, l: Listing)
    requires EndsAt(server, pageSize, stop) && Run(server, pageSize, 1, stop) == l
    ensures forall s | EndsAt(server, pageSize, s) :: Run(server, pageSize, 1, s) == l
  {
    forall s | EndsAt(server, pageSize, s)
      ensures Run(server, pageSize, 1, s) == l
    {
      RunStopIrrelevant(server, pageSize, 1, stop, s);
    }
  }

  lemma PrependNothing(l: Listing)
    ensures Prepend([], [], l) == l
  {
    assert [] + l.asks == l.asks;
    if l.outcome.Success? {
      assert [] + l.outcome.value == l.outcome.value;
    }
  }

  lemma PrependTwice(u1: seq<User>, a1: seq<Ask>, u2: seq<User>, a2: seq<Ask>, l: Listing)
    ensures Prepend(u1, a1, Prepend(u2, a2, l)) == Prepend(u1 + u2, a1 + a2, l)
  {
    assert a1 + (a2 + l.asks) == (a1 + a2) + l.asks;
    if l.outcome.Success? {
      assert u1 + (u2 + l.outcome.value) == (u1 + u2) + l.outcome.value;
    }
  }

  // ---------------------------------------------------------------------------
  // The order of requests
  // ---------------------------------------------------------------------------

  /** `b` may directly follow `a`: the XML retry of the same page, or the JSON request for the next page. */
  predicate NextAsk(a: Ask, b: Ask) {
    (a.format == Json && b == Ask(a.page, Xml)) || b == Ask(a.page + 1, Json)
  }

  /**
   * The request protocol of a listing that starts at `page`: it opens with the
   * JSON request for `page`, each request is followed by the XML retry of its
   * page or the JSON request for the next page, an XML request is sent only
   * for a page whose JSON reply was rejected, and a rejected JSON reply is
   * always followed by the XML request for the same page.
   */
  ghost predicate AskOrder(server: Server, asks: seq<Ask>, page: nat) {
    && asks != []
    && asks[0] == Ask(page, Json)
    && (forall i :: 0 <= i < |asks| - 1 ==> NextAsk(asks[i], asks[i + 1]))
    && (forall i :: 0 <= i < |asks| && asks[i].format == Xml ==> !JsonAccepted(server(asks[i].page, Json)))
    && (forall i :: 0 <= i < |asks| && asks[i].format == Json && !JsonAccepted(server(asks[i].page, Json)) ==>
          i + 1 < |asks| && asks[i + 1] == Ask(asks[i].page, Xml))
  }

  lemma PageStepAsks(server: Server, pageSize: nat, page: nat)
    ensures PageStep(server, pageSize, page).asks == StepAsks(server, page)
  {
  }

  lemma AskOrderOfStep(server: Server, page: nat)
    ensures AskOrder(server, StepAsks(server, page), page)
  {
  }

  lemma AskOrderAppend(server: Server, page: nat, rest: seq<Ask>)
    requires AskOrder(server, rest, page + 1)
    ensures AskOrder(server, StepAsks(server, page) + rest, page)
  {
    var s := StepAsks(server, page);
    var a := s + rest;
    assert s[|s| - 1].page == page;
    forall i | 0 <= i < |a| - 1
      ensures NextAsk(a[i], a[i + 1])
    {
      if i >= |s| {
        assert a[i] == rest[i - |s|] && a[i + 1] == rest[i - |s| + 1];
      } else if i == |s| - 1 {
        assert a[i + 1] == rest[0];
      }
    }
    forall i | 0 <= i < |a| && a[i].format == Xml
      ensures !JsonAccepted(server(a[i].page, Json))
    {
      if i >= |s| {
        assert a[i] == rest[i - |s|];
      }
    }
    forall i | 0 <= i < |a| && a[i].format == Json && !JsonAccepted(server(a[i].page, Json))
      ensures i + 1 < |a| && a[i + 1] == Ask(a[i].page, Xml)
    {
      if i >= |s| {
        assert a[i] == rest[i - |s|];
        assert a[i + 1] == rest[i - |s| + 1];
      }
    }
  }

  /** Every listing follows the request protocol, from page 1 on. */
  lemma {:induction false} RunAskOrder(server: Server, pageSize: nat, page: nat, stop: nat)
    requires 1 <= page <= stop && EndsAt(server, pageSize, stop)
    ensures AskOrder(server, Run(server, pageSize, page, stop).asks, page)
    decreases stop - page
  {
    PageStepAsks(server, pageSize, page);
    if PageStep(server, pageSize, page).verdict.More? {
      RunAskOrder(server, pageSize, page + 1, stop);
      AskOrderAppend(server, page, Run(server, pageSize, page + 1, stop).asks);
    } else {
      AskOrderOfStep(server, page);
    }
  }

  // ---------------------------------------------------------------------------
  // Where a listing ends and what it returns
  // ---------------------------------------------------------------------------

  /** The page of the last request a listing sent. */
  function LastPage(l: Listing): nat
    requires l.asks != []
  {
    l.asks[|l.asks| - 1].page
  }

  /**
   * A listing ends at the first page whose pass does not go on, and it raises
   * exactly when that pass fails, with that pass's error.
   */
  lemma {:induction false} RunEndsAtFirstFinalPage(server: Server, pageSize: nat, page: nat, stop: nat)
    requires 1 <= page <= stop && EndsAt(server, pageSize, stop)
    ensures Run(server, pageSize, page, stop).asks != []
    ensures var l := Run(server, pageSize, page, stop); var last := LastPage(l);
      && page <= last <= stop
      && (forall q :: page <= q < last ==> PageStep(server, pageSize, q).verdict.More?)
      && !PageStep(server, pageSize, last).verdict.More?
      && (l.outcome.Failure? <==> PageStep(server, pageSize, last).verdict.Fail?)
      && (l.outcome.Failure? ==> l.outcome.error == PageStep(server, pageSize, last).verdict.error)
    decreases stop - page
  {
    var step := PageStep(server, pageSize, page);
    PageStepAsks(server, pageSize, page);
    if step.verdict.More? {
      var rest := Run(server, pageSize, page + 1, stop);
      RunEndsAtFirstFinalPage(server, pageSize, page + 1, stop);
      var l := Run(server, pageSize, page, stop);
      assert l.asks == step.asks + rest.asks;
      assert LastPage(l) == LastPage(rest);
    }
  }

  /** The batch one pass keeps (none when it fails). */
  function PageBatch(server: Server, pageSize: nat, page: nat): seq<User> {
    match PageStep(server, pageSize, page).verdict
    case More(batch) => batch
    case Last(batch) => batch
    case Fail(_) => []
  }

  /** The batches of `count` consecutive pages from `page` on. */
  function Batches(server: Server, pageSize: nat, page: nat, count: nat): seq<seq<User>>
    decreases count
  {
    if count == 0 then [] else [PageBatch(server, pageSize, page)] + Batches(server, pageSize, page + 1, count - 1)
  }

  function Flatten(batches: seq<seq<User>>): seq<User>
    decreases |batches|
  {
    if batches == [] then [] else batches[0] + Flatten(batches[1..])
  }

  function TotalSize(batches: seq<seq<User>>): nat
    decreases |batches|
  {
    if batches == [] then 0 else |batches[0]| + TotalSize(batches[1..])
  }

  lemma FlattenCons(batch: seq<User>, rest: seq<seq<User>>)
    ensures Flatten([batch] + rest) == batch + Flatten(rest)
    ensures TotalSize([batch] + rest) == |batch| + TotalSize(rest)
  {
    assert ([batch] + rest)[1..] == rest;
  }

  lemma {:induction false} FlattenLength(batches: seq<seq<User>>)
    ensures |Flatten(batches)| == TotalSize(batches)
    decreases |batches|
  {
    if batches != [] {
      FlattenLength(batches[1..]);
    }
  }

  /**
   * A listing that returns gives exactly the batches of its pages, page after
   * page, so that it holds as many users as the batches together.
   */
  lemma {:induction false} RunConcatenatesBatches(server: Server, pageSize: nat, page: nat, stop: nat)
    requires 1 <= page <= stop && EndsAt(server, pageSize, stop)
    ensures Run(server, pageSize, page, stop).asks != []
    ensures var l := Run(server, pageSize, page, stop);
      && page <= LastPage(l)
      && (l.outcome.Success? ==>
            var batches := Batches(server, pageSize, page, LastPage(l) - page + 1);
            l.outcome.value == Flatten(batches) && |l.outcome.value| == TotalSize(batches))
    decreases stop - page
  {
    RunEndsAtFirstFinalPage(server, pageSize, page, stop);
    var l := Run(server, pageSize, page, stop);
    var step := PageStep(server, pageSize, page);
    var batches := Batches(server, pageSize, page, LastPage(l) - page + 1);
    if step.verdict.More? {
      var rest := Run(server, pageSize, page + 1, stop);
      RunConcatenatesBatches(server, pageSize, page + 1, stop);
      assert l.asks == step.asks + rest.asks;
      assert LastPage(l) == LastPage(rest);
      var tail := Batches(server, pageSize, page + 1, LastPage(rest) - (page + 1) + 1);
      assert batches == [step.verdict.batch] + tail;
      FlattenCons(step.verdict.batch, tail);
    } else {
      assert LastPage(l) == page;
      assert batches == [PageBatch(server, pageSize, page)];
    }
    FlattenLength(batches);
  }

  /**
   * When the XML fallback for page `q` is rejected after pages 1 to `q - 1`
   * went on, the listing raises with that XML reply's status, content type and
   * body start, and the users of the earlier pages are not returned.
   */
  lemma RejectedFallbackAbortsListing(server: Server, pageSize: nat, q: nat)
    requires 1 <= q
    requires forall p :: 1 <= p < q ==> PageStep(server, pageSize, p).verdict.More?
    requires !JsonAccepted(server(q, Json)) && !XmlAccepted(server(q, Xml))
    ensures Terminates(server, pageSize)
    ensures var xml := server(q, Xml);
      forall stop | EndsAt(server, pageSize, stop) ::
        Run(server, pageSize, 1, stop).outcome == Failure(UsersFailed(xml.status, xml.contentType, Snippet(xml.text)))
  {
    assert EndsAt(server, pageSize, q);
    FailureFrom(server, pageSize, 1, q);
    forall stop | EndsAt(server, pageSize, stop)
      ensures Run(server, pageSize, 1, stop) == Run(server, pageSize, 1, q)
    {
      RunStopIrrelevant(server, pageSize, 1, q, stop);
    }
  }

  lemma {:induction false} FailureFrom(server: Server, pageSize: nat, page: nat, q: nat)
    requires 1 <= page <= q
    requires forall p :: page <= p < q ==> PageStep(server, pageSize, p).verdict.More?
    requires PageStep(server, pageSize, q).verdict.Fail?
    ensures EndsAt(server, pageSize, q)
    ensures Run(server, pageSize, page, q).outcome == Failure(PageStep(server, pageSize, q).verdict.error)
    decreases q - page
  {
    if page < q {
      FailureFrom(server, pageSize, page + 1, q);
    }
  }

  // ---------------------------------------------------------------------------
  // The two stop rules
  // ---------------------------------------------------------------------------

  /**
   * After an accepted JSON page the listing stops exactly when
   * `page * pageSize` reaches the total (the batch size when the total is
   * missing) or the batch is empty; otherwise it goes on with the JSON request
   * for the next page.
   */
  lemma JsonStopRule(server: Server, pageSize: nat, page: nat, stop: nat)
    requires 1 <= page <= stop && EndsAt(server, pageSize, stop)
    requires JsonAccepted(server(page, Json)) && server(page, Json).doc.JsonDoc?
    ensures var doc := server(page, Json).doc; var l := Run(server, pageSize, page, stop);
      && (l.asks == [Ask(page, Json)] <==> page * pageSize >= JsonTotal(doc) || JsonBatch(doc) == [])
      && (l.asks == [Ask(page, Json)] ==> l.outcome == Success(JsonBatch(doc)))
      && (l.asks != [Ask(page, Json)] ==>
            && |l.asks| >= 2 && l.asks[1] == Ask(page + 1, Json)
            && l == Prepend(JsonBatch(doc), [Ask(page, Json)], Run(server, pageSize, page + 1, stop)))
  {
    var doc := server(page, Json).doc;
    if !(page * pageSize >= JsonTotal(doc) || JsonBatch(doc) == []) {
      RunAskOrder(server, pageSize, page + 1, stop);
    }
  }

  /** Without pagination metadata, a JSON page no larger than `page * pageSize` ends the listing. */
  lemma MissingTotalEndsListing(server: Server, pageSize: nat, page: nat, stop: nat)
    requires 1 <= page <= stop && EndsAt(server, pageSize, stop)
    requires var json := server(page, Json);
      JsonAccepted(json) && json.doc.JsonDoc? && json.doc.totalAvailable.None?
    requires |JsonBatch(server(page, Json).doc)| <= page * pageSize
    ensures Run(server, pageSize, page, stop) == Listing([Ask(page, Json)], Success(JsonBatch(server(page, Json).doc)))
  {
  }

  /**
   * After an accepted XML fallback the listing stops exactly when the batch is
   * empty or shorter than `pageSize`; otherwise the next page is requested as
   * JSON again.
   */
  lemma XmlStopRule(server: Server, pageSize: nat, page: nat, stop: nat)
    requires 1 <= page <= stop && EndsAt(server, pageSize, stop)
    requires !JsonAccepted(server(page, Json))
    requires XmlAccepted(server(page, Xml)) && server(page, Xml).doc.XmlDoc?
    ensures var doc := server(page, Xml).doc; var l := Run(server, pageSize, page, stop);
      && |l.asks| >= 2 && l.asks[..2] == [Ask(page, Json), Ask(page, Xml)]
      && (|l.asks| == 2 <==> XmlBatch(doc) == [] || |XmlBatch(doc)| < pageSize)
      && (|l.asks| == 2 ==> l.outcome == Success(XmlBatch(doc)))
      && (|l.asks| > 2 ==>
            && l.asks[2] == Ask(page + 1, Json)
            && l == Prepend(XmlBatch(doc), [Ask(page, Json), Ask(page, Xml)], Run(server, pageSize, page + 1, stop)))
  {
    var doc := server(page, Xml).doc;
    var l := Run(server, pageSize, page, stop);
    if !(XmlBatch(doc) == [] || |XmlBatch(doc)| < pageSize) {
      var rest := Run(server, pageSize, page + 1, stop);
      RunAskOrder(server, pageSize, page + 1, stop);
      assert l.asks == [Ask(page, Json), Ask(page, Xml)] + rest.asks;
      assert l.asks[2] == rest.asks[0];
    }
  }

  /** An XML reply without a `users` element ends the listing with an empty last batch. */
  lemma MissingUsersElementEndsListing(server: Server, pageSize: nat, page: nat, stop: nat)
    requires 1 <= page <= stop && EndsAt(server, pageSize, stop)
    requires !JsonAccepted(server(page, Json))
    requires var xml := server(page, Xml); XmlAccepted(xml) && xml.doc.XmlDoc? && xml.doc.usersElement.None?
    ensures Run(server, pageSize, page, stop) == Listing([Ask(page, Json), Ask(page, Xml)], Success([]))
  {
  }

  /**
   * One pass of the loop body of `list_site_users`: the JSON request for
   * `page`, the XML fallback when the JSON reply is rejected, and the
   * decision the pass ends with.
   */
  method RequestPage(transport: HttpRequest -> Reply, target: Target, pageSize: nat, page: nat)
    returns (step: Step)
    ensures step == PageStep(AsServer(transport, target, pageSize), pageSize, page)
  {
    ghost var server := AsServer(transport, target, pageSize);
    // JSON first
    var reply := transport(PageRequest(target, pageSize, page, Json));
    assert reply == server(page, Json);
    if JsonAccepted(reply) {
      if !reply.doc.JsonDoc? {
        return Step([Ask(page, Json)], Fail(MalformedReply));
      }
      var batch := reply.doc.users.GetOr([]);
      var total := reply.doc.totalAvailable.GetOr(|batch|);
      if page * pageSize >= total || batch == [] {
        return Step([Ask(page, Json)], Last(batch));
      }
      return Step([Ask(page, Json)], More(batch));
    }
    // XML fallback
    var asks := [Ask(page, Json), Ask(page, Xml)];
    reply := transport(PageRequest(target, pageSize, page, Xml));
    assert reply == server(page, Xml);
    if !XmlAccepted(reply) {
      return Step(asks, Fail(UsersFailed(reply.status, reply.contentType, Snippet(reply.text))));
    }
    if !reply.doc.XmlDoc? {
      return Step(asks, Fail(MalformedReply));
    }
    var batch := reply.doc.usersElement.GetOr([]);
    if batch == [] || |batch| < pageSize {
      return Step(asks, Last(batch));
    }
    return Step(asks, More(batch));
  }

  /**
   * `list_site_users(server, site_id, token, page_size)`: pages 1, 2, ... in
   * turn, sending requests through `transport`. It returns the users or the
   * error it raises, together with the requests it sent, and does exactly
   * what `Run` specifies.
   */
  method ListSiteUsers(transport: HttpRequest -> Reply, target: Target, pageSize: nat)
    returns (result: Result<seq<User>, Error>, asks: seq<Ask>)
    requires Terminates(AsServer(transport, target, pageSize), pageSize)
    ensures forall stop | EndsAt(AsServer(transport, target, pageSize), pageSize, stop) ::
      Run(AsServer(transport, target, pageSize), pageSize, 1, stop) == Listing(asks, result)
  {
    ghost var server := AsServer(transport, target, pageSize);
    ghost var stop: nat :| EndsAt(server, pageSize, stop);
    var users: seq<User> := [];
    var page: nat := 1;
    asks := [];
    PrependNothing(Run(server, pageSize, 1, stop));
    while true
      invariant 1 <= page <= stop
      invariant Run(server, pageSize, 1, stop) == Prepend(users, asks, Run(server, pageSize, page, stop))
      decreases stop - page
    {
      var step := RequestPage(transport, target, pageSize, page);
      match step.verdict {
        case More(batch) =>
          PrependTwice(users, asks, batch, step.asks, Run(server, pageSize, page + 1, stop));
          users, asks := users + batch, asks + step.asks;
          page := page + 1;
        case Last(batch) =>
          users, asks := users + batch, asks + step.asks;
          break;
        case Fail(e) =>
          asks := asks + step.asks;
          result := Failure(e);
          AllStopsAgree(server, pageSize, stop, Listing(asks, result));
          return;
      }
    }
    result := Success(users);
    AllStopsAgree(server, pageSize, stop, Listing(asks, result));
  }
}
