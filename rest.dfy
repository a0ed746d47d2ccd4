/**
 * The REST side of the export: the requests the client sends to the analytics
 * server, the replies it gets back, which replies it accepts, and sign-in.
 *
 * The transport itself belongs to the environment: a reply is whatever the
 * server sent for a request, including 4xx and 5xx statuses, which the
 * transport hands back as ordinary replies instead of raising. The body of a
 * reply is represented by what the JSON or XML parser makes of it.
 */
module Rest {
  import opened Wrappers
  import opened Text

  /** A user as the server describes it: JSON object or XML attribute map. */
  type User = map<string, string>

  /** `<credentials token=... ><site id=... /></credentials>` */
  datatype CredentialsElement = CredentialsElement(attrs: map<string, string>, site: Option<map<string, string>>)

  /** The result of parsing a reply body. */
  datatype Doc =
    | /** `json.loads` succeeded: `users.user` and `pagination.totalAvailable`, each possibly absent */
      JsonDoc(users: Option<seq<User>>, totalAvailable: Option<int>)
    | /** `ET.fromstring` succeeded: the `t:users` element's `t:user` children and the `t:credentials` element, each possibly absent */
      XmlDoc(usersElement: Option<seq<User>>, credentials: Option<CredentialsElement>)
    | /** neither parser accepts the text, or the JSON value, or its `users` or `pagination` member, is not an object */
      Unparsable

  datatype Reply = Reply(status: int, contentType: string, text: string, doc: Doc)

  datatype Verb = Get | Post
  datatype HttpRequest = HttpRequest(verb: Verb, url: string, headers: map<string, string>)

  /** The representation asked for in the `Accept` header. */
  datatype Format = Json | Xml

  /** Where the listing is read from, fixed for one run. */
  datatype Target = Target(host: string, apiVersion: string, siteId: string, token: string)

  datatype Session = Session(token: string, siteId: string)

  datatype Error =
    | /** sign-in reply rejected: status, content type and the first 400 characters of the body */
      SignInFailed(status: int, contentType: string, detail: string)
    | /** XML fallback for a page of users rejected */
      UsersFailed(status: int, contentType: string, detail: string)
    | /** an accepted reply whose body does not parse or lacks an element or attribute read from it */
      MalformedReply

  /** `API_VERSION` before the secret overrides it. */
  const DefaultApiVersion := "3.19"
  const SnippetLength := 400

  /** `_api_base(server)`, with the API version passed in instead of read from a global. */
  function ApiBase(host: string, apiVersion: string): string {
    "https://" + host + "/api/" + apiVersion
  }

  function SignInUrl(host: string, apiVersion: string): string {
    ApiBase(host, apiVersion) + "/auth/signin"
  }

  function PageUrl(target: Target, pageSize: nat, page: nat): string {
    ApiBase(target.host, target.apiVersion) + "/sites/" + target.siteId
      + "/users?pageSize=" + Decimal(pageSize) + "&pageNumber=" + Decimal(page)
  }

  function MediaType(format: Format): string {
    match format
    case Json => "application/json"
    case Xml => "application/xml"
  }

  /** The sign-in POST (its XML body, which carries the access-token secret, is not modelled). */
  function SignInRequest(host: string, apiVersion: string): HttpRequest {
    HttpRequest(Post, SignInUrl(host, apiVersion),
      map["Content-Type" := "application/xml", "Accept" := "application/xml", "User-Agent" := "curl/8.5.0"])
  }

  /** The GET for one page of users in one representation. */
  function PageRequest(target: Target, pageSize: nat, page: nat, format: Format): HttpRequest {
    HttpRequest(Get, PageUrl(target, pageSize, page),
      map["X-Tableau-Auth" := target.token, "Accept" := MediaType(format)])
  }

  /** Every page request goes under the API base and presents the session token. */
  lemma PageRequestShape(target: Target, pageSize: nat, page: nat, format: Format)
    ensures var r := PageRequest(target, pageSize, page, format);
      && r.verb == Get
      && StartsWith(r.url, ApiBase(target.host, target.apiVersion) + "/sites/" + target.siteId + "/users?")
      && r.headers["X-Tableau-Auth"] == target.token
      && r.headers["Accept"] == MediaType(format)
  {
    var r := PageRequest(target, pageSize, page, format);
    var p := ApiBase(target.host, target.apiVersion) + "/sites/" + target.siteId + "/users?";
    assert r.url == p + ("pageSize=" + Decimal(pageSize) + "&pageNumber=" + Decimal(page));
    assert r.url[..|p|] == p;
  }

  /**
   * Two page requests of one run are the same request only when they ask for
   * the same page in the same representation: a server can therefore be
   * described by its answer to each (page, format) pair.
   */
  lemma PageRequestsDistinct(target: Target, pageSize: nat, p1: nat, f1: Format, p2: nat, f2: Format)
    ensures PageRequest(target, pageSize, p1, f1) == PageRequest(target, pageSize, p2, f2) ==> p1 == p2 && f1 == f2
  {
    var prefix := ApiBase(target.host, target.apiVersion) + "/sites/" + target.siteId
      + "/users?pageSize=" + Decimal(pageSize) + "&pageNumber=";
    var u1, u2 := PageUrl(target, pageSize, p1), PageUrl(target, pageSize, p2);
    assert u1 == prefix + Decimal(p1) && u2 == prefix + Decimal(p2);
    if u1 == u2 {
      assert Decimal(p1) == u1[|prefix|..];
      assert Decimal(p2) == u2[|prefix|..];
      DecimalInjective(p1, p2);
    }
    if PageRequest(target, pageSize, p1, f1) == PageRequest(target, pageSize, p2, f2) {
      assert MediaType(f1) == PageRequest(target, pageSize, p1, f1).headers["Accept"];
      assert MediaType(f2) == PageRequest(target, pageSize, p2, f2).headers["Accept"];
      assert MediaType(Json) != MediaType(Xml) by {
        assert MediaType(Json)[12] == 'j' && MediaType(Xml)[12] == 'x';
      }
    }
  }

  /** A JSON reply is used only with status 200 and a content type starting with `application/json`. */
  predicate JsonAccepted(reply: Reply) {
    reply.status == 200 && StartsWith(Lower(reply.contentType), "application/json")
  }

  /** An XML reply (sign-in or user list) is used only with status 200 and `xml` in its content type. */
  predicate XmlAccepted(reply: Reply) {
    reply.status == 200 && Contains(Lower(reply.contentType), "xml")
  }

  /** Acceptance does not depend on how the server capitalises its content type. */
  lemma AcceptanceIgnoresCase(reply: Reply)
    ensures JsonAccepted(reply.(contentType := Upper(reply.contentType))) == JsonAccepted(reply)
    ensures XmlAccepted(reply.(contentType := Upper(reply.contentType))) == XmlAccepted(reply)
  {
    LowerOfUpper(reply.contentType);
  }

  /** The XML test is a plain substring search: `xml` anywhere in the lower-cased content type. */
  lemma XmlAcceptedIff(reply: Reply)
    ensures XmlAccepted(reply) <==> reply.status == 200 && exists i :: OccursAt(Lower(reply.contentType), "xml", i)
  {
    ContainsIff(Lower(reply.contentType), "xml");
  }

  /** JSON content types the server sends, and replies that must fall back to XML. */
  lemma JsonAcceptanceExamples(text: string, doc: Doc)
    ensures JsonAccepted(Reply(200, "Application/JSON; charset=utf-8", text, doc))
    ensures !JsonAccepted(Reply(406, "application/json", text, doc))
    ensures !JsonAccepted(Reply(200, "text/json", text, doc))
  {
    assert Lower("Application/JSON; charset=utf-8")[..16] == "application/json";
    assert |Lower("text/json")| == 9;
  }

  /** XML content types the server sends, and replies that make the fallback fail. */
  lemma XmlAcceptanceExamples(text: string, doc: Doc)
    ensures XmlAccepted(Reply(200, "text/XML", text, doc))
    ensures !XmlAccepted(Reply(200, "application/json", text, doc))
    ensures !XmlAccepted(Reply(401, "application/xml", text, doc))
  {
    var x := Lower("text/XML");
    assert x == "text/xml";
    assert OccursAt(x, "xml", 5);
    ContainsIff(x, "xml");
    var j := Lower("application/json");
    assert j == "application/json";
    assert 'x' !in j;
    ContainsNeedsFirstChar(j, "xml");
  }

  /** `text[:400]` */
  function Snippet(text: string): (r: string)
    ensures |r| <= SnippetLength
    ensures StartsWith(text, r)
    ensures |text| <= SnippetLength ==> r == text
    ensures |text| > SnippetLength ==> |r| == SnippetLength
  {
    if |text| <= SnippetLength then text else text[..SnippetLength]
  }

  /** `signin(server, ...)`: one POST, then the token and site id read from the reply. */
  function SignIn(transport: HttpRequest -> Reply, host: string, apiVersion: string): Result<Session, Error> {
    var reply := transport(SignInRequest(host, apiVersion));
    if !XmlAccepted(reply) then
      Failure(SignInFailed(reply.status, reply.contentType, Snippet(reply.text)))
    else
      match reply.doc
      case XmlDoc(_, Some(cred)) =>
        if "token" in cred.attrs && cred.site.Some? && "id" in cred.site.value then
          Success(Session(cred.attrs["token"], cred.site.value["id"]))
        else
          Failure(MalformedReply)
      case _ => Failure(MalformedReply)
  }

  /** The credentials a sign-in reply carries, when it carries both. */
  predicate HasSession(doc: Doc, session: Session) {
    && doc.XmlDoc?
    && doc.credentials.Some?
    && "token" in doc.credentials.value.attrs
    && doc.credentials.value.attrs["token"] == session.token
    && doc.credentials.value.site.Some?
    && "id" in doc.credentials.value.site.value
    && doc.credentials.value.site.value["id"] == session.siteId
  }

  /**
   * Sign-in succeeds exactly when the reply is an accepted XML reply carrying a
   * token and a site id, and then returns those two; a rejected reply is
   * reported with its status, content type and the start of its body.
   */
  lemma SignInOutcome(transport: HttpRequest -> Reply, host: string, apiVersion: string, session: Session)
    ensures var reply := transport(SignInRequest(host, apiVersion));
      && (SignIn(transport, host, apiVersion) == Success(session) <==> XmlAccepted(reply) && HasSession(reply.doc, session))
      && (!XmlAccepted(reply) ==>
            SignIn(transport, host, apiVersion) == Failure(SignInFailed(reply.status, reply.contentType, Snippet(reply.text))))
  {
  }
}
