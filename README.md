# Tableau user export: a Dafny model

The export is an AWS Lambda function. It reads its configuration from a secret and signs in to a Tableau Server with a personal access token. It lists every user of the site through the REST API, writes the users as a CSV file and stores that file in S3 under a fixed key.

This project models the part of the function with real logic:

- **`list_site_users`**: the paginated listing. Each page is requested as JSON first. When the JSON reply is rejected, the same page is requested again as XML. The listing stops by the JSON rule or the XML rule, depending on which reply was used. A rejected XML reply raises, and the users already collected are lost.
- **Content-type acceptance.** A JSON reply is accepted when its status is 200 and its lower-cased content type starts with `application/json`. An XML reply, for sign-in or for a user page, is accepted when its status is 200 and `xml` occurs in its lower-cased content type.
- **`signin`**: the request headers, the acceptance test, and reading the token and site id back.
- **`_to_bool`**: the parser for the boolean flag in the configuration secret.
- **`_api_base` and the page URL.** The API version is passed in as a value, instead of being read from the global that the handler overwrites. Its fallback before the secret is read is `Rest.DefaultApiVersion` (`3.19`).
- **`write_csv_to_s3`**: the header row, one six-column row per user, and the object key.

All the proofs are about the model itself.

- **Modules.**
  - `Text` holds the Python string operations used: `lower`, `strip`, `startswith`, `in`, and integer formatting.
  - `Rest` holds requests, replies, acceptance and sign-in.
- **Listing.**
  - `Pagination` holds one pass of the loop (`PageStep`) and the whole listing (`Run`), both as functions of the server's replies.
  - The method `ListSiteUsers` is the loop itself, proved equal to `Run`.
  - `FixedServer` is a server that holds a fixed finite list and serves it in slices of `pageSize`. Against it the listing ends and returns exactly that list.
- **Configuration and CSV.** `Config` holds `_to_bool`. `CsvExport` holds the CSV rows.

## How the environment is represented

- **The transport.** `_http_request` is the function `transport: HttpRequest -> Reply`. Error statuses (4xx, 5xx) arrive as ordinary replies, just as `_http_request` returns the code of an `HTTPError` instead of raising it.
- **Parsed bodies.** A reply carries its raw text, used for error messages, and a `Doc`. A `Doc` is what `json.loads` or `ET.fromstring` makes of the body: the users and total of a JSON body, the `t:users` element and the `t:credentials` element of an XML body, or `Unparsable`.
- **Why a server is modelled only by its replies.** `Rest.PageRequestsDistinct` proves that two page requests of one listing are equal only when they ask for the same page in the same format. So within one run, a server is fully described by its reply to each (page, format) pair (`Pagination.Server`).
- **Termination.** Against an arbitrary server the loop need not end: endless full XML pages never stop it, and neither does a JSON total that keeps growing. `ListSiteUsers` therefore requires that some page ends the listing (`Pagination.Terminates`). `FixedServer.SliceServerListsAll` shows that the fixed-list server meets this requirement. `Pagination.RunCongruent` carries this over to any transport that answers the page requests as that server does. `FixedServer.ListFixedList` then runs `ListSiteUsers` against such a transport and gets back exactly the list.

## Model

| member | source | states |
|---|---|---|
| Config.ToBool | _lambda_functions/fucntions/tableau_export/src/lamba_function.py:29-34 | the flag parser itself, with no contract of its own: a bool as it is, `Lower(Strip(s)) in TruthyWords` for a string, the default otherwise; the rows below state its properties |
| Config.ToBoolStringIff | _lambda_functions/fucntions/tableau_export/src/lamba_function.py:32-33 | a string flag is true exactly when it is one of `1`, `true`, `yes`, `y`, `on` in any letter case, padded with any white space |
| Config.ToBoolIgnoresPadding | _lambda_functions/fucntions/tableau_export/src/lamba_function.py:33 | white space around a string flag does not change its value |
| Config.ToBoolIgnoresCase | _lambda_functions/fucntions/tableau_export/src/lamba_function.py:33 | ASCII upper-casing a string flag does not change its value |
| Config.ToBoolStringIgnoresDefault | _lambda_functions/fucntions/tableau_export/src/lamba_function.py:32-33 | a string flag never falls back to the default |
| Config.ToBoolNonString | _lambda_functions/fucntions/tableau_export/src/lamba_function.py:29-34 | a bool is returned unchanged, for every bool and default, and a value neither bool nor string gives the default |
| Config.ToBoolExamples | _lambda_functions/fucntions/tableau_export/src/lamba_function.py:29-34 | sample flags parse as expected: ` TRUE `, `Yes` and `1` are true, `false` and the empty string are false, whatever the default |
| Text.StripPadding | _lambda_functions/fucntions/tableau_export/src/lamba_function.py:33 | `strip` removes any white space added on both sides |
| Text.StripSplit | _lambda_functions/fucntions/tableau_export/src/lamba_function.py:33 | the input is the stripped string with white space (possibly none) on either side |
| Text.LowerOfUpper | _lambda_functions/fucntions/tableau_export/src/lamba_function.py:33 | lower-casing forgets an earlier upper-casing |
| Text.ContainsIff | _lambda_functions/fucntions/tableau_export/src/lamba_function.py:67 | the `in` substring test holds exactly when the substring occurs at some position |
| Text.DecimalRoundTrip | _lambda_functions/fucntions/tableau_export/src/lamba_function.py:78 | the page number and page size are written as non-empty digit strings without leading zeros that read back to the number |
| Rest.ApiBase | _lambda_functions/fucntions/tableau_export/src/lamba_function.py:52-53 | `_api_base`, with no contract of its own: `https://<host>/api/<version>`, the version passed in |
| Rest.PageRequestShape | _lambda_functions/fucntions/tableau_export/src/lamba_function.py:78-80 | a page request is a GET under `https://<host>/api/<version>/sites/<site>/users?`, and carries the session token and the Accept type of its format |
| Rest.PageRequestsDistinct | _lambda_functions/fucntions/tableau_export/src/lamba_function.py:78-80 | two page requests are equal exactly when they ask for the same page in the same format |
| Rest.JsonAccepted | _lambda_functions/fucntions/tableau_export/src/lamba_function.py:81 | the JSON test, with no contract of its own: status 200 and a lower-cased content type starting with `application/json` |
| Rest.XmlAccepted | _lambda_functions/fucntions/tableau_export/src/lamba_function.py:92 | the XML test of sign-in and of the fallback, with no contract of its own: status 200 and `xml` in the lower-cased content type |
| Rest.AcceptanceIgnoresCase | _lambda_functions/fucntions/tableau_export/src/lamba_function.py:81-92 | JSON and XML acceptance do not depend on the ASCII capitalisation of the content type |
| Rest.XmlAcceptedIff | _lambda_functions/fucntions/tableau_export/src/lamba_function.py:92 | an XML reply is accepted exactly when its status is 200 and `xml` occurs in its lower-cased content type |
| Rest.JsonAcceptanceExamples | _lambda_functions/fucntions/tableau_export/src/lamba_function.py:81 | `Application/JSON; charset=utf-8` with status 200 is accepted; status 406, or type `text/json`, is not |
| Rest.XmlAcceptanceExamples | _lambda_functions/fucntions/tableau_export/src/lamba_function.py:92-93 | `text/XML` with status 200 is accepted; a JSON content type, or status 401, is not |
| Rest.Snippet | _lambda_functions/fucntions/tableau_export/src/lamba_function.py:93 | the error detail is the body unchanged when it is at most 400 characters, and otherwise its first 400 characters |
| Rest.SignIn | _lambda_functions/fucntions/tableau_export/src/lamba_function.py:56-73 | `signin`, with no contract of its own: one POST, then an XML acceptance test, then the token and site id read from the credentials element; its outcome is stated by the next row |
| Rest.SignInOutcome | _lambda_functions/fucntions/tableau_export/src/lamba_function.py:56-73 | sign-in succeeds exactly when the reply is accepted as XML and carries a token and a site id, and then returns those two; a rejected reply fails with its status, content type and body start |
| Pagination.PageStep | _lambda_functions/fucntions/tableau_export/src/lamba_function.py:78-103 | one pass as a function of the server's replies, with no contract of its own: the requests sent and whether the pass goes on, ends or raises; the `Run` lemmas below state its properties |
| Pagination.Run | _lambda_functions/fucntions/tableau_export/src/lamba_function.py:75-104 | the whole listing as a function of the server's replies, with no contract of its own: the passes from a page on, users joined, until a pass that does not go on |
| Pagination.RequestPage | _lambda_functions/fucntions/tableau_export/src/lamba_function.py:78-103 | one pass of the loop body sends the JSON request, and the XML request only after a rejected JSON reply, and ends as `PageStep` specifies |
| Pagination.ListSiteUsers | _lambda_functions/fucntions/tableau_export/src/lamba_function.py:75-104 | the loop returns exactly the users or the error that `Run` specifies, and sends exactly `Run`'s requests |
| Pagination.RunStopIrrelevant | _lambda_functions/fucntions/tableau_export/src/lamba_function.py:77 | the listing does not depend on which page bound was used to define it |
| Pagination.RunAskOrder | _lambda_functions/fucntions/tableau_export/src/lamba_function.py:76-103 | requests start with page 1 as JSON. Each request is followed by the XML request for the same page or the JSON request for the next page. An XML request is sent only for a page whose JSON reply was rejected |
| Pagination.RunEndsAtFirstFinalPage | _lambda_functions/fucntions/tableau_export/src/lamba_function.py:86-102 | the listing ends at the first page whose pass does not go on, and raises exactly when that pass fails, with its error |
| Pagination.RunConcatenatesBatches | _lambda_functions/fucntions/tableau_export/src/lamba_function.py:84-104 | a returned list is the concatenation of the page batches in page order, and its length is the sum of their sizes |
| Pagination.RejectedFallbackAbortsListing | _lambda_functions/fucntions/tableau_export/src/lamba_function.py:91-93 | a rejected XML fallback raises with that reply's status, content type and body start, and no users are returned |
| Pagination.JsonStopRule | _lambda_functions/fucntions/tableau_export/src/lamba_function.py:82-89 | after an accepted JSON page the listing stops exactly when `page * pageSize >= total` or the batch is empty; otherwise it keeps the batch and asks for the next page as JSON |
| Pagination.MissingTotalEndsListing | _lambda_functions/fucntions/tableau_export/src/lamba_function.py:85-87 | without a total, the batch size stands in for it, so a page of at most `page * pageSize` users ends the listing |
| Pagination.XmlStopRule | _lambda_functions/fucntions/tableau_export/src/lamba_function.py:94-103 | after an accepted XML page the listing stops exactly when the batch is empty or shorter than `pageSize`; otherwise it keeps the batch and asks for the next page as JSON again |
| Pagination.MissingUsersElementEndsListing | _lambda_functions/fucntions/tableau_export/src/lamba_function.py:95-102 | an XML reply without a `t:users` element gives an empty batch and ends the listing |
| Pagination.RunCongruent | _lambda_functions/fucntions/tableau_export/src/lamba_function.py:75-104 | two servers that give the same reply to every request give the same listing, and end at the same pages |
| FixedServer.SliceStep | _lambda_functions/fucntions/tableau_export/src/lamba_function.py:81-103 | against the fixed-list server a pass keeps its page's slice, and goes on exactly when the page was full and, for JSON, the total was not reached |
| FixedServer.SliceServerListsAll | _lambda_functions/fucntions/tableau_export/src/lamba_function.py:75-104 | against the fixed-list server the listing ends by page `n / pageSize + 1` and returns exactly the list, whatever mix of JSON and XML pages is served |
| FixedServer.ListFixedList | _lambda_functions/fucntions/tableau_export/src/lamba_function.py:75-104 | the loop, run against a transport that answers page requests as the fixed-list server does, returns exactly that list |
| FixedServer.JsonOnlyAsksFrom | _lambda_functions/fucntions/tableau_export/src/lamba_function.py:80-88 | with JSON served throughout, exactly the pages up to the first one reaching the total are requested, each once |
| FixedServer.XmlOnlyAsksFrom | _lambda_functions/fucntions/tableau_export/src/lamba_function.py:91-103 | with JSON refused throughout, exactly the pages up to the first short one are requested, each as JSON and then as XML |
| FixedServer.TwentyFiveHundredUsers | _lambda_functions/fucntions/tableau_export/src/lamba_function.py:85-88 | 2500 users in pages of 1000 as JSON: pages 1, 2 and 3 are requested and all users are returned |
| FixedServer.TwoThousandUsersAsJson | _lambda_functions/fucntions/tableau_export/src/lamba_function.py:85-88 | 2000 users in pages of 1000 as JSON: the total stops the listing after page 2 |
| FixedServer.TwoThousandUsersAsXml | _lambda_functions/fucntions/tableau_export/src/lamba_function.py:100-103 | 2000 users in pages of 1000 as XML: page 3 is requested as well and comes back empty |
| CsvExport.Project | _lambda_functions/fucntions/tableau_export/src/lamba_function.py:108-113 | a user's row has one cell per column, in column order, each cell being the user's value or `""` |
| CsvExport.TableShape | _lambda_functions/fucntions/tableau_export/src/lamba_function.py:108-113 | the table has the header row then one row per user (`len(users) + 1` rows), every row has six cells, and a missing key gives an empty cell |
| CsvExport.TableAppend | _lambda_functions/fucntions/tableau_export/src/lamba_function.py:112-113 | the rows follow the order of the users |
| CsvExport.ProjectOnlyReadsFields | _lambda_functions/fucntions/tableau_export/src/lamba_function.py:113 | two users have the same row exactly when they agree on the six columns, with a missing value counting as empty |
| CsvExport.ExtraAttributesIgnored | _lambda_functions/fucntions/tableau_export/src/lamba_function.py:113 | attributes outside the six columns do not change the row |
| CsvExport.SparseUserExample | _lambda_functions/fucntions/tableau_export/src/lamba_function.py:113 | a user with only an id and a name gets four empty cells |
| CsvExport.WriteCsv | _lambda_functions/fucntions/tableau_export/src/lamba_function.py:107-119 | the writer loop produces exactly the table, and the key is always `tableau/tableau_server_users.csv` |

## Left out

- `_get_secret_json` and `s3.put_object` are cloud I/O through boto3. Only the constant object key is modelled.
- Connection failures, timeouts and TLS settings in `_http_request` (including `VERIFY_SSL`) are not modelled, because they belong to the network layer. The transport is a total function from requests to replies.
- `json.loads`, `ET.fromstring` and the namespaced `find` are library parsers, so the model takes their result as a `Doc`. A JSON body that does not parse, and an XML body without a `t:credentials` element, `token` or site `id`, are all the one error `MalformedReply`; the code raises different Python exceptions for these.
- Pagination.JsonTotal: a `totalAvailable` that `int()` cannot convert, or a `user` list whose entries are not string maps, is not modelled. The total is taken as an integer and the batch as a list of string maps.
- A JSON body that parses but is not an object, or whose `users` or `pagination` value is not an object, makes the code raise at line 83 or 85. Such a body is represented as `Unparsable`, so an accepted JSON reply carrying it ends the listing in `MalformedReply`, as the raise does. `JsonDoc` with a missing member stands only for an object that lacks `users`, `user`, `pagination` or `totalAvailable`.
- The sign-in XML body, which carries the token name, secret and site content URL, is not modelled. The code puts these in unescaped, so no well-formedness property holds for it.
- The CSV text is not modelled, because quoting, delimiters, line endings and UTF-8 encoding come from `csv.DictWriter`. Rows are lists of cell strings, and user values are strings.
- `lambda_handler` is not modelled. It covers reading environment variables, logging, and overwriting the `API_VERSION` and `VERIFY_SSL` globals. The API version is a parameter instead.
- Pagination.ListSiteUsers: termination is proved only under the precondition that some page ends the listing. Against a server that serves full pages forever, the code loops and the model says nothing.
- Text.Lower: only ASCII letters are mapped. Python's `str.lower` also maps other letters. The only ones whose lower case holds an ASCII letter are the Kelvin sign (to `k`) and `İ` (to `i` and a combining dot). Neither can help a content type start with `application/json` or contain `xml`, or make a flag one of the truthy words, so the acceptance tests and `_to_bool` come out as in Python.
- Text.Upper: only ASCII letters are mapped. Python's `str.upper` maps further letters onto ASCII ones, such as `ſ` to `S` and `ı` to `I`.
- Config.ToBoolIgnoresCase: holds for ASCII upper-casing only. Under Python's `str.upper`, `yeſ` (false) becomes `YES` (true).
- Rest.AcceptanceIgnoresCase: holds for ASCII upper-casing only. Under Python's `str.upper`, the refused `application/jſon` becomes the accepted `APPLICATION/JSON`.
- Pagination.ListSiteUsers: the page size is a `nat`. A negative `page_size` is not modelled.

## Notes on the code

- The sign-in XML body interpolates the token name, secret and site content URL without escaping. A value containing `"` or `<` gives a request the server may reject. The model does not claim any escaping.
- A JSON listing uses the total only to decide when to stop. It never checks that the number of users returned matches the total, and the model does not claim that it does either.
- The XML stop rule ignores any total. With a list whose length is an exact multiple of the page size, one extra, empty page is requested (`FixedServer.TwoThousandUsersAsXml`). The JSON rule does not make that extra request.
