/**
 * The request handler of the sync server (`index.php`): it reads the
 * credentials and the path, refuses a request whose path or user does not
 * fit, authenticates, and then serves GET, PUT, POST or DELETE against the
 * MySQL store.  Every early exit is a `report_problem` response.
 *
 * What the handler calls but does not define (base64 decoding, the
 * authentication back end, the `wbo` class's JSON extraction, validation
 * and encoding, `json_decode`, the float parse of a timestamp header) is
 * an `Environment` of functions; the clock is the parameter `now`.
 */
module Handler {
  import opened Wrappers
  import opened Php
  import opened Records
  import opened Namespace
  import opened Query
  import opened MysqlStorage

  // ---- The request and what the handler calls ----

  /** `$_SERVER`, `$_GET` and the body read from `php://input`. */
  datatype Request = Request(server: map<string, string>, get: map<string, string>, input: string)

  /** The message and the HTTP code of a `report_problem` call or of a thrown exception. */
  datatype Problem = Problem(message: string, code: int)

  /** `authenticate_user`: accepts, refuses, or throws (as does `get_auth_object`). */
  datatype AuthOutcome = Accepted | Denied | Thrown(problem: Problem)

  /** `extract_json` on one JSON text: success, the record it built, and `get_error()`. */
  datatype Extraction = Extraction(ok: bool, wbo: WBO, error: string)

  /** `validate()` and, when it fails, `get_error()`. */
  datatype Validation = Validation(ok: bool, error: string)

  datatype Environment = Environment(
    /** `base64_decode($s, true)`: `None` for invalid input. */
    base64Decode: string -> Option<string>,
    authenticate: (string, Option<string>) -> AuthOutcome,
    /** `get_user_alert()`. */
    alert: Option<string>,
    /** An exception thrown while opening the store. */
    storageFailure: Option<Problem>,
    extract: string -> Extraction,
    validate: WBO -> Validation,
    /** `json_decode($s, true)` of a batch: the JSON texts of its elements; `None` when not an array. */
    decodeBatch: string -> Option<seq<string>>,
    /** `round((float)$s, 2)`, in hundredths. */
    centis: string -> int,
    /** `$wbo->json()` of a fetched row. */
    encodeRow: (string, Row) -> string,
    /** `json_encode` of an id. */
    encodeId: string -> string)

  /** `$_SERVER[$key]`, `None` when the key is absent. */
  function Server(req: Request, key: string): Option<string> {
    if key in req.server then Some(req.server[key]) else None
  }

  /** `$_SERVER['REQUEST_METHOD']`. */
  function RequestMethod(req: Request): string {
    StringOf(Server(req, "REQUEST_METHOD"))
  }

  // ---- Responses ----

  const CONTENT_TYPE: string := "Content-type: application/json"
  const WWW_AUTHENTICATE: string := "WWW-Authenticate: Basic realm=\"Weave\""

  /** What the handler writes after its headers. */
  datatype Body =
    | Message(text: string)
    | Timestamp(value: int)
    | BatchResult(modified: int, success: seq<Option<string>>, failed: seq<(string, string)>)
    | Record(id: string, row: Row)
    | Listing(text: string)
    | CollectionList

  datatype Response = Response(code: int, headers: seq<string>, body: Body)

  /** The status line `report_problem` sends for a code; nothing for a code it does not know. */
  function StatusLine(code: int): string {
    if code == 400 then "400 Bad Request"
    else if code == 401 then "401 Unauthorized"
    else if code == 404 then "404 Not Found"
    else if code == 412 then "412 Precondition Failed"
    else if code == 503 then "503 Service Unavailable"
    else ""
  }

  /** A three-digit code is written as its three digits. */
  lemma ThreeDigits(n: int)
    requires 100 <= n < 1000
    ensures Decimal(n) == [('0' as int + n / 100) as char, ('0' as int + n / 10 % 10) as char, ('0' as int + n % 10) as char]
  {
    assert n / 10 / 10 == n / 100;
    assert Digits(n / 10) == Digits(n / 100) + [('0' as int + n / 10 % 10) as char];
  }

  /** The five known codes, and only they, have a status line, which starts with the code. */
  lemma StatusLineNamesCode(code: int)
    ensures StatusLine(code) != "" <==> code in {400, 401, 404, 412, 503}
    ensures StatusLine(code) != "" ==> |StatusLine(code)| > 4 && StatusLine(code)[..3] == Decimal(code) && StatusLine(code)[3] == ' '
  {
    if code in {400, 401, 404, 412, 503} {
      ThreeDigits(code);
    }
  }

  /** `report_problem`: the status line, a Basic challenge on 401, and the message as the body. */
  function ReportProblem(headers: seq<string>, p: Problem): (r: Response)
    ensures r.code == p.code && r.body == Message(p.message)
    ensures |r.headers| > |headers| && r.headers[..|headers|] == headers
    ensures r.headers[|headers|] == "HTTP/1.1 " + StatusLine(p.code)
    ensures WWW_AUTHENTICATE in r.headers[|headers|..] <==> p.code == 401
  {
    var status := "HTTP/1.1 " + StatusLine(p.code);
    assert status[0] != WWW_AUTHENTICATE[0];
    var extra := [status] + (if p.code == 401 then [WWW_AUTHENTICATE] else []);
    assert (headers + extra)[|headers|..] == extra;
    Response(p.code, headers + extra, Message(p.message))
  }

  function Ok(headers: seq<string>, body: Body): Response {
    Response(200, headers, body)
  }

  // ---- Credentials ----

  /** `\s` in a PCRE pattern: space, tab, newline, form feed, carriage return. */
  predicate RegexSpace(c: char) {
    c == ' ' || c == '\t' || c == '\n' || c == 12 as char || c == '\r'
  }

  /**
   * `/Basic\s+(.*)$/` matches with "Basic" at `i` and the spaces ending at
   * `j`: `.` takes no newline and `$` matches at the end or before a final
   * newline.
   */
  predicate BasicAt(s: string, i: int, j: int) {
    && 0 <= i && i + 5 < j <= |s|
    && s[i..i + 5] == "Basic"
    && (forall k :: i + 5 <= k < j ==> RegexSpace(s[k]))
    && (forall k :: j <= k < |s| - 1 ==> s[k] != '\n')
  }

  predicate MatchesBasic(s: string) {
    exists i, j | 0 <= i < j <= |s| :: BasicAt(s, i, j)
  }

  /** The first of the four places a CGI or FastCGI set-up leaves the Authorization header. */
  function AuthHeader(req: Request): Option<string> {
    if "Authorization" in req.server then Some(req.server["Authorization"])
    else if "AUTHORIZATION" in req.server then Some(req.server["AUTHORIZATION"])
    else if "HTTP_AUTHORIZATION" in req.server then Some(req.server["HTTP_AUTHORIZATION"])
    else Server(req, "REDIRECT_HTTP_AUTHORIZATION")
  }

  /**
   * The user and password: the server's own when it set both; otherwise
   * a Basic header whose decoded text is truthy and has exactly one ':'
   * supplies both, and anything else leaves the server's values.
   */
  function Credentials(req: Request, base64Decode: string -> Option<string>): (Option<string>, Option<string>) {
    var user := Server(req, "PHP_AUTH_USER");
    var pw := Server(req, "PHP_AUTH_PW");
    if user.Some? && pw.Some? then (user, pw)
    else
      var h := AuthHeader(req);
      if h.None? || !MatchesBasic(h.value) then (user, pw)
      else
        var decoded := base64Decode(if |h.value| >= 6 then h.value[6..] else "");
        if decoded.None? || !Truthy(decoded.value) then (user, pw)
        else
          var parts := Explode(':', decoded.value);
          if |parts| == 2 then (Some(parts[0]), Some(parts[1])) else (user, pw)
  }

  /** A header "Basic <t>" whose decoded text is "<u>:<p>" supplies exactly that user and password. */
  lemma BasicHeaderSuppliesCredentials(req: Request, base64Decode: string -> Option<string>, t: string, u: string, p: string)
    requires Server(req, "PHP_AUTH_USER").None?
    requires AuthHeader(req) == Some("Basic " + t)
    requires forall k :: 0 <= k < |t| ==> t[k] != '\n'
    requires forall k :: 0 <= k < |u| ==> u[k] != ':'
    requires forall k :: 0 <= k < |p| ==> p[k] != ':'
    requires base64Decode(t) == Some(u + ":" + p)
    ensures Credentials(req, base64Decode) == (Some(u), Some(p))
  {
    var s := "Basic " + t;
    assert BasicAt(s, 0, 6);
    assert s[6..] == t;
    var text := u + ":" + p;
    assert text[|u|] == ':';
    ExplodeSplit(':', u, p);
    ExplodeNoSep(':', p);
    assert text == u + [':'] + p;
  }

  /** Without server credentials, a decoded text with no ':' or with several leaves both unset. */
  lemma MalformedBasicLeavesCredentialsUnset(req: Request, base64Decode: string -> Option<string>)
    requires Server(req, "PHP_AUTH_USER").None? && Server(req, "PHP_AUTH_PW").None?
    requires AuthHeader(req).Some? && |AuthHeader(req).value| >= 6
    requires base64Decode(AuthHeader(req).value[6..]).Some?
    requires CountChar(':', base64Decode(AuthHeader(req).value[6..]).value) != 1
    ensures Credentials(req, base64Decode) == (None, None)
  {
  }

  // ---- The path ----

  /** The three path segments; the user name is lowercased. */
  datatype Path = Path(username: string, collection: string, id: string)

  /** `PATH_INFO` when non-empty, else `ORIG_PATH_INFO` when non-empty, else "/". */
  function PathInfo(req: Request): string {
    if "PATH_INFO" in req.server && Truthy(req.server["PATH_INFO"]) then req.server["PATH_INFO"]
    else if "ORIG_PATH_INFO" in req.server && Truthy(req.server["ORIG_PATH_INFO"]) then req.server["ORIG_PATH_INFO"]
    else "/"
  }

  /** Drop the lead character, split on '/' after appending "//", keep the first three pieces. */
  function SplitPath(path: string): Path {
    var rest := if |path| >= 1 then path[1..] else "";
    CountCharAppend('/', rest, "//");
    var parts := Explode('/', rest + "//");
    Path(ToLower(parts[0]), parts[1], parts[2])
  }

  predicate NoSlash(s: string) {
    forall k :: 0 <= k < |s| ==> s[k] != '/'
  }

  /** "/u/c/i", optionally followed by more segments, names user u, collection c and record i. */
  lemma SplitPathFull(u: string, c: string, i: string, tail: string)
    requires NoSlash(u) && NoSlash(c) && NoSlash(i)
    requires tail == "" || tail[0] == '/'
    ensures SplitPath("/" + u + "/" + c + "/" + i + tail) == Path(ToLower(u), c, i)
  {
    var path := "/" + u + "/" + c + "/" + i + tail;
    var x := (tail + "//")[1..];
    assert tail + "//" == "/" + x;
    assert path[1..] + "//" == u + ['/'] + (c + ['/'] + (i + ['/'] + x));
    ExplodeSplit('/', u, c + ['/'] + (i + ['/'] + x));
    ExplodeSplit('/', c, i + ['/'] + x);
    ExplodeSplit('/', i, x);
  }

  /** "/u/c" has no record id. */
  lemma SplitPathCollection(u: string, c: string)
    requires NoSlash(u) && NoSlash(c)
    ensures SplitPath("/" + u + "/" + c) == Path(ToLower(u), c, "")
  {
    var path := "/" + u + "/" + c;
    assert path[1..] + "//" == u + ['/'] + (c + ['/'] + ("" + ['/'] + ""));
    ExplodeSplit('/', u, c + ['/'] + ("" + ['/'] + ""));
    ExplodeSplit('/', c, "" + ['/'] + "");
    ExplodeSplit('/', "", "");
  }

  /** "/u" names only the user, and "/" or "" names nobody. */
  lemma SplitPathUser(u: string)
    requires NoSlash(u)
    ensures SplitPath("/" + u) == Path(ToLower(u), "", "")
    ensures SplitPath("/") == Path("", "", "") && SplitPath("") == Path("", "", "")
  {
    var path := "/" + u;
    assert path[1..] + "//" == u + ['/'] + ("" + ['/'] + "");
    ExplodeSplit('/', u, "" + ['/'] + "");
    ExplodeSplit('/', "", "");
    assert "/"[1..] + "//" == "" + ['/'] + ("" + ['/'] + "");
    ExplodeSplit('/', "", "" + ['/'] + "");
  }

  // ---- Admission ----

  /** The checks on the path before any authentication. */
  function Guard(p: Path, authUser: string, verb: string): Option<Problem> {
    if !Truthy(p.username) then Some(Problem("3", 400))
    else if authUser != p.username then Some(Problem("5", 401))
    else if !Truthy(p.collection) && verb != "GET" then Some(Problem("1", 400))
    else None
  }

  /** The lowercased user the credentials name, "" for none. */
  function AuthUser(req: Request, env: Environment): string {
    ToLower(StringOf(Credentials(req, env.base64Decode).0))
  }

  datatype Admission = Refused(response: Response) | Admitted(path: Path, headers: seq<string>)

  /**
   * Everything before the method dispatch: the path, the guards, the
   * authentication, and the alert header.
   */
  function Admit(req: Request, env: Environment): Admission {
    var p := SplitPath(PathInfo(req));
    var authUser := AuthUser(req, env);
    var headers := [CONTENT_TYPE];
    match Guard(p, authUser, RequestMethod(req))
    case Some(problem) => Refused(ReportProblem(headers, problem))
    case None =>
      match env.authenticate(ToLower(authUser), Credentials(req, env.base64Decode).1)
      case Thrown(problem) => Refused(ReportProblem(headers, problem))
      case Denied => Refused(ReportProblem(headers, Problem("Authentication failed", 401)))
      case Accepted =>
        Admitted(p, if TruthyOpt(env.alert) then headers + ["X-Weave-Alert: " + env.alert.value] else headers)
  }

  /**
   * A request gets past admission exactly when the path names a user, the
   * credentials name the same user, a collection is named unless the
   * method is GET, and the authentication accepts.
   */
  lemma AdmissionConditions(req: Request, env: Environment)
    ensures var p := SplitPath(PathInfo(req));
      Admit(req, env).Admitted? <==>
        && Truthy(p.username) && AuthUser(req, env) == p.username
        && (Truthy(p.collection) || RequestMethod(req) == "GET")
        && env.authenticate(AuthUser(req, env), Credentials(req, env.base64Decode).1) == Accepted
    ensures Admit(req, env).Admitted? ==> Admit(req, env).path == SplitPath(PathInfo(req))
    ensures !Truthy(SplitPath(PathInfo(req)).username) ==>
      Admit(req, env) == Refused(ReportProblem([CONTENT_TYPE], Problem("3", 400)))
  {
    ToLowerIdempotent(StringOf(Credentials(req, env.base64Decode).0));
  }

  // ---- The precondition header ----

  /**
   * `X-If-Unmodified-Since` fails: the header is present and the
   * collection's latest timestamp is later.  A collection without rows
   * has no latest timestamp and never fails.
   */
  predicate Conflict(req: Request, env: Environment, rows: Rows, t: Table, p: Path) {
    var h := Server(req, "HTTP_X_IF_UNMODIFIED_SINCE");
    h.Some? &&
      var m := MaxModified(ScopeOf(rows, p.username, IdOf(t, p.username, p.collection)));
      m.Some? && m.value > env.centis(h.value)
  }

  /** Rows, log and the collection's id are all the precondition reads. */
  lemma ConflictOnlyReadsTheCollection(req: Request, env: Environment, rows: Rows, t: Table, t': Table, p: Path)
    requires "HTTP_X_IF_UNMODIFIED_SINCE" in req.server ==>
      Lookup(t, p.username, p.collection) == Lookup(t', p.username, p.collection)
    ensures Conflict(req, env, rows, t, p) == Conflict(req, env, rows, t', p)
  {
  }

  /** A collection not newer than the header passes. */
  lemma UnmodifiedPasses(req: Request, env: Environment, rows: Rows, t: Table, p: Path)
    requires "HTTP_X_IF_UNMODIFIED_SINCE" in req.server
    requires forall id :: id in ScopeOf(rows, p.username, IdOf(t, p.username, p.collection)) ==>
      var m := ScopeOf(rows, p.username, IdOf(t, p.username, p.collection))[id].modified;
      m.None? || m.value <= env.centis(req.server["HTTP_X_IF_UNMODIFIED_SINCE"])
    ensures !Conflict(req, env, rows, t, p)
  {
  }

  // ---- The listing and deletion filters of the query string ----

  function QueryParam(get: map<string, string>, key: string): Option<string> {
    if key in get then Some(get[key]) else None
  }

  /** A truthy timestamp parameter, as hundredths. */
  function TimeParam(get: map<string, string>, key: string, centis: string -> int): Option<int> {
    if key in get && Truthy(get[key]) then Some(centis(get[key])) else None
  }

  /** A truthy count parameter, through `intval`. */
  function CountParam(get: map<string, string>, key: string): Option<int> {
    if key in get && Truthy(get[key]) then Some(IntVal(get[key])) else None
  }

  /** The filters each query parameter is evidently meant for. */
  function QueryFilters(get: map<string, string>, centis: string -> int): Filters {
    NoFilters.(
      parentid := QueryParam(get, "parentid"),
      newer := TimeParam(get, "newer", centis),
      older := TimeParam(get, "older", centis),
      sort := QueryParam(get, "sort"),
      limit := CountParam(get, "limit"),
      offset := CountParam(get, "offset"))
  }

  /** A row is selected by the query exactly when it meets each parameter given. */
  lemma QueryFiltersSelect(get: map<string, string>, centis: string -> int, id: string, r: Row)
    ensures Matches(id, r, QueryFilters(get, centis)) <==>
      && ("parentid" in get && Truthy(get["parentid"]) ==> r.parentid == Some(get["parentid"]))
      && ("newer" in get && Truthy(get["newer"]) ==> Above(r.modified, centis(get["newer"])))
      && ("older" in get && Truthy(get["older"]) ==> Below(r.modified, centis(get["older"])))
  {
  }

  /**
   * As written, the six query values are passed one position early: the
   * parameter after `parentid` in both signatures is `predecessorid`, so
   * `newer` filters on the predecessor, `older` bounds the timestamp from
   * below, `sort` from above, `limit` becomes the sort, `offset` the limit,
   * and no offset is passed.
   */
  function FiltersAsWritten(get: map<string, string>, centis: string -> int): Filters {
    NoFilters.(
      parentid := QueryParam(get, "parentid"),
      predecessorid := QueryParam(get, "newer"),
      newer := TimeParam(get, "older", centis),
      older := TimeParam(get, "sort", centis),
      sort := QueryParam(get, "limit"),
      limit := CountParam(get, "offset"))
  }

  /** As written, `?newer=5` selects by predecessor "5" and drops a row newer than 5. */
  lemma ArgumentShiftCounterexample(centis: string -> int)
    ensures var get := map["newer" := "5"];
      var r := Row(None, None, None, Some(centis("5") + 1), None, None);
      Matches("a", r, QueryFilters(get, centis)) && !Matches("a", r, FiltersAsWritten(get, centis))
  {
  }

  // ---- The batch upload ----

  /** What one element of a POST batch comes to. */
  datatype Step =
    | Rejected(key: string, error: string)
    | Store(w: WBO)
    | Update(w: WBO)

  /**
   * One batch element: extracted, given the collection and the batch
   * timestamp, validated, then stored when it has a payload and updated
   * otherwise.
   */
  function StepOf(env: Environment, fragment: string, collection: string, now: int): (s: Step)
    ensures !s.Rejected? ==> s.w.collection == Some(collection) && s.w.modified == Some(now)
    ensures var w := env.extract(fragment).wbo.(collection := Some(collection), modified := Some(now));
      s.Store? <==> env.extract(fragment).ok && w.payload.Some? && env.validate(w).ok
  {
    var e := env.extract(fragment);
    if !e.ok then Rejected(StringOf(e.wbo.id), e.error)
    else
      var w := e.wbo.(collection := Some(collection), modified := Some(now));
      var v := env.validate(w);
      if !v.ok then Rejected(StringOf(w.id), v.error)
      else if w.payload.Some? then Store(w)
      else Update(w)
  }

  function Steps(env: Environment, fragments: seq<string>, collection: string, now: int): (steps: seq<Step>)
    ensures |steps| == |fragments|
    ensures forall i :: 0 <= i < |fragments| ==> steps[i] == StepOf(env, fragments[i], collection, now)
  {
    seq(|fragments|, i requires 0 <= i < |fragments| => StepOf(env, fragments[i], collection, now))
  }

  /** A store without an id violates `id NOT NULL`; every other write succeeds. */
  predicate Succeeds(s: Step) {
    s.Update? || (s.Store? && s.w.id.Some?)
  }

  /** The `$failed_ids` entry of a step that fails. */
  function Failure(s: Step): (string, string)
    requires !Succeeds(s)
  {
    if s.Rejected? then (s.key, s.error) else (StringOf(s.w.id), "Database unavailable")
  }

  /** `$success_ids`: the ids of the steps that succeeded, in batch order. */
  function SuccessIds(steps: seq<Step>): (r: seq<Option<string>>)
    ensures |r| <= |steps|
    decreases |steps|
  {
    if |steps| == 0 then []
    else
      var last := steps[|steps| - 1];
      if Succeeds(last) then SuccessIds(steps[..|steps| - 1]) + [last.w.id]
      else SuccessIds(steps[..|steps| - 1])
  }

  /** `$failed_ids`: each failure assigned under its id, in batch order. */
  function FailedIds(steps: seq<Step>): seq<(string, string)>
    decreases |steps|
  {
    if |steps| == 0 then []
    else
      var last := steps[|steps| - 1];
      if Succeeds(last) then FailedIds(steps[..|steps| - 1])
      else ArraySet(FailedIds(steps[..|steps| - 1]), Failure(last).0, Failure(last).1)
  }

  /** The number of steps that fail. */
  function FailureCount(steps: seq<Step>): nat
    decreases |steps|
  {
    if |steps| == 0 then 0
    else FailureCount(steps[..|steps| - 1]) + if Succeeds(steps[|steps| - 1]) then 0 else 1
  }

  /** The message of the last failing step with this key, as a reference for `$failed_ids`. */
  function LastFailure(steps: seq<Step>, key: string): Option<string>
    decreases |steps|
  {
    if |steps| == 0 then None
    else
      var last := steps[|steps| - 1];
      if !Succeeds(last) && Failure(last).0 == key then Some(Failure(last).1)
      else LastFailure(steps[..|steps| - 1], key)
  }

  /**
   * Every element of the batch is accounted for: the successes are
   * counted in `success`, every failure's key is in `failed` once, with the
   * message of its last failure.
   */
  lemma {:induction false} BatchAccounting(steps: seq<Step>, key: string)
    ensures |SuccessIds(steps)| + FailureCount(steps) == |steps|
    ensures DistinctKeys(FailedIds(steps))
    ensures ArrayGet(FailedIds(steps), key) == LastFailure(steps, key)
    decreases |steps|
  {
    if |steps| > 0 {
      var init := steps[..|steps| - 1];
      BatchAccounting(init, key);
      var last := steps[|steps| - 1];
      if !Succeeds(last) {
        ArraySetGet(FailedIds(init), Failure(last).0, Failure(last).1, key);
      }
    }
  }

  /**
   * `$success_ids` holds exactly the ids of the succeeding steps, in batch
   * order: `idx` lists the positions of those steps, increasing.
   */
  lemma {:induction false} SuccessIdsAreSucceeding(steps: seq<Step>) returns (idx: seq<nat>)
    ensures |idx| == |SuccessIds(steps)|
    ensures forall k :: 0 <= k < |idx| ==>
      idx[k] < |steps| && Succeeds(steps[idx[k]]) && SuccessIds(steps)[k] == steps[idx[k]].w.id
    ensures forall k, l :: 0 <= k < l < |idx| ==> idx[k] < idx[l]
    ensures forall i :: 0 <= i < |steps| && Succeeds(steps[i]) ==> i in idx
    decreases |steps|
  {
    if |steps| == 0 {
      idx := [];
    } else {
      var n := |steps| - 1;
      var init := steps[..n];
      var prev := SuccessIdsAreSucceeding(init);
      assert forall i :: 0 <= i < n ==> init[i] == steps[i];
      if Succeeds(steps[n]) {
        idx := prev + [n];
        assert SuccessIds(steps) == SuccessIds(init) + [steps[n].w.id];
      } else {
        idx := prev;
      }
    }
  }

  /** Whether a step makes the store resolve the collection's id (and so may allocate it). */
  predicate Resolves(s: Step) {
    s.Store? || (s.Update? && TruthyOpt(s.w.id) && HasUpdateFields(s.w))
  }

  predicate AnyResolves(steps: seq<Step>) {
    exists j :: 0 <= j < |steps| && Resolves(steps[j])
  }

  /** The rows after one step on collection `cid`. */
  function ApplyStep(rows: Rows, user: string, cid: int, s: Step): (r: Rows)
    ensures !Resolves(s) ==> r == rows
    ensures forall k :: k in rows && (s.Rejected? || s.w.id.None? || k != RowKey(user, cid, s.w.id.value)) ==>
      k in r && r[k] == rows[k]
  {
    match s
    case Rejected(_, _) => rows
    case Store(w) => if w.id.Some? then rows[RowKey(user, cid, w.id.value) := RowOf(w)] else rows
    case Update(w) =>
      if TruthyOpt(w.id) && HasUpdateFields(w) && RowKey(user, cid, w.id.value) in rows
      then rows[RowKey(user, cid, w.id.value) := Merge(rows[RowKey(user, cid, w.id.value)], w)]
      else rows
  }

  /** The rows after the steps, in order, on collection `cid`. */
  function ApplySteps(rows: Rows, user: string, cid: int, steps: seq<Step>): Rows
    decreases |steps|
  {
    if |steps| == 0 then rows
    else ApplyStep(ApplySteps(rows, user, cid, steps[..|steps| - 1]), user, cid, steps[|steps| - 1])
  }

  /** Steps that never touch the collection leave the rows as they were. */
  lemma {:induction false} QuietStepsKeepRows(rows: Rows, user: string, cid: int, steps: seq<Step>)
    requires !AnyResolves(steps)
    ensures ApplySteps(rows, user, cid, steps) == rows
    decreases |steps|
  {
    if |steps| > 0 {
      var init := steps[..|steps| - 1];
      forall j | 0 <= j < |init| ensures !Resolves(init[j]) {
        assert init[j] == steps[j];
      }
      QuietStepsKeepRows(rows, user, cid, init);
    }
  }

  /** Rows stored only in other collections, or only for other users, are untouched by a batch. */
  lemma {:induction false} BatchKeepsOtherRows(rows: Rows, user: string, cid: int, steps: seq<Step>, k: RowKey)
    requires k in rows && (k.username != user || k.collection != cid)
    ensures k in ApplySteps(rows, user, cid, steps) && ApplySteps(rows, user, cid, steps)[k] == rows[k]
    decreases |steps|
  {
    if |steps| > 0 {
      BatchKeepsOtherRows(rows, user, cid, steps[..|steps| - 1], k);
    }
  }

  /**
   * The store after some steps of a batch, from the store before it: rows
   * and table are unchanged until some step resolves the collection, then
   * the table has allocated it and the rows are the steps applied so far.
   */
  ghost predicate BatchState(r0: Rows, t0: Table, r: Rows, t: Table, user: string, collection: string, done: seq<Step>) {
    && (!AnyResolves(done) ==> r == r0 && t == t0)
    && (AnyResolves(done) ==> Allocates(t0, t, user, {collection}) && r == ApplySteps(r0, user, IdOf(t, user, collection), done))
  }

  /** One more step keeps `BatchState`. */
  lemma BatchStateStep(
    r0: Rows, t0: Table, r1: Rows, t1: Table, r2: Rows, t2: Table,
    user: string, collection: string, steps: seq<Step>, i: int)
    requires 0 <= i < |steps|
    requires BatchState(r0, t0, r1, t1, user, collection, steps[..i])
    requires !Resolves(steps[i]) ==> r2 == r1 && t2 == t1
    requires Resolves(steps[i]) ==>
      Allocates(t1, t2, user, {collection}) && r2 == ApplyStep(r1, user, IdOf(t2, user, collection), steps[i])
    ensures BatchState(r0, t0, r2, t2, user, collection, steps[..i + 1])
  {
    var pre := steps[..i + 1];
    assert pre[..i] == steps[..i] && pre[i] == steps[i];
    assert AnyResolves(pre) <==> AnyResolves(steps[..i]) || Resolves(steps[i]) by {
      if AnyResolves(pre) {
        var j :| 0 <= j < |pre| && Resolves(pre[j]);
        if j < i { assert steps[..i][j] == pre[j]; }
      }
      if AnyResolves(steps[..i]) {
        var j :| 0 <= j < i && Resolves(steps[..i][j]);
        assert pre[j] == steps[..i][j];
      }
    }
    if Resolves(steps[i]) {
      if AnyResolves(steps[..i]) {
        assert IdOf(t2, user, collection) == IdOf(t1, user, collection);
        AllocatesTrans(t0, t1, t2, user, {collection}, {collection});
        assert {collection} + {collection} == {collection};
      } else {
        QuietStepsKeepRows(r0, user, IdOf(t2, user, collection), steps[..i]);
      }
    } else if AnyResolves(steps[..i]) {
      assert ApplyStep(r1, user, IdOf(t2, user, collection), steps[i]) == r1;
    }
  }

  /** The result lists after one more step. */
  lemma BatchListsStep(steps: seq<Step>, i: int)
    requires 0 <= i < |steps|
    ensures SuccessIds(steps[..i + 1]) ==
      if Succeeds(steps[i]) then SuccessIds(steps[..i]) + [steps[i].w.id] else SuccessIds(steps[..i])
    ensures FailedIds(steps[..i + 1]) ==
      if Succeeds(steps[i]) then FailedIds(steps[..i]) else ArraySet(FailedIds(steps[..i]), Failure(steps[i]).0, Failure(steps[i]).1)
  {
    assert steps[..i + 1][..i] == steps[..i];
  }

  /** `store_object` for one record, or `update_object`. */
  method ApplyFragment(store: WeaveStorageMysql, s: Step, collection: string, now: int) returns (ok: bool)
    requires store.Valid() && Truthy(collection)
    requires !s.Rejected? ==> s.w.collection == Some(collection) && s.w.modified.Some?
    modifies store.db
    ensures store.Valid() && store.db.log == old(store.db.log)
    ensures ok <==> Succeeds(s)
    ensures !Resolves(s) ==> store.db.rows == old(store.db.rows) && store.db.collections == old(store.db.collections)
    ensures Resolves(s) ==>
      && Allocates(old(store.db.collections), store.db.collections, store.username, {collection})
      && store.db.rows == ApplyStep(old(store.db.rows), store.username, IdOf(store.db.collections, store.username, collection), s)
  {
    match s
    case Rejected(_, _) =>
      ok := false;
    case Store(w) =>
      assert CollectionNames([w]) == {collection} by {
        assert StringOf([w][0].collection) == collection;
        forall x | x in CollectionNames([w]) ensures x == collection {
          var i :| 0 <= i < 1 && StringOf([w][i].collection) == x;
        }
      }
      ok := store.StoreObject([w]);
      if ok {
        var es := Entries(store.username, store.db.collections, [w]);
        assert Upsert(old(store.db.rows), es) == old(store.db.rows)[es[0].0 := es[0].1] by {
          assert es == [es[0]];
          assert es[1..] == [];
        }
      }
    case Update(w) =>
      var res, w' := store.UpdateObject(w, now);
      ok := true;
  }

  /**
   * The loop over the batch: every element is attempted with the same
   * timestamp, in order, and a failure does not stop the loop.
   */
  method RunBatch(store: WeaveStorageMysql, env: Environment, fragments: seq<string>, collection: string, now: int)
    returns (success: seq<Option<string>>, failed: seq<(string, string)>)
    requires store.Valid() && Truthy(collection)
    modifies store.db
    ensures store.Valid() && store.db.log == old(store.db.log)
    ensures success == SuccessIds(Steps(env, fragments, collection, now))
    ensures failed == FailedIds(Steps(env, fragments, collection, now))
    ensures BatchState(old(store.db.rows), old(store.db.collections), store.db.rows, store.db.collections,
      store.username, collection, Steps(env, fragments, collection, now))
  {
    ghost var steps := Steps(env, fragments, collection, now);
    success := [];
    failed := [];
    var i := 0;
    while i < |fragments|
      invariant 0 <= i <= |fragments|
      invariant store.Valid() && store.db.log == old(store.db.log)
      invariant success == SuccessIds(steps[..i]) && failed == FailedIds(steps[..i])
      invariant BatchState(old(store.db.rows), old(store.db.collections), store.db.rows, store.db.collections,
        store.username, collection, steps[..i])
    {
      success, failed := BatchElement(store, env, fragments, collection, now, i, success, failed,
        old(store.db.rows), old(store.db.collections));
      i := i + 1;
    }
    assert steps[..i] == steps;
    assert success == SuccessIds(steps);
    assert failed == FailedIds(steps);
    assert BatchState(old(store.db.rows), old(store.db.collections), store.db.rows, store.db.collections,
      store.username, collection, steps);
  }

  /** One pass of the batch loop: element `i` is written and its outcome recorded. */
  method BatchElement(store: WeaveStorageMysql, env: Environment, fragments: seq<string>, collection: string, now: int,
    i: int, success: seq<Option<string>>, failed: seq<(string, string)>, ghost r0: Rows, ghost t0: Table)
    returns (success': seq<Option<string>>, failed': seq<(string, string)>)
    requires 0 <= i < |fragments|
    requires store.Valid() && Truthy(collection)
    requires success == SuccessIds(Steps(env, fragments, collection, now)[..i])
    requires failed == FailedIds(Steps(env, fragments, collection, now)[..i])
    requires BatchState(r0, t0, store.db.rows, store.db.collections, store.username, collection,
      Steps(env, fragments, collection, now)[..i])
    modifies store.db
    ensures store.Valid() && store.db.log == old(store.db.log)
    ensures success' == SuccessIds(Steps(env, fragments, collection, now)[..i + 1])
    ensures failed' == FailedIds(Steps(env, fragments, collection, now)[..i + 1])
    ensures BatchState(r0, t0, store.db.rows, store.db.collections, store.username, collection,
      Steps(env, fragments, collection, now)[..i + 1])
  {
    ghost var steps := Steps(env, fragments, collection, now);
    var s := StepOf(env, fragments[i], collection, now);
    ghost var r1, t1 := store.db.rows, store.db.collections;
    var ok := ApplyFragment(store, s, collection, now);
    BatchStateStep(r0, t0, r1, t1, store.db.rows, store.db.collections, store.username, collection, steps, i);
    BatchListsStep(steps, i);
    if ok {
      success' := success + [s.w.id];
      failed' := failed;
    } else {
      success' := success;
      failed' := ArraySet(failed, Failure(s).0, Failure(s).1);
    }
  }

  // ---- The listing writer ----

  /** The listing's elements joined by commas; nothing for no elements. */
  function JoinComma(items: seq<string>): string {
    if |items| == 0 then "" else Implode(',', items)
  }

  /** Items without commas can be recovered from the listing text. */
  lemma JoinCommaSplits(items: seq<string>)
    requires |items| >= 1
    requires forall i, k :: 0 <= i < |items| && 0 <= k < |items[i]| ==> items[i][k] != ','
    ensures Explode(',', JoinComma(items)) == items
  {
    ExplodeImplode(',', items);
  }

  /** The JSON text the listing writes for one fetched row. */
  function ItemOf(row: (string, Row), full: Option<string>, env: Environment): string {
    if TruthyOpt(full) then env.encodeRow(row.0, row.1) else env.encodeId(row.0)
  }

  function ItemsOf(rows: seq<(string, Row)>, full: Option<string>, env: Environment): (items: seq<string>)
    ensures |items| == |rows|
    ensures forall i :: 0 <= i < |rows| ==> items[i] == ItemOf(rows[i], full, env)
  {
    seq(|rows|, i requires 0 <= i < |rows| => ItemOf(rows[i], full, env))
  }

  /** The rows a listing fetches, in its order. */
  function Fetched(s: Scope, r: seq<string>): (rows: seq<(string, Row)>)
    requires forall i :: 0 <= i < |r| ==> r[i] in s
    ensures |rows| == |r|
    ensures forall i :: 0 <= i < |r| ==> rows[i] == (r[i], s[r[i]])
  {
    seq(|r|, i requires 0 <= i < |r| => (r[i], s[r[i]]))
  }

  /** The fetched (id, row) pairs, as the statement returns them. */
  function Zip(ids: seq<string>, records: seq<Row>): (rows: seq<(string, Row)>)
    requires |records| == |ids|
    ensures |rows| == |ids| && forall i :: 0 <= i < |ids| ==> rows[i] == (ids[i], records[i])
  {
    seq(|ids|, i requires 0 <= i < |ids| => (ids[i], records[i]))
  }

  lemma FetchedRows(s: Scope, ids: seq<string>, records: seq<Row>)
    requires |records| == |ids| && forall i :: 0 <= i < |ids| ==> ids[i] in s && records[i] == s[ids[i]]
    ensures Zip(ids, records) == Fetched(s, ids)
  {
  }

  /** The listing text for the records `r` of a scope. */
  function ListingText(s: Scope, r: seq<string>, full: Option<string>, env: Environment): string
    requires forall i :: 0 <= i < |r| ==> r[i] in s
  {
    "[" + JoinComma(ItemsOf(Fetched(s, r), full, env)) + "]"
  }

  /** The response lists some listing of the query, written out. */
  ghost predicate ListsQuery(s: Scope, f: Filters, full: Option<string>, env: Environment, headers: seq<string>, resp: Response) {
    exists r :: IsListing(s, f, r) && (forall i :: 0 <= i < |r| ==> r[i] in s) &&
      resp == Ok(headers, Listing(ListingText(s, r, full, env)))
  }

  lemma ListingGivesResponse(s: Scope, f: Filters, full: Option<string>, env: Environment, headers: seq<string>,
    r: seq<string>, resp: Response)
    requires IsListing(s, f, r) && forall i :: 0 <= i < |r| ==> r[i] in s
    requires resp == Ok(headers, Listing(ListingText(s, r, full, env)))
    ensures ListsQuery(s, f, full, env, headers, resp)
  {
  }

  /** `WBOJsonOutput`: streams a listing as a JSON array. */
  class WBOJsonOutput {
    /** `_full`: whole records rather than ids. */
    const full: Option<string>
    /** `_comma_flag`: an element has been written. */
    var commaFlag: bool
    /** What `echo` has written. */
    var out: string

    constructor (full: Option<string>)
      ensures this.full == full && !commaFlag && out == ""
    {
      this.full := full;
      commaFlag := false;
      out := "";
    }

    /**
     * `output`: "[", the items separated by commas, "]".  The flag is
     * never cleared, so a second call on a used writer starts with a comma.
     */
    method Output(rows: seq<(string, Row)>, env: Environment) returns (r: int)
      modifies this
      ensures r == 1
      ensures commaFlag == (old(commaFlag) || |rows| > 0)
      ensures out == old(out) + "[" + (if old(commaFlag) && |rows| > 0 then "," else "")
        + JoinComma(ItemsOf(rows, full, env)) + "]"
    {
      var items := ItemsOf(rows, full, env);
      ghost var out0, flag0 := out, commaFlag;
      out := out + "[";
      var i := 0;
      while i < |rows|
        invariant 0 <= i <= |rows|
        invariant commaFlag == (flag0 || i > 0)
        invariant out == out0 + "[" + (if flag0 && i > 0 then "," else "") + JoinComma(items[..i])
      {
        ListingStep(out0 + "[", items, i, flag0, out);
        if commaFlag {
          out := out + ",";
        } else {
          commaFlag := true;
        }
        out := out + ItemOf(rows[i], full, env);
        i := i + 1;
      }
      assert items[..i] == items;
      out := out + "]";
      r := 1;
    }
  }

  /** Writing item `i` after the first `i`: a comma before every item but a fresh writer's first. */
  lemma ListingStep(prefix: string, items: seq<string>, i: int, flag0: bool, cur: string)
    requires 0 <= i < |items|
    requires cur == prefix + (if flag0 && i > 0 then "," else "") + JoinComma(items[..i])
    ensures (if flag0 || i > 0 then cur + "," else cur) + items[i] ==
      prefix + (if flag0 then "," else "") + JoinComma(items[..i + 1])
  {
    if i == 0 {
      assert items[..1] == [items[0]];
      assert JoinComma(items[..0]) == "";
    } else {
      ImplodeSnoc(',', items[..i], items[i]);
      assert items[..i + 1] == items[..i] + [items[i]];
    }
  }

  /** A fresh writer writes "[]" for no rows and "[a,b,...]" otherwise. */
  method WriteListing(rows: seq<(string, Row)>, full: Option<string>, env: Environment) returns (text: string)
    ensures text == "[" + JoinComma(ItemsOf(rows, full, env)) + "]"
    ensures |rows| == 0 ==> text == "[]"
  {
    var outputter := new WBOJsonOutput(full);
    var _ := outputter.Output(rows, env);
    text := outputter.out;
  }

  // ---- The methods ----

  /** The precondition check shared by PUT, POST and DELETE. */
  method CheckUnmodified(store: WeaveStorageMysql, req: Request, env: Environment, p: Path) returns (conflict: bool)
    requires store.Valid() && store.username == p.username && Truthy(p.collection)
    modifies store.db
    ensures store.Valid()
    ensures store.db.rows == old(store.db.rows) && store.db.log == old(store.db.log)
    ensures "HTTP_X_IF_UNMODIFIED_SINCE" !in req.server ==> store.db.collections == old(store.db.collections)
    ensures "HTTP_X_IF_UNMODIFIED_SINCE" in req.server ==>
      Allocates(old(store.db.collections), store.db.collections, p.username, {p.collection})
    ensures conflict <==> Conflict(req, env, store.db.rows, store.db.collections, p)
  {
    var h := Server(req, "HTTP_X_IF_UNMODIFIED_SINCE");
    if h.None? {
      return false;
    }
    var m := store.GetMaxTimestamp(p.collection);
    conflict := m.Some? && m.value > env.centis(h.value);
  }

  /** GET of one record: the record, or 404 when there is none. */
  method GetRecord(store: WeaveStorageMysql, p: Path, headers: seq<string>) returns (resp: Response)
    requires store.Valid() && store.username == p.username && Truthy(p.collection) && Truthy(p.id)
    modifies store.db
    ensures store.Valid()
    ensures store.db.rows == old(store.db.rows) && store.db.log == old(store.db.log)
    ensures Allocates(old(store.db.collections), store.db.collections, p.username, {p.collection})
    ensures var key := RowKey(p.username, IdOf(store.db.collections, p.username, p.collection), p.id);
      resp == if key in store.db.rows then Ok(headers, Record(p.id, store.db.rows[key]))
        else ReportProblem(headers, Problem("record not found", 404))
  {
    var ok, ids, records := store.RetrieveObjects(p.collection, NoFilters.(id := Some(p.id)));
    ghost var s := ScopeOf(store.db.rows, p.username, IdOf(store.db.collections, p.username, p.collection));
    SingleIdListing(s, p.id, ids);
    if |ids| > 0 {
      resp := Ok(headers, Record(ids[0], records[0]));
    } else {
      resp := ReportProblem(headers, Problem("record not found", 404));
    }
  }

  /** GET of a listing: the query's filters, written out by a fresh `WBOJsonOutput`. */
  method GetListing(store: WeaveStorageMysql, req: Request, env: Environment, p: Path, headers: seq<string>)
    returns (resp: Response)
    requires store.Valid() && store.username == p.username && Truthy(p.collection)
    modifies store.db
    ensures store.Valid()
    ensures store.db.rows == old(store.db.rows) && store.db.log == old(store.db.log)
    ensures Allocates(old(store.db.collections), store.db.collections, p.username, {p.collection})
    ensures var f := QueryFilters(req.get, env.centis);
      var s := ScopeOf(store.db.rows, p.username, IdOf(store.db.collections, p.username, p.collection));
      if !WindowValid(f) then resp == ReportProblem(headers, Problem("Database unavailable", 503))
      else ListsQuery(s, f, QueryParam(req.get, "full"), env, headers, resp)
  {
    var f := QueryFilters(req.get, env.centis);
    var ok, ids, records := store.RetrieveObjects(p.collection, f);
    if !ok {
      return ReportProblem(headers, Problem("Database unavailable", 503));
    }
    ghost var s := ScopeOf(store.db.rows, p.username, IdOf(store.db.collections, p.username, p.collection));
    var rows := Zip(ids, records);
    FetchedRows(s, ids, records);
    var text := WriteListing(rows, QueryParam(req.get, "full"), env);
    resp := Ok(headers, Listing(text));
    ListingGivesResponse(s, f, QueryParam(req.get, "full"), env, headers, ids, resp);
  }

  /** GET: the collection list, one record, or a listing. */
  method HandleGet(req: Request, env: Environment, db: Database, p: Path, headers: seq<string>) returns (resp: Response)
    requires db.Valid()
    modifies db
    ensures db.Valid()
    ensures db.rows == old(db.rows) && db.log == old(db.log)
    ensures env.storageFailure.Some? ==>
      resp == ReportProblem(headers, env.storageFailure.value) && db.collections == old(db.collections)
    ensures env.storageFailure.None? && !Truthy(p.collection) ==> resp == Ok(headers, CollectionList)
    ensures env.storageFailure.None? && Truthy(p.collection) && Truthy(p.id) ==>
      var key := RowKey(p.username, IdOf(db.collections, p.username, p.collection), p.id);
      resp == if key in db.rows then Ok(headers, Record(p.id, db.rows[key]))
        else ReportProblem(headers, Problem("record not found", 404))
    ensures env.storageFailure.None? && Truthy(p.collection) && !Truthy(p.id) ==>
      var f := QueryFilters(req.get, env.centis);
      var s := ScopeOf(db.rows, p.username, IdOf(db.collections, p.username, p.collection));
      if !WindowValid(f) then resp == ReportProblem(headers, Problem("Database unavailable", 503))
      else ListsQuery(s, f, QueryParam(req.get, "full"), env, headers, resp)
  {
    if env.storageFailure.Some? {
      return ReportProblem(headers, env.storageFailure.value);
    }
    var store := new WeaveStorageMysql(p.username, db);
    if !Truthy(p.collection) {
      return Ok(headers, CollectionList);
    }
    if Truthy(p.id) {
      resp := GetRecord(store, p, headers);
    } else {
      resp := GetListing(store, req, env, p, headers);
    }
  }

  /** The record PUT writes: the path's id when the body has none, the path's collection, the time. */
  function PutRecord(w: WBO, p: Path, now: int): (r: WBO)
    ensures r.collection == Some(p.collection) && r.modified == Some(now)
    ensures TruthyOpt(w.id) ==> r.id == w.id
    ensures !TruthyOpt(w.id) && Truthy(p.id) ==> r.id == Some(p.id)
    ensures r.(id := w.id, collection := w.collection, modified := w.modified) == w
  {
    var w0 := if !TruthyOpt(w.id) && Truthy(p.id) then w.(id := Some(p.id)) else w;
    w0.(collection := Some(p.collection), modified := Some(now))
  }

  /** The write PUT makes: a store when the record has a payload, an update otherwise. */
  function PutStep(w: WBO): (s: Step)
    ensures !s.Rejected? && s.w == w
    ensures s.Store? <==> w.payload.Some?
  {
    if w.payload.Some? then Store(w) else Update(w)
  }

  /** PUT: one record. */
  method HandlePut(req: Request, env: Environment, db: Database, p: Path, headers: seq<string>, now: int)
    returns (resp: Response)
    requires db.Valid() && Truthy(p.collection)
    modifies db
    ensures db.Valid() && db.log == old(db.log)
    ensures !env.extract(req.input).ok ==>
      resp == ReportProblem(headers, Problem("6", 400)) && db.rows == old(db.rows) && db.collections == old(db.collections)
    ensures env.extract(req.input).ok && env.storageFailure.Some? ==>
      resp == ReportProblem(headers, env.storageFailure.value) && db.rows == old(db.rows) && db.collections == old(db.collections)
    ensures env.extract(req.input).ok && env.storageFailure.None? ==>
      var w := PutRecord(env.extract(req.input).wbo, p, now);
      if Conflict(req, env, old(db.rows), db.collections, p) then
        resp == ReportProblem(headers, Problem("4", 412)) && db.rows == old(db.rows)
      else if !env.validate(w).ok then
        resp == ReportProblem(headers, Problem("8", 400)) && db.rows == old(db.rows)
      else
        && db.rows == ApplyStep(old(db.rows), p.username, IdOf(db.collections, p.username, p.collection), PutStep(w))
        && resp == if Succeeds(PutStep(w)) then Ok(headers, Timestamp(now))
             else ReportProblem(headers, Problem("Database unavailable", 503))
  {
    var e := env.extract(req.input);
    if !e.ok {
      return ReportProblem(headers, Problem("6", 400));
    }
    if env.storageFailure.Some? {
      return ReportProblem(headers, env.storageFailure.value);
    }
    var store := new WeaveStorageMysql(p.username, db);
    var conflict := CheckUnmodified(store, req, env, p);
    if conflict {
      return ReportProblem(headers, Problem("4", 412));
    }
    ghost var t1 := db.collections;
    var w := PutRecord(e.wbo, p, now);
    if !env.validate(w).ok {
      return ReportProblem(headers, Problem("8", 400));
    }
    var ok := ApplyFragment(store, PutStep(w), p.collection, now);
    if Resolves(PutStep(w)) {
      ConflictOnlyReadsTheCollection(req, env, old(db.rows), t1, db.collections, p);
    }
    if !ok {
      return ReportProblem(headers, Problem("Database unavailable", 503));
    }
    resp := Ok(headers, Timestamp(now));
  }

  /** POST once the batch is decoded and the store is open. */
  method PostBatch(store: WeaveStorageMysql, req: Request, env: Environment, batch: seq<string>, p: Path,
    headers: seq<string>, now: int) returns (resp: Response)
    requires store.Valid() && store.username == p.username && Truthy(p.collection)
    modifies store.db
    ensures store.Valid()
    ensures var steps := Steps(env, batch, p.collection, now);
      if Conflict(req, env, old(store.db.rows), store.db.collections, p) then
        && resp == ReportProblem(headers, Problem("4", 412))
        && store.db.rows == old(store.db.rows) && store.db.log == old(store.db.log)
      else
        && store.db.log == old(store.db.log) + [Begin, Commit]
        && resp == Ok(headers, BatchResult(now, SuccessIds(steps), FailedIds(steps)))
        && store.db.rows == ApplySteps(old(store.db.rows), p.username,
             IdOf(store.db.collections, p.username, p.collection), steps)
  {
    var conflict := CheckUnmodified(store, req, env, p);
    if conflict {
      return ReportProblem(headers, Problem("4", 412));
    }
    ghost var r1, t1 := store.db.rows, store.db.collections;
    store.BeginTransaction();
    var success, failed := RunBatch(store, env, batch, p.collection, now);
    store.CommitTransaction();
    ghost var steps := Steps(env, batch, p.collection, now);
    if AnyResolves(steps) {
      ConflictOnlyReadsTheCollection(req, env, r1, t1, store.db.collections, p);
    } else {
      QuietStepsKeepRows(r1, p.username, IdOf(store.db.collections, p.username, p.collection), steps);
    }
    resp := Ok(headers, BatchResult(now, success, failed));
  }

  /** POST: a batch of records in one transaction. */
  method HandlePost(req: Request, env: Environment, db: Database, p: Path, headers: seq<string>, now: int)
    returns (resp: Response)
    requires db.Valid() && Truthy(p.collection)
    modifies db
    ensures db.Valid()
    ensures env.decodeBatch(req.input).None? || env.decodeBatch(req.input) == Some([]) ==>
      && resp == ReportProblem(headers, Problem("6", 400))
      && db.rows == old(db.rows) && db.collections == old(db.collections) && db.log == old(db.log)
    ensures env.decodeBatch(req.input).Some? && |env.decodeBatch(req.input).value| > 0 && env.storageFailure.Some? ==>
      && resp == ReportProblem(headers, env.storageFailure.value)
      && db.rows == old(db.rows) && db.collections == old(db.collections) && db.log == old(db.log)
    ensures env.decodeBatch(req.input).Some? && |env.decodeBatch(req.input).value| > 0 && env.storageFailure.None? ==>
      var steps := Steps(env, env.decodeBatch(req.input).value, p.collection, now);
      if Conflict(req, env, old(db.rows), db.collections, p) then
        resp == ReportProblem(headers, Problem("4", 412)) && db.rows == old(db.rows) && db.log == old(db.log)
      else
        && db.log == old(db.log) + [Begin, Commit]
        && resp == Ok(headers, BatchResult(now, SuccessIds(steps), FailedIds(steps)))
        && db.rows == ApplySteps(old(db.rows), p.username, IdOf(db.collections, p.username, p.collection), steps)
  {
    var batch := env.decodeBatch(req.input);
    if batch.None? || |batch.value| == 0 {
      return ReportProblem(headers, Problem("6", 400));
    }
    if env.storageFailure.Some? {
      return ReportProblem(headers, env.storageFailure.value);
    }
    var store := new WeaveStorageMysql(p.username, db);
    resp := PostBatch(store, req, env, batch.value, p, headers, now);
  }

  /** DELETE: one record, or every record the query selects. */
  method HandleDelete(req: Request, env: Environment, db: Database, p: Path, headers: seq<string>, now: int)
    returns (resp: Response)
    requires db.Valid() && Truthy(p.collection)
    modifies db
    ensures db.Valid() && db.log == old(db.log)
    ensures env.storageFailure.Some? ==>
      resp == ReportProblem(headers, env.storageFailure.value) && db.rows == old(db.rows) && db.collections == old(db.collections)
    ensures env.storageFailure.None? && Conflict(req, env, old(db.rows), db.collections, p) ==>
      resp == ReportProblem(headers, Problem("4", 412)) && db.rows == old(db.rows)
    ensures env.storageFailure.None? && !Conflict(req, env, old(db.rows), db.collections, p) && Truthy(p.id) ==>
      && resp == Ok(headers, Timestamp(now))
      && db.rows == old(db.rows) - {RowKey(p.username, IdOf(db.collections, p.username, p.collection), p.id)}
    ensures env.storageFailure.None? && !Conflict(req, env, old(db.rows), db.collections, p) && !Truthy(p.id) ==>
      var f := QueryFilters(req.get, env.centis);
      var cid := IdOf(db.collections, p.username, p.collection);
      if WindowValid(f) && !(HasLimit(f) && f.offset.Some?) then
        && resp == Ok(headers, Timestamp(now))
        && exists r :: IsListing(ScopeOf(old(db.rows), p.username, cid), f, r) && db.rows == Without(old(db.rows), p.username, cid, Elems(r))
      else
        resp == ReportProblem(headers, Problem("Database unavailable", 503)) && db.rows == old(db.rows)
  {
    if env.storageFailure.Some? {
      return ReportProblem(headers, env.storageFailure.value);
    }
    var store := new WeaveStorageMysql(p.username, db);
    var conflict := CheckUnmodified(store, req, env, p);
    if conflict {
      return ReportProblem(headers, Problem("4", 412));
    }
    ghost var t1 := db.collections;
    if Truthy(p.id) {
      store.DeleteObject(p.collection, p.id);
      ConflictOnlyReadsTheCollection(req, env, old(db.rows), t1, db.collections, p);
      resp := Ok(headers, Timestamp(now));
    } else {
      var ok, deleted := store.DeleteObjects(p.collection, QueryFilters(req.get, env.centis));
      ConflictOnlyReadsTheCollection(req, env, old(db.rows), t1, db.collections, p);
      if !ok {
        return ReportProblem(headers, Problem("Database unavailable", 503));
      }
      resp := Ok(headers, Timestamp(now));
    }
  }

  /**
   * One request, from the headers to the response.  A refused request
   * touches no table; only POST uses a transaction; GET changes no row;
   * and every response other than 200 leaves the rows as they were.
   */
  method Handle(req: Request, env: Environment, db: Database, now: int) returns (resp: Response)
    requires db.Valid()
    modifies db
    ensures db.Valid()
    ensures Admit(req, env).Refused? ==>
      resp == Admit(req, env).response
      && db.rows == old(db.rows) && db.collections == old(db.collections) && db.log == old(db.log)
    ensures Admit(req, env).Admitted? && RequestMethod(req) !in {"GET", "PUT", "POST", "DELETE"} ==>
      resp == ReportProblem(Admit(req, env).headers, Problem("1", 400))
      && db.rows == old(db.rows) && db.collections == old(db.collections) && db.log == old(db.log)
    ensures resp.code != 200 ==> db.rows == old(db.rows)
    ensures RequestMethod(req) != "POST" ==> db.log == old(db.log)
    ensures RequestMethod(req) == "GET" ==> db.rows == old(db.rows)
  {
    var admission := Admit(req, env);
    if admission.Refused? {
      return admission.response;
    }
    AdmissionConditions(req, env);
    var p, headers := admission.path, admission.headers;
    var verb := RequestMethod(req);
    if verb == "GET" {
      resp := HandleGet(req, env, db, p, headers);
    } else if verb == "PUT" {
      resp := HandlePut(req, env, db, p, headers, now);
    } else if verb == "POST" {
      resp := HandlePost(req, env, db, p, headers, now);
    } else if verb == "DELETE" {
      resp := HandleDelete(req, env, db, p, headers, now);
    } else {
      resp := ReportProblem(headers, Problem("1", 400));
    }
  }
}
