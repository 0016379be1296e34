/**
 * FListApiClient: the session state of the client (credentials, ticket,
 * validity and the pending login), the rule that decides whether a request
 * logs in first, the parameters and URL of the POST it makes, and the gate
 * that turns a response carrying `error` into a rejection.
 *
 * The HTTP transport is an oracle whose reply is a parameter, the clock is a
 * parameter, and each asynchronous step of a request is a method the caller
 * runs when the promise it waits for settles:
 *   Request              the synchronous part of request(): parameters, the
 *                        login decision, and authenticate() when it applies;
 *   Send                 the first `.then`: the ticket and the POST;
 *   HandleResponse       the second `.then`: the error gate and fixupContent;
 *   SettleAuthentication the `.then` of authenticate(), or its rejection.
 */
module ApiClient {
  import opened Wrappers
  import opened Calendar
  import opened Normalize

  const BaseUrl: string := "https://www.f-list.net/json/"
  const LoginEndpoint: string := "getApiTicket"

  /** How long a ticket is taken to be valid: 24 * 60 * 60 * 1000 milliseconds. */
  const TicketLifetime: int := 86_400_000

  // ---- values as the client reads them ----

  /** JavaScript truthiness of a property that may be missing (None is `undefined`). */
  predicate Truthy(v: Option<Json>) {
    match v
    case None => false
    case Some(JNull) => false
    case Some(JBool(b)) => b
    case Some(JNumber(n)) => n != 0.0
    case Some(JString(s)) => s != ""
    case Some(_) => true
  }

  /**
   * The value of the entry named `key`. An object holds each key at most once
   * (`UniqueKeys`, see `OnlyEntry`); were a key repeated, as JSON text may do
   * before JSON.parse merges it, the last entry is the one read.
   */
  function LastEntry(fs: seq<Field>, key: string): (r: Option<Json>)
    ensures r.Some? <==> exists i :: 0 <= i < |fs| && fs[i].key == key
    ensures r.Some? ==> exists i :: 0 <= i < |fs| && fs[i].key == key && fs[i].value == r.value &&
                                   forall j :: i < j < |fs| ==> fs[j].key != key
  {
    if fs == [] then None
    else if fs[|fs| - 1].key == key then Some(fs[|fs| - 1].value)
    else
      var r := LastEntry(fs[..|fs| - 1], key);
      assert forall i :: 0 <= i < |fs| - 1 ==> fs[..|fs| - 1][i] == fs[i];
      r
  }

  /** `v[key]` on anything but null: only an object has named entries. */
  function Member(v: Json, key: string): Option<Json> {
    if v.JObject? then LastEntry(v.fields, key) else None
  }

  // ---- the session ----

  /** The `authPromise` slot: never set, pending, or settled (fulfilled or rejected). */
  datatype AuthPromise = Unset | Pending(id: nat) | Settled(id: nat, fulfilled: bool)

  /** The number of the latest login promise; 0 before the first. */
  function LastId(p: AuthPromise): nat {
    if p.Unset? then 0 else p.id
  }

  /** What the client holds between calls. */
  datatype Session = Session(username: string, password: string, ticket: Option<Json>,
                             validUntil: Option<int>, authResponse: Option<Json>, authPromise: AuthPromise)

  /** The options of one request; `undefined` is false. */
  datatype Flags = Flags(skipAuth: bool, forceAuth: bool, doNotUseApi: bool)

  /** The options authenticate() passes to its login request. */
  const LoginFlags: Flags := Flags(true, false, true)

  /** shouldAuth: a username is held. */
  predicate ShouldAuth(s: Session) {
    s.username != ""
  }

  /** isAuthenticated: `validUntil` is set, non-zero, and later than `now`. */
  predicate IsAuthenticated(s: Session, now: int) {
    s.validUntil.Some? && s.validUntil.value != 0 && s.validUntil.value > now
  }

  /** Whether request() calls authenticate() before sending. */
  predicate AuthFirst(s: Session, f: Flags, now: int) {
    (ShouldAuth(s) && !IsAuthenticated(s, now) && !f.skipAuth) || f.forceAuth
  }

  /** Whether authenticate() starts a login: no login promise is pending. */
  predicate StartsLogin(s: Session)
    ensures StartsLogin(s) ==> AuthenticateStep(s).authPromise == Pending(LastId(s.authPromise) + 1)
    ensures !StartsLogin(s) ==> AuthenticateStep(s) == s
  {
    !s.authPromise.Pending?
  }

  /** The session after authenticate(): a pending login is reused, otherwise a new one is pending. */
  function AuthenticateStep(s: Session): (r: Session)
    ensures r.authPromise.Pending?
    ensures r.(authPromise := s.authPromise) == s
  {
    if s.authPromise.Pending? then s else s.(authPromise := Pending(LastId(s.authPromise) + 1))
  }

  /** The session once the login settles at `now`: on success the ticket and its validity, otherwise only the promise. */
  function Settle(s: Session, outcome: Result<Json, RequestError>, now: int): Session {
    var id := LastId(s.authPromise);
    match outcome
    case Success(response) =>
      s.(ticket := Member(response, "ticket"), validUntil := Some(now + TicketLifetime),
         authResponse := Some(response), authPromise := Settled(id, true))
    case Failure(_) =>
      s.(authPromise := Settled(id, false))
  }

  /** The parameters of the login request before the client adds anything. */
  function LoginParams(s: Session): (r: map<string, Json>)
    ensures r.Keys == {"password"} && r["password"] == JString(s.password)
    ensures WithAccount(s, r).Keys == {"password", "account"}
  {
    map["password" := JString(s.password)]
  }

  /** `params.account = username`, done by every request. */
  function WithAccount(s: Session, params: map<string, Json>): (r: map<string, Json>)
    ensures "account" in r && r["account"] == JString(s.username)
    ensures forall k :: k in params && k != "account" ==> k in r && r[k] == params[k]
    ensures forall k :: k in r ==> k in params || k == "account"
  {
    params["account" := JString(s.username)]
  }

  /** `params.ticket = ticket` when the held ticket is truthy at the time the request is sent. */
  function WithTicket(s: Session, params: map<string, Json>): (r: map<string, Json>)
    ensures Truthy(s.ticket) ==> "ticket" in r && r["ticket"] == s.ticket.value
    ensures !Truthy(s.ticket) ==> r == params
    ensures forall k :: k in params && k != "ticket" ==> k in r && r[k] == params[k]
    ensures forall k :: k in r ==> k in params || k == "ticket"
  {
    if Truthy(s.ticket) then params["ticket" := s.ticket.value] else params
  }

  /** The address a request posts to. */
  function Url(endPoint: string, doNotUseApi: bool): string {
    BaseUrl + (if doNotUseApi then "" else "api/") + endPoint + ".php"
  }

  // ---- responses ----

  /** Why a request is rejected. */
  datatype RequestError =
    | TransportError(reason: string)   // the transport oracle failed
    | ServerError(error: Json)         // `new Error(body.error)`
    | NullBody                         // reading `error` of a null body throws a TypeError
    | WalkThrew(message: string)       // fixupContent as written threw

  /** What the transport oracle gives back for one POST. */
  datatype Reply = Delivered(body: Json) | Unreachable(reason: string)

  /** The value the request promise settles with, fixupContent taken with its own-property guard corrected. */
  function Outcome(reply: Reply, now: int): Result<Json, RequestError> {
    match reply
    case Unreachable(reason) => Failure(TransportError(reason))
    case Delivered(body) =>
      if body.JNull? then Failure(NullBody)
      else if Truthy(Member(body, "error")) then Failure(ServerError(Member(body, "error").value))
      else Success(Normalized(body, now))
  }

  /**
   * The same step with fixupContent exactly as written: a body in which the
   * walk meets an own `hasOwnProperty` entry rejects with the TypeError.
   */
  function OutcomeAsWritten(reply: Reply, now: int): Result<Json, RequestError> {
    match reply
    case Unreachable(reason) => Failure(TransportError(reason))
    case Delivered(body) =>
      if body.JNull? then Failure(NullBody)
      else if Truthy(Member(body, "error")) then Failure(ServerError(Member(body, "error").value))
      else
        var walked := AsWritten(body, now);
        if walked.Failure? then Failure(WalkThrew(walked.error)) else Success(walked.value)
  }

  // ---- the client ----

  /** A parameters object; request() writes into the one its caller passes. */
  class Params {
    var entries: map<string, Json>

    constructor(entries: map<string, Json>)
      ensures this.entries == entries
    {
      this.entries := entries;
    }
  }

  /** The options object of request(); a null `params` is `undefined`. */
  datatype RequestOptions = RequestOptions(params: Params?, skipAuth: bool, forceAuth: bool, doNotUseApi: bool)
  {
    function AsFlags(): Flags {
      Flags(skipAuth, forceAuth, doNotUseApi)
    }
  }

  /** A request whose first `.then` has not run yet. */
  datatype Call = Call(endPoint: string, params: Params, doNotUseApi: bool, awaitsAuth: bool)

  /** The POST the transport is asked to make; `json: true` and the method are fixed. */
  datatype Post = Post(url: string, form: map<string, Json>)

  class FListApiClient {
    var username: string
    var password: string
    var ticket: Option<Json>
    var validUntil: Option<int>
    var authResponse: Option<Json>
    var authPromise: AuthPromise

    function State(): Session
      reads this
    {
      Session(username, password, ticket, validUntil, authResponse, authPromise)
    }

    constructor(username: string, password: string)
      ensures State() == Session(username, password, None, None, None, Unset)
    {
      this.username := username;
      this.password := password;
      ticket := None;
      validUntil := None;
      authResponse := None;
      authPromise := Unset;
    }

    /**
     * request(endPoint, options) up to its first `.then`: writes the account
     * into the parameters (the caller's object when there is one) and, when
     * the login rule says so, calls authenticate(). `login` is the login
     * request authenticate() started, if it started one.
     */
    method Request(endPoint: string, options: RequestOptions, now: int) returns (call: Call, login: Option<Call>)
      modifies this, options.params
      decreases if options.skipAuth && !options.forceAuth then 0 else 2
      ensures options.params != null ==> call.params == options.params
      ensures options.params == null ==> fresh(call.params)
      ensures call.params.entries
           == WithAccount(old(State()), if options.params != null then old(options.params.entries) else map[])
      ensures call == Call(endPoint, call.params, options.doNotUseApi, AuthFirst(old(State()), options.AsFlags(), now))
      ensures State() == if call.awaitsAuth then AuthenticateStep(old(State())) else old(State())
      ensures login.Some? <==> call.awaitsAuth && StartsLogin(old(State()))
      ensures login.Some? ==> fresh(login.value.params) && login.value.params.entries == WithAccount(old(State()), LoginParams(old(State())))
      ensures login.Some? ==> login.value == Call(LoginEndpoint, login.value.params, true, false)
    {
      var params: Params;
      if options.params != null {
        params := options.params;
      } else {
        params := new Params(map[]);
      }
      params.entries := WithAccount(State(), params.entries);
      var first := AuthFirst(State(), options.AsFlags(), now);
      login := None;
      if first {
        var _, started := Authenticate(now);
        login := started;
      }
      call := Call(endPoint, params, options.doNotUseApi, first);
    }

    /**
     * authenticate(): returns the pending login promise when there is one;
     * otherwise starts the login request and makes its promise the pending
     * one. `promise` identifies the promise returned.
     */
    method Authenticate(now: int) returns (promise: nat, login: Option<Call>)
      modifies this
      decreases 1
      ensures State() == AuthenticateStep(old(State()))
      ensures promise == State().authPromise.id
      ensures old(authPromise).Pending? ==> promise == old(authPromise).id
      ensures login.Some? <==> StartsLogin(old(State()))
      ensures login.Some? ==> fresh(login.value.params) && login.value.params.entries == WithAccount(old(State()), LoginParams(old(State())))
      ensures login.Some? ==> login.value == Call(LoginEndpoint, login.value.params, true, false)
    {
      if authPromise.Pending? {
        return authPromise.id, None;
      }
      var params := new Params(LoginParams(State()));
      var call, _ := Request(LoginEndpoint, RequestOptions(params, LoginFlags.skipAuth, LoginFlags.forceAuth, LoginFlags.doNotUseApi), now);
      authPromise := Pending(LastId(authPromise) + 1);
      promise := authPromise.id;
      login := Some(call);
    }

    /** The first `.then` of request(): the ticket held at that moment, if truthy, and the POST. */
    method Send(call: Call) returns (post: Post)
      modifies call.params
      ensures call.params.entries == WithTicket(State(), old(call.params.entries))
      ensures post == Post(Url(call.endPoint, call.doNotUseApi), call.params.entries)
    {
      if Truthy(ticket) {
        call.params.entries := call.params.entries["ticket" := ticket.value];
      }
      post := Post(Url(call.endPoint, call.doNotUseApi), call.params.entries);
    }

    /** The second `.then` of request(): a truthy `error` rejects, anything else is fixed up and returned. */
    static method HandleResponse(reply: Reply, now: int) returns (r: Result<Json, RequestError>)
      requires InTimeRange(now)
      ensures r == Outcome(reply, now)
    {
      match reply
      case Unreachable(reason) =>
        r := Failure(TransportError(reason));
      case Delivered(body) =>
        if body.JNull? {
          r := Failure(NullBody);
        } else {
          var error := Member(body, "error");
          if Truthy(error) {
            r := Failure(ServerError(error.value));
          } else {
            var fixed := FixupContent(body, now);
            r := Success(fixed);
          }
        }
    }

    /** The login promise settles: on success its `.then` stores the ticket, validity and response. */
    method SettleAuthentication(outcome: Result<Json, RequestError>, now: int)
      requires authPromise.Pending?
      modifies this
      ensures State() == Settle(old(State()), outcome, now)
    {
      var id := LastId(authPromise);
      if outcome.Success? {
        validUntil := Some(now + TicketLifetime);
        authResponse := Some(outcome.value);
        ticket := Member(outcome.value, "ticket");
        authPromise := Settled(id, true);
      } else {
        authPromise := Settled(id, false);
      }
    }
  }

  // ---- what the rules imply ----

  /** The login request never waits for a login itself, whatever the session and the clock. */
  lemma LoginNeverAwaitsAuth(s: Session, now: int)
    ensures !AuthFirst(s, LoginFlags, now)
  {
  }

  /** A second authenticate() while the first login is pending starts nothing and changes nothing. */
  lemma AuthenticateDeduplicates(s: Session)
    ensures !StartsLogin(AuthenticateStep(s))
    ensures AuthenticateStep(AuthenticateStep(s)) == AuthenticateStep(s)
    ensures s.authPromise.Pending? ==> AuthenticateStep(s) == s
  {
  }

  /** Once the login settles, either way, the next authenticate() starts a new login with a new promise. */
  lemma SettledLoginRearms(s: Session, outcome: Result<Json, RequestError>, now: int)
    requires s.authPromise.Pending?
    ensures StartsLogin(Settle(s, outcome, now))
    ensures AuthenticateStep(Settle(s, outcome, now)).authPromise == Pending(s.authPromise.id + 1)
  {
  }

  /** A failed login leaves the ticket, its validity and the last login response as they were. */
  lemma FailedLoginKeepsTicket(s: Session, error: RequestError, now: int)
    ensures var r := Settle(s, Failure(error), now);
            r.ticket == s.ticket && r.validUntil == s.validUntil && r.authResponse == s.authResponse &&
            r.username == s.username && r.password == s.password
  {
  }

  /**
   * For a day after a successful login the client counts as authenticated,
   * so a request logs in first only when forced to.
   */
  lemma FreshTicketSkipsLogin(s: Session, response: Json, t: int, now: int, f: Flags)
    requires t <= now < t + TicketLifetime && t + TicketLifetime != 0
    ensures IsAuthenticated(Settle(s, Success(response), t), now)
    ensures AuthFirst(Settle(s, Success(response), t), f, now) <==> f.forceAuth
  {
  }

  /** From the end of that day on, a client with a username logs in before every request that does not skip it. */
  lemma ExpiredTicketLogsIn(s: Session, response: Json, t: int, now: int, f: Flags)
    requires now >= t + TicketLifetime
    ensures !IsAuthenticated(Settle(s, Success(response), t), now)
    ensures AuthFirst(Settle(s, Success(response), t), f, now) <==> (s.username != "" && !f.skipAuth) || f.forceAuth
  {
  }

  /** A new client with a username logs in before its first request unless told to skip it. */
  lemma NewClientLogsIn(username: string, password: string, f: Flags, now: int)
    requires username != ""
    ensures var s := Session(username, password, None, None, None, Unset);
            (AuthFirst(s, f, now) <==> !f.skipAuth || f.forceAuth) && StartsLogin(s)
  {
  }

  /** Every address starts with the base and ends with ".php"; the "api/" prefix can also be written into the endpoint. */
  lemma UrlShape(endPoint: string, doNotUseApi: bool)
    ensures var u := Url(endPoint, doNotUseApi);
            |u| >= |BaseUrl| + 4 && u[..|BaseUrl|] == BaseUrl && u[|u| - 4..] == ".php"
    ensures Url(endPoint, false) == Url("api/" + endPoint, true)
  {
    var u := Url(endPoint, doNotUseApi);
    var middle := (if doNotUseApi then "" else "api/") + endPoint;
    assert u == BaseUrl + middle + ".php";
    assert Url("api/" + endPoint, true) == BaseUrl + "" + ("api/" + endPoint) + ".php";
    assert Url(endPoint, false) == BaseUrl + "api/" + endPoint + ".php";
  }

  /** With the same flag, different endpoints post to different addresses. */
  lemma UrlDistinguishesEndpoints(e1: string, e2: string, doNotUseApi: bool)
    requires Url(e1, doNotUseApi) == Url(e2, doNotUseApi)
    ensures e1 == e2
  {
    var prefix := BaseUrl + (if doNotUseApi then "" else "api/");
    var u := Url(e1, doNotUseApi);
    assert u == prefix + e1 + ".php";
    assert Url(e2, doNotUseApi) == prefix + e2 + ".php";
    assert |e1| == |e2|;
    assert e1 == u[|prefix|..|prefix| + |e1|];
    assert e2 == u[|prefix|..|prefix| + |e2|];
  }

  /** The login POST goes to getApiTicket.php outside "api/", with the password, the account and any ticket still held. */
  lemma LoginPost(s: Session)
    ensures Url(LoginEndpoint, LoginFlags.doNotUseApi) == BaseUrl + "getApiTicket.php"
    ensures var form := WithTicket(s, WithAccount(s, LoginParams(s)));
            form["password"] == JString(s.password) && form["account"] == JString(s.username) &&
            ("ticket" in form <==> Truthy(s.ticket))
  {
    assert Url(LoginEndpoint, true) == BaseUrl + "" + "getApiTicket" + ".php";
  }

  /** The error gate: a reply is rejected exactly when it is null or carries a truthy `error`, and fixupContent does not run then. */
  lemma ErrorGate(body: Json, now: int)
    ensures Outcome(Delivered(body), now).Failure? <==> body.JNull? || Truthy(Member(body, "error"))
    ensures Outcome(Delivered(body), now).Success? ==> Outcome(Delivered(body), now).value == Normalized(body, now)
  {
  }

  /** A reply without date strings under marker keys comes back as it was sent. */
  /** In an object that holds each key once, `v[key]` is the value of the one entry with that key. */
  lemma OnlyEntry(fs: seq<Field>, key: string, i: nat)
    requires UniqueKeys(fs) && i < |fs| && fs[i].key == key
    ensures Member(JObject(fs), key) == Some(fs[i].value)
  {
    LastIsMember(fs, key, i);
  }

  /**
   * An entry the walk neither converts nor enters reads the same after it:
   * `ticket` or `error` holding a string, say, is what `Settle` and the gate
   * see either way.
   */
  lemma NormalizedKeepsMember(body: Json, key: string, now: int)
    requires !IsMarker(key)
    requires Member(body, key).Some? ==> !IsObject(Member(body, key).value)
    ensures Member(Normalized(body, now), key) == Member(body, key)
  {
    if body.JObject? {
      var fs := body.fields;
      var gs := FixupFields(fs, now);
      forall i | 0 <= i < |fs|
        ensures gs[i].key == fs[i].key
        ensures gs[i].key == key && (forall j :: i < j < |fs| ==> fs[j].key != key) ==> gs[i] == fs[i]
      {
        FixupFieldsAt(fs, i, now);
        if fs[i].key == key && (forall j :: i < j < |fs| ==> fs[j].key != key) {
          LastIsMember(fs, key, i);
        }
      }
      var r := LastEntry(fs, key);
      if r.Some? {
        var i :| 0 <= i < |fs| && fs[i].key == key && fs[i].value == r.value &&
                 forall j :: i < j < |fs| ==> fs[j].key != key;
        LastIsMember(gs, key, i);
      } else {
        assert forall i :: 0 <= i < |gs| ==> gs[i].key != key;
      }
    }
  }

  /** The entry after which no other has the key is the one read. */
  lemma LastIsMember(fs: seq<Field>, key: string, i: nat)
    requires i < |fs| && fs[i].key == key && forall j :: i < j < |fs| ==> fs[j].key != key
    ensures LastEntry(fs, key) == Some(fs[i].value)
  {
    var r := LastEntry(fs, key);
    var k :| 0 <= k < |fs| && fs[k].key == key && fs[k].value == r.value &&
             forall j :: k < j < |fs| ==> fs[j].key != key;
    assert k == i;
  }

  /** A body JSON.parse could give resolves, if at all, to a value JSON.parse could give. */
  lemma OutcomeKeepsDistinctKeys(body: Json, now: int)
    requires DistinctKeys(body)
    ensures Outcome(Delivered(body), now).Success? ==> DistinctKeys(Outcome(Delivered(body), now).value)
  {
    NormalizedKeepsDistinctKeys(body, now);
  }

  lemma PlainReplyUnchanged(body: Json, now: int)
    requires !body.JNull? && !Truthy(Member(body, "error")) && !MarkerIn(body)
    ensures Outcome(Delivered(body), now) == Success(body)
  {
    UnmarkedUnchanged(body, now);
  }

  /**
   * A whole session: a new client with a username logs in before its first
   * request; once the login returns a truthy ticket, requests within the day
   * neither log in nor fail to carry that ticket.
   */
  lemma TicketReachesLaterRequests(username: string, password: string, response: Json, t: int, now: int,
                                   f: Flags, params: map<string, Json>)
    requires username != "" && !f.skipAuth && !f.forceAuth
    requires Truthy(Member(response, "ticket"))
    requires t <= now < t + TicketLifetime && t + TicketLifetime != 0
    ensures var s0 := Session(username, password, None, None, None, Unset);
            var s1 := AuthenticateStep(s0);
            var s2 := Settle(s1, Success(response), t);
            AuthFirst(s0, f, t) && StartsLogin(s0) && !AuthFirst(s2, f, now) &&
            WithTicket(s2, WithAccount(s2, params))["ticket"] == Member(response, "ticket").value
  {
  }

  /**
   * The request as written and the request the model runs settle alike on
   * every reply whose body holds no object with an own `hasOwnProperty` entry
   * where the walk goes.
   */
  lemma OutcomesAgree(reply: Reply, now: int)
    requires reply.Delivered? ==> !ShadowIn(reply.body)
    ensures OutcomeAsWritten(reply, now) == Outcome(reply, now)
  {
    if reply.Delivered? {
      AsWrittenAgrees(reply.body, now);
    }
  }

  /** On `{"hasOwnProperty": 1}` the request as written rejects, where the model resolves with the body. */
  lemma ShadowedReplyRejects(body: Json, now: int)
    requires body == JObject([Field("hasOwnProperty", JNumber(1.0))])
    ensures OutcomeAsWritten(Delivered(body), now) == Failure(WalkThrew(NotAFunction))
    ensures Outcome(Delivered(body), now) == Success(body)
  {
    ShadowedGuardThrows(now, body);
    assert Member(body, "error") == None by {
      assert body.fields[0].key != "error";
    }
  }
}
