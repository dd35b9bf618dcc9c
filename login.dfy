/**
 * The login handler (POST /), the session-presence query (GET /) and logout
 * (POST /logout). The caller's session is a single optional email.
 */
module Login {
  import opened Wrappers
  import opened Strings
  import opened Roles
  import opened RosterLookup

  /** The email columns of the three role tables the handler may query. */
  datatype Rosters = Rosters(assistants: seq<string>, students: seq<string>, teachers: seq<string>)

  /** The table a non-administrator claim is looked up in. */
  function RosterFor(rosters: Rosters, role: Role): seq<string>
    requires role != Administrator
  {
    match role
    case TeachingAssistant => rosters.assistants
    case Student => rosters.students
    case Teacher => rosters.teachers
  }

  /** The responses of the login handler. */
  datatype LoginOutcome =
    | Authenticated(email: string)  // 200 { email }, and the session email is set to it
    | Unauthorized                  // 401 { loggedIn: false }
    | ServerError                   // 500: a missing email or a failing query

  /**
   * The response to a login request. `body` is `req.body.email` (None when absent);
   * `queryFails` says whether the roster query throws.
   */
  function Respond(body: Option<string>, rosters: Rosters, collate: string -> string, queryFails: bool): (o: LoginOutcome)
    ensures body.None? ==> o == ServerError
    ensures body.Some? && Includes(body.value, AdminMarker) ==> o == Authenticated(body.value)
    ensures body.Some? && !Includes(body.value, AdminMarker) && queryFails ==> o == ServerError
    ensures body.Some? && !Includes(body.value, AdminMarker) && !queryFails ==>
      var roster := RosterFor(rosters, Classify(body.value));
      && (o.Unauthorized? <==> forall j :: 0 <= j < |roster| ==> collate(roster[j]) != collate(body.value))
      && (o.Authenticated? <==> exists j :: 0 <= j < |roster| && collate(roster[j]) == collate(body.value))
      && (o.Authenticated? ==> exists i :: FirstMatchAt(roster, body.value, collate, i) && roster[i] == o.email)
  {
    match body
    case None => ServerError
    case Some(email) =>
      var role := Classify(email);
      if role == Administrator then Authenticated(email)
      else if queryFails then ServerError
      else match FirstMatch(RosterFor(rosters, role), email, collate)
        case Some(canonical) => Authenticated(canonical)
        case None => Unauthorized
  }

  /** An administrator claim is answered without a lookup: neither the rosters nor the database can change the answer. */
  lemma AdministratorSkipsLookup(email: string, r1: Rosters, r2: Rosters, c1: string -> string, c2: string -> string, f1: bool, f2: bool)
    requires Includes(email, AdminMarker)
    ensures Respond(Some(email), r1, c1, f1) == Respond(Some(email), r2, c2, f2) == Authenticated(email)
  {
  }

  /** A non-administrator claim consults exactly one roster: the other two do not affect the answer. */
  lemma OneRosterConsulted(email: string, r1: Rosters, r2: Rosters, collate: string -> string, queryFails: bool)
    requires !Includes(email, AdminMarker)
    requires RosterFor(r1, Classify(email)) == RosterFor(r2, Classify(email))
    ensures Respond(Some(email), r1, collate, queryFails) == Respond(Some(email), r2, collate, queryFails)
  {
  }

  /** An assistant-marked claim is looked up in the assistant roster alone, though it also holds the student marker. */
  lemma AssistantClaimUsesAssistantRoster(email: string, rosters: Rosters, students: seq<string>, teachers: seq<string>,
                                          collate: string -> string, queryFails: bool)
    requires Includes(email, AssistantMarker) && !Includes(email, AdminMarker)
    ensures Respond(Some(email), rosters, collate, queryFails) ==
            Respond(Some(email), Rosters(rosters.assistants, students, teachers), collate, queryFails)
    ensures !queryFails ==>
      (Respond(Some(email), rosters, collate, queryFails) == Unauthorized <==>
       forall j :: 0 <= j < |rosters.assistants| ==> collate(rosters.assistants[j]) != collate(email))
  {
    AssistantBeatsStudent(email);
  }

  /** Under an exact comparison, a successful non-administrator login authenticates the claimed email itself. */
  lemma ExactComparisonKeepsClaim(email: string, rosters: Rosters, queryFails: bool)
    requires Respond(Some(email), rosters, s => s, queryFails).Authenticated?
    ensures Respond(Some(email), rosters, s => s, queryFails) == Authenticated(email)
  {
    if !Includes(email, AdminMarker) {
      var roster := RosterFor(rosters, Classify(email));
      var i :| FirstMatchAt(roster, email, s => s, i);
    }
  }

  /** The reply of the presence query. */
  datatype Presence = LoggedIn(email: string) | LoggedOut

  /** `if (req.session.email)`: JavaScript truthiness, so an empty email counts as absent. */
  function PresenceOf(stored: Option<string>): (p: Presence)
    ensures p.LoggedIn? <==> stored.Some? && stored.value != ""
    ensures p.LoggedIn? ==> stored == Some(p.email)
  {
    if stored.Some? && stored.value != "" then LoggedIn(stored.value) else LoggedOut
  }

  /** The session email a login leaves behind: set on success, untouched otherwise. */
  function AfterLogin(stored: Option<string>, o: LoginOutcome): Option<string>
  {
    if o.Authenticated? then Some(o.email) else stored
  }

  /** After a successful login the presence query reports the authenticated email (unless it is empty). */
  lemma LoginThenPresence(stored: Option<string>, body: Option<string>, rosters: Rosters, collate: string -> string, queryFails: bool)
    requires Respond(body, rosters, collate, queryFails).Authenticated?
    ensures var o := Respond(body, rosters, collate, queryFails);
      PresenceOf(AfterLogin(stored, o)) == if o.email == "" then LoggedOut else LoggedIn(o.email)
  {
  }

  /** Logging in twice keeps only the latest email. */
  lemma SecondLoginOverwrites(stored: Option<string>, o1: LoginOutcome, o2: LoginOutcome)
    requires o2.Authenticated?
    ensures AfterLogin(AfterLogin(stored, o1), o2) == Some(o2.email)
  {
  }

  /** The responses of logout. */
  datatype LogoutOutcome =
    | LoggedOutOk     // 200 "Logout successful", the cookie cleared
    | LogoutFailed    // 500: the store could not destroy the session
    | NotLoggedIn     // 401 "You are not logged in"

  /** The caller's session as the session store holds it. */
  class Session {
    var email: Option<string>

    /** A caller with no stored session. */
    constructor ()
      ensures email == None
    {
      email := None;
    }

    /** POST /: classify, look up, and on success store the canonical email. */
    method Login(body: Option<string>, rosters: Rosters, collate: string -> string, queryFails: bool) returns (o: LoginOutcome)
      modifies this
      ensures o == Respond(body, rosters, collate, queryFails)
      ensures email == AfterLogin(old(email), o)
    {
      if body.None? {
        return ServerError;
      }
      var claim := body.value;
      if Includes(claim, AdminMarker) {
        email := Some(claim);
        return Authenticated(claim);
      }
      if queryFails {
        return ServerError;
      }
      var user := FirstMatch(RosterFor(rosters, Classify(claim)), claim, collate);
      if user.Some? {
        email := Some(user.value);
        o := Authenticated(user.value);
      } else {
        o := Unauthorized;
      }
    }

    /** GET /: report whether the session holds an email. */
    method Query() returns (p: Presence)
      ensures p == PresenceOf(email)
    {
      if email.Some? && email.value != "" {
        p := LoggedIn(email.value);
      } else {
        p := LoggedOut;
      }
    }

    /**
     * POST /logout. `attached` is whether `req.session` is set; `storeFails`
     * whether the store reports an error while destroying the session.
     */
    method Logout(attached: bool, storeFails: bool) returns (o: LogoutOutcome)
      modifies this
      ensures !attached ==> o == NotLoggedIn && email == old(email)
      ensures attached && storeFails ==> o == LogoutFailed && email == old(email)
      ensures attached && !storeFails ==> o == LoggedOutOk && email == None
    {
      if !attached {
        return NotLoggedIn;
      }
      if storeFails {
        return LogoutFailed;
      }
      email := None;
      o := LoggedOutOk;
    }
  }

  /** Login, query, logout, query, as a client of the session's contracts. */
  method SessionRoundTrip(claim: string, rosters: Rosters)
    requires Includes(claim, AdminMarker)
  {
    var session := new Session();
    var o := session.Login(Some(claim), rosters, s => s, false);
    assert o == Authenticated(claim);
    assert claim != "";
    var p := session.Query();
    assert p == LoggedIn(claim);
    var out := session.Logout(true, false);
    assert out == LoggedOutOk;
    p := session.Query();
    assert p == LoggedOut;
    out := session.Logout(false, false);
    assert out == NotLoggedIn;
  }
}
