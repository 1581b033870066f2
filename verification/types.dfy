/** The enumerations of lib/types.ts and the HTTP responses the route handlers return. */
module Types {
  import opened Wrappers
  import opened Json

  /** The workflow a case moves through. */
  datatype CaseStatus = Submitted | UnderReview | Verified | Rejected | ScheduledForPodcast | Published

  /** The kinds of loss a case can report. */
  datatype LossType = Money | Time | Opportunity | Meeting | Other

  /** How a status is written in stored records. */
  function StatusName(s: CaseStatus): string
  {
    match s
    case Submitted => "submitted"
    case UnderReview => "under_review"
    case Verified => "verified"
    case Rejected => "rejected"
    case ScheduledForPodcast => "scheduled_for_podcast"
    case Published => "published"
  }

  /** How a loss type is written in stored records and in the submit form. */
  function LossTypeName(t: LossType): string
  {
    match t
    case Money => "money"
    case Time => "time"
    case Opportunity => "opportunity"
    case Meeting => "meeting"
    case Other => "other"
  }

  /** The status a stored name denotes, if any. */
  function ParseStatus(name: string): (r: Option<CaseStatus>)
    ensures r.Some? ==> StatusName(r.value) == name
  {
    if name == "submitted" then Some(Submitted)
    else if name == "under_review" then Some(UnderReview)
    else if name == "verified" then Some(Verified)
    else if name == "rejected" then Some(Rejected)
    else if name == "scheduled_for_podcast" then Some(ScheduledForPodcast)
    else if name == "published" then Some(Published)
    else None
  }

  /** Status names are distinct: the name of a status parses back to that status. */
  lemma StatusNameRoundTrip(s: CaseStatus)
    ensures ParseStatus(StatusName(s)) == Some(s)
  {
  }

  /** Whether a string names one of the loss types. */
  predicate IsLossTypeName(name: string)
  {
    exists t: LossType :: LossTypeName(t) == name
  }

  /** The user fields a response may show: `{ id, email, name, phone }` and never the password. */
  const PublicKeys: set<string> := {"id", "email", "name", "phone"}

  /**
   * The `user` object of the signup and login responses: the public fields of a stored
   * user. A field the record lacks is `undefined` in the literal and so absent in JSON.
   */
  function PublicUser(u: Record): (r: Record)
    ensures "password" !in r
    ensures forall k :: k in r <==> k in u && k in PublicKeys
    ensures forall k | k in r :: r[k] == u[k]
  {
    map k | k in u && k in PublicKeys :: u[k]
  }

  /** The JWT payload `{ userId: user.id, email: user.email }`. */
  function TokenPayload(u: Record): (r: Record)
    ensures Get(r, "userId") == Get(u, "id")
    ensures Get(r, "email") == Get(u, "email")
    ensures forall k | k in r :: k == "userId" || k == "email"
  {
    WithOptional(WithOptional(map[], "userId", Get(u, "id")), "email", Get(u, "email"))
  }

  /** The body of a JSON response. */
  datatype Body =
    | Error(message: string)                 // { error }
    | Auth(token: string, user: Record)      // { success, token, user }
    | CaseCreated(caseRecord: Record)        // { success, case }
    | CaseList(cases: seq<Record>)           // { cases }
    | Config(config: Record)                 // the configuration record itself

  /** A JSON response with its HTTP status code. */
  datatype Response = Response(status: int, body: Body)

  /** The answer of every handler's `catch` block. */
  const InternalError := Response(500, Error("Internal server error"))
}
