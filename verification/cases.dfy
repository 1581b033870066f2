/**
 * app/api/cases/route.ts: POST files a new case for the signed-in user, GET lists that
 * user's cases, newest first. Both first check the bearer token.
 */
module CasesRoute {
  import opened Wrappers
  import opened Json
  import opened Arrays
  import opened Strings
  import opened Types
  import opened Storage

  const Unauthorized := Response(401, Error("Unauthorized"))
  const InvalidToken := Response(401, Error("Invalid token"))
  const MissingFields := Response(400, Error("All required fields must be provided"))
  const NoLossType := Response(400, Error("At least one loss type must be selected"))
  const SubmittedMessage := "Your case has been submitted successfully and is under review."

  // ---------------------------------------------------------------- authentication

  /**
   * The bearer check shared by both handlers. `header` is the authorization header
   * (None when absent) and `verify` stands for verifyToken. The token is what follows
   * the seven characters of "Bearer ".
   */
  function Authenticate(header: Option<string>, verify: string -> Option<Record>): (r: Result<Record, Response>)
    ensures header.None? || !StartsWith(header.value, "Bearer ") ==> r == Err(Unauthorized)
    ensures header.Some? && StartsWith(header.value, "Bearer ") ==>
      |header.value| >= 7 &&
      r == match verify(header.value[7..]) case None => Err(InvalidToken) case Some(d) => Ok(d)
  {
    if header.None? || !StartsWith(header.value, "Bearer ") then Err(Unauthorized)
    else
      match verify(header.value[7..])
      case None => Err(InvalidToken)
      case Some(decoded) => Ok(decoded)
  }

  /** The token handed to the verifier is exactly the text written after "Bearer ". */
  lemma BearerTokenRoundTrip(token: string, verify: string -> Option<Record>)
    ensures Authenticate(Some("Bearer " + token), verify)
         == match verify(token) case None => Err(InvalidToken) case Some(d) => Ok(d)
  {
    var h := "Bearer " + token;
    assert h[..7] == "Bearer ";
    assert h[7..] == token;
  }

  /** Only 401 responses come out of a failed check. */
  lemma AuthenticationFailuresAre401(header: Option<string>, verify: string -> Option<Record>)
    ensures Authenticate(header, verify).Err? ==> Authenticate(header, verify).error.status == 401
  {
  }

  // ---------------------------------------------------------------- POST

  /** The fields copied from the body into the case record; an absent one stays absent. */
  const CopiedKeys: set<string> :=
    {"companyName", "domain", "incidentDate", "description", "lossTypes",
     "contactName", "contactEmail", "contactPhone"}

  /** The fields the handler sets itself. */
  const OwnKeys: set<string> := {"id", "userId", "status", "monetaryLoss", "createdAt", "updatedAt"}

  predicate HasRequiredFields(body: Record)
  {
    && Truthy(Get(body, "companyName")) && Truthy(Get(body, "domain"))
    && Truthy(Get(body, "incidentDate")) && Truthy(Get(body, "description"))
    && Truthy(Get(body, "lossTypes")) && Truthy(Get(body, "contactName"))
    && Truthy(Get(body, "contactEmail")) && Truthy(Get(body, "contactPhone"))
  }

  /** `Array.isArray(lossTypes) && lossTypes.length > 0` */
  predicate HasLossTypes(body: Record)
  {
    "lossTypes" in body && body["lossTypes"].Arr? && |body["lossTypes"].items| > 0
  }

  /** The two validation checks, in order: required fields, then a non-empty loss-type array. */
  function ValidateCase(body: Record): (r: Option<Response>)
    ensures r.None? <==> HasRequiredFields(body) && HasLossTypes(body)
    ensures !HasRequiredFields(body) ==> r == Some(MissingFields)
    ensures HasRequiredFields(body) && !HasLossTypes(body) ==> r == Some(NoLossType)
  {
    if !HasRequiredFields(body) then Some(MissingFields)
    else if !HasLossTypes(body) then Some(NoLossType)
    else None
  }

  /** An empty loss-type array passes the presence check (arrays are truthy) and fails the second. */
  lemma EmptyLossTypesRejected(body: Record)
    requires HasRequiredFields(body["lossTypes" := Arr([])])
    ensures ValidateCase(body["lossTypes" := Arr([])]) == Some(NoLossType)
  {
  }

  /** `monetaryLoss ? parseFloat(monetaryLoss) : undefined` */
  function MonetaryLoss(body: Record, parseFloat: Value -> Value): (v: Option<Value>)
    ensures v.Some? <==> Truthy(Get(body, "monetaryLoss"))
    ensures v.Some? ==> v == Some(parseFloat(body["monetaryLoss"]))
  {
    if Truthy(Get(body, "monetaryLoss")) then Some(parseFloat(body["monetaryLoss"])) else None
  }

  /**
   * The case record written by a successful POST. `userId` is the token's `userId`
   * (None when the payload has none), `parseFloat` stands for the number conversion of
   * `monetaryLoss`, and fields whose value is `undefined` are absent. `createdAt` and
   * `updatedAt` are two separate readings of the clock.
   */
  function NewCase(body: Record, userId: Option<Value>, parseFloat: Value -> Value,
                   id: string, createdAt: string, updatedAt: string): (c: Record)
    ensures Get(c, "id") == Some(Str(id))
    ensures Get(c, "userId") == userId
    ensures Get(c, "status") == Some(Str(StatusName(Submitted)))
    ensures Get(c, "createdAt") == Some(Str(createdAt))
    ensures Get(c, "updatedAt") == Some(Str(updatedAt))
  {
    var owned := WithOptional(Stamp(CopyFields(body), id, createdAt, updatedAt), "userId", userId);
    WithOptional(owned, "monetaryLoss", MonetaryLoss(body, parseFloat))
  }

  /** The body's fields reach the case record as sent, `monetaryLoss` only when truthy. */
  lemma NewCaseCopiesBody(body: Record, userId: Option<Value>, parseFloat: Value -> Value,
                          id: string, createdAt: string, updatedAt: string)
    ensures forall k | k in CopiedKeys ::
      Get(NewCase(body, userId, parseFloat, id, createdAt, updatedAt), k) == Get(body, k)
    ensures Get(NewCase(body, userId, parseFloat, id, createdAt, updatedAt), "monetaryLoss")
         == MonetaryLoss(body, parseFloat)
  {
    var owned := WithOptional(Stamp(CopyFields(body), id, createdAt, updatedAt), "userId", userId);
    assert "userId" !in CopiedKeys && "monetaryLoss" !in CopiedKeys;
    assert NewCase(body, userId, parseFloat, id, createdAt, updatedAt)
        == WithOptional(owned, "monetaryLoss", MonetaryLoss(body, parseFloat));
  }

  /** The case record has no field besides the copied ones and the handler's own. */
  lemma NewCaseHasNoOtherField(body: Record, userId: Option<Value>, parseFloat: Value -> Value,
                               id: string, createdAt: string, updatedAt: string)
    ensures forall k | k in NewCase(body, userId, parseFloat, id, createdAt, updatedAt) ::
      k in CopiedKeys || k in OwnKeys
  {
    var owned := WithOptional(Stamp(CopyFields(body), id, createdAt, updatedAt), "userId", userId);
    assert forall k | k in owned :: k in CopiedKeys || k in OwnKeys;
  }

  /** The body fields the case record takes over, each only if the body has it. */
  function CopyFields(body: Record): (c: Record)
    ensures forall k | k in CopiedKeys :: Get(c, k) == Get(body, k)
    ensures forall k | k in c :: k in CopiedKeys
  {
    map k | k in body && k in CopiedKeys :: body[k]
  }

  /** The id, the initial status and the two timestamps. */
  function Stamp(c: Record, id: string, createdAt: string, updatedAt: string): (r: Record)
    requires forall k | k in c :: k in CopiedKeys
    ensures Get(r, "id") == Some(Str(id))
    ensures Get(r, "status") == Some(Str("submitted"))
    ensures Get(r, "createdAt") == Some(Str(createdAt))
    ensures Get(r, "updatedAt") == Some(Str(updatedAt))
    ensures forall k | k in CopiedKeys :: Get(r, k) == Get(c, k)
    ensures forall k | k in r :: k in CopiedKeys || k in OwnKeys
  {
    c["id" := Str(id)]["status" := Str("submitted")]["createdAt" := Str(createdAt)]["updatedAt" := Str(updatedAt)]
  }

  /**
   * The first entry of the case's history, written by the system. `createdAt` is the
   * clock read after the case has been stored.
   */
  function NewUpdate(caseId: string, id: string, createdAt: string): (u: Record)
    ensures Get(u, "caseId") == Some(Str(caseId))
    ensures Get(u, "createdBy") == Some(Str("system"))
    ensures Get(u, "message") == Some(Str(SubmittedMessage))
    ensures Get(u, "createdAt") == Some(Str(createdAt))
    ensures u.Keys == {"id", "caseId", "message", "createdAt", "createdBy"}
  {
    map["id" := Str(id), "caseId" := Str(caseId), "message" := Str(SubmittedMessage),
        "createdAt" := Str(createdAt), "createdBy" := Str("system")]
  }

  /**
   * Loss types are stored as sent: a value that names none of the five loss types
   * still reaches the stored case.
   */
  lemma LossTypesNotChecked(body: Record, userId: Option<Value>, parseFloat: Value -> Value,
                            id: string, createdAt: string, updatedAt: string)
    requires HasRequiredFields(body)
    requires body["lossTypes"] == Arr([Str("refund")])
    ensures ValidateCase(body).None?
    ensures !IsLossTypeName("refund")
    ensures Get(NewCase(body, userId, parseFloat, id, createdAt, updatedAt), "lossTypes")
         == Some(Arr([Str("refund")]))
  {
    assert forall t: LossType :: LossTypeName(t) != "refund";
  }

  /**
   * `POST`. `body` is None when the request body cannot be parsed or is `null` (both
   * throw, so the handler answers 500); a body that parses to an array, a string, a
   * number or a boolean has no fields and is `Some(map[])`. `caseId` and `updateId` are
   * the two ids generateId produces. `createdAt` and `updatedAt` are the two clock
   * readings for the case, and `updateTime` the later one for its first update.
   */
  method Post(store: Collections, header: Option<string>, verify: string -> Option<Record>,
              body: Option<Record>, parseFloat: Value -> Value,
              caseId: string, updateId: string,
              createdAt: string, updatedAt: string, updateTime: string) returns (res: Response)
    requires store.Valid()
    modifies store.cases, store.updates
    ensures unchanged(store.users, store.admins, store.config)
    ensures Authenticate(header, verify).Err? ==>
      res == Authenticate(header, verify).error && unchanged(store.cases, store.updates)
    ensures Authenticate(header, verify).Ok? && body.None? ==>
      res == InternalError && unchanged(store.cases, store.updates)
    ensures Authenticate(header, verify).Ok? && body.Some? && ValidateCase(body.value).Some? ==>
      res == ValidateCase(body.value).value && unchanged(store.cases, store.updates)
    ensures Authenticate(header, verify).Ok? && body.Some? && ValidateCase(body.value).None? ==>
      var decoded := Authenticate(header, verify).value;
      var c := NewCase(body.value, Get(decoded, "userId"), parseFloat, caseId, createdAt, updatedAt);
      && store.cases.file == Some(old(store.cases.Contents()) + [c])
      && store.updates.file == Some(old(store.updates.Contents()) + [NewUpdate(caseId, updateId, updateTime)])
      && res == Response(201, CaseCreated(c))
  {
    var auth := Authenticate(header, verify);
    if auth.Err? {
      return auth.error;
    }
    if body.None? {
      return InternalError;
    }
    var invalid := ValidateCase(body.value);
    if invalid.Some? {
      return invalid.value;
    }
    var c := NewCase(body.value, Get(auth.value, "userId"), parseFloat, caseId, createdAt, updatedAt);
    var caseData := store.cases.Create(c);
    var _ := store.updates.Create(NewUpdate(caseId, updateId, updateTime));
    res := Response(201, CaseCreated(caseData));
  }

  // ---------------------------------------------------------------- GET

  /**
   * `c => c.userId === decoded.userId`: both may be `undefined`. The token and the cases
   * file are parsed separately, so an array or object userId matches no case.
   */
  function OwnedBy(userId: Option<Value>): Record -> bool
  {
    c => SameProperty(Get(c, "userId"), userId)
  }

  /**
   * A case is owned only by the userId it stores; for a userId that is absent or not an
   * array or object, exactly by that userId.
   */
  lemma OwnedByMatches(userId: Option<Value>, c: Record)
    ensures OwnedBy(userId)(c) ==> Get(c, "userId") == userId
    ensures userId.None? || !(userId.value.Arr? || userId.value.Obj?) ==>
      (OwnedBy(userId)(c) <==> Get(c, "userId") == userId)
  {
  }

  /** A token whose userId is an array or an object sees no cases. */
  lemma {:induction false} StructuredUserIdOwnsNothing(cases: seq<Record>, userId: Value)
    requires userId.Arr? || userId.Obj?
    ensures Filter(cases, OwnedBy(Some(userId))) == []
  {
    if cases != [] {
      StructuredUserIdOwnsNothing(cases[1..], userId);
    }
  }

  /** Newest first by the time key. */
  predicate NewestFirst(s: seq<Record>, key: Record -> int)
  {
    forall i, j | 0 <= i < j < |s| :: key(s[i]) >= key(s[j])
  }

  /** Puts `x` in front of the first element that is not newer than it (an equal time counts). */
  function Insert(x: Record, s: seq<Record>, key: Record -> int): (r: seq<Record>)
    requires NewestFirst(s, key)
    ensures NewestFirst(r, key)
    ensures multiset(r) == multiset(s) + multiset{x}
    ensures |r| == |s| + 1 && (r[0] == x || (s != [] && r[0] == s[0]))
  {
    if s == [] || key(x) >= key(s[0]) then
      ConsNewestFirst(x, s, key);
      [x] + s
    else
      TailNewestFirst(s, key);
      var rest := Insert(x, s[1..], key);
      InsertBehind(x, s, rest, key);
      [s[0]] + rest
  }

  /** The step of `Insert` that keeps `x` behind the head of `s`. */
  lemma InsertBehind(x: Record, s: seq<Record>, rest: seq<Record>, key: Record -> int)
    requires s != [] && NewestFirst(s, key) && key(x) < key(s[0])
    requires NewestFirst(rest, key) && multiset(rest) == multiset(s[1..]) + multiset{x}
    requires rest != [] && (rest[0] == x || (|s| > 1 && rest[0] == s[1]))
    ensures NewestFirst([s[0]] + rest, key)
    ensures multiset([s[0]] + rest) == multiset(s) + multiset{x}
  {
    assert s == [s[0]] + s[1..];
    ConsNewestFirst(s[0], rest, key);
  }

  lemma TailNewestFirst(s: seq<Record>, key: Record -> int)
    requires s != [] && NewestFirst(s, key)
    ensures NewestFirst(s[1..], key)
  {
    forall i, j | 0 <= i < j < |s| - 1 ensures key(s[1..][i]) >= key(s[1..][j]) {
      assert s[1..][i] == s[i + 1] && s[1..][j] == s[j + 1];
    }
  }

  /** An element no older than the head of an ordered list can go in front of it. */
  lemma ConsNewestFirst(y: Record, s: seq<Record>, key: Record -> int)
    requires NewestFirst(s, key)
    requires s == [] || key(y) >= key(s[0])
    ensures NewestFirst([y] + s, key)
  {
    var r := [y] + s;
    forall i, j | 0 <= i < j < |r| ensures key(r[i]) >= key(r[j]) {
      if i == 0 {
        assert r[j] == s[j - 1];
        assert key(s[0]) >= key(s[j - 1]) || j == 1;
      } else {
        assert r[i] == s[i - 1] && r[j] == s[j - 1];
      }
    }
  }

  /**
   * `cases.sort((a, b) => key(b) - key(a))`. `key` stands for
   * `new Date(createdAt).getTime()`; elements with equal keys keep their order.
   */
  function SortNewestFirst(s: seq<Record>, key: Record -> int): (r: seq<Record>)
    ensures NewestFirst(r, key)
    ensures multiset(r) == multiset(s)
  {
    if s == [] then []
    else
      assert s == [s[0]] + s[1..];
      Insert(s[0], SortNewestFirst(s[1..], key), key)
  }

  /** Sorting an already ordered list leaves it as it is. */
  lemma {:induction false} SortOrderedIsIdentity(s: seq<Record>, key: Record -> int)
    requires NewestFirst(s, key)
    ensures SortNewestFirst(s, key) == s
  {
    if s != [] {
      assert NewestFirst(s[1..], key);
      SortOrderedIsIdentity(s[1..], key);
    }
  }

  /**
   * `GET`. `key` stands for the creation time of a case. It reads the cases collection
   * and writes nothing.
   */
  method GetCases(store: Collections, header: Option<string>, verify: string -> Option<Record>,
             key: Record -> int) returns (res: Response)
    ensures Authenticate(header, verify).Err? ==> res == Authenticate(header, verify).error
    ensures Authenticate(header, verify).Ok? ==>
      var owner := OwnedBy(Get(Authenticate(header, verify).value, "userId"));
      && res.status == 200 && res.body.CaseList?
      && NewestFirst(res.body.cases, key)
      && multiset(res.body.cases) == multiset(Filter(store.cases.Contents(), owner))
      && forall c :: c in res.body.cases <==> c in store.cases.Contents() && owner(c)
  {
    var auth := Authenticate(header, verify);
    if auth.Err? {
      return auth.error;
    }
    var owner := OwnedBy(Get(auth.value, "userId"));
    var cases := store.cases.FindMany(owner);
    var sorted := SortNewestFirst(cases, key);
    forall c ensures c in sorted <==> c in store.cases.Contents() && owner(c) {
      assert c in sorted <==> c in multiset(sorted);
      FilterMembership(store.cases.Contents(), owner, c);
    }
    res := Response(200, CaseList(sorted));
  }
}
