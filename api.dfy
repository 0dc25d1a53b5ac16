/**
 * The scoring API's request pipeline: the two request schemas, `check_auth`,
 * the `online_score` and `clients_interests` handlers, `method_handler` with
 * the class attributes it leaves behind on `MethodRequest`, and the reply
 * object `do_POST` writes.
 *
 * The SHA-512 hex digest, the clock and the scoring store are supplied in an
 * `Env`; the model says which value each is asked for and what is done with
 * the answer.
 */
module Api {
  import opened Wrappers
  import opened Json
  import opened Text
  import opened Dates
  import opened Fields

  const Salt := "Otus"
  const AdminLogin := "admin"
  const AdminSalt := "42"

  const Ok := 200
  const BadRequest := 400
  const Forbidden := 403
  const NotFound := 404
  const InvalidRequest := 422
  const InternalError := 500

  /** `ERRORS.get(code)` */
  function ErrorText(code: int): (t: Option<string>)
    ensures t.Some? <==> code in {BadRequest, Forbidden, NotFound, InvalidRequest, InternalError}
    ensures t.Some? ==> t.value != ""
  {
    if code == BadRequest then Some("Bad Request")
    else if code == Forbidden then Some("Forbidden")
    else if code == NotFound then Some("Not Found")
    else if code == InvalidRequest then Some("Invalid Request")
    else if code == InternalError then Some("Internal Server Error")
    else None
  }

  /** The arguments `scoring.get_score` receives; an absent argument is `None`. */
  datatype ScoreQuery = ScoreQuery(phone: JValue, email: JValue, birthday: JValue,
                                   gender: JValue, firstName: JValue, lastName: JValue)

  /**
   * The collaborators the handlers consult: the SHA-512 hex digest of a
   * string, the current time as `%Y%m%d%H`, the current year, and the
   * scoring store's two queries.
   */
  datatype Env = Env(hexdigest: string -> string, hourStamp: string, nowYear: int,
                     getScore: ScoreQuery -> real, getInterests: JValue -> JValue)

  // ---------------------------------------------------------------- request schemas

  datatype Request = OnlineScoreRequest | ClientsInterestsRequest

  /** The descriptor a request class declares under `name`, if any. */
  function FieldOf(req: Request, name: string): (r: Option<Field>)
    ensures r.Some? <==> || (req == OnlineScoreRequest && name in {"first_name", "last_name", "email", "phone", "birthday", "gender"})
                         || (req == ClientsInterestsRequest && name in {"client_ids", "date"})
    ensures r.Some? ==> r.value.nullable
    ensures r.Some? && r.value.required <==> req == ClientsInterestsRequest && name == "client_ids"
  {
    match req
    case OnlineScoreRequest =>
      if name == "first_name" || name == "last_name" then Some(Field(CharKind, false, true))
      else if name == "email" then Some(Field(EmailKind, false, true))
      else if name == "phone" then Some(Field(PhoneKind, false, true))
      else if name == "birthday" then Some(Field(BirthDayKind, false, true))
      else if name == "gender" then Some(Field(GenderKind, false, true))
      else None
    case ClientsInterestsRequest =>
      if name == "client_ids" then Some(Field(ClientIdsKind, true, true))
      else if name == "date" then Some(Field(DateKind, false, true))
      else None
  }

  /**
   * `Req().<k> = v` runs without raising: `k` must parse as an attribute
   * name, and a declared field's setter must accept `v`; any other name is
   * stored on the instance.
   */
  predicate SetsCleanly(req: Request, k: string, v: JValue, nowYear: int)
  {
    IsIdentifier(k) && match FieldOf(req, k)
      case None => true
      case Some(f) => Assign(f, v, nowYear) != Rejected
  }

  /** The loop of `exec` statements over `arguments.items()` completes. */
  predicate ArgumentsAccepted(req: Request, args: JValue, nowYear: int)
  {
    args.JObj? && forall i | 0 <= i < |Items(args.fields)| ::
      SetsCleanly(req, Items(args.fields)[i].0, Items(args.fields)[i].1, nowYear)
  }

  /** Runs `step` on the items in order and stops at the first one that fails. */
  method EveryStep(items: seq<(string, JValue)>, step: ((string, JValue)) -> bool) returns (ok: bool)
    ensures ok <==> forall j | 0 <= j < |items| :: step(items[j])
  {
    var i := 0;
    while i < |items|
      invariant 0 <= i <= |items|
      invariant forall j | 0 <= j < i :: step(items[j])
    {
      if !step(items[i]) {
        return false;
      }
      i := i + 1;
    }
    ok := true;
  }

  /** The `exec` loop of both handlers; `false` where one assignment raised. */
  method ValidateArguments(req: Request, args: JValue, nowYear: int) returns (ok: bool)
    ensures ok <==> ArgumentsAccepted(req, args, nowYear)
  {
    if !args.JObj? {
      return false;
    }
    ok := EveryStep(Items(args.fields), (kv: (string, JValue)) => SetsCleanly(req, kv.0, kv.1, nowYear));
  }

  /** Every argument of an accepted request passed its own check, whatever its position. */
  lemma AcceptedArgument(req: Request, args: JValue, nowYear: int, k: string)
    requires ArgumentsAccepted(req, args, nowYear) && HasKey(args.fields, k)
    ensures SetsCleanly(req, k, Get(args.fields, k).value, nowYear)
  {
    var items := Items(args.fields);
    var j :| 0 <= j < |items| && items[j] == (k, Get(items, k).value);
  }

  /** One argument failing its check makes the whole request fail. */
  lemma RejectedArgument(req: Request, args: JValue, nowYear: int, k: string)
    requires args.JObj? && HasKey(args.fields, k) && !SetsCleanly(req, k, Get(args.fields, k).value, nowYear)
    ensures !ArgumentsAccepted(req, args, nowYear)
  {
    var items := Items(args.fields);
    var j :| 0 <= j < |items| && items[j] == (k, Get(items, k).value);
  }

  // ---------------------------------------------------------------- the request envelope

  /**
   * The class attributes after `MethodRequest.<k> = v` for each item in
   * order, and whether every assignment ran. Assigning on the class replaces
   * the descriptor, so no field rule runs; the first key that is not an
   * attribute name raises and leaves the earlier assignments in place.
   */
  function AssignAttributes(attrs: map<string, JValue>, items: seq<(string, JValue)>): (r: (map<string, JValue>, bool))
    ensures r.1 <==> forall i | 0 <= i < |items| :: IsIdentifier(items[i].0)
    ensures r.1 ==> forall k | HasKey(items, k) :: k in r.0 && r.0[k] == Get(items, k).value
    ensures forall k | k in attrs && !HasKey(items, k) :: k in r.0 && r.0[k] == attrs[k]
    ensures forall k | k in r.0 :: k in attrs || HasKey(items, k)
    decreases |items|
  {
    if items == [] then (attrs, true)
    else if !IsIdentifier(items[0].0) then (attrs, false)
    else
      var r := AssignAttributes(attrs[items[0].0 := items[0].1], items[1..]);
      assert forall i | 1 <= i < |items| :: items[1..][i - 1] == items[i];
      forall k ensures HasKey(items, k) <==> items[0].0 == k || HasKey(items[1..], k) {
        GetFront(items, k);
      }
      forall k | r.1 && HasKey(items, k) ensures k in r.0 && r.0[k] == Get(items, k).value {
        GetFront(items, k);
      }
      r
  }

  /** An assignment that raises keeps what the earlier ones in the same request stored. */
  lemma {:induction false} PartialAssignment(attrs: map<string, JValue>, items: seq<(string, JValue)>, j: nat)
    requires j < |items| && !IsIdentifier(items[j].0)
    requires forall i | 0 <= i < j :: IsIdentifier(items[i].0)
    ensures AssignAttributes(attrs, items) == (AssignAttributes(attrs, items[..j]).0, false)
    ensures AssignAttributes(attrs, items[..j]).1
    decreases j
  {
    if j > 0 {
      assert items[1..][..j - 1] == items[..j][1..];
      PartialAssignment(attrs[items[0].0 := items[0].1], items[1..], j - 1);
    }
  }

  /** What `__get__` would return before any class attribute replaced the descriptor. */
  function FieldDefault(name: string): JValue
  {
    if name == "arguments" then JObj([]) else JStr("")
  }

  /**
   * The instance attribute every `MethodRequest` descriptor reads: none of
   * the five is given a `name`, so each one's is `"_" + "default"`.
   */
  const DefaultSlot := "_default"

  /**
   * `request_obj.<name>` for a declared field of `MethodRequest`: a class
   * attribute of that name has replaced the descriptor; otherwise the
   * descriptor reads `_default`, which only a class attribute can supply
   * since the instance never stores one, and falls back to its default.
   */
  function Attr(attrs: map<string, JValue>, name: string): (r: JValue)
    ensures name !in attrs && DefaultSlot !in attrs ==> !Truthy(r)
  {
    if name in attrs then attrs[name]
    else if DefaultSlot in attrs then attrs[DefaultSlot]
    else FieldDefault(name)
  }

  /** Every field not replaced by name reads the one shared `_default` class attribute. */
  lemma DefaultSlotShared(attrs: map<string, JValue>, name: string, other: string)
    requires DefaultSlot in attrs && name !in attrs && other !in attrs
    ensures Attr(attrs, name) == Attr(attrs, other) == attrs[DefaultSlot]
  {
  }

  /** `request_obj.is_admin`: an assigned `is_admin` attribute replaces the property. */
  predicate IsAdmin(attrs: map<string, JValue>)
    ensures "is_admin" !in attrs && "login" !in attrs && DefaultSlot !in attrs ==> !IsAdmin(attrs)
    ensures "is_admin" !in attrs && "login" !in attrs && DefaultSlot in attrs ==>
              (IsAdmin(attrs) <==> attrs[DefaultSlot] == JStr(AdminLogin))
  {
    if "is_admin" in attrs then Truthy(attrs["is_admin"])
    else Attr(attrs, "login") == JStr(AdminLogin)
  }

  /**
   * `check_auth`. `Failure` where building the non-admin digest input
   * raises: `account + login + SALT` needs two strings.
   */
  function CheckAuth(attrs: map<string, JValue>, env: Env): (r: Result<bool>)
    ensures r.Failure? <==> !IsAdmin(attrs) && !(Attr(attrs, "account").JStr? && Attr(attrs, "login").JStr?)
    ensures r == Success(true) ==> Attr(attrs, "token").JStr?
  {
    var token := Attr(attrs, "token");
    if IsAdmin(attrs) then Success(token == JStr(env.hexdigest(env.hourStamp + AdminSalt)))
    else
      var account := Attr(attrs, "account");
      var login := Attr(attrs, "login");
      if account.JStr? && login.JStr? then Success(token == JStr(env.hexdigest(account.s + login.s + Salt)))
      else Failure
  }

  /** A caller holding the digest of its account, login and the salt is let in, and nobody else is. */
  lemma UserTokenAuthorises(attrs: map<string, JValue>, env: Env, account: string, login: string)
    requires !IsAdmin(attrs) && Attr(attrs, "account") == JStr(account) && Attr(attrs, "login") == JStr(login)
    ensures CheckAuth(attrs, env) == Success(true) <==> Attr(attrs, "token") == JStr(env.hexdigest(account + login + Salt))
    ensures CheckAuth(attrs, env).Success?
  {
  }

  /** The admin token is the digest of the current hour stamp and the admin salt; the account plays no part. */
  lemma AdminTokenAuthorises(attrs: map<string, JValue>, env: Env)
    requires IsAdmin(attrs)
    ensures CheckAuth(attrs, env) == Success(Attr(attrs, "token") == JStr(env.hexdigest(env.hourStamp + AdminSalt)))
  {
  }

  // ---------------------------------------------------------------- the handlers

  /** The per-request context dictionary the handlers write into. */
  class Context {
    var data: map<string, JValue>

    constructor (requestId: string)
      ensures data == map["request_id" := JStr(requestId)]
    {
      data := map["request_id" := JStr(requestId)];
    }
  }

  /** What a handler call leaves: its outcome and the context dictionary afterwards. */
  datatype Handled = Handled(outcome: Outcome, ctx: map<string, JValue>)

  /** A `(response, code)` pair, or an exception that leaves the handler. */
  datatype Outcome = Reply(response: JValue, code: int) | Raised

  const InvalidReply := Reply(JStr("Invalid Request"), InvalidRequest)

  /** One of the pairs `online_score` needs is present among the arguments. */
  predicate HasScoringPair(fields: seq<(string, JValue)>)
  {
    || (HasKey(fields, "phone") && HasKey(fields, "email"))
    || (HasKey(fields, "first_name") && HasKey(fields, "last_name"))
    || (HasKey(fields, "gender") && HasKey(fields, "birthday"))
  }

  /** `arguments.get(k, None)` */
  function ArgOrNone(fields: seq<(string, JValue)>, k: string): JValue
  {
    match Get(fields, k)
    case Some(v) => v
    case None => JNull
  }

  /** The raw arguments passed on to `get_score`: the unvalidated values, not what the fields stored. */
  function ScoreQueryOf(fields: seq<(string, JValue)>): ScoreQuery
  {
    ScoreQuery(ArgOrNone(fields, "phone"), ArgOrNone(fields, "email"), ArgOrNone(fields, "birthday"),
               ArgOrNone(fields, "gender"), ArgOrNone(fields, "first_name"), ArgOrNone(fields, "last_name"))
  }

  /** `arguments.keys()`, stored in the context as a list of strings. */
  function KeyList(fields: seq<(string, JValue)>): (r: JValue)
    ensures r.JList? && |r.items| == |Keys(fields)|
    ensures forall k :: JStr(k) in r.items <==> HasKey(fields, k)
  {
    var ks := Keys(fields);
    var r := JList(seq(|ks|, i requires 0 <= i < |ks| => JStr(ks[i])));
    assert forall k :: JStr(k) in r.items <==> k in ks by {
      forall k ensures JStr(k) in r.items <==> k in ks {
        if k in ks {
          var i :| 0 <= i < |ks| && ks[i] == k;
          assert r.items[i] == JStr(k);
        }
      }
    }
    r
  }

  /** `online_score` for the given arguments and `request_obj.is_admin`. */
  function OnlineScoreSpec(args: JValue, admin: bool, ctx: map<string, JValue>, env: Env): (h: Handled)
    ensures h.outcome.Reply?
    ensures h.outcome.code == Ok <==> ArgumentsAccepted(OnlineScoreRequest, args, env.nowYear) && HasScoringPair(args.fields)
    ensures h.outcome.code != Ok ==> h == Handled(InvalidReply, ctx)
    ensures h.outcome.code == Ok ==> h.ctx == ctx["has" := KeyList(args.fields)]
  {
    if !ArgumentsAccepted(OnlineScoreRequest, args, env.nowYear) then Handled(InvalidReply, ctx)
    else if !HasScoringPair(args.fields) then Handled(InvalidReply, ctx)
    else
      var score := if admin then AdminSalt42 else env.getScore(ScoreQueryOf(args.fields));
      Handled(Reply(JObj([("score", JFloat(score))]), Ok), ctx["has" := KeyList(args.fields)])
  }

  /** `float(int(ADMIN_SALT))` */
  const AdminSalt42: real := 42.0

  method OnlineScore(args: JValue, admin: bool, ctx: Context, env: Env) returns (out: Outcome)
    modifies ctx
    ensures Handled(out, ctx.data) == OnlineScoreSpec(args, admin, old(ctx.data), env)
  {
    var ok := ValidateArguments(OnlineScoreRequest, args, env.nowYear);
    if !ok || !HasScoringPair(args.fields) {
      return InvalidReply;
    }
    var score := if admin then AdminSalt42 else env.getScore(ScoreQueryOf(args.fields));
    ctx.data := ctx.data["has" := KeyList(args.fields)];
    out := Reply(JObj([("score", JFloat(score))]), Ok);
  }

  /** `str(i)` for a Python `int`; a `bool` prints as `True` or `False`. */
  function PyIntText(id: JValue): string
    requires IsPyInt(id)
  {
    if id.JBool? then (if id.b then "True" else "False") else DecimalText(id.i)
  }

  /** The key `clients_interests` files a client's interests under. */
  function ClientKey(id: JValue): string
    requires IsPyInt(id)
  {
    "client_id" + PyIntText(id)
  }

  /** Distinct client ids get distinct keys: `1` and `True` as much as `1` and `2`. */
  lemma ClientKeyInjective(a: JValue, b: JValue)
    requires IsPyInt(a) && IsPyInt(b) && ClientKey(a) == ClientKey(b)
    ensures a == b
  {
    var n := |"client_id"|;
    assert PyIntText(a) == ClientKey(a)[n..] && PyIntText(b) == ClientKey(b)[n..];
    if a.JInt? && b.JInt? {
      DecimalTextRoundTrip(a.i);
      DecimalTextRoundTrip(b.i);
    }
  }

  predicate AllPyInts(ids: seq<JValue>)
  {
    forall i | 0 <= i < |ids| :: IsPyInt(ids[i])
  }

  /** The dictionary `clients_interests` fills, one store query per id in order. */
  function InterestsOf(ids: seq<JValue>, env: Env): (r: seq<(string, JValue)>)
    requires AllPyInts(ids)
    ensures UniqueKeys(r)
  {
    if ids == [] then []
    else Put(InterestsOf(ids[..|ids| - 1], env), ClientKey(ids[|ids| - 1]), env.getInterests(ids[|ids| - 1]))
  }

  /** The keys of the ids, in order. */
  function ClientKeys(ids: seq<JValue>): (ks: seq<string>)
    requires AllPyInts(ids)
    ensures |ks| == |ids| && forall i | 0 <= i < |ids| :: ks[i] == ClientKey(ids[i])
  {
    seq(|ids|, i requires 0 <= i < |ids| => ClientKey(ids[i]))
  }

  /** The reply has one key per client id and nothing else. */
  lemma {:induction false} InterestsOfKeys(ids: seq<JValue>, env: Env)
    requires AllPyInts(ids)
    ensures forall k :: HasKey(InterestsOf(ids, env), k) <==> k in ClientKeys(ids)
  {
    if ids != [] {
      var prefix := ids[..|ids| - 1];
      InterestsOfKeys(prefix, env);
      assert ClientKeys(ids) == ClientKeys(prefix) + [ClientKey(ids[|ids| - 1])];
    }
  }

  /** Under each key, the interests of that client. */
  lemma InterestsOfValues(ids: seq<JValue>, env: Env)
    requires AllPyInts(ids)
    ensures forall i | 0 <= i < |ids| :: Get(InterestsOf(ids, env), ClientKey(ids[i])) == Some(env.getInterests(ids[i]))
  {
    forall i | 0 <= i < |ids| ensures Get(InterestsOf(ids, env), ClientKey(ids[i])) == Some(env.getInterests(ids[i])) {
      InterestsOfValueAt(ids, env, i);
    }
  }

  lemma {:induction false} InterestsOfValueAt(ids: seq<JValue>, env: Env, i: nat)
    requires AllPyInts(ids) && i < |ids|
    ensures Get(InterestsOf(ids, env), ClientKey(ids[i])) == Some(env.getInterests(ids[i]))
  {
    var n := |ids| - 1;
    if i == n {
      InterestsOfLast(ids, env);
    } else {
      var prefix := ids[..n];
      assert prefix[i] == ids[i];
      InterestsOfValueAt(prefix, env, i);
      if ClientKey(ids[i]) == ClientKey(ids[n]) {
        ClientKeyInjective(ids[i], ids[n]);
        InterestsOfLast(ids, env);
      } else {
        InterestsOfOther(ids, env, ClientKey(ids[i]));
      }
    }
  }

  /** The last id's query fills its key. */
  lemma InterestsOfLast(ids: seq<JValue>, env: Env)
    requires AllPyInts(ids) && ids != []
    ensures Get(InterestsOf(ids, env), ClientKey(ids[|ids| - 1])) == Some(env.getInterests(ids[|ids| - 1]))
  {
  }

  /** The last id's query leaves every other key as it was. */
  lemma InterestsOfOther(ids: seq<JValue>, env: Env, k: string)
    requires AllPyInts(ids) && ids != [] && k != ClientKey(ids[|ids| - 1])
    ensures Get(InterestsOf(ids, env), k) == Get(InterestsOf(ids[..|ids| - 1], env), k)
  {
  }

  /** Pairwise distinct ids give one entry each. */
  lemma {:induction false} DistinctIdsOneEntryEach(ids: seq<JValue>, env: Env)
    requires AllPyInts(ids)
    requires forall i, j | 0 <= i < j < |ids| :: ids[i] != ids[j]
    ensures |InterestsOf(ids, env)| == |ids|
  {
    if ids != [] {
      var prefix := ids[..|ids| - 1];
      var last := ids[|ids| - 1];
      DistinctIdsOneEntryEach(prefix, env);
      InterestsOfKeys(prefix, env);
      var ks := ClientKeys(prefix);
      if ClientKey(last) in ks {
        var i :| 0 <= i < |ks| && ks[i] == ClientKey(last);
        ClientKeyInjective(prefix[i], last);
      }
    }
  }

  /** An accepted `client_ids` argument is a non-empty list of integers. */
  lemma AcceptedClientIds(args: JValue, nowYear: int)
    requires ArgumentsAccepted(ClientsInterestsRequest, args, nowYear) && HasKey(args.fields, "client_ids")
    ensures Get(args.fields, "client_ids").value.JList?
    ensures Get(args.fields, "client_ids").value.items != []
    ensures AllPyInts(Get(args.fields, "client_ids").value.items)
  {
    AcceptedArgument(ClientsInterestsRequest, args, nowYear, "client_ids");
  }

  /** `clients_interests` */
  function ClientsInterestsSpec(args: JValue, ctx: map<string, JValue>, env: Env): (h: Handled)
    ensures h.outcome.Reply?
    ensures h.outcome.code == Ok <==> ArgumentsAccepted(ClientsInterestsRequest, args, env.nowYear) && HasKey(args.fields, "client_ids")
    ensures h.outcome.code != Ok ==> h == Handled(InvalidReply, ctx)
  {
    if !ArgumentsAccepted(ClientsInterestsRequest, args, env.nowYear) then Handled(InvalidReply, ctx)
    else if !HasKey(args.fields, "client_ids") then Handled(InvalidReply, ctx)
    else
      AcceptedClientIds(args, env.nowYear);
      var ids := Get(args.fields, "client_ids").value.items;
      Handled(Reply(JObj(InterestsOf(ids, env)), Ok), ctx["nclients" := JInt(|ids|)])
  }

  method ClientsInterests(args: JValue, ctx: Context, env: Env) returns (out: Outcome)
    modifies ctx
    ensures Handled(out, ctx.data) == ClientsInterestsSpec(args, old(ctx.data), env)
  {
    var ok := ValidateArguments(ClientsInterestsRequest, args, env.nowYear);
    if !ok || !HasKey(args.fields, "client_ids") {
      return InvalidReply;
    }
    AcceptedClientIds(args, env.nowYear);
    var ids := Get(args.fields, "client_ids").value.items;
    var res := CollectInterests(ids, env);
    ctx.data := ctx.data["nclients" := JInt(|ids|)];
    out := Reply(JObj(res), Ok);
  }

  /** The loop of `clients_interests`: one entry per id, keyed `client_id<id>`. */
  method CollectInterests(ids: seq<JValue>, env: Env) returns (res: seq<(string, JValue)>)
    requires AllPyInts(ids)
    ensures res == InterestsOf(ids, env)
  {
    res := [];
    var i := 0;
    while i < |ids|
      invariant 0 <= i <= |ids|
      invariant res == InterestsOf(ids[..i], env)
    {
      assert ids[..i + 1][..i] == ids[..i];
      res := Put(res, ClientKey(ids[i]), env.getInterests(ids[i]));
      i := i + 1;
    }
    assert ids[..i] == ids;
  }

  // ---------------------------------------------------------------- method_handler

  /** The class attributes `method_handler` leaves behind for a request body. */
  function AttrsAfter(attrs: map<string, JValue>, body: JValue): map<string, JValue>
  {
    if body.JObj? && body.fields != [] then AssignAttributes(attrs, Items(body.fields)).0 else attrs
  }

  /** The envelope keys `method_handler` insists on. */
  predicate HasEnvelopeKeys(fields: seq<(string, JValue)>)
  {
    HasKey(fields, "login") && HasKey(fields, "method") && HasKey(fields, "arguments")
  }

  /**
   * `method_handler`, with the class attributes assigned by earlier calls.
   * Every exit returns 200, 403 or 422, or raises; only a handler's 200
   * writes to the context.
   */
  function HandlerSpec(attrs: map<string, JValue>, body: JValue, ctx: map<string, JValue>, env: Env): (h: Handled)
    ensures h.outcome.Raised? || h.outcome.code in {Ok, Forbidden, InvalidRequest}
    ensures h.outcome.Reply? && h.outcome.code == Forbidden ==> CheckAuth(AttrsAfter(attrs, body), env) == Success(false)
    ensures h.outcome.Reply? && h.outcome.code == Ok ==> CheckAuth(AttrsAfter(attrs, body), env) == Success(true)
    ensures h.ctx != ctx ==> h.outcome.Reply? && h.outcome.code == Ok
  {
    if body == JObj([]) then Handled(InvalidReply, ctx)
    else if !body.JObj? then Handled(InvalidReply, ctx)
    else
      var (a, ok) := AssignAttributes(attrs, Items(body.fields));
      var f := body.fields;
      if !ok then Handled(InvalidReply, ctx)
      else if !HasEnvelopeKeys(f) then Handled(InvalidReply, ctx)
      else Dispatch(a, f, ctx, env)
  }

  /**
   * The rest of `method_handler` once the envelope is assigned: authenticate,
   * refuse empty arguments, and dispatch on the method name.
   */
  function Dispatch(a: map<string, JValue>, f: seq<(string, JValue)>, ctx: map<string, JValue>, env: Env): (h: Handled)
    requires HasEnvelopeKeys(f)
    ensures h.outcome.Raised? || h.outcome.code in {Ok, Forbidden, InvalidRequest}
    ensures h.outcome.Reply? && h.outcome.code == Forbidden ==> CheckAuth(a, env) == Success(false)
    ensures h.outcome.Reply? && h.outcome.code == Ok ==> CheckAuth(a, env) == Success(true)
    ensures h.ctx != ctx ==> h.outcome.Reply? && h.outcome.code == Ok
  {
    match CheckAuth(a, env)
    case Failure => Handled(Raised, ctx)
    case Success(authorised) =>
      if !authorised then Handled(Reply(JStr("Forbidden"), Forbidden), ctx)
      else
        var args := Get(f, "arguments").value;
        var name := Get(f, "method").value;
        if args == JObj([]) then Handled(InvalidReply, ctx)
        else if name == JStr("online_score") then OnlineScoreSpec(args, IsAdmin(a), ctx, env)
        else if name == JStr("clients_interests") then ClientsInterestsSpec(args, ctx, env)
        else Handled(Raised, ctx)
  }

  /** The HTTP server, with the `MethodRequest` class attributes that outlive each request. */
  class Server {
    /** The attributes requests have assigned on the `MethodRequest` class so far. */
    var attrs: map<string, JValue>

    constructor ()
      ensures attrs == map[]
    {
      attrs := map[];
    }

    /** The loop of `exec` statements assigning the body's items on the class. */
    method AssignEnvelope(items: seq<(string, JValue)>) returns (ok: bool)
      modifies this
      ensures (attrs, ok) == AssignAttributes(old(attrs), items)
    {
      var i := 0;
      while i < |items|
        invariant 0 <= i <= |items|
        invariant AssignAttributes(old(attrs), items) == AssignAttributes(attrs, items[i..])
      {
        assert items[i..][1..] == items[i + 1..];
        if !IsIdentifier(items[i].0) {
          return false;
        }
        attrs := attrs[items[i].0 := items[i].1];
        i := i + 1;
      }
      ok := true;
    }

    /** `method_handler` */
    method MethodHandler(body: JValue, ctx: Context, env: Env) returns (out: Outcome)
      modifies this, ctx
      ensures attrs == AttrsAfter(old(attrs), body)
      ensures Handled(out, ctx.data) == HandlerSpec(old(attrs), body, old(ctx.data), env)
    {
      if body == JObj([]) {
        return InvalidReply;
      }
      if !body.JObj? {
        return InvalidReply;
      }
      var ok := AssignEnvelope(Items(body.fields));
      if !ok || !HasEnvelopeKeys(body.fields) {
        return InvalidReply;
      }
      var auth := CheckAuth(attrs, env);
      if auth.Failure? {
        return Raised;
      }
      if !auth.value {
        return Reply(JStr("Forbidden"), Forbidden);
      }
      var args := Get(body.fields, "arguments").value;
      var name := Get(body.fields, "method").value;
      if args == JObj([]) {
        return InvalidReply;
      }
      if name == JStr("online_score") {
        out := OnlineScore(args, IsAdmin(attrs), ctx, env);
      } else if name == JStr("clients_interests") {
        out := ClientsInterests(args, ctx, env);
      } else {
        out := Raised;
      }
    }

    /**
     * `do_POST`: `raw` is the parsed body, `None` where reading or parsing
     * failed. Returns the status code and the object written back.
     */
    method Post(raw: Option<JValue>, path: string, requestId: string, env: Env) returns (code: int, reply: JValue)
      modifies this
      ensures (code, reply) == PostSpec(old(attrs), raw, path, requestId, env)
      ensures attrs == if Routed(raw, path) then AttrsAfter(old(attrs), raw.value) else old(attrs)
    {
      if raw.None? {
        return BadRequest, Shape(BadRequest, JObj([]));
      }
      if !Truthy(raw.value) {
        return Ok, Shape(Ok, JObj([]));
      }
      if StripSlashes(path) != "method" {
        return NotFound, Shape(NotFound, JObj([]));
      }
      var ctx := new Context(requestId);
      var out := MethodHandler(raw.value, ctx, env);
      match out
      case Raised =>
        code, reply := InternalError, Shape(InternalError, JObj([]));
      case Reply(response, c) =>
        code, reply := c, Shape(c, response);
    }
  }

  // ---------------------------------------------------------------- do_POST

  /** `path.strip("/")` */
  function StripSlashes(path: string): (t: string)
    ensures |t| <= |path|
    ensures t != "" ==> t[0] != '/' && t[|t| - 1] != '/'
    ensures SlashPadded(path, t)
    decreases |path|
  {
    if path != [] && path[0] == '/' then
      var t := StripSlashes(path[1..]);
      PaddedFront(path, t);
      t
    else if path != [] && path[|path| - 1] == '/' then
      var t := StripSlashes(path[..|path| - 1]);
      PaddedBack(path, t);
      t
    else
      assert path == path[0..|path|];
      path
  }

  /** `t` is `path` with some run of slashes taken off each end. */
  ghost predicate SlashPadded(path: string, t: string)
  {
    exists i, j | 0 <= i <= j <= |path| ::
      && t == path[i..j]
      && (forall k | 0 <= k < i :: path[k] == '/')
      && (forall k | j <= k < |path| :: path[k] == '/')
  }

  lemma PaddedFront(path: string, t: string)
    requires path != [] && path[0] == '/' && SlashPadded(path[1..], t)
    ensures SlashPadded(path, t)
  {
    var rest := path[1..];
    var i, j :| 0 <= i <= j <= |rest| && t == rest[i..j]
                && (forall k | 0 <= k < i :: rest[k] == '/')
                && (forall k | j <= k < |rest| :: rest[k] == '/');
    assert t == path[i + 1..j + 1];
    assert forall k | 0 <= k < i + 1 :: path[k] == '/' by {
      forall k | 0 <= k < i + 1 ensures path[k] == '/' {
        if k > 0 { assert path[k] == rest[k - 1]; }
      }
    }
    assert forall k | j + 1 <= k < |path| :: path[k] == '/' by {
      forall k | j + 1 <= k < |path| ensures path[k] == '/' {
        assert path[k] == rest[k - 1];
      }
    }
  }

  lemma PaddedBack(path: string, t: string)
    requires path != [] && path[|path| - 1] == '/' && SlashPadded(path[..|path| - 1], t)
    ensures SlashPadded(path, t)
  {
    var rest := path[..|path| - 1];
    var i, j :| 0 <= i <= j <= |rest| && t == rest[i..j]
                && (forall k | 0 <= k < i :: rest[k] == '/')
                && (forall k | j <= k < |rest| :: rest[k] == '/');
    assert t == path[i..j];
    assert forall k | 0 <= k < i :: path[k] == '/' by {
      forall k | 0 <= k < i ensures path[k] == '/' {
        assert path[k] == rest[k];
      }
    }
    assert forall k | j <= k < |path| :: path[k] == '/' by {
      forall k | j <= k < |path| ensures path[k] == '/' {
        if k < |rest| { assert path[k] == rest[k]; }
      }
    }
  }

  /** The request reaches `method_handler`: it parsed, is truthy, and its path is the router's one entry. */
  predicate Routed(raw: Option<JValue>, path: string)
  {
    raw.Some? && Truthy(raw.value) && StripSlashes(path) == "method"
  }

  /**
   * The object `do_POST` writes: an error code carries `error` (the handler's
   * response if truthy, else the code's text), any other code `response`.
   */
  function Shape(code: int, response: JValue): (r: JValue)
    ensures r.JObj? && UniqueKeys(r.fields)
    ensures Get(r.fields, "code") == Some(JInt(code))
    ensures HasKey(r.fields, "error") <==> ErrorText(code).Some?
    ensures HasKey(r.fields, "response") <==> ErrorText(code).None?
    ensures ErrorText(code).Some? ==> Truthy(Get(r.fields, "error").value)
    ensures ErrorText(code).None? ==> Get(r.fields, "response") == Some(response)
    ensures ErrorText(code).Some? ==>
              Get(r.fields, "error") == Some(if Truthy(response) then response else JStr(ErrorText(code).value))
  {
    match ErrorText(code)
    case None =>
      var r := JObj([("response", response), ("code", JInt(code))]);
      assert r.fields[0].0 == "response";
      r
    case Some(text) =>
      var r := JObj([("error", if Truthy(response) then response else JStr(text)), ("code", JInt(code))]);
      assert r.fields[0].0 == "error";
      r
  }

  /**
   * The status code and reply `do_POST` shapes from the parsed body, the
   * path, and what `method_handler` did, which only counts on a routed request.
   */
  function PostShape(raw: Option<JValue>, path: string, handled: Outcome): (r: (int, JValue))
    ensures r.1.JObj? && Get(r.1.fields, "code") == Some(JInt(r.0))
    ensures raw.None? ==> r.0 == BadRequest
    ensures raw.Some? && !Truthy(raw.value) ==> r.0 == Ok && Get(r.1.fields, "response") == Some(JObj([]))
    ensures raw.Some? && Truthy(raw.value) && StripSlashes(path) != "method" ==> r.0 == NotFound
    ensures Routed(raw, path) && handled.Raised? ==> r.0 == InternalError
    ensures Routed(raw, path) && handled.Reply? ==> r.0 == handled.code
  {
    if raw.None? then (BadRequest, Shape(BadRequest, JObj([])))
    else if !Truthy(raw.value) then (Ok, Shape(Ok, JObj([])))
    else if StripSlashes(path) != "method" then (NotFound, Shape(NotFound, JObj([])))
    else match handled
      case Raised => (InternalError, Shape(InternalError, JObj([])))
      case Reply(response, c) => (c, Shape(c, response))
  }

  /** The status code and reply of `do_POST` for the class attributes before the request. */
  function PostSpec(attrs: map<string, JValue>, raw: Option<JValue>, path: string, requestId: string, env: Env): (r: (int, JValue))
    ensures r.0 in {Ok, BadRequest, Forbidden, NotFound, InvalidRequest, InternalError}
  {
    if Routed(raw, path) then PostShape(raw, path, HandlerSpec(attrs, raw.value, map["request_id" := JStr(requestId)], env).outcome)
    else PostShape(raw, path, Raised)
  }

  // ---------------------------------------------------------------- properties

  /** Every key of the body is an attribute name. */
  predicate AllIdentifiers(fields: seq<(string, JValue)>)
  {
    forall i | 0 <= i < |fields| :: IsIdentifier(fields[i].0)
  }

  /** With every key an attribute name, each body value becomes a class attribute and the others stay. */
  lemma EnvelopeAssigned(attrs: map<string, JValue>, body: JValue)
    requires body.JObj? && body.fields != [] && AllIdentifiers(body.fields)
    ensures AssignAttributes(attrs, Items(body.fields)).1
    ensures forall k | HasKey(body.fields, k) :: k in AttrsAfter(attrs, body) && AttrsAfter(attrs, body)[k] == Get(body.fields, k).value
    ensures forall k | k in attrs && !HasKey(body.fields, k) :: k in AttrsAfter(attrs, body) && AttrsAfter(attrs, body)[k] == attrs[k]
    ensures forall k | k in AttrsAfter(attrs, body) :: k in attrs || HasKey(body.fields, k)
  {
    var items := Items(body.fields);
    forall i | 0 <= i < |items| ensures IsIdentifier(items[i].0) {
      var k := items[i].0;
      assert HasKey(items, k);
      var j :| 0 <= j < |body.fields| && body.fields[j].0 == k;
    }
  }

  /** A complete envelope whose keys are all attribute names reaches authentication and dispatch. */
  lemma EnvelopeReachesDispatch(attrs: map<string, JValue>, body: JValue, ctx: map<string, JValue>, env: Env)
    requires body.JObj? && body.fields != [] && AllIdentifiers(body.fields) && HasEnvelopeKeys(body.fields)
    ensures HandlerSpec(attrs, body, ctx, env) == Dispatch(AttrsAfter(attrs, body), body.fields, ctx, env)
  {
    EnvelopeAssigned(attrs, body);
  }

  /** An empty body is refused first, and assigns nothing. */
  lemma EmptyBodyInvalid(attrs: map<string, JValue>, ctx: map<string, JValue>, env: Env)
    ensures HandlerSpec(attrs, JObj([]), ctx, env) == Handled(InvalidReply, ctx)
    ensures AttrsAfter(attrs, JObj([])) == attrs
  {
  }

  /** A body that is not a JSON object is refused before anything is assigned. */
  lemma NonObjectBodyInvalid(attrs: map<string, JValue>, body: JValue, ctx: map<string, JValue>, env: Env)
    requires !body.JObj?
    ensures HandlerSpec(attrs, body, ctx, env) == Handled(InvalidReply, ctx)
    ensures AttrsAfter(attrs, body) == attrs
  {
  }

  /**
   * A body missing `login`, `method` or `arguments` is refused, but its
   * values have already become class attributes.
   */
  lemma MissingEnvelopeKeyStillAssigns(attrs: map<string, JValue>, body: JValue, ctx: map<string, JValue>, env: Env)
    requires body.JObj? && body.fields != [] && AllIdentifiers(body.fields) && !HasEnvelopeKeys(body.fields)
    ensures HandlerSpec(attrs, body, ctx, env) == Handled(InvalidReply, ctx)
    ensures forall k | HasKey(body.fields, k) :: k in AttrsAfter(attrs, body) && AttrsAfter(attrs, body)[k] == Get(body.fields, k).value
  {
    EnvelopeAssigned(attrs, body);
  }

  /**
   * The `account` a request sent is still the account of a later request
   * that sends none: the class attribute outlives the call.
   */
  lemma AccountOutlivesRequest(attrs: map<string, JValue>, first: JValue, second: JValue, account: string)
    requires first.JObj? && first.fields != [] && AllIdentifiers(first.fields)
    requires Get(first.fields, "account") == Some(JStr(account))
    requires second.JObj? && second.fields != [] && AllIdentifiers(second.fields)
    requires !HasKey(second.fields, "account")
    ensures Attr(AttrsAfter(AttrsAfter(attrs, first), second), "account") == JStr(account)
  {
    EnvelopeAssigned(attrs, first);
    EnvelopeAssigned(AttrsAfter(attrs, first), second);
  }

  /**
   * The envelope's field rules never run: a `login` that is not a string
   * gets past validation and makes `check_auth` raise.
   */
  lemma NonStringLoginRaises(attrs: map<string, JValue>, body: JValue, ctx: map<string, JValue>, env: Env)
    requires body.JObj? && body.fields != [] && AllIdentifiers(body.fields) && HasEnvelopeKeys(body.fields)
    requires !Get(body.fields, "login").value.JStr?
    requires "is_admin" !in attrs && !HasKey(body.fields, "is_admin")
    ensures HandlerSpec(attrs, body, ctx, env) == Handled(Raised, ctx)
  {
    EnvelopeReachesDispatch(attrs, body, ctx, env);
    EnvelopeAssigned(attrs, body);
    var a := AttrsAfter(attrs, body);
    assert "is_admin" !in a;
    assert Attr(a, "login") == Get(body.fields, "login").value;
    NonStringLoginFails(a, env);
  }

  lemma NonStringLoginFails(a: map<string, JValue>, env: Env)
    requires "is_admin" !in a && !Attr(a, "login").JStr?
    ensures CheckAuth(a, env) == Failure
  {
  }

  /**
   * A `_default` key stands in for an absent `account`: a user whose token is
   * the digest of that value, the login and the salt is authorised.
   */
  lemma DefaultKeyAuthorises(attrs: map<string, JValue>, body: JValue, env: Env, account: string, login: string)
    requires body.JObj? && body.fields != [] && AllIdentifiers(body.fields)
    requires "account" !in attrs && "is_admin" !in attrs
    requires !HasKey(body.fields, "account") && !HasKey(body.fields, "is_admin")
    requires Get(body.fields, DefaultSlot) == Some(JStr(account))
    requires Get(body.fields, "login") == Some(JStr(login)) && login != AdminLogin
    requires Get(body.fields, "token") == Some(JStr(env.hexdigest(account + login + Salt)))
    ensures Attr(AttrsAfter(attrs, body), "account") == JStr(account)
    ensures CheckAuth(AttrsAfter(attrs, body), env) == Success(true)
  {
    EnvelopeAssigned(attrs, body);
    var a := AttrsAfter(attrs, body);
    assert "account" !in a && "is_admin" !in a;
    UserTokenAuthorises(a, env, account, login);
  }

  /** An `is_admin` key replaces the property: a truthy value makes any login check the admin token. */
  lemma IsAdminKeyGrantsAdmin(attrs: map<string, JValue>, body: JValue)
    requires body.JObj? && body.fields != [] && AllIdentifiers(body.fields)
    requires HasKey(body.fields, "is_admin") && Truthy(Get(body.fields, "is_admin").value)
    ensures IsAdmin(AttrsAfter(attrs, body))
  {
    EnvelopeAssigned(attrs, body);
  }

  /** Authentication comes before the check for empty arguments. */
  lemma AuthBeforeArguments(attrs: map<string, JValue>, body: JValue, ctx: map<string, JValue>, env: Env)
    requires body.JObj? && body.fields != [] && AllIdentifiers(body.fields) && HasEnvelopeKeys(body.fields)
    requires CheckAuth(AttrsAfter(attrs, body), env) == Success(false)
    ensures HandlerSpec(attrs, body, ctx, env) == Handled(Reply(JStr("Forbidden"), Forbidden), ctx)
  {
    EnvelopeReachesDispatch(attrs, body, ctx, env);
  }

  /** An authorised request with empty `arguments` is refused before dispatch. */
  lemma EmptyArgumentsInvalid(attrs: map<string, JValue>, body: JValue, ctx: map<string, JValue>, env: Env)
    requires body.JObj? && body.fields != [] && AllIdentifiers(body.fields) && HasEnvelopeKeys(body.fields)
    requires CheckAuth(AttrsAfter(attrs, body), env) == Success(true)
    requires Get(body.fields, "arguments").value == JObj([])
    ensures HandlerSpec(attrs, body, ctx, env) == Handled(InvalidReply, ctx)
  {
    EnvelopeReachesDispatch(attrs, body, ctx, env);
  }

  /** An authorised request naming neither method falls off the end of the dispatch and raises. */
  lemma UnknownMethodRaises(attrs: map<string, JValue>, body: JValue, ctx: map<string, JValue>, env: Env)
    requires body.JObj? && body.fields != [] && AllIdentifiers(body.fields) && HasEnvelopeKeys(body.fields)
    requires CheckAuth(AttrsAfter(attrs, body), env) == Success(true)
    requires Get(body.fields, "arguments").value != JObj([])
    requires Get(body.fields, "method").value !in {JStr("online_score"), JStr("clients_interests")}
    ensures HandlerSpec(attrs, body, ctx, env) == Handled(Raised, ctx)
  {
    EnvelopeReachesDispatch(attrs, body, ctx, env);
  }

  /** An authorised `online_score` request is answered by the handler with its arguments and admin flag. */
  lemma OnlineScoreDispatched(attrs: map<string, JValue>, body: JValue, ctx: map<string, JValue>, env: Env)
    requires body.JObj? && body.fields != [] && AllIdentifiers(body.fields) && HasEnvelopeKeys(body.fields)
    requires CheckAuth(AttrsAfter(attrs, body), env) == Success(true)
    requires Get(body.fields, "arguments").value != JObj([])
    requires Get(body.fields, "method").value == JStr("online_score")
    ensures HandlerSpec(attrs, body, ctx, env)
         == OnlineScoreSpec(Get(body.fields, "arguments").value, IsAdmin(AttrsAfter(attrs, body)), ctx, env)
  {
    EnvelopeReachesDispatch(attrs, body, ctx, env);
  }

  /** An authorised `clients_interests` request goes to that handler with the raw arguments. */
  lemma ClientsInterestsDispatched(attrs: map<string, JValue>, body: JValue, ctx: map<string, JValue>, env: Env)
    requires body.JObj? && body.fields != [] && AllIdentifiers(body.fields) && HasEnvelopeKeys(body.fields)
    requires CheckAuth(AttrsAfter(attrs, body), env) == Success(true)
    requires Get(body.fields, "arguments").value != JObj([])
    requires Get(body.fields, "method").value == JStr("clients_interests")
    ensures HandlerSpec(attrs, body, ctx, env)
         == ClientsInterestsSpec(Get(body.fields, "arguments").value, ctx, env)
  {
    EnvelopeReachesDispatch(attrs, body, ctx, env);
  }

  /**
   * A body key that is not an attribute name ends the assignment loop: the
   * request is answered 422, and the keys before it, in `items()` order,
   * stay assigned on the class.
   */
  lemma NonIdentifierKeyInvalid(attrs: map<string, JValue>, body: JValue, ctx: map<string, JValue>, env: Env, j: nat)
    requires body.JObj? && j < |Items(body.fields)| && !IsIdentifier(Items(body.fields)[j].0)
    requires forall i | 0 <= i < j :: IsIdentifier(Items(body.fields)[i].0)
    ensures HandlerSpec(attrs, body, ctx, env) == Handled(InvalidReply, ctx)
    ensures AttrsAfter(attrs, body) == AssignAttributes(attrs, Items(body.fields)[..j]).0
    ensures AssignAttributes(attrs, Items(body.fields)[..j]).1
  {
    var items := Items(body.fields);
    PartialAssignment(attrs, items, j);
    assert HasKey(items, items[j].0);
    assert body.fields != [] && body != JObj([]);
    assert !AssignAttributes(attrs, items).1;
  }

  /** The admin is scored 42 without asking the store; anyone else gets the store's score for the raw arguments. */
  lemma OnlineScoreValue(args: JValue, admin: bool, ctx: map<string, JValue>, env: Env)
    requires ArgumentsAccepted(OnlineScoreRequest, args, env.nowYear) && HasScoringPair(args.fields)
    ensures OnlineScoreSpec(args, admin, ctx, env).outcome.response
         == JObj([("score", JFloat(if admin then 42.0 else env.getScore(ScoreQueryOf(args.fields))))])
  {
  }

  /**
   * The scoring fields are declared nullable, yet a `null` email, phone,
   * birthday or gender is refused: their setters skip the nullable check.
   */
  lemma NullScoringArgumentInvalid(args: JValue, k: string, admin: bool, ctx: map<string, JValue>, env: Env)
    requires args.JObj? && k in {"email", "phone", "birthday", "gender"} && Get(args.fields, k) == Some(JNull)
    ensures OnlineScoreSpec(args, admin, ctx, env) == Handled(InvalidReply, ctx)
  {
    OverridingSettersRejectNone(FieldOf(OnlineScoreRequest, k).value, env.nowYear);
    RejectedArgument(OnlineScoreRequest, args, env.nowYear, k);
  }

  /** An empty `client_ids` list is refused. */
  lemma EmptyClientIdsInvalid(args: JValue, ctx: map<string, JValue>, env: Env)
    requires args.JObj? && Get(args.fields, "client_ids") == Some(JList([]))
    ensures ClientsInterestsSpec(args, ctx, env) == Handled(InvalidReply, ctx)
  {
    RejectedArgument(ClientsInterestsRequest, args, env.nowYear, "client_ids");
  }

  /**
   * An accepted `clients_interests` request answers one key per client id,
   * holding that client's interests, and counts the ids (repeats included)
   * in the context.
   */
  lemma ClientsInterestsReply(args: JValue, ctx: map<string, JValue>, env: Env)
    requires ArgumentsAccepted(ClientsInterestsRequest, args, env.nowYear) && HasKey(args.fields, "client_ids")
    ensures AcceptedClientIdsHold(args, env.nowYear)
    ensures var ids := Get(args.fields, "client_ids").value.items;
            var h := ClientsInterestsSpec(args, ctx, env);
            && h.outcome.response.JObj?
            && (forall k :: HasKey(h.outcome.response.fields, k) <==> k in ClientKeys(ids))
            && (forall i | 0 <= i < |ids| :: Get(h.outcome.response.fields, ClientKey(ids[i])) == Some(env.getInterests(ids[i])))
            && h.ctx == ctx["nclients" := JInt(|ids|)]
  {
    AcceptedClientIds(args, env.nowYear);
    var ids := Get(args.fields, "client_ids").value.items;
    InterestsOfKeys(ids, env);
    InterestsOfValues(ids, env);
  }

  predicate AcceptedClientIdsHold(args: JValue, nowYear: int)
  {
    args.JObj? && HasKey(args.fields, "client_ids") && Get(args.fields, "client_ids").value.JList?
    && AllPyInts(Get(args.fields, "client_ids").value.items)
  }

  /** `do_POST` answers a parse failure with 400 and the code's text. */
  lemma ParseFailureBadRequest(path: string, handled: Outcome)
    ensures PostShape(None, path, handled)
         == (BadRequest, JObj([("error", JStr("Bad Request")), ("code", JInt(BadRequest))]))
  {
    assert ErrorText(BadRequest) == Some("Bad Request");
  }

  /** A falsy request is answered 200 with an empty response, whatever the path. */
  lemma FalsyRequestOk(request: JValue, path: string, handled: Outcome)
    requires !Truthy(request)
    ensures PostShape(Some(request), path, handled)
         == (Ok, JObj([("response", JObj([])), ("code", JInt(Ok))]))
  {
    assert ErrorText(Ok) == None;
  }

  /** A routed request whose handler raises becomes a 500 with the code's text. */
  lemma RaisedIsInternalError(request: JValue, path: string)
    requires Routed(Some(request), path)
    ensures PostShape(Some(request), path, Raised)
         == (InternalError, JObj([("error", JStr("Internal Server Error")), ("code", JInt(InternalError))]))
  {
    assert ErrorText(InternalError) == Some("Internal Server Error");
  }

  /**
   * A truthy request on any path other than `method` is answered 404 with
   * the code's text, and never reaches `method_handler`.
   */
  lemma UnroutedNotFound(attrs: map<string, JValue>, request: JValue, path: string, requestId: string, env: Env)
    requires Truthy(request) && StripSlashes(path) != "method"
    ensures !Routed(Some(request), path)
    ensures PostSpec(attrs, Some(request), path, requestId, env)
         == (NotFound, JObj([("error", JStr("Not Found")), ("code", JInt(NotFound))]))
  {
    assert ErrorText(NotFound) == Some("Not Found");
  }

  /**
   * For every outcome `method_handler` can have, the reply carries `error`
   * exactly when its code is not 200, and `response` exactly when it is.
   */
  lemma ShapedReplyKeys(raw: Option<JValue>, path: string, handled: Outcome)
    requires handled.Raised? || handled.code in {Ok, Forbidden, InvalidRequest}
    ensures var (code, reply) := PostShape(raw, path, handled);
            && reply.JObj?
            && Get(reply.fields, "code") == Some(JInt(code))
            && (HasKey(reply.fields, "error") <==> code != Ok)
            && (HasKey(reply.fields, "response") <==> code == Ok)
  {
  }

  /** Every reply of `do_POST` carries `error` exactly when its code is not 200, and `response` exactly when it is. */
  lemma ReplyKeys(attrs: map<string, JValue>, raw: Option<JValue>, path: string, requestId: string, env: Env)
    ensures var (code, reply) := PostSpec(attrs, raw, path, requestId, env);
            && reply.JObj?
            && Get(reply.fields, "code") == Some(JInt(code))
            && (HasKey(reply.fields, "error") <==> code != Ok)
            && (HasKey(reply.fields, "response") <==> code == Ok)
  {
    if Routed(raw, path) {
      ShapedReplyKeys(raw, path, HandlerSpec(attrs, raw.value, map["request_id" := JStr(requestId)], env).outcome);
    } else {
      ShapedReplyKeys(raw, path, Raised);
    }
  }
}
