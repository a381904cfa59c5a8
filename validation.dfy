/**
 * ValidationMiddleware: an ASP.NET Core middleware that, for POST, PUT and
 * PATCH requests routed to a controller action with a [FromBody] parameter,
 * reads and deserializes the body, runs the registered FluentValidation
 * validator, and either answers 400 with a problem document or passes the
 * request on with the body stream rewound to where it was.
 */
module Validation {
  import opened Wrappers

  // ---------------------------------------------------------------------
  // HTTP method filter

  /** Char.ToUpperInvariant restricted to ASCII letters. */
  function Upper(c: char): char {
    if 'a' <= c <= 'z' then (c as int - 32) as char else c
  }

  function UpperString(s: string): (r: string)
    ensures |r| == |s| && forall i :: 0 <= i < |s| ==> r[i] == Upper(s[i])
  {
    seq(|s|, i requires 0 <= i < |s| => Upper(s[i]))
  }

  /** String.Equals(a, b, StringComparison.OrdinalIgnoreCase), for ASCII case. */
  predicate EqualsIgnoreCase(a: string, b: string) {
    |a| == |b| && forall i :: 0 <= i < |a| ==> Upper(a[i]) == Upper(b[i])
  }

  /** Only POST, PUT and PATCH, in any letter case, are validated. */
  function ShouldValidateRequest(httpMethod: string): (r: bool)
    ensures r <==> UpperString(httpMethod) in {"POST", "PUT", "PATCH"}
  {
    var u := UpperString(httpMethod);
    assert EqualsIgnoreCase(httpMethod, "POST") <==> u == "POST";
    assert EqualsIgnoreCase(httpMethod, "PUT") <==> u == "PUT";
    assert EqualsIgnoreCase(httpMethod, "PATCH") <==> u == "PATCH";
    EqualsIgnoreCase(httpMethod, "POST") || EqualsIgnoreCase(httpMethod, "PUT") || EqualsIgnoreCase(httpMethod, "PATCH")
  }

  /** The filter does not depend on letter case. */
  lemma ShouldValidateIgnoresCase(a: string, b: string)
    requires EqualsIgnoreCase(a, b)
    ensures ShouldValidateRequest(a) == ShouldValidateRequest(b)
  {
    assert UpperString(a) == UpperString(b);
  }

  lemma ShouldValidateExamples()
    ensures ShouldValidateRequest("post") && ShouldValidateRequest("Put") && ShouldValidateRequest("PATCH")
    ensures !ShouldValidateRequest("GET") && !ShouldValidateRequest("DELETE") && !ShouldValidateRequest("POSTS")
  {
    assert UpperString("post") == "POST";
    assert UpperString("Put") == "PUT";
    assert UpperString("PATCH") == "PATCH";
    assert UpperString("GET") == "GET";
    assert UpperString("DELETE") == "DELETE";
    assert UpperString("POSTS") == "POSTS";
  }

  // ---------------------------------------------------------------------
  // The validation target type

  /** A parameter of the controller action: its type name and whether it carries [FromBody]. */
  datatype Parameter = Parameter(parameterType: string, fromBody: bool)

  datatype ActionDescriptor = ActionDescriptor(parameters: seq<Parameter>)

  /** A routed endpoint; `action` is its ControllerActionDescriptor metadata, if any. */
  datatype Endpoint = Endpoint(action: Option<ActionDescriptor>)

  /** FirstOrDefault over the parameters: the first [FromBody] parameter. */
  function FirstFromBody(ps: seq<Parameter>): (r: Option<Parameter>)
    ensures r.None? <==> forall i :: 0 <= i < |ps| ==> !ps[i].fromBody
    ensures r.Some? ==> exists i :: 0 <= i < |ps| && ps[i] == r.value && ps[i].fromBody &&
                                  forall j :: 0 <= j < i ==> !ps[j].fromBody
    decreases |ps|
  {
    if ps == [] then None
    else if ps[0].fromBody then Some(ps[0])
    else
      var r := FirstFromBody(ps[1..]);
      assert r.Some? ==> exists i :: 1 <= i < |ps| && ps[i] == r.value && ps[i].fromBody &&
                                     forall j :: 0 <= j < i ==> !ps[j].fromBody by {
        if r.Some? {
          var i :| 0 <= i < |ps[1..]| && ps[1..][i] == r.value && ps[1..][i].fromBody &&
                   forall j :: 0 <= j < i ==> !ps[1..][j].fromBody;
          assert ps[i + 1] == r.value;
          forall j | 0 <= j < i + 1 ensures !ps[j].fromBody {
            if j > 0 { assert ps[j] == ps[1..][j - 1]; }
          }
        }
      }
      r
  }

  /**
   * GetValidationTargetType: the type of the first [FromBody] parameter of
   * the endpoint's controller action; none without an endpoint, without
   * controller metadata, or without such a parameter.
   */
  function GetValidationTargetType(endpoint: Option<Endpoint>): (r: Option<string>)
    ensures r.None? <==> endpoint.None? || endpoint.value.action.None? ||
                         forall p :: p in endpoint.value.action.value.parameters ==> !p.fromBody
    ensures r.Some? ==> exists i :: 0 <= i < |endpoint.value.action.value.parameters| &&
                          var ps := endpoint.value.action.value.parameters;
                          ps[i].fromBody && ps[i].parameterType == r.value &&
                          forall j :: 0 <= j < i ==> !ps[j].fromBody
  {
    if endpoint.None? then None
    else if endpoint.value.action.None? then None
    else
      var body := FirstFromBody(endpoint.value.action.value.parameters);
      if body.None? then None else Some(body.value.parameterType)
  }

  // ---------------------------------------------------------------------
  // Grouping validation failures

  /** A FluentValidation ValidationFailure; a null PropertyName is `None`. */
  datatype ValidationFailure = ValidationFailure(propertyName: Option<string>, errorMessage: string)

  /** An IGrouping of failures by PropertyName, reduced to their messages. */
  datatype Group = Group(key: Option<string>, messages: seq<string>)

  function IndexOfKey(gs: seq<Group>, key: Option<string>): (r: Option<nat>)
    ensures r.Some? ==> r.value < |gs| && gs[r.value].key == key
    ensures r.None? ==> forall j :: 0 <= j < |gs| ==> gs[j].key != key
    decreases |gs|
  {
    if gs == [] then None
    else if gs[|gs| - 1].key == key then Some(|gs| - 1)
    else IndexOfKey(gs[..|gs| - 1], key)
  }

  /** One more failure: appended to its key's group, or opening a new group at the end. */
  function AddToGroups(gs: seq<Group>, f: ValidationFailure): seq<Group> {
    match IndexOfKey(gs, f.propertyName)
    case Some(i) => gs[i := Group(gs[i].key, gs[i].messages + [f.errorMessage])]
    case None => gs + [Group(f.propertyName, [f.errorMessage])]
  }

  /**
   * Errors.GroupBy(e => e.PropertyName) with each group's messages: groups in
   * order of first occurrence, messages in input order.
   */
  function GroupBy(fs: seq<ValidationFailure>): seq<Group>
    decreases |fs|
  {
    if fs == [] then [] else AddToGroups(GroupBy(fs[..|fs| - 1]), fs[|fs| - 1])
  }

  /** The messages of the failures with the given property name, in input order. */
  function MessagesFor(fs: seq<ValidationFailure>, key: Option<string>): seq<string>
    decreases |fs|
  {
    if fs == [] then []
    else MessagesFor(fs[..|fs| - 1], key) + (if fs[|fs| - 1].propertyName == key then [fs[|fs| - 1].errorMessage] else [])
  }

  predicate DistinctKeys(gs: seq<Group>) {
    forall i, j :: 0 <= i < j < |gs| ==> gs[i].key != gs[j].key
  }

  function KeySet(gs: seq<Group>): set<Option<string>> {
    set g | g in gs :: g.key
  }

  function NameSet(fs: seq<ValidationFailure>): set<Option<string>> {
    set f | f in fs :: f.propertyName
  }

  /** GroupBy opens exactly one group per distinct property name. */
  lemma {:induction false} GroupByKeys(fs: seq<ValidationFailure>)
    ensures DistinctKeys(GroupBy(fs))
    ensures KeySet(GroupBy(fs)) == NameSet(fs)
    decreases |fs|
  {
    if fs != [] {
      var init := fs[..|fs| - 1];
      var f := fs[|fs| - 1];
      var prev := GroupBy(init);
      var gs := GroupBy(fs);
      GroupByKeys(init);
      assert fs == init + [f];
      assert NameSet(fs) == NameSet(init) + {f.propertyName};
      match IndexOfKey(prev, f.propertyName)
      case Some(i) =>
        assert gs == prev[i := Group(prev[i].key, prev[i].messages + [f.errorMessage])];
        ReplaceKeepsKeys(prev, i, Group(prev[i].key, prev[i].messages + [f.errorMessage]));
      case None =>
        assert gs == prev + [Group(f.propertyName, [f.errorMessage])];
        assert KeySet(gs) == KeySet(prev) + {f.propertyName};
    }
  }

  lemma ReplaceKeepsKeys(gs: seq<Group>, i: nat, g: Group)
    requires i < |gs| && g.key == gs[i].key
    ensures KeySet(gs[i := g]) == KeySet(gs)
    ensures DistinctKeys(gs) ==> DistinctKeys(gs[i := g])
  {
    var hs := gs[i := g];
    forall k | k in KeySet(gs) ensures k in KeySet(hs) {
      var j :| 0 <= j < |gs| && gs[j].key == k;
      assert hs[j] in hs;
    }
    forall k | k in KeySet(hs) ensures k in KeySet(gs) {
      var j :| 0 <= j < |hs| && hs[j].key == k;
      assert gs[j] in gs;
    }
  }

  /** Each group holds exactly the messages of the failures with its property name, in input order. */
  lemma {:induction false} GroupByMessages(fs: seq<ValidationFailure>)
    ensures forall i :: 0 <= i < |GroupBy(fs)| ==> GroupBy(fs)[i].messages == MessagesFor(fs, GroupBy(fs)[i].key)
    decreases |fs|
  {
    if fs != [] {
      var init := fs[..|fs| - 1];
      var f := fs[|fs| - 1];
      var prev := GroupBy(init);
      var gs := GroupBy(fs);
      GroupByMessages(init);
      GroupByKeys(init);
      match IndexOfKey(prev, f.propertyName)
      case Some(i) =>
        assert gs == prev[i := Group(prev[i].key, prev[i].messages + [f.errorMessage])];
        forall j | 0 <= j < |gs| ensures gs[j].messages == MessagesFor(fs, gs[j].key) {
          assert gs[j].key == prev[j].key;
          if j != i {
            assert prev[j].key != f.propertyName;
          }
        }
      case None =>
        assert gs == prev + [Group(f.propertyName, [f.errorMessage])];
        assert f.propertyName !in NameSet(init);
        MessagesForAbsent(init, f.propertyName);
        forall j | 0 <= j < |gs| ensures gs[j].messages == MessagesFor(fs, gs[j].key) {
          if j < |prev| {
            assert gs[j] == prev[j];
          }
        }
    }
  }

  lemma {:induction false} MessagesForAbsent(fs: seq<ValidationFailure>, key: Option<string>)
    requires key !in NameSet(fs)
    ensures MessagesFor(fs, key) == []
    decreases |fs|
  {
    if fs != [] {
      assert fs[|fs| - 1] in fs;
      assert NameSet(fs[..|fs| - 1]) <= NameSet(fs) by {
        forall g | g in fs[..|fs| - 1] ensures g in fs { }
      }
      MessagesForAbsent(fs[..|fs| - 1], key);
    }
  }

  /** How many messages the groups hold in all. */
  function TotalMessages(gs: seq<Group>): nat
    decreases |gs|
  {
    if gs == [] then 0 else TotalMessages(gs[..|gs| - 1]) + |gs[|gs| - 1].messages|
  }

  lemma {:induction false} TotalMessagesReplace(gs: seq<Group>, i: nat, g: Group)
    requires i < |gs|
    ensures TotalMessages(gs[i := g]) + |gs[i].messages| == TotalMessages(gs) + |g.messages|
    decreases |gs|
  {
    var n := |gs| - 1;
    if i < n {
      assert gs[i := g][..n] == gs[..n][i := g];
      TotalMessagesReplace(gs[..n], i, g);
    } else {
      assert gs[i := g][..n] == gs[..n];
    }
  }

  lemma TotalMessagesAppend(gs: seq<Group>, g: Group)
    ensures TotalMessages(gs + [g]) == TotalMessages(gs) + |g.messages|
  {
    assert (gs + [g])[..|gs|] == gs;
  }

  /** Grouping neither loses nor duplicates a message: the groups hold one message per failure. */
  lemma {:induction false} GroupByKeepsEveryMessage(fs: seq<ValidationFailure>)
    ensures TotalMessages(GroupBy(fs)) == |fs|
    decreases |fs|
  {
    if fs != [] {
      var init := fs[..|fs| - 1];
      var f := fs[|fs| - 1];
      var prev := GroupBy(init);
      GroupByKeepsEveryMessage(init);
      match IndexOfKey(prev, f.propertyName)
      case Some(i) =>
        TotalMessagesReplace(prev, i, Group(prev[i].key, prev[i].messages + [f.errorMessage]));
      case None =>
        TotalMessagesAppend(prev, Group(f.propertyName, [f.errorMessage]));
    }
  }

  /** An entry of the `errors` dictionary of the problem document. */
  datatype ErrorEntry = ErrorEntry(key: string, messages: seq<string>)

  const NullKeyMessage: string := "Value cannot be null. (Parameter 'key')"
  const DuplicateKeyMessage: string := "An item with the same key has already been added."

  /**
   * ToDictionary(g => g.Key, ...): entries added in group order; a null key
   * or a key already present throws.
   */
  function ToDictionary(gs: seq<Group>): (r: Result<seq<ErrorEntry>, string>)
    ensures r.Success? ==> (|r.value| == |gs| &&
              forall i :: 0 <= i < |gs| ==> gs[i].key.Some? && r.value[i] == ErrorEntry(gs[i].key.value, gs[i].messages))
    ensures r.Failure? ==> r.error in {NullKeyMessage, DuplicateKeyMessage}
    decreases |gs|
  {
    if gs == [] then Success([])
    else
      var prev := ToDictionary(gs[..|gs| - 1]);
      var g := gs[|gs| - 1];
      if prev.Failure? then prev
      else if g.key.None? then Failure(NullKeyMessage)
      else if exists e :: e in prev.value && e.key == g.key.value then Failure(DuplicateKeyMessage)
      else Success(prev.value + [ErrorEntry(g.key.value, g.messages)])
  }

  /** On groups with distinct keys, ToDictionary throws exactly when some key is null. */
  lemma {:induction false} ToDictionaryFailsOnNullKeyOnly(gs: seq<Group>)
    requires DistinctKeys(gs)
    ensures ToDictionary(gs).Success? <==> forall g :: g in gs ==> g.key.Some?
    decreases |gs|
  {
    if gs != [] {
      var init := gs[..|gs| - 1];
      var g := gs[|gs| - 1];
      assert DistinctKeys(init);
      ToDictionaryFailsOnNullKeyOnly(init);
      var prev := ToDictionary(init);
      assert (forall h :: h in gs ==> h.key.Some?) <==> (forall h :: h in init ==> h.key.Some?) && g.key.Some? by {
        assert gs == init + [g];
      }
      if prev.Success? && g.key.Some? {
        forall e | e in prev.value ensures e.key != g.key.value {
          var i :| 0 <= i < |prev.value| && prev.value[i] == e;
          assert gs[i].key != g.key;
        }
      }
    }
  }

  /** The dictionary of grouped failures exists exactly when no failure has a null property name. */
  lemma GroupedFailuresConvert(fs: seq<ValidationFailure>)
    ensures ToDictionary(GroupBy(fs)).Success? <==> forall f :: f in fs ==> f.propertyName.Some?
  {
    GroupByKeys(fs);
    ToDictionaryFailsOnNullKeyOnly(GroupBy(fs));
    var gs := GroupBy(fs);
    if forall f :: f in fs ==> f.propertyName.Some? {
      forall g | g in gs ensures g.key.Some? {
        assert g.key in KeySet(gs);
      }
    } else {
      var f :| f in fs && f.propertyName.None?;
      assert f.propertyName in NameSet(fs);
      var g :| g in gs && g.key == f.propertyName;
    }
  }

  // ---------------------------------------------------------------------
  // The decision

  /** The deserialized request model; only the validator looks inside it. */
  datatype Model = Model(typeName: string, json: string)

  /** An IValidator<T>.ValidateAsync: the failures it reports, or the exception it throws. */
  type Validator = Model -> Result<seq<ValidationFailure>, string>

  /** Why a request is passed on. */
  datatype Reason =
    | NotValidated       // not POST, PUT or PATCH
    | NoTarget           // no [FromBody] parameter to validate
    | EmptyBody
    | NullModel          // the body deserializes to null
    | NoValidator        // no IValidator<T> registered for the type
    | Valid
    | Threw(message: string)  // reading, deserializing, validating or grouping threw

  datatype Decision = Forward(reason: Reason) | Reject(errors: seq<ErrorEntry>)

  /**
   * What the middleware decides for a request, independently of how the
   * downstream pipeline and the response stream behave.
   */
  function Decide(httpMethod: string, endpoint: Option<Endpoint>, body: Result<string, string>,
                  deserialize: (string, string) -> Result<Option<Model>, string>,
                  validators: map<string, Validator>): Decision
  {
    if !ShouldValidateRequest(httpMethod) then Forward(NotValidated)
    else match GetValidationTargetType(endpoint)
      case None => Forward(NoTarget)
      case Some(t) =>
        match body
        case Failure(e) => Forward(Threw(e))
        case Success(text) =>
          if text == "" then Forward(EmptyBody)
          else match deserialize(text, t)
            case Failure(e) => Forward(Threw(e))
            case Success(None) => Forward(NullModel)
            case Success(Some(model)) =>
              if t !in validators then Forward(NoValidator)
              else match validators[t](model)
                case Failure(e) => Forward(Threw(e))
                case Success(failures) =>
                  if failures == [] then Forward(Valid)
                  else match ToDictionary(GroupBy(failures))
                    case Failure(e) => Forward(Threw(e))
                    case Success(errors) => Reject(errors)
  }

  /**
   * A request is rejected exactly when it is a validated method routed to a
   * [FromBody] parameter, its body reads as non-empty text that deserializes
   * to a model, a validator is registered for the type, and that validator
   * reports failures all of which name a property; the errors are then those
   * failures grouped by property name.
   */
  lemma RejectsExactlyInvalidModels(httpMethod: string, endpoint: Option<Endpoint>, body: Result<string, string>,
                                    deserialize: (string, string) -> Result<Option<Model>, string>,
                                    validators: map<string, Validator>)
    ensures Decide(httpMethod, endpoint, body, deserialize, validators).Reject? <==>
      && ShouldValidateRequest(httpMethod)
      && GetValidationTargetType(endpoint).Some?
      && body.Success? && body.value != ""
      && var t := GetValidationTargetType(endpoint).value;
         && deserialize(body.value, t).Success? && deserialize(body.value, t).value.Some?
         && t in validators
         && var v := validators[t](deserialize(body.value, t).value.value);
            && v.Success? && v.value != []
            && forall f :: f in v.value ==> f.propertyName.Some?
    ensures Decide(httpMethod, endpoint, body, deserialize, validators).Reject? ==>
      var t := GetValidationTargetType(endpoint).value;
      var fs := validators[t](deserialize(body.value, t).value.value).value;
      Decide(httpMethod, endpoint, body, deserialize, validators).errors == ToDictionary(GroupBy(fs)).value
  {
    if ShouldValidateRequest(httpMethod) && GetValidationTargetType(endpoint).Some? && body.Success? && body.value != "" {
      var t := GetValidationTargetType(endpoint).value;
      if deserialize(body.value, t).Success? && deserialize(body.value, t).value.Some? && t in validators {
        var v := validators[t](deserialize(body.value, t).value.value);
        if v.Success? {
          GroupedFailuresConvert(v.value);
        }
      }
    }
  }

  // ---------------------------------------------------------------------
  // The problem document

  const ProblemTitle: string := "One or more validation errors occurred."
  const ProblemDetail: string := "See the errors property for details."
  const ProblemType: string := "https://tools.ietf.org/html/rfc7231#section-6.5.1"
  const JsonContentType: string := "application/json"

  /** ProblemResultDto, before serialization. */
  datatype ProblemResult = ProblemResult(
    title: string, detail: string, status: int, errors: seq<ErrorEntry>, instance: string, problemType: string)

  function Problem(errors: seq<ErrorEntry>, path: string): ProblemResult {
    ProblemResult(ProblemTitle, ProblemDetail, 400, errors, path, ProblemType)
  }

  /** Whether a failure of the downstream delegate inside the try block is caught and the delegate called again. */
  predicate RetriedOnFault(reason: Reason) {
    reason.EmptyBody? || reason.NullModel? || reason.NoValidator? || reason.Valid?
  }

  // ---------------------------------------------------------------------
  // The request and the middleware

  /**
   * The parts of an HttpContext the middleware reads and writes.  `body` is
   * what reading the buffered request stream yields (its text, or the
   * exception reading throws), and `readStop` the stream position at which
   * a read that throws stops; `downstreamFault` and `writeFault` are the
   * exception, if any, that the next delegate and a response write throw.
   * `forwardedAt` records the stream position at each call of the next
   * delegate, and `written` each problem document written to the response.
   */
  class HttpContext {
    const httpMethod: string
    const path: string
    const endpoint: Option<Endpoint>
    const body: Result<string, string>
    const readStop: int
    const downstreamFault: Option<string>
    const writeFault: Option<string>
    var bodyPosition: int
    var statusCode: int
    var contentType: Option<string>
    var written: seq<ProblemResult>
    var forwardedAt: seq<int>

    constructor(httpMethod: string, path: string, endpoint: Option<Endpoint>, body: Result<string, string>,
                readStop: int, downstreamFault: Option<string>, writeFault: Option<string>, bodyPosition: int)
      ensures this.httpMethod == httpMethod && this.path == path && this.endpoint == endpoint && this.body == body
      ensures this.readStop == readStop
      ensures this.downstreamFault == downstreamFault && this.writeFault == writeFault
      ensures this.bodyPosition == bodyPosition && statusCode == 200 && contentType == None
      ensures written == [] && forwardedAt == []
    {
      this.httpMethod := httpMethod;
      this.path := path;
      this.endpoint := endpoint;
      this.body := body;
      this.readStop := readStop;
      this.downstreamFault := downstreamFault;
      this.writeFault := writeFault;
      this.bodyPosition := bodyPosition;
      statusCode := 200;
      contentType := None;
      written := [];
      forwardedAt := [];
    }
  }

  /** The outcome of calling the next delegate on this request. */
  function NextOutcome(ctx: HttpContext): Outcome<string> {
    if ctx.downstreamFault.Some? then Fail(ctx.downstreamFault.value) else Pass
  }

  class ValidationMiddleware {
    /** JsonSerializer.Deserialize(body, type, case-insensitive options). */
    const deserialize: (string, string) -> Result<Option<Model>, string>
    /** The IValidator<T> the scoped service provider resolves, by type name. */
    const validators: map<string, Validator>

    constructor(deserialize: (string, string) -> Result<Option<Model>, string>, validators: map<string, Validator>)
      ensures this.deserialize == deserialize && this.validators == validators
    {
      this.deserialize := deserialize;
      this.validators := validators;
    }

    function DecisionFor(ctx: HttpContext): Decision {
      Decide(ctx.httpMethod, ctx.endpoint, ctx.body, deserialize, validators)
    }

    /** `await _next(context)`, recording the body position it sees. */
    method Next(ctx: HttpContext) returns (r: Outcome<string>)
      modifies ctx`forwardedAt
      ensures ctx.forwardedAt == old(ctx.forwardedAt) + [ctx.bodyPosition]
      ensures r == NextOutcome(ctx)
    {
      ctx.forwardedAt := ctx.forwardedAt + [ctx.bodyPosition];
      r := NextOutcome(ctx);
    }

    /**
     * ReadRequestBodyAsync: rewinds to 0, reads to the end and restores the
     * position it found; a read that throws leaves the stream where it
     * stopped.
     */
    method ReadRequestBodyAsync(ctx: HttpContext) returns (r: Result<string, string>)
      modifies ctx`bodyPosition
      ensures r == ctx.body
      ensures r.Success? ==> ctx.bodyPosition == old(ctx.bodyPosition)
      ensures r.Failure? ==> ctx.bodyPosition == ctx.readStop
    {
      var currentPosition := ctx.bodyPosition;
      ctx.bodyPosition := 0;
      if ctx.body.Failure? {
        // the read advances from 0 until it throws
        ctx.bodyPosition := ctx.readStop;
        return Failure(ctx.body.error);
      }
      var text := ctx.body.value;
      ctx.bodyPosition := currentPosition;
      r := Success(text);
    }

    /**
     * HandleValidationFailure: groups the failures into the errors
     * dictionary (which throws on a null property name), sets status 400 and
     * the JSON content type, and writes the problem document.
     */
    method HandleValidationFailure(ctx: HttpContext, failures: seq<ValidationFailure>) returns (r: Outcome<string>)
      modifies ctx`statusCode, ctx`contentType, ctx`written
      ensures ToDictionary(GroupBy(failures)).Failure? ==>
                r == Fail(ToDictionary(GroupBy(failures)).error) &&
                ctx.statusCode == old(ctx.statusCode) && ctx.contentType == old(ctx.contentType) &&
                ctx.written == old(ctx.written)
      ensures ToDictionary(GroupBy(failures)).Success? ==>
                ctx.statusCode == 400 && ctx.contentType == Some(JsonContentType) &&
                (ctx.writeFault.Some? ==> r == Fail(ctx.writeFault.value) && ctx.written == old(ctx.written)) &&
                (ctx.writeFault.None? ==> (r == Pass &&
                   ctx.written == old(ctx.written) + [Problem(ToDictionary(GroupBy(failures)).value, ctx.path)]))
    {
      var groups := GroupBy(failures);
      var dictionary := ToDictionary(groups);
      if dictionary.Failure? {
        return Fail(dictionary.error);
      }
      var response := Problem(dictionary.value, ctx.path);
      ctx.statusCode := 400;
      ctx.contentType := Some(JsonContentType);
      if ctx.writeFault.Some? {
        return Fail(ctx.writeFault.value);
      }
      ctx.written := ctx.written + [response];
      r := Pass;
    }

    /**
     * The try block of ValidateRequest.  It returns `Fail` with the
     * exception that escapes it, which the catch block then handles.
     */
    method TryValidate(ctx: HttpContext, requestType: string, originalBodyPosition: int) returns (r: Outcome<string>)
      requires ctx.bodyPosition == originalBodyPosition
      requires GetValidationTargetType(ctx.endpoint) == Some(requestType) && ShouldValidateRequest(ctx.httpMethod)
      modifies ctx`bodyPosition, ctx`forwardedAt, ctx`statusCode, ctx`contentType, ctx`written
      ensures var d := DecisionFor(ctx);
        && (d.Forward? && d.reason.Threw? ==>
              r == Fail(d.reason.message) && ctx.forwardedAt == old(ctx.forwardedAt) &&
              ctx.statusCode == old(ctx.statusCode) && ctx.contentType == old(ctx.contentType) &&
              ctx.written == old(ctx.written))
        && (d.Forward? && !d.reason.Threw? ==>
              r == NextOutcome(ctx) && ctx.bodyPosition == originalBodyPosition &&
              ctx.forwardedAt == old(ctx.forwardedAt) + [originalBodyPosition] &&
              ctx.statusCode == old(ctx.statusCode) && ctx.contentType == old(ctx.contentType) &&
              ctx.written == old(ctx.written))
        && (d.Reject? ==>
              ctx.bodyPosition == originalBodyPosition &&
              ctx.forwardedAt == old(ctx.forwardedAt) && ctx.statusCode == 400 &&
              ctx.contentType == Some(JsonContentType) &&
              (ctx.writeFault.Some? ==> r == Fail(ctx.writeFault.value) && ctx.written == old(ctx.written)) &&
              (ctx.writeFault.None? ==> r == Pass && ctx.written == old(ctx.written) + [Problem(d.errors, ctx.path)]))
    {
      var body := ReadRequestBodyAsync(ctx);
      if body.Failure? {
        return Fail(body.error);
      }
      if body.value == "" {
        ctx.bodyPosition := originalBodyPosition;
        r := Next(ctx);
        return;
      }
      var model := deserialize(body.value, requestType);
      if model.Failure? {
        return Fail(model.error);
      }
      if model.value.None? {
        ctx.bodyPosition := originalBodyPosition;
        r := Next(ctx);
        return;
      }
      if requestType !in validators {
        ctx.bodyPosition := originalBodyPosition;
        r := Next(ctx);
        return;
      }
      var validationResult := validators[requestType](model.value.value);
      if validationResult.Failure? {
        return Fail(validationResult.error);
      }
      if validationResult.value != [] {
        r := HandleValidationFailure(ctx, validationResult.value);
        return;
      }
      ctx.bodyPosition := originalBodyPosition;
      r := Next(ctx);
    }

    /**
     * ValidateRequest: the try block, and on any exception the catch block,
     * which rewinds the stream and calls the next delegate.
     */
    method ValidateRequest(ctx: HttpContext, requestType: string) returns (r: Outcome<string>)
      requires GetValidationTargetType(ctx.endpoint) == Some(requestType) && ShouldValidateRequest(ctx.httpMethod)
      modifies ctx`bodyPosition, ctx`forwardedAt, ctx`statusCode, ctx`contentType, ctx`written
      ensures ctx.bodyPosition == old(ctx.bodyPosition)
      ensures var d := DecisionFor(ctx);
        && (d.Forward? ==>
              ctx.statusCode == old(ctx.statusCode) && ctx.contentType == old(ctx.contentType) &&
              ctx.written == old(ctx.written) && r == NextOutcome(ctx) &&
              ctx.forwardedAt == old(ctx.forwardedAt) +
                (if ctx.downstreamFault.Some? && RetriedOnFault(d.reason)
                 then [old(ctx.bodyPosition), old(ctx.bodyPosition)] else [old(ctx.bodyPosition)]))
        && (d.Reject? ==>
              ctx.statusCode == 400 && ctx.contentType == Some(JsonContentType) &&
              (ctx.writeFault.None? ==>
                 r == Pass && ctx.forwardedAt == old(ctx.forwardedAt) &&
                 ctx.written == old(ctx.written) + [Problem(d.errors, ctx.path)]) &&
              (ctx.writeFault.Some? ==>
                 r == NextOutcome(ctx) && ctx.written == old(ctx.written) &&
                 ctx.forwardedAt == old(ctx.forwardedAt) + [old(ctx.bodyPosition)]))
    {
      var originalBodyPosition := ctx.bodyPosition;
      var attempt := TryValidate(ctx, requestType, originalBodyPosition);
      if attempt.Fail? {
        ctx.bodyPosition := originalBodyPosition;
        r := Next(ctx);
        return;
      }
      r := Pass;
    }

    /**
     * InvokeAsync: requests that are not validated, and requests with no
     * [FromBody] target, go straight to the next delegate; the others are
     * validated.
     */
    method InvokeAsync(ctx: HttpContext) returns (r: Outcome<string>)
      modifies ctx`bodyPosition, ctx`forwardedAt, ctx`statusCode, ctx`contentType, ctx`written
      ensures ctx.bodyPosition == old(ctx.bodyPosition)
      ensures var d := DecisionFor(ctx);
        && (d.Forward? ==>
              ctx.statusCode == old(ctx.statusCode) && ctx.contentType == old(ctx.contentType) &&
              ctx.written == old(ctx.written) && r == NextOutcome(ctx) &&
              ctx.forwardedAt == old(ctx.forwardedAt) +
                (if ctx.downstreamFault.Some? && RetriedOnFault(d.reason)
                 then [old(ctx.bodyPosition), old(ctx.bodyPosition)] else [old(ctx.bodyPosition)]))
        && (d.Reject? ==>
              ctx.statusCode == 400 && ctx.contentType == Some(JsonContentType) &&
              (ctx.writeFault.None? ==>
                 r == Pass && ctx.forwardedAt == old(ctx.forwardedAt) &&
                 ctx.written == old(ctx.written) + [Problem(d.errors, ctx.path)]) &&
              (ctx.writeFault.Some? ==>
                 r == NextOutcome(ctx) && ctx.written == old(ctx.written) &&
                 ctx.forwardedAt == old(ctx.forwardedAt) + [old(ctx.bodyPosition)]))
    {
      if !ShouldValidateRequest(ctx.httpMethod) {
        r := Next(ctx);
        return;
      }
      var requestType := GetValidationTargetType(ctx.endpoint);
      if requestType.None? {
        r := Next(ctx);
        return;
      }
      r := ValidateRequest(ctx, requestType.value);
    }
  }
}
