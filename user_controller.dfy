/**
 * The status-code decisions of UserController ("/users"): show, create,
 * update, remove, validateToken, and the error map built by validation.
 */
module Controller {
  import opened Wrappers
  import TokenCheck
  import Service

  const StatusOk: int := 200
  const StatusCreated: int := 201
  const StatusNoContent: int := 204
  const StatusBadRequest: int := 400
  const StatusNotFound: int := 404

  /** The values a JSON response map holds. */
  datatype Json = JBool(b: bool) | JString(s: string) | JStrings(items: seq<string>) | JNull

  datatype Body =
    | NoBody
    | UserBody(user: Service.User)
    | ErrorBody(errors: map<string, string>)
    | JsonBody(fields: map<string, Json>)

  datatype Response = Response(status: int, body: Body)

  /** One field error of a BindingResult. */
  datatype FieldError = FieldError(field: string, message: string)

  /** The text validation puts under a field. */
  function ErrorText(e: FieldError): string {
    "El campo " + e.field + " " + e.message
  }

  /** errors[i] is the last error reported for its field. */
  predicate LastForField(errors: seq<FieldError>, i: int)
    requires 0 <= i < |errors|
  {
    forall j :: i < j < |errors| ==> errors[j].field != errors[i].field
  }

  function OptionalString(s: Option<string>): Json {
    if s.Some? then JString(s.value) else JNull
  }

  function OptionalStrings(s: Option<seq<string>>): Json {
    if s.Some? then JStrings(s.value) else JNull
  }

  class UserController {
    const service: Service.UserService
    /** Whether the injected UserService is the UserServiceImpl (the only
        implementation validateToken can ask for token details).  The flag
        selects only validateToken's branch: show, create, update and remove
        always run against the UserServiceImpl model. */
    const serviceIsImpl: bool

    constructor (service: Service.UserService, serviceIsImpl: bool)
      ensures this.service == service && this.serviceIsImpl == serviceIsImpl
    {
      this.service := service;
      this.serviceIsImpl := serviceIsImpl;
    }

    /** GET /users/{id}: 200 with the user when the id is stored, else 404. */
    function Show(id: int): (response: Response)
      requires service.Valid()
      reads service
      ensures response.status == StatusOk <==> id in service.users
      ensures response.status == StatusOk ==>
        response.body == UserBody(service.users[id]) && service.users[id].id == id
      ensures response.status != StatusOk ==> response == Response(StatusNotFound, NoBody)
    {
      match service.FindById(id)
      case Some(user) => Response(StatusOk, UserBody(user))
      case None => Response(StatusNotFound, NoBody)
    }

    /** UserController.validation: one entry per erroneous field, the last
        error for a field overwriting earlier ones, answered with 400. */
    method Validation(errors: seq<FieldError>) returns (response: Response)
      ensures response.status == StatusBadRequest && response.body.ErrorBody?
      ensures forall f :: f in response.body.errors <==> exists i :: 0 <= i < |errors| && errors[i].field == f
      ensures forall i :: 0 <= i < |errors| && LastForField(errors, i) ==>
        response.body.errors[errors[i].field] == ErrorText(errors[i])
    {
      var m: map<string, string> := map[];
      var k := 0;
      while k < |errors|
        invariant 0 <= k <= |errors|
        invariant forall f :: f in m <==> exists i :: 0 <= i < k && errors[i].field == f
        invariant forall i :: 0 <= i < k && (forall j :: i < j < k ==> errors[j].field != errors[i].field) ==>
          errors[i].field in m && m[errors[i].field] == ErrorText(errors[i])
      {
        m := m[errors[k].field := ErrorText(errors[k])];
        k := k + 1;
      }
      response := Response(StatusBadRequest, ErrorBody(m));
    }

    /** POST /users: 400 on binding errors without touching the store, else
        201 with the user saved under a fresh id. */
    method Create(form: Service.UserForm, errors: seq<FieldError>) returns (response: Response)
      requires service.Valid()
      modifies service
      ensures service.Valid()
      ensures errors != [] ==>
        && response.status == StatusBadRequest && response.body.ErrorBody?
        && (forall f :: f in response.body.errors <==> exists i :: 0 <= i < |errors| && errors[i].field == f)
        && (forall i :: 0 <= i < |errors| && LastForField(errors, i) ==>
              response.body.errors[errors[i].field] == ErrorText(errors[i]))
        && service.users == old(service.users) && service.nextId == old(service.nextId)
      ensures errors == [] ==>
        && response.status == StatusCreated
        && response.body.UserBody?
        && var saved := response.body.user;
        && saved.id == old(service.nextId) && saved.id !in old(service.users)
        && service.nextId == old(service.nextId) + 1
        && saved.username == form.username && saved.email == form.email
        && saved.password == service.encode(form.password)
        && saved.roles == Service.RolesFor(service.roleTable, form.admin)
        && service.users == old(service.users)[saved.id := saved]
    {
      if errors != [] {
        response := Validation(errors);
        return;
      }
      var saved := service.Save(form);
      response := Response(StatusCreated, UserBody(saved));
    }

    /** PUT /users/{id}: 400 on binding errors without touching the store;
        otherwise 201 with the updated user when the id is stored. */
    method Update(request: Service.UserRequest, errors: seq<FieldError>, id: int) returns (response: Response)
      requires service.Valid()
      modifies service
      ensures service.Valid()
      ensures service.nextId == old(service.nextId)
      ensures errors != [] ==>
        && response.status == StatusBadRequest && response.body.ErrorBody?
        && (forall f :: f in response.body.errors <==> exists i :: 0 <= i < |errors| && errors[i].field == f)
        && (forall i :: 0 <= i < |errors| && LastForField(errors, i) ==>
              response.body.errors[errors[i].field] == ErrorText(errors[i]))
        && service.users == old(service.users)
      ensures errors == [] && id in old(service.users) ==>
        && id in service.users
        && response == Response(StatusCreated, UserBody(service.users[id]))
        && service.users == old(service.users)[id := service.users[id]]
        && service.users[id].password == old(service.users)[id].password
        && service.users[id].username == request.username
        && service.users[id].email == request.email
        && service.users[id].roles == Service.RolesFor(service.roleTable, request.admin)
      ensures errors == [] && id !in old(service.users) ==> service.users == old(service.users)
    {
      if errors != [] {
        response := Validation(errors);
        return;
      }
      var o := service.Update(request, id);
      if o.Some? {
        response := Response(StatusCreated, UserBody(o.value));
      } else {
        response := Response(StatusNotFound, NoBody);
      }
    }

    /** DELETE /users/{id}: deletes a stored id and answers 204; an absent id
        answers 404 and leaves the store as it was. */
    method Remove(id: int) returns (response: Response)
      requires service.Valid()
      modifies service
      ensures service.Valid()
      ensures service.nextId == old(service.nextId)
      ensures id in old(service.users) ==>
        response == Response(StatusNoContent, NoBody) && service.users == old(service.users) - {id}
      ensures id !in old(service.users) ==>
        response == Response(StatusNotFound, NoBody) && service.users == old(service.users)
    {
      var o := service.FindById(id);
      if o.Some? {
        service.Remove(id);
        response := Response(StatusNoContent, NoBody);
      } else {
        response := Response(StatusNotFound, NoBody);
      }
    }

    /** POST /users/validate-token: answers 200 whatever the token, reporting
        validity in the body; only an exception escaping validateTokenDetails
        (a token whose "authorities" claim is missing, "null" or holds a null
        element) leaves the method. */
    method ValidateToken(token: Option<string>) returns (r: TokenCheck.Outcome<Response>)
      ensures r.Returned? ==> r.value.status == StatusOk && r.value.body.JsonBody?
      ensures !serviceIsImpl ==> r == TokenCheck.Returned(Response(StatusOk, JsonBody(map["valid" := JBool(false)])))
      ensures serviceIsImpl ==>
        var details := TokenCheck.ValidateTokenDetails(service.parse, service.decodeAuthorities, token);
        && (details.Raised? ==> r == TokenCheck.Raised(details.thrown))
        && (details.Returned? ==>
              && r.Returned?
              && r.value.body.fields.Keys == {"valid", "username", "roles"}
              && r.value.body.fields["valid"] == JBool(details.value.valid)
              && r.value.body.fields["username"] == OptionalString(details.value.username)
              && r.value.body.fields["roles"] == OptionalStrings(details.value.roles)
              && r.value.body == JsonBody(TokenReport(details.value)))
    {
      var resp: map<string, Json> := map[];
      if serviceIsImpl {
        var details := TokenCheck.ValidateTokenDetails(service.parse, service.decodeAuthorities, token);
        if details.Raised? {
          return TokenCheck.Raised(details.thrown);
        }
        var result := details.value;
        resp := resp["valid" := JBool(result.valid)];
        resp := resp["username" := OptionalString(result.username)];
        resp := resp["roles" := OptionalStrings(result.roles)];
        assert resp == TokenReport(result);
      } else {
        resp := resp["valid" := JBool(false)];
      }
      r := TokenCheck.Returned(Response(StatusOk, JsonBody(resp)));
    }
  }

  /** The JSON map validateToken answers with for the details of a token. */
  function TokenReport(d: TokenCheck.TokenValidationResult): (fields: map<string, Json>)
    ensures fields.Keys == {"valid", "username", "roles"}
    ensures fields["valid"].JBool? && (fields["valid"].b <==> d.valid)
    ensures fields["username"] == JNull <==> d.username.None?
    ensures fields["roles"] == JNull <==> d.roles.None?
  {
    map["valid" := JBool(d.valid), "username" := OptionalString(d.username), "roles" := OptionalStrings(d.roles)]
  }

  /** A garbage token, or a null or blank one, is answered with the body
      {"valid": false, "username": null, "roles": null}. */
  lemma InvalidTokenReportedInBody(parse: TokenCheck.Parser, decode: TokenCheck.AuthoritiesDecoder, token: Option<string>)
    requires !TokenCheck.Presented(token)
             || parse(TokenCheck.StripBearer(token.value)).Rejected?
    ensures var details := TokenCheck.ValidateTokenDetails(parse, decode, token);
            && details.Returned?
            && TokenReport(details.value) == map["valid" := JBool(false), "username" := JNull, "roles" := JNull]
  {
  }

  /** A token that parses, carries an "authorities" claim and decodes to a
      list of names is answered with valid true, its subject and those names. */
  lemma ValidTokenReportedInBody(parse: TokenCheck.Parser, decode: TokenCheck.AuthoritiesDecoder, token: Option<string>)
    requires TokenCheck.Presented(token)
    requires parse(TokenCheck.StripBearer(token.value)).Parsed?
    requires parse(TokenCheck.StripBearer(token.value)).claims.authorities.Some?
    requires decode(parse(TokenCheck.StripBearer(token.value)).claims.authorities.value).Names?
    ensures var claims := parse(TokenCheck.StripBearer(token.value)).claims;
            var details := TokenCheck.ValidateTokenDetails(parse, decode, token);
            && details.Returned?
            && TokenReport(details.value)
               == map["valid" := JBool(true),
                      "username" := OptionalString(claims.subject),
                      "roles" := JStrings(decode(claims.authorities.value).names)]
  {
  }
}
