/**
 * The `authorizeHttpRequests` rule list of SpringSecurityConfig.securityFilterChain:
 * an ordered table of (method?, path patterns) -> access rule, decided by
 * the first rule that matches the request.
 *
 * A request path is its sequence of segments: "/users/5" is ["users", "5"],
 * "/users/" is ["users", ""] and "/" is [""].  A pattern segment is a literal,
 * a one-segment variable such as "{id}", or the suffix wildcard "**".
 */
module SecurityPolicy {
  import opened Wrappers

  datatype HttpMethod = Get | Post | Put | Delete | Patch | Head | Options | Trace

  /** `Rest` (a trailing "**") stands only at the end of a pattern. */
  datatype PatternSegment = Lit(text: string) | Var | Rest

  type Pattern = seq<PatternSegment>
  type Path = seq<string>

  /** What one pattern segment accepts of one path segment. */
  predicate SegmentMatches(segment: PatternSegment, text: string) {
    match segment
    case Lit(t) => text == t
    case Var => text != ""
    case Rest => true
  }

  /** "**" stands nowhere but at the end. */
  predicate WellFormed(pattern: Pattern) {
    forall i :: 0 <= i < |pattern| - 1 ==> !pattern[i].Rest?
  }

  /** Path-pattern matching: a literal matches the equal segment, a variable
      any one non-empty segment, and a trailing "**" zero or more segments.
      A well-formed pattern without "**" matches exactly the paths of its
      length whose segments it accepts one by one; with a trailing "**" it
      matches every path that starts with such a prefix. */
  function PatternMatches(pattern: Pattern, path: Path): (m: bool)
    decreases pattern
    ensures WellFormed(pattern) && (pattern == [] || !pattern[|pattern| - 1].Rest?) ==>
      (m <==> |path| == |pattern| && forall i :: 0 <= i < |pattern| ==> SegmentMatches(pattern[i], path[i]))
    ensures WellFormed(pattern) && pattern != [] && pattern[|pattern| - 1].Rest? ==>
      (m <==> |pattern| - 1 <= |path| && forall i :: 0 <= i < |pattern| - 1 ==> SegmentMatches(pattern[i], path[i]))
  {
    if pattern == [] then path == []
    else
      match pattern[0]
      case Rest => true
      case Lit(t) => path != [] && path[0] == t && PatternMatches(pattern[1..], path[1..])
      case Var => path != [] && path[0] != "" && PatternMatches(pattern[1..], path[1..])
  }

  /** permitAll, hasRole, hasAnyRole and authenticated. */
  datatype Access = PermitAll | HasRole(role: string) | HasAnyRole(roles: seq<string>) | Authenticated

  /** One `requestMatchers(...)` entry: an optional method and one or more
      patterns, any of which may match. */
  datatype Rule = Rule(verb: Option<HttpMethod>, patterns: seq<Pattern>, access: Access)

  datatype Decision = Permit | Deny

  /** The authority names of the authenticated caller; None for an
      anonymous request. */
  type Identity = Option<set<string>>

  /** hasRole and hasAnyRole name roles without this prefix. */
  const RolePrefix: string := "ROLE_"

  /** Whether an access rule lets the caller through.  An anonymous caller
      passes permitAll alone. */
  function Grants(access: Access, identity: Identity): (g: bool)
    ensures identity.None? ==> (g <==> access.PermitAll?)
  {
    match access
    case PermitAll => true
    case HasRole(role) => identity.Some? && RolePrefix + role in identity.value
    case HasAnyRole(roles) => identity.Some? && exists i :: 0 <= i < |roles| && RolePrefix + roles[i] in identity.value
    case Authenticated => identity.Some?
  }

  predicate RuleMatches(rule: Rule, verb: HttpMethod, path: Path) {
    && (rule.verb.None? || rule.verb.value == verb)
    && exists i :: 0 <= i < |rule.patterns| && PatternMatches(rule.patterns[i], path)
  }

  /** The index of the first rule that matches, walking the table in order. */
  function FirstMatch(rules: seq<Rule>, verb: HttpMethod, path: Path): (r: Option<nat>)
    ensures r.Some? ==> r.value < |rules| && RuleMatches(rules[r.value], verb, path)
    ensures r.Some? ==> forall j :: 0 <= j < r.value ==> !RuleMatches(rules[j], verb, path)
    ensures r.None? ==> forall j :: 0 <= j < |rules| ==> !RuleMatches(rules[j], verb, path)
  {
    if rules == [] then None
    else if RuleMatches(rules[0], verb, path) then Some(0)
    else
      match FirstMatch(rules[1..], verb, path)
      case None => None
      case Some(k) => Some(k + 1)
  }

  /** The first matching rule decides; a request no rule matches is denied,
      and a permitted one is permitted by a rule that matches it. */
  function Decide(rules: seq<Rule>, verb: HttpMethod, path: Path, identity: Identity): (d: Decision)
    ensures (forall j :: 0 <= j < |rules| ==> !RuleMatches(rules[j], verb, path)) ==> d == Deny
    ensures d == Permit ==>
      exists k :: 0 <= k < |rules| && RuleMatches(rules[k], verb, path) && Grants(rules[k].access, identity)
  {
    match FirstMatch(rules, verb, path)
    case None => Deny
    case Some(k) => if Grants(rules[k].access, identity) then Permit else Deny
  }

  /** Decide, stated without FirstMatch: a request is permitted exactly when
      some rule matches it, grants the caller, and no earlier rule matches. */
  lemma DecideIsFirstGrant(rules: seq<Rule>, verb: HttpMethod, path: Path, identity: Identity)
    ensures Decide(rules, verb, path, identity) == Permit <==>
      exists k :: 0 <= k < |rules| && RuleMatches(rules[k], verb, path) && Grants(rules[k].access, identity)
                  && forall j :: 0 <= j < k ==> !RuleMatches(rules[j], verb, path)
  {
    var first := FirstMatch(rules, verb, path);
    if first.Some? {
      forall k | 0 <= k < |rules| && RuleMatches(rules[k], verb, path)
                 && (forall j :: 0 <= j < k ==> !RuleMatches(rules[j], verb, path))
        ensures k == first.value
      {
        assert RuleMatches(rules[first.value], verb, path);
      }
    }
  }

  const UsersPath: string := "users"
  const ValidateTokenPath: string := "validate-token"

  /** The rule list of securityFilterChain, in declaration order. */
  const Table: seq<Rule> := [
    // 0: OpenAPI / Swagger UI endpoints
    Rule(None, [[Lit("swagger-ui"), Rest], [Lit("swagger-ui.html")], [Lit("swagger-ui-custom.html")],
                [Lit("api-docs"), Rest], [Lit("v3"), Lit("api-docs"), Rest], [Lit("webjars"), Rest]], PermitAll),
    // 1: POST /users/validate-token
    Rule(Some(Post), [[Lit(UsersPath), Lit(ValidateTokenPath)]], PermitAll),
    // 2: GET /users
    Rule(Some(Get), [[Lit(UsersPath)]], PermitAll),
    // 3: GET /users/{id}
    Rule(Some(Get), [[Lit(UsersPath), Var]], HasAnyRole(["USER", "ADMIN"])),
    // 4: POST /users/
    Rule(Some(Post), [[Lit(UsersPath), Lit("")]], HasRole("ADMIN")),
    // 5: /users/**
    Rule(None, [[Lit(UsersPath), Rest]], HasRole("ADMIN")),
    // 6: /h2-console/**
    Rule(None, [[Lit("h2-console"), Rest]], PermitAll),
    // 7: anyRequest()
    Rule(None, [[Rest]], Authenticated)
  ]

  /** The table ends with anyRequest(), so every request is decided by one
      of its rules and never by the default denial. */
  lemma EveryRequestMatchesARule(verb: HttpMethod, path: Path)
    ensures FirstMatch(Table, verb, path).Some?
  {
    assert RuleMatches(Table[7], verb, path) by {
      assert PatternMatches(Table[7].patterns[0], path);
    }
  }

  /** More authorities never lose access. */
  lemma GrantsMonotone(access: Access, held: set<string>, more: set<string>)
    requires held <= more
    ensures Grants(access, Some(held)) ==> Grants(access, Some(more))
  {
  }

  /** If rule k matches and none before it does, rule k decides. */
  lemma FirstMatchDecides(rules: seq<Rule>, verb: HttpMethod, path: Path, identity: Identity, k: nat)
    requires k < |rules| && RuleMatches(rules[k], verb, path)
    requires forall j :: 0 <= j < k ==> !RuleMatches(rules[j], verb, path)
    ensures FirstMatch(rules, verb, path) == Some(k)
    ensures Decide(rules, verb, path, identity) == (if Grants(rules[k].access, identity) then Permit else Deny)
  {
  }

  /** POST /users/validate-token is public: rule 1 decides before
      rule 5 (every path under "users"), which also matches it and would demand ADMIN. */
  lemma ValidateTokenIsPublic(identity: Identity)
    ensures RuleMatches(Table[5], Post, [UsersPath, ValidateTokenPath]) && Table[5].access == HasRole("ADMIN")
    ensures Decide(Table, Post, [UsersPath, ValidateTokenPath], identity) == Permit
  {
    var path := [UsersPath, ValidateTokenPath];
    assert PatternMatches(Table[5].patterns[0], path);
    assert PatternMatches(Table[1].patterns[0], path);
    assert !RuleMatches(Table[0], Post, path) by {
      forall i | 0 <= i < |Table[0].patterns| ensures !PatternMatches(Table[0].patterns[i], path) { }
    }
    FirstMatchDecides(Table, Post, path, identity, 1);
  }

  /** GET /users is permitted with no identity at all. */
  lemma ListIsPublic(identity: Identity)
    ensures Decide(Table, Get, [UsersPath], identity) == Permit
  {
    var path := [UsersPath];
    assert PatternMatches(Table[2].patterns[0], path);
    assert !RuleMatches(Table[0], Get, path) by {
      forall i | 0 <= i < |Table[0].patterns| ensures !PatternMatches(Table[0].patterns[i], path) { }
    }
    FirstMatchDecides(Table, Get, path, identity, 2);
  }

  /** The first segments rule 0 (OpenAPI / Swagger UI) starts with. */
  const DocsFirstSegments: set<string> :=
    {"swagger-ui", "swagger-ui.html", "swagger-ui-custom.html", "api-docs", "v3", "webjars"}

  /** A path starting elsewhere escapes rule 0. */
  lemma OutsideDocsRule(verb: HttpMethod, path: Path)
    requires path == [] || path[0] !in DocsFirstSegments
    ensures !RuleMatches(Table[0], verb, path)
  {
    forall i | 0 <= i < |Table[0].patterns| ensures !PatternMatches(Table[0].patterns[i], path) {
      assert Table[0].patterns[i][0].Lit? && Table[0].patterns[i][0].text in DocsFirstSegments;
    }
  }

  /** GET /users/{id}, for exactly one non-empty segment after "users", is
      permitted iff the caller holds ROLE_USER or ROLE_ADMIN. */
  lemma ShowNeedsUserOrAdmin(id: string, identity: Identity)
    requires id != ""
    ensures Decide(Table, Get, [UsersPath, id], identity) == Permit
            <==> identity.Some? && ("ROLE_USER" in identity.value || "ROLE_ADMIN" in identity.value)
  {
    var path := [UsersPath, id];
    OutsideDocsRule(Get, path);
    assert !PatternMatches(Table[2].patterns[0], path) by {
      assert path[1..] == [id];
    }
    assert PatternMatches(Table[3].patterns[0], path) by {
      assert path[1..] == [id] && path[1..][1..] == [];
    }
    FirstMatchDecides(Table, Get, path, identity, 3);
    assert RolePrefix + "USER" == "ROLE_USER" && RolePrefix + "ADMIN" == "ROLE_ADMIN";
    var roles := Table[3].access.roles;
    assert identity.Some? && "ROLE_USER" in identity.value ==> RolePrefix + roles[0] in identity.value;
    assert identity.Some? && "ROLE_ADMIN" in identity.value ==> RolePrefix + roles[1] in identity.value;
  }

  /** GET /users/validate-token is not public: "validate-token" is just one
      more {id}, so ROLE_USER or ROLE_ADMIN is needed. */
  lemma GetValidateTokenIsShow(identity: Identity)
    ensures Decide(Table, Get, [UsersPath, ValidateTokenPath], identity) == Permit
            <==> identity.Some? && ("ROLE_USER" in identity.value || "ROLE_ADMIN" in identity.value)
  {
    ShowNeedsUserOrAdmin(ValidateTokenPath, identity);
  }

  /** A literal or variable segment alone matches exactly one path segment. */
  lemma SingleSegment(segment: PatternSegment, rest: Path)
    requires !segment.Rest?
    ensures PatternMatches([segment], rest) <==>
      |rest| == 1 && (if segment.Lit? then rest[0] == segment.text else rest[0] != "")
  {
    assert [segment][1..] == [];
    if rest != [] {
      assert rest[1..] == [] <==> |rest| == 1;
    }
  }

  /** A pattern that starts with "users" matches "/users" followed by
      `rest` iff its tail matches `rest`. */
  lemma UnderUsers(tail: Pattern, rest: Path)
    ensures PatternMatches([Lit(UsersPath)] + tail, [UsersPath] + rest) <==> PatternMatches(tail, rest)
  {
    assert ([Lit(UsersPath)] + tail)[1..] == tail;
    assert ([UsersPath] + rest)[1..] == rest;
  }

  /** Every other request to "/users" or below it needs ROLE_ADMIN: POST,
      PUT and DELETE on "/users/{id}", POST on "/users" and "/users/", and
      every method but GET and POST on "/users/validate-token" (GET there is
      taken by the "/users/{id}" rule, see GetValidateTokenIsShow). */
  lemma UsersSubtreeNeedsAdmin(verb: HttpMethod, rest: Path, identity: Identity)
    requires !(verb == Get && (rest == [] || (|rest| == 1 && rest[0] != "")))
    requires !(verb == Post && rest == [ValidateTokenPath])
    ensures Decide(Table, verb, [UsersPath] + rest, identity) == Permit
            <==> identity.Some? && "ROLE_ADMIN" in identity.value
  {
    var path := [UsersPath] + rest;
    UsersSubtreeRules(verb, rest);
    assert RolePrefix + "ADMIN" == "ROLE_ADMIN";
    if verb == Post && rest == [""] {
      FirstMatchDecides(Table, verb, path, identity, 4);
    } else {
      FirstMatchDecides(Table, verb, path, identity, 5);
    }
  }

  /** Which rules match such a request under "/users": rules 0 to 3 never;
      rule 4 for POST "/users/" only; rule 5 always. */
  lemma UsersSubtreeRules(verb: HttpMethod, rest: Path)
    requires !(verb == Get && (rest == [] || (|rest| == 1 && rest[0] != "")))
    requires !(verb == Post && rest == [ValidateTokenPath])
    ensures forall j :: 0 <= j < 4 ==> !RuleMatches(Table[j], verb, [UsersPath] + rest)
    ensures RuleMatches(Table[4], verb, [UsersPath] + rest) <==> verb == Post && rest == [""]
    ensures RuleMatches(Table[5], verb, [UsersPath] + rest)
    ensures Table[4].access == Table[5].access == HasRole("ADMIN")
  {
    var path := [UsersPath] + rest;
    OutsideDocsRule(verb, path);
    UnderUsers([Lit(ValidateTokenPath)], rest);
    SingleSegment(Lit(ValidateTokenPath), rest);
    assert Table[1].patterns[0] == [Lit(UsersPath)] + [Lit(ValidateTokenPath)];
    UnderUsers([], rest);
    assert Table[2].patterns[0] == [Lit(UsersPath)] + [];
    UnderUsers([Var], rest);
    SingleSegment(Var, rest);
    assert Table[3].patterns[0] == [Lit(UsersPath)] + [Var];
    UnderUsers([Lit("")], rest);
    SingleSegment(Lit(""), rest);
    assert Table[4].patterns[0] == [Lit(UsersPath)] + [Lit("")];
    UnderUsers([Rest], rest);
    assert Table[5].patterns[0] == [Lit(UsersPath)] + [Rest];
  }

  /** Roles are flat: a caller holding only ROLE_USER may read one user but
      may write nothing under "/users". */
  lemma UserRoleIsFlat(id: string, verb: HttpMethod, rest: Path)
    requires id != ""
    requires verb == Post || verb == Put || verb == Delete
    requires !(verb == Post && rest == [ValidateTokenPath])
    ensures Decide(Table, Get, [UsersPath, id], Some({"ROLE_USER"})) == Permit
    ensures Decide(Table, verb, [UsersPath] + rest, Some({"ROLE_USER"})) == Deny
  {
    ShowNeedsUserOrAdmin(id, Some({"ROLE_USER"}));
    UsersSubtreeNeedsAdmin(verb, rest, Some({"ROLE_USER"}));
  }

  /** The API documentation, Swagger UI, webjars and H2 console paths. */
  predicate PublicResourcePath(path: Path) {
    || (|path| >= 1 && path[0] in {"swagger-ui", "api-docs", "webjars", "h2-console"})
    || path == ["swagger-ui.html"]
    || path == ["swagger-ui-custom.html"]
    || (|path| >= 2 && path[0] == "v3" && path[1] == "api-docs")
  }

  /** Those paths are permitted for any method and any, or no, identity. */
  lemma PublicResourcesArePermitted(verb: HttpMethod, path: Path, identity: Identity)
    requires PublicResourcePath(path)
    ensures Decide(Table, verb, path, identity) == Permit
  {
    if path[0] == "h2-console" {
      OutsideDocsRule(verb, path);
      assert PatternMatches(Table[6].patterns[0], path);
      FirstMatchDecides(Table, verb, path, identity, 6);
    } else {
      var i :| 0 <= i < |Table[0].patterns| && PatternMatches(Table[0].patterns[i], path) by {
        if path[0] == "swagger-ui" { assert PatternMatches(Table[0].patterns[0], path); }
        else if path == ["swagger-ui.html"] { assert PatternMatches(Table[0].patterns[1], path); }
        else if path == ["swagger-ui-custom.html"] { assert PatternMatches(Table[0].patterns[2], path); }
        else if path[0] == "api-docs" { assert PatternMatches(Table[0].patterns[3], path); }
        else if path[0] == "v3" { assert PatternMatches(Table[0].patterns[4], path); }
        else { assert PatternMatches(Table[0].patterns[5], path); }
      }
      FirstMatchDecides(Table, verb, path, identity, 0);
    }
  }

  /** A request no earlier rule matches reaches anyRequest().authenticated():
      permitted iff an identity is present, whatever its authorities. */
  lemma FallThroughNeedsIdentity(verb: HttpMethod, path: Path, identity: Identity)
    requires forall j :: 0 <= j < |Table| - 1 ==> !RuleMatches(Table[j], verb, path)
    ensures Decide(Table, verb, path, identity) == Permit <==> identity.Some?
  {
    assert PatternMatches(Table[7].patterns[0], path);
    FirstMatchDecides(Table, verb, path, identity, 7);
  }

  /** What the documentation rule matches is a public resource path. */
  lemma DocsRuleCoversOnlyPublicResources(verb: HttpMethod, path: Path)
    ensures RuleMatches(Table[0], verb, path) ==> PublicResourcePath(path)
  {
    forall i | 0 <= i < |Table[0].patterns| && PatternMatches(Table[0].patterns[i], path)
      ensures PublicResourcePath(path)
    {
      if i == 1 || i == 2 {
        assert path[1..] == [];
      }
    }
  }

  /** Every path outside "/users" and the public resources falls through to
      the last rule. */
  lemma OtherPathsNeedIdentity(verb: HttpMethod, path: Path, identity: Identity)
    requires !PublicResourcePath(path)
    requires path == [] || path[0] != UsersPath
    ensures Decide(Table, verb, path, identity) == Permit <==> identity.Some?
  {
    DocsRuleCoversOnlyPublicResources(verb, path);
    FallThroughNeedsIdentity(verb, path, identity);
  }
}
