/** TokenValidator: the request interceptor's decisions. The bearer header is parsed, the
    token's claims are checked (the signature check and expiry are an input), the token
    is renewed once it is old enough, and the handler's required roles are enforced. */
module TokenValidator {
  import opened Common
  import opened Decimal

  /** The roles the validator knows: UserRole.valueOf accepts exactly these names. */
  datatype Role = User | Admin

  function RoleOf(name: string): (r: Option<Role>)
    ensures r == Some(User) <==> name == "USER"
    ensures r == Some(Admin) <==> name == "ADMIN"
  {
    if name == "USER" then Some(User) else if name == "ADMIN" then Some(Admin) else None
  }

  // ---------------------------------------------------------------------------------
  // The Authorization header

  /** String.trim strips every character up to U+0020 from both ends. */
  predicate TrimmedAway(c: char) {
    c <= ' '
  }

  function TrimStart(s: string): (r: string)
    ensures |r| <= |s| && r == s[|s| - |r|..]
    ensures |r| > 0 ==> !TrimmedAway(r[0])
    ensures forall i :: 0 <= i < |s| - |r| ==> TrimmedAway(s[i])
  {
    if |s| > 0 && TrimmedAway(s[0]) then TrimStart(s[1..]) else s
  }

  function TrimEnd(s: string): (r: string)
    ensures |r| <= |s| && r == s[..|r|]
    ensures |r| > 0 ==> !TrimmedAway(r[|r| - 1])
    ensures forall i :: |r| <= i < |s| ==> TrimmedAway(s[i])
  {
    if |s| > 0 && TrimmedAway(s[|s| - 1]) then TrimEnd(s[..|s| - 1]) else s
  }

  function Trim(s: string): string {
    TrimEnd(TrimStart(s))
  }

  /** A string with nothing for trim to remove is its own trim. */
  lemma TrimKeeps(s: string)
    requires |s| > 0 ==> !TrimmedAway(s[0]) && !TrimmedAway(s[|s| - 1])
    ensures Trim(s) == s
  {
  }

  /** Trimming leaves a slice of the input with no strippable character at either end. */
  lemma TrimIsSlice(s: string)
    ensures var t := Trim(s);
      && (|t| > 0 ==> !TrimmedAway(t[0]) && !TrimmedAway(t[|t| - 1]))
      && exists a, b :: 0 <= a <= b <= |s| && t == s[a..b]
                        && (forall i :: 0 <= i < a ==> TrimmedAway(s[i]))
                        && (forall i :: b <= i < |s| ==> TrimmedAway(s[i]))
  {
    var t := Trim(s);
    var a, b := TrimBounds(s);
    assert 0 <= a <= b <= |s| && t == s[a..b]
           && (forall i :: 0 <= i < a ==> TrimmedAway(s[i]))
           && (forall i :: b <= i < |s| ==> TrimmedAway(s[i]));
  }

  /** Where the trimmed text starts and ends in the input. */
  lemma TrimBounds(s: string) returns (a: int, b: int)
    ensures 0 <= a <= b <= |s| && Trim(s) == s[a..b]
    ensures forall i :: 0 <= i < a ==> TrimmedAway(s[i])
    ensures forall i :: b <= i < |s| ==> TrimmedAway(s[i])
    ensures var t := Trim(s); |t| > 0 ==> !TrimmedAway(t[0]) && !TrimmedAway(t[|t| - 1])
  {
    var u := TrimStart(s);
    var t := TrimEnd(u);
    a := |s| - |u|;
    b := a + |t|;
    SliceOfSuffix(s, u, t, a);
    if |t| > 0 {
      assert t[0] == u[0];
    }
  }

  /** A prefix t of the suffix u of s starting at a is the slice of s from a, and what
      follows t in u follows it in s. */
  lemma SliceOfSuffix(s: string, u: string, t: string, a: int)
    requires 0 <= a <= |s| && u == s[a..] && |t| <= |u| && t == u[..|t|]
    requires forall j :: |t| <= j < |u| ==> TrimmedAway(u[j])
    ensures t == s[a..a + |t|]
    ensures forall i :: a + |t| <= i < |s| ==> TrimmedAway(s[i])
  {
    forall i | a + |t| <= i < |s|
      ensures TrimmedAway(s[i])
    {
      assert s[i] == u[i - a];
    }
  }

  const BearerPrefix: string := "Bearer "

  predicate HasSpace(s: string) {
    exists i :: 0 <= i < |s| && s[i] == ' '
  }

  /** The header checks of preHandle: a missing header or one that trims to nothing, a
      header without the "Bearer " prefix, and a token that trims to nothing or holds a
      space are all TOKEN_INVALID; otherwise the trimmed token. */
  function ParseAuthorization(header: Option<string>): (r: Result<string>)
    ensures r.Err? ==> r.code == TokenInvalid
    ensures r.Ok? ==> r.value != [] && !HasSpace(r.value)
    ensures r.Ok? ==> header.Some? && |header.value| >= |BearerPrefix| && header.value[..|BearerPrefix|] == BearerPrefix
  {
    if header.None? || Trim(header.value) == [] then Err(TokenInvalid)
    else if !(|header.value| >= |BearerPrefix| && header.value[..|BearerPrefix|] == BearerPrefix) then Err(TokenInvalid)
    else
      var token := Trim(header.value[|BearerPrefix|..]);
      if token == [] || HasSpace(token) then Err(TokenInvalid) else Ok(token)
  }

  /** Every well-formed token survives the round trip through the header: a non-empty
      token without spaces or other strippable characters, sent as "Bearer " + token,
      is read back unchanged. */
  lemma AuthorizationRoundTrip(token: string)
    requires token != []
    requires forall i :: 0 <= i < |token| ==> !TrimmedAway(token[i])
    ensures ParseAuthorization(Some(BearerPrefix + token)) == Ok(token)
  {
    var h := BearerPrefix + token;
    assert h[..|BearerPrefix|] == BearerPrefix;
    assert h[|BearerPrefix|..] == token;
    TrimKeeps(token);
    assert !TrimmedAway(h[0]) && !TrimmedAway(h[|h| - 1]);
    TrimKeeps(h);
    assert !HasSpace(token) by {
      forall i | 0 <= i < |token|
        ensures token[i] != ' '
      {
        assert !TrimmedAway(token[i]);
      }
    }
  }

  predicate StartsWithBearer(h: string) {
    |h| >= |BearerPrefix| && h[..|BearerPrefix|] == BearerPrefix
  }

  /** The verdict on every header: a missing or blank header and one with another
      scheme are refused; after the "Bearer " prefix the rest, trimmed, is the token,
      refused when empty or when it holds a space (two tokens). The blank test never
      decides a header that carries the prefix, since its 'B' is not trimmed. */
  lemma AuthorizationVerdict(header: Option<string>)
    ensures header.None? ==> ParseAuthorization(header) == Err(TokenInvalid)
    ensures header.Some? && Trim(header.value) == [] ==> ParseAuthorization(header) == Err(TokenInvalid)
    ensures header.Some? && !StartsWithBearer(header.value) ==> ParseAuthorization(header) == Err(TokenInvalid)
    ensures header.Some? && StartsWithBearer(header.value) ==>
      var token := Trim(header.value[|BearerPrefix|..]);
      ParseAuthorization(header) == if token == [] || HasSpace(token) then Err(TokenInvalid) else Ok(token)
  {
    if header.Some? && StartsWithBearer(header.value) {
      assert header.value[0] == 'B';
      NotBlank(header.value);
    }
  }

  /** A header that starts with a visible character does not trim to nothing. */
  lemma NotBlank(h: string)
    requires |h| > 0 && !TrimmedAway(h[0])
    ensures Trim(h) != []
  {
  }

  // ---------------------------------------------------------------------------------
  // parseToken

  /** What the signature check and decoding yield: an expired token, any other failure,
      or the claims, each of which may be absent. */
  datatype Decoded = Expired | Rejected | Claims(userId: Option<string>, role: Option<string>, issuedAt: Option<int>)

  /** The identity parseToken stores: the user id as text, the role and the issue time. */
  datatype Principal = Principal(userId: string, role: Role, issuedAt: int)

  /** parseToken on a decoded token: missing user id or issue time is TOKEN_INVALID, a
      missing or blank role becomes USER, and a role name UserRole does not know is
      TOKEN_INVALID. The failures of the signature check are passed through. */
  function ParseToken(d: Decoded): Result<Principal> {
    match d {
      case Expired => Err(TokenExpired)
      case Rejected => Err(TokenInvalid)
      case Claims(userId, role, issuedAt) =>
        if userId.None? || issuedAt.None? then Err(TokenInvalid)
        else
          var name := if role.None? || IsBlank(role.value) then "USER" else role.value;
          match RoleOf(name) {
            case None => Err(TokenInvalid)
            case Some(r) => Ok(Principal(userId.value, r, issuedAt.value))
          }
    }
  }

  /** The claims that make a principal, and its role: USER when the role claim is missing
      or blank, the named role otherwise. */
  lemma ParseTokenCases(d: Decoded)
    ensures var p := ParseToken(d);
      && (p.Ok? <==> d.Claims? && d.userId.Some? && d.issuedAt.Some?
                     && (d.role.None? || IsBlank(d.role.value) || RoleOf(d.role.value).Some?))
      && (p.Err? ==> p.code == (if d.Expired? then TokenExpired else TokenInvalid))
      && (p.Ok? ==> p.value.userId == d.userId.value && p.value.issuedAt == d.issuedAt.value
                    && (d.role.None? || IsBlank(d.role.value) ==> p.value.role == User)
                    && (d.role.Some? && !IsBlank(d.role.value) ==> Some(p.value.role) == RoleOf(d.role.value)))
  {
    if d.Claims? && d.role.Some? && !IsBlank(d.role.value) {
      assert !IsBlank("USER") by {
        assert !JavaWhitespace("USER"[0]);
      }
    }
  }

  // ---------------------------------------------------------------------------------
  // Roles

  /** hasRole: a role satisfies itself, and ADMIN also satisfies USER. */
  predicate HasRole(current: Role, required: Role) {
    current == required || (current == Admin && required == User)
  }

  /** The role order: reflexive, antisymmetric and transitive, with ADMIN on top and USER
      never satisfying ADMIN. */
  lemma RoleOrder()
    ensures forall a :: HasRole(a, a) && HasRole(Admin, a)
    ensures forall a, b :: HasRole(a, b) && HasRole(b, a) ==> a == b
    ensures forall a, b, c :: HasRole(a, b) && HasRole(b, c) ==> HasRole(a, c)
    ensures !HasRole(User, Admin)
  {
  }

  /** getRequiredRoles: the method's annotation if it has one, else the class's, else no
      restriction. */
  function RequiredRoles(methodRoles: Option<seq<Role>>, classRoles: Option<seq<Role>>): (r: seq<Role>)
    ensures methodRoles.Some? ==> r == methodRoles.value
    ensures methodRoles.None? && classRoles.Some? ==> r == classRoles.value
    ensures methodRoles.None? && classRoles.None? ==> r == []
  {
    match methodRoles {
      case Some(roles) => roles
      case None => if classRoles.Some? then classRoles.value else []
    }
  }

  predicate Permitted(current: Role, required: seq<Role>) {
    |required| == 0 || exists i :: 0 <= i < |required| && HasRole(current, required[i])
  }

  // ---------------------------------------------------------------------------------
  // preHandle

  /** What preHandle decides: the request's principal (None for a handler that is not a
      controller method, which passes unchecked) and whether a renewed token was written
      to the response. */
  datatype Verdict = Verdict(result: Result<Option<Principal>>, renewed: bool)

  /** preHandle: header, then token, then the numeric user id (a non-numeric one throws),
      then renewal once the token's age reaches youngToken (before the role check, so a
      forbidden request may still carry a renewed token), then the required roles. */
  function PreHandle(isHandlerMethod: bool, header: Option<string>, decode: string -> Decoded, now: int, youngToken: int,
                     methodRoles: Option<seq<Role>>, classRoles: Option<seq<Role>>): Verdict
  {
    if !isHandlerMethod then Verdict(Ok(None), false)
    else match ParseAuthorization(header) {
      case Err(code) => Verdict(Err(code), false)
      case Ok(token) =>
        match ParseToken(decode(token)) {
          case Err(code) => Verdict(Err(code), false)
          case Ok(p) =>
            if ParseInt(p.userId).None? then Verdict(Err(Unexpected), false)
            else
              var renewed := now - p.issuedAt >= youngToken;
              if !Permitted(p.role, RequiredRoles(methodRoles, classRoles)) then Verdict(Err(Forbidden), renewed)
              else Verdict(Ok(Some(p)), renewed)
        }
    }
  }

  /** A controller method is reached exactly with a well-formed bearer header, a valid
      token with a numeric user id, and a role satisfying one of the required roles (or
      none required); the token is renewed exactly when it is at least youngToken old.
      A valid token whose role satisfies none of the required roles is FORBIDDEN. */
  lemma PreHandleDecides(isHandlerMethod: bool, header: Option<string>, decode: string -> Decoded, now: int, youngToken: int,
                         methodRoles: Option<seq<Role>>, classRoles: Option<seq<Role>>)
    requires isHandlerMethod
    ensures var v := PreHandle(isHandlerMethod, header, decode, now, youngToken, methodRoles, classRoles);
      && (v.result.Ok? <==>
            && ParseAuthorization(header).Ok?
            && ParseToken(decode(ParseAuthorization(header).value)).Ok?
            && var p := ParseToken(decode(ParseAuthorization(header).value)).value;
               ParseInt(p.userId).Some? && Permitted(p.role, RequiredRoles(methodRoles, classRoles)))
      && (v.result.Ok? ==> v.result.value == Some(ParseToken(decode(ParseAuthorization(header).value)).value))
      && (v.result == Err(Forbidden) <==>
            && ParseAuthorization(header).Ok?
            && ParseToken(decode(ParseAuthorization(header).value)).Ok?
            && var p := ParseToken(decode(ParseAuthorization(header).value)).value;
               ParseInt(p.userId).Some? && !Permitted(p.role, RequiredRoles(methodRoles, classRoles)))
      && (v.renewed <==>
            && ParseAuthorization(header).Ok?
            && ParseToken(decode(ParseAuthorization(header).value)).Ok?
            && var p := ParseToken(decode(ParseAuthorization(header).value)).value;
               ParseInt(p.userId).Some? && now - p.issuedAt >= youngToken)
  {
    var a := ParseAuthorization(header);
    if a.Ok? {
      var t := ParseToken(decode(a.value));
      if t.Err? {
        ParseTokenCases(decode(a.value));
      }
    }
  }

  /** An ADMIN passes every check a USER passes, and a USER is refused where only ADMIN
      is required. */
  lemma AdminSupersedesUser(required: seq<Role>)
    ensures Permitted(User, required) ==> Permitted(Admin, required)
    ensures (forall i :: 0 <= i < |required| ==> required[i] == Admin) && |required| > 0 ==> !Permitted(User, required)
  {
    if Permitted(User, required) && |required| > 0 {
      var i :| 0 <= i < |required| && HasRole(User, required[i]);
      assert HasRole(Admin, required[i]);
    }
  }
}
