/** The authorization endpoint's checks, in their order, and what an accepted request is good for. */
module Authorize {
  import opened Wrappers
  import opened Pkce

  const MAX_STATE := 2048

  const CODE: Bytes := [0x63, 0x6F, 0x64, 0x65]

  const S256: Bytes := [0x53, 0x32, 0x35, 0x36]

  datatype Request = Request(
    responseType: Bytes, clientId: Bytes, redirectUri: Bytes, codeChallenge: Bytes, codeChallengeMethod: Bytes,
    scope: Option<Bytes>, state: Option<Bytes>, resource: Option<Bytes>)

  datatype Validated = Validated(
    clientId: Bytes, redirectUri: Bytes, codeChallenge: Bytes, scope: Bytes,
    state: Option<Bytes>, resource: Option<Bytes>)

  datatype Code = UnsupportedResponseType | InvalidRequest | InvalidTarget | InvalidScope

  /** An untrusted redirect target gets an error page; a trusted one gets the error. */
  datatype AuthorizeError = InvalidRedirectUri | Redirect(code: Code)

  /** The server's own settings: the allowlist, the scope rules, and the resource it binds. */
  datatype Server = Server(allowed: Bytes -> bool, granted: Option<Bytes> -> Option<Bytes>, resource: Option<Bytes>)

  function Validate(req: Request, clientUris: seq<Bytes>, server: Server): Result<Validated, AuthorizeError> {
    if req.redirectUri !in clientUris || !server.allowed(req.redirectUri) then Err(InvalidRedirectUri)
    else if req.responseType != CODE then Err(Redirect(UnsupportedResponseType))
    else if req.codeChallengeMethod != S256 then Err(Redirect(InvalidRequest))
    else if !ValidChallenge(req.codeChallenge) then Err(Redirect(InvalidRequest))
    else if req.state.Some? && |req.state.value| > MAX_STATE then Err(Redirect(InvalidRequest))
    else if server.resource.Some? && req.resource.Some? && req.resource != server.resource then
      Err(Redirect(InvalidTarget))
    else
      match server.granted(req.scope)
      case None => Err(Redirect(InvalidScope))
      case Some(scope) =>
        Ok(Validated(req.clientId, req.redirectUri, req.codeChallenge, scope, req.state, server.resource))
  }

  /** `code` and `S256`, a state of at most 2048 bytes, the server's own resource or none, and a scope it grants. */
  ghost predicate WellFormed(req: Request, server: Server) {
    && req.responseType == [0x63, 0x6F, 0x64, 0x65] && req.codeChallengeMethod == [0x53, 0x32, 0x35, 0x36]
    && (req.state.Some? ==> |req.state.value| <= 2048)
    && (server.resource.None? || req.resource.None? || req.resource == server.resource)
    && server.granted(req.scope).Some?
  }

  /** A request is accepted exactly when its target is trusted, its parameters are well-formed, and its
      challenge is 43 characters that spell a digest. What is kept is then the request's own, but for the scope
      granted and the resource bound. */
  lemma AcceptedExactly(req: Request, clientUris: seq<Bytes>, server: Server)
    ensures Validate(req, clientUris, server).Ok? <==>
      && req.redirectUri in clientUris && server.allowed(req.redirectUri)
      && WellFormed(req, server)
      && exists d: Digest :: Encode(d) == req.codeChallenge
    ensures Validate(req, clientUris, server).Ok? ==>
      var v := Validate(req, clientUris, server).value;
      && v.clientId == req.clientId && v.redirectUri == req.redirectUri && v.codeChallenge == req.codeChallenge
      && v.state == req.state && v.resource == server.resource && server.granted(req.scope) == Some(v.scope)
      && exists d: Digest :: Decode(v.codeChallenge) == d && Encode(d) == v.codeChallenge && Names(v.codeChallenge, d)
  {
    ChallengeExact(req.codeChallenge);
    if ValidChallenge(req.codeChallenge) { var d := NamedDigest(req.codeChallenge); }
  }

  lemma NamedDigest(challenge: Bytes) returns (d: Digest)
    requires ValidChallenge(challenge)
    ensures Decode(challenge) == d && Encode(d) == challenge && Names(challenge, d)
  {
    d := DigestOf(challenge);
    DecodeEncode(d);
    NamesExactly(challenge, d);
  }

  /** An untrusted target gets no redirect at all; a trusted one gets the error of the first check that fails. */
  lemma RefusedExactly(req: Request, clientUris: seq<Bytes>, server: Server)
    ensures var r := Validate(req, clientUris, server);
      var trusted := req.redirectUri in clientUris && server.allowed(req.redirectUri);
      var code := req.responseType == [0x63, 0x6F, 0x64, 0x65];
      var proper := req.codeChallengeMethod == [0x53, 0x32, 0x35, 0x36] &&
        (exists d: Digest :: Encode(d) == req.codeChallenge) && (req.state.Some? ==> |req.state.value| <= 2048);
      var bound := server.resource.None? || req.resource.None? || req.resource == server.resource;
      && (r == Err(InvalidRedirectUri) <==> !trusted)
      && (r == Err(Redirect(UnsupportedResponseType)) <==> trusted && !code)
      && (r == Err(Redirect(InvalidRequest)) <==> trusted && code && !proper)
      && (r == Err(Redirect(InvalidTarget)) <==> trusted && code && proper && !bound)
      && (r == Err(Redirect(InvalidScope)) <==>
            trusted && code && proper && bound && server.granted(req.scope).None?)
  {
    ChallengeExact(req.codeChallenge);
  }

  /** From the accepted request to the token endpoint: a client that made its challenge from a verifier
      is not refused for it, and the kept challenge lets in exactly the verifiers with that digest. */
  lemma AcceptedBinds(req: Request, clientUris: seq<Bytes>, server: Server, verifier: Bytes, other: Bytes,
                      sha256: Bytes -> Digest)
    requires req.redirectUri in clientUris && server.allowed(req.redirectUri) && WellFormed(req, server)
    requires req.codeChallenge == Challenge(verifier, sha256)
    ensures var v := Validate(req, clientUris, server);
      v.Ok? && (v.value.codeChallenge == Challenge(other, sha256) <==> sha256(other) == sha256(verifier))
  {
    ChallengeBinds(verifier, other, sha256);
  }
}
