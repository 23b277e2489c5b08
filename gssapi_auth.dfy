/** GSSAPI user authentication ("gssapi-with-mic", RFC 4462) as libssh's
    gssapi.c drives it. On the server, ssh_gssapi_handle_userauth picks a
    mechanism and moves the GSSAPI state to RCV_TOKEN, the token handler
    moves it to RCV_MIC once the context is complete, and the MIC handler
    checks the MIC. On the client, ssh_gssapi_auth_mic sends the request
    (GSSAPI_REQUEST_SENT), the response handler decodes the chosen OID and
    sends the first token (GSSAPI_TOKEN), and the token handler sends the
    MIC once the context is complete (GSSAPI_MIC_SENT).

    The GSSAPI library and the server callbacks are inputs: their results,
    or functions of the token they are handed. Sending a packet appends a
    message to `sent`; ssh_set_error records its error class in `error`. */
module GssapiAuth {
  import opened Bytes
  import opened Wire
  import opened GssapiOid

  const SSH_OK: int := 0
  const SSH_ERROR: int := -1
  const SSH_AUTH_ERROR: int := -1
  const SSH_AUTH_DENIED: int := 1
  const SSH_AUTH_AGAIN: int := 4

  /** SSH_MSG_USERAUTH_REQUEST (section 4.1 of RFC 4250). */
  const SSH2_MSG_USERAUTH_REQUEST: byte := 50
  const SSH_CONNECTION: seq<byte> := CharsToBytes("ssh-connection")
  const GSSAPI_WITH_MIC: seq<byte> := CharsToBytes("gssapi-with-mic")

  type Blob = s: seq<byte> | |s| < STRING_LIMIT

  /** session->gssapi->state. */
  datatype GssState = StateNone | RcvToken | RcvMic

  /** session->auth.state, as far as this code sets or tests it; AuthOther
      stands for every state set elsewhere. */
  datatype AuthState = AuthOther | GssapiRequestSent | GssapiToken | GssapiMicSent | AuthError

  /** The fields of ssh_gssapi_struct the core reads and writes. The GSSAPI
      security context and client credentials are library handles and are
      not modelled; serverCreds records whether server credentials were
      acquired. */
  datatype GssContext = GssContext(state: GssState, user: Option<Blob>, mech: seq<byte>,
                                   clientOid: Option<seq<byte>>, serverCreds: bool)

  /** What ssh_gssapi_init allocates: state NONE, no user, no mechanism, no
      chosen OID, no credentials. */
  const FRESH: GssContext := GssContext(StateNone, None, [], None, false)

  /** The packets a handler sends, in order. */
  datatype Msg =
    | GssapiResponse(oid: seq<byte>)
    | GssapiTokenMsg(token: seq<byte>)
    | GssapiMicMsg(mic: seq<byte>)
    | AuthRequest(user: Blob, oids: seq<seq<byte>>)
    | ReplyDefault
    | ReplySuccess(partial: bool)

  /** The error class of the last ssh_set_error. */
  datatype ErrorKind = NoError | Fatal | RequestDenied

  /** The session as these handlers see it; session->gssapi may be NULL. */
  datatype SessionState = SessionState(gssapi: Option<GssContext>, auth: AuthState, sent: seq<Msg>,
                                       error: ErrorKind)

  function Send(s: SessionState, m: Msg): SessionState
  {
    s.(sent := s.sent + [m])
  }

  // ---------------------------------------------------------------------
  // Context life cycle

  /** ssh_gssapi_init. */
  function InitSpec(s: SessionState): (r: SessionState)
  {
    if s.gssapi.Some? then s else s.(gssapi := Some(FRESH))
  }

  /** ssh_gssapi_free. */
  function FreeSpec(s: SessionState): (r: SessionState)
  {
    s.(gssapi := None)
  }

  /** Init does nothing when a context exists, otherwise it allocates a fresh
      one; either way nothing but the context changes, and a second init
      changes nothing. Free followed by init always yields a fresh context. */
  lemma InitProperties(s: SessionState)
    ensures s.gssapi.Some? ==> InitSpec(s) == s
    ensures s.gssapi.None? ==> InitSpec(s).gssapi == Some(FRESH)
    ensures InitSpec(s).auth == s.auth && InitSpec(s).sent == s.sent && InitSpec(s).error == s.error
    ensures InitSpec(InitSpec(s)) == InitSpec(s)
    ensures InitSpec(FreeSpec(s)) == s.(gssapi := Some(FRESH))
  {
  }

  // ---------------------------------------------------------------------
  // MIC input (section 3.5 of RFC 4462)

  /** What ssh_gssapi_build_mic packs: the session identifier as a string,
      the SSH_MSG_USERAUTH_REQUEST byte, the user, the service and the
      method name. */
  function MicData(sessionId: Blob, user: Blob): seq<byte>
  {
    SshString(sessionId) + [SSH2_MSG_USERAUTH_REQUEST] + SshString(user)
    + SshString(SSH_CONNECTION) + SshString(GSSAPI_WITH_MIC)
  }

  /** ssh_gssapi_build_mic: no current crypto (no session identifier) fails;
      a user that was never set fails too (the source would pass NULL to the
      packer). */
  function MicInput(sessionId: Option<Blob>, user: Option<Blob>): (r: Option<seq<byte>>)
    ensures r.Some? <==> sessionId.Some? && user.Some?
    ensures r.Some? ==> r.value == MicData(sessionId.value, user.value)
  {
    if sessionId.None? || user.None? then None else Some(MicData(sessionId.value, user.value))
  }

  /** Reads a MIC input back into its five fields. */
  function ParseMic(data: seq<byte>): Option<(seq<byte>, byte, seq<byte>, seq<byte>, seq<byte>)>
  {
    match GetString(data)
    case None => None
    case Some((sid, r1)) =>
      if r1 == [] then None
      else
        match GetString(r1[1..])
        case None => None
        case Some((user, r2)) =>
          match GetString(r2)
          case None => None
          case Some((service, r3)) =>
            match GetString(r3)
            case None => None
            case Some((methodName, r4)) =>
              if r4 != [] then None else Some((sid, r1[0], user, service, methodName))
  }

  /** The MIC input has exactly the layout of section 3.5 of RFC 4462. */
  lemma MicDataLayout(sessionId: Blob, user: Blob)
    ensures ParseMic(MicData(sessionId, user))
            == Some((sessionId, SSH2_MSG_USERAUTH_REQUEST, user, SSH_CONNECTION, GSSAPI_WITH_MIC))
  {
    var tail := SshString(SSH_CONNECTION) + SshString(GSSAPI_WITH_MIC);
    var r1 := [SSH2_MSG_USERAUTH_REQUEST] + (SshString(user) + tail);
    assert MicData(sessionId, user) == SshString(sessionId) + r1;
    GetStringOfSshString(sessionId, r1);
    assert r1[1..] == SshString(user) + tail;
    GetStringOfSshString(user, tail);
    GetStringOfSshString(SSH_CONNECTION, SshString(GSSAPI_WITH_MIC));
    assert SshString(GSSAPI_WITH_MIC) == SshString(GSSAPI_WITH_MIC) + [];
    GetStringOfSshString(GSSAPI_WITH_MIC, []);
  }

  /** A MIC input determines the session identifier and the user, so a MIC
      over it binds both. */
  lemma MicDataInjective(sid1: Blob, user1: Blob, sid2: Blob, user2: Blob)
    ensures MicData(sid1, user1) == MicData(sid2, user2) ==> sid1 == sid2 && user1 == user2
  {
    MicDataLayout(sid1, user1);
    MicDataLayout(sid2, user2);
  }

  /** ssh_gssapi_build_mic, packing into a fresh buffer. */
  method BuildMic(sessionId: Option<Blob>, user: Option<Blob>) returns (r: Option<seq<byte>>)
    ensures r == MicInput(sessionId, user)
  {
    if sessionId.None? || user.None? {
      return None;
    }
    var micBuffer := new Buffer();
    micBuffer.AddSshString(sessionId.value);
    micBuffer.AddU8(SSH2_MSG_USERAUTH_REQUEST);
    micBuffer.AddSshString(user.value);
    micBuffer.AddSshString(SSH_CONNECTION);
    micBuffer.AddSshString(GSSAPI_WITH_MIC);
    assert micBuffer.data == [] + MicData(sessionId.value, user.value);
    assert MicInput(sessionId, user).Some?;
    assert micBuffer.data == MicData(sessionId.value, user.value);
    r := Some(micBuffer.data);
  }

  // ---------------------------------------------------------------------
  // Library and callback results

  datatype Major = Complete | ContinueNeeded | Failure

  /** One step of gss_accept_sec_context or gss_init_sec_context: the major
      status and the output token. */
  datatype GssStep = GssStep(major: Major, output: seq<byte>)

  /** gssapi_select_oid_function: absent, or the OID string it returns (None
      for NULL). */
  datatype SelectHook = NoSelectHook | SelectHook(choice: Option<Blob>)

  /** The server's library during mechanism selection: gss_indicate_mechs
      (None on failure), gss_import_name of the host service, and
      gss_acquire_cred as a function of the desired mechanism set (None on
      failure, else the mechanisms the credential covers). */
  datatype ServerLib = ServerLib(indicate: Option<set<seq<byte>>>, importNameOk: bool,
                                 acquire: set<seq<byte>> -> Option<set<seq<byte>>>)

  /** gssapi_accept_sec_ctx_function: absent, or a function from the input
      token to its return code and output token. */
  datatype AcceptHook = NoAcceptHook | AcceptHook(f: seq<byte> -> (int, seq<byte>))

  datatype AuthVerdict = AuthSuccess | AuthPartial | AuthDenied

  /** auth_gssapi_mic_function: absent, or its verdict. */
  datatype MicHook = NoMicHook | MicHook(verdict: AuthVerdict)

  /** The client's library in ssh_gssapi_auth_mic: gss_import_name of the
      target host, and the mechanisms with usable credentials that
      ssh_gssapi_match finds (None when it fails). */
  datatype ClientLib = ClientLib(importNameOk: bool, matched: Option<seq<seq<byte>>>)

  // ---------------------------------------------------------------------
  // Server side

  /** ssh_gssapi_send_response. */
  function SendResponseSpec(s: SessionState, oid: seq<byte>): SessionState
  {
    Send(s, GssapiResponse(oid)).(auth := GssapiToken)
  }

  /** ssh_gssapi_handle_userauth: returns the code and the new session. */
  function HandleUserauthSpec(s: SessionState, user: Blob, oids: seq<Option<seq<byte>>>, hook: SelectHook,
                              lib: ServerLib): (int, SessionState)
  {
    var s0 := InitSpec(FreeSpec(s));
    match hook
    case SelectHook(choice) =>
      var s1 := s0.(gssapi := Some(FRESH.(state := RcvToken, user := Some(user))));
      if choice.Some? then (SSH_OK, SendResponseSpec(s1, choice.value)) else (SSH_OK, Send(s1, ReplyDefault))
    case NoSelectHook =>
      if lib.indicate.None? then (SSH_ERROR, s0)
      else
        var supported := lib.indicate.value;
        if MatchCount(oids, supported) == 0 then (SSH_OK, Send(s0, ReplyDefault))
        else if !lib.importNameOk then (SSH_ERROR, s0)
        else
          match lib.acquire(MatchSet(oids, supported))
          case None => (SSH_ERROR, Send(s0, ReplyDefault))
          case Some(selected) =>
            FirstSelectedIsFirst(oids, selected, 0);
            match FirstSelected(oids, selected, 0)
            case None => (SSH_ERROR, s0.(gssapi := Some(FRESH.(serverCreds := true))))
            case Some(i) =>
              var ctx := FRESH.(serverCreds := true, mech := FilterOid(oids[i]).value, user := Some(user),
                                state := RcvToken);
              (SSH_OK, SendResponseSpec(s0.(gssapi := Some(ctx)), oids[i].value))
  }

  /** Whether the server token handler proceeds. */
  predicate TokenServerReady(s: SessionState)
  {
    s.gssapi.Some? && s.gssapi.value.state == RcvToken
  }

  function SetGssState(s: SessionState, st: GssState): SessionState
    requires s.gssapi.Some?
  {
    s.(gssapi := Some(s.gssapi.value.(state := st)))
  }

  /** ssh_packet_userauth_gssapi_token_server. */
  function TokenServerSpec(s: SessionState, packet: seq<byte>, hook: AcceptHook,
                           accept: seq<byte> -> GssStep): SessionState
  {
    if !TokenServerReady(s) then s.(error := Fatal)
    else
      match GetString(packet)
      case None => s.(error := RequestDenied)
      case Some((token, _)) =>
        match hook
        case AcceptHook(f) =>
          var (rc, out) := f(token);
          if rc == SSH_ERROR then Send(s, ReplyDefault)
          else
            var s1 := if |out| != 0 then Send(s, GssapiTokenMsg(out)) else s;
            SetGssState(s1, RcvMic)
        case NoAcceptHook =>
          var step := accept(token);
          if step.major.Failure? then Send(s, ReplyDefault)
          else
            var s1 := if |step.output| != 0 then Send(s, GssapiTokenMsg(step.output)) else s;
            if step.major.Complete? then SetGssState(s1, RcvMic) else s1
  }

  function Verdict(v: AuthVerdict): Msg
  {
    match v
    case AuthSuccess => ReplySuccess(false)
    case AuthPartial => ReplySuccess(true)
    case AuthDenied => ReplyDefault
  }

  /** ssh_packet_userauth_gssapi_mic. `verify` is the MIC check (the
      verify-MIC callback or gss_verify_mic) applied to the received token and
      the MIC input; it holds when the MIC is accepted. */
  function MicSpec(s: SessionState, packet: seq<byte>, sessionId: Option<Blob>,
                   verify: (seq<byte>, seq<byte>) -> bool, hook: MicHook): SessionState
  {
    match GetString(packet)
    case None => Send(s.(error := Fatal), ReplyDefault)
    case Some((token, _)) =>
      if s.gssapi.None? || s.gssapi.value.state != RcvMic then Send(s.(error := Fatal), ReplyDefault)
      else
        match MicInput(sessionId, s.gssapi.value.user)
        case None => Send(s.(error := Fatal), ReplyDefault)
        case Some(data) =>
          if !verify(token, data) then Send(s, ReplyDefault)
          else
            match hook
            case NoMicHook => s
            case MicHook(v) => Send(s, Verdict(v))
  }

  // ---------------------------------------------------------------------
  // Client side

  function EncodeOids(selected: seq<seq<byte>>): (r: seq<seq<byte>>)
  {
    seq(|selected|, i requires 0 <= i < |selected| => EncodeOid(selected[i]))
  }

  /** ssh_gssapi_auth_mic: returns the code and the new session. */
  function AuthMicSpec(s: SessionState, username: Blob, lib: ClientLib): (int, SessionState)
  {
    var s0 := InitSpec(FreeSpec(s));
    if !lib.importNameOk then (SSH_AUTH_DENIED, s0)
    else
      var s1 := s0.(gssapi := Some(FRESH.(user := Some(username))));
      if lib.matched.None? then (SSH_AUTH_DENIED, s1)
      else
        var oids := EncodeOids(lib.matched.value);
        (SSH_AUTH_AGAIN, Send(s1, AuthRequest(username, oids)).(auth := GssapiRequestSent))
  }

  function SetClientOid(s: SessionState, oid: Option<seq<byte>>): SessionState
  {
    if s.gssapi.None? then s else s.(gssapi := Some(s.gssapi.value.(clientOid := oid)))
  }

  /** ssh_packet_userauth_gssapi_response. `init` is gss_init_sec_context as
      a function of the chosen mechanism and the input token. */
  function ResponseSpec(s: SessionState, packet: seq<byte>,
                        init: (Option<seq<byte>>, seq<byte>) -> GssStep): SessionState
  {
    if s.auth != GssapiRequestSent then s.(error := Fatal, auth := AuthError)
    else
      match GetString(packet)
      case None => s.(error := Fatal, auth := AuthError)
      case Some((oidString, _)) =>
        var oid := OidFromString(Some(oidString));
        var s1 := SetClientOid(s, oid);
        if oid.None? then s1.(error := Fatal, auth := AuthError)
        else
          var step := init(oid, []);
          if step.major.Failure? then s1.(auth := AuthError)
          else if |step.output| != 0 then Send(s1, GssapiTokenMsg(step.output)).(auth := GssapiToken)
          else s1
  }

  /** ssh_gssapi_send_mic; its failures leave the session as it is, apart
      from the error a missing MIC input records. */
  function SendMicSpec(s: SessionState, sessionId: Option<Blob>,
                       getMic: seq<byte> -> Option<seq<byte>>): SessionState
    requires s.gssapi.Some?
  {
    match MicInput(sessionId, s.gssapi.value.user)
    case None => s.(error := Fatal)
    case Some(data) =>
      match getMic(data)
      case None => s
      case Some(mic) => Send(s, GssapiMicMsg(mic))
  }

  /** Whether the client token handler proceeds. */
  predicate TokenClientReady(s: SessionState)
  {
    s.gssapi.Some? && s.auth == GssapiToken
  }

  /** ssh_packet_userauth_gssapi_token_client. */
  function TokenClientSpec(s: SessionState, packet: seq<byte>, sessionId: Option<Blob>,
                           init: (Option<seq<byte>>, seq<byte>) -> GssStep,
                           getMic: seq<byte> -> Option<seq<byte>>): SessionState
  {
    if !TokenClientReady(s) then s.(error := Fatal, auth := AuthError)
    else
      match GetString(packet)
      case None => s.(error := RequestDenied, auth := AuthError)
      case Some((token, _)) =>
        var step := init(s.gssapi.value.clientOid, token);
        if step.major.Failure? then s.(auth := AuthError)
        else
          var s1 := if |step.output| != 0 then Send(s, GssapiTokenMsg(step.output)) else s;
          if step.major.Complete? then SendMicSpec(s1, sessionId, getMic).(auth := GssapiMicSent) else s1
  }

  // ---------------------------------------------------------------------
  // The server state machine

  /** The token handler moves the context to RCV_MIC exactly when it was in
      RCV_TOKEN, the packet holds a token, and the accept callback did not
      fail or, without one, the library completed the context. Outside
      RCV_TOKEN it only records a fatal error. */
  lemma TokenServerTransitions(s: SessionState, packet: seq<byte>, hook: AcceptHook,
                               accept: seq<byte> -> GssStep)
    ensures !TokenServerReady(s) ==> TokenServerSpec(s, packet, hook, accept) == s.(error := Fatal)
    ensures var r := TokenServerSpec(s, packet, hook, accept);
            (TokenServerReady(s) && r.gssapi.Some? && r.gssapi.value.state == RcvMic)
            <==> (TokenServerReady(s) && GetString(packet).Some?
                  && match hook
                     case AcceptHook(f) => f(GetString(packet).value.0).0 != SSH_ERROR
                     case NoAcceptHook => accept(GetString(packet).value.0).major.Complete?)
    ensures var r := TokenServerSpec(s, packet, hook, accept);
            r.auth == s.auth && r.gssapi.Some? == s.gssapi.Some?
            && (r.gssapi.Some? ==> r.gssapi.value.(state := s.gssapi.value.state) == s.gssapi.value)
  {
  }

  /** Whether the MIC handler accepts the MIC: a token is present, the context
      is in RCV_MIC, the MIC input can be built and the MIC checks out over it. */
  predicate MicAccepted(s: SessionState, packet: seq<byte>, sessionId: Option<Blob>,
                        verify: (seq<byte>, seq<byte>) -> bool)
  {
    && GetString(packet).Some? && s.gssapi.Some? && s.gssapi.value.state == RcvMic
    && MicInput(sessionId, s.gssapi.value.user).Some?
    && verify(GetString(packet).value.0, MicInput(sessionId, s.gssapi.value.user).value)
  }

  /** The MIC handler never changes the context or the auth state. It sends a
      success reply exactly when the MIC over the session identifier and user
      is accepted and the callback grants success, and otherwise sends the
      default reply or, with an accepted MIC and no callback, nothing. */
  lemma MicOutcome(s: SessionState, packet: seq<byte>, sessionId: Option<Blob>,
                   verify: (seq<byte>, seq<byte>) -> bool, hook: MicHook, partial: bool)
    ensures var r := MicSpec(s, packet, sessionId, verify, hook);
            r.gssapi == s.gssapi && r.auth == s.auth
    ensures var r := MicSpec(s, packet, sessionId, verify, hook);
            r.sent == s.sent + [ReplySuccess(partial)]
            <==> (MicAccepted(s, packet, sessionId, verify)
                  && hook == MicHook(if partial then AuthPartial else AuthSuccess))
    ensures var r := MicSpec(s, packet, sessionId, verify, hook);
            !MicAccepted(s, packet, sessionId, verify) ==> r.sent == s.sent + [ReplyDefault]
    ensures var r := MicSpec(s, packet, sessionId, verify, hook);
            MicAccepted(s, packet, sessionId, verify) ==>
              r.sent == if hook.MicHook? then s.sent + [Verdict(hook.verdict)] else s.sent
  {
    var r := MicSpec(s, packet, sessionId, verify, hook);
    if r.sent == s.sent + [ReplySuccess(partial)] {
      assert r.sent[|s.sent|] == ReplySuccess(partial);
    }
  }

  /** The user is set whenever the context is past NONE; the MIC input needs it. */
  ghost predicate UserSetWhileActive(s: SessionState)
  {
    s.gssapi.Some? && s.gssapi.value.state != StateNone ==> s.gssapi.value.user.Some?
  }

  /** Every server handler keeps the user set while the context is active. */
  lemma ServerHandlersKeepUser(s: SessionState, user: Blob, oids: seq<Option<seq<byte>>>, select: SelectHook,
                               lib: ServerLib, packet: seq<byte>, accept: AcceptHook,
                               acceptLib: seq<byte> -> GssStep, sessionId: Option<Blob>,
                               verify: (seq<byte>, seq<byte>) -> bool, mic: MicHook)
    requires UserSetWhileActive(s)
    ensures UserSetWhileActive(HandleUserauthSpec(s, user, oids, select, lib).1)
    ensures UserSetWhileActive(TokenServerSpec(s, packet, accept, acceptLib))
    ensures UserSetWhileActive(MicSpec(s, packet, sessionId, verify, mic))
  {
  }

  /** With no client entry that passes the filter with a supported OID, the
      default selection sends the default reply and returns SSH_OK, leaving a
      fresh context. */
  lemma HandleUserauthNoMatch(s: SessionState, user: Blob, oids: seq<Option<seq<byte>>>, lib: ServerLib)
    requires lib.indicate.Some?
    requires forall i :: 0 <= i < |oids| ==>
               !(FilterOid(oids[i]).Some? && FilterOid(oids[i]).value in lib.indicate.value)
    ensures HandleUserauthSpec(s, user, oids, NoSelectHook, lib)
            == (SSH_OK, Send(s.(gssapi := Some(FRESH)), ReplyDefault))
  {
    var supported := lib.indicate.value;
    MatchCountBounds(oids, supported);
    if MatchSet(oids, supported) != {} {
      var e :| e in MatchSet(oids, supported);
      MatchSetMembers(oids, supported, e);
    }
  }

  /** When the library supports an OID some client entry names and the acquired
      credential covers one, the default selection answers with the first
      client entry the credential covers, records its elements as the
      mechanism, and enters RCV_TOKEN with the user set. */
  lemma HandleUserauthSelects(s: SessionState, user: Blob, oids: seq<Option<seq<byte>>>, lib: ServerLib,
                              k: nat)
    requires lib.indicate.Some? && lib.importNameOk
    requires k < |oids| && FilterOid(oids[k]).Some? && FilterOid(oids[k]).value in lib.indicate.value
    requires var acquired := lib.acquire(MatchSet(oids, lib.indicate.value));
             acquired.Some? && IsSelected(oids, acquired.value, k)
    ensures var (rc, r) := HandleUserauthSpec(s, user, oids, NoSelectHook, lib);
            var acquired := lib.acquire(MatchSet(oids, lib.indicate.value)).value;
            var i := FirstSelected(oids, acquired, 0);
            && rc == SSH_OK && i.Some? && i.value <= k && IsSelected(oids, acquired, i.value)
            && r.gssapi == Some(GssContext(RcvToken, Some(user), FilterOid(oids[i.value]).value, None, true))
            && r.auth == GssapiToken && r.sent == s.sent + [GssapiResponse(oids[i.value].value)]
  {
    var supported := lib.indicate.value;
    MatchSetMembers(oids, supported, FilterOid(oids[k]).value);
    MatchCountBounds(oids, supported);
    FirstSelectedIsFirst(oids, lib.acquire(MatchSet(oids, supported)).value, 0);
  }

  /** A whole server exchange with the default accept path: a select callback
      that picks an OID, a token the library completes the context on, and a
      MIC that checks out with a callback granting success end in a success
      reply, with every intermediate state as the protocol prescribes. */
  lemma ServerHandshake(s: SessionState, user: Blob, oids: seq<Option<seq<byte>>>, chosen: Blob,
                        lib: ServerLib, token: Blob, rest: seq<byte>, accept: seq<byte> -> GssStep,
                        sessionId: Blob, micToken: Blob, rest': seq<byte>,
                        verify: (seq<byte>, seq<byte>) -> bool)
    requires accept(token).major.Complete?
    requires verify(micToken, MicData(sessionId, user))
    ensures var (rc, s1) := HandleUserauthSpec(s, user, oids, SelectHook(Some(chosen)), lib);
            var s2 := TokenServerSpec(s1, SshString(token) + rest, NoAcceptHook, accept);
            var s3 := MicSpec(s2, SshString(micToken) + rest', Some(sessionId), verify, MicHook(AuthSuccess));
            && rc == SSH_OK && s1.gssapi.value.state == RcvToken && s1.auth == GssapiToken
            && s2.gssapi.value.state == RcvMic
            && s3.sent[|s3.sent| - 1] == ReplySuccess(false)
  {
    GetStringOfSshString(token, rest);
    GetStringOfSshString(micToken, rest');
  }

  // ---------------------------------------------------------------------
  // The client state machine

  /** Whether the response handler gets as far as a usable library step. */
  predicate ResponseAccepted(s: SessionState, packet: seq<byte>,
                             init: (Option<seq<byte>>, seq<byte>) -> GssStep)
  {
    && s.auth == GssapiRequestSent && GetString(packet).Some?
    && OidFromString(Some(GetString(packet).value.0)).Some?
    && !init(OidFromString(Some(GetString(packet).value.0)), []).major.Failure?
  }

  /** The response handler acts only in GSSAPI_REQUEST_SENT; every failure
      leaves the auth state ERROR; it moves to GSSAPI_TOKEN exactly when the
      first token is non-empty and sent. */
  lemma ResponseTransitions(s: SessionState, packet: seq<byte>,
                            init: (Option<seq<byte>>, seq<byte>) -> GssStep)
    ensures s.auth != GssapiRequestSent ==> ResponseSpec(s, packet, init) == s.(error := Fatal, auth := AuthError)
    ensures ResponseSpec(s, packet, init).auth == AuthError <==> !ResponseAccepted(s, packet, init)
    ensures ResponseSpec(s, packet, init).auth == GssapiToken
            <==> (ResponseAccepted(s, packet, init)
                  && |init(OidFromString(Some(GetString(packet).value.0)), []).output| != 0)
    ensures ResponseSpec(s, packet, init).auth in {GssapiRequestSent, GssapiToken, AuthError}
  {
  }

  /** The client token handler acts only in GSSAPI_TOKEN with a context; any
      failure sets ERROR, and GSSAPI_MIC_SENT is reached exactly when the
      library completes the context. */
  lemma TokenClientTransitions(s: SessionState, packet: seq<byte>, sessionId: Option<Blob>,
                               init: (Option<seq<byte>>, seq<byte>) -> GssStep,
                               getMic: seq<byte> -> Option<seq<byte>>)
    ensures !TokenClientReady(s) ==> TokenClientSpec(s, packet, sessionId, init, getMic)
                                     == s.(error := Fatal, auth := AuthError)
    ensures var r := TokenClientSpec(s, packet, sessionId, init, getMic);
            r.auth == GssapiMicSent
            <==> (TokenClientReady(s) && GetString(packet).Some?
                  && init(s.gssapi.value.clientOid, GetString(packet).value.0).major.Complete?)
    ensures var r := TokenClientSpec(s, packet, sessionId, init, getMic);
            r.auth == AuthError
            <==> !(TokenClientReady(s) && GetString(packet).Some?
                   && !init(s.gssapi.value.clientOid, GetString(packet).value.0).major.Failure?)
  {
  }

  /** The return value of ssh_gssapi_send_mic is ignored: a completed context
      moves the client to GSSAPI_MIC_SENT even when no MIC could be produced
      and none was sent. */
  lemma MicSentWithoutMic(s: SessionState, token: Blob, rest: seq<byte>, sessionId: Option<Blob>,
                          init: (Option<seq<byte>>, seq<byte>) -> GssStep)
    requires TokenClientReady(s) && init(s.gssapi.value.clientOid, token).major.Complete?
    ensures var r := TokenClientSpec(s, SshString(token) + rest, sessionId, init, (data: seq<byte>) => None);
            r.auth == GssapiMicSent
            && forall i :: |s.sent| <= i < |r.sent| ==> !r.sent[i].GssapiMicMsg?
  {
    GetStringOfSshString(token, rest);
  }

  /** A whole client exchange: the request carries the wrapped OIDs; a response
      naming a 1- to 254-byte OID, with a non-empty first token from the
      library, moves to GSSAPI_TOKEN with that OID chosen; a server token on
      which the library completes the context moves to GSSAPI_MIC_SENT and
      sends the MIC the library computes over the session identifier and user. */
  lemma ClientHandshake(s: SessionState, username: Blob, matched: seq<seq<byte>>, oid: seq<byte>,
                        rest1: seq<byte>, init: (Option<seq<byte>>, seq<byte>) -> GssStep,
                        token: Blob, rest2: seq<byte>, sessionId: Blob,
                        getMic: seq<byte> -> Option<seq<byte>>)
    requires 1 <= |oid| <= 254
    requires init(Some(oid), []).major.ContinueNeeded? && |init(Some(oid), []).output| != 0
    requires init(Some(oid), token).major.Complete?
    requires getMic(MicData(sessionId, username)).Some?
    ensures var (rc, s1) := AuthMicSpec(s, username, ClientLib(true, Some(matched)));
            var s2 := ResponseSpec(s1, SshString(EncodeOid(oid)) + rest1, init);
            var s3 := TokenClientSpec(s2, SshString(token) + rest2, Some(sessionId), init, getMic);
            && rc == SSH_AUTH_AGAIN && s1.auth == GssapiRequestSent
            && s1.sent[|s1.sent| - 1] == AuthRequest(username, EncodeOids(matched))
            && s2.auth == GssapiToken && s2.gssapi.value.clientOid == Some(oid)
            && s3.auth == GssapiMicSent
            && s3.sent[|s3.sent| - 1] == GssapiMicMsg(getMic(MicData(sessionId, username)).value)
  {
    OidRoundTrip(oid);
    assert |EncodeOid(oid)| <= 256;
    GetStringOfSshString(EncodeOid(oid), rest1);
    GetStringOfSshString(token, rest2);
  }

  // ---------------------------------------------------------------------
  // The session object

  /** The parts of an ssh_session that these handlers update in place. */
  class Session {
    var gssapi: Option<GssContext>
    var auth: AuthState
    var sent: seq<Msg>
    var error: ErrorKind

    /** A session with no GSSAPI context yet. */
    constructor (authState: AuthState)
      ensures State() == SessionState(None, authState, [], NoError)
    {
      gssapi := None;
      auth := authState;
      sent := [];
      error := NoError;
    }

    function State(): SessionState
      reads this
    {
      SessionState(gssapi, auth, sent, error)
    }

    /** ssh_gssapi_init. */
    method Init() returns (rc: int)
      modifies this
      ensures rc == SSH_OK && State() == InitSpec(old(State()))
    {
      if gssapi.Some? {
        return SSH_OK;
      }
      gssapi := Some(FRESH);
      rc := SSH_OK;
    }

    /** ssh_gssapi_free. */
    method Free()
      modifies this
      ensures State() == FreeSpec(old(State()))
    {
      if gssapi.None? {
        return;
      }
      gssapi := None;
    }

    /** ssh_auth_reply_default(session, 0). */
    method AuthReplyDefault()
      modifies this
      ensures State() == Send(old(State()), ReplyDefault)
    {
      sent := sent + [ReplyDefault];
    }

    /** ssh_gssapi_send_response. */
    method SendResponse(oid: seq<byte>) returns (rc: int)
      modifies this
      ensures rc == SSH_OK && State() == SendResponseSpec(old(State()), oid)
    {
      auth := GssapiToken;
      sent := sent + [GssapiResponse(oid)];
      rc := SSH_OK;
    }

    /** ssh_gssapi_handle_userauth. */
    method HandleUserauth(user: Blob, oids: seq<Option<seq<byte>>>, hook: SelectHook, lib: ServerLib)
      returns (rc: int)
      modifies this
      ensures (rc, State()) == HandleUserauthSpec(old(State()), user, oids, hook, lib)
    {
      Free();
      rc := Init();
      if hook.SelectHook? {
        gssapi := Some(gssapi.value.(state := RcvToken, user := Some(user)));
        if hook.choice.Some? {
          rc := SendResponse(hook.choice.value);
        } else {
          AuthReplyDefault();
          rc := SSH_OK;
        }
        return;
      }
      if lib.indicate.None? {
        return SSH_ERROR;
      }
      var count, both := FilterOids(oids, lib.indicate.value);
      if count == 0 {
        AuthReplyDefault();
        return SSH_OK;
      }
      if !lib.importNameOk {
        return SSH_ERROR;
      }
      var selected := lib.acquire(both);
      if selected.None? {
        AuthReplyDefault();
        return SSH_ERROR;
      }
      gssapi := Some(gssapi.value.(serverCreds := true));
      var idx := SelectOid(oids, selected.value);
      if idx.None? {
        return SSH_ERROR;
      }
      FirstSelectedIsFirst(oids, selected.value, 0);
      var i := idx.value;
      gssapi := Some(gssapi.value.(mech := FilterOid(oids[i]).value, user := Some(user), state := RcvToken));
      rc := SendResponse(oids[i].value);
    }

    /** ssh_packet_userauth_gssapi_token_server. */
    method TokenServer(packet: Buffer, hook: AcceptHook, accept: seq<byte> -> GssStep)
      modifies this, packet
      ensures State() == TokenServerSpec(old(State()), old(packet.data), hook, accept)
      ensures packet.data == if TokenServerReady(old(State())) then AfterGetSshString(old(packet.data))
                             else old(packet.data)
    {
      if gssapi.None? || gssapi.value.state != RcvToken {
        error := Fatal;
        return;
      }
      var token := packet.TakeSshString();
      if token.None? {
        error := RequestDenied;
        return;
      }
      if hook.AcceptHook? {
        var (rc, out) := hook.f(token.value);
        if rc == SSH_ERROR {
          AuthReplyDefault();
          return;
        }
        if |out| != 0 {
          sent := sent + [GssapiTokenMsg(out)];
        }
        gssapi := Some(gssapi.value.(state := RcvMic));
        return;
      }
      var step := accept(token.value);
      if step.major.Failure? {
        AuthReplyDefault();
        return;
      }
      if |step.output| != 0 {
        sent := sent + [GssapiTokenMsg(step.output)];
      }
      if step.major.Complete? {
        gssapi := Some(gssapi.value.(state := RcvMic));
      }
    }

    /** ssh_packet_userauth_gssapi_mic. */
    method Mic(packet: Buffer, sessionId: Option<Blob>, verify: (seq<byte>, seq<byte>) -> bool, hook: MicHook)
      modifies this, packet
      ensures State() == MicSpec(old(State()), old(packet.data), sessionId, verify, hook)
      ensures packet.data == AfterGetSshString(old(packet.data))
    {
      var micToken := packet.TakeSshString();
      if micToken.None? || gssapi.None? || gssapi.value.state != RcvMic {
        error := Fatal;
        AuthReplyDefault();
        return;
      }
      var micBuffer := BuildMic(sessionId, gssapi.value.user);
      if micBuffer.None? {
        error := Fatal;
        AuthReplyDefault();
        return;
      }
      if !verify(micToken.value, micBuffer.value) {
        AuthReplyDefault();
        return;
      }
      if hook.MicHook? {
        sent := sent + [Verdict(hook.verdict)];
      }
    }

    /** ssh_gssapi_send_auth_mic: the request, then GSSAPI_REQUEST_SENT. */
    method SendAuthMic(username: Blob, oids: seq<seq<byte>>) returns (rc: int)
      modifies this
      ensures rc == SSH_OK
      ensures State() == Send(old(State()), AuthRequest(username, oids)).(auth := GssapiRequestSent)
    {
      sent := sent + [AuthRequest(username, oids)];
      auth := GssapiRequestSent;
      rc := SSH_OK;
    }

    /** ssh_gssapi_auth_mic. */
    method AuthMic(username: Blob, lib: ClientLib) returns (rc: int)
      modifies this
      ensures (rc, State()) == AuthMicSpec(old(State()), username, lib)
    {
      Free();
      rc := Init();
      if !lib.importNameOk {
        return SSH_AUTH_DENIED;
      }
      gssapi := Some(gssapi.value.(user := Some(username)));
      if lib.matched.None? {
        return SSH_AUTH_DENIED;
      }
      var oids := WrapOids(lib.matched.value);
      assert oids == EncodeOids(lib.matched.value);
      rc := SendAuthMic(username, oids);
      rc := SSH_AUTH_AGAIN;
    }

    /** ssh_packet_userauth_gssapi_response. */
    method Response(packet: Buffer, init: (Option<seq<byte>>, seq<byte>) -> GssStep)
      modifies this, packet
      ensures State() == ResponseSpec(old(State()), old(packet.data), init)
      ensures packet.data == if old(auth) == GssapiRequestSent then AfterGetSshString(old(packet.data))
                             else old(packet.data)
    {
      if auth != GssapiRequestSent {
        error := Fatal;
        auth := AuthError;
        return;
      }
      var oidString := packet.TakeSshString();
      if oidString.None? {
        error := Fatal;
        auth := AuthError;
        return;
      }
      var oid := OidFromString(oidString);
      if gssapi.Some? {
        gssapi := Some(gssapi.value.(clientOid := oid));
      }
      if oid.None? {
        error := Fatal;
        auth := AuthError;
        return;
      }
      var step := init(oid, []);
      if step.major.Failure? {
        auth := AuthError;
        return;
      }
      if |step.output| != 0 {
        sent := sent + [GssapiTokenMsg(step.output)];
        auth := GssapiToken;
      }
    }

    /** ssh_gssapi_send_mic. */
    method SendMic(sessionId: Option<Blob>, getMic: seq<byte> -> Option<seq<byte>>) returns (rc: int)
      requires gssapi.Some?
      modifies this
      ensures State() == SendMicSpec(old(State()), sessionId, getMic)
      ensures rc == SSH_OK <==> State().sent != old(State()).sent
    {
      var micBuffer := BuildMic(sessionId, gssapi.value.user);
      if micBuffer.None? {
        error := Fatal;
        return SSH_ERROR;
      }
      var mic := getMic(micBuffer.value);
      if mic.None? {
        return SSH_ERROR;
      }
      sent := sent + [GssapiMicMsg(mic.value)];
      rc := SSH_OK;
    }

    /** ssh_packet_userauth_gssapi_token_client. */
    method TokenClient(packet: Buffer, sessionId: Option<Blob>, init: (Option<seq<byte>>, seq<byte>) -> GssStep,
                       getMic: seq<byte> -> Option<seq<byte>>)
      modifies this, packet
      ensures State() == TokenClientSpec(old(State()), old(packet.data), sessionId, init, getMic)
      ensures packet.data == if TokenClientReady(old(State())) then AfterGetSshString(old(packet.data))
                             else old(packet.data)
    {
      if gssapi.None? || auth != GssapiToken {
        error := Fatal;
        auth := AuthError;
        return;
      }
      var token := packet.TakeSshString();
      if token.None? {
        error := RequestDenied;
        auth := AuthError;
        return;
      }
      var step := init(gssapi.value.clientOid, token.value);
      if step.major.Failure? {
        auth := AuthError;
        return;
      }
      if |step.output| != 0 {
        sent := sent + [GssapiTokenMsg(step.output)];
      }
      if step.major.Complete? {
        var _ := SendMic(sessionId, getMic);
        auth := GssapiMicSent;
      }
    }
  }
}
