/**
 The `/v1/resolve` handler under any number of concurrent requests: one transition per await, lock or atomic operation.
 Policy swaps, arrivals, request bodies, provider answers and disconnects belong to the environment.
 */
module Admission {
  import opened Census
  import opened Cipher
  import opened Extraction
  import opened Metrics
  import opened Policy
  import opened PolicyFile
  import opened Selector
  import opened Text
  import opened Wrappers

  // ---- Authentication ----

  datatype WebhookAuth = DisabledInsecure | Required(expected: string)

  /** What `HeaderValue::to_str` passes. */
  predicate VisibleAscii(s: string) {
    forall i :: 0 <= i < |s| ==> ' ' <= s[i] <= '~' || s[i] == '\t'
  }

  type AsciiText = s: string | VisibleAscii(s)

  /** The Authorization header: absent, not text in the sense of `to_str`, or text. */
  datatype Header = Absent | NotText | HeaderText(raw: AsciiText)

  function AsciiLower(c: char): char {
    if 'A' <= c <= 'Z' then c - 'A' + 'a' else c
  }

  predicate EqIgnoreAsciiCase(a: string, b: string) {
    |a| == |b| && forall i :: 0 <= i < |a| ==> AsciiLower(a[i]) == AsciiLower(b[i])
  }

  predicate IsAuthorized(auth: WebhookAuth, header: Header) {
    match auth
    case DisabledInsecure => true
    case Required(expected) =>
      header.HeaderText? &&
      match SplitOnce(header.raw, ' ')
      case None => false
      case Some((scheme, token)) =>
        EqIgnoreAsciiCase(scheme, "Bearer") && token != "" && Trim(token) == token && expected == token
  }

  /** The six letters, each in either case. */
  predicate IsBearer(s: string) {
    |s| == 6 && forall i :: 0 <= i < 6 ==> s[i] == "bearer"[i] || s[i] == "BEARER"[i]
  }

  lemma BearerExactly(scheme: string)
    ensures EqIgnoreAsciiCase(scheme, "Bearer") <==> IsBearer(scheme)
  {
    if |scheme| == 6 {
      LetterExactly(scheme[0], 'b', 'B');
      LetterExactly(scheme[1], 'e', 'E');
      LetterExactly(scheme[2], 'a', 'A');
      LetterExactly(scheme[3], 'r', 'R');
      LetterExactly(scheme[4], 'e', 'E');
      LetterExactly(scheme[5], 'r', 'R');
      assert IsBearer(scheme) <==>
        && (scheme[0] == 'b' || scheme[0] == 'B') && (scheme[1] == 'e' || scheme[1] == 'E')
        && (scheme[2] == 'a' || scheme[2] == 'A') && (scheme[3] == 'r' || scheme[3] == 'R')
        && (scheme[4] == 'e' || scheme[4] == 'E') && (scheme[5] == 'r' || scheme[5] == 'R');
      assert EqIgnoreAsciiCase(scheme, "Bearer") <==>
        && AsciiLower(scheme[0]) == AsciiLower('B') && AsciiLower(scheme[1]) == AsciiLower('e')
        && AsciiLower(scheme[2]) == AsciiLower('a') && AsciiLower(scheme[3]) == AsciiLower('r')
        && AsciiLower(scheme[4]) == AsciiLower('e') && AsciiLower(scheme[5]) == AsciiLower('r');
    }
  }

  lemma LetterExactly(c: char, lower: char, upper: char)
    requires 'a' <= lower <= 'z' && upper == lower - 'a' + 'A'
    ensures AsciiLower(c) == AsciiLower(lower) <==> c == lower || c == upper
    ensures AsciiLower(upper) == AsciiLower(lower)
  {
  }

  lemma BearerHasNoSpace(scheme: string)
    requires IsBearer(scheme)
    ensures Free(' ', scheme)
  {
    forall i | 0 <= i < |scheme|
      ensures scheme[i] != ' '
    {
      assert "bearer"[i] != ' ' && "BEARER"[i] != ' ';
    }
  }

  /** The scheme in any case, one space, the token: nothing else is let in. */
  lemma AuthorizedExactly(expected: string, header: Header)
    ensures IsAuthorized(Required(expected), header) <==>
      && expected != "" && Trimmed(expected)
      && header.HeaderText? && |header.raw| == 7 + |expected|
      && IsBearer(header.raw[..6]) && header.raw[6..] == " " + expected
  {
    TrimLaws(expected);
    if header.HeaderText? {
      var raw: string := header.raw;
      if |raw| == 7 + |expected| && IsBearer(raw[..6]) && raw[6..] == " " + expected {
        BearerHasNoSpace(raw[..6]);
        BearerExactly(raw[..6]);
        assert raw == raw[..6] + [' '] + expected;
        SplitOnceAppend(raw[..6], ' ', expected);
      }
      if IsAuthorized(Required(expected), header) {
        BearerExactly(SplitOnce(raw, ' ').value.0);
      }
    }
  }

  /** Some request can be let in with this token. */
  ghost predicate Usable(token: string) {
    exists header :: IsAuthorized(Required(token), header)
  }

  /** A token is of use exactly when it is non-empty, has no blank at either end, and is visible ASCII throughout. */
  lemma UsableExactly(token: string)
    ensures Usable(token) <==> token != "" && Trimmed(token) && VisibleAscii(token)
  {
    if Usable(token) {
      var header :| IsAuthorized(Required(token), header);
      TokenIsInHeader(token, header);
    }
    if token != "" && Trimmed(token) && VisibleAscii(token) {
      BearerLetsIn(token);
    }
  }

  lemma TokenIsInHeader(token: string, header: Header)
    requires IsAuthorized(Required(token), header)
    ensures token != "" && Trimmed(token) && VisibleAscii(token)
  {
    AuthorizedExactly(token, header);
    var raw: string, tail := header.raw, " " + token;
    forall i | 0 <= i < |token|
      ensures ' ' <= token[i] <= '~' || token[i] == '\t'
    {
      assert token[i] == tail[i + 1] == raw[6..][i + 1] == raw[i + 7];
    }
  }

  lemma BearerLetsIn(token: string)
    requires token != "" && Trimmed(token) && VisibleAscii(token)
    ensures Usable(token)
  {
    var raw := "Bearer" + [' '] + token;
    assert VisibleAscii(raw);
    BearerExactly("Bearer");
    BearerHasNoSpace("Bearer");
    SplitOnceAppend("Bearer", ' ', token);
    TrimLaws(token);
    assert IsAuthorized(Required(token), HeaderText(raw));
  }

  // ---- Authentication at startup ----

  /** The two token flags and the opt-out; a file is given by what reading it shows. */
  datatype AuthArgs = AuthArgs(token: Option<string>, tokenFile: Option<FileRead>, allowUnauthenticated: bool)

  datatype AuthError = BothTokenSources | UnreadableToken | BlankToken | BothModes | NoMode

  function TrimLineEnds(s: string): string {
    if s != "" && (s[|s| - 1] == '\r' || s[|s| - 1] == '\n') then TrimLineEnds(s[..|s| - 1]) else s
  }

  function ReadToken(args: AuthArgs): Result<Option<string>, AuthError> {
    match (args.token, args.tokenFile)
    case (Some(_), Some(_)) => Err(BothTokenSources)
    case (Some(value), None) => if Trim(value) == "" then Err(BlankToken) else Ok(Some(value))
    case (None, Some(file)) =>
      if file.Unreadable? then Err(UnreadableToken) else
        var resolved := TrimLineEnds(file.text);
        if Trim(resolved) == "" then Err(BlankToken) else Ok(Some(resolved))
    case (None, None) => Ok(None)
  }

  function AuthFromArgs(args: AuthArgs): Result<WebhookAuth, AuthError> {
    var token :- ReadToken(args);
    match (token, args.allowUnauthenticated)
    case (Some(_), true) => Err(BothModes)
    case (Some(t), false) => Ok(Required(t))
    case (None, true) => Ok(DisabledInsecure)
    case (None, false) => Err(NoMode)
  }

  predicate LineEnds(s: string) {
    forall i :: 0 <= i < |s| ==> s[i] == '\r' || s[i] == '\n'
  }

  /** The text is the token followed by line ends, all of them. */
  predicate HoldsToken(text: string, token: string) {
    && token <= text && LineEnds(text[|token|..])
    && (token != "" ==> token[|token| - 1] != '\r' && token[|token| - 1] != '\n')
  }

  lemma {:induction false} TrimLineEndsExactly(text: string, token: string)
    ensures TrimLineEnds(text) == token <==> HoldsToken(text, token)
  {
    TrimLineEndsHolds(text);
    if HoldsToken(text, token) {
      OneToken(text, token, TrimLineEnds(text));
    }
  }

  lemma {:induction false} TrimLineEndsHolds(text: string)
    ensures HoldsToken(text, TrimLineEnds(text))
  {
    var n := |text| - 1;
    if text != "" && (text[n] == '\r' || text[n] == '\n') {
      TrimLineEndsHolds(text[..n]);
      var token := TrimLineEnds(text[..n]);
      assert text[|token|..] == text[..n][|token|..] + [text[n]];
    }
  }

  /** There is only one such token. */
  lemma OneToken(text: string, a: string, b: string)
    requires HoldsToken(text, a) && HoldsToken(text, b)
    ensures a == b
  {
    NotLonger(text, a, b);
    NotLonger(text, b, a);
    assert a == text[..|a|] && b == text[..|b|];
  }

  lemma NotLonger(text: string, a: string, b: string)
    requires HoldsToken(text, a) && HoldsToken(text, b)
    ensures |a| <= |b|
  {
    PastTheToken(text, b);
    assert a != "" ==> a[|a| - 1] == text[|a| - 1];
  }

  lemma PastTheToken(text: string, token: string)
    requires HoldsToken(text, token)
    ensures forall i :: |token| <= i < |text| ==> text[i] == '\r' || text[i] == '\n'
  {
    assert forall i :: |token| <= i < |text| ==> text[i] == text[|token|..][i - |token|];
  }

  /** Line ends are whitespace, so cutting them leaves nothing visible exactly when nothing visible was there. */
  lemma {:induction false} TrimLineEndsBlank(text: string)
    ensures AllWhitespace(TrimLineEnds(text)) <==> AllWhitespace(text)
  {
    var n := |text| - 1;
    if text != "" && (text[n] == '\r' || text[n] == '\n') {
      TrimLineEndsBlank(text[..n]);
      assert AllWhitespace(text[..n]) ==> AllWhitespace(text) by {
        assert text == text[..n] + [text[n]];
      }
    }
  }

  /** The token comes from the flag, or from the file less the line ends at its end. */
  predicate Configured(args: AuthArgs, token: string) {
    || (args.token == Some(token) && args.tokenFile.None?)
    || (args.token.None? && args.tokenFile.Some? && args.tokenFile.value.Contents?
        && HoldsToken(args.tokenFile.value.text, token))
  }

  /**
   Which tokens startup accepts, and which of those lock everybody out: the ones with a blank at either end or a
   character outside visible ASCII.
   */
  lemma StartupAcceptsExactly(args: AuthArgs, token: string)
    ensures AuthFromArgs(args) == Ok(Required(token)) <==>
      !args.allowUnauthenticated && Configured(args, token) && !AllWhitespace(token)
    ensures AuthFromArgs(args) == Ok(Required(token)) ==> (!Usable(token) <==> !Trimmed(token) || !VisibleAscii(token))
  {
    UsableExactly(token);
    TrimToNothing(token);
    if args.tokenFile.Some? && args.tokenFile.value.Contents? {
      TrimLineEndsExactly(args.tokenFile.value.text, token);
    }
  }

  /**
   Startup without a token is accepted exactly with the opt-out and no token source; and only then does a request
   without a header get in, as does every other.
   */
  lemma OpenToAllExactly(args: AuthArgs)
    ensures AuthFromArgs(args).Ok? && IsAuthorized(AuthFromArgs(args).value, Absent) <==>
      args.allowUnauthenticated && args.token.None? && args.tokenFile.None?
    ensures args.allowUnauthenticated && args.token.None? && args.tokenFile.None? ==>
      AuthFromArgs(args).Ok? && forall header :: IsAuthorized(AuthFromArgs(args).value, header)
  {
  }

  /** No visible character in the flag, or in the file. */
  predicate BlankOrUnreadable(args: AuthArgs) {
    || (args.token.Some? && AllWhitespace(args.token.value))
    || (args.tokenFile.Some? && (args.tokenFile.value.Unreadable? || AllWhitespace(args.tokenFile.value.text)))
  }

  /** Startup fails exactly on two sources, on a blank or unreadable one, on a token with the opt-out, or on neither. */
  lemma StartupFailsExactly(args: AuthArgs)
    ensures AuthFromArgs(args).Err? <==>
      || (args.token.Some? && args.tokenFile.Some?)
      || BlankOrUnreadable(args)
      || ((args.token.Some? || args.tokenFile.Some?) <==> args.allowUnauthenticated)
    ensures AuthFromArgs(args) == Err(BothTokenSources) <==> args.token.Some? && args.tokenFile.Some?
    ensures AuthFromArgs(args) == Err(UnreadableToken) <==>
      args.token.None? && args.tokenFile.Some? && args.tokenFile.value.Unreadable?
    ensures AuthFromArgs(args) == Err(NoMode) <==> args.token.None? && args.tokenFile.None? && !args.allowUnauthenticated
    ensures AuthFromArgs(args) == Err(BothModes) <==>
      (args.token.Some? <==> args.tokenFile.None?) && !BlankOrUnreadable(args) && args.allowUnauthenticated
  {
    if args.token.Some? {
      TrimToNothing(args.token.value);
    }
    if args.tokenFile.Some? && args.tokenFile.value.Contents? {
      TrimToNothing(TrimLineEnds(args.tokenFile.value.text));
      TrimLineEndsBlank(args.tokenFile.value.text);
    }
  }

  /** Two tokens that startup accepts and that nobody can use. */
  lemma AcceptedButUseless()
    ensures AuthFromArgs(AuthArgs(Some("secret "), None, false)) == Ok(Required("secret ")) && !Usable("secret ")
    ensures AuthFromArgs(AuthArgs(None, Some(Contents("\U{E9}\r\n")), false)) == Ok(Required("\U{E9}")) && !Usable("\U{E9}")
  {
    UsableExactly("secret ");
    UsableExactly("\U{E9}");
    TrimLaws("secret ");
    TrimLaws("\U{E9}");
    var text := "\U{E9}\r\n";
    assert text[..2] == "\U{E9}\r" && text[..2][..1] == "\U{E9}";
    assert TrimLineEnds(text) == TrimLineEnds(text[..2]) == TrimLineEnds(text[..2][..1]) == "\U{E9}";
    assert "secret "[0] == 's';
  }

  // ---- Replies ----

  datatype Reply = Reply(status: nat, outcome: string, errorKind: string)

  function ErrorReply(e: ClientError): Reply {
    var (status, kind) := StatusAndKind(e);
    Reply(status, "error", kind)
  }

  function AnswerReply(answer: Result<SecretDocument, ClientError>): Reply {
    if answer.Ok? then Reply(200, "success", "none") else ErrorReply(answer.error)
  }

  function StatusAndKind(e: ClientError): (nat, string) {
    match e
    case Validation(_) => (400, "validation")
    case CipherFailure(BlankProperty) => (400, "validation")
    case CipherFailure(MissingProperty(_)) => (404, "not_found")
    case Api(CipherNotFound) => (404, "not_found")
    case CipherFailure(UnsupportedAttachment) => (422, "unsupported_attachment")
    case Api(AmbiguousCipherName) => (409, "ambiguous_selector")
    case Api(UnsupportedSharedItem) => (422, "unsupported_shared_item")
    case Api(Http) => (502, "upstream_http")
    case Api(HttpStatus(_)) => (502, "upstream_status")
    case CryptoFailure(_) => (500, "crypto")
    case CipherFailure(_) => (500, "crypto")
    case KeyDerivation => (500, "key_derivation")
    case Api(UnsupportedKdfType) => (500, "kdf_parameters")
    case Api(MissingKdfParameter) => (500, "kdf_parameters")
    case Api(InvalidBaseUrl) => (500, "endpoint")
    case Api(_) => (500, "sync_payload")
    case InvalidEndpoint => (500, "endpoint")
    case InsecureEndpoint => (500, "endpoint")
    case UnsupportedVersionSelector => (400, "unsupported_version")
    case UnprefixedSelectorKey => (400, "validation")
  }

  /** Which errors get which status: the caller's fault, nothing there, not served, upstream, or ours. */
  lemma StatusExactly(e: ClientError)
    ensures var r := ErrorReply(e);
            && r.outcome == "error"
            && (r.status == 400 <==>
                  e.Validation? || e == CipherFailure(BlankProperty) || e.UnsupportedVersionSelector? || e.UnprefixedSelectorKey?)
            && (r.status == 404 <==> (e.CipherFailure? && e.cipherError.MissingProperty?) || e == Api(CipherNotFound))
            && (r.status == 409 <==> e == Api(AmbiguousCipherName))
            && (r.status == 422 <==> e == CipherFailure(UnsupportedAttachment) || e == Api(UnsupportedSharedItem))
            && (r.status == 502 <==> e.Api? && (e.apiError.Http? || e.apiError.HttpStatus?))
            && r.status in {400, 404, 409, 422, 500, 502}
  {
  }

  /** And which kind they are counted as. */
  lemma KindExactly(e: ClientError)
    ensures var kind := ErrorReply(e).errorKind;
            && (kind == "validation" <==> e.Validation? || e == CipherFailure(BlankProperty) || e.UnprefixedSelectorKey?)
            && (kind == "unsupported_version" <==> e.UnsupportedVersionSelector?)
            && (kind == "not_found" <==> (e.CipherFailure? && e.cipherError.MissingProperty?) || e == Api(CipherNotFound))
            && (kind == "ambiguous_selector" <==> e == Api(AmbiguousCipherName))
            && (kind == "unsupported_attachment" <==> e == CipherFailure(UnsupportedAttachment))
            && (kind == "unsupported_shared_item" <==> e == Api(UnsupportedSharedItem))
            && (kind == "upstream_http" <==> e == Api(Http))
            && (kind == "upstream_status" <==> e.Api? && e.apiError.HttpStatus?)
            && (kind == "key_derivation" <==> e.KeyDerivation?)
            && (kind == "kdf_parameters" <==> e == Api(UnsupportedKdfType) || e == Api(MissingKdfParameter))
            && (kind == "endpoint" <==> e.InvalidEndpoint? || e.InsecureEndpoint? || e == Api(InvalidBaseUrl))
            && (kind == "sync_payload" <==>
                  e == Api(MissingMasterPasswordUnlock) || e == Api(MissingMasterKeyWrappedUserKey) || e == Api(MissingCachedSync))
            && (kind == "crypto" <==>
                  e.CryptoFailure? || (e.CipherFailure? && (e.cipherError.Crypto? || e.cipherError.NoExtractableFields?)))
  {
  }

  // ---- The system ----

  type RequestId = nat

  /** `limit` 0 means no concurrency cap. */
  datatype Config = Config(auth: WebhookAuth, limit: nat)

  datatype Pc =
    | Arrived                    // about to check the header
    | Authorized                 // about to try for a permit
    | Decoding                   // awaiting the body
    | Selecting
    | Checking                   // about to take the policy snapshot
    | Calling                    // awaiting the provider
    | Finishing(reply: Reply)    // about to record the metric
    | Recorded(reply: Reply)     // about to drop the permit
    | Completed(reply: Reply)
    | Dropped                    // the client went away

  /** A request, with what it has met so far. */
  datatype Request = Request(
    header: Header, arrivedUnder: nat, holds: bool, pc: Pc,
    shed: bool, decoded: Option<Result<RemoteRef, nat>>, snapshot: Option<nat>, calls: nat,
    answer: Option<Result<SecretDocument, ClientError>>)

  /** `served` lists every policy ever served, the current one last. */
  datatype State = State(
    available: nat, requests: map<RequestId, Request>, served: seq<PolicyRules>, metrics: Registry, log: seq<Metrics.Recorded>)

  datatype Action =
    | SwapPolicy(rules: PolicyRules)
    | Arrive(header: Header)
    | Authorize
    | TryAcquire
    | Decode(decoded: Result<RemoteRef, nat>)
    | Select
    | Check
    | Answer(answer: Result<SecretDocument, ClientError>)
    | Record(duration: nat)
    | Release
    | Disconnect

  function Init(cfg: Config, rules: PolicyRules): State {
    State(cfg.limit, map[], [rules], map[], [])
  }

  function KeyOf(reply: Reply): ResolveMetricKey {
    ResolveMetricKey(reply.outcome, reply.errorKind, reply.status)
  }

  const AUTH := Reply(401, "error", "auth")
  const OVERLOADED := Reply(503, "error", "overloaded")
  const DENIED := Reply(403, "error", "policy_denied")

  /** The statuses with which decoding can fail. */
  const DECODE_STATUSES: set<nat> := {400, 413, 415}

  /** The request's next position; None when the action is not enabled for it. */
  function Moved(cfg: Config, s: State, r: Request, a: Action): Option<Request> {
    match a
    case Authorize =>
      if !r.pc.Arrived? then None
      else Some(r.(pc := if IsAuthorized(cfg.auth, r.header) then Authorized else Finishing(AUTH)))
    case TryAcquire =>
      if !r.pc.Authorized? then None
      else if cfg.limit == 0 then Some(r.(pc := Decoding))
      else if s.available == 0 then Some(r.(pc := Finishing(OVERLOADED), shed := true))
      else Some(r.(pc := Decoding, holds := true))
    case Decode(decoded) =>
      if !r.pc.Decoding? || (decoded.Err? && decoded.error !in DECODE_STATUSES) then None
      else
        var pc := if decoded.Ok? then Selecting else Finishing(Reply(decoded.error, "error", "validation"));
        Some(r.(decoded := Some(decoded), pc := pc))
    case Select =>
      if !r.pc.Selecting? || r.decoded.None? || r.decoded.value.Err? then None
      else
        var selector := TryFrom(r.decoded.value.value);
        Some(r.(pc := if selector.Ok? then Checking else Finishing(ErrorReply(selector.error))))
    case Check =>
      if !r.pc.Checking? || r.decoded.None? || r.decoded.value.Err? || s.served == [] then None
      else
        var selector := TryFrom(r.decoded.value.value);
        var last := |s.served| - 1;
        if selector.Err? then None
        else if s.served[last].Allows(selector.value.key)
        then Some(r.(pc := Calling, snapshot := Some(last), calls := r.calls + 1))
        else Some(r.(pc := Finishing(DENIED), snapshot := Some(last)))
    case Answer(answer) =>
      if !r.pc.Calling? then None else Some(r.(pc := Finishing(AnswerReply(answer)), answer := Some(answer)))
    case Record(_) =>
      if !r.pc.Finishing? then None else Some(r.(pc := Pc.Recorded(r.pc.reply)))
    case Release =>
      if !r.pc.Recorded? then None else Some(r.(pc := Completed(r.pc.reply), holds := false))
    case Disconnect =>
      if !r.pc.Decoding? && !r.pc.Calling? then None else Some(r.(pc := Dropped, holds := false))
    case _ => None
  }

  /** The state after the action of request `id` (or of the environment), or None when it is not enabled. */
  function Next(cfg: Config, s: State, id: RequestId, a: Action): Option<State> {
    if a.SwapPolicy? then Some(s.(served := s.served + [a.rules]))
    else if a.Arrive? then
      if id in s.requests || s.served == [] then None
      else
        var r := Request(a.header, |s.served| - 1, false, Arrived, false, None, None, 0, None);
        Some(s.(requests := s.requests[id := r]))
    else if id !in s.requests then None
    else
      var r := s.requests[id];
      match Moved(cfg, s, r, a)
      case None => None
      case Some(moved) =>
        var available := s.available + One(r.holds) - One(moved.holds);
        if available < 0 then None
        else if a.Record? then
          var key := KeyOf(r.pc.reply);
          Some(s.(requests := s.requests[id := moved], available := available,
                  metrics := Metrics.Record(s.metrics, key, a.duration),
                  log := s.log + [Metrics.Recorded(key, a.duration)]))
        else Some(s.(requests := s.requests[id := moved], available := available))
  }

  datatype Event = Event(request: RequestId, action: Action)

  function Run(cfg: Config, s: State, events: seq<Event>): Option<State>
    decreases |events|
  {
    if events == [] then Some(s) else
      match Next(cfg, s, events[0].request, events[0].action)
      case None => None
      case Some(t) => Run(cfg, t, events[1..])
  }

  // ---- What one request has met ----

  predicate Replied(pc: Pc) {
    pc.Finishing? || pc.Recorded? || pc.Completed?
  }

  /** The provider may be called for this request: it passed auth and got in, and one snapshot allows its key. */
  predicate Cleared(cfg: Config, s: State, r: Request) {
    && IsAuthorized(cfg.auth, r.header) && !r.shed
    && r.decoded.Some? && r.decoded.value.Ok?
    && TryFrom(r.decoded.value.value).Ok?
    && r.snapshot.Some? && r.arrivedUnder <= r.snapshot.value < |s.served|
    && s.served[r.snapshot.value].Allows(TryFrom(r.decoded.value.value).value.key)
  }

  /** The reply is the one the request's own inputs and one snapshot call for. */
  predicate Explained(cfg: Config, s: State, r: Request, reply: Reply) {
    if !IsAuthorized(cfg.auth, r.header) then reply == Reply(401, "error", "auth")
    else if r.shed then cfg.limit > 0 && reply == Reply(503, "error", "overloaded")
    else if r.decoded.None? then false
    else if r.decoded.value.Err? then
      r.decoded.value.error in {400, 413, 415} && reply == Reply(r.decoded.value.error, "error", "validation")
    else
      match TryFrom(r.decoded.value.value)
      case Err(e) => reply == ErrorReply(e)
      case Ok(selector) =>
        && r.snapshot.Some? && r.arrivedUnder <= r.snapshot.value < |s.served|
        && if !s.served[r.snapshot.value].Allows(selector.key) then reply == Reply(403, "error", "policy_denied")
           else
             && r.answer.Some?
             && if r.answer.value.Ok? then reply == Reply(200, "success", "none")
                else reply == ErrorReply(r.answer.value.error)
  }

  predicate RequestInv(cfg: Config, s: State, r: Request) {
    && r.arrivedUnder < |s.served|
    && r.calls <= 1 && (r.calls == 1 ==> Cleared(cfg, s, r))
    && (r.answer.Some? ==> r.calls == 1)
    && (r.shed ==> cfg.limit > 0)
    && (r.pc.Calling? ==> r.calls == 1)
    && (r.pc.Arrived? || r.pc.Authorized? || r.pc.Decoding? || r.pc.Selecting? || r.pc.Checking? ==> r.calls == 0)
    && (r.pc.Authorized? || r.pc.Decoding? || r.pc.Selecting? || r.pc.Checking? ==>
          IsAuthorized(cfg.auth, r.header) && !r.shed)
    && (r.pc.Decoding? || r.pc.Selecting? || r.pc.Checking? || r.pc.Calling? ==> r.holds == (cfg.limit > 0))
    && (r.pc.Arrived? || r.pc.Authorized? || r.pc.Completed? || r.pc.Dropped? ==> !r.holds)
    && (r.pc.Arrived? ==> !r.shed)
    && (r.pc.Selecting? || r.pc.Checking? ==> r.decoded.Some? && r.decoded.value.Ok?)
    && (r.pc.Checking? ==> TryFrom(r.decoded.value.value).Ok?)
    && (Replied(r.pc) ==> Explained(cfg, s, r, r.pc.reply))
  }

  predicate Holds(r: Request) {
    r.holds
  }

  /** The metric of the request has been recorded. */
  predicate Counted(r: Request) {
    r.pc.Recorded? || r.pc.Completed?
  }

  ghost predicate Inv(cfg: Config, s: State) {
    && s.served != []
    && s.available + |Where(s.requests, Holds)| == cfg.limit
    && s.metrics == RecordAll(s.log)
    && |s.log| == |Where(s.requests, Counted)|
    && forall id :: id in s.requests ==> RequestInv(cfg, s, s.requests[id])
  }

  lemma InvInit(cfg: Config, rules: PolicyRules)
    ensures Inv(cfg, Init(cfg, rules))
  {
    assert Where(Init(cfg, rules).requests, Holds) == {};
    assert Where(Init(cfg, rules).requests, Counted) == {};
  }

  lemma ServedGrows(cfg: Config, s: State, u: State, r: Request)
    requires RequestInv(cfg, s, r) && s.served <= u.served
    ensures RequestInv(cfg, u, r)
  {
    assert forall i :: 0 <= i < |s.served| ==> u.served[i] == s.served[i];
  }

  /** The moving request keeps its part of the invariant. */
  lemma MovedStep(cfg: Config, s: State, r: Request, a: Action)
    requires s.served != [] && RequestInv(cfg, s, r) && Moved(cfg, s, r, a).Some?
    ensures RequestInv(cfg, s, Moved(cfg, s, r, a).value)
  {
  }

  lemma RequestsStep(cfg: Config, s: State, id: RequestId, a: Action)
    requires Inv(cfg, s) && Next(cfg, s, id, a).Some?
    ensures var u := Next(cfg, s, id, a).value;
            s.served <= u.served && forall o :: o in u.requests ==> RequestInv(cfg, u, u.requests[o])
  {
    var u := Next(cfg, s, id, a).value;
    if id in s.requests && Moved(cfg, s, s.requests[id], a).Some? {
      MovedStep(cfg, s, s.requests[id], a);
    }
    forall o | o in u.requests
      ensures RequestInv(cfg, u, u.requests[o])
    {
      if o in s.requests && u.requests[o] == s.requests[o] {
        ServedGrows(cfg, s, u, u.requests[o]);
      } else if !a.Arrive? {
        ServedGrows(cfg, s, u, u.requests[o]);
      }
    }
  }

  /** A step changes one request, moves its permit, and logs it when it becomes counted. */
  lemma StepShape(cfg: Config, s: State, id: RequestId, a: Action)
    requires Next(cfg, s, id, a).Some? && !a.SwapPolicy?
    ensures var u := Next(cfg, s, id, a).value;
            && id in u.requests && u.requests == s.requests[id := u.requests[id]]
            && u.available == s.available + One(id in s.requests && Holds(s.requests[id])) - One(Holds(u.requests[id]))
            && (id in s.requests && Counted(s.requests[id]) ==>
                  Counted(u.requests[id]) && KeyOf(u.requests[id].pc.reply) == KeyOf(s.requests[id].pc.reply))
            && (if Counted(u.requests[id]) && !(id in s.requests && Counted(s.requests[id]))
                then a.Record? && u.log == s.log + [Metrics.Recorded(KeyOf(u.requests[id].pc.reply), a.duration)]
                else u.log == s.log)
  {
  }

  lemma CountsStep(cfg: Config, s: State, id: RequestId, a: Action)
    requires Inv(cfg, s) && Next(cfg, s, id, a).Some?
    ensures var u := Next(cfg, s, id, a).value;
            && u.available + |Where(u.requests, Holds)| == cfg.limit
            && |u.log| == |Where(u.requests, Counted)|
  {
    var u := Next(cfg, s, id, a).value;
    if !a.SwapPolicy? {
      StepShape(cfg, s, id, a);
      WhereUpdate(s.requests, id, u.requests[id], Holds);
      WhereUpdate(s.requests, id, u.requests[id], Counted);
    }
  }

  lemma MetricsStep(cfg: Config, s: State, id: RequestId, a: Action)
    requires s.metrics == RecordAll(s.log) && Next(cfg, s, id, a).Some?
    ensures var u := Next(cfg, s, id, a).value; u.metrics == RecordAll(u.log)
  {
    var u := Next(cfg, s, id, a).value;
    if a.Record? {
      assert u.log[..|u.log| - 1] == s.log;
    }
  }

  lemma InvStep(cfg: Config, s: State, id: RequestId, a: Action)
    requires Inv(cfg, s) && Next(cfg, s, id, a).Some?
    ensures Inv(cfg, Next(cfg, s, id, a).value)
  {
    RequestsStep(cfg, s, id, a);
    CountsStep(cfg, s, id, a);
    MetricsStep(cfg, s, id, a);
  }

  lemma {:induction false} InvRun(cfg: Config, s: State, events: seq<Event>)
    requires Inv(cfg, s) && Run(cfg, s, events).Some?
    ensures Inv(cfg, Run(cfg, s, events).value)
    decreases |events|
  {
    if events != [] {
      var (id, a) := (events[0].request, events[0].action);
      InvStep(cfg, s, id, a);
      InvRun(cfg, Next(cfg, s, id, a).value, events[1..]);
    }
  }

  // ---- What the handler promises ----

  /** The state a run reaches from startup. */
  ghost predicate Reaches(cfg: Config, rules: PolicyRules, events: seq<Event>, s: State) {
    Run(cfg, Init(cfg, rules), events) == Some(s)
  }

  lemma ReachableInv(cfg: Config, rules: PolicyRules, events: seq<Event>, s: State)
    requires Reaches(cfg, rules, events, s)
    ensures Inv(cfg, s)
  {
    InvInit(cfg, rules);
    InvRun(cfg, Init(cfg, rules), events);
  }

  /** Permits are conserved, and come back when requests end, however they end. */
  lemma PermitsAreConserved(cfg: Config, rules: PolicyRules, events: seq<Event>, s: State)
    requires Reaches(cfg, rules, events, s)
    ensures s.available + |Where(s.requests, Holds)| == cfg.limit
    ensures (forall id :: id in s.requests ==> s.requests[id].pc.Completed? || s.requests[id].pc.Dropped?)
            ==> s.available == cfg.limit
  {
    ReachableInv(cfg, rules, events, s);
    if forall id :: id in s.requests ==> s.requests[id].pc.Completed? || s.requests[id].pc.Dropped? {
      assert forall id :: id in s.requests ==> RequestInv(cfg, s, s.requests[id]);
      assert Where(s.requests, Holds) == {};
    }
  }

  predicate CallsProvider(r: Request) {
    r.pc.Calling?
  }

  /** With a cap, no more provider calls are in flight than it allows; and a request is shed only when the cap is used up. */
  lemma CapIsRespected(cfg: Config, rules: PolicyRules, events: seq<Event>, s: State, id: RequestId)
    requires Reaches(cfg, rules, events, s) && cfg.limit > 0
    ensures |Where(s.requests, CallsProvider)| <= cfg.limit
    ensures id in s.requests && s.requests[id].pc.Authorized?
            ==> (Next(cfg, s, id, TryAcquire).value.requests[id].shed <==> |Where(s.requests, Holds)| == cfg.limit)
  {
    ReachableInv(cfg, rules, events, s);
    assert forall o :: o in s.requests ==> RequestInv(cfg, s, s.requests[o]);
    SubsetSize(Where(s.requests, CallsProvider), Where(s.requests, Holds));
  }

  /** Without a cap nobody is shed. */
  lemma NoCapNeverSheds(cfg: Config, rules: PolicyRules, events: seq<Event>, s: State, id: RequestId)
    requires Reaches(cfg, rules, events, s) && cfg.limit == 0 && id in s.requests
    ensures !s.requests[id].shed
  {
    ReachableInv(cfg, rules, events, s);
    assert RequestInv(cfg, s, s.requests[id]);
  }

  /** What a request holds is what came in for it: its header, its body and its answer. */
  predicate Traced(events: seq<Event>, id: RequestId, r: Request) {
    && Event(id, Arrive(r.header)) in events
    && (r.decoded.Some? ==> Event(id, Decode(r.decoded.value)) in events)
    && (r.answer.Some? ==> Event(id, Answer(r.answer.value)) in events)
  }

  ghost predicate AllTraced(events: seq<Event>, s: State) {
    forall id :: id in s.requests ==> Traced(events, id, s.requests[id])
  }

  /** A move of the request itself keeps what it had, and takes what came with the event. */
  lemma MovedIsTraced(cfg: Config, s: State, e: Event, past: seq<Event>, r: Request)
    requires Traced(past, e.request, r) && Moved(cfg, s, r, e.action).Some?
    ensures Traced(past + [e], e.request, Moved(cfg, s, r, e.action).value)
  {
    assert e in past + [e] && forall o :: o in past ==> o in past + [e];
  }

  lemma TracedStep(cfg: Config, s: State, e: Event, past: seq<Event>)
    requires AllTraced(past, s) && Next(cfg, s, e.request, e.action).Some?
    ensures AllTraced(past + [e], Next(cfg, s, e.request, e.action).value)
  {
    var u := Next(cfg, s, e.request, e.action).value;
    if e.request in s.requests && Moved(cfg, s, s.requests[e.request], e.action).Some? {
      MovedIsTraced(cfg, s, e, past, s.requests[e.request]);
    }
    forall id | id in u.requests
      ensures Traced(past + [e], id, u.requests[id])
    {
      assert e in past + [e] && forall o :: o in past ==> o in past + [e];
      if id != e.request || e.action.SwapPolicy? {
        assert Traced(past, id, s.requests[id]);
      }
    }
  }

  lemma {:induction false} TracedRun(cfg: Config, s: State, past: seq<Event>, events: seq<Event>)
    requires AllTraced(past, s) && Run(cfg, s, events).Some?
    ensures AllTraced(past + events, Run(cfg, s, events).value)
    decreases |events|
  {
    if events == [] {
      assert past + [] == past;
    } else {
      TracedStep(cfg, s, events[0], past);
      TracedRun(cfg, Next(cfg, s, events[0].request, events[0].action).value, past + [events[0]], events[1..]);
      assert past + [events[0]] + events[1..] == past + events;
    }
  }

  /** Requests do not mix: header, body and answer of each are those of its own events. */
  lemma InputsAreTheirOwn(cfg: Config, rules: PolicyRules, events: seq<Event>, s: State, id: RequestId)
    requires Reaches(cfg, rules, events, s) && id in s.requests
    ensures Traced(events, id, s.requests[id])
  {
    TracedRun(cfg, Init(cfg, rules), [], events);
    assert [] + events == events;
  }

  /** Judged, if at all, by the `n`th served policy or a later one. */
  predicate JudgedSince(s: State, id: RequestId, n: nat) {
    && n < |s.served|
    && (id in s.requests && s.requests[id].snapshot.Some? ==> n <= s.requests[id].snapshot.value)
  }

  lemma JudgedStep(cfg: Config, s: State, e: Event, id: RequestId, n: nat)
    requires JudgedSince(s, id, n) && Next(cfg, s, e.request, e.action).Some?
    ensures JudgedSince(Next(cfg, s, e.request, e.action).value, id, n)
  {
  }

  lemma {:induction false} JudgedRun(cfg: Config, s: State, events: seq<Event>, id: RequestId, n: nat)
    requires JudgedSince(s, id, n) && Run(cfg, s, events).Some?
    ensures JudgedSince(Run(cfg, s, events).value, id, n)
    decreases |events|
  {
    if events != [] {
      JudgedStep(cfg, s, events[0], id, n);
      JudgedRun(cfg, Next(cfg, s, events[0].request, events[0].action).value, events[1..], id, n);
    }
  }

  /** A policy swap takes effect at once: a request not yet judged when it happens is judged by it or by a later one. */
  lemma SwapTakesEffect(cfg: Config, s: State, events: seq<Event>, u: State, id: RequestId)
    requires s.served != [] && Run(cfg, s, events) == Some(u)
    requires id in s.requests ==> s.requests[id].snapshot.None?
    requires id in u.requests && u.requests[id].snapshot.Some?
    ensures |s.served| <= |u.served| && |s.served| - 1 <= u.requests[id].snapshot.value
  {
    JudgedRun(cfg, s, events, id, |s.served| - 1);
  }

  /** Whoever reaches the provider was authorized, was let in, and asked for a key that one served policy allows. */
  lemma OnlyClearedCallsReachTheProvider(cfg: Config, rules: PolicyRules, events: seq<Event>, s: State, id: RequestId)
    requires Reaches(cfg, rules, events, s) && id in s.requests
    ensures var r := s.requests[id];
            && r.calls <= 1
            && (r.pc.Calling? || r.answer.Some? ==> r.calls == 1)
            && (r.calls == 1 ==>
                  && IsAuthorized(cfg.auth, r.header) && !r.shed
                  && r.decoded.Some? && r.decoded.value.Ok?
                  && r.snapshot.Some? && r.arrivedUnder <= r.snapshot.value < |s.served|
                  && s.served[r.snapshot.value].Allows(Trim(r.decoded.value.value.key)))
  {
    ReachableInv(cfg, rules, events, s);
    var r := s.requests[id];
    assert RequestInv(cfg, s, r);
    if r.calls == 1 {
      var ref := r.decoded.value.value;
      AcceptedExactly(ref, TryFrom(ref).value);
    }
  }

  /** Interleaving does not show: a reply is what the request's own inputs and one policy snapshot call for. */
  lemma RepliesAreSequential(cfg: Config, rules: PolicyRules, events: seq<Event>, s: State, id: RequestId)
    requires Reaches(cfg, rules, events, s) && id in s.requests && s.requests[id].pc.Completed?
    ensures Explained(cfg, s, s.requests[id], s.requests[id].pc.reply)
  {
    ReachableInv(cfg, rules, events, s);
    assert RequestInv(cfg, s, s.requests[id]);
  }

  /** The counts over all labels add up to the requests recorded: every exit once, disconnects never. */
  lemma MetricsAreConserved(cfg: Config, rules: PolicyRules, events: seq<Event>, s: State)
    requires Reaches(cfg, rules, events, s)
    ensures Total(s.metrics) == |Where(s.requests, Counted)|
  {
    ReachableInv(cfg, rules, events, s);
    CountsAddUp(s.log);
  }

  /** Recorded with these labels. */
  function CountedAs(key: ResolveMetricKey): Request -> bool {
    r => Counted(r) && r.pc.reply.status == key.status && r.pc.reply.outcome == key.outcome
         && r.pc.reply.errorKind == key.errorKind
  }

  ghost predicate LogMatches(s: State, key: ResolveMetricKey) {
    |Under(s.log, key)| == |Where(s.requests, CountedAs(key))|
  }

  lemma LogMatchesStep(cfg: Config, s: State, id: RequestId, a: Action, key: ResolveMetricKey)
    requires Next(cfg, s, id, a).Some? && LogMatches(s, key)
    ensures LogMatches(Next(cfg, s, id, a).value, key)
  {
    var u := Next(cfg, s, id, a).value;
    if !a.SwapPolicy? {
      StepShape(cfg, s, id, a);
      WhereUpdate(s.requests, id, u.requests[id], CountedAs(key));
      if u.log != s.log {
        assert u.log[..|u.log| - 1] == s.log;
      }
    }
  }

  lemma {:induction false} LogMatchesRun(cfg: Config, s: State, events: seq<Event>, key: ResolveMetricKey)
    requires Run(cfg, s, events).Some? && LogMatches(s, key)
    ensures LogMatches(Run(cfg, s, events).value, key)
    decreases |events|
  {
    if events != [] {
      LogMatchesStep(cfg, s, events[0].request, events[0].action, key);
      LogMatchesRun(cfg, Next(cfg, s, events[0].request, events[0].action).value, events[1..], key);
    }
  }

  /** Each label combination counts exactly the requests that were answered so. */
  lemma EachReplyIsCounted(cfg: Config, rules: PolicyRules, events: seq<Event>, s: State, key: ResolveMetricKey)
    requires Reaches(cfg, rules, events, s)
    ensures (if key in s.metrics then s.metrics[key].count else 0) == |Where(s.requests, CountedAs(key))|
  {
    ReachableInv(cfg, rules, events, s);
    assert Where(Init(cfg, rules).requests, CountedAs(key)) == {};
    LogMatchesRun(cfg, Init(cfg, rules), events, key);
    RegistryMeaning(s.log, key);
    HistogramMeaning(Under(s.log, key));
  }

  /** What comes next for a request at this position, with some outcome for what it awaits. */
  function Pending(pc: Pc): Action {
    match pc
    case Arrived => Authorize
    case Authorized => TryAcquire
    case Decoding => Decode(Err(400))
    case Selecting => Select
    case Checking => Check
    case Calling => Answer(Err(Api(Http)))
    case Finishing(_) => Record(0)
    case Recorded(_) => Release
    case _ => Disconnect
  }

  /** No request waits for another: each has a step of its own until it ends, and can be dropped at each await. */
  lemma NoRequestIsStuck(cfg: Config, rules: PolicyRules, events: seq<Event>, s: State, id: RequestId)
    requires Reaches(cfg, rules, events, s) && id in s.requests
    requires !s.requests[id].pc.Completed? && !s.requests[id].pc.Dropped?
    ensures Next(cfg, s, id, Pending(s.requests[id].pc)).Some?
    ensures Next(cfg, s, id, Disconnect).Some? <==> s.requests[id].pc.Decoding? || s.requests[id].pc.Calling?
  {
    ReachableInv(cfg, rules, events, s);
    assert RequestInv(cfg, s, s.requests[id]);
    PendingIsEnabled(cfg, s, s.requests[id]);
    DropsAtAwaits(cfg, s, s.requests[id]);
  }

  lemma DropsAtAwaits(cfg: Config, s: State, r: Request)
    ensures Moved(cfg, s, r, Disconnect).Some? <==> r.pc.Decoding? || r.pc.Calling?
    ensures Moved(cfg, s, r, Disconnect).Some? ==> !Moved(cfg, s, r, Disconnect).value.holds
  {
  }

  lemma PendingIsEnabled(cfg: Config, s: State, r: Request)
    requires s.served != [] && RequestInv(cfg, s, r) && !r.pc.Completed? && !r.pc.Dropped?
    ensures var moved := Moved(cfg, s, r, Pending(r.pc)); moved.Some? && s.available + One(r.holds) >= One(moved.value.holds)
  {
  }
}
