/**
 The sign-in screen of the browser client (chat.js): the login and
 registration forms' normalisation and validation, the "remember me" slot of
 the browser storage, and how a login reply is interpreted. Browser storage
 is one optional string; the network reply is an input.
 */
module AuthForms {
  import opened Text

  // ---------------------------------------------------------------------
  // Login

  /** The login email as sent: trimmed, then lower-cased. */
  function NormalizeEmail(raw: string): (e: string)
    ensures |e| <= |raw|
    ensures e == "" <==> AllSatisfy(raw, IsJsSpace)
    ensures forall i :: 0 <= i < |e| ==> !IsUpper(e[i])
    ensures |e| == |JsTrim(raw)|
    ensures forall i :: 0 <= i < |e| ==> e[i] == LowerChar(raw[LeadingCount(raw, IsJsSpace) + i])
  {
    var t := JsTrim(raw);
    if t == "" then "" else ToLower(t)
  }

  /** Normalising twice changes nothing more. */
  lemma NormalizeEmailIdempotent(raw: string)
    ensures NormalizeEmail(NormalizeEmail(raw)) == NormalizeEmail(raw)
  {
    var t := JsTrim(raw);
    if t != "" {
      var e := ToLower(t);
      LowerKeepsSpaces(t[0]);
      LowerKeepsSpaces(t[|t| - 1]);
      TrimFixed(e, IsJsSpace);
      ToLowerIdempotent(t);
    }
  }

  datatype LoginRequest = LoginRequest(email: string, password: string, rememberMe: bool)

  /** The synchronous part of the login handler: the request it sends (None
      when a field is empty, after an alert) and the remembered-email slot
      afterwards. */
  datatype LoginStart = LoginStart(request: Option<LoginRequest>, remembered: Option<string>)

  function StartLogin(emailField: string, passwordField: string, rememberMe: bool, remembered: Option<string>): (s: LoginStart)
    ensures s.request.None? <==> NormalizeEmail(emailField) == "" || JsTrim(passwordField) == ""
    ensures s.request.None? ==> s.remembered == remembered
    ensures s.request.Some? ==>
      && s.request.value == LoginRequest(NormalizeEmail(emailField), JsTrim(passwordField), rememberMe)
      && s.remembered == (if rememberMe then Some(s.request.value.email) else None)
  {
    var email := NormalizeEmail(emailField);
    var password := JsTrim(passwordField);
    if email == "" || password == "" then LoginStart(None, remembered)
    else LoginStart(Some(LoginRequest(email, password, rememberMe)), if rememberMe then Some(email) else None)
  }

  /** What loadRememberedEmail puts in the email field and the checkbox. */
  function LoadRememberedEmail(remembered: Option<string>, emailField: string, checkbox: bool): (r: (string, bool))
    ensures Truthy(remembered) ==> r == (remembered.value, true)
    ensures !Truthy(remembered) ==> r == (emailField, checkbox)
  {
    if Truthy(remembered) then (remembered.value, true) else (emailField, checkbox)
  }

  /** Remember-me round trip: after a login with the box ticked, the next
      visit pre-fills the normalised email and ticks the box, and logging in
      again from that form sends the same email. */
  lemma RememberedEmailRoundTrip(emailField: string, password: string, before: Option<string>, laterField: string, laterBox: bool)
    requires StartLogin(emailField, password, true, before).request.Some?
    ensures var s := StartLogin(emailField, password, true, before);
      var (field, box) := LoadRememberedEmail(s.remembered, laterField, laterBox);
      && field == NormalizeEmail(emailField) && box
      && StartLogin(field, password, box, s.remembered) == s
  {
    NormalizeEmailIdempotent(emailField);
  }

  /** Unticking the box forgets the email, so the next visit leaves the
      form as it was. */
  lemma ForgottenEmailNotRestored(emailField: string, password: string, before: Option<string>, laterField: string, laterBox: bool)
    requires StartLogin(emailField, password, false, before).request.Some?
    ensures LoadRememberedEmail(StartLogin(emailField, password, false, before).remembered, laterField, laterBox)
      == (laterField, laterBox)
  {
  }

  /** Scenario: surrounding blanks and capitals are removed from the email. */
  lemma LoginNormalisationExample()
    ensures StartLogin("  Mom@Example.com ", " secret ", true, None)
      == LoginStart(Some(LoginRequest("mom@example.com", "secret", true)), Some("mom@example.com"))
  {
    ExampleEmailTrims();
    ExampleEmailLowers();
    ExamplePasswordTrims();
    var email := NormalizeEmail("  Mom@Example.com ");
    assert email == "mom@example.com";
  }

  lemma ExampleEmailTrims()
    ensures JsTrim("  Mom@Example.com ") == "Mom@Example.com"
  {
    assert "  Mom@Example.com " == "  " + "Mom@Example.com" + " ";
    TrimPadded("  ", "Mom@Example.com", " ", IsJsSpace);
  }

  lemma ExampleEmailLowers()
    ensures ToLower("Mom@Example.com") == "mom@example.com"
  {
  }

  lemma ExamplePasswordTrims()
    ensures JsTrim(" secret ") == "secret"
  {
    assert " secret " == " " + "secret" + " ";
    TrimPadded(" ", "secret", " ", IsJsSpace);
  }

  datatype UserInfo = UserInfo(name: string, id: Option<string>)

  /** The reply to POST /api/login: Unreachable when the request fails or
      the body is not JSON; otherwise the HTTP ok flag and the body fields
      the handler reads (`sucesso` records whether it is exactly true). */
  datatype LoginReply =
    | Unreachable
    | Replied(ok: bool, sucesso: bool, user: Option<UserInfo>, erro: Option<string>,
              mensagem: Option<string>, podeLogin: Option<bool>, email: Option<string>)

  datatype Session = Session(loggedIn: bool, userName: Option<string>, userId: string)

  datatype LoginNotice =
    | Welcome
    | OfferResend(message: string, to: string)
    | LoginAlert(message: string)

  const LoginFallbackError: string := "Erro ao fazer login"
  const LoginNetworkError: string := "\U{274C} Erro ao fazer login. Tente novamente."

  /** An unverified account, reported with an error: asked before anything else. */
  predicate Unverified(reply: LoginReply) {
    reply.Replied? && Truthy(reply.erro) && Truthy(reply.mensagem) && reply.podeLogin == Some(false)
  }

  predicate Accepted(reply: LoginReply) {
    reply.Replied? && reply.ok && (reply.sucesso || reply.user.Some?)
  }

  /** `data.erro || data.mensagem || 'Erro ao fazer login'`. */
  function LoginErrorText(reply: LoginReply): (t: string)
    requires reply.Replied?
    ensures t != ""
    ensures Truthy(reply.erro) ==> t == reply.erro.value
    ensures !Truthy(reply.erro) && Truthy(reply.mensagem) ==> t == reply.mensagem.value
  {
    if Truthy(reply.erro) then reply.erro.value
    else if Truthy(reply.mensagem) then reply.mensagem.value
    else LoginFallbackError
  }

  /** The handler after the reply arrives, for the normalised email sent. */
  function FinishLogin(s: Session, email: string, reply: LoginReply): (r: (Session, LoginNotice))
    ensures r.1 == Welcome <==> !Unverified(reply) && Accepted(reply)
    ensures r.1 != Welcome ==> r.0 == s
    ensures r.1 == Welcome ==>
      && r.0.loggedIn
      && r.0.userName == Some(if reply.user.Some? then reply.user.value.name else email)
      && r.0.userId == (if reply.user.Some? && Truthy(reply.user.value.id) then reply.user.value.id.value else s.userId)
    ensures Unverified(reply) ==>
      r.1 == OfferResend(reply.mensagem.value, if Truthy(reply.email) then reply.email.value else email)
    ensures reply.Unreachable? ==> r.1 == LoginAlert(LoginNetworkError)
    ensures reply.Replied? && !Unverified(reply) && !Accepted(reply) ==>
      r.1 == (if reply.podeLogin == Some(false) && Truthy(reply.mensagem)
              then OfferResend(reply.mensagem.value, email)
              else LoginAlert("\U{26A0}\U{FE0F} " + LoginErrorText(reply)))
  {
    match reply
    case Unreachable => (s, LoginAlert(LoginNetworkError))
    case Replied(ok, sucesso, user, erro, mensagem, podeLogin, replyEmail) =>
      if Truthy(erro) && Truthy(mensagem) && podeLogin == Some(false) then
        (s, OfferResend(mensagem.value, if Truthy(replyEmail) then replyEmail.value else email))
      else if ok && (sucesso || user.Some?) then
        var name := if user.Some? then user.value.name else email;
        var id := if user.Some? && Truthy(user.value.id) then user.value.id.value else s.userId;
        (Session(true, Some(name), id), Welcome)
      else if podeLogin == Some(false) && Truthy(mensagem) then
        (s, OfferResend(mensagem.value, email))
      else
        (s, LoginAlert("\U{26A0}\U{FE0F} " + LoginErrorText(reply)))
  }

  /** An unverified-account message wins even over a 200 reply that carries
      a user. */
  lemma UnverifiedNeverLogsIn(s: Session, email: string, reply: LoginReply)
    requires Unverified(reply)
    ensures FinishLogin(s, email, reply).0 == s
    ensures FinishLogin(s, email, reply).1.OfferResend?
  {
  }

  // ---------------------------------------------------------------------
  // Registration

  datatype RegisterRequest = RegisterRequest(name: string, email: string, password: string, babyName: string)

  datatype RegisterCheck =
    | MissingFields
    | ShortPassword
    | Send(request: RegisterRequest)

  /** Registration keeps the password exactly as typed and measures it in
      UTF-16 code units; name, email and baby name are trimmed (the email
      is not lower-cased). */
  function CheckRegister(nameField: string, emailField: string, password: string, babyField: string): (c: RegisterCheck)
    ensures c == MissingFields <==> JsTrim(nameField) == "" || JsTrim(emailField) == "" || password == ""
    ensures c == ShortPassword <==>
      JsTrim(nameField) != "" && JsTrim(emailField) != "" && password != "" && Utf16Length(password) < 6
    ensures c.Send? ==>
      && c.request == RegisterRequest(JsTrim(nameField), JsTrim(emailField), password, JsTrim(babyField))
      && Utf16Length(password) >= 6
  {
    var name := JsTrim(nameField);
    var email := JsTrim(emailField);
    if name == "" || email == "" || password == "" then MissingFields
    else if Utf16Length(password) < 6 then ShortPassword
    else Send(RegisterRequest(name, email, password, JsTrim(babyField)))
  }

  /** After a successful registration the login tab is shown with the
      registered email pre-filled; logging in from it sends the normalised
      form of that email. */
  lemma RegisteredEmailPrefillsLogin(name: string, email: string, password: string, baby: string, loginPassword: string)
    requires CheckRegister(name, email, password, baby).Send?
    requires JsTrim(loginPassword) != ""
    ensures var prefill := CheckRegister(name, email, password, baby).request.email;
      StartLogin(prefill, loginPassword, false, None).request == Some(LoginRequest(NormalizeEmail(email), JsTrim(loginPassword), false))
  {
    var t := JsTrim(email);
    TrimIdempotent(email, IsJsSpace);
    assert JsTrim(t) == t && t != "";
    assert NormalizeEmail(t) == NormalizeEmail(email);
    assert StartLogin(t, loginPassword, false, None).request.Some?;
  }

  /** Registration accepts a password that login can never send: login trims
      the password, registration does not. */
  lemma PaddedPasswordNotReproducible(name: string, email: string, baby: string, core: string,
                                      rememberMe: bool, remembered: Option<string>)
    requires JsTrim(name) != "" && JsTrim(email) != ""
    requires |core| >= 5 && !IsJsSpace(core[0]) && !IsJsSpace(core[|core| - 1])
    ensures CheckRegister(name, email, " " + core, baby).Send?
    ensures CheckRegister(name, email, " " + core, baby).request.password == " " + core
    ensures StartLogin(email, " " + core, rememberMe, remembered).request.Some?
    ensures StartLogin(email, " " + core, rememberMe, remembered).request.value.password == core
  {
    var padded := " " + core;
    assert padded == " " + core + "";
    TrimPadded(" ", core, "", IsJsSpace);
    assert JsTrim(padded) == core;
    assert Utf16Length(padded) >= 6;
    var c := CheckRegister(name, email, padded, baby);
    assert c != MissingFields && c != ShortPassword;
    assert NormalizeEmail(email) != "";
  }
}
