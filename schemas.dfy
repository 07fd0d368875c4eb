/** Request and response shapes of the login service and the field rules
    they impose: a name of 2 to 25 characters, a password of 5 to 50
    characters containing a lowercase letter, and an email accepted by the
    external email validator, which also normalizes it (the parameter
    `normEmail` throughout: the normalized address, or None for a refusal). */
module Schemas {
  import opened Models

  /** A JSON value as far as a `str` field cares: a string, null, or any
      other value (number, boolean, array, object), which a `str` field
      refuses. */
  datatype Json = JString(s: string) | JNull | JOther

  /** A JSON object received as a request body. Keys the schema does not
      declare are ignored. */
  type Body = map<string, Json>

  datatype AccountCreate = AccountCreate(name: string, email: string, password: string)

  datatype AccountLogin = AccountLogin(email: string, password: string)

  /** One optional field of a partial update: not sent, sent as null, or
      sent with a value. */
  datatype FieldUpdate = Unset | SetNull | SetValue(value: string)

  datatype AccountPartialUpdate = AccountPartialUpdate(name: FieldUpdate, email: FieldUpdate, password: FieldUpdate)

  datatype AccountRead = AccountRead(id: int, name: string, email: string, password: string)

  // ---------- Field rules ----------

  predicate IsLower(c: char) {
    'a' <= c <= 'z'
  }

  /** Unanchored search for the pattern `[a-z]`: the position of the first
      lowercase letter, if any. */
  function SearchLower(s: string): (r: Option<nat>)
    ensures r.Some? ==> r.value < |s| && IsLower(s[r.value])
    ensures r.Some? ==> forall j :: 0 <= j < r.value ==> !IsLower(s[j])
    ensures r.None? ==> forall j :: 0 <= j < |s| ==> !IsLower(s[j])
  {
    if s == [] then None
    else if IsLower(s[0]) then Some(0)
    else
      match SearchLower(s[1..])
      case None => None
      case Some(k) => Some(k + 1)
  }

  predicate NameOk(s: string) {
    2 <= |s| <= 25
  }

  predicate PasswordOk(s: string) {
    5 <= |s| <= 50 && SearchLower(s).Some?
  }

  /** The password rule in plain terms: the length bounds, and a lowercase
      letter anywhere in the string. */
  lemma PasswordRule(s: string)
    ensures PasswordOk(s) <==> 5 <= |s| <= 50 && exists i :: 0 <= i < |s| && IsLower(s[i])
  {
    if 5 <= |s| <= 50 && exists i :: 0 <= i < |s| && IsLower(s[i]) {
      var i :| 0 <= i < |s| && IsLower(s[i]);
      assert SearchLower(s).Some?;
    }
  }

  /** The name field's validator: the name as sent, or a refusal. */
  function NameField(s: string): Option<string> {
    if NameOk(s) then Some(s) else None
  }

  /** The password field's validator: the password as sent, or a refusal. */
  function PasswordField(s: string): Option<string> {
    if PasswordOk(s) then Some(s) else None
  }

  /** A field validator that rewrites a value it accepts leaves the rewritten
      value as it is. Constraint-only fields are like this by definition; for
      the email validator it is a hypothesis about its normalization. */
  ghost predicate Idempotent(check: string -> Option<string>) {
    forall s :: check(s).Some? ==> check(check(s).value) == check(s)
  }

  lemma FieldValidators()
    ensures forall s :: NameField(s) == Some(s) <==> NameOk(s)
    ensures forall s :: PasswordField(s) == Some(s) <==> PasswordOk(s)
    ensures Idempotent(NameField) && Idempotent(PasswordField)
  {
  }

  /** A payload's email is an address in normal form: the validator accepts
      it and gives it back unchanged. */
  predicate NormalEmail(e: string, normEmail: string -> Option<string>) {
    normEmail(e) == Some(e)
  }

  predicate CreateOk(p: AccountCreate, normEmail: string -> Option<string>) {
    NameOk(p.name) && NormalEmail(p.email, normEmail) && PasswordOk(p.password)
  }

  predicate LoginOk(p: AccountLogin, normEmail: string -> Option<string>) {
    NormalEmail(p.email, normEmail) && PasswordOk(p.password)
  }

  /** A supplied value is one its field's validator keeps as it is; null and
      absence are accepted. */
  predicate UpdateOk(u: FieldUpdate, check: string -> Option<string>) {
    u.SetValue? ==> check(u.value) == Some(u.value)
  }

  predicate PartialOk(p: AccountPartialUpdate, normEmail: string -> Option<string>) {
    UpdateOk(p.name, NameField) && UpdateOk(p.email, normEmail) && UpdateOk(p.password, PasswordField)
  }

  /** The response shape: an integer id plus the sign-up rules on every field. */
  predicate ReadOk(r: AccountRead, normEmail: string -> Option<string>) {
    NameOk(r.name) && NormalEmail(r.email, normEmail) && PasswordOk(r.password)
  }

  /** The response body for the record stored under `id`. */
  function ToRead(id: int, a: Account): AccountRead {
    AccountRead(id, a.name, a.email, a.password)
  }

  /** A record built from a valid sign-up payload passes the response shape,
      whatever id it is given. */
  lemma CreatedIsReadable(p: AccountCreate, id: int, normEmail: string -> Option<string>)
    requires CreateOk(p, normEmail)
    ensures ReadOk(ToRead(id, Account(p.name, p.email, p.password)), normEmail)
  {
  }

  // ---------- Parsing request bodies ----------

  predicate IsText(body: Body, key: string) {
    key in body && body[key].JString?
  }

  /** A required `str` field: present and a JSON string. */
  function TextField(body: Body, key: string): (r: Option<string>)
    ensures r.Some? <==> IsText(body, key)
    ensures r.Some? ==> r.value == body[key].s
  {
    if key in body then
      match body[key]
      case JString(s) => Some(s)
      case _ => None
    else None
  }

  /** Validation of a sign-up body; None is the 422 rejection. The payload
      carries the name and password as sent and the email as the validator
      normalized it. */
  function ParseCreate(body: Body, normEmail: string -> Option<string>): (r: Option<AccountCreate>)
    ensures r.Some? <==>
      IsText(body, "name") && IsText(body, "email") && IsText(body, "password") &&
      NameOk(body["name"].s) && normEmail(body["email"].s).Some? && PasswordOk(body["password"].s)
    ensures r.Some? ==>
      r.value.name == body["name"].s && Some(r.value.email) == normEmail(body["email"].s) &&
      r.value.password == body["password"].s
    ensures r.Some? && Idempotent(normEmail) ==> CreateOk(r.value, normEmail)
  {
    match (TextField(body, "name"), TextField(body, "email"), TextField(body, "password"))
    case (Some(n), Some(e), Some(pw)) =>
      if NameOk(n) && normEmail(e).Some? && PasswordOk(pw) then Some(AccountCreate(n, normEmail(e).value, pw)) else None
    case _ => None
  }

  /** Validation of a sign-in body; an ill-formed password is refused here,
      before the table is consulted, and the email is normalized. */
  function ParseLogin(body: Body, normEmail: string -> Option<string>): (r: Option<AccountLogin>)
    ensures r.Some? <==>
      IsText(body, "email") && IsText(body, "password") &&
      normEmail(body["email"].s).Some? && PasswordOk(body["password"].s)
    ensures r.Some? ==> Some(r.value.email) == normEmail(body["email"].s) && r.value.password == body["password"].s
    ensures r.Some? && Idempotent(normEmail) ==> LoginOk(r.value, normEmail)
  {
    match (TextField(body, "email"), TextField(body, "password"))
    case (Some(e), Some(pw)) =>
      if normEmail(e).Some? && PasswordOk(pw) then Some(AccountLogin(normEmail(e).value, pw)) else None
    case _ => None
  }

  /** One optional field: absent is Unset, null is SetNull, a string is
      passed through the field's validator `check`; anything else, or a
      string the validator refuses, is refused (None). */
  function ParseOptional(body: Body, key: string, check: string -> Option<string>): (r: Option<FieldUpdate>)
    ensures r == Some(Unset) <==> key !in body
    ensures r == Some(SetNull) <==> key in body && body[key].JNull?
    ensures r.None? <==> key in body && (body[key].JOther? || (body[key].JString? && check(body[key].s).None?))
    ensures r.Some? && r.value.SetValue? ==>
      key in body && body[key].JString? && check(body[key].s) == Some(r.value.value)
    ensures r.Some? && Idempotent(check) ==> UpdateOk(r.value, check)
  {
    if key !in body then Some(Unset)
    else
      match body[key]
      case JNull => Some(SetNull)
      case JString(s) => if check(s).Some? then Some(SetValue(check(s).value)) else None
      case JOther => None
  }

  /** Validation of a partial-update body: every field is optional. */
  function ParsePartial(body: Body, normEmail: string -> Option<string>): (r: Option<AccountPartialUpdate>)
    ensures r.Some? && Idempotent(normEmail) ==> PartialOk(r.value, normEmail)
    ensures r.Some? ==>
      (r.value.name.Unset? <==> "name" !in body) &&
      (r.value.email.Unset? <==> "email" !in body) &&
      (r.value.password.Unset? <==> "password" !in body)
    ensures r.None? <==>
      ("name" in body && (body["name"].JOther? || (body["name"].JString? && !NameOk(body["name"].s)))) ||
      ("email" in body && (body["email"].JOther? || (body["email"].JString? && normEmail(body["email"].s).None?))) ||
      ("password" in body && (body["password"].JOther? || (body["password"].JString? && !PasswordOk(body["password"].s))))
    ensures r.Some? ==>
      (r.value.name.SetNull? <==> "name" in body && body["name"].JNull?) &&
      (r.value.email.SetNull? <==> "email" in body && body["email"].JNull?) &&
      (r.value.password.SetNull? <==> "password" in body && body["password"].JNull?)
    ensures r.Some? ==>
      (r.value.name.SetValue? ==> IsText(body, "name") && NameField(body["name"].s) == Some(r.value.name.value)) &&
      (r.value.email.SetValue? ==> IsText(body, "email") && normEmail(body["email"].s) == Some(r.value.email.value)) &&
      (r.value.password.SetValue? ==>
        IsText(body, "password") && PasswordField(body["password"].s) == Some(r.value.password.value))
    ensures body == map[] ==> r == Some(AccountPartialUpdate(Unset, Unset, Unset))
  {
    FieldValidators();
    match (ParseOptional(body, "name", NameField), ParseOptional(body, "email", normEmail),
           ParseOptional(body, "password", PasswordField))
    case (Some(n), Some(e), Some(pw)) => Some(AccountPartialUpdate(n, e, pw))
    case _ => None
  }

  // ---------- Encoding payloads as request bodies ----------

  function CreateBody(p: AccountCreate): Body {
    map["name" := JString(p.name), "email" := JString(p.email), "password" := JString(p.password)]
  }

  function OptionalEntry(key: string, u: FieldUpdate): Body {
    match u
    case Unset => map[]
    case SetNull => map[key := JNull]
    case SetValue(s) => map[key := JString(s)]
  }

  /** The body a client sends for a partial update: only the fields it sets. */
  function PartialBody(p: AccountPartialUpdate): Body {
    OptionalEntry("name", p.name) + OptionalEntry("email", p.email) + OptionalEntry("password", p.password)
  }

  /** Validating the body of a sign-up payload accepts it iff its name and
      password meet their rules and the validator accepts its email, and then
      gives the payload back with the email normalized; so the payload comes
      back unchanged exactly when it meets the rules with its email already
      in normal form. */
  lemma CreateRoundTrip(p: AccountCreate, normEmail: string -> Option<string>)
    ensures ParseCreate(CreateBody(p), normEmail) ==
      if NameOk(p.name) && normEmail(p.email).Some? && PasswordOk(p.password)
      then Some(p.(email := normEmail(p.email).value)) else None
    ensures ParseCreate(CreateBody(p), normEmail) == Some(p) <==> CreateOk(p, normEmail)
  {
  }

  /** The same for partial updates: absent stays absent, null stays null, and
      the payload comes back unchanged exactly when every supplied value is
      one its validator keeps as it is. */
  lemma PartialRoundTrip(p: AccountPartialUpdate, normEmail: string -> Option<string>)
    ensures ParsePartial(PartialBody(p), normEmail) == Some(p) <==> PartialOk(p, normEmail)
    ensures ParsePartial(PartialBody(p), normEmail).None? <==>
      (p.name.SetValue? && !NameOk(p.name.value)) ||
      (p.email.SetValue? && normEmail(p.email.value).None?) ||
      (p.password.SetValue? && !PasswordOk(p.password.value))
  {
    var body := PartialBody(p);
    SentFieldParses(body, "name", p.name, NameField);
    SentFieldParses(body, "email", p.email, normEmail);
    SentFieldParses(body, "password", p.password, PasswordField);
  }

  /** Validating one field of an encoded payload: it comes back unchanged iff
      its validator keeps it, and is refused iff its validator refuses it. */
  lemma SentFieldParses(body: Body, key: string, u: FieldUpdate, check: string -> Option<string>)
    requires key in body <==> !u.Unset?
    requires key in body ==> body[key] == OptionalEntry(key, u)[key]
    ensures ParseOptional(body, key, check) == Some(u) <==> UpdateOk(u, check)
    ensures ParseOptional(body, key, check).None? <==> u.SetValue? && check(u.value).None?
  {
  }

  // ---------- model_dump(exclude_unset=True) ----------

  function Update(p: AccountPartialUpdate, c: Column): FieldUpdate {
    match c
    case Name => p.name
    case Email => p.email
    case Password => p.password
  }

  /** The value a sent field carries to the ORM: null or a string. */
  function Nullable(u: FieldUpdate): Option<string>
    requires !u.Unset?
  {
    if u.SetNull? then None else Some(u.value)
  }

  function Dumped(c: Column, u: FieldUpdate): seq<(Column, Option<string>)> {
    if u.Unset? then [] else [(c, Nullable(u))]
  }

  /** The fields that were sent, each once, in declaration order, with the
      value sent (null included); unsent fields do not appear. */
  function ModelDump(p: AccountPartialUpdate): (d: seq<(Column, Option<string>)>)
    ensures |d| <= 3
    ensures forall i :: 0 <= i < |d| ==> !Update(p, d[i].0).Unset? && d[i].1 == Nullable(Update(p, d[i].0))
    ensures forall i, j :: 0 <= i < j < |d| ==> d[i].0 != d[j].0
    ensures forall c :: !Update(p, c).Unset? ==> exists i :: 0 <= i < |d| && d[i].0 == c
  {
    var d := Dumped(Name, p.name) + Dumped(Email, p.email) + Dumped(Password, p.password);
    assert forall c :: !Update(p, c).Unset? ==> exists i :: 0 <= i < |d| && d[i].0 == c by {
      forall c | !Update(p, c).Unset? ensures exists i :: 0 <= i < |d| && d[i].0 == c {
        var i := match c
          case Name => 0
          case Email => |Dumped(Name, p.name)|
          case Password => |Dumped(Name, p.name)| + |Dumped(Email, p.email)|;
        assert d[i].0 == c;
      }
    }
    d
  }
}
