/**
 Request-body validation (src/middleware/validation.js). A schema is data: a
 list of field rules. `ValueErrors` collects EVERY violation (Joi's
 `abortEarly: false`), `Conforms` says declaratively what an acceptable body
 is, and the two agree: a body is accepted exactly when no error is collected.
 `Check` is the `validateRequest` middleware: a value or a non-empty error
 list, never both.
 */
module Validation {
  import opened Common
  import opened Text
  import opened TaskModel

  /** A parsed JSON value. Dates travel as integer milliseconds. */
  datatype Json =
    | JString(s: string)
    | JNumber(n: int)
    | JBool(b: bool)
    | JNull
    | JArray(items: seq<Json>)
    | JObject(members: seq<Member>)

  datatype Member = Member(key: string, value: Json)

  /** A request body: the members of a JSON object, in order. */
  type Body = seq<Member>

  /** The value stored under `key`, if any. */
  function Lookup(members: seq<Member>, key: string): (r: Option<Json>)
    ensures r.Some? <==> exists i :: 0 <= i < |members| && members[i].key == key
  {
    if |members| == 0 then None
    else if members[0].key == key then Some(members[0].value)
    else Lookup(members[1..], key)
  }

  /** Joi's element of an error path: an object key or an array index. */
  datatype PathSegment = Key(name: string) | Index(i: nat)

  datatype Violation =
    | Required
    | NotAllowed
    | NotString
    | NotBoolean
    | NotDate
    | NotArray
    | NotObject
    | TooShort(min: nat)
    | TooLong(max: nat)
    | NotAlphanumeric
    | NotEmail
    | NotOneOf(allowed: seq<string>)
    | TooFewKeys(minKeys: nat)

  /** One entry of the `details` list: the offending field and what is wrong with it. */
  datatype FieldError = FieldError(path: seq<PathSegment>, violation: Violation)

  /** A rule on a string value, checked in the order the schema lists it. */
  datatype StringRule =
    | MinLength(n: nat)
    | MaxLength(n: nat)
    | Alphanumeric
    | Email
    | OneOf(values: seq<string>)

  datatype FieldKind =
    | StringField(rules: seq<StringRule>)
    | DateField
    | BooleanField
    | StringArrayField
    | ObjectField(fields: seq<FieldSpec>, minKeys: nat)

  datatype FieldSpec = FieldSpec(key: string, required: bool, kind: FieldKind)

  /** The outcome of `validateRequest`. */
  datatype Validated<+T> = Valid(value: T) | Invalid(errors: seq<FieldError>)

  /** Whether string `s` passes `rule`. The e-mail grammar is the parameter `isEmail`. */
  predicate RuleHolds(rule: StringRule, s: string, isEmail: string -> bool) {
    match rule
    case MinLength(n) => Utf16Length(s) >= n
    case MaxLength(n) => Utf16Length(s) <= n
    case Alphanumeric => IsAlphanumeric(s)
    case Email => isEmail(s)
    case OneOf(values) => s in values
  }

  function RuleViolation(rule: StringRule): Violation {
    match rule
    case MinLength(n) => TooShort(n)
    case MaxLength(n) => TooLong(n)
    case Alphanumeric => NotAlphanumeric
    case Email => NotEmail
    case OneOf(values) => NotOneOf(values)
  }

  predicate IsKnownKey(key: string, fields: seq<FieldSpec>) {
    exists j :: 0 <= j < |fields| && fields[j].key == key
  }

  /** Declarative meaning of a schema: what a value must look like to be accepted. */
  predicate Conforms(v: Json, kind: FieldKind, isEmail: string -> bool)
    decreases kind
  {
    match kind
    case StringField(rules) =>
      v.JString? && forall k :: 0 <= k < |rules| ==> RuleHolds(rules[k], v.s, isEmail)
    case DateField => v.JNumber? && InTimeRange(v.n)
    case BooleanField => v.JBool?
    case StringArrayField =>
      v.JArray? && forall k :: 0 <= k < |v.items| ==> v.items[k].JString?
    case ObjectField(fields, minKeys) =>
      && v.JObject?
      && |v.members| >= minKeys
      && (forall i :: 0 <= i < |v.members| ==> IsKnownKey(v.members[i].key, fields))
      && (forall j :: 0 <= j < |fields| ==> FieldConforms(v.members, fields[j], isEmail))
  }

  /** A field is absent and optional, or present and conforming. */
  predicate FieldConforms(members: seq<Member>, f: FieldSpec, isEmail: string -> bool)
    decreases f
  {
    match Lookup(members, f.key)
    case None => !f.required
    case Some(v) => Conforms(v, f.kind, isEmail)
  }

  /** One error for each rule the string breaks, in rule order. */
  function StringErrors(path: seq<PathSegment>, s: string, rules: seq<StringRule>,
                        isEmail: string -> bool): (errs: seq<FieldError>)
    ensures |errs| == 0 <==> forall k :: 0 <= k < |rules| ==> RuleHolds(rules[k], s, isEmail)
    ensures forall k :: 0 <= k < |rules| && !RuleHolds(rules[k], s, isEmail) ==>
              FieldError(path, RuleViolation(rules[k])) in errs
    ensures forall e :: e in errs ==> e.path == path
  {
    if |rules| == 0 then []
    else
      var rest := StringErrors(path, s, rules[1..], isEmail);
      assert forall k :: 1 <= k < |rules| ==> rules[k] == rules[1..][k - 1];
      if RuleHolds(rules[0], s, isEmail) then rest
      else [FieldError(path, RuleViolation(rules[0]))] + rest
  }

  /** One error per array element that is not a string, from element `k` on. */
  function ItemErrors(path: seq<PathSegment>, items: seq<Json>, k: nat): (errs: seq<FieldError>)
    requires k <= |items|
    ensures |errs| == 0 <==> forall m :: k <= m < |items| ==> items[m].JString?
    decreases |items| - k
  {
    if k == |items| then []
    else
      (if items[k].JString? then [] else [FieldError(path + [Index(k)], NotString)])
      + ItemErrors(path, items, k + 1)
  }

  /** The allowed-values errors of a value that is not a string: Joi checks `valid(...)`
      before the base type, so such a value breaks every allowed-values rule as well. */
  function OnlyErrors(path: seq<PathSegment>, rules: seq<StringRule>): (errs: seq<FieldError>)
    ensures forall k :: 0 <= k < |rules| && rules[k].OneOf? ==>
              FieldError(path, NotOneOf(rules[k].values)) in errs
    ensures forall e :: e in errs ==> e.path == path && e.violation.NotOneOf?
  {
    if |rules| == 0 then []
    else
      var rest := OnlyErrors(path, rules[1..]);
      assert forall k :: 1 <= k < |rules| ==> rules[k] == rules[1..][k - 1];
      (if rules[0].OneOf? then [FieldError(path, NotOneOf(rules[0].values))] else []) + rest
  }

  /** Every violation found in value `v` checked against `kind`. */
  function ValueErrors(path: seq<PathSegment>, v: Json, kind: FieldKind,
                       isEmail: string -> bool): (errs: seq<FieldError>)
    ensures |errs| == 0 <==> Conforms(v, kind, isEmail)
    decreases kind, 1
  {
    match kind
    case StringField(rules) =>
      if v.JString? then StringErrors(path, v.s, rules, isEmail)
      else OnlyErrors(path, rules) + [FieldError(path, NotString)]
    case DateField =>
      if v.JNumber? && InTimeRange(v.n) then [] else [FieldError(path, NotDate)]
    case BooleanField =>
      if v.JBool? then [] else [FieldError(path, NotBoolean)]
    case StringArrayField =>
      if v.JArray? then ItemErrors(path, v.items, 0) else [FieldError(path, NotArray)]
    case ObjectField(fields, minKeys) =>
      if v.JObject?
      then
        FieldsErrors(path, v.members, fields, 0, isEmail)
        + UnknownKeyErrors(path, v.members, fields, 0)
        + (if |v.members| < minKeys then [FieldError(path, TooFewKeys(minKeys))] else [])
      else [FieldError(path, NotObject)]
  }

  /** The errors of field `f`: `Required` when it is missing and required. */
  function FieldErrors(path: seq<PathSegment>, members: seq<Member>, f: FieldSpec,
                       isEmail: string -> bool): (errs: seq<FieldError>)
    ensures |errs| == 0 <==> FieldConforms(members, f, isEmail)
    decreases f
  {
    match Lookup(members, f.key)
    case None => if f.required then [FieldError(path + [Key(f.key)], Required)] else []
    case Some(v) => ValueErrors(path + [Key(f.key)], v, f.kind, isEmail)
  }

  /** The errors of fields `j..` of a schema, in schema order; none is skipped. */
  function FieldsErrors(path: seq<PathSegment>, members: seq<Member>, fields: seq<FieldSpec>,
                        j: nat, isEmail: string -> bool): (errs: seq<FieldError>)
    requires j <= |fields|
    ensures |errs| == 0 <==> forall m :: j <= m < |fields| ==> FieldConforms(members, fields[m], isEmail)
    ensures forall m, e :: j <= m < |fields| && e in FieldErrors(path, members, fields[m], isEmail) ==> e in errs
    decreases fields, |fields| - j
  {
    if j == |fields| then []
    else FieldErrors(path, members, fields[j], isEmail) + FieldsErrors(path, members, fields, j + 1, isEmail)
  }

  /** A `NotAllowed` error for each member, from position `i` on, whose key the schema does not list. */
  function UnknownKeyErrors(path: seq<PathSegment>, members: seq<Member>, fields: seq<FieldSpec>,
                            i: nat): (errs: seq<FieldError>)
    requires i <= |members|
    ensures |errs| == 0 <==> forall m :: i <= m < |members| ==> IsKnownKey(members[m].key, fields)
    ensures forall m :: i <= m < |members| && !IsKnownKey(members[m].key, fields) ==>
              FieldError(path + [Key(members[m].key)], NotAllowed) in errs
    decreases |members| - i
  {
    if i == |members| then []
    else
      (if IsKnownKey(members[i].key, fields) then [] else [FieldError(path + [Key(members[i].key)], NotAllowed)])
      + UnknownKeyErrors(path, members, fields, i + 1)
  }

  /** `validateRequest(schema)`: the body goes on, shaped by `build`, exactly when it
      conforms; otherwise the full error list is returned and nothing goes on. */
  function Check<T>(schema: FieldKind, body: Body, isEmail: string -> bool, build: Body -> T): (r: Validated<T>)
    requires schema.ObjectField?
    ensures r.Valid? <==> Conforms(JObject(body), schema, isEmail)
    ensures r.Valid? ==> r.value == build(body)
    ensures r.Invalid? ==> |r.errors| > 0 && r.errors == ValueErrors([], JObject(body), schema, isEmail)
  {
    var errors := ValueErrors([], JObject(body), schema, isEmail);
    if |errors| == 0 then Valid(build(body)) else Invalid(errors)
  }

  // ---------------------------------------------------------------------------
  // The schemas

  function StringAt(body: Body, key: string): string {
    match Lookup(body, key)
    case Some(JString(s)) => s
    case _ => ""
  }

  function OptStringAt(body: Body, key: string): Option<string> {
    match Lookup(body, key)
    case Some(JString(s)) => Some(s)
    case _ => None
  }

  function DateAt(body: Body, key: string): Option<int> {
    match Lookup(body, key)
    case Some(JNumber(n)) => Some(n)
    case _ => None
  }

  function BoolAt(body: Body, key: string): Option<bool> {
    match Lookup(body, key)
    case Some(JBool(b)) => Some(b)
    case _ => None
  }

  function StringsAt(body: Body, key: string): Option<seq<string>> {
    match Lookup(body, key)
    case Some(JArray(items)) =>
      Some(seq(|items|, k requires 0 <= k < |items| => if items[k].JString? then items[k].s else ""))
    case _ => None
  }

  function PriorityAt(body: Body): Option<Priority> {
    match OptStringAt(body, "priority")
    case Some(s) => ParsePriority(s)
    case None => None
  }

  function StatusAt(body: Body): Option<Status> {
    match OptStringAt(body, "status")
    case Some(s) => ParseStatus(s)
    case None => None
  }

  function RecurringAt(body: Body): Option<RecurringDraft> {
    match Lookup(body, "recurring")
    case Some(JObject(ms)) =>
      var frequency := match OptStringAt(ms, "frequency")
        case Some(s) => ParseFrequency(s)
        case None => None;
      Some(RecurringDraft(BoolAt(ms, "enabled"), frequency))
    case _ => None
  }

  const RegisterSchema: FieldKind := ObjectField([
    FieldSpec("username", true, StringField([Alphanumeric, MinLength(3), MaxLength(30)])),
    FieldSpec("email", true, StringField([Email])),
    FieldSpec("password", true, StringField([MinLength(6)]))
  ], 0)

  const LoginSchema: FieldKind := ObjectField([
    FieldSpec("email", true, StringField([Email])),
    FieldSpec("password", true, StringField([]))
  ], 0)

  const RecurringSchema: FieldKind := ObjectField([
    FieldSpec("enabled", false, BooleanField),
    FieldSpec("frequency", false, StringField([OneOf(FrequencyNames)]))
  ], 0)

  const TaskSchema: FieldKind := ObjectField([
    FieldSpec("title", true, StringField([MaxLength(TitleMaxLength)])),
    FieldSpec("description", false, StringField([MaxLength(DescriptionMaxLength)])),
    FieldSpec("priority", false, StringField([OneOf(PriorityNames)])),
    FieldSpec("status", false, StringField([OneOf(StatusNames)])),
    FieldSpec("deadline", false, DateField),
    FieldSpec("tags", false, StringArrayField),
    FieldSpec("recurring", false, RecurringSchema)
  ], 0)

  const UpdateTaskSchema: FieldKind := ObjectField([
    FieldSpec("title", false, StringField([MaxLength(TitleMaxLength)])),
    FieldSpec("description", false, StringField([MaxLength(DescriptionMaxLength)])),
    FieldSpec("priority", false, StringField([OneOf(PriorityNames)])),
    FieldSpec("status", false, StringField([OneOf(StatusNames)])),
    FieldSpec("deadline", false, DateField),
    FieldSpec("tags", false, StringArrayField)
  ], 1)

  datatype RegisterInput = RegisterInput(username: string, email: string, password: string)
  datatype LoginInput = LoginInput(email: string, password: string)

  /** A validated create body, with the `priority` and `status` defaults applied. */
  datatype TaskInput = TaskInput(
    title: string,
    description: Option<string>,
    priority: Priority,
    status: Status,
    deadline: Option<int>,
    tags: Option<seq<string>>,
    recurring: Option<RecurringDraft>)

  /** A validated update body: only the submitted fields are present. */
  datatype TaskPatch = TaskPatch(
    title: Option<string>,
    description: Option<string>,
    priority: Option<Priority>,
    status: Option<Status>,
    deadline: Option<int>,
    tags: Option<seq<string>>)

  /** The e-mail rule is not used by the task schemas. */
  predicate NoEmailRule(s: string) {
    true
  }

  function ValidateRegister(body: Body, isEmail: string -> bool): (r: Validated<RegisterInput>)
  {
    Check(RegisterSchema, body, isEmail,
      b => RegisterInput(StringAt(b, "username"), StringAt(b, "email"), StringAt(b, "password")))
  }

  function ValidateLogin(body: Body, isEmail: string -> bool): (r: Validated<LoginInput>)
  {
    Check(LoginSchema, body, isEmail, b => LoginInput(StringAt(b, "email"), StringAt(b, "password")))
  }

  function ValidateTask(body: Body): (r: Validated<TaskInput>)
    ensures r.Valid? <==> Conforms(JObject(body), TaskSchema, NoEmailRule)
    ensures r.Invalid? ==> |r.errors| > 0
  {
    Check(TaskSchema, body, NoEmailRule,
      b => TaskInput(
        StringAt(b, "title"), OptStringAt(b, "description"),
        PriorityAt(b).GetOr(Medium), StatusAt(b).GetOr(Pending),
        DateAt(b, "deadline"), StringsAt(b, "tags"), RecurringAt(b)))
  }

  function ValidateUpdate(body: Body): (r: Validated<TaskPatch>)
    ensures r.Valid? <==> Conforms(JObject(body), UpdateTaskSchema, NoEmailRule)
    ensures r.Invalid? ==> |r.errors| > 0
  {
    Check(UpdateTaskSchema, body, NoEmailRule,
      b => TaskPatch(
        OptStringAt(b, "title"), OptStringAt(b, "description"),
        PriorityAt(b), StatusAt(b), DateAt(b, "deadline"), StringsAt(b, "tags")))
  }

  // ---------------------------------------------------------------------------
  // What each schema accepts, stated field by field

  predicate HasString(body: Body, key: string) {
    Lookup(body, key).Some? && Lookup(body, key).value.JString?
  }

  /** The field is absent, or it is a string that passes `ok`. */
  predicate OptionalString(body: Body, key: string, ok: string -> bool) {
    Lookup(body, key).None? || (HasString(body, key) && ok(StringAt(body, key)))
  }

  /** Every member's key is one of `keys`. */
  predicate OnlyKeys(body: Body, keys: seq<string>) {
    forall i :: 0 <= i < |body| ==> body[i].key in keys
  }

  function KeysOf(fields: seq<FieldSpec>): (keys: seq<string>)
    ensures |keys| == |fields|
    ensures forall j :: 0 <= j < |fields| ==> keys[j] == fields[j].key
  {
    seq(|fields|, j requires 0 <= j < |fields| => fields[j].key)
  }

  lemma KnownKeys(fields: seq<FieldSpec>)
    ensures forall key :: IsKnownKey(key, fields) <==> key in KeysOf(fields)
  {
    forall key | key in KeysOf(fields)
      ensures IsKnownKey(key, fields)
    {
      var j :| 0 <= j < |fields| && KeysOf(fields)[j] == key;
    }
  }

  /** The members of an object conform to an object schema exactly when the keys are
      known, there are enough of them, and every field conforms. */
  lemma ObjectConforms(body: Body, fields: seq<FieldSpec>, minKeys: nat, isEmail: string -> bool)
    ensures Conforms(JObject(body), ObjectField(fields, minKeys), isEmail) <==>
      && |body| >= minKeys
      && OnlyKeys(body, KeysOf(fields))
      && (forall j :: 0 <= j < |fields| ==> FieldConforms(body, fields[j], isEmail))
  {
    KnownKeys(fields);
  }

  /** A string field conforms when it is absent and optional, or is a string
      passing each of its rules. */
  lemma StringFieldConforms(body: Body, f: FieldSpec, isEmail: string -> bool)
    requires f.kind.StringField?
    ensures FieldConforms(body, f, isEmail) <==>
      if Lookup(body, f.key).None? then !f.required
      else (HasString(body, f.key) &&
        forall k :: 0 <= k < |f.kind.rules| ==> RuleHolds(f.kind.rules[k], StringAt(body, f.key), isEmail))
  {
  }

  lemma RegisterUsernameField(body: Body, isEmail: string -> bool)
    ensures FieldConforms(body, RegisterSchema.fields[0], isEmail) <==>
      HasString(body, "username") && IsAlphanumeric(StringAt(body, "username"))
      && 3 <= Utf16Length(StringAt(body, "username")) <= 30
  {
    var f := RegisterSchema.fields[0];
    var u := StringAt(body, "username");
    var rules := f.kind.rules;
    StringFieldConforms(body, f, isEmail);
    assert rules == [Alphanumeric, MinLength(3), MaxLength(30)];
    assert (forall k :: 0 <= k < |rules| ==> RuleHolds(rules[k], u, isEmail)) <==>
           (RuleHolds(rules[0], u, isEmail) && RuleHolds(rules[1], u, isEmail) && RuleHolds(rules[2], u, isEmail));
  }

  /** A required string field with one rule. */
  lemma SingleRuleField(body: Body, f: FieldSpec, isEmail: string -> bool)
    requires f.required && f.kind.StringField? && |f.kind.rules| <= 1
    ensures FieldConforms(body, f, isEmail) <==>
      HasString(body, f.key) &&
      (|f.kind.rules| == 1 ==> RuleHolds(f.kind.rules[0], StringAt(body, f.key), isEmail))
  {
    StringFieldConforms(body, f, isEmail);
  }

  /** The conditions the registration schema puts on a body. */
  predicate RegisterOk(body: Body, isEmail: string -> bool) {
    && OnlyKeys(body, ["username", "email", "password"])
    && HasString(body, "username")
    && IsAlphanumeric(StringAt(body, "username"))
    && 3 <= Utf16Length(StringAt(body, "username")) <= 30
    && HasString(body, "email") && isEmail(StringAt(body, "email"))
    && HasString(body, "password") && Utf16Length(StringAt(body, "password")) >= 6
  }

  /** The field conditions of a registration body, field by field. */
  lemma RegisterFields(body: Body, isEmail: string -> bool)
    ensures (forall j :: 0 <= j < |RegisterSchema.fields| ==> FieldConforms(body, RegisterSchema.fields[j], isEmail))
      <==>
      && HasString(body, "username")
      && IsAlphanumeric(StringAt(body, "username"))
      && 3 <= Utf16Length(StringAt(body, "username")) <= 30
      && HasString(body, "email") && isEmail(StringAt(body, "email"))
      && HasString(body, "password") && Utf16Length(StringAt(body, "password")) >= 6
  {
    var fields := RegisterSchema.fields;
    RegisterUsernameField(body, isEmail);
    SingleRuleField(body, fields[1], isEmail);
    SingleRuleField(body, fields[2], isEmail);
    assert (forall j :: 0 <= j < |fields| ==> FieldConforms(body, fields[j], isEmail)) <==>
      (FieldConforms(body, fields[0], isEmail) && FieldConforms(body, fields[1], isEmail)
       && FieldConforms(body, fields[2], isEmail));
  }

  lemma RegisterConforms(body: Body, isEmail: string -> bool)
    ensures Conforms(JObject(body), RegisterSchema, isEmail) <==> RegisterOk(body, isEmail)
  {
    var fields := RegisterSchema.fields;
    ObjectConforms(body, fields, 0, isEmail);
    assert KeysOf(fields) == ["username", "email", "password"];
    RegisterFields(body, isEmail);
  }

  /** Registration: only the three keys; an alphanumeric username of 3 to 30
      characters; an e-mail address; a password of at least 6 characters. */
  lemma RegisterRules(body: Body, isEmail: string -> bool)
    ensures ValidateRegister(body, isEmail).Valid? <==>
      && OnlyKeys(body, ["username", "email", "password"])
      && HasString(body, "username")
      && IsAlphanumeric(StringAt(body, "username"))
      && 3 <= Utf16Length(StringAt(body, "username")) <= 30
      && HasString(body, "email") && isEmail(StringAt(body, "email"))
      && HasString(body, "password") && Utf16Length(StringAt(body, "password")) >= 6
    ensures ValidateRegister(body, isEmail).Valid? ==>
      ValidateRegister(body, isEmail).value ==
        RegisterInput(StringAt(body, "username"), StringAt(body, "email"), StringAt(body, "password"))
  {
    RegisterConforms(body, isEmail);
    assert ValidateRegister(body, isEmail).Valid? <==> Conforms(JObject(body), RegisterSchema, isEmail);
  }

  lemma LoginConforms(body: Body, isEmail: string -> bool)
    ensures Conforms(JObject(body), LoginSchema, isEmail) <==>
      && OnlyKeys(body, ["email", "password"])
      && HasString(body, "email") && isEmail(StringAt(body, "email"))
      && HasString(body, "password")
  {
    var fields := LoginSchema.fields;
    ObjectConforms(body, fields, 0, isEmail);
    assert KeysOf(fields) == ["email", "password"];
    SingleRuleField(body, fields[0], isEmail);
    SingleRuleField(body, fields[1], isEmail);
    assert (forall j :: 0 <= j < |fields| ==> FieldConforms(body, fields[j], isEmail)) <==>
      (FieldConforms(body, fields[0], isEmail) && FieldConforms(body, fields[1], isEmail));
  }

  /** Login: only the two keys; an e-mail address and a password string, with no
      length rule on the password. */
  lemma LoginRules(body: Body, isEmail: string -> bool)
    ensures ValidateLogin(body, isEmail).Valid? <==>
      && OnlyKeys(body, ["email", "password"])
      && HasString(body, "email") && isEmail(StringAt(body, "email"))
      && HasString(body, "password")
    ensures ValidateLogin(body, isEmail).Valid? ==>
      ValidateLogin(body, isEmail).value == LoginInput(StringAt(body, "email"), StringAt(body, "password"))
  {
    LoginConforms(body, isEmail);
    assert ValidateLogin(body, isEmail).Valid? <==> Conforms(JObject(body), LoginSchema, isEmail);
  }

  predicate Present(body: Body, key: string) {
    Lookup(body, key).Some?
  }

  /** An optional string field with one rule. */
  lemma OptionalOneRuleField(body: Body, f: FieldSpec, isEmail: string -> bool)
    requires !f.required && f.kind.StringField? && |f.kind.rules| == 1
    ensures FieldConforms(body, f, isEmail) <==>
      !Present(body, f.key) ||
      (HasString(body, f.key) && RuleHolds(f.kind.rules[0], StringAt(body, f.key), isEmail))
  {
    StringFieldConforms(body, f, isEmail);
  }

  /** The `recurring` sub-object: only `enabled` (a boolean) and `frequency`
      ("daily" or "weekly"), both optional. */
  predicate RecurringOk(body: Body) {
    !Present(body, "recurring") ||
    (Lookup(body, "recurring").value.JObject? &&
      var ms := Lookup(body, "recurring").value.members;
      && OnlyKeys(ms, ["enabled", "frequency"])
      && (!Present(ms, "enabled") || Lookup(ms, "enabled").value.JBool?)
      && (!Present(ms, "frequency") || (HasString(ms, "frequency") && StringAt(ms, "frequency") in FrequencyNames)))
  }

  lemma RecurringField(body: Body, isEmail: string -> bool)
    ensures FieldConforms(body, TaskSchema.fields[6], isEmail) <==> RecurringOk(body)
  {
    var f := TaskSchema.fields[6];
    if Present(body, "recurring") && Lookup(body, "recurring").value.JObject? {
      var ms := Lookup(body, "recurring").value.members;
      var fields := RecurringSchema.fields;
      ObjectConforms(ms, fields, 0, isEmail);
      assert KeysOf(fields) == ["enabled", "frequency"];
      OptionalOneRuleField(ms, fields[1], isEmail);
      assert (forall j :: 0 <= j < |fields| ==> FieldConforms(ms, fields[j], isEmail)) <==>
        (FieldConforms(ms, fields[0], isEmail) && FieldConforms(ms, fields[1], isEmail));
    }
  }

  lemma TagsField(body: Body, f: FieldSpec, isEmail: string -> bool)
    requires !f.required && f.kind == StringArrayField
    ensures FieldConforms(body, f, isEmail) <==>
      !Present(body, f.key) ||
      (Lookup(body, f.key).value.JArray? &&
       forall k :: 0 <= k < |Lookup(body, f.key).value.items| ==> Lookup(body, f.key).value.items[k].JString?)
  {
  }

  /** The field conditions of a create body, key by key. */
  predicate TaskFieldsOk(body: Body) {
    && HasString(body, "title") && Utf16Length(StringAt(body, "title")) <= TitleMaxLength
    && (!Present(body, "description") ||
        (HasString(body, "description") && Utf16Length(StringAt(body, "description")) <= DescriptionMaxLength))
    && (!Present(body, "priority") || (HasString(body, "priority") && StringAt(body, "priority") in PriorityNames))
    && (!Present(body, "status") || (HasString(body, "status") && StringAt(body, "status") in StatusNames))
    && (!Present(body, "deadline") ||
        (Lookup(body, "deadline").value.JNumber? && InTimeRange(Lookup(body, "deadline").value.n)))
    && (!Present(body, "tags") ||
        (Lookup(body, "tags").value.JArray? &&
         forall k :: 0 <= k < |Lookup(body, "tags").value.items| ==> Lookup(body, "tags").value.items[k].JString?))
    && RecurringOk(body)
  }

  lemma TaskFields(body: Body)
    ensures (forall j :: 0 <= j < |TaskSchema.fields| ==> FieldConforms(body, TaskSchema.fields[j], NoEmailRule))
            <==> TaskFieldsOk(body)
  {
    var isEmail := NoEmailRule;
    var fields := TaskSchema.fields;
    SingleRuleField(body, fields[0], isEmail);
    OptionalOneRuleField(body, fields[1], isEmail);
    OptionalOneRuleField(body, fields[2], isEmail);
    OptionalOneRuleField(body, fields[3], isEmail);
    TagsField(body, fields[5], isEmail);
    RecurringField(body, isEmail);
    assert (forall j :: 0 <= j < |fields| ==> FieldConforms(body, fields[j], isEmail)) <==>
      (&& FieldConforms(body, fields[0], isEmail) && FieldConforms(body, fields[1], isEmail)
       && FieldConforms(body, fields[2], isEmail) && FieldConforms(body, fields[3], isEmail)
       && FieldConforms(body, fields[4], isEmail) && FieldConforms(body, fields[5], isEmail)
       && FieldConforms(body, fields[6], isEmail));
  }

  /** Task creation: only the seven keys; a title of at most 100 characters; an
      optional description of at most 500; priority and status, when given, among
      their enumerated spellings; an optional date; tags an array of strings; and a
      well-formed `recurring` object. */
  lemma TaskRules(body: Body)
    ensures ValidateTask(body).Valid? <==>
      && OnlyKeys(body, ["title", "description", "priority", "status", "deadline", "tags", "recurring"])
      && TaskFieldsOk(body)
  {
    TaskConforms(body);
    assert ValidateTask(body).Valid? <==> Conforms(JObject(body), TaskSchema, NoEmailRule);
  }

  lemma TaskConforms(body: Body)
    ensures Conforms(JObject(body), TaskSchema, NoEmailRule) <==>
      && OnlyKeys(body, ["title", "description", "priority", "status", "deadline", "tags", "recurring"])
      && TaskFieldsOk(body)
  {
    var fields := TaskSchema.fields;
    ObjectConforms(body, fields, 0, NoEmailRule);
    assert KeysOf(fields) == ["title", "description", "priority", "status", "deadline", "tags", "recurring"];
    TaskFields(body);
  }

  /** An accepted create body passes on the title as sent, and the priority and
      status it names, or Medium and Pending when it names none. */
  lemma TaskDefaults(body: Body)
    requires ValidateTask(body).Valid?
    ensures var input := ValidateTask(body).value;
      && input.title == StringAt(body, "title")
      && (!Present(body, "priority") ==> input.priority == Medium)
      && (Present(body, "priority") ==> PriorityName(input.priority) == StringAt(body, "priority"))
      && (!Present(body, "status") ==> input.status == Pending)
      && (Present(body, "status") ==> StatusName(input.status) == StringAt(body, "status"))
  {
    TaskRules(body);
  }

  /** An enumerated field given a spelling outside its enumeration is rejected, and
      the rejection names that field. */
  lemma TaskRejectsUnknownPriority(body: Body)
    requires HasString(body, "priority") && StringAt(body, "priority") !in PriorityNames
    ensures ValidateTask(body).Invalid?
    ensures FieldError([Key("priority")], NotOneOf(PriorityNames)) in ValidateTask(body).errors
  {
    ReportsBrokenRule(body, TaskSchema, 2, 0, NoEmailRule);
  }

  /** The field conditions of an update body, key by key. */
  predicate UpdateFieldsOk(body: Body) {
    && (!Present(body, "title") ||
        (HasString(body, "title") && Utf16Length(StringAt(body, "title")) <= TitleMaxLength))
    && (!Present(body, "description") ||
        (HasString(body, "description") && Utf16Length(StringAt(body, "description")) <= DescriptionMaxLength))
    && (!Present(body, "priority") || (HasString(body, "priority") && StringAt(body, "priority") in PriorityNames))
    && (!Present(body, "status") || (HasString(body, "status") && StringAt(body, "status") in StatusNames))
    && (!Present(body, "deadline") ||
        (Lookup(body, "deadline").value.JNumber? && InTimeRange(Lookup(body, "deadline").value.n)))
    && (!Present(body, "tags") ||
        (Lookup(body, "tags").value.JArray? &&
         forall k :: 0 <= k < |Lookup(body, "tags").value.items| ==> Lookup(body, "tags").value.items[k].JString?))
  }

  lemma UpdateFields(body: Body)
    ensures (forall j :: 0 <= j < |UpdateTaskSchema.fields| ==>
               FieldConforms(body, UpdateTaskSchema.fields[j], NoEmailRule))
            <==> UpdateFieldsOk(body)
  {
    var isEmail := NoEmailRule;
    var fields := UpdateTaskSchema.fields;
    OptionalOneRuleField(body, fields[0], isEmail);
    OptionalOneRuleField(body, fields[1], isEmail);
    OptionalOneRuleField(body, fields[2], isEmail);
    OptionalOneRuleField(body, fields[3], isEmail);
    TagsField(body, fields[5], isEmail);
    assert (forall j :: 0 <= j < |fields| ==> FieldConforms(body, fields[j], isEmail)) <==>
      (&& FieldConforms(body, fields[0], isEmail) && FieldConforms(body, fields[1], isEmail)
       && FieldConforms(body, fields[2], isEmail) && FieldConforms(body, fields[3], isEmail)
       && FieldConforms(body, fields[4], isEmail) && FieldConforms(body, fields[5], isEmail));
  }

  lemma UpdateConforms(body: Body)
    ensures Conforms(JObject(body), UpdateTaskSchema, NoEmailRule) <==>
      && |body| >= 1
      && OnlyKeys(body, ["title", "description", "priority", "status", "deadline", "tags"])
      && UpdateFieldsOk(body)
  {
    var fields := UpdateTaskSchema.fields;
    ObjectConforms(body, fields, 1, NoEmailRule);
    assert KeysOf(fields) == ["title", "description", "priority", "status", "deadline", "tags"];
    UpdateFields(body);
  }

  /** Task update: at least one key, only the six editable fields, each with the
      same rule as on creation and no defaults. */
  lemma UpdateRules(body: Body)
    ensures ValidateUpdate(body).Valid? <==>
      && |body| >= 1
      && OnlyKeys(body, ["title", "description", "priority", "status", "deadline", "tags"])
      && (!Present(body, "title") ||
          (HasString(body, "title") && Utf16Length(StringAt(body, "title")) <= TitleMaxLength))
      && (!Present(body, "description") ||
          (HasString(body, "description") && Utf16Length(StringAt(body, "description")) <= DescriptionMaxLength))
      && (!Present(body, "priority") || (HasString(body, "priority") && StringAt(body, "priority") in PriorityNames))
      && (!Present(body, "status") || (HasString(body, "status") && StringAt(body, "status") in StatusNames))
      && (!Present(body, "deadline") ||
        (Lookup(body, "deadline").value.JNumber? && InTimeRange(Lookup(body, "deadline").value.n)))
      && (!Present(body, "tags") ||
          (Lookup(body, "tags").value.JArray? &&
           forall k :: 0 <= k < |Lookup(body, "tags").value.items| ==> Lookup(body, "tags").value.items[k].JString?))
    ensures ValidateUpdate(body).Valid? ==> PatchIsSubmitted(body, ValidateUpdate(body).value)
  {
    UpdateConforms(body);
    assert ValidateUpdate(body).Valid? <==> Conforms(JObject(body), UpdateTaskSchema, NoEmailRule);
    if ValidateUpdate(body).Valid? {
      UpdatePatchSubmitted(body);
    }
  }

  /** The patch holds exactly the submitted fields, each with the submitted value. */
  predicate PatchIsSubmitted(body: Body, patch: TaskPatch) {
    && (patch.title.Some? <==> Present(body, "title"))
    && (patch.title.Some? ==> Lookup(body, "title") == Some(JString(patch.title.value)))
    && (patch.description.Some? <==> Present(body, "description"))
    && (patch.description.Some? ==> Lookup(body, "description") == Some(JString(patch.description.value)))
    && (patch.priority.Some? <==> Present(body, "priority"))
    && (patch.priority.Some? ==> Lookup(body, "priority") == Some(JString(PriorityName(patch.priority.value))))
    && (patch.status.Some? <==> Present(body, "status"))
    && (patch.status.Some? ==> Lookup(body, "status") == Some(JString(StatusName(patch.status.value))))
    && (patch.deadline.Some? <==> Present(body, "deadline"))
    && (patch.deadline.Some? ==> Lookup(body, "deadline") == Some(JNumber(patch.deadline.value)))
    && (patch.tags.Some? <==> Present(body, "tags"))
    && (patch.tags.Some? ==>
          && Lookup(body, "tags").Some? && Lookup(body, "tags").value.JArray?
          && |Lookup(body, "tags").value.items| == |patch.tags.value|
          && forall k :: 0 <= k < |patch.tags.value| ==>
               Lookup(body, "tags").value.items[k] == JString(patch.tags.value[k]))
  }

  lemma UpdatePatchSubmitted(body: Body)
    requires ValidateUpdate(body).Valid?
    ensures PatchIsSubmitted(body, ValidateUpdate(body).value)
  {
    UpdateConforms(body);
  }

  /** A deadline number outside the `Date` range is refused by both task schemas
      as not a date, whatever else the body holds. */
  lemma DeadlineOutOfRangeRejected(body: Body, d: int)
    requires Lookup(body, "deadline") == Some(JNumber(d)) && !InTimeRange(d)
    ensures ValidateTask(body).Invalid?
    ensures FieldError([Key("deadline")], NotDate) in ValidateTask(body).errors
    ensures ValidateUpdate(body).Invalid?
    ensures FieldError([Key("deadline")], NotDate) in ValidateUpdate(body).errors
  {
    var e := FieldError([Key("deadline")], NotDate);
    assert [] + [Key("deadline")] == [Key("deadline")];
    assert TaskSchema.fields[4] == FieldSpec("deadline", false, DateField);
    assert FieldErrors([], body, TaskSchema.fields[4], NoEmailRule) == [e];
    assert e in FieldsErrors([], body, TaskSchema.fields, 0, NoEmailRule);
    assert e in ValueErrors([], JObject(body), TaskSchema, NoEmailRule);
    assert UpdateTaskSchema.fields[4] == FieldSpec("deadline", false, DateField);
    assert FieldErrors([], body, UpdateTaskSchema.fields[4], NoEmailRule) == [e];
    assert e in FieldsErrors([], body, UpdateTaskSchema.fields, 0, NoEmailRule);
    assert e in ValueErrors([], JObject(body), UpdateTaskSchema, NoEmailRule);
  }

  /** A number given for the priority breaks both the allowed-values rule and the
      string type, and both are reported, allowed values first. */
  lemma UpdateNumberPriority()
    ensures ValidateUpdate([Member("priority", JNumber(5))])
         == Invalid([FieldError([Key("priority")], NotOneOf(PriorityNames)), FieldError([Key("priority")], NotString)])
  {
    var body := [Member("priority", JNumber(5))];
    var fields := UpdateTaskSchema.fields;
    NumberPriorityFieldErrors();
    assert UnknownKeyErrors([], body, fields, 0) == [];
    assert UpdateTaskSchema == ObjectField(fields, 1);
    assert ValueErrors([], JObject(body), UpdateTaskSchema, NoEmailRule)
        == FieldsErrors([], body, fields, 0, NoEmailRule) + UnknownKeyErrors([], body, fields, 0) + [];
  }

  lemma NumberPriorityFieldErrors()
    ensures FieldsErrors([], [Member("priority", JNumber(5))], UpdateTaskSchema.fields, 0, NoEmailRule)
         == [FieldError([Key("priority")], NotOneOf(PriorityNames)), FieldError([Key("priority")], NotString)]
  {
    var body := [Member("priority", JNumber(5))];
    var fields := UpdateTaskSchema.fields;
    var path: seq<PathSegment> := [Key("priority")];
    assert Lookup(body, "priority") == Some(JNumber(5));
    assert fields[2] == FieldSpec("priority", false, StringField([OneOf(PriorityNames)]));
    assert [] + [Key(fields[2].key)] == path;
    assert OnlyErrors(path, [OneOf(PriorityNames)]) == [FieldError(path, NotOneOf(PriorityNames))];
    assert FieldErrors([], body, fields[2], NoEmailRule)
        == [FieldError(path, NotOneOf(PriorityNames)), FieldError(path, NotString)];
    assert forall j :: 0 <= j < |fields| && j != 2 ==> Lookup(body, fields[j].key).None?;
    assert FieldsErrors([], body, fields, 3, NoEmailRule) == [];
    assert FieldsErrors([], body, fields, 2, NoEmailRule) == FieldErrors([], body, fields[2], NoEmailRule);
    assert FieldsErrors([], body, fields, 1, NoEmailRule) == FieldErrors([], body, fields[2], NoEmailRule);
  }

  /** An update body naming `recurring`, `user` or any other key outside the six
      editable fields is rejected, with an error on that key. */
  lemma UpdateRejectsForeignKey(body: Body, i: nat)
    requires i < |body| && body[i].key !in KeysOf(UpdateTaskSchema.fields)
    ensures ValidateUpdate(body).Invalid?
    ensures FieldError([Key(body[i].key)], NotAllowed) in ValidateUpdate(body).errors
  {
    var fields := UpdateTaskSchema.fields;
    KnownKeys(fields);
    assert !IsKnownKey(body[i].key, fields);
    var unknown := UnknownKeyErrors([], body, fields, 0);
    assert FieldError([] + [Key(body[i].key)], NotAllowed) in unknown;
    assert [] + [Key(body[i].key)] == [Key(body[i].key)];
  }

  /** An empty update body is rejected, and the minimum-key rule is the only complaint. */
  lemma UpdateRejectsEmpty()
    ensures ValidateUpdate([]) == Invalid([FieldError([], TooFewKeys(1))])
  {
    var fields := UpdateTaskSchema.fields;
    assert FieldsErrors([], [], fields, 6, _ => true) == [];
    assert FieldsErrors([], [], fields, 5, _ => true) == [];
    assert FieldsErrors([], [], fields, 4, _ => true) == [];
    assert FieldsErrors([], [], fields, 3, _ => true) == [];
    assert FieldsErrors([], [], fields, 2, _ => true) == [];
    assert FieldsErrors([], [], fields, 1, _ => true) == [];
    assert FieldsErrors([], [], fields, 0, _ => true) == [];
  }

  /** Validation does not stop at the first problem: every rule a submitted string
      breaks is reported against its field, whatever else is wrong with the body. */
  lemma ReportsBrokenRule(body: Body, schema: FieldKind, j: nat, k: nat, isEmail: string -> bool)
    requires schema.ObjectField? && j < |schema.fields|
    requires schema.fields[j].kind.StringField? && k < |schema.fields[j].kind.rules|
    requires HasString(body, schema.fields[j].key)
    requires !RuleHolds(schema.fields[j].kind.rules[k], StringAt(body, schema.fields[j].key), isEmail)
    ensures FieldError([Key(schema.fields[j].key)], RuleViolation(schema.fields[j].kind.rules[k]))
              in ValueErrors([], JObject(body), schema, isEmail)
  {
    var f := schema.fields[j];
    assert [] + [Key(f.key)] == [Key(f.key)];
    var v := Lookup(body, f.key).value;
    var fe := FieldErrors([], body, f, isEmail);
    assert fe == ValueErrors([Key(f.key)], v, f.kind, isEmail);
    assert fe == StringErrors([Key(f.key)], v.s, f.kind.rules, isEmail);
    assert FieldError([Key(f.key)], RuleViolation(f.kind.rules[k])) in fe;
  }

  /** A body breaking two username rules and the password rule gets all three errors. */
  lemma RegisterCollectsEveryError(isEmail: string -> bool)
    ensures var body := [Member("username", JString("a!")), Member("email", JString("x")),
                         Member("password", JString("12345"))];
      var r := ValidateRegister(body, isEmail);
      && r.Invalid?
      && FieldError([Key("username")], NotAlphanumeric) in r.errors
      && FieldError([Key("username")], TooShort(3)) in r.errors
      && FieldError([Key("password")], TooShort(6)) in r.errors
  {
    var body := [Member("username", JString("a!")), Member("email", JString("x")),
                 Member("password", JString("12345"))];
    assert !IsAlphanumeric("a!") by { assert "a!"[1] == '!'; }
    assert StringAt(body, "username") == "a!";
    assert StringAt(body, "password") == "12345";
    ReportsBrokenRule(body, RegisterSchema, 0, 0, isEmail);
    ReportsBrokenRule(body, RegisterSchema, 0, 1, isEmail);
    ReportsBrokenRule(body, RegisterSchema, 2, 0, isEmail);
  }
}
