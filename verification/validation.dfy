/** The field validator of `src/shared/lib/validation.ts`: three per-field
    rules writing into a partial error map, a dispatch table keyed by field
    name, and the "has errors" test. */
module Validation {
  import opened Wrappers
  import opened AccountTypes

  const LabelsTooLongMessage := "Максимум 50 символов"
  const LoginRequiredMessage := "Логин обязателен для заполнения"
  const TooLongMessage := "Максимум 100 символов"
  const PasswordRequiredMessage := "Пароль обязателен для локальных записей"

  const MaxLabelsValue := 50
  const MaxLength := 100

  /** The value of JavaScript's unary `+` applied to a string. */
  datatype JsNumber = NaN | Infinity(negative: bool) | Finite(value: real)

  /** JavaScript's `n > bound`: false whenever `n` is NaN. */
  predicate GreaterThan(n: JsNumber, bound: int) {
    match n
    case NaN => false
    case Infinity(negative) => !negative
    case Finite(v) => v > bound as real
  }

  /** Form input as the validator sees it: during per-keystroke validation
      `login` and `password` may be `undefined`. */
  datatype FormInput = FormInput(
    labels: string,
    accountType: AccountType,
    login: Option<string>,
    password: Option<string>)

  /** A complete form, every field defined. */
  function FromForm(f: AccountFormData): FormInput {
    FormInput(f.labels, f.accountType, Some(f.login), Some(f.password))
  }

  /** What one rule does to the key it owns. */
  datatype Effect = Untouched | Written(value: Option<string>)

  /** The account invariant on a login: present and at most 100 long. */
  predicate LoginAcceptable(login: string) {
    login != "" && |login| <= MaxLength
  }

  /** The account invariant on a password: required unless the account is
      LDAP, and at most 100 long. */
  predicate PasswordAcceptable(accountType: AccountType, password: string) {
    (accountType == Ldap || password != "") && |password| <= MaxLength
  }

  /** `validateLabels`: compares the numeric value of the labels string,
      not its length, with 50; it never clears its key. */
  function LabelsEffect(labels: string, toNumber: string -> JsNumber): (e: Effect)
    ensures e != Written(None)
    ensures e.Written? <==> GreaterThan(toNumber(labels), MaxLabelsValue)
    ensures e.Written? ==> e.value == Some(LabelsTooLongMessage)
  {
    if GreaterThan(toNumber(labels), MaxLabelsValue) then Written(Some(LabelsTooLongMessage))
    else Untouched
  }

  /** `validateLogin`: only a defined login is examined; a message appears
      exactly when the login breaks the account invariant, otherwise the
      key is cleared to `undefined`. */
  function LoginEffect(login: Option<string>): (e: Effect)
    ensures e == Untouched <==> login.None?
    ensures e == Written(Some(LoginRequiredMessage)) <==> login == Some("")
    ensures e == Written(Some(TooLongMessage)) <==> login.Some? && |login.value| > MaxLength
    ensures e == Written(None) <==> login.Some? && LoginAcceptable(login.value)
  {
    match login
    case None => Untouched
    case Some(l) =>
      if l == "" then Written(Some(LoginRequiredMessage))
      else if |l| > MaxLength then Written(Some(TooLongMessage))
      else Written(None)
  }

  /** `validatePassword`: only a defined password is examined; an empty one
      is an error for a local account and is cleared for LDAP; an over-long
      one is an error for either type. */
  function PasswordEffect(accountType: AccountType, password: Option<string>): (e: Effect)
    ensures e == Untouched <==> password.None?
    ensures e == Written(Some(PasswordRequiredMessage))
        <==> password == Some("") && accountType == Local
    ensures e == Written(Some(TooLongMessage)) <==> password.Some? && |password.value| > MaxLength
    ensures e == Written(None)
        <==> password.Some? && PasswordAcceptable(accountType, password.value)
  {
    match password
    case None => Untouched
    case Some(p) =>
      if accountType != Ldap && p == "" then
        assert password == Some("") && accountType == Local;
        Written(Some(PasswordRequiredMessage))
      else if p != "" && |p| > MaxLength then Written(Some(TooLongMessage))
      else Written(None)
  }

  /** The three rules of the dispatch table. */
  datatype Rule = LabelsRule | LoginRule | PasswordRule

  /** The one key each rule writes. */
  function Key(rule: Rule): Field {
    match rule
    case LabelsRule => LabelsKey
    case LoginRule => LoginKey
    case PasswordRule => PasswordKey
  }

  function RuleEffect(rule: Rule, data: FormInput, toNumber: string -> JsNumber): Effect {
    match rule
    case LabelsRule => LabelsEffect(data.labels, toNumber)
    case LoginRule => LoginEffect(data.login)
    case PasswordRule => PasswordEffect(data.accountType, data.password)
  }

  /** Runs one rule against an error map: the rule's own key is written or
      left alone, every other key keeps its presence and value. */
  function Run(rule: Rule, data: FormInput, toNumber: string -> JsNumber, errors: ValidationErrors)
    : (r: ValidationErrors)
    ensures forall f :: f != Key(rule) ==> (f in r <==> f in errors)
    ensures forall f :: f != Key(rule) && f in errors ==> r[f] == errors[f]
    ensures Key(rule) in r <==> Key(rule) in errors || RuleEffect(rule, data, toNumber).Written?
    ensures RuleEffect(rule, data, toNumber).Written?
        ==> r[Key(rule)] == RuleEffect(rule, data, toNumber).value
    ensures !RuleEffect(rule, data, toNumber).Written? ==> r == errors
  {
    match RuleEffect(rule, data, toNumber)
    case Untouched => errors
    case Written(v) => errors[Key(rule) := v]
  }

  /** `ValidationMethods`: field name to rule, in insertion order. */
  const ValidationMethods: seq<(string, Rule)> :=
    [("label", LabelsRule), ("login", LoginRule), ("password", PasswordRule)]

  /** `ValidationMethods.get(name)`. */
  function Lookup(name: string): (r: Option<Rule>)
    ensures r == Some(LabelsRule) <==> name == "label"
    ensures r == Some(LoginRule) <==> name == "login"
    ensures r == Some(PasswordRule) <==> name == "password"
    ensures r == None <==> name !in {"label", "login", "password"}
  {
    LookupIn(ValidationMethods, name)
  }

  function LookupIn(table: seq<(string, Rule)>, name: string): (r: Option<Rule>)
    ensures r.Some? ==> (name, r.value) in table
    ensures r.None? ==> forall i :: 0 <= i < |table| ==> table[i].0 != name
  {
    if table == [] then None
    else if table[0].0 == name then Some(table[0].1)
    else LookupIn(table[1..], name)
  }

  /** The keys the rules of `table` may write. */
  function RuleKeys(table: seq<(string, Rule)>): set<Field> {
    set i | 0 <= i < |table| :: Key(table[i].1)
  }

  /** `ValidationMethods.forEach`: every rule of the table, in order. */
  function RunAll(table: seq<(string, Rule)>, data: FormInput, toNumber: string -> JsNumber,
                  errors: ValidationErrors): (r: ValidationErrors)
    ensures errors.Keys <= r.Keys
    ensures r.Keys <= errors.Keys + RuleKeys(table)
    ensures forall f :: f in errors && f !in RuleKeys(table) ==> r[f] == errors[f]
    decreases |table|
  {
    if table == [] then errors
    else RunAll(table[1..], data, toNumber, Run(table[0].1, data, toNumber, errors))
  }

  /** The forEach over the table runs labels, login, password in turn. */
  lemma RunAllInOrder(data: FormInput, toNumber: string -> JsNumber, errors: ValidationErrors)
    ensures RunAll(ValidationMethods, data, toNumber, errors)
         == Run(PasswordRule, data, toNumber, Run(LoginRule, data, toNumber, Run(LabelsRule, data, toNumber, errors)))
  {
  }

  /** `validateAccount(data, fieldType)`: a non-empty field name runs only
      the rule registered under it (none for an unknown name); an omitted
      or empty name runs every rule. The `type` key is never produced. */
  function ValidateAccount(data: FormInput, fieldType: Option<string>, toNumber: string -> JsNumber)
    : (r: ValidationErrors)
    ensures TypeKey !in r
    ensures fieldType == Some("label") ==> r.Keys <= {LabelsKey}
    ensures fieldType == Some("login") ==> r.Keys <= {LoginKey}
    ensures fieldType == Some("password") ==> r.Keys <= {PasswordKey}
    ensures fieldType == Some("label")
        ==> (LabelsKey in r <==> GreaterThan(toNumber(data.labels), MaxLabelsValue))
    ensures fieldType == Some("login") ==> (LoginKey in r <==> data.login.Some?)
    ensures fieldType == Some("password") ==> (PasswordKey in r <==> data.password.Some?)
    ensures forall rule ::
              fieldType.Some? && Lookup(fieldType.value) == Some(rule) && Key(rule) in r
              ==> r[Key(rule)] == RuleEffect(rule, data, toNumber).value
    ensures fieldType.Some? && fieldType.value !in {"", "label", "login", "password"} ==> r == map[]
  {
    if fieldType.Some? && fieldType.value != "" then
      match Lookup(fieldType.value)
      case None => map[]
      case Some(rule) => Run(rule, data, toNumber, map[])
    else
      RunAllInOrder(data, toNumber, map[]);
      RunAll(ValidationMethods, data, toNumber, map[])
  }

  /** `hasValidationErrors`: counts keys, not messages. */
  function HasValidationErrors(errors: ValidationErrors): (r: bool)
    ensures r <==> exists f :: f in errors
  {
    assert forall f :: f in errors ==> f in errors.Keys;
    |errors| > 0
  }

  /** Some key carries an actual message. */
  predicate HasMessages(errors: ValidationErrors) {
    exists f :: f in errors && errors[f].Some?
  }

  /** Two different rules commute: each writes only its own key. */
  lemma RulesCommute(a: Rule, b: Rule, data: FormInput, toNumber: string -> JsNumber,
                     errors: ValidationErrors)
    requires a != b
    ensures Run(a, data, toNumber, Run(b, data, toNumber, errors))
         == Run(b, data, toNumber, Run(a, data, toNumber, errors))
  {
  }

  /** Running the three rules in turn on an empty map gives the disjoint
      union of running each alone. */
  lemma RunChainIsUnion(data: FormInput, toNumber: string -> JsNumber)
    ensures var labels := Run(LabelsRule, data, toNumber, map[]);
            var login := Run(LoginRule, data, toNumber, map[]);
            var password := Run(PasswordRule, data, toNumber, map[]);
            && labels.Keys !! login.Keys && labels.Keys !! password.Keys && login.Keys !! password.Keys
            && Run(PasswordRule, data, toNumber, Run(LoginRule, data, toNumber, labels))
               == labels + login + password
  {
    var labels := Run(LabelsRule, data, toNumber, map[]);
    var login := Run(LoginRule, data, toNumber, map[]);
    var password := Run(PasswordRule, data, toNumber, map[]);
    var all := Run(PasswordRule, data, toNumber, Run(LoginRule, data, toNumber, labels));
    assert all.Keys == (labels + login + password).Keys;
    forall f | f in all ensures all[f] == (labels + login + password)[f] {
    }
  }

  /** Validating every field is the disjoint union of the three single-field
      results, whatever order the rules run in. */
  lemma AllFieldsIsDisjointUnion(data: FormInput, toNumber: string -> JsNumber)
    ensures var labels := ValidateAccount(data, Some("label"), toNumber);
            var login := ValidateAccount(data, Some("login"), toNumber);
            var password := ValidateAccount(data, Some("password"), toNumber);
            && labels.Keys !! login.Keys && labels.Keys !! password.Keys && login.Keys !! password.Keys
            && ValidateAccount(data, None, toNumber) == labels + login + password
            && ValidateAccount(data, Some(""), toNumber) == labels + login + password
  {
    ValidateOneField(data, "label", LabelsRule, toNumber);
    ValidateOneField(data, "login", LoginRule, toNumber);
    ValidateOneField(data, "password", PasswordRule, toNumber);
    RunAllInOrder(data, toNumber, map[]);
    RunChainIsUnion(data, toNumber);
  }

  /** A registered field name runs exactly its rule on an empty map. */
  lemma ValidateOneField(data: FormInput, name: string, rule: Rule, toNumber: string -> JsNumber)
    requires Lookup(name) == Some(rule)
    ensures ValidateAccount(data, Some(name), toNumber) == Run(rule, data, toNumber, map[])
  {
  }

  /** Key presence counts as an error: validating every field of a complete
      form always reports errors, even when every field is acceptable. */
  lemma CompleteFormAlwaysHasErrors(f: AccountFormData, toNumber: string -> JsNumber)
    ensures LoginKey in ValidateAccount(FromForm(f), None, toNumber)
    ensures PasswordKey in ValidateAccount(FromForm(f), None, toNumber)
    ensures HasValidationErrors(ValidateAccount(FromForm(f), None, toNumber))
  {
    var d := FromForm(f);
    var e1 := Run(LabelsRule, d, toNumber, map[]);
    var e2 := Run(LoginRule, d, toNumber, e1);
    var e3 := Run(PasswordRule, d, toNumber, e2);
    RunAllInOrder(d, toNumber, map[]);
    assert ValidateAccount(d, None, toNumber) == e3;
  }

  /** The form is acceptable to every rule. */
  predicate FormAcceptable(f: AccountFormData, toNumber: string -> JsNumber) {
    && !GreaterThan(toNumber(f.labels), MaxLabelsValue)
    && LoginAcceptable(f.login)
    && PasswordAcceptable(f.accountType, f.password)
  }

  /** A message (as opposed to a bare key) appears exactly when some field
      of a complete form is unacceptable. */
  lemma MessagesIffUnacceptable(f: AccountFormData, toNumber: string -> JsNumber)
    ensures HasMessages(ValidateAccount(FromForm(f), None, toNumber)) <==> !FormAcceptable(f, toNumber)
  {
    var d := FromForm(f);
    var e1 := Run(LabelsRule, d, toNumber, map[]);
    var e2 := Run(LoginRule, d, toNumber, e1);
    var e3 := Run(PasswordRule, d, toNumber, e2);
    RunAllInOrder(d, toNumber, map[]);
    assert ValidateAccount(d, None, toNumber) == e3;
    if !FormAcceptable(f, toNumber) {
      if GreaterThan(toNumber(f.labels), MaxLabelsValue) {
        assert e3[LabelsKey].Some?;
      } else if !LoginAcceptable(f.login) {
        assert e3[LoginKey].Some?;
      } else {
        assert e3[PasswordKey].Some?;
      }
    }
  }

  /** An empty login and password on a local account with no labels: both
      login and password get a message and labels get none (unary `+` of
      the empty string is 0). */
  lemma EmptyLocalFormExample(toNumber: string -> JsNumber)
    requires toNumber("") == Finite(0.0)
    ensures var r := ValidateAccount(FromForm(AccountFormData("", Local, "", "")), None, toNumber);
            && r.Keys == {LoginKey, PasswordKey}
            && r[LoginKey] == Some(LoginRequiredMessage)
            && r[PasswordKey] == Some(PasswordRequiredMessage)
  {
    var d := FromForm(AccountFormData("", Local, "", ""));
    RunAllInOrder(d, toNumber, map[]);
    var e1 := Run(LabelsRule, d, toNumber, map[]);
    assert e1 == map[];
  }
}
