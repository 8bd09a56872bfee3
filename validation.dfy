/**
 * The four custom rules the repository registers with its struct-tag
 * validator: valid_username, valid_pin, equals_ignore_case and the
 * struct-level rule on RegisterRequest. The validator's reflection handles
 * (FieldLevel, StructLevel) become plain arguments.
 */
module Validation {
  import opened Wrappers
  import opened GoStrings
  import opened Strconv

  /**
   * The field a rule inspects, as far as the rules can tell: a value of
   * dynamic type string, a value of some other defined type whose kind is
   * string, or a value of any other kind, known by its type name.
   */
  datatype FieldValue =
    | StringField(s: string)
    | NamedStringField(typeName: string, s: string)
    | OtherField(typeName: string)

  /** reflect.Value.String(): the text of a string-kind value, "<T Value>" for any other kind. */
  function ReflectString(v: FieldValue): string
  {
    match v
    case StringField(s) => s
    case NamedStringField(_, s) => s
    case OtherField(t) => "<" + t + " Value>"
  }

  /** The type assertion v.Interface().(string): it succeeds only when the dynamic type is string itself. */
  function AsString(v: FieldValue): Option<string>
  {
    if v.StringField? then Some(v.s) else None
  }

  // ---------------------------------------------------------------- valid_username

  /** valid_username: a string must be its own upper-case form and at least 5 bytes long; a non-string passes. */
  function MustValidUsername(v: FieldValue): bool
  {
    match AsString(v)
    case None => true
    case Some(value) =>
      if value != ToUpper(value) then false
      else if Utf8Len(value) < 5 then false
      else true
  }

  /** What valid_username accepts, and its two ways of rejecting a string. */
  lemma UsernameSpec(v: FieldValue)
    ensures v.StringField? && v.s != ToUpper(v.s) ==> !MustValidUsername(v)
    ensures v.StringField? && Utf8Len(v.s) < 5 ==> !MustValidUsername(v)
    ensures MustValidUsername(v) <==>
              (v.StringField? ==>
                 (forall i | 0 <= i < |v.s| :: !IsLowerAscii(v.s[i])) && Utf8Len(v.s) >= 5)
  {
    if v.StringField? {
      ToUpperFixedIff(v.s);
    }
  }

  /** For ASCII text the length bound is on characters: at least 5 of them, none a lower-case letter. */
  lemma UsernameAscii(s: string)
    requires forall i | 0 <= i < |s| :: IsAscii(s[i])
    ensures MustValidUsername(StringField(s)) <==>
              |s| >= 5 && forall i | 0 <= i < |s| :: !IsLowerAscii(s[i])
  {
    UsernameSpec(StringField(s));
    Utf8LenBounds(s);
  }

  /** The username of TestCustomValidation passes. */
  lemma UsernameExample()
    ensures MustValidUsername(StringField("JOKOSANTOSO"))
  {
    var s := "JOKOSANTOSO";
    assert forall i | 0 <= i < |s| :: 'A' <= s[i] <= 'Z';
    UsernameAscii(s);
  }

  // ---------------------------------------------------------------- valid_pin

  /** What a custom rule does: return a verdict, or panic with the error it was given. */
  datatype RuleOutcome = Returned(ok: bool) | Panicked(err: NumError)

  /** regexNumber, ^[0-9]+$: one or more ASCII digits and nothing else ($ is the end of the text). */
  predicate RegexNumberMatches(s: string)
  {
    |s| > 0 && AllDigits(s)
  }

  /** valid_pin=N: panic when N is not an int; otherwise the value must be all digits and exactly N bytes long. */
  function MustValidPin(v: FieldValue, param: string): RuleOutcome
  {
    match Atoi(param)
    case Err(e) => Panicked(e)
    case Ok(length) =>
      var value := ReflectString(v);
      if !RegexNumberMatches(value) then Returned(false)
      else Returned(Utf8Len(value) == length)
  }

  /** A malformed parameter panics, whatever the value; a well-formed one never does. */
  lemma PinPanicsExactlyOnBadParam(v: FieldValue, param: string)
    ensures MustValidPin(v, param).Panicked? <==>
              !(IsDecimalInteger(param) && InInt64(SignedValue(param)))
    ensures MustValidPin(v, param).Panicked? ==> MustValidPin(v, param).err == Atoi(param).error
  {
    AtoiSpec(param);
  }

  /** A digit string is ASCII, so its byte length is its character count. */
  lemma {:induction false} DigitsByteLength(s: string)
    requires AllDigits(s)
    ensures Utf8Len(s) == |s|
  {
    Utf8LenBounds(s);
    assert forall i | 0 <= i < |s| :: IsAscii(s[i]);
  }

  /** With parameter n, valid_pin holds exactly for a string-kind value of n digits; never for the empty string. */
  lemma PinSpec(v: FieldValue, param: string, n: int)
    requires Atoi(param) == Ok(n)
    ensures MustValidPin(v, param) ==
              Returned(!v.OtherField? && |v.s| > 0 && AllDigits(v.s) && |v.s| == n)
  {
    var value := ReflectString(v);
    if v.OtherField? {
      assert value[0] == '<';
    } else if AllDigits(value) {
      DigitsByteLength(value);
    }
  }

  /** The parameter written as strconv.Itoa writes it: valid_pin=n accepts exactly the n-digit strings. */
  lemma PinWithFormattedLength(s: string, n: nat)
    requires n <= MaxInt64
    ensures MustValidPin(StringField(s), Itoa(n)) == Returned(|s| == n && n > 0 && AllDigits(s))
  {
    AtoiItoa(n);
    PinSpec(StringField(s), Itoa(n), n);
  }

  /** The pin of TestCustomValidationWithParam passes valid_pin=6, and the empty pin fails even valid_pin=0. */
  lemma PinExamples()
    ensures MustValidPin(StringField("123456"), "6") == Returned(true)
    ensures MustValidPin(StringField(""), "0") == Returned(false)
  {
    PinWithFormattedLength("123456", 6);
    PinWithFormattedLength("", 0);
  }

  // ---------------------------------------------------------------- equals_ignore_case

  /**
   * equals_ignore_case=F: false when the sibling F cannot be resolved;
   * otherwise the two values are compared after upper-casing.
   */
  function MustEqualsIgnoreCase(v: FieldValue, sibling: Option<FieldValue>): bool
  {
    match sibling
    case None => false
    case Some(w) => ToUpper(ReflectString(v)) == ToUpper(ReflectString(w))
  }

  /** An unresolved sibling fails; a resolved one passes exactly when the texts agree character by character up to ASCII case. */
  lemma EqualsIgnoreCaseSpec(v: FieldValue, sibling: Option<FieldValue>)
    ensures sibling.None? ==> !MustEqualsIgnoreCase(v, sibling)
    ensures sibling.Some? ==>
              (MustEqualsIgnoreCase(v, sibling) <==>
                 var a, b := ReflectString(v), ReflectString(sibling.value);
                 |a| == |b| && forall i | 0 <= i < |a| :: UpperChar(a[i]) == UpperChar(b[i]))
  {
    if sibling.Some? {
      ToUpperEqualIff(ReflectString(v), ReflectString(sibling.value));
    }
  }

  /** Once the sibling is found, the rule is reflexive, symmetric and transitive. */
  lemma EqualsIgnoreCaseEquivalence(u: FieldValue, v: FieldValue, w: FieldValue)
    ensures MustEqualsIgnoreCase(u, Some(u))
    ensures MustEqualsIgnoreCase(u, Some(v)) == MustEqualsIgnoreCase(v, Some(u))
    ensures MustEqualsIgnoreCase(u, Some(v)) && MustEqualsIgnoreCase(v, Some(w)) ==>
              MustEqualsIgnoreCase(u, Some(w))
  {
  }

  /** A string always matches its own upper-case form: case differences are ignored. */
  lemma EqualsIgnoreCaseIgnoresCase(s: string)
    ensures MustEqualsIgnoreCase(StringField(s), Some(StringField(ToUpper(s))))
    ensures MustEqualsIgnoreCase(StringField(ToUpper(s)), Some(StringField(s)))
  {
    ToUpperIdempotent(s);
  }

  /** In TestCrossFieldValidation the username matches the email and differs from the phone. */
  lemma EqualsIgnoreCaseExamples()
    ensures MustEqualsIgnoreCase(StringField("santoso@example.com"), Some(StringField("santoso@example.com")))
    ensures !MustEqualsIgnoreCase(StringField("santoso@example.com"), Some(StringField("23242")))
  {
    EqualsIgnoreCaseSpec(StringField("santoso@example.com"), Some(StringField("23242")));
  }

  // ---------------------------------------------------------------- struct level

  /** The registration form the struct-level rule is attached to. */
  datatype RegisterRequest = RegisterRequest(username: string, email: string, phone: string, password: string)

  /** One call of StructLevel.ReportError(field, fieldName, structFieldName, tag, param). */
  datatype FieldError = FieldError(value: string, fieldName: string, structFieldName: string, tag: string, param: string)

  const UsernameTag := "username_not_equals_email_or_phone"

  /** The struct-level rule: the username must equal the email or the phone; otherwise one error is reported on Username. */
  function MustValidRegisterSuccess(request: RegisterRequest): (reports: seq<FieldError>)
    ensures |reports| <= 1
    ensures reports == [] <==> request.username == request.email || request.username == request.phone
    ensures forall k | 0 <= k < |reports| ::
              reports[k] == FieldError(request.username, "Username", "Username", UsernameTag, "")
  {
    if request.username == request.email || request.username == request.phone then []
    else [FieldError(request.username, "Username", "Username", UsernameTag, "")]
  }

  /** The password plays no part, and only the username's value is ever reported. */
  lemma RegisterIgnoresPassword(request: RegisterRequest, password: string)
    ensures MustValidRegisterSuccess(request.(password := password)) == MustValidRegisterSuccess(request)
    ensures forall k | 0 <= k < |MustValidRegisterSuccess(request)| ::
              MustValidRegisterSuccess(request)[k].value == request.username
  {
  }

  /** The request of TestStructLevelValidation produces no report. */
  lemma RegisterExample()
    ensures MustValidRegisterSuccess(
              RegisterRequest("joko@example.com", "joko@example.com", "039383939", "123456")) == []
  {
  }
}
