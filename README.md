# go-validation custom rules, in Dafny

The repository is a set of exercises for Go's `go-playground/validator`
struct-tag validator. It contains four custom rules of its own, and this
project models them:

- `valid_username` (`MustValidUsername`): a string field must be upper case
  and at least 5 bytes long. A field whose dynamic type is not `string` always
  passes.
- `valid_pin=N` (`MustValidPin`): the parameter `N` is parsed with
  `strconv.Atoi`, and a malformed `N` makes the rule panic. Otherwise the
  field's text must match `^[0-9]+$` and be exactly `N` bytes long.
- `equals_ignore_case=F` (`MustEqualsIgnoreCase`): a cross-field rule. It is
  false when the sibling field `F` cannot be resolved. Otherwise both values
  are upper-cased and compared.
- the struct-level rule on `RegisterRequest` (`MustValidRegisterSuccess`):
  when the username equals neither the email nor the phone, it reports one
  error, tagged `username_not_equals_email_or_phone`, on `Username`.

Modules:

- `Wrappers` (wrappers.dfy): `Option` and `Result`.
- `GoStrings` (gostrings.dfy): `strings.ToUpper` restricted to ASCII. It also
  models Go's `len` of a string, which is the byte length of its UTF-8
  encoding.
- `Strconv` (strconv.dfy): `strconv.Atoi`, assuming a 64-bit platform. On
  such a platform Atoi calls `ParseInt(s, 10, 0)` for the empty string and for
  inputs of 19 bytes or more. Bit size 0 means the width of `int`, so 64 bits
  here. Inputs of 1 to 18 bytes take a fast path. The model follows
  `ParseInt` and `ParseUint` for every input, and ShortInputNeverOverflows
  together with AtoiSpec shows the fast path gives the same results. The
  accepted text is an optional sign, then decimal digits, scanned left to
  right. A non-digit gives `ErrSyntax`. A value past 64
  unsigned bits gives `ErrRange` at the digit where it happens. A value outside
  the signed 64-bit range also gives `ErrRange`. `Itoa` is a reference
  formatter, used to state the round trip.
- `Validation` (validation.dfy): the four rules. `FieldLevel` and
  `StructLevel` are replaced by plain arguments:
  - the field is a `FieldValue`: a `string`, another type of string kind, or
    any other kind;
  - the resolved sibling is an `Option<FieldValue>`;
  - the record is `RegisterRequest`;
  - `ReportError` calls are the returned sequence of `FieldError`.

  A panic is the `Panicked` case of `RuleOutcome`. `reflect.Value.String()`
  returns the text of a string-kind value and `"<T Value>"` for any other
  kind. So a non-string field never matches `^[0-9]+$`. The type assertion
  `.(string)` succeeds only when the dynamic type is `string` itself.

## Model

| member | source | states |
|---|---|---|
| Validation.AsString | validation_test.go:363 | the `.(string)` assertion: specified by UsernameSpec, which passes every field that is not a plain `string` |
| Validation.ReflectString | validation_test.go:410 | `Field().String()`: specified by PinSpec, which shows the text of a non-string kind never matches the pin pattern |
| Validation.MustValidUsername | validation_test.go:362-376 | `valid_username`: specified by UsernameSpec and UsernameAscii |
| Validation.RegexNumberMatches | validation_test.go:401-411 | `regexNumber`, `^[0-9]+$` (declared at line 401, matched at line 411): one or more ASCII digits, with `$` only at the end of the text; specified by PinSpec |
| Validation.MustValidPin | validation_test.go:403-416 | `valid_pin`: specified by PinPanicsExactlyOnBadParam, PinSpec and PinWithFormattedLength |
| Validation.MustEqualsIgnoreCase | validation_test.go:462-473 | `equals_ignore_case`: specified by EqualsIgnoreCaseSpec and EqualsIgnoreCaseEquivalence |
| Strconv.Atoi | validation_test.go:404 | `strconv.Atoi(field.Param())`: specified by AtoiSpec, ShortInputNeverOverflows and AtoiItoa |
| GoStrings.ToUpper | validation_test.go:469-470 | `strings.ToUpper` (also used at line 366): specified by ToUpperAt, ToUpperFixedIff, ToUpperIdempotent and ToUpperEqualIff |
| GoStrings.Utf8Len | validation_test.go:370 | Go's `len` of a string (also used at line 415): specified by Utf8LenBounds |
| GoStrings.ToUpperAt | validation_test.go:366 | upper-casing keeps the length and maps each character on its own ('a'..'z' to 'A'..'Z') |
| GoStrings.ToUpperFixedIff | validation_test.go:366-368 | a string equals its upper-case form exactly when it has no lower-case letter |
| GoStrings.ToUpperIdempotent | validation_test.go:469-472 | upper-casing twice is the same as upper-casing once |
| GoStrings.ToUpperEqualIff | validation_test.go:469-472 | two strings have the same upper-case form exactly when they have the same length and agree position by position up to case |
| GoStrings.Utf8LenBounds | validation_test.go:370 | `len` counts 1 to 4 bytes per character, and equals the character count exactly for ASCII text |
| Strconv.ScanDigitsSpec | validation_test.go:404 | the unsigned scan returns the decimal value of a digit string that fits in 64 bits, `ErrRange` for one that does not, and an error for any non-digit |
| Strconv.AtoiSpec | validation_test.go:404-408 | Atoi succeeds exactly on an optional sign followed by digits whose value fits in a 64-bit int, and returns that value; such text out of range gives `ErrRange`; `ErrSyntax` implies malformed text |
| Strconv.ShortInputNeverOverflows | validation_test.go:404 | a parameter of at most 18 characters never fails with `ErrRange` |
| Strconv.AtoiItoa | validation_test.go:404 | Atoi reads back the decimal form of every 64-bit int |
| Validation.UsernameSpec | validation_test.go:362-376 | a string that is not its own upper-case form is rejected; a string shorter than 5 bytes is rejected; the rule passes exactly when the field is not a `string` or has no lower-case letter and is at least 5 bytes long |
| Validation.UsernameAscii | validation_test.go:363-375 | for ASCII text: passes exactly when there are at least 5 characters and none is lower case |
| Validation.UsernameExample | validation_test.go:388 | "JOKOSANTOSO" passes |
| Validation.PinPanicsExactlyOnBadParam | validation_test.go:404-408 | the rule panics, with Atoi's error, exactly when the parameter is not a decimal integer in the 64-bit range, whatever the value |
| Validation.DigitsByteLength | validation_test.go:415 | for a digit string, `len` is the character count |
| Validation.PinSpec | validation_test.go:401-416 | with parameter n, the rule returns true exactly when the field is of string kind, non-empty, all digits and n long; so the empty string always fails |
| Validation.PinWithFormattedLength | validation_test.go:403-416 | with parameter n written in decimal, the rule holds exactly for the strings of n > 0 digits |
| Validation.PinExamples | validation_test.go:424-429 | "123456" passes `valid_pin=6`; "" fails even `valid_pin=0` |
| Validation.EqualsIgnoreCaseSpec | validation_test.go:462-473 | an unresolved sibling gives false; a resolved one gives true exactly when both texts have the same length and agree position by position up to case |
| Validation.EqualsIgnoreCaseEquivalence | validation_test.go:469-472 | with the sibling resolved, the rule is reflexive, symmetric and transitive |
| Validation.EqualsIgnoreCaseIgnoresCase | validation_test.go:469-472 | a string matches its own upper-case form in both directions |
| Validation.EqualsIgnoreCaseExamples | validation_test.go:486-489 | "santoso@example.com" matches the equal email and does not match the phone "23242" |
| Validation.MustValidRegisterSuccess | validation_test.go:509-517 | at most one report; no report exactly when Username equals Email or Phone; any report is on "Username"/"Username", tagged `username_not_equals_email_or_phone`, with empty param and the username as its value |
| Validation.RegisterIgnoresPassword | validation_test.go:502-517 | the password does not affect the result, and every reported value is the username, never the email or the phone |
| Validation.RegisterExample | validation_test.go:523-528 | the example request produces no report |

## Left out

- The validator library (`Var`, `Struct`, tag parsing, `dive`/`keys`, the built-in rules, `RegisterValidation`, `RegisterAlias`, `RegisterStructValidation`) is not part of this model. Its source is not in the repository.
- The `Test*` functions are left out. They only configure the library and print the result. A few of their literal inputs appear as example lemmas.
- Reflection is left out. `Field()`, `Param()`, `GetStructFieldOK2()` and `Current()` become arguments. How the library resolves a sibling field's name is not modelled: the sibling arrives already resolved, or as `None`.
- The printing of `fmt` output is left out.
- GoStrings.ToUpper maps only the ASCII letters 'a'..'z'. Go's `strings.ToUpper` also maps non-ASCII letters, so `valid_username` and `equals_ignore_case` on non-ASCII text may differ from Go.
- Field text is assumed to be valid UTF-8. A Go `string` may hold any bytes, but a Dafny `string` holds only Unicode scalar values. Two behaviours on invalid bytes are therefore not modelled. First, `strings.ToUpper` replaces each invalid byte with U+FFFD, so Go's `valid_username` rejects `"\xffABCDE"`, because that text differs from its upper-case form. Second, Go's `equals_ignore_case` holds between `"\xff"` and `"\xfe"`, because both upper-case to `"\uFFFD"`. GoStrings.Utf8Len is Go's `len` only on valid UTF-8 text.
- Strconv.Atoi models a 64-bit `int`. On a 32-bit platform the range would be 32 bits.
- The regular expression engine is replaced by its meaning for `^[0-9]+$`: one or more ASCII digits, with `$` matching only at the end of the text.
- The text of a panic and of a `NumError` (function name, quoted input) is left out. Only the error kind is kept.
