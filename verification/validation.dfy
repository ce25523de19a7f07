/**
 * The `validate` callbacks of the profile form
 * (src/views/EditProfile/EditProfile.tsx): each tries its checks in a fixed
 * order and returns the message key of the first that fails, or nothing
 * when the value is accepted. JavaScript strings, their `length`, `charAt`
 * and regular expressions without the `u` flag all work on UTF-16 code
 * units, so a value is a sequence of code units here.
 */
module ProfileValidation {
  import opened Wrappers

  /** One UTF-16 code unit. */
  type CodeUnit = c: int | 0 <= c < 0x1_0000

  /** The message keys under `validationErrors` (the last key keeps the source's spelling). */
  datatype Message =
    | FieldCanNotBeEmpty
    | FieldMustContainOnlyLatinLetters
    | FieldMustStartWithCapitalLetter
    | FieldCanNotBeShorterThan4Characters
    | FieldCanNotBeLongerThan20Characters
    | FieldMustContainOnlyLetters
    | FieldMustContainAtLeast1Letter
    | FieldMustContainAtLeast1Digit
    | FieldCanNotBeShorterThan6Characters
    | FieldMustContainAtLeast1Undescore

  /** `[A-Z]` */
  predicate IsLatinUpper(c: CodeUnit) { 'A' as int <= c <= 'Z' as int }
  /** `[a-z]` */
  predicate IsLatinLower(c: CodeUnit) { 'a' as int <= c <= 'z' as int }
  /** `[А-Я]`: U+0410 to U+042F, which leaves out Ё (U+0401). */
  predicate IsCyrillicUpper(c: CodeUnit) { 0x0410 <= c <= 0x042F }
  /** `[а-я]`: U+0430 to U+044F, which leaves out ё (U+0451). */
  predicate IsCyrillicLower(c: CodeUnit) { 0x0430 <= c <= 0x044F }
  /** `[0-9]` */
  predicate IsDigit(c: CodeUnit) { '0' as int <= c <= '9' as int }
  /** `[_]` */
  predicate IsUnderscore(c: CodeUnit) { c == '_' as int }

  /** `[A-Za-zА-Яа-я]` */
  predicate IsLetter(c: CodeUnit) {
    IsLatinUpper(c) || IsLatinLower(c) || IsCyrillicUpper(c) || IsCyrillicLower(c)
  }

  /** `[A-Za-z0-9_]` */
  predicate IsLoginUnit(c: CodeUnit) {
    IsLatinUpper(c) || IsLatinLower(c) || IsDigit(c) || IsUnderscore(c)
  }

  /** `/^[A-Za-z0-9_]*$/.test(v)` */
  predicate OnlyLoginUnits(v: seq<CodeUnit>) { forall i :: 0 <= i < |v| ==> IsLoginUnit(v[i]) }
  /** `/^[A-Za-zА-Яа-я]*$/.test(v)` */
  predicate OnlyLetters(v: seq<CodeUnit>) { forall i :: 0 <= i < |v| ==> IsLetter(v[i]) }
  /** `/[A-Za-zА-Яа-я]/.test(v)` */
  predicate HasLetter(v: seq<CodeUnit>) { exists i :: 0 <= i < |v| && IsLetter(v[i]) }
  /** `/[0-9]/.test(v)` */
  predicate HasDigit(v: seq<CodeUnit>) { exists i :: 0 <= i < |v| && IsDigit(v[i]) }
  /** `/[_]/.test(v)` */
  predicate HasUnderscore(v: seq<CodeUnit>) { exists i :: 0 <= i < |v| && IsUnderscore(v[i]) }

  /**
   * The login check. It is accepted exactly when it holds only `[A-Za-z0-9_]`,
   * starts with `[A-Z]` and has 4 to 20 code units; the empty login gets the
   * "empty" key, and a login that is well formed but too long gets the
   * "longer than 20" key.
   */
  function ValidateLogin(v: seq<CodeUnit>): (r: Option<Message>)
    ensures r == None <==> |v| > 0 && OnlyLoginUnits(v) && IsLatinUpper(v[0]) && 4 <= |v| <= 20
    ensures r == Some(FieldCanNotBeEmpty) <==> v == []
    ensures r == Some(FieldCanNotBeLongerThan20Characters) <==> |v| > 20 && OnlyLoginUnits(v) && IsLatinUpper(v[0])
    ensures r == Some(FieldMustContainOnlyLatinLetters) <==> v != [] && !OnlyLoginUnits(v)
    ensures r == Some(FieldMustStartWithCapitalLetter) <==> v != [] && OnlyLoginUnits(v) && !IsLatinUpper(v[0])
    ensures r == Some(FieldCanNotBeShorterThan4Characters) <==> 0 < |v| < 4 && OnlyLoginUnits(v) && IsLatinUpper(v[0])
  {
    if v == [] then Some(FieldCanNotBeEmpty)
    else if !OnlyLoginUnits(v) then Some(FieldMustContainOnlyLatinLetters)
    else if !IsLatinUpper(v[0]) then Some(FieldMustStartWithCapitalLetter)
    else if |v| < 4 then Some(FieldCanNotBeShorterThan4Characters)
    else if |v| > 20 then Some(FieldCanNotBeLongerThan20Characters)
    else None
  }

  /**
   * The name check: the capital first letter (Latin or Cyrillic) is checked
   * before the letters-only rule, the reverse of the login's order. It is
   * accepted exactly when it starts with `[A-ZА-Я]`, holds only letters and
   * has 4 to 20 code units.
   */
  function ValidateName(v: seq<CodeUnit>): (r: Option<Message>)
    ensures r == None <==> |v| > 0 && (IsLatinUpper(v[0]) || IsCyrillicUpper(v[0])) && OnlyLetters(v) && 4 <= |v| <= 20
    ensures r == Some(FieldCanNotBeEmpty) <==> v == []
    ensures r == Some(FieldCanNotBeLongerThan20Characters) <==> |v| > 20 && (IsLatinUpper(v[0]) || IsCyrillicUpper(v[0])) && OnlyLetters(v)
    ensures r == Some(FieldMustStartWithCapitalLetter) <==> v != [] && !IsLatinUpper(v[0]) && !IsCyrillicUpper(v[0])
    ensures r == Some(FieldMustContainOnlyLetters) <==> v != [] && (IsLatinUpper(v[0]) || IsCyrillicUpper(v[0])) && !OnlyLetters(v)
    ensures r == Some(FieldCanNotBeShorterThan4Characters) <==> 0 < |v| < 4 && (IsLatinUpper(v[0]) || IsCyrillicUpper(v[0])) && OnlyLetters(v)
  {
    if v == [] then Some(FieldCanNotBeEmpty)
    else if !(IsLatinUpper(v[0]) || IsCyrillicUpper(v[0])) then Some(FieldMustStartWithCapitalLetter)
    else if !OnlyLetters(v) then Some(FieldMustContainOnlyLetters)
    else if |v| < 4 then Some(FieldCanNotBeShorterThan4Characters)
    else if |v| > 20 then Some(FieldCanNotBeLongerThan20Characters)
    else None
  }

  /**
   * The password check. It is accepted exactly when it has a letter, a digit
   * and an underscore and 6 to 20 code units; no other code unit is refused.
   */
  function ValidatePassword(v: seq<CodeUnit>): (r: Option<Message>)
    ensures r == None <==> HasLetter(v) && HasDigit(v) && HasUnderscore(v) && 6 <= |v| <= 20
    ensures r == Some(FieldCanNotBeEmpty) <==> v == []
    ensures r == Some(FieldCanNotBeLongerThan20Characters) <==> |v| > 20 && HasLetter(v) && HasDigit(v) && HasUnderscore(v)
    ensures r == Some(FieldMustContainAtLeast1Letter) <==> v != [] && !HasLetter(v)
    ensures r == Some(FieldMustContainAtLeast1Digit) <==> v != [] && HasLetter(v) && !HasDigit(v)
    ensures r == Some(FieldMustContainAtLeast1Undescore) <==> v != [] && HasLetter(v) && HasDigit(v) && !HasUnderscore(v)
    ensures r == Some(FieldCanNotBeShorterThan6Characters) <==> |v| < 6 && HasLetter(v) && HasDigit(v) && HasUnderscore(v)
  {
    if v == [] then Some(FieldCanNotBeEmpty)
    else if !HasLetter(v) then Some(FieldMustContainAtLeast1Letter)
    else if !HasDigit(v) then Some(FieldMustContainAtLeast1Digit)
    else if !HasUnderscore(v) then Some(FieldMustContainAtLeast1Undescore)
    else if |v| < 6 then Some(FieldCanNotBeShorterThan6Characters)
    else if |v| > 20 then Some(FieldCanNotBeLongerThan20Characters)
    else None
  }

  /** No accepted login, name or password is longer than 20 code units. */
  lemma AcceptedAtMost20(v: seq<CodeUnit>)
    ensures ValidateLogin(v) == None ==> |v| <= 20
    ensures ValidateName(v) == None ==> |v| <= 20
    ensures ValidatePassword(v) == None ==> |v| <= 20
  {
  }

  /** "1abc": a name with a bad first character is reported as such, though it also holds a digit. */
  lemma NameChecksCapitalFirst()
    ensures ValidateName(['1' as int, 'a' as int, 'b' as int, 'c' as int]) == Some(FieldMustStartWithCapitalLetter)
  {
  }

  /**
   * A login is checked for its character set first: "a-bc", which also
   * starts in lower case, gets the character-set key, while "1abc", which
   * holds only `[A-Za-z0-9_]`, gets the capital-letter key.
   */
  lemma LoginChecksCharsetFirst()
    ensures ValidateLogin(['a' as int, '-' as int, 'b' as int, 'c' as int]) == Some(FieldMustContainOnlyLatinLetters)
    ensures ValidateLogin(['1' as int, 'a' as int, 'b' as int, 'c' as int]) == Some(FieldMustStartWithCapitalLetter)
  {
    var w: seq<CodeUnit> := ['a' as int, '-' as int, 'b' as int, 'c' as int];
    assert !IsLoginUnit(w[1]);
    var v: seq<CodeUnit> := ['1' as int, 'a' as int, 'b' as int, 'c' as int];
    assert OnlyLoginUnits(v) by {
      forall i | 0 <= i < |v| ensures IsLoginUnit(v[i]) {
      }
    }
  }

  /** Cyrillic capitals start a name, and "Ёлка" does not: Ё lies outside А-Я. */
  lemma CyrillicNames()
    ensures ValidateName([0x0418, 0x0432, 0x0430, 0x043D]) == None
    ensures ValidateName([0x0401, 0x043B, 0x043A, 0x0430]) == Some(FieldMustStartWithCapitalLetter)
  {
  }

  /**
   * Appending any code unit at all to an accepted password that is shorter
   * than 20 gives an accepted password: the check restricts no character.
   */
  lemma {:induction false} PasswordAcceptsAnyExtraUnit(v: seq<CodeUnit>, c: CodeUnit)
    requires ValidatePassword(v) == None && |v| < 20
    ensures ValidatePassword(v + [c]) == None
  {
    var w := v + [c];
    var i :| 0 <= i < |v| && IsLetter(v[i]);
    assert w[i] == v[i];
    var j :| 0 <= j < |v| && IsDigit(v[j]);
    assert w[j] == v[j];
    var k :| 0 <= k < |v| && IsUnderscore(v[k]);
    assert w[k] == v[k];
  }
}
