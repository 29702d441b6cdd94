/**
  The small validators and parsers of strutils/strutils.go. The environment is a map from key to
  value; `unicode.IsLetter` and `unicode.IsDigit` are inputs.
*/
module StrUtils {
  import opened Wrappers
  import Text
  import Decimal
  import Database

  const MinPasswordBytes: int := 8
  const MaxPasswordBytes: int := 30

  datatype PasswordError = LengthInvalid | InvalidCharacter

  /** A rune the password may contain: a letter or a digit. */
  predicate Alphanumeric(c: char, isLetter: char -> bool, isDigit: char -> bool) {
    isLetter(c) || isDigit(c)
  }

  /**
    The first rune of `s` that is neither a letter nor a digit, as the `for range` loop meets
    it: its index, or None when every rune is allowed.
  */
  function FirstInvalid(s: string, isLetter: char -> bool, isDigit: char -> bool): (r: Option<nat>)
    ensures r.None? <==> forall i :: 0 <= i < |s| ==> Alphanumeric(s[i], isLetter, isDigit)
    ensures r.Some? ==>
      r.value < |s| && !Alphanumeric(s[r.value], isLetter, isDigit)
      && forall j :: 0 <= j < r.value ==> Alphanumeric(s[j], isLetter, isDigit)
  {
    if s == [] then None
    else if !isLetter(s[0]) && !isDigit(s[0]) then Some(0)
    else
      var rest := FirstInvalid(s[1..], isLetter, isDigit);
      assert forall i :: 1 <= i < |s| ==> s[i] == s[1..][i - 1];
      match rest
      case None => None
      case Some(k) => Some(k + 1)
  }

  /**
    ValidatePassword: the length in UTF-8 bytes must lie in 8..30, and then every rune must be a
    letter or a digit. The length is checked first, so an over-long password of bad characters
    reports its length.
  */
  function ValidatePassword(password: string, isLetter: char -> bool, isDigit: char -> bool)
    : (err: Option<PasswordError>)
    ensures err == Some(LengthInvalid) <==>
      !(MinPasswordBytes <= Text.ByteLen(password) <= MaxPasswordBytes)
    ensures err == Some(InvalidCharacter) <==>
      MinPasswordBytes <= Text.ByteLen(password) <= MaxPasswordBytes
      && exists i :: 0 <= i < |password| && !Alphanumeric(password[i], isLetter, isDigit)
    ensures err.None? <==>
      MinPasswordBytes <= Text.ByteLen(password) <= MaxPasswordBytes
      && forall i :: 0 <= i < |password| ==> Alphanumeric(password[i], isLetter, isDigit)
  {
    var n := Text.ByteLen(password);
    if n < MinPasswordBytes || n > MaxPasswordBytes then Some(LengthInvalid)
    else if FirstInvalid(password, isLetter, isDigit).Some? then Some(InvalidCharacter)
    else None
  }

  /** InitNullString: always a present value, the empty string included. */
  function InitNullString(s: string): (n: Database.NullString)
    ensures n.valid && n.str == s
  {
    Database.NullString(s, true)
  }

  /** QueryParameterToNullString: an absent query parameter ("") becomes SQL NULL. */
  function QueryParameterToNullString(s: string): (n: Database.NullString)
    ensures n.valid <==> s != ""
    ensures n.str == s
  {
    Database.NullString(s, s != "")
  }

  /** The two conversions agree exactly on the non-empty strings. */
  lemma NullStringsAgreeUnlessEmpty(s: string)
    ensures InitNullString(s) == QueryParameterToNullString(s) <==> s != ""
  {
  }

  datatype EnvError = NoValueFound | ValueNotNumeric | ValueNegative

  /**
    GetIntegerEnvironmentVariable: the value under `key`, read as a base-10 integer with
    `strconv.Atoi`, which must be strictly positive.
  */
  function GetIntegerEnvironmentVariable(env: map<string, string>, key: string): (r: Result<int, EnvError>)
    ensures r == Err(NoValueFound) <==> key !in env
    ensures r == Err(ValueNotNumeric) <==> key in env && Decimal.Atoi(env[key]).None?
    ensures r == Err(ValueNegative) <==>
      key in env && Decimal.Atoi(env[key]).Some? && Decimal.Atoi(env[key]).value <= 0
    ensures r.Ok? ==> r.value > 0 && Decimal.Atoi(env[key]) == Some(r.value)
  {
    if key !in env then Err(NoValueFound)
    else
      match Decimal.Atoi(env[key])
      case None => Err(ValueNotNumeric)
      case Some(v) => if v <= 0 then Err(ValueNegative) else Ok(v)
  }

  /** A positive setting written in decimal is read back as itself. */
  lemma EnvironmentRoundTrip(env: map<string, string>, key: string, v: int)
    requires 0 < v < Decimal.Pow2(63)
    ensures GetIntegerEnvironmentVariable(env[key := Decimal.FormatInt(v)], key) == Ok(v)
  {
    Decimal.ParseIntAcceptsFormattedInRange(v, 64);
  }

  datatype PathError = IncorrectPublicIDLength

  /**
    GetPublicIDFromPathValue: the path value is returned only when its length in bytes is the
    configured public-ID length. (On failure Go also returns "", which no caller reads.)
  */
  function GetPublicIDFromPathValue(value: string, publicIDLength: int): (r: Result<string, PathError>)
    ensures r.Ok? <==> Text.ByteLen(value) == publicIDLength
    ensures r.Ok? ==> r.value == value
  {
    if Text.ByteLen(value) != publicIDLength then Err(IncorrectPublicIDLength) else Ok(value)
  }

  /**
    For an ASCII path value the byte test is the character count; a value holding any other
    rune is refused even when it has exactly the configured number of characters.
  */
  lemma {:induction false} PathValueLengthInBytes(value: string, publicIDLength: int)
    ensures Text.IsAscii(value) ==> (GetPublicIDFromPathValue(value, publicIDLength).Ok? <==> |value| == publicIDLength)
    ensures !Text.IsAscii(value) && |value| == publicIDLength ==>
      GetPublicIDFromPathValue(value, publicIDLength) == Err(IncorrectPublicIDLength)
  {
    Text.ByteLenAtLeastLength(value);
  }
}
