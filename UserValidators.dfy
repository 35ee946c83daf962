/**
 * `validate_username` of backend/users/validators.py: a username is one or
 * more characters drawn from word characters and `.`, `@`, `+`, `-`, and is
 * not the reserved name `me` in any letter case.
 */
module UserValidators {
  import opened Common

  /** `CONST['forbidden_username']` */
  const ForbiddenUsername: string := "me"

  /**
   * `\w` restricted to the scripts the service's users write in: ASCII
   * letters, digits and the underscore, and the Russian alphabet.
   */
  predicate IsWordChar(c: char)
  {
    'a' <= c <= 'z' || 'A' <= c <= 'Z' || '0' <= c <= '9' || c == '_' ||
    'А' <= c <= 'я' || c == 'Ё' || c == 'ё'
  }

  /** The character class `[\w.@+-]`. */
  predicate IsUsernameChar(c: char)
  {
    IsWordChar(c) || c == '.' || c == '@' || c == '+' || c == '-'
  }

  /**
   * `re.search(r"^[\w.@+-]+\Z", value)` succeeds: the whole string, from its
   * first character to its very end, is a non-empty run of the class.
   */
  predicate UsernamePatternMatches(value: string)
    ensures UsernamePatternMatches(value) ==> value != [] && '\n' !in value
  {
    |value| >= 1 && forall i :: 0 <= i < |value| ==> IsUsernameChar(value[i])
  }

  /** `set(re.findall(r"[^\w.@+-]", value))`: every character outside the class. */
  function Offending(value: string): (r: set<char>)
    ensures forall c :: c in r <==> c in value && !IsUsernameChar(c)
  {
    set c | c in value && !IsUsernameChar(c)
  }

  /** `str.lower` on ASCII letters; every other character is left alone. */
  function Lower(s: string): (r: string)
    ensures |r| == |s|
    ensures forall i :: 0 <= i < |s| ==>
              r[i] == (if 'A' <= s[i] <= 'Z' then (s[i] as int + 32) as char else s[i])
  {
    if s == [] then [] else
      var c := s[0];
      [if 'A' <= c <= 'Z' then (c as int + 32) as char else c] + Lower(s[1..])
  }

  datatype UsernameError =
    | ForbiddenSymbols(symbols: set<char>)
    | ReservedName(name: string)

  /** `validate_username`: the character check first, then the reserved name. */
  function ValidateUsername(value: string): (r: Result<(), UsernameError>)
    ensures r.Ok? <==> UsernamePatternMatches(value) && Lower(value) != ForbiddenUsername
    ensures !UsernamePatternMatches(value) ==> r == Err(ForbiddenSymbols(Offending(value)))
    ensures UsernamePatternMatches(value) && Lower(value) == ForbiddenUsername ==>
              r == Err(ReservedName(ForbiddenUsername))
  {
    if !UsernamePatternMatches(value) then Err(ForbiddenSymbols(Offending(value)))
    else if Lower(value) == ForbiddenUsername then Err(ReservedName(ForbiddenUsername))
    else Ok(())
  }

  /**
   * A non-empty value fails the character check exactly when it has a
   * character outside the class, and the error then names at least one.
   */
  lemma OffendingExplainsRejection(value: string)
    requires |value| > 0
    ensures !UsernamePatternMatches(value) <==> Offending(value) != {}
  {
    if !UsernamePatternMatches(value) {
      var i :| 0 <= i < |value| && !IsUsernameChar(value[i]);
      assert value[i] in Offending(value);
    } else {
      forall c | c in value ensures c !in Offending(value) {
        var i :| 0 <= i < |value| && value[i] == c;
      }
      assert Offending(value) == {};
    }
  }

  /** A Cyrillic username is a valid one. */
  lemma CyrillicUsernameAccepted()
    ensures ValidateUsername("Иван_ё.1").Ok?
  {
    var v := "Иван_ё.1";
    assert forall i :: 0 <= i < |v| ==> IsUsernameChar(v[i]);
    assert Lower(v)[0] == v[0];
  }

  /** The empty username is refused, with an empty set of offending symbols. */
  lemma EmptyUsernameRejected()
    ensures ValidateUsername("") == Err(ForbiddenSymbols({}))
  {
    assert Offending("") == {};
  }

  /** `\Z`, unlike `$`, does not let a trailing newline through. */
  lemma TrailingNewlineRejected(value: string)
    ensures ValidateUsername(value + "\n") == Err(ForbiddenSymbols(Offending(value + "\n")))
    ensures '\n' in Offending(value + "\n")
  {
    var v := value + "\n";
    assert v[|v| - 1] == '\n';
  }

  /** Every spelling of `me` is refused as the reserved name, and only those two-letter names. */
  lemma ReservedNameAnyCase(value: string)
    requires |value| == 2
    ensures ValidateUsername(value) == Err(ReservedName("me")) <==>
            (value[0] == 'm' || value[0] == 'M') && (value[1] == 'e' || value[1] == 'E')
  {
    var low := Lower(value);
    assert low == "me" <==> low[0] == 'm' && low[1] == 'e';
  }
}
