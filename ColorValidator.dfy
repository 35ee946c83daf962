/**
 * `validate_color` of backend/recipes/validators.py: a tag colour must
 * match `^#([A-Fa-f0-9]{6})$` under `re.match`.
 */
module ColorValidator {
  import opened Common

  /** `DICT_ERRORS['validator_color']` */
  const ColorMessage: string := "Поле должно содержать HEX-код цвета в формате #RRGGBB"

  predicate IsHexDigit(c: char)
  {
    'A' <= c <= 'F' || 'a' <= c <= 'f' || '0' <= c <= '9'
  }

  /** Python's `$` without MULTILINE: the end of the string, or just before a final newline. */
  predicate DollarAt(s: string, i: nat)
  {
    i == |s| || (i == |s| - 1 && s[i] == '\n')
  }

  /** `re.match(r"^#([A-Fa-f0-9]{6})$", value)` succeeds. */
  predicate ColorPatternMatches(value: string)
    ensures ColorPatternMatches(value) ==>
              (|value| == 7 || (|value| == 8 && value[7] == '\n')) && value[0] == '#'
  {
    |value| >= 7 && value[0] == '#' &&
    (forall i :: 1 <= i < 7 ==> IsHexDigit(value[i])) &&
    DollarAt(value, 7)
  }

  /** `validate_color`: nothing on a match, the fixed message otherwise. */
  function ValidateColor(value: string): (r: Result<(), string>)
    ensures r.Ok? <==> ColorPatternMatches(value)
    ensures r.Err? ==> r.error == ColorMessage
  {
    if ColorPatternMatches(value) then Ok(()) else Err(ColorMessage)
  }

  /** The `#RRGGBB` form is exactly what is accepted, up to a single final newline. */
  lemma ColorAcceptedIff(value: string)
    ensures ValidateColor(value).Ok? <==>
            (|value| == 7 || (|value| == 8 && value[7] == '\n')) &&
            value[0] == '#' && forall i :: 1 <= i < 7 ==> IsHexDigit(value[i])
  {
  }

  /** A valid colour followed by a newline passes too, since `$` matches before it. */
  lemma TrailingNewlineAccepted(value: string)
    requires ValidateColor(value).Ok? && |value| == 7
    ensures ValidateColor(value + "\n").Ok?
  {
    var v := value + "\n";
    assert forall i :: 0 <= i < 7 ==> v[i] == value[i];
  }

  /** Short, long and unprefixed values are refused. */
  lemma ColorRejections()
    ensures ValidateColor("#FFF").Err?
    ensures ValidateColor("#0000000").Err?
    ensures ValidateColor("000000").Err?
    ensures ValidateColor("#00GG00").Err?
    ensures ValidateColor("#a1B2c3").Ok?
  {
    assert "#00GG00"[3] == 'G';
  }
}
