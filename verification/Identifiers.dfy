/** Prefixed identifiers: a fixed prefix, a colon, and a token of 1 to 64 lower-case ASCII characters. */
module Identifiers {
  import opened Text

  const COLON: CodeUnit := 0x3a

  predicate AlphaNumeric(u: CodeUnit) {
    (0x30 <= u <= 0x39) || (0x61 <= u <= 0x7a)
  }

  /** Letters, digits, full stop, underscore and hyphen. */
  predicate TokenUnit(u: CodeUnit) {
    AlphaNumeric(u) || u == 0x2e || u == 0x5f || u == 0x2d
  }

  predicate ValidToken(t: Text) {
    && 1 <= |t| <= 64
    && (forall i :: 0 <= i < |t| ==> TokenUnit(t[i]))
    && AlphaNumeric(t[0])
    && AlphaNumeric(t[|t| - 1])
  }

  /** The prefix ends at the first colon, so a prefix without a colon is matched exactly. */
  predicate ValidIdentifier(prefix: Text, id: Text) {
    && |prefix| + 1 <= |id|
    && id[..|prefix|] == prefix
    && id[|prefix|] == COLON
    && ValidToken(id[|prefix| + 1..])
  }

  const SITE: Text := Ascii("site")
  const ZONE: Text := Ascii("zone")
  const RULE: Text := Ascii("rule")
  const SCENARIO: Text := Ascii("scenario")
  const ROBOT: Text := Ascii("robot")
  const ROBOT_BUILD: Text := Ascii("robot-build")
  const EVALUATOR_VERSION: Text := Ascii("evaluator-version")
  const EVALUATION: Text := Ascii("evaluation")
  const CLEARANCE: Text := Ascii("clearance")
  const SAFETY_ENVELOPE: Text := Ascii("safety-envelope")
}
