/**
 * The placeholder tokens a CiviCARROT matrix may carry before substitution.
 * Both builders spell them the same way.
 */
module Placeholders {
  import opened Json

  datatype Token =
    | CiviDev
    | CiviReleaseCandidate
    | CiviLatest
    | DrupalLatest
    | DrupalPrior
    | PhpSensible

  /** The literal text of a token as it appears in a manifest. */
  function TokenText(t: Token): string {
    match t
    case CiviDev => "CIVICARROT_CIVI_DEV"
    case CiviReleaseCandidate => "CIVICARROT_CIVI_RELEASECANDIDATE"
    case CiviLatest => "CIVICARROT_CIVI_LATEST"
    case DrupalLatest => "CIVICARROT_DRUPAL_LATEST"
    case DrupalPrior => "CIVICARROT_DRUPAL_PRIOR"
    case PhpSensible => "CIVICARROT_PHP_SENSIBLE"
  }

  /** Upper-case letters and underscores: the only characters token texts use. */
  predicate TokenChar(c: char) {
    'A' <= c <= 'Z' || c == '_'
  }

  /** Every token text is non-empty, made of token characters, and so written verbatim by `json_encode`. */
  lemma TokenTextShape(t: Token)
    ensures TokenText(t) != []
    ensures forall i :: 0 <= i < |TokenText(t)| ==> TokenChar(TokenText(t)[i])
    ensures Plain(TokenText(t))
  {
  }

  /** Distinct tokens have distinct texts. */
  lemma TokenTextInjective(t: Token, u: Token)
    requires TokenText(t) == TokenText(u)
    ensures t == u
  {
  }
}
