/**
 * The validation attributes of System.ComponentModel.DataAnnotations that the
 * models use, with the semantics of their `IsValid` checks.
 */
module DataAnnotations {
  import opened Wrappers
  import opened Text

  /** `[Required]` with `AllowEmptyStrings = false`: rejects null, the empty
      string and strings made only of white space. */
  predicate Required(s: Option<string>) {
    !IsNullOrWhiteSpace(s)
  }

  /** `[StringLength(max, MinimumLength = min)]`: null is valid. */
  predicate StringLength(s: Option<string>, max: nat, min: nat) {
    s.None? || min <= |s.value| <= max
  }

  /** The outcome of `Regex.Match`: where the first match starts and how long it is. */
  datatype RegexMatch = NoMatch | Match(index: nat, length: nat)

  /** `[RegularExpression]`: null and the empty string are valid; otherwise
      the first match must start at 0 and cover the whole string. */
  predicate RegularExpression(s: Option<string>, m: RegexMatch) {
    s.None? || s.value == "" || (m.Match? && m.index == 0 && m.length == |s.value|)
  }

  /** A required field holds at least one character. */
  lemma RequiredNonEmpty(s: Option<string>)
    requires Required(s)
    ensures s.Some? && |s.value| >= 1
  {
  }
}
