/**
 * Regular expressions, taken as given: compiling, quoting and matching are
 * supplied by a `Matcher`, as Go's `regexp` package supplies them.
 */
module Regex {
  import opened Wrappers

  /** A compiled expression, known by its source text (what `%+v` prints). */
  datatype Pattern = Pattern(source: string)

  /** A `FindStringIndex` answer is a span `[a, b)` of the searched text. */
  predicate SpanIn(m: Option<(nat, nat)>, s: string) {
    m.Some? ==> m.value.0 <= m.value.1 <= |s|
  }

  function NoMatch(p: Pattern, s: string): Option<(nat, nat)> {
    None
  }

  /** `FindStringIndex`: the leftmost match, as a span of the text. */
  type Finder = f: (Pattern, string) -> Option<(nat, nat)> | forall p, s :: SpanIn(f(p, s), s)
    witness NoMatch

  datatype Matcher = Matcher(
    compile: string -> Option<Pattern>,   // regexp.Compile; None on a syntax error
    quoteMeta: string -> string,          // regexp.QuoteMeta
    matches: (Pattern, string) -> bool,   // MatchString
    find: Finder)                         // FindStringIndex

  /** The built-in keyword highlighter `reKeywords`. */
  const KeywordPattern := Pattern(@"\b((?i)error|err|panic|closed?|invalid)\b")
}
