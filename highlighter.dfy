/** The syntax-highlighting themes the editor offers (iced's `highlighter::Theme`). */
module Highlighter {

  datatype Theme = SolarizedDark | Base16Mocha | Base16Ocean | Base16Eighties | InspiredGitHub

  /** `Theme::is_dark`: every theme but InspiredGitHub has a dark background. */
  predicate IsDark(t: Theme) {
    !t.InspiredGitHub?
  }
}
