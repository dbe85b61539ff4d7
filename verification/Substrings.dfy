module Substrings {
  predicate ContainsAt(needle: string, text: string, i: nat)
    requires i <= |text|
  {
    needle <= text[i..]
  }

  /** `needle in text`. */
  predicate Contains(needle: string, text: string) {
    exists i: nat :: i <= |text| && ContainsAt(needle, text, i)
  }
}
