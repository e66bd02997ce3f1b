/** `truncateText` (src/utils/truncateText.ts): shortens labels and host
    names for display. */
module TruncateText {

  /** The default `maxLength`. */
  const DefaultMaxLength: int := 24

  /** The ellipsis appended to a shortened text. */
  const Ellipsis: string := "..."

  /** `text.substring(0, n)` for `n <= |text|`: a negative end counts as 0. */
  function PrefixUpTo(text: string, n: int): (r: string)
    requires n <= |text|
    ensures r <= text
    ensures |r| == if n < 0 then 0 else n
  {
    if n < 0 then [] else text[..n]
  }

  /** Text no longer than `maxLength` is kept; longer text keeps its first
      `maxLength - 3` characters (none when that is negative) and gets "...". */
  function Truncate(text: string, maxLength: int): (r: string)
    ensures |text| <= maxLength ==> r == text
    ensures |text| > maxLength ==>
              |r| >= 3 && r[|r| - 3..] == Ellipsis && r[..|r| - 3] <= text
    ensures |text| > maxLength && maxLength >= 3 ==> |r| == maxLength
    ensures |text| > maxLength && maxLength < 3 ==> r == Ellipsis
    ensures maxLength >= 3 ==> |r| <= maxLength
  {
    if |text| > maxLength then PrefixUpTo(text, maxLength - 3) + Ellipsis else text
  }

  /** A truncated text is not shortened again: with room for the ellipsis it
      fits, and without room it is the bare ellipsis, which truncates to itself. */
  lemma TruncateIdempotent(text: string, maxLength: int)
    ensures Truncate(Truncate(text, maxLength), maxLength) == Truncate(text, maxLength)
  {
  }

  /** With the default length, anything longer than 24 characters becomes its
      first 21 characters and "...". */
  lemma TruncateDefault(text: string)
    requires |text| > DefaultMaxLength
    ensures Truncate(text, DefaultMaxLength) == text[..21] + Ellipsis
  {
  }
}
