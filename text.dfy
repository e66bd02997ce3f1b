/** The JavaScript string operations the extension relies on: `trim`,
    `toLowerCase` and `includes`. Strings are sequences of `char`; the
    model does not distinguish UTF-16 code units from Unicode scalar values. */
module Text {

  /** The white-space and line-terminator code units `String.prototype.trim`
      strips (the ASCII ones, no-break space, the byte-order mark and the
      common Unicode space separators). */
  predicate IsSpace(c: char) {
    c == ' ' || c == '\t' || c == '\n' || c == '\r' || c == '\U{B}' || c == '\U{C}'
    || c == '\U{A0}' || c == '\U{FEFF}' || c == '\U{1680}' || ('\U{2000}' <= c <= '\U{200A}')
    || c == '\U{2028}' || c == '\U{2029}' || c == '\U{202F}' || c == '\U{205F}' || c == '\U{3000}'
  }

  /** `s` without its leading white space (`TrimStartCutsOnlySpace` shows
      it is a suffix of `s` and that only white space is cut off). */
  function TrimStart(s: string): (r: string)
    ensures r == [] || !IsSpace(r[0])
    ensures |r| <= |s|
  {
    if s != [] && IsSpace(s[0]) then TrimStart(s[1..]) else s
  }

  /** `s` without its trailing white space (`TrimEndCutsOnlySpace` shows
      it is a prefix of `s` and that only white space is cut off). */
  function TrimEnd(s: string): (r: string)
    ensures r == [] || !IsSpace(r[|r| - 1])
    ensures |r| <= |s|
  {
    if s != [] && IsSpace(s[|s| - 1]) then TrimEnd(s[..|s| - 1]) else s
  }

  /** `String.prototype.trim`. */
  function Trim(s: string): string {
    TrimEnd(TrimStart(s))
  }

  /** Trimming the start keeps a suffix and cuts off white space only. */
  lemma {:induction false} TrimStartCutsOnlySpace(s: string)
    ensures TrimStart(s) == s[|s| - |TrimStart(s)|..]
    ensures forall i :: 0 <= i < |s| - |TrimStart(s)| ==> IsSpace(s[i])
  {
    if s != [] && IsSpace(s[0]) {
      TrimStartCutsOnlySpace(s[1..]);
    }
  }

  /** Trimming the end keeps a prefix and cuts off white space only. */
  lemma {:induction false} TrimEndCutsOnlySpace(s: string)
    ensures TrimEnd(s) == s[..|TrimEnd(s)|]
    ensures forall i :: |TrimEnd(s)| <= i < |s| ==> IsSpace(s[i])
  {
    if s != [] && IsSpace(s[|s| - 1]) {
      TrimEndCutsOnlySpace(s[..|s| - 1]);
    }
  }

  /** `trim` keeps one contiguous stretch of `s`, starting at `a`, and
      everything before and after that stretch is white space. */
  lemma TrimCutsOnlySpace(s: string)
    ensures var a := |s| - |TrimStart(s)|;
            a + |Trim(s)| <= |s|
            && Trim(s) == s[a..a + |Trim(s)|]
            && (forall i :: 0 <= i < a ==> IsSpace(s[i]))
            && (forall i :: a + |Trim(s)| <= i < |s| ==> IsSpace(s[i]))
  {
    var t := TrimStart(s);
    var r := TrimEnd(t);
    var a := |s| - |t|;
    TrimStartCutsOnlySpace(s);
    TrimEndCutsOnlySpace(t);
    assert t == s[a..];
    assert r == t[..|r|];
    assert s[a..a + |r|] == t[..|r|];
    forall i | a + |r| <= i < |s| ensures IsSpace(s[i]) {
      assert s[i] == t[i - a];
    }
  }

  /** A trimmed string neither starts nor ends with white space. */
  lemma TrimHasNoOuterSpace(s: string)
    ensures Trim(s) == [] || (!IsSpace(Trim(s)[0]) && !IsSpace(Trim(s)[|Trim(s)| - 1]))
  {
    TrimEndCutsOnlySpace(TrimStart(s));
  }

  /** A string without outer white space is its own trim. */
  lemma TrimOfTrimmed(s: string)
    requires s == [] || (!IsSpace(s[0]) && !IsSpace(s[|s| - 1]))
    ensures Trim(s) == s
  {
  }

  /** Trimming is idempotent. */
  lemma TrimIdempotent(s: string)
    ensures Trim(Trim(s)) == Trim(s)
  {
    TrimHasNoOuterSpace(s);
    TrimOfTrimmed(Trim(s));
  }

  /** `String.prototype.toLowerCase` on one code unit (ASCII letters only). */
  function LowerChar(c: char): char {
    if 'A' <= c <= 'Z' then (c as int + 32) as char else c
  }

  /** `String.prototype.toLowerCase`: maps every code unit, keeps the length. */
  function ToLower(s: string): (r: string)
    ensures |r| == |s|
    ensures forall i :: 0 <= i < |s| ==> r[i] == LowerChar(s[i])
  {
    if s == [] then [] else [LowerChar(s[0])] + ToLower(s[1..])
  }

  /** Lower-casing twice is lower-casing once. */
  lemma ToLowerIdempotent(s: string)
    ensures ToLower(ToLower(s)) == ToLower(s)
  {
  }

  /** `String.prototype.includes`: `needle` occurs somewhere in `hay`. */
  predicate Contains(hay: string, needle: string) {
    needle <= hay || (hay != [] && Contains(hay[1..], needle))
  }

  /** The key under which category names are compared: `name.trim().toLowerCase()`. */
  function Normalise(name: string): string {
    ToLower(Trim(name))
  }

  /** The trimmed name a new category is stored under normalises like the
      name that was typed, so a later lookup by either finds it. */
  lemma NormaliseTrim(name: string)
    ensures Normalise(Trim(name)) == Normalise(name)
  {
    TrimIdempotent(name);
  }
}
