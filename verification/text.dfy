/** Character classes and the `std::string` searches the scanner relies on.
    A `char` here stands for one byte of a file: the tool reads files as
    8-bit code units and never decodes them. */
module Text {

  datatype Option<+T> = None | Some(value: T)

  function Min(a: int, b: int): (r: int)
    ensures r <= a && r <= b && (r == a || r == b)
  {
    if a <= b then a else b
  }

  /** The pattern's `\s` in PCRE2's default 8-bit tables: space and the five
      control characters tab, LF, VT, FF, CR (codes 9 to 13). */
  predicate IsSpace(c: char) {
    c == ' ' || ('\t' <= c <= '\r')
  }

  /** The set " \t\n\r" that the field trimming strips: narrower than `\s`,
      since it leaves vertical tab and form feed alone. */
  predicate IsTrimSpace(c: char) {
    c == ' ' || c == '\t' || c == '\n' || c == '\r'
  }

  /** The pattern's `[a-zA-Z]`. */
  predicate IsLetter(c: char) {
    ('a' <= c <= 'z') || ('A' <= c <= 'Z')
  }

  predicate Occurs(s: string, pat: string, i: int) {
    0 <= i && i + |pat| <= |s| && s[i..i + |pat|] == pat
  }

  /** `s.find(pat, from)`: the first position at or after `from` where `pat`
      occurs, or None (npos). */
  function FindFrom(s: string, pat: string, from: nat): (r: Option<nat>)
    ensures r.Some? ==> from <= r.value && Occurs(s, pat, r.value)
    decreases |s| - from
  {
    if from + |pat| > |s| then None
    else if s[from..from + |pat|] == pat then Some(from)
    else FindFrom(s, pat, from + 1)
  }

  /** The search reports the first occurrence at or after `from`, and
      reports none only when there is none. */
  lemma {:induction false} FindFromFirst(s: string, pat: string, from: nat, j: nat)
    requires from <= j
    requires FindFrom(s, pat, from).None? || j < FindFrom(s, pat, from).value
    ensures !Occurs(s, pat, j)
    decreases |s| - from
  {
    if from + |pat| <= |s| && s[from..from + |pat|] != pat && from < j {
      FindFromFirst(s, pat, from + 1, j);
    }
  }

  /** Searching for a one-character string finds that character. */
  lemma OccursChar(s: string, c: char, i: int)
    ensures Occurs(s, [c], i) <==> 0 <= i < |s| && s[i] == c
  {
    if 0 <= i < |s| && s[i] == c {
      assert s[i..i + 1] == [c];
    }
  }
}
