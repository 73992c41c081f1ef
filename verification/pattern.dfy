/** The meaning of the fixed pattern compiled in main,

      myFunction\s*\("\s*([a-zA-Z]+)\s+([^"]*)"\)\s*;

    stated as a greedy parser (ParseAt) next to the language it accepts
    (Derives). The MULTILINE and DOTALL options change nothing because the
    pattern has no `^`, `$` or `.`. pcre2_match is called without options,
    so the match is not anchored: the leftmost starting position wins
    (SearchFrom). Offsets are those of the ovector: half-open ranges into
    the searched text. */
module Pattern {
  import opened Text

  const Marker: string := "myFunction"

  datatype CharClass = Space | Letter | NotQuote

  predicate InClass(c: char, cls: CharClass) {
    match cls
    case Space => IsSpace(c)
    case Letter => IsLetter(c)
    case NotQuote => c != '"'
  }

  /** Every character of `w[lo..hi]` is in `cls`. */
  predicate AllIn(w: string, lo: int, hi: int, cls: CharClass) {
    0 <= lo <= hi <= |w| && forall k {:trigger InClass(w[k], cls)} :: lo <= k < hi ==> InClass(w[k], cls)
  }

  /** Where a greedy `cls*` starting at `from` stops: the end of the longest
      run of `cls` characters. */
  function RunEnd(w: string, from: nat, cls: CharClass): (r: nat)
    requires from <= |w|
    ensures from <= r <= |w|
    ensures r < |w| ==> !InClass(w[r], cls)
    decreases |w| - from
  {
    if from == |w| || !InClass(w[from], cls) then from
    else RunEnd(w, from + 1, cls)
  }

  /** Everything RunEnd steps over is in the class. */
  lemma {:induction false} RunEndAllIn(w: string, from: nat, cls: CharClass)
    requires from <= |w|
    ensures AllIn(w, from, RunEnd(w, from, cls), cls)
    decreases |w| - from
  {
    if from < |w| && InClass(w[from], cls) {
      RunEndAllIn(w, from + 1, cls);
    }
  }

  /** A run that stops at a character outside the class, or at the end of
      the text, is the one RunEnd finds. */
  lemma {:induction false} RunEndUnique(w: string, from: nat, x: nat, cls: CharClass)
    requires AllIn(w, from, x, cls)
    requires x < |w| ==> !InClass(w[x], cls)
    ensures RunEnd(w, from, cls) == x
    decreases x - from
  {
    if from < x {
      RunEndUnique(w, from + 1, x, cls);
    }
  }

  /** Positions of one way to read a call: `open` is the `(`, group 1 is
      `[tagLo, tagHi)`, group 2 is `[identLo, identHi)` and `semi` is the
      final `;`. */
  datatype Parse = Parse(open: nat, tagLo: nat, tagHi: nat, identLo: nat, identHi: nat, semi: nat)

  datatype Span = Span(lo: nat, hi: nat)

  /** The ovector of a successful match: the whole match, group 1, group 2. */
  datatype Match = Match(full: Span, tag: Span, ident: Span)

  /** Marker, `\s*`, `("`, `\s*`, then group 1 as `[tagLo, tagHi)`: a
      reading of the part of a call up to its first group. The two
      characters of `("` are adjacent. */
  ghost predicate HeadDerives(w: string, lo: nat, open: nat, tagLo: nat, tagHi: nat) {
    && Occurs(w, Marker, lo)
    && AllIn(w, lo + |Marker|, open, Space)
    && open + 1 < |w| && w[open] == '(' && w[open + 1] == '"'
    && AllIn(w, open + 2, tagLo, Space)
    && tagLo < tagHi && AllIn(w, tagLo, tagHi, Letter)
  }

  /** `\s+` after group 1, group 2 as `[identLo, identHi)`, `")`, `\s*`
      and the `;` at `semi`: a reading of the rest of a call. The two
      characters of `")` are adjacent. */
  ghost predicate TailDerives(w: string, tagHi: nat, identLo: nat, identHi: nat, semi: nat) {
    && tagHi < identLo && AllIn(w, tagHi, identLo, Space)
    && AllIn(w, identLo, identHi, NotQuote)
    && identHi + 1 < |w| && w[identHi] == '"' && w[identHi + 1] == ')'
    && AllIn(w, identHi + 2, semi, Space)
    && semi < |w| && w[semi] == ';'
  }

  /** `w[lo..p.semi + 1]` is a word of the pattern's language, with its
      groups where `p` puts them. */
  ghost predicate Derives(w: string, lo: nat, p: Parse) {
    HeadDerives(w, lo, p.open, p.tagLo, p.tagHi) && TailDerives(w, p.tagHi, p.identLo, p.identHi, p.semi)
  }

  /** The greedy matcher up to group 1: gives `(open, tagLo, tagHi)`. */
  function ParseHead(w: string, lo: nat): (r: Option<(nat, nat, nat)>)
    ensures r.Some? ==> lo + |Marker| <= r.value.0 && r.value.0 + 2 <= r.value.1 < r.value.2 <= |w|
  {
    if !Occurs(w, Marker, lo) then None
    else
      var open := RunEnd(w, lo + |Marker|, Space);
      if !(open + 1 < |w| && w[open] == '(' && w[open + 1] == '"') then None
      else
        var tagLo := RunEnd(w, open + 2, Space);
        var tagHi := RunEnd(w, tagLo, Letter);
        if tagHi == tagLo then None else Some((open, tagLo, tagHi))
  }

  /** The greedy matcher after group 1: gives `(identLo, identHi, semi)`.
      `\s+` keeps the longest run, so group 2 starts where it stops. */
  function ParseTail(w: string, tagHi: nat): (r: Option<(nat, nat, nat)>)
    requires tagHi <= |w|
    ensures r.Some? ==> tagHi < r.value.0 <= r.value.1 && r.value.1 + 2 <= r.value.2 < |w|
    ensures r.Some? ==> r.value.0 == RunEnd(w, tagHi, Space)
  {
    var identLo := RunEnd(w, tagHi, Space);
    if identLo == tagHi then None
    else
      var identHi := RunEnd(w, identLo, NotQuote);
      if !(identHi + 1 < |w| && w[identHi] == '"' && w[identHi + 1] == ')') then None
      else
        var semi := RunEnd(w, identHi + 2, Space);
        if !(semi < |w| && w[semi] == ';') then None
        else Some((identLo, identHi, semi))
  }

  /** The match the backtracking matcher finds when it starts at `lo`, if
      any. Every quantifier but one has a single choice that can succeed;
      the `\s+` before group 2 could give characters back to group 2, and
      being greedy it does not. */
  function ParseAt(w: string, lo: nat): (r: Option<Parse>)
    ensures r.Some? ==> r.value.tagHi <= |w| && r.value.identLo == RunEnd(w, r.value.tagHi, Space)
    ensures r.Some? ==> r.value.identLo <= r.value.identHi < r.value.semi < |w|
  {
    var head := ParseHead(w, lo);
    if head.None? then None
    else
      var tail := ParseTail(w, head.value.2);
      if tail.None? then None
      else Some(Parse(head.value.0, head.value.1, head.value.2, tail.value.0, tail.value.1, tail.value.2))
  }

  lemma HeadSound(w: string, lo: nat)
    requires ParseHead(w, lo).Some?
    ensures HeadDerives(w, lo, ParseHead(w, lo).value.0, ParseHead(w, lo).value.1, ParseHead(w, lo).value.2)
  {
    var open := RunEnd(w, lo + |Marker|, Space);
    RunEndAllIn(w, lo + |Marker|, Space);
    RunEndAllIn(w, open + 2, Space);
    RunEndAllIn(w, RunEnd(w, open + 2, Space), Letter);
  }

  lemma TailSound(w: string, tagHi: nat)
    requires tagHi <= |w| && ParseTail(w, tagHi).Some?
    ensures TailDerives(w, tagHi, ParseTail(w, tagHi).value.0, ParseTail(w, tagHi).value.1, ParseTail(w, tagHi).value.2)
  {
    var identLo := RunEnd(w, tagHi, Space);
    var identHi := RunEnd(w, identLo, NotQuote);
    RunEndAllIn(w, tagHi, Space);
    RunEndAllIn(w, identLo, NotQuote);
    RunEndAllIn(w, identHi + 2, Space);
  }

  /** Whatever ParseAt returns is a reading of a call. */
  lemma ParseAtSound(w: string, lo: nat)
    requires ParseAt(w, lo).Some?
    ensures Derives(w, lo, ParseAt(w, lo).value)
  {
    HeadSound(w, lo);
    TailSound(w, ParseHead(w, lo).value.2);
  }

  lemma HeadComplete(w: string, lo: nat, open: nat, tagLo: nat, tagHi: nat)
    requires HeadDerives(w, lo, open, tagLo, tagHi)
    requires tagHi < |w| ==> !IsLetter(w[tagHi])
    ensures ParseHead(w, lo) == Some((open, tagLo, tagHi))
  {
    RunEndUnique(w, lo + |Marker|, open, Space);
    assert InClass(w[tagLo], Letter);
    RunEndUnique(w, open + 2, tagLo, Space);
    RunEndUnique(w, tagLo, tagHi, Letter);
  }

  lemma TailComplete(w: string, tagHi: nat, identLo: nat, identHi: nat, semi: nat)
    requires TailDerives(w, tagHi, identLo, identHi, semi)
    ensures identLo <= RunEnd(w, tagHi, Space) <= identHi
    ensures ParseTail(w, tagHi) == Some((RunEnd(w, tagHi, Space), identHi, semi))
  {
    var g := RunEnd(w, tagHi, Space);
    RunEndAllIn(w, tagHi, Space);
    assert !InClass(w[identHi], Space);
    assert identLo <= g <= identHi;
    RunEndUnique(w, g, identHi, NotQuote);
    RunEndUnique(w, identHi + 2, semi, Space);
  }

  /** Any reading of the text as a call is found by ParseAt, which differs
      from it at most in taking a longer `\s+` before group 2. So where a
      match starts decides where it ends and where group 1 lies. */
  lemma ParseAtComplete(w: string, lo: nat, p: Parse)
    requires Derives(w, lo, p)
    ensures p.identLo <= RunEnd(w, p.tagHi, Space) <= p.identHi
    ensures ParseAt(w, lo) == Some(p.(identLo := RunEnd(w, p.tagHi, Space)))
  {
    assert !InClass(w[p.tagHi], Letter) by {
      assert InClass(w[p.tagHi], Space);
    }
    HeadComplete(w, lo, p.open, p.tagLo, p.tagHi);
    TailComplete(w, p.tagHi, p.identLo, p.identHi, p.semi);
  }

  function ToMatch(lo: nat, p: Parse): Match {
    Match(Span(lo, p.semi + 1), Span(p.tagLo, p.tagHi), Span(p.identLo, p.identHi))
  }

  /** The pattern tried at one starting position, as an ovector. */
  function MatchAt(w: string, lo: nat): Option<Match> {
    match ParseAt(w, lo)
    case None => None
    case Some(p) => Some(ToMatch(lo, p))
  }

  /** What every match guarantees about its ovector: it starts with the
      marker and ends with `;`, group 1 is a non-empty run of letters,
      group 2 holds no quote and starts at a character outside `\s` (a
      letter of it, or the closing quote when it is empty), and both
      groups lie inside the match. */
  predicate WellFormed(w: string, m: Match) {
    && m.full.lo + |Marker| < m.tag.lo < m.tag.hi < m.ident.lo <= m.ident.hi < m.full.hi <= |w|
    && w[m.full.lo..m.full.lo + |Marker|] == Marker && w[m.full.hi - 1] == ';'
    && AllIn(w, m.tag.lo, m.tag.hi, Letter)
    && AllIn(w, m.ident.lo, m.ident.hi, NotQuote)
    && !IsSpace(w[m.ident.lo])
  }

  lemma MatchWellFormed(w: string, lo: nat)
    requires MatchAt(w, lo).Some?
    ensures MatchAt(w, lo).value.full.lo == lo && WellFormed(w, MatchAt(w, lo).value)
  {
    var p := ParseAt(w, lo).value;
    ParseAtSound(w, lo);
    assert !InClass(w[p.identLo], Space);
  }

  /** The spans of an ovector lie in order inside the subject. */
  predicate InBounds(w: string, m: Match) {
    m.full.lo <= m.tag.lo <= m.tag.hi <= m.ident.lo <= m.ident.hi <= m.full.hi <= |w|
  }

  /** pcre2_match without options: the leftmost starting position at or
      after `from` where the pattern matches. */
  function SearchFrom(w: string, from: nat): (r: Option<Match>)
    ensures r.Some? ==> from <= r.value.full.lo && InBounds(w, r.value)
    decreases |w| + 1 - from, 1
  {
    if from > |w| then None else SearchAt(w, from)
  }

  /** One step of the search: the match at `at`, or else the search from
      the next position. */
  function SearchAt(w: string, at: nat): (r: Option<Match>)
    requires at <= |w|
    ensures r.Some? ==> at <= r.value.full.lo && InBounds(w, r.value)
    decreases |w| + 1 - at, 0
  {
    match MatchAt(w, at)
    case Some(m) => Some(m)
    case None => SearchFrom(w, at + 1)
  }

  /** Past the end of the subject nothing matches. */
  lemma NoMatchPastEnd(w: string, j: nat)
    requires j > |w|
    ensures MatchAt(w, j).None?
  {
    assert !Occurs(w, Marker, j);
  }

  /** What the search reports is the match at the position it names. */
  lemma {:induction false} SearchFromFound(w: string, from: nat)
    requires SearchFrom(w, from).Some?
    ensures MatchAt(w, SearchFrom(w, from).value.full.lo) == SearchFrom(w, from)
    decreases |w| + 1 - from
  {
    if MatchAt(w, from).None? {
      SearchFromFound(w, from + 1);
    } else {
      assert MatchAt(w, from).value.full.lo == from;
    }
  }

  /** Nothing matches between `from` and the position the search reports,
      nor anywhere at or after `from` when it reports nothing. */
  lemma {:induction false} SearchFromLeftmost(w: string, from: nat, j: nat)
    requires from <= j
    requires SearchFrom(w, from).None? || j < SearchFrom(w, from).value.full.lo
    ensures MatchAt(w, j).None?
    decreases |w| + 1 - from
  {
    if from > |w| {
      NoMatchPastEnd(w, j);
    } else if MatchAt(w, from).None? && from < j {
      SearchFromLeftmost(w, from + 1, j);
    }
  }

  /** A match at `lo` with none between `from` and `lo` is what the search
      from `from` reports. */
  lemma {:induction false} SearchFromReaches(w: string, from: nat, lo: nat)
    requires from <= lo && MatchAt(w, lo).Some?
    requires forall j: nat :: from <= j < lo ==> MatchAt(w, j).None?
    ensures SearchFrom(w, from) == MatchAt(w, lo)
    decreases lo - from
  {
    if lo <= |w| && from < lo {
      SearchFromReaches(w, from + 1, lo);
    } else if lo > |w| {
      NoMatchPastEnd(w, lo);
    }
  }

  /** The match pcre2_match reports for a whole subject. */
  function FindMatch(w: string): (r: Option<Match>)
    ensures r.Some? ==> InBounds(w, r.value)
  {
    SearchFrom(w, 0)
  }

  /** Every match reported is well formed. */
  lemma FindMatchWellFormed(w: string)
    requires FindMatch(w).Some?
    ensures WellFormed(w, FindMatch(w).value)
  {
    SearchFromFound(w, 0);
    MatchWellFormed(w, FindMatch(w).value.full.lo);
  }

  /** The match reported for a subject is the reading ParseAt gives at the
      match's start. */
  lemma FindMatchParse(w: string)
    requires FindMatch(w).Some?
    ensures ParseAt(w, FindMatch(w).value.full.lo).Some?
    ensures FindMatch(w).value == ToMatch(FindMatch(w).value.full.lo, ParseAt(w, FindMatch(w).value.full.lo).value)
  {
    SearchFromFound(w, 0);
  }

  /** A match at `lo` with none before it is the match reported. */
  lemma LeftmostMatch(w: string, lo: nat, p: Parse)
    requires ParseAt(w, lo) == Some(p)
    requires forall j: nat :: j < lo ==> MatchAt(w, j).None?
    ensures FindMatch(w) == Some(ToMatch(lo, p))
  {
    assert MatchAt(w, lo) == Some(ToMatch(lo, p));
    SearchFromReaches(w, 0, lo);
  }

  /** A reading shifted right by `s` positions. */
  function ShiftUp(p: Parse, s: nat): Parse {
    Parse(p.open + s, p.tagLo + s, p.tagHi + s, p.identLo + s, p.identHi + s, p.semi + s)
  }

  lemma AllInSlice(w: string, s: nat, e: nat, lo: nat, hi: nat, cls: CharClass)
    requires s <= e <= |w| && hi <= e - s
    ensures AllIn(w[s..e], lo, hi, cls) <==> AllIn(w, lo + s, hi + s, cls)
  {
    if AllIn(w, lo + s, hi + s, cls) {
      forall k | lo <= k < hi ensures InClass(w[s..e][k], cls) {
        assert w[s..e][k] == w[k + s];
      }
    }
  }

  lemma HeadSlice(w: string, s: nat, e: nat, lo: nat, p: Parse)
    requires s <= e <= |w| && p.tagHi <= e - s
    ensures HeadDerives(w[s..e], lo, p.open, p.tagLo, p.tagHi)
        <==> HeadDerives(w, lo + s, ShiftUp(p, s).open, ShiftUp(p, s).tagLo, ShiftUp(p, s).tagHi)
  {
    if lo + |Marker| <= p.open && p.open + 2 <= p.tagLo <= p.tagHi {
      SliceOfSlice(w, s, e, lo, lo + |Marker|);
      AllInSlice(w, s, e, lo + |Marker|, p.open, Space);
      AllInSlice(w, s, e, p.open + 2, p.tagLo, Space);
      AllInSlice(w, s, e, p.tagLo, p.tagHi, Letter);
    }
  }

  lemma TailSlice(w: string, s: nat, e: nat, p: Parse)
    requires s <= e <= |w| && p.semi < e - s
    ensures TailDerives(w[s..e], p.tagHi, p.identLo, p.identHi, p.semi)
        <==> TailDerives(w, ShiftUp(p, s).tagHi, ShiftUp(p, s).identLo, ShiftUp(p, s).identHi, ShiftUp(p, s).semi)
  {
    if p.tagHi <= p.identLo <= p.identHi && p.identHi + 2 <= p.semi {
      AllInSlice(w, s, e, p.tagHi, p.identLo, Space);
      AllInSlice(w, s, e, p.identLo, p.identHi, NotQuote);
      AllInSlice(w, s, e, p.identHi + 2, p.semi, Space);
    }
  }

  lemma SliceOfSlice(w: string, s: nat, e: nat, a: nat, b: nat)
    requires s <= e <= |w| && a <= b <= e - s
    ensures w[s..e][a..b] == w[s + a..s + b]
  {
    forall m | a <= m < b ensures w[s..e][m] == w[s + m] {
    }
  }

  /** What ParseAt accepts: a reading whose group 2 starts outside `\s`. */
  ghost predicate Accepts(w: string, lo: nat, p: Parse) {
    Derives(w, lo, p) && p.identLo < |w| && !IsSpace(w[p.identLo])
  }

  /** ParseAt succeeds exactly on the readings it accepts. */
  lemma ParseAtAccepts(w: string, lo: nat, p: Parse)
    ensures ParseAt(w, lo) == Some(p) <==> Accepts(w, lo, p)
  {
    if Accepts(w, lo, p) {
      ParseAtComplete(w, lo, p);
      RunEndUnique(w, p.tagHi, p.identLo, Space);
    }
    if ParseAt(w, lo) == Some(p) {
      ParseAtSound(w, lo);
      assert !InClass(w[p.identLo], Space);
    }
  }

  lemma DerivesSlice(w: string, s: nat, e: nat, lo: nat, p: Parse)
    requires s <= e <= |w| && p.tagHi <= p.semi < e - s
    ensures Derives(w[s..e], lo, p) <==> Derives(w, lo + s, ShiftUp(p, s))
  {
    HeadSlice(w, s, e, lo, p);
    TailSlice(w, s, e, p);
  }

  /** Reading a call inside a slice `w[s..e]` is reading it in `w` at the
      shifted positions, as long as the call ends inside the slice. */
  lemma AcceptsSlice(w: string, s: nat, e: nat, lo: nat, p: Parse)
    requires s <= e <= |w| && p.tagHi <= p.semi < e - s
    ensures Accepts(w[s..e], lo, p) <==> Accepts(w, lo + s, ShiftUp(p, s))
  {
    DerivesSlice(w, s, e, lo, p);
    var q := ShiftUp(p, s);
    if p.identLo < e - s {
      assert w[s..e][p.identLo] == w[q.identLo];
    }
  }

  /** Two accepted readings at the same start are the same reading: a
      match is determined by where it starts. */
  lemma AcceptsUnique(w: string, lo: nat, p: Parse, q: Parse)
    ensures Accepts(w, lo, p) && Accepts(w, lo, q) ==> p == q
  {
    ParseAtAccepts(w, lo, p);
    ParseAtAccepts(w, lo, q);
  }

  /** A match found in a slice is an accepted reading of the whole text at
      the shifted position, with the same groups, ending inside the slice. */
  lemma MatchInSliceIsCall(w: string, s: nat, e: nat, lo: nat)
    requires s <= e <= |w|
    ensures ParseAt(w[s..e], lo).Some? ==>
      ParseAt(w[s..e], lo).value.semi < e - s && Accepts(w, lo + s, ShiftUp(ParseAt(w[s..e], lo).value, s))
  {
    if ParseAt(w[s..e], lo).Some? {
      var p := ParseAt(w[s..e], lo).value;
      ParseAtAccepts(w[s..e], lo, p);
      AcceptsSlice(w, s, e, lo, p);
    }
  }

  /** An accepted reading of the whole text that ends inside the slice
      `w[s..e]` is what the matcher finds in the slice, at the shifted
      position. */
  lemma CallInSliceIsMatch(w: string, s: nat, e: nat, lo: nat, p: Parse)
    requires s <= e <= |w| && p.semi < e - s
    requires Accepts(w, lo + s, ShiftUp(p, s))
    ensures ParseAt(w[s..e], lo) == Some(p)
  {
    AcceptsSlice(w, s, e, lo, p);
    ParseAtAccepts(w[s..e], lo, p);
  }
}
