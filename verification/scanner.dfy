/** processFile: every occurrence of the marker opens a window of at most
    100 characters, the pattern is searched for in that window, and each
    match becomes one FunctionCall record. The file's content is a
    parameter; a file that cannot be opened is `None`. */
module Scanner {
  import opened Text
  import opened Trim
  import opened Pattern

  /** One row of the output: where the call was found and what it says. */
  datatype FunctionCall = FunctionCall(filename: string, fullCall: string, argument: string, tag: string, identifier: string)

  /** The longest stretch of content the pattern is shown at once. */
  const WindowCap: nat := 100

  /** `fs::path(path).filename()`, simplified: the text after the last `/`. */
  function BaseName(path: string): (r: string)
    ensures |r| <= |path|
    decreases |path|
  {
    if path == [] || path[|path| - 1] == '/' then []
    else BaseName(path[..|path| - 1]) + [path[|path| - 1]]
  }

  /** The base name is the longest suffix of the path without a `/`: it is
      a suffix, holds no `/`, and is either the whole path or preceded by a
      `/`. */
  lemma {:induction false} BaseNameShape(path: string)
    ensures var r := BaseName(path);
      && r == path[|path| - |r|..]
      && '/' !in r
      && (|r| < |path| ==> path[|path| - |r| - 1] == '/')
    decreases |path|
  {
    if path != [] && path[|path| - 1] != '/' {
      var init := path[..|path| - 1];
      BaseNameShape(init);
      var r := BaseName(path);
      assert r == BaseName(init) + [path[|path| - 1]];
      assert path[|path| - |r|..] == init[|init| - |BaseName(init)|..] + [path[|path| - 1]];
    }
  }

  /** `min<size_t>(100, content.length() - start)`. */
  function WindowLen(content: string, start: nat): nat
    requires start <= |content|
  {
    Min(WindowCap, |content| - start)
  }

  /** `content.substr(start, max_len)`. */
  function Window(content: string, start: nat): string
    requires start <= |content|
  {
    content[start..start + WindowLen(content, start)]
  }

  /** The window stays inside the content, holds at most 100 characters,
      stops early only at the end of the content, and starts with the
      marker when one occurs at `start`. */
  lemma WindowShape(content: string, start: nat)
    requires start <= |content|
    ensures |Window(content, start)| <= WindowCap
    ensures |Window(content, start)| == WindowCap || start + |Window(content, start)| == |content|
    ensures Window(content, start) == content[start..start + |Window(content, start)|]
    ensures Occurs(content, Marker, start) ==> Window(content, start)[..|Marker|] == Marker
  {
    if Occurs(content, Marker, start) {
      SliceOfSlice(content, start, start + WindowLen(content, start), 0, |Marker|);
    }
  }

  /** The record processFile fills in from the matched text: the base name
      of the path, the whole call, `tag + " " + identifier` as the argument,
      and then the argument, the tag and the identifier each trimmed. */
  function MakeRecord(path: string, fullCall: string, tag: string, identifier: string): FunctionCall {
    FunctionCall(BaseName(path), fullCall, TrimField(tag + " " + identifier), TrimField(tag), TrimField(identifier))
  }

  /** A match of the window read back as a record: fullCall comes from the
      content at the window's offset, tag and identifier from the window. */
  function RecordOf(path: string, content: string, start: nat, m: Match): FunctionCall
    requires start <= |content| && m.full.lo <= m.full.hi <= WindowLen(content, start)
    requires m.tag.lo <= m.tag.hi <= m.full.hi && m.ident.lo <= m.ident.hi <= m.full.hi
  {
    MakeRecord(path, content[start + m.full.lo..start + m.full.hi],
               Window(content, start)[m.tag.lo..m.tag.hi], Window(content, start)[m.ident.lo..m.ident.hi])
  }

  /** What processFile records for the marker at `start`, if anything. */
  function RecordAt(path: string, content: string, start: nat): Option<FunctionCall>
    requires start <= |content|
  {
    match FindMatch(Window(content, start))
    case None => None
    case Some(m) => Some(RecordOf(path, content, start, m))
  }

  /** Positions of a reading, in order. */
  predicate Ordered(lo: nat, p: Parse) {
    lo <= p.tagLo <= p.tagHi <= p.identLo <= p.identHi <= p.semi
  }

  /** An accepted reading is ordered, ends inside the text, has a
      non-empty run of letters as group 1 and a group 2 that does not start
      with `\s`. */
  lemma AcceptsOrdered(w: string, lo: nat, p: Parse)
    ensures Accepts(w, lo, p) ==> Ordered(lo, p) && p.semi < |w|
    ensures Accepts(w, lo, p) ==> p.tagLo < p.tagHi && AllIn(w, p.tagLo, p.tagHi, Letter)
    ensures Accepts(w, lo, p) && p.identLo < p.identHi ==> !IsSpace(w[p.identLo])
  {
  }

  /** The record a call of the content stands for, read off the call
      itself: its text from the marker to the `;`, group 1 as the tag,
      group 2 without trailing trim-space as the identifier, and the two
      joined by one space as the argument (just the tag when the identifier
      is empty). */
  function CallRecord(path: string, content: string, lo: nat, p: Parse): FunctionCall
    requires Ordered(lo, p) && p.semi < |content|
  {
    var tag := content[p.tagLo..p.tagHi];
    var identifier := TrimField(content[p.identLo..p.identHi]);
    FunctionCall(BaseName(path), content[lo..p.semi + 1],
                 if identifier == [] then tag else tag + " " + identifier, tag, identifier)
  }

  /** `c` is the record of a call starting at `lo` that is accepted in the
      content and ends inside the window opened at `start`. */
  ghost predicate IsCallRecord(path: string, content: string, start: nat, lo: nat, p: Parse, c: FunctionCall) {
    && start <= lo && Accepts(content, lo, p) && p.semi < start + WindowCap
    && Ordered(lo, p) && p.semi < |content|
    && c == CallRecord(path, content, lo, p)
  }

  /** The trimming of the three fields of a match: the tag is untouched,
      the identifier loses only trailing trim-space (it starts outside
      `\s`), and the argument comes out as the tag, a space and the trimmed
      identifier, or the tag alone when the identifier is empty. */
  lemma TrimmedFields(tag: string, raw: string)
    requires tag != [] && forall k :: 0 <= k < |tag| ==> IsLetter(tag[k])
    requires raw != [] ==> !IsSpace(raw[0])
    ensures TrimField(tag) == tag
    ensures TrimField(raw) == [] <==> raw == []
    ensures TrimField(raw) == raw[..|TrimField(raw)|]
    ensures TrimField(tag + " " + raw) == if raw == [] then tag else tag + " " + TrimField(raw)
  {
    assert IsLetter(tag[0]) && IsLetter(tag[|tag| - 1]);
    TrimKeeps(tag);
    TrimAfterWord(tag, raw);
    TrimFieldShape(raw);
    if raw != [] {
      assert !IsTrimSpace(raw[0]);
    }
  }

  /** A slice of the window is the slice of the content at the window's
      offset. */
  lemma WindowSlice(content: string, start: nat, a: nat, b: nat, c: nat, d: nat)
    requires start <= |content| && a <= b <= WindowLen(content, start)
    requires c == start + a && d == start + b
    ensures Window(content, start)[a..b] == content[c..d]
  {
    SliceOfSlice(content, start, start + WindowLen(content, start), a, b);
  }

  /** The record built from the ovector of the reading `q` takes its text
      fields from the content, at the positions of `p`, which is `q`
      shifted by the window's offset. */
  lemma RecordOfContent(path: string, content: string, start: nat, lo: nat, q: Parse, p: Parse)
    requires start <= |content| && q.semi < WindowLen(content, start) && Ordered(lo, q)
    requires p == ShiftUp(q, start)
    ensures RecordOf(path, content, start, ToMatch(lo, q))
         == MakeRecord(path, content[start + lo..p.semi + 1], content[p.tagLo..p.tagHi], content[p.identLo..p.identHi])
  {
    WindowSlice(content, start, q.tagLo, q.tagHi, p.tagLo, p.tagHi);
    WindowSlice(content, start, q.identLo, q.identHi, p.identLo, p.identHi);
    assert start + ToMatch(lo, q).full.hi == p.semi + 1;
  }

  /** Filling in a record from the text of an accepted call gives the
      record of that call: trimming leaves the tag alone and cuts only the
      end of the identifier. */
  lemma MakeRecordOfCall(path: string, content: string, lo: nat, p: Parse)
    requires Ordered(lo, p) && p.semi < |content|
    requires p.tagLo < p.tagHi && AllIn(content, p.tagLo, p.tagHi, Letter)
    requires p.identLo < p.identHi ==> !IsSpace(content[p.identLo])
    ensures MakeRecord(path, content[lo..p.semi + 1], content[p.tagLo..p.tagHi], content[p.identLo..p.identHi])
         == CallRecord(path, content, lo, p)
  {
    var tag := content[p.tagLo..p.tagHi];
    forall k | 0 <= k < |tag| ensures IsLetter(tag[k]) {
      assert InClass(content[p.tagLo + k], Letter);
    }
    TrimmedFields(tag, content[p.identLo..p.identHi]);
  }

  /** A reading the matcher finds in the window is a call of the content,
      shifted by the window's offset, that ends inside the window. */
  lemma WindowMatchIsCall(content: string, start: nat, lo: nat, q: Parse)
    requires start <= |content| && ParseAt(Window(content, start), lo) == Some(q)
    ensures q.semi < WindowLen(content, start) && Ordered(lo, q)
    ensures Accepts(content, start + lo, ShiftUp(q, start))
  {
    MatchInSliceIsCall(content, start, start + WindowLen(content, start), lo);
    AcceptsOrdered(content, start + lo, ShiftUp(q, start));
  }

  /** The record at a marker is the record of the match the search of its
      window reports. */
  lemma RecordAtFound(path: string, content: string, start: nat, m: Match)
    requires start <= |content| && FindMatch(Window(content, start)) == Some(m)
    ensures m.full.lo <= m.full.hi <= WindowLen(content, start)
    ensures m.tag.lo <= m.tag.hi <= m.full.hi && m.ident.lo <= m.ident.hi <= m.full.hi
    ensures RecordAt(path, content, start) == Some(RecordOf(path, content, start, m))
  {
  }

  /** The record built from the reading `q` of the window is the record of
      the call `p`, which is `q` shifted by the window's offset. */
  lemma RecordOfCall(path: string, content: string, start: nat, lo: nat, q: Parse, at: nat, p: Parse)
    requires start <= |content| && q.semi < WindowLen(content, start) && Ordered(lo, q)
    requires at == start + lo && p == ShiftUp(q, start)
    requires Ordered(at, p) && p.semi < |content|
    requires p.tagLo < p.tagHi && AllIn(content, p.tagLo, p.tagHi, Letter)
    requires p.identLo < p.identHi ==> !IsSpace(content[p.identLo])
    ensures RecordOf(path, content, start, ToMatch(lo, q)) == CallRecord(path, content, at, p)
  {
    RecordOfContent(path, content, start, lo, q, p);
    MakeRecordOfCall(path, content, at, p);
  }

  /** When the search of the window settles on the reading `q` at `lo`,
      the record is the record of the call `p` at `at`, which is `q` and
      `lo` shifted by the window's offset. */
  lemma RecordOfWindowMatch(path: string, content: string, start: nat, lo: nat, q: Parse, at: nat, p: Parse)
    requires start <= |content| && FindMatch(Window(content, start)) == Some(ToMatch(lo, q))
    requires q.semi < WindowLen(content, start) && Ordered(lo, q)
    requires at == start + lo && p == ShiftUp(q, start)
    requires Ordered(at, p) && p.semi < |content|
    requires p.tagLo < p.tagHi && AllIn(content, p.tagLo, p.tagHi, Letter)
    requires p.identLo < p.identHi ==> !IsSpace(content[p.identLo])
    ensures RecordAt(path, content, start) == Some(CallRecord(path, content, at, p))
  {
    RecordAtFound(path, content, start, ToMatch(lo, q));
    RecordOfCall(path, content, start, lo, q, at, p);
  }

  lemma CallRecordFits(path: string, content: string, start: nat, lo: nat, p: Parse, c: FunctionCall)
    requires start <= lo && Accepts(content, lo, p) && p.semi < start + WindowCap
    requires Ordered(lo, p) && p.semi < |content| && c == CallRecord(path, content, lo, p)
    ensures IsCallRecord(path, content, start, lo, p, c)
  {
  }

  /** Every record is the record of a call of the content that starts at
      or after the marker and ends inside its window. */
  lemma RecordIsCall(path: string, content: string, start: nat, c: FunctionCall)
    requires start <= |content| && RecordAt(path, content, start) == Some(c)
    ensures exists lo: nat, p: Parse :: IsCallRecord(path, content, start, lo, p, c)
  {
    var w := Window(content, start);
    FindMatchParse(w);
    var lo := FindMatch(w).value.full.lo;
    var q := ParseAt(w, lo).value;
    var at := start + lo;
    var p := ShiftUp(q, start);
    WindowMatchIsCall(content, start, lo, q);
    AcceptsOrdered(content, at, p);
    RecordOfWindowMatch(path, content, start, lo, q, at, p);
    assert p.semi < start + WindowCap by {
      assert p.semi == q.semi + start;
    }
    CallRecordFits(path, content, start, at, p, c);
  }

  /** What every record holds: the base name of its file; a call text
      that starts with the marker, ends with `;` and is no longer than the
      window; a non-empty tag of letters; an identifier without quotes and
      without trim-space at either end; and the argument built from the
      tag and the untrimmed identifier, which comes out as the tag, a space
      and the identifier, or the tag alone. */
  predicate RecordShaped(path: string, c: FunctionCall) {
    && c.filename == BaseName(path)
    && |Marker| < |c.fullCall| <= WindowCap
    && c.fullCall[..|Marker|] == Marker && c.fullCall[|c.fullCall| - 1] == ';'
    && c.tag != [] && (forall k :: 0 <= k < |c.tag| ==> IsLetter(c.tag[k]))
    && '"' !in c.identifier
    && (c.identifier != [] ==> !IsTrimSpace(c.identifier[0]) && !IsTrimSpace(c.identifier[|c.identifier| - 1]))
    && c.argument == if c.identifier == [] then c.tag else c.tag + " " + c.identifier
  }

  /** The text of an accepted call: the marker at its start, the `;` at
      its end, a quote-free group 2 and a non-empty group 1 of letters. */
  lemma AcceptsEnds(w: string, lo: nat, p: Parse)
    requires Accepts(w, lo, p)
    ensures Occurs(w, Marker, lo) && lo + |Marker| < p.semi < |w| && w[p.semi] == ';'
    ensures p.identLo <= p.identHi <= |w| && forall k :: p.identLo <= k < p.identHi ==> w[k] != '"'
  {
    assert AllIn(w, p.identLo, p.identHi, NotQuote);
    assert forall k :: p.identLo <= k < p.identHi ==> InClass(w[k], NotQuote);
  }

  lemma CallTextShape(content: string, lo: nat, semi: nat, text: string)
    requires Occurs(content, Marker, lo) && lo + |Marker| < semi < |content| && content[semi] == ';'
    requires text == content[lo..semi + 1]
    ensures |Marker| < |text| && text[..|Marker|] == Marker && text[|text| - 1] == ';'
  {
    assert text[..|Marker|] == content[lo..lo + |Marker|];
  }

  lemma IdentifierShape(raw: string, ident: string)
    requires '"' !in raw && ident == TrimField(raw)
    ensures '"' !in ident
    ensures ident != [] ==> !IsTrimSpace(ident[0]) && !IsTrimSpace(ident[|ident| - 1])
  {
    TrimFieldShape(raw);
    var i :| IsTrimmedSlice(raw, i, ident);
    assert ident == raw[i..i + |ident|];
  }

  lemma CallRecordShaped(path: string, content: string, start: nat, lo: nat, p: Parse, c: FunctionCall)
    requires IsCallRecord(path, content, start, lo, p, c)
    ensures RecordShaped(path, c)
  {
    AcceptsOrdered(content, lo, p);
    AcceptsEnds(content, lo, p);
    CallTextShape(content, lo, p.semi, c.fullCall);
    var raw := content[p.identLo..p.identHi];
    assert '"' !in raw by {
      assert forall k :: 0 <= k < |raw| ==> raw[k] == content[p.identLo + k];
    }
    IdentifierShape(raw, c.identifier);
    forall k | 0 <= k < |c.tag| ensures IsLetter(c.tag[k]) {
      assert c.tag[k] == content[p.tagLo + k];
      assert InClass(content[p.tagLo + k], Letter);
    }
  }

  /** Every record the scanner makes has the shape of a call. */
  lemma RecordShape(path: string, content: string, start: nat, c: FunctionCall)
    requires start <= |content| && RecordAt(path, content, start) == Some(c)
    ensures RecordShaped(path, c)
  {
    RecordIsCall(path, content, start, c);
    var lo: nat, p: Parse :| IsCallRecord(path, content, start, lo, p, c);
    CallRecordShaped(path, content, start, lo, p, c);
  }

  /** A reading shifted left by `s` positions. */
  function ShiftDown(p: Parse, s: nat): Parse
    requires s <= p.open && s <= p.tagLo && s <= p.tagHi && s <= p.identLo && s <= p.identHi && s <= p.semi
  {
    Parse(p.open - s, p.tagLo - s, p.tagHi - s, p.identLo - s, p.identHi - s, p.semi - s)
  }

  /** A call of the content that ends inside the window is what the
      matcher reads at the same place in the window. */
  lemma CallInWindowIsMatch(content: string, start: nat, lo: nat, q: Parse)
    requires start <= |content| && q.semi < WindowLen(content, start)
    requires Accepts(content, start + lo, ShiftUp(q, start))
    ensures ParseAt(Window(content, start), lo) == Some(q)
  {
    CallInSliceIsMatch(content, start, start + WindowLen(content, start), lo, q);
  }

  /** Without a call that starts in `[start, lo)` and ends inside the
      window, the matcher finds nothing in the window before `lo - start`. */
  lemma NoEarlierWindowMatch(content: string, start: nat, lo: nat)
    requires start <= lo <= |content|
    requires forall j: nat, q: Parse :: start <= j < lo && q.semi < start + WindowLen(content, start) ==> !Accepts(content, j, q)
    ensures forall j: nat :: j < lo - start ==> MatchAt(Window(content, start), j).None?
  {
    var e := start + WindowLen(content, start);
    forall j: nat | j < lo - start ensures MatchAt(Window(content, start), j).None? {
      MatchInSliceIsCall(content, start, e, j);
    }
  }

  /** The leftmost call that starts at or after the marker at `start` and
      ends inside its window is what the search of the window reports. */
  lemma LeftmostCallIsFound(content: string, start: nat, lo: nat, p: Parse)
    requires start <= lo && Accepts(content, lo, p) && p.semi < start + WindowLen(content, start)
    requires forall j: nat, q: Parse :: start <= j < lo && q.semi < start + WindowLen(content, start) ==> !Accepts(content, j, q)
    ensures Ordered(lo, p) && Ordered(lo - start, ShiftDown(p, start)) && ShiftUp(ShiftDown(p, start), start) == p
    ensures FindMatch(Window(content, start)) == Some(ToMatch(lo - start, ShiftDown(p, start)))
  {
    AcceptsOrdered(content, lo, p);
    var q := ShiftDown(p, start);
    assert ShiftUp(q, start) == p;
    CallInWindowIsMatch(content, start, lo - start, q);
    NoEarlierWindowMatch(content, start, lo);
    LeftmostMatch(Window(content, start), lo - start, q);
  }

  /** The leftmost call that starts at or after the marker at `start` and
      ends inside its window gives the record, whichever marker it begins
      with. */
  lemma RecordOfLeftmostCall(path: string, content: string, start: nat, lo: nat, p: Parse)
    requires start <= lo && Accepts(content, lo, p) && p.semi < start + WindowLen(content, start)
    requires forall j: nat, q: Parse :: start <= j < lo && q.semi < start + WindowLen(content, start) ==> !Accepts(content, j, q)
    ensures RecordAt(path, content, start) == Some(CallRecord(path, content, lo, p))
  {
    LeftmostCallIsFound(content, start, lo, p);
    AcceptsOrdered(content, lo, p);
    var d := lo - start;
    var q := ShiftDown(p, start);
    RecordOfWindowMatch(path, content, start, d, q, lo, p);
  }

  /** A call that starts at a marker and fits in its window is recorded
      from that marker. */
  lemma CallRecordedAtItsMarker(path: string, content: string, start: nat, p: Parse)
    requires Accepts(content, start, p) && p.semi < start + WindowCap
    ensures RecordAt(path, content, start) == Some(CallRecord(path, content, start, p))
  {
    AcceptsOrdered(content, start, p);
    RecordOfLeftmostCall(path, content, start, start, p);
  }

  /** A call longer than the window is never matched where it starts: the
      only reading at the window's first position ends past the window. */
  lemma LongCallNotMatched(content: string, start: nat, p: Parse)
    requires Accepts(content, start, p) && p.semi >= start + WindowCap
    ensures MatchAt(Window(content, start), 0).None?
  {
    AcceptsOrdered(content, start, p);
    var e := start + WindowLen(content, start);
    var r := ParseAt(Window(content, start), 0);
    MatchInSliceIsCall(content, start, e, 0);
    var q := if r.Some? then ShiftUp(r.value, start) else p;
    AcceptsUnique(content, start, p, q);
  }

  /** When the marker at `a` starts no call that fits its window before a
      later marker `b`, and the call at `b` ends inside the window at `a`,
      both markers give the same record: the unanchored search reaches
      forward to the later call. */
  lemma DuplicateRecord(path: string, content: string, a: nat, b: nat, p: Parse)
    requires a < b && Accepts(content, b, p) && p.semi < a + WindowCap
    requires forall j: nat, q: Parse :: a <= j < b && q.semi < a + WindowCap ==> !Accepts(content, j, q)
    ensures RecordAt(path, content, a) == Some(CallRecord(path, content, b, p))
    ensures RecordAt(path, content, b) == RecordAt(path, content, a)
  {
    AcceptsOrdered(content, b, p);
    RecordOfLeftmostCall(path, content, a, b, p);
    CallRecordedAtItsMarker(path, content, b, p);
  }

  /** The successive results of `content.find(marker, pos)` with `pos`
      starting at `from` and moving one past each hit: every occurrence at
      or after `from`, overlapping ones included, in increasing order. */
  function MarkersFrom(content: string, from: nat): (r: seq<nat>)
    ensures forall k :: 0 <= k < |r| ==> from <= r[k] && Occurs(content, Marker, r[k])
    decreases |content| - from
  {
    match FindFrom(content, Marker, from)
    case None => []
    case Some(pos) => [pos] + MarkersFrom(content, pos + 1)
  }

  /** No occurrence of the marker at or after `from` is skipped. */
  lemma {:induction false} MarkersFromComplete(content: string, from: nat, i: nat)
    requires from <= i && Occurs(content, Marker, i)
    ensures i in MarkersFrom(content, from)
    decreases |content| - from
  {
    var r := FindFrom(content, Marker, from);
    if r.None? || i < r.value {
      FindFromFirst(content, Marker, from, i);
    } else if r.value < i {
      MarkersFromComplete(content, r.value + 1, i);
    }
  }

  /** The positions come in increasing order. */
  lemma {:induction false} MarkersFromIncreasing(content: string, from: nat)
    ensures forall k, l :: 0 <= k < l < |MarkersFrom(content, from)| ==> MarkersFrom(content, from)[k] < MarkersFrom(content, from)[l]
    decreases |content| - from
  {
    match FindFrom(content, Marker, from)
    case None =>
    case Some(pos) =>
      MarkersFromIncreasing(content, pos + 1);
  }

  function OptionSeq(o: Option<FunctionCall>): seq<FunctionCall> {
    if o.Some? then [o.value] else []
  }

  /** The records of the markers at `starts`, in order: the record of each
      window where the pattern matches, nothing where it does not. */
  function Records(path: string, content: string, starts: seq<nat>): seq<FunctionCall>
    requires forall k :: 0 <= k < |starts| ==> starts[k] <= |content|
    decreases |starts|
  {
    if starts == [] then []
    else OptionSeq(RecordAt(path, content, starts[0])) + Records(path, content, starts[1..])
  }

  /** Each of the records comes from one of the markers. */
  lemma {:induction false} RecordsSound(path: string, content: string, starts: seq<nat>, c: FunctionCall)
    requires forall k :: 0 <= k < |starts| ==> starts[k] <= |content|
    requires c in Records(path, content, starts)
    ensures exists k :: 0 <= k < |starts| && RecordAt(path, content, starts[k]) == Some(c)
    decreases |starts|
  {
    if RecordAt(path, content, starts[0]) != Some(c) {
      RecordsSound(path, content, starts[1..], c);
      var k :| 0 <= k < |starts[1..]| && RecordAt(path, content, starts[1..][k]) == Some(c);
      assert starts[1..][k] == starts[k + 1];
    }
  }

  /** Each marker whose window matches contributes its record. */
  lemma {:induction false} RecordsComplete(path: string, content: string, starts: seq<nat>, k: nat)
    requires forall k :: 0 <= k < |starts| ==> starts[k] <= |content|
    requires k < |starts| && RecordAt(path, content, starts[k]).Some?
    ensures RecordAt(path, content, starts[k]).value in Records(path, content, starts)
    decreases k
  {
    if k > 0 {
      assert starts[1..][k - 1] == starts[k];
      RecordsComplete(path, content, starts[1..], k - 1);
    }
  }

  /** What the scan returns from `pos` on: the records from the next
      marker `find` reports, if there is one. */
  function ScanFrom(path: string, content: string, pos: nat): seq<FunctionCall>
    decreases |content| - pos, 1
  {
    match FindFrom(content, Marker, pos)
    case None => []
    case Some(at) => ScanAt(path, content, at)
  }

  /** The records from the marker at `at` on: its own, when its window
      matches, then the scan from one past it. */
  function ScanAt(path: string, content: string, at: nat): seq<FunctionCall>
    requires at < |content|
    decreases |content| - at, 0
  {
    OptionSeq(RecordAt(path, content, at)) + ScanFrom(path, content, at + 1)
  }

  /** What processFile returns for a file it could read. */
  function ScanContent(path: string, content: string): seq<FunctionCall> {
    ScanFrom(path, content, 0)
  }

  /** The markers from `from` on are the first one and those after it. */
  lemma MarkersStep(content: string, from: nat, pos: nat)
    requires FindFrom(content, Marker, from) == Some(pos)
    ensures MarkersFrom(content, from) == [pos] + MarkersFrom(content, pos + 1)
  {
  }

  /** One round of the scan: the records from the markers at or after
      `from` are the record of the first of them, if any, followed by the
      records from the markers after it. */
  lemma ScanStep(path: string, content: string, from: nat, pos: nat)
    requires FindFrom(content, Marker, from) == Some(pos)
    ensures pos < |content|
    ensures Records(path, content, MarkersFrom(content, from))
         == OptionSeq(RecordAt(path, content, pos)) + Records(path, content, MarkersFrom(content, pos + 1))
  {
    var rest := MarkersFrom(content, pos + 1);
    MarkersStep(content, from, pos);
    assert ([pos] + rest)[0] == pos && ([pos] + rest)[1..] == rest;
  }

  /** The body of processFile's loop for the marker at `start`: cut the
      window, run the matcher on it, and fill in and trim a record from
      the ovector when it matches. */
  method RecordAtMarker(path: string, content: string, start: nat) returns (r: Option<FunctionCall>)
    requires start <= |content|
    ensures r == RecordAt(path, content, start)
  {
    var candidate := Window(content, start);
    var m := FindMatch(candidate);
    if m.Some? {
      var ov := m.value;
      var fullCall := content[start + ov.full.lo..start + ov.full.hi];
      var tag := candidate[ov.tag.lo..ov.tag.hi];
      var identifier := candidate[ov.ident.lo..ov.ident.hi];
      var argument := tag + " " + identifier;
      argument := TrimField(argument);
      tag := TrimField(tag);
      identifier := TrimField(identifier);
      r := Some(FunctionCall(BaseName(path), fullCall, argument, tag, identifier));
    } else {
      r := None;
    }
  }

  /** One round of the scan, read off its definition. */
  lemma ScanFromStep(path: string, content: string, pos: nat, at: nat)
    requires FindFrom(content, Marker, pos) == Some(at)
    ensures ScanFrom(path, content, pos) == OptionSeq(RecordAt(path, content, at)) + ScanFrom(path, content, at + 1)
  {
    assert ScanFrom(path, content, pos) == ScanAt(path, content, at);
  }

  /** The loop invariant of processFile survives one marker: the records
      so far, the record of this marker, and the scan of what follows
      still make up the whole scan. */
  lemma ScanLoopStep(path: string, content: string, pos: nat, at: nat, calls: seq<FunctionCall>, record: Option<FunctionCall>)
    requires FindFrom(content, Marker, pos) == Some(at)
    requires calls + ScanFrom(path, content, pos) == ScanContent(path, content)
    requires record == RecordAt(path, content, at)
    ensures (calls + OptionSeq(record)) + ScanFrom(path, content, at + 1) == ScanContent(path, content)
  {
    ScanFromStep(path, content, pos, at);
    AppendAssoc(calls, OptionSeq(record), ScanFrom(path, content, at + 1));
  }

  lemma AppendAssoc<T>(a: seq<T>, b: seq<T>, c: seq<T>)
    ensures (a + b) + c == a + (b + c)
  {
  }

  /** processFile: nothing for an unreadable file; otherwise, for each
      marker found by `find` from `pos` (then `pos + 1`), the record of its
      window when the pattern matches there. */
  method ProcessFile(path: string, file: Option<string>) returns (calls: seq<FunctionCall>)
    ensures file.None? ==> calls == []
    ensures file.Some? ==> calls == ScanContent(path, file.value)
  {
    calls := [];
    if file.None? {
      return;
    }
    var content := file.value;
    var pos: nat := 0;
    var found := FindFrom(content, Marker, pos);
    while found.Some?
      invariant pos <= |content|
      invariant found == FindFrom(content, Marker, pos)
      invariant calls + ScanFrom(path, content, pos) == ScanContent(path, content)
      decreases |content| - pos
    {
      ghost var before := calls;
      var record := RecordAtMarker(path, content, found.value);
      ScanLoopStep(path, content, pos, found.value, before, record);
      pos := found.value;
      if record.Some? {
        calls := calls + [record.value];
      }
      assert calls == before + OptionSeq(record);
      pos := pos + 1;
      found := FindFrom(content, Marker, pos);
    }
  }

  /** The scan from `from` keeps, in order, the records of the markers at
      or after `from` whose window matches. */
  lemma {:induction false} ScanFromMarkers(path: string, content: string, from: nat)
    ensures ScanFrom(path, content, from) == Records(path, content, MarkersFrom(content, from))
    decreases |content| - from
  {
    match FindFrom(content, Marker, from)
    case None =>
    case Some(at) =>
      ScanFromStep(path, content, from, at);
      ScanStep(path, content, from, at);
      ScanFromMarkers(path, content, at + 1);
  }

  /** Content without the marker gives no records. */
  lemma ScanNoMarker(path: string, content: string)
    requires forall i :: !Occurs(content, Marker, i)
    ensures ScanContent(path, content) == []
  {
  }

  /** Every record of a file is the record of a genuine call that starts at
      or after a marker and ends inside that marker's 100-character window. */
  lemma ScanRecordsAreCalls(path: string, content: string, c: FunctionCall)
    requires c in ScanContent(path, content)
    ensures exists start: nat, lo: nat, p: Parse :: Occurs(content, Marker, start) && IsCallRecord(path, content, start, lo, p, c)
  {
    var ms := MarkersFrom(content, 0);
    ScanFromMarkers(path, content, 0);
    RecordsSound(path, content, ms, c);
    var k :| 0 <= k < |ms| && RecordAt(path, content, ms[k]) == Some(c);
    RecordIsCall(path, content, ms[k], c);
    var lo: nat, p: Parse :| IsCallRecord(path, content, ms[k], lo, p, c);
    assert Occurs(content, Marker, ms[k]) && IsCallRecord(path, content, ms[k], lo, p, c);
  }

  /** Every marker whose window matches has its record among the file's
      records. */
  lemma ScanKeepsMarkerRecord(path: string, content: string, lo: nat)
    requires Occurs(content, Marker, lo) && RecordAt(path, content, lo).Some?
    ensures RecordAt(path, content, lo).value in ScanContent(path, content)
  {
    var ms := MarkersFrom(content, 0);
    ScanFromMarkers(path, content, 0);
    MarkersFromComplete(content, 0, lo);
    var k :| 0 <= k < |ms| && ms[k] == lo;
    RecordsComplete(path, content, ms, k);
  }

  /** Every call of the content that fits in the window opened at its own
      marker has its record among the file's records. */
  lemma ScanFindsFittingCalls(path: string, content: string, lo: nat, p: Parse)
    requires Accepts(content, lo, p) && p.semi < lo + WindowCap
    ensures CallRecord(path, content, lo, p) in ScanContent(path, content)
  {
    AcceptsOrdered(content, lo, p);
    CallRecordedAtItsMarker(path, content, lo, p);
    ScanKeepsMarkerRecord(path, content, lo);
  }

  /** Every record of a file has the shape of a call. */
  lemma ScanRecordsShaped(path: string, content: string, c: FunctionCall)
    requires c in ScanContent(path, content)
    ensures RecordShaped(path, c)
  {
    ScanRecordsAreCalls(path, content, c);
    var start: nat, lo: nat, p: Parse :| Occurs(content, Marker, start) && IsCallRecord(path, content, start, lo, p, c);
    CallRecordShaped(path, content, start, lo, p, c);
  }
}
