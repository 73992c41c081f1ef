/** The in-place field trimming of processFile: each of argument, tag and
    identifier is cut down to the part between the first and the last
    character outside " \t\n\r". */
module Trim {
  import opened Text

  predicate AllTrimSpace(s: string) {
    forall k :: 0 <= k < |s| ==> IsTrimSpace(s[k])
  }

  /** `s[i..i+|r|]` is `r` and everything around it is trim-space. */
  ghost predicate IsTrimmedSlice(s: string, i: int, r: string) {
    && 0 <= i && i + |r| <= |s| && r == s[i..i + |r|]
    && (forall k :: 0 <= k < i ==> IsTrimSpace(s[k]))
    && (forall k :: i + |r| <= k < |s| ==> IsTrimSpace(s[k]))
  }

  /** `s.find_first_not_of(" \t\n\r", from)`. */
  function FirstNotTrimSpace(s: string, from: nat): (r: Option<nat>)
    requires from <= |s|
    ensures r.Some? ==> from <= r.value < |s|
    decreases |s| - from
  {
    if from == |s| then None
    else if !IsTrimSpace(s[from]) then Some(from)
    else FirstNotTrimSpace(s, from + 1)
  }

  /** `s.find_last_not_of(" \t\n\r")` restricted to `s[..upto]`. */
  function LastNotTrimSpace(s: string, upto: nat): (r: Option<nat>)
    requires upto <= |s|
    ensures r.Some? ==> r.value < upto
    decreases upto
  {
    if upto == 0 then None
    else if !IsTrimSpace(s[upto - 1]) then Some(upto - 1)
    else LastNotTrimSpace(s, upto - 1)
  }

  /** The search forward stops at the first character outside the set. */
  lemma {:induction false} FirstNotTrimSpaceFinds(s: string, from: nat)
    requires from <= |s|
    ensures var r := FirstNotTrimSpace(s, from);
      && (r.Some? ==> !IsTrimSpace(s[r.value]) && forall k :: from <= k < r.value ==> IsTrimSpace(s[k]))
      && (r.None? ==> forall k :: from <= k < |s| ==> IsTrimSpace(s[k]))
    decreases |s| - from
  {
    if from < |s| && IsTrimSpace(s[from]) {
      FirstNotTrimSpaceFinds(s, from + 1);
    }
  }

  /** The search backward stops at the last character outside the set. */
  lemma {:induction false} LastNotTrimSpaceFinds(s: string, upto: nat)
    requires upto <= |s|
    ensures var r := LastNotTrimSpace(s, upto);
      && (r.Some? ==> !IsTrimSpace(s[r.value]) && forall k :: r.value < k < upto ==> IsTrimSpace(s[k]))
      && (r.None? ==> forall k :: 0 <= k < upto ==> IsTrimSpace(s[k]))
    decreases upto
  {
    if upto > 0 && IsTrimSpace(s[upto - 1]) {
      LastNotTrimSpaceFinds(s, upto - 1);
    }
  }

  /** The three-way branch applied to each field: both ends found, cut;
      no non-space character at all, empty; otherwise left as it is. */
  function TrimField(field: string): (r: string)
    ensures |r| <= |field|
  {
    var startPos := FirstNotTrimSpace(field, 0);
    var endPos := LastNotTrimSpace(field, |field|);
    if startPos.Some? && endPos.Some? then
      FirstNotTrimSpaceFinds(field, 0);
      LastNotTrimSpaceFinds(field, |field|);
      field[startPos.value..endPos.value + 1]
    else if startPos.None? then ""
    else field
  }

  /** The result is a slice of the field with only trim-space around it, it
      starts and ends outside the trim set, and it is empty exactly when
      the field is all trim-space. */
  lemma TrimFieldShape(field: string)
    ensures TrimField(field) == [] <==> AllTrimSpace(field)
    ensures TrimField(field) != [] ==> !IsTrimSpace(TrimField(field)[0]) && !IsTrimSpace(TrimField(field)[|TrimField(field)| - 1])
    ensures exists i :: IsTrimmedSlice(field, i, TrimField(field))
  {
    FirstNotTrimSpaceFinds(field, 0);
    LastNotTrimSpaceFinds(field, |field|);
    var startPos := FirstNotTrimSpace(field, 0);
    var endPos := LastNotTrimSpace(field, |field|);
    if startPos.Some? {
      assert endPos.Some? && startPos.value <= endPos.value;
      assert IsTrimmedSlice(field, startPos.value, TrimField(field));
    } else {
      assert IsTrimmedSlice(field, 0, "");
    }
  }

  /** Trimming removes exactly the maximal leading and trailing runs: any
      slice with trim-space on both sides and a non-space character at
      each end (or an empty slice of an all-space field) is the result. */
  lemma TrimExact(s: string, i: nat, j: nat)
    requires i <= j <= |s|
    requires forall k :: 0 <= k < i ==> IsTrimSpace(s[k])
    requires forall k :: j <= k < |s| ==> IsTrimSpace(s[k])
    requires i < j ==> !IsTrimSpace(s[i]) && !IsTrimSpace(s[j - 1])
    ensures TrimField(s) == s[i..j]
  {
    var r := TrimField(s);
    TrimFieldShape(s);
    var k :| IsTrimmedSlice(s, k, r);
    if i == j {
      assert AllTrimSpace(s);
    } else {
      assert r != [] by {
        assert !IsTrimSpace(s[i]);
      }
      assert k == i;
      assert k + |r| == j;
    }
  }

  /** Trimming an already trimmed field changes nothing. */
  lemma TrimIdempotent(s: string)
    ensures TrimField(TrimField(s)) == TrimField(s)
  {
    var r := TrimField(s);
    TrimFieldShape(s);
    if r != [] {
      TrimExact(r, 0, |r|);
    }
  }

  /** A field with no trim-space at either end is left as it is. */
  lemma TrimKeeps(s: string)
    requires s != [] ==> !IsTrimSpace(s[0]) && !IsTrimSpace(s[|s| - 1])
    ensures TrimField(s) == s
  {
    TrimExact(s, 0, |s|);
  }

  /** Trimming `word + " " + rest`, where the word has no trim-space at its
      ends and `rest` does not start with one, trims `rest` only; an empty
      `rest` takes the separating space with it. */
  lemma TrimAfterWord(word: string, rest: string)
    requires word != [] && !IsTrimSpace(word[0]) && !IsTrimSpace(word[|word| - 1])
    requires rest != [] ==> !IsTrimSpace(rest[0])
    ensures TrimField(word + " " + rest) == if rest == [] then word else word + " " + TrimField(rest)
  {
    var s := word + " " + rest;
    if rest == [] {
      TrimExact(s, 0, |word|);
      assert s[..|word|] == word;
    } else {
      var t := TrimField(rest);
      TrimFieldShape(rest);
      var k :| IsTrimmedSlice(rest, k, t);
      assert t != [];
      assert k == 0;
      var j := |word| + 1 + |t|;
      assert forall m :: j <= m < |s| ==> s[m] == rest[m - |word| - 1];
      assert s[j - 1] == rest[|t| - 1] == t[|t| - 1];
      TrimExact(s, 0, j);
      assert s[..j] == word + " " + t;
    }
  }
}
